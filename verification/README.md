# Blog application frontend — a Dafny model

This project models the client-side logic of a React blog frontend:

- the authentication context: login, registration, logout and profile update, and how the session is persisted in `localStorage` and restored on reload;
- the HTTP client's two interceptors: the Bearer header on every request, and the forced sign-out on a 401;
- the `useBlogs` data hook: list query construction and error messages;
- the create and edit article forms: tag editing, validation and request payloads;
- the home page: search, tag filter and pagination;
- the like button and the article page that hosts it;
- the comment section;
- the registration page's checks;
- the administrator dashboard's counters and table;
- the blog card's badge and tag row;
- the two maintenance scripts: the dependency lister, and the repairer for nameless namespace imports.

Each React component or hook becomes a module of pure functions from a state and the backend's answer to the next state. That next state includes what was sent and where the browser was sent. Backend replies, stored data and the date parser's results are inputs.

The modules are:

- `JsCore`: the JavaScript string and value semantics the code relies on. These are truthiness, `||` fallbacks, `trim`, `split`, `charAt(0).toUpperCase()` and UTF-16 `length`.
- `Entities`: the records the backend returns.
- `BrowserStorage`: `localStorage` as a typed map.
- `HttpClient`: the interceptors and error-message extraction.
- One module per component, hook or script.

The like button is modelled as written, not as its comment says. On a rejected `onLike` the catch block sets `isLiked` to the negation of the pre-click value, so the flip stays. It also resets the count to the `initialLikes` prop, not to the pre-click count. The code's own comment `// Revert on error` (src/components/LikeButton.jsx:29) promises a rollback that this code does not perform; the model follows the code (`LikeButton.Click`, `LikeButton.RejectedClickIsNotARollback`). On the article page the handler swallows every error, so that branch is never taken there (`BlogDetails.LikeButtonHereNeverReverts`).

## Model

| member | source | states |
|---|---|---|
| JsCore.Trim | src/pages/CreateBlog.jsx:31-34 | `trim()` never lengthens its input, and its result neither starts nor ends with white space |
| JsCore.TrimRemovesOnlySpace | src/pages/CreateBlog.jsx:31-34 | the trimmed text is a contiguous slice of the input, and everything cut off on either side is white space |
| JsCore.BlankIffAllSpace | src/components/CommentSection.jsx:13 | `!s.trim()` holds exactly when every character of `s` is white space (the empty string included) |
| JsCore.TrimIdempotent | src/pages/CreateBlog.jsx:31-34 | trimming an already trimmed tag changes nothing |
| JsCore.UpperFirst | src/components/BlogCard.jsx:30 | capitalising the first letter keeps the length and every character after the first |
| JsCore.UpperFirstIdempotent | src/pages/AdminDashboard.jsx:162 | capitalising a capitalised status label changes nothing |
| JsCore.IndexOf | scripts/list-imports.js:32 | the first occurrence of the separator, or -1 when it does not occur |
| JsCore.Split | scripts/list-imports.js:32-36 | `split('/')` yields at least one piece, and no piece contains the separator |
| JsCore.JoinSplit | scripts/list-imports.js:32-36 | joining the pieces of a split with the separator gives the input back, so nothing is lost |
| JsCore.SplitJoin | scripts/list-imports.js:32-33 | splitting undoes joining pieces that contain no separator |
| JsCore.SplitHead | scripts/list-imports.js:35-36 | the first piece of a split is the longest separator-free prefix |
| JsCore.SplitLast | scripts/fix-broken-imports.js:55 | the last piece of `split('-')` is everything after the last dash |
| JsCore.Utf16Length | src/pages/Register.jsx:35 | `length` counts UTF-16 code units: between one and two per character |
| JsCore.Or | src/pages/Register.jsx:45 | `a \|\| b` on strings is `a` when it is non-empty and `b` otherwise |
| JsCore.OrMissing | src/context/AuthContext.jsx:37 | an optional chained field with a fallback yields the field only when present and non-empty |
| BrowserStorage.StoredUser | src/context/AuthContext.jsx:14-18 | the `user` entry reads back as a user exactly when a user was stored there |
| BrowserStorage.StoredToken | src/api/axiosInstance.js:13-14 | the `token` entry counts only when present and non-empty |
| BrowserStorage.ClearSession | src/api/axiosInstance.js:27-29 | both session entries are removed and every other entry is kept |
| HttpClient.AttachAuth | src/api/axiosInstance.js:11-20 | the request carries `Authorization: Bearer <token>` exactly when a non-empty token is stored; other headers are kept |
| HttpClient.BearerRoundTrip | src/api/axiosInstance.js:13-15 | the token read back from the attached header is exactly the stored token |
| HttpClient.AttachedHeaderIsBearerCredentials | src/api/axiosInstance.js:15 | for a token of `b64token` syntax the header value has the `credentials` form of section 2.1 of RFC 6750 |
| HttpClient.Intercept | src/api/axiosInstance.js:23-34 | every error is still rejected to the caller unchanged; a 401, and only a 401, first clears both session entries and redirects to /login |
| HttpClient.MessageOr | src/hooks/useBlogs.js:30 | the response's non-empty `message`, else the fallback; never empty when the fallback is not |
| HttpClient.DetailOrMessageOr | src/context/AuthContext.jsx:62 | a non-empty `detail` wins over `message`, which wins over the fallback |
| Session.Mount | src/context/AuthContext.jsx:8-10 | the provider starts signed out, loading, without error |
| Session.Init | src/context/AuthContext.jsx:13-22 | the stored user is restored only when both entries are present; loading ends either way |
| Session.Reload | src/context/AuthContext.jsx:8-22 | a page load over some storage is signed in exactly when that storage holds a user and a non-empty token |
| Session.IsAuthenticated | src/context/AuthContext.jsx:101 | the context reports a session exactly when a user is held; `Reload` and the survives-reload lemmas state when that is so |
| Session.SignedIn | src/context/AuthContext.jsx:31-34 | a successful sign-in writes both entries, keeps all others, and publishes the user |
| Session.LoginBody | src/context/AuthContext.jsx:27 | the login request carries exactly the email and password |
| Session.Login | src/context/AuthContext.jsx:24-41 | success persists and publishes the response user; failure keeps the user, stores and throws the response message or 'Login failed', and passes through the 401 handling |
| Session.RegisterBody | src/context/AuthContext.jsx:46-51 | registration always asks for the ordinary `user` role |
| Session.Register | src/context/AuthContext.jsx:43-67 | as login, with the error text preferring `detail`, then `message`, then 'Registration failed' |
| Session.Logout | src/context/AuthContext.jsx:69-74 | both entries are removed and user and error are cleared; nothing else in storage changes |
| Session.UpdateProfile | src/context/AuthContext.jsx:77-91 | success overwrites only the `user` entry and publishes the returned user; failure throws the message or 'Update failed'; the loading flag is never touched |
| Session.FailureWithoutUnauthorizedKeepsSession | src/context/AuthContext.jsx:36-40 | a failed call that is not a 401 leaves storage and the signed-in user untouched |
| Session.LoginSurvivesReload | src/context/AuthContext.jsx:31-32 | after a successful login, a reload restores that user exactly when the token is non-empty |
| Session.LogoutSurvivesReload | src/context/AuthContext.jsx:69-74 | after logout, a reload finds no session |
| Session.UnauthorizedSignsOutAfterReload | src/api/axiosInstance.js:27-31 | after a 401 on any session call, a reload finds no session |
| Session.UpdateProfileSurvivesReload | src/context/AuthContext.jsx:83-84 | a profile update over a stored session is what a reload restores |
| Session.TransitionsKeepStorageWellTyped | src/context/AuthContext.jsx:31-35 | every transition writes entries of the kind the start-up effect reads back |
| Session.TransitionsKeepStoragePaired | src/context/AuthContext.jsx:69-84 | login, register, logout and a 401 keep the two entries present together or absent together; a profile update does so when a session exists |
| Session.UpdateProfileCanUnpair | src/context/AuthContext.jsx:83 | a profile update without a stored token leaves a user entry with no token beside it |
| BlogsHook.DefaultMessage | src/hooks/useBlogs.js:30-131 | every operation's fallback message is non-empty, so a failure always shows some text |
| BlogsHook.FailureMessage | src/hooks/useBlogs.js:30-32 | the thrown and stored message is the response message, else the operation's fallback; never empty |
| BlogsHook.DefaultMessagesDistinct | src/hooks/useBlogs.js:30-131 | different operations have different fallback messages |
| BlogsHook.ListQuery | src/hooks/useBlogs.js:15-17 | the query always has `page` and `limit`, and has `search` and `tag` exactly when they are non-empty |
| BlogsHook.InitialState | src/hooks/useBlogs.js:5-8 | no blogs, not loading, no error, pagination page 1, limit 10, total 0 |
| BlogsHook.BeginFetch | src/hooks/useBlogs.js:12-13 | while a fetch is in flight the error is cleared and the data is untouched |
| BlogsHook.FetchBlogsStep | src/hooks/useBlogs.js:10-36 | success replaces blogs (missing list becomes []) and pagination from the response; failure keeps the data, stores and throws the message; loading ends either way |
| BlogsHook.FetchBlogsDefault | src/hooks/useBlogs.js:10 | the default arguments ask for page 1 of 10 with no filters |
| BlogsHook.Call | src/hooks/useBlogs.js:38-135 | every other operation clears the error, and on failure stores and throws its own message; the list is never touched, and only `fetchBlogById` ends with loading off |
| BlogsHook.CallsKeepListAndReportLast | src/hooks/useBlogs.js:38-135 | after any series of other calls the list and pagination are as before, and the error is the last call's message if it failed and empty if it succeeded |
| BlogsHook.UnauthorizedCallSignsOut | src/api/axiosInstance.js:23-34 | a 401 on any of the hook's calls also removes both session entries and goes to /login, while the hook stores and throws its own message and keeps the list |
| BlogsHook.ClearingSearchDropsOnlySearch | src/hooks/useBlogs.js:15-17 | clearing the search removes only the `search` parameter |
| BlogsHook.LastSuccessfulFetchWins | src/hooks/useBlogs.js:10-36 | a successful list fetch leaves the same state whatever was shown before and whatever was asked for: earlier data and errors leave no trace |
| BlogForm.CreateInitial | src/pages/CreateBlog.jsx:12-22 | the create form starts empty, untagged, published, with the default cover image |
| BlogForm.Change | src/pages/CreateBlog.jsx:24-28 | only the named field changes, and the error banner is cleared |
| BlogForm.AddTag | src/pages/CreateBlog.jsx:30-38 | a non-blank input under five tags is appended trimmed and the box cleared; otherwise nothing changes; the list never passes five by adding |
| BlogForm.RemoveAt | src/pages/CreateBlog.jsx:43 | filtering by index removes exactly the element at an index in range, and nothing otherwise |
| BlogForm.RemoveTag | src/pages/CreateBlog.jsx:40-45 | only the tag list changes, by removing the indexed tag |
| BlogForm.AddTagKeepsTagsWellFormed | src/pages/CreateBlog.jsx:30-38 | adding keeps the tags at most five, non-empty and trimmed |
| BlogForm.RemoveTagKeepsTagsWellFormed | src/pages/EditBlog.jsx:62-67 | removing keeps the tags at most five, non-empty and trimmed |
| BlogForm.RemoveUndoesAdd | src/pages/EditBlog.jsx:52-67 | removing the tag just added restores the previous list |
| BlogForm.AddEachNeverExceedsMax | src/pages/CreateBlog.jsx:31 | however many tags are typed and added, the list never grows past five |
| BlogForm.ValidateCreate | src/pages/CreateBlog.jsx:50-63 | each error message appears exactly when its rule is the first that fails, in the source's order |
| BlogForm.ValidateEdit | src/pages/EditBlog.jsx:72-75 | the edit form rejects exactly a blank title or content |
| BlogForm.CreateValidationStricterThanEdit | src/pages/EditBlog.jsx:72-75 | whatever the create form accepts the edit form accepts, with the same message when edit rejects |
| BlogForm.EditAcceptsWhatCreateRejects | src/pages/CreateBlog.jsx:55-63 | any untagged, scheduled article with a title and content but no date is rejected on create and saved on edit |
| BlogForm.ArticleBody | src/pages/EditBlog.jsx:80-87 | the body has the snake_case keys with the form's values; `status` is present exactly when the form has one |
| BlogForm.CreatePayload | src/pages/CreateBlog.jsx:68-76 | the create body adds `scheduled_at`: the ISO time when scheduled, null otherwise |
| BlogForm.EditPayload | src/pages/EditBlog.jsx:80-87 | the edit body is the create body without `scheduled_at` |
| BlogForm.SubmitCreate | src/pages/CreateBlog.jsx:47-85 | a request is sent exactly when validation passes and the date converts; success navigates to the new article, failure shows the thrown message; otherwise only the in-flight flag changes |
| BlogForm.FewTagsNeverSent | src/pages/CreateBlog.jsx:55-58 | fewer than two tags never reach the backend |
| BlogForm.LoadEdit | src/pages/EditBlog.jsx:28-44 | a loaded blog fills the form, missing description and cover become '' and missing tags []; a failure shows its message |
| BlogForm.SubmitEdit | src/pages/EditBlog.jsx:69-96 | a valid form sends the edit body and navigates to the article on success or shows the thrown message; an invalid one sends nothing; otherwise only the in-flight flag changes |
| BlogForm.SaveAfterLoadSendsLoadedBlog | src/pages/EditBlog.jsx:28-96 | saving a just-loaded blog sends its own fields back, a missing description or cover as '' and missing tags as [], and does so exactly when its title and content are not blank |
| BlogForm.SaveAfterFailedLoadSendsNothing | src/pages/EditBlog.jsx:15-75 | after a failed load the form is still empty, so a save sends nothing and shows the validation message |
| HomePage.TotalPages | src/pages/Home.jsx:23 | the page count is the least number of pages of `limit` that hold `total`, and 1 when there is nothing |
| HomePage.EveryItemHasAPage | src/pages/Home.jsx:23 | every item's page is among the offered pages |
| HomePage.Previous | src/pages/Home.jsx:164 | Previous goes back one page and never below page 1 |
| HomePage.Next | src/pages/Home.jsx:185 | Next goes forward one page and never past the last |
| HomePage.ButtonsClampToRange | src/pages/Home.jsx:164-186 | from a valid page both buttons stay in range, and each is disabled exactly when pressing it would change nothing |
| HomePage.PreviousNextRoundTrip | src/pages/Home.jsx:164-186 | Previous undoes Next and Next undoes Previous away from the ends |
| HomePage.PageNumbers | src/pages/Home.jsx:171 | the page buttons are 1, 2, …, totalPages in order |
| HomePage.PageNumbersAreTheValidPages | src/pages/Home.jsx:171 | a page has a button exactly when it is in range, and the buttons ascend |
| HomePage.ControlsShown | src/pages/Home.jsx:133-156 | the pagination bar is drawn only after loading, for a non-empty list, and for more than one page; `ControlsShownIffMoreThanOnePage` states when that is |
| HomePage.ControlsShownIffMoreThanOnePage | src/pages/Home.jsx:133-156 | the pagination bar appears exactly when loading has finished, the list is non-empty and the total exceeds one page's limit |
| HomePage.EmptyPageHidesControls | src/pages/Home.jsx:133-156 | an empty page, such as one past the end after the total shrank, shows no pagination bar whatever the total |
| HomePage.Current | src/pages/Home.jsx:14 | the page always fetches its current page, search and tag, ten per page |
| HomePage.EffectFetches | src/pages/Home.jsx:13-15 | the effect fetches once exactly when page, search or tag changed |
| HomePage.Mount | src/pages/Home.jsx:9-15 | the first render fetches page 1 with no filters |
| HomePage.Step | src/pages/Home.jsx:17-186 | each control's state change; the Search button fetches page 1 itself and again through the effect when the page changes |
| HomePage.FilterChangeResetsPage | src/pages/Home.jsx:73-112 | changing search or tag goes back to page 1 and every fetch it causes is for page 1 |
| HomePage.NavigationStaysInRange | src/pages/Home.jsx:164-186 | any sequence of pagination clicks from a valid page stays on a valid page |
| LikeButton.Initial | src/components/LikeButton.jsx:4-8 | the button starts from the props, defaulting to 0 likes and not liked |
| LikeButton.Optimistic | src/components/LikeButton.jsx:22-23 | the click flips the flag and moves the count by one in that direction |
| LikeButton.Disabled | src/components/LikeButton.jsx:41 | the button is disabled while `isLoading` is set; `DisabledOnlyWhileHandling` states when that is |
| LikeButton.DisabledOnlyWhileHandling | src/components/LikeButton.jsx:4-41 | the button starts enabled, is disabled while a click is handled, and is enabled again once the click settles |
| LikeButton.Click | src/components/LikeButton.jsx:10-36 | an anonymous click only redirects to /login; a signed-in click sends the new flag, keeps the optimistic state on success, and on rejection keeps the flip with the count reset to the prop |
| LikeButton.ConfirmedClicksRoundTrip | src/components/LikeButton.jsx:19-35 | two confirmed clicks restore the original count and flag |
| LikeButton.RejectedClickKeepsFlip | src/components/LikeButton.jsx:28-31 | after a rejection the flag stays flipped and the count equals the `initialLikes` prop |
| LikeButton.RejectedClickIsNotARollback | src/components/LikeButton.jsx:29-31 | a rejected click can end in a state other than the pre-click one |
| BlogDetails.HandleLike | src/pages/BlogDetails.jsx:39-49 | a new flag of true likes and false unlikes; the handler never rejects |
| BlogDetails.LikeProps | src/pages/BlogDetails.jsx:189-193 | the button gets the blog's count and flag and the page's handler |
| BlogDetails.LikeButtonHereNeverReverts | src/pages/BlogDetails.jsx:39-49 | on the article page every signed-in like click ends in the optimistic state, whatever the backend answers |
| BlogDetails.AddComment | src/pages/BlogDetails.jsx:51-62 | a created comment is put first and counted; a failure changes nothing; the handler never rejects |
| BlogDetails.WithoutComment | src/pages/BlogDetails.jsx:69 | the remaining comments are exactly those without the id, and as many fewer as there were matches |
| BlogDetails.WithoutCommentConcat | src/pages/BlogDetails.jsx:69 | filtering distributes over concatenation, so the surviving comments keep their order |
| BlogDetails.DeleteComment | src/pages/BlogDetails.jsx:64-75 | a deleted comment's id is filtered out and the count drops by one; a failure changes nothing |
| BlogDetails.DeleteCountDrift | src/pages/BlogDetails.jsx:69-70 | the count and the list drift apart unless exactly one comment had the id |
| BlogDetails.DeleteUndoesAdd | src/pages/BlogDetails.jsx:51-75 | adding a comment with a fresh id and deleting it restores the blog |
| BlogDetails.EditAndDeleteRulesDiffer | src/pages/BlogDetails.jsx:196 | an administrator may edit any article but not delete another user's comment; an author may do both on their own; an anonymous viewer neither |
| BlogDetails.CanEdit | src/pages/BlogDetails.jsx:196 | Edit is shown to a signed-in author of the blog or any administrator; `EditAndDeleteRulesDiffer` contrasts it with comment deletion |
| BlogDetails.CommentBoxClearsEvenOnFailure | src/pages/BlogDetails.jsx:59-61 | on the article page the comment box clears after every non-blank submission, even when the comment was not created |
| CommentSection.Submit | src/components/CommentSection.jsx:10-26 | blank text sends nothing; otherwise the untrimmed text is sent, the box clears unless the handler throws, and submitting ends |
| CommentSection.EnabledSubmitSendsText | src/components/CommentSection.jsx:54 | whenever the button is enabled, a submission reaches the handler with the text as typed |
| CommentSection.SubmitDisabled | src/components/CommentSection.jsx:54 | the button is disabled for blank text or while a submission runs; `SubmitEnabledIffVisibleText` states what that means |
| CommentSection.SubmitEnabledIffVisibleText | src/components/CommentSection.jsx:54 | the button is enabled exactly when nothing is in flight and the text has a character that is not white space |
| CommentSection.CanDelete | src/components/CommentSection.jsx:82 | Delete is offered only to a signed-in viewer whose id is the comment author's; the role plays no part |
| CommentSection.AdministratorCannotDeleteOthersComments | src/components/CommentSection.jsx:82 | for every administrator and every comment by another author, Delete is not offered |
| RegisterPage.Change | src/pages/Register.jsx:17-21 | editing a field changes only that field and clears the error |
| RegisterPage.Validate | src/pages/Register.jsx:29-39 | a mismatch is reported first; otherwise fewer than six UTF-16 units is reported; otherwise the form passes |
| RegisterPage.Submit | src/pages/Register.jsx:23-49 | an invalid form sends nothing and shows its message; a valid one calls `register` and goes home on success or shows the thrown message, else 'Registration failed' |
| RegisterPage.PageShowsContextMessage | src/pages/Register.jsx:44-45 | the page shows exactly the message the context stored and threw |
| RegisterPage.ShortPasswordNeverSent | src/pages/Register.jsx:35-39 | a matching password of fewer than six characters outside the astral planes is never sent |
| AdminDashboard.Fetch | src/pages/AdminDashboard.jsx:16-31 | both results are stored only when both requests succeed, a missing list becomes []; loading ends either way |
| AdminDashboard.FailedFetchKeepsCounters | src/pages/AdminDashboard.jsx:16-31 | when either request fails, all four counters stay as they were |
| AdminDashboard.SuccessfulFetchShowsReplies | src/pages/AdminDashboard.jsx:16-31 | after both requests succeed the counters are those of the replies alone, and loading again with the same replies changes nothing |
| AdminDashboard.FailedFirstLoadShowsZeros | src/pages/AdminDashboard.jsx:8-31 | when the first load fails, the table is empty and every counter shows 0 |
| AdminDashboard.CountStatus | src/pages/AdminDashboard.jsx:77-78 | the count is at most the number of blogs, and zero exactly when no blog has that status |
| AdminDashboard.StatusCountsPartition | src/pages/AdminDashboard.jsx:77-78 | published, drafts and the rest add up to the number of blogs |
| AdminDashboard.CountStatusAppend | src/pages/AdminDashboard.jsx:77-78 | counting distributes over concatenating lists |
| AdminDashboard.StatsData | src/pages/AdminDashboard.jsx:75-80 | four counters with their labels; the published and draft counters never exceed the list together |
| AdminDashboard.StatusTone | src/pages/AdminDashboard.jsx:156-160 | each colour appears exactly for its status, and every other or missing status gets the accent colour |
| AdminDashboard.StatusLabel | src/pages/AdminDashboard.jsx:162 | a non-empty status is shown capitalised, a missing or empty one as 'Unknown'; the label is never empty |
| AdminDashboard.TableRow | src/pages/AdminDashboard.jsx:153-165 | the row shows the title, the author's name or 'Unknown', the status colour and label, and the likes or 0 |
| AdminDashboard.TableRowAgreesWithCard | src/pages/AdminDashboard.jsx:156-162 | the row's status text is the card badge's text, or 'Unknown' where the card shows none; for the three known statuses its colour is the translucent form of the card's, and for any other status the card is muted where the row is accented |
| AdminDashboard.LabelKeepsStatus | src/pages/AdminDashboard.jsx:162 | the label differs from the status only in its first letter |
| AdminDashboard.CardAndDashboardAgreeOnLabel | src/components/BlogCard.jsx:28-31 | the card and the dashboard show the same text for any status both display |
| BlogCard.Tags | src/components/BlogCard.jsx:46-56 | no tag row for missing or empty tags; otherwise the first two tags, and a "+n" counter exactly when there are more |
| BlogCard.TagsAccountForAll | src/components/BlogCard.jsx:48-55 | the shown tags are a prefix, and shown plus hidden count every tag |
| BlogCard.StatusColour | src/components/BlogCard.jsx:6-10 | the known statuses get their colours and every other status the muted fallback |
| BlogCard.StatusBadge | src/components/BlogCard.jsx:28-31 | a badge exactly for a non-empty status, with its colour and the status capitalised |
| ListImports.PackageName | scripts/list-imports.js:27-37 | relative and absolute specifiers name no package; a scoped one keeps scope and name ("@scope/undefined" without a slash); any other keeps its first segment |
| ListImports.PackageNameIdempotent | scripts/list-imports.js:31-37 | a listed package name is its own package name |
| ListImports.Packages | scripts/list-imports.js:26-39 | a file's packages are exactly those its specifiers name |
| ListImports.SourceFiles | scripts/list-imports.js:14-21 | every file the walk reads has a `.js` or `.jsx` name, however deep it lies |
| ListImports.Imports | scripts/list-imports.js:10-43 | `getImports` of one entry: a scanned file's packages, or the union over a directory; `ImportsAreThoseOfSourceFiles` states what it lists |
| ListImports.ImportsOfAll | scripts/list-imports.js:14-20 | the union over a directory's entries; `ImportsOfAllAreThoseOfSourceFiles` states what it lists |
| ListImports.ImportsOfAllAreThoseOfSourceFiles | scripts/list-imports.js:14-20 | a package is listed for a directory exactly when some scanned file among its entries, at any depth, names it |
| ListImports.ImportsAreThoseOfSourceFiles | scripts/list-imports.js:10-43 | a package is listed exactly when some `.js`/`.jsx` file anywhere in the tree names it |
| ListImports.ListedNamesArePackages | scripts/list-imports.js:28 | no listed name is a relative or absolute path, and every listed name is its own package name |
| FixImports.KnownAlias | scripts/fix-broken-imports.js:11-14 | only `react` and `cmdk` have table aliases, `React` and `CommandPrimitive` |
| FixImports.RadixAlias | scripts/fix-broken-imports.js:53-59 | the Radix alias is the last dash-separated word, capitalised, followed by `Primitive` |
| FixImports.ChooseAlias | scripts/fix-broken-imports.js:27-59 | the table wins, then the `.Root` assignment, then any `Alias.Member` usage, then the Radix fallback; a chosen alias is never empty |
| FixImports.Repair | scripts/fix-broken-imports.js:61-68 | a broken import gets `* as Alias` when an alias is found and is kept as it was otherwise; every other segment is returned as it was |
| FixImports.RepairLengthensSegment | scripts/fix-broken-imports.js:61-68 | a rewritten import's text grows, and every segment that is not rewritten renders to the same text |
| FixImports.FixFile | scripts/fix-broken-imports.js:26-73 | each broken import is repaired in place and the file is written exactly when some import got an alias |
| FixImports.RepairLengthensFile | scripts/fix-broken-imports.js:61-69 | repairing never shortens the file's text, and lengthens it once some import is rewritten |
| FixImports.WrittenIffChanged | scripts/fix-broken-imports.js:61-73 | a file is written exactly when its text after the replacements differs from the text read, and an unwritten file is left exactly as read |
| FixImports.RepairIsIdempotent | scripts/fix-broken-imports.js:26-69 | with the same search results, a second pass changes and writes nothing |
| FixImports.UsageAliasIsSharedByAllUnknownPackages | scripts/fix-broken-imports.js:36-48 | when the usage searches find an alias, every package outside the table in that file gets the same alias |
| FixImports.RadixAliasUsesLastWord | scripts/fix-broken-imports.js:55-58 | only the last dash-separated word names the alias, so `@radix-ui/react-dropdown-menu` gets `MenuPrimitive` |

## Left out

- JSON: `JSON.stringify`/`JSON.parse` and the axios serialisation of bodies and query strings. Stored users and request bodies are typed values; a `Payload` is a map, so key order is not modelled.
- `localStorage` entries of the wrong kind: a `user` entry that is not a serialised user, or a non-string `token`. The model treats them as absent; `JSON.parse` would throw on a malformed `user` entry. The client writes such entries only for a sign-in, registration or profile-update reply of the wrong shape, which the next line sets aside.
- The shape of backend replies: every reply is taken to have the fields the client reads, with the expected types.
  - A sign-in or registration reply always carries `user` and `access_token`. Without `access_token`, src/context/AuthContext.jsx:32 stores the truthy string "undefined" as the token: later requests send `Bearer undefined`, and a reload restores the session. Without `user`, line 31 stores "undefined" as the user, and `JSON.parse` throws on the next reload.
  - A profile-update reply is always a user. src/context/AuthContext.jsx:81-83 stores `JSON.stringify(response.data)` whatever the reply is: an empty body stores the two-character text `""`, which the next reload parses to the empty string, a falsy user.
  - An error body's `detail` and `message` are strings when present. A truthy non-string `detail`, such as a list of validation errors, would be stored as it is by `setError` and thrown as `new Error(list)`, whose message is the list's string form, such as "[object Object]" (src/context/AuthContext.jsx:62-65).
- The network, timeouts, the base URL, `window.location` and React Router. Backend replies are inputs, and navigation is an output `Route`.
- Concurrency: overlapping requests, stale closures, and the order of React state batching. Each handler is modelled as running to completion on the state it started from.
- Dates: `new Date(...).toISOString()` and `toLocaleDateString`. The ISO conversion on the create page is an input; its `RangeError` is modelled as a missing result with V8's message. That conversion reads the picker's local date and time in the browser's time zone, so the instant sent depends on that zone; the zone is not modelled.
- The order in which the dependency lister prints names: scripts/list-imports.js:46 prints the set in insertion order, which follows the directory listing and the order of imports within each file. The model computes the set of names, not that order.
- The CSV export on the dashboard: it is a browser download with no state.
- Loading spinners, animations, class names other than the status colours, and the Navbar and Loader components.
- The login and profile pages, `NotFound`, the layouts and `App` routing: they only call the context's operations, which are modelled.
- `scripts/convert-components.js` and `scripts/find-broken-imports.js`: they are not part of this model.
- The regular-expression scans in both scripts. The `from '…'` specifiers of each file, and the two alias searches over a file's original text, are inputs.
- JavaScript object-prototype keys: a package named `constructor` or a status named `toString` would find an inherited value in `knownAliases` or `statusColors`; the model treats those lookups as plain tables.
- JsCore.UpperFirst: only ASCII letters are upper-cased, not the full Unicode case mapping of `toUpperCase`.
- HomePage.TotalPages: requires a positive `limit`. A zero or missing limit gives `Infinity` or `NaN` in JavaScript; the backend always sends a positive limit.
- AdminDashboard.OrZero: a `NaN` or `null` count is not modelled; a missing field becomes 0.
- Pagination fields missing from a list response, and a blog whose `comments` array is missing: the model takes both to be present.
- Integer widths: counts and ids are unbounded integers. JavaScript numbers are doubles, and nothing here approaches 2^53.
- The comment section's `handleDelete` (src/components/CommentSection.jsx:28-36): it only forwards the id to the page's handler and logs any error. The deletion itself is `BlogDetails.DeleteComment`.
- The edit page's form reuses the create page's field record, with the date field unused and the status optional.
