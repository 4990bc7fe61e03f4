/**
 The `useBlogs` hook: one function per backend operation, each clearing the
 error, making one call and turning a failure into a message: the response
 `message` when it is truthy, else a fixed default per operation. Listing also
 builds the query and copies the pagination from the response. Every request
 goes through the configured client, so before the hook sees a failure the
 response interceptor has already done its part: for a 401, `Intercept` clears
 both session entries and sends the browser to /login.
 */
module BlogsHook {
  import opened JsCore
  import opened Entities
  import opened HttpClient
  import opened BrowserStorage

  datatype Operation =
    | FetchBlogs | FetchBlogById | CreateBlog | UpdateBlog | DeleteBlog
    | LikeBlog | UnlikeBlog | CreateComment | DeleteComment

  /** The fixed message each operation falls back to. */
  function DefaultMessage(op: Operation): (m: string)
    ensures Truthy(m)
  {
    match op
    case FetchBlogs => "Failed to fetch blogs"
    case FetchBlogById => "Failed to fetch blog"
    case CreateBlog => "Failed to create blog"
    case UpdateBlog => "Failed to update blog"
    case DeleteBlog => "Failed to delete blog"
    case LikeBlog => "Failed to like blog"
    case UnlikeBlog => "Failed to unlike blog"
    case CreateComment => "Failed to create comment"
    case DeleteComment => "Failed to delete comment"
  }

  /** The message an operation throws and stores: the response message, else the operation's default. */
  function FailureMessage(op: Operation, error: HttpError): (m: string)
    ensures Truthy(m)
    ensures error.ErrorResponse? && error.message.Some? && Truthy(error.message.value) ==> m == error.message.value
    ensures !(error.ErrorResponse? && error.message.Some? && Truthy(error.message.value)) ==> m == DefaultMessage(op)
  {
    MessageOr(error, DefaultMessage(op))
  }

  /** Different operations fall back to different messages, so a default names the failed operation. */
  lemma DefaultMessagesDistinct(a: Operation, b: Operation)
    requires a != b
    ensures DefaultMessage(a) != DefaultMessage(b)
  {
  }

  /** A query parameter value. */
  datatype Param = Num(n: int) | Str(s: string)

  /** The `params` object passed to axios. */
  type Query = map<string, Param>

  /** `params = { page, limit }`, then `search` and `tag` only when non-empty. */
  function ListQuery(page: int, limit: int, search: string, tag: string): (q: Query)
    ensures q.Keys == {"page", "limit"} + (if Truthy(search) then {"search"} else {}) + (if Truthy(tag) then {"tag"} else {})
    ensures q["page"] == Num(page) && q["limit"] == Num(limit)
    ensures "search" in q ==> q["search"] == Str(search)
    ensures "tag" in q ==> q["tag"] == Str(tag)
  {
    var q := map["page" := Num(page), "limit" := Num(limit)];
    var q := if Truthy(search) then q["search" := Str(search)] else q;
    if Truthy(tag) then q["tag" := Str(tag)] else q
  }

  datatype Pagination = Pagination(page: int, limit: int, total: int)

  /** `response.data` of `GET /blogs`. */
  datatype ListData = ListData(blogs: Option<seq<Blog>>, page: int, limit: int, total: int)

  datatype HookState = HookState(blogs: seq<Blog>, loading: bool, error: Option<string>, pagination: Pagination)

  /** The hook's initial state: no blogs, not loading, no error, pagination {1, 10, 0}. */
  function InitialState(): (st: HookState)
    ensures st.blogs == [] && !st.loading && st.error.None?
    ensures st.pagination == Pagination(1, 10, 0)
  {
    HookState([], false, None, Pagination(1, 10, 0))
  }

  /** The result of one list fetch: the state after `finally`, the query sent, and what the call returned or threw. */
  datatype FetchStep = FetchStep(state: HookState, query: Query, outcome: Outcome<ListData>)

  /** While a list fetch is in flight: loading, error cleared, data untouched. */
  function BeginFetch(st: HookState): (r: HookState)
    ensures r.loading && r.error.None?
    ensures r.blogs == st.blogs && r.pagination == st.pagination
  {
    st.(loading := true, error := None)
  }

  /** `fetchBlogs(page, limit, search, tag)`. */
  function FetchBlogsStep(st: HookState, page: int, limit: int, search: string, tag: string, reply: Reply<ListData>): (r: FetchStep)
    ensures r.query == ListQuery(page, limit, search, tag)
    ensures !r.state.loading
    ensures reply.Success? ==>
      && r.state.blogs == reply.data.blogs.GetOr([])
      && r.state.pagination == Pagination(reply.data.page, reply.data.limit, reply.data.total)
      && r.state.error.None?
      && r.outcome == Returned(reply.data)
    ensures reply.Failure? ==>
      && r.state.blogs == st.blogs && r.state.pagination == st.pagination
      && r.outcome == Threw(FailureMessage(FetchBlogs, reply.error))
      && r.state.error == Some(r.outcome.message)
  {
    var pending := BeginFetch(st);
    var query := ListQuery(page, limit, search, tag);
    match reply
    case Success(data) =>
      FetchStep(pending.(blogs := data.blogs.GetOr([]),
                         pagination := Pagination(data.page, data.limit, data.total),
                         loading := false),
                query, Returned(data))
    case Failure(error) =>
      var message := FailureMessage(FetchBlogs, error);
      FetchStep(pending.(error := Some(message), loading := false), query, Threw(message))
  }

  /** `fetchBlogs()` with its default arguments: page 1, limit 10, no filters. */
  function FetchBlogsDefault(st: HookState, reply: Reply<ListData>): (r: FetchStep)
    ensures r.query == map["page" := Num(1), "limit" := Num(10)]
    ensures r == FetchBlogsStep(st, 1, 10, "", "", reply)
  {
    FetchBlogsStep(st, 1, 10, "", "", reply)
  }

  /**
   Every other operation: clear the error, make the call, and on failure store
   and throw the message. Only `fetchBlogById` also raises the loading flag,
   which its `finally` lowers again.
   */
  function Call<T>(st: HookState, op: Operation, reply: Reply<T>): (r: (HookState, Outcome<T>))
    requires op != FetchBlogs
    ensures r.0.blogs == st.blogs && r.0.pagination == st.pagination
    ensures r.0.loading == (if op == FetchBlogById then false else st.loading)
    ensures reply.Success? ==> r.1 == Returned(reply.data) && r.0.error.None?
    ensures reply.Failure? ==> r.1 == Threw(FailureMessage(op, reply.error)) && r.0.error == Some(r.1.message)
  {
    var st := if op == FetchBlogById then st.(loading := false) else st;
    match reply
    case Success(data) => (st.(error := None), Returned(data))
    case Failure(error) =>
      var message := FailureMessage(op, error);
      (st.(error := Some(message)), Threw(message))
  }

  /** A series of calls other than the list fetch, each made on the state the previous one left. */
  function CallAll(st: HookState, calls: seq<(Operation, Reply<()>)>): HookState
    requires forall i :: 0 <= i < |calls| ==> calls[i].0 != FetchBlogs
    decreases |calls|
  {
    if calls == [] then st else CallAll(Call(st, calls[0].0, calls[0].1).0, calls[1..])
  }

  /**
   However many other calls are made, the list and its pagination stay as the
   last list fetch left them, and the error banner shows the last call's
   outcome: its message when it failed, nothing when it succeeded.
   */
  lemma {:induction false} CallsKeepListAndReportLast(st: HookState, calls: seq<(Operation, Reply<()>)>)
    requires forall i :: 0 <= i < |calls| ==> calls[i].0 != FetchBlogs
    ensures CallAll(st, calls).blogs == st.blogs && CallAll(st, calls).pagination == st.pagination
    ensures calls != [] && calls[|calls| - 1].1.Success? ==> CallAll(st, calls).error.None?
    ensures calls != [] && calls[|calls| - 1].1.Failure? ==>
      CallAll(st, calls).error == Some(FailureMessage(calls[|calls| - 1].0, calls[|calls| - 1].1.error))
    decreases |calls|
  {
    if calls != [] {
      var next := Call(st, calls[0].0, calls[0].1).0;
      CallsKeepListAndReportLast(next, calls[1..]);
      if |calls| > 1 {
        assert calls[1..][|calls[1..]| - 1] == calls[|calls| - 1];
      } else {
        assert calls[1..] == [];
      }
    }
  }

  /** The scenario of a tag and search filter, then clearing the search: only the `search` parameter disappears. */
  lemma ClearingSearchDropsOnlySearch(page: int, limit: int, search: string, tag: string)
    requires Truthy(search) && Truthy(tag)
    ensures ListQuery(page, limit, "", tag) == ListQuery(page, limit, search, tag) - {"search"}
  {
  }

  /** A successful list fetch overwrites the whole hook state: what was shown before, and the error of an earlier failure, leave no trace. */
  lemma LastSuccessfulFetchWins(st1: HookState, st2: HookState, page1: int, limit1: int, search1: string, tag1: string,
                                page2: int, limit2: int, search2: string, tag2: string, data: ListData)
    ensures FetchBlogsStep(st1, page1, limit1, search1, tag1, Success(data)).state
         == FetchBlogsStep(st2, page2, limit2, search2, tag2, Success(data)).state
  {
  }

  /** A 401 on any of the hook's calls signs the browser out as well: the session entries are gone and the browser is at /login, while the hook stores and throws its own message. */
  lemma UnauthorizedCallSignsOut<T>(st: HookState, storage: Storage, op: Operation, reply: Reply<T>)
    requires op != FetchBlogs
    requires IsUnauthorized(reply)
    ensures var seen := Intercept(storage, reply);
      && StoredUser(seen.storage).None? && StoredToken(seen.storage).None?
      && seen.redirect == Some(LoginRoute)
      && Call(st, op, seen.reply).0.error == Some(FailureMessage(op, reply.error))
      && Call(st, op, seen.reply).0.blogs == st.blogs
  {
  }
}
