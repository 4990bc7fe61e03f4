/**
 The comment section: a text box that refuses blank input, passes the text to
 `onAddComment` untrimmed, and clears itself only when that handler resolves;
 and a Delete control shown only on the viewer's own comments.
 */
module CommentSection {
  import opened JsCore
  import opened Entities

  datatype CommentBox = CommentBox(text: string, submitting: bool)

  /** The submit button is disabled for blank text or while a submission is in flight. */
  predicate SubmitDisabled(b: CommentBox) {
    Blank(b.text) || b.submitting
  }

  /** The box and the text passed to `onAddComment`, if it was called. */
  datatype SubmitResult = SubmitResult(box: CommentBox, sent: Option<string>)

  /** `handleSubmit`; `hasHandler` says whether `onAddComment` was passed, `rejects` whether it throws. */
  function Submit(b: CommentBox, hasHandler: bool, rejects: bool): (r: SubmitResult)
    ensures Blank(b.text) ==> r == SubmitResult(b, None)
    ensures !Blank(b.text) ==> !r.box.submitting
    ensures !Blank(b.text) ==> (r.sent.Some? <==> hasHandler)
    ensures !Blank(b.text) && hasHandler ==> r.sent == Some(b.text)
    ensures !Blank(b.text) ==> r.box.text == (if hasHandler && rejects then b.text else "")
  {
    if Blank(b.text) then SubmitResult(b, None)
    else if !hasHandler then SubmitResult(CommentBox("", false), None)
    else if rejects then SubmitResult(CommentBox(b.text, false), Some(b.text))
    else SubmitResult(CommentBox("", false), Some(b.text))
  }

  /** The submit button is enabled exactly when no submission is in flight and the box holds a character that is not white space. */
  lemma SubmitEnabledIffVisibleText(b: CommentBox)
    ensures !SubmitDisabled(b) <==> !b.submitting && exists k :: 0 <= k < |b.text| && !IsSpace(b.text[k])
  {
    BlankIffAllSpace(b.text);
  }

  /** An enabled submit button always reaches the handler, with the text exactly as typed. */
  lemma EnabledSubmitSendsText(b: CommentBox)
    requires !SubmitDisabled(b)
    ensures Submit(b, true, false).sent == Some(b.text)
    ensures Submit(b, true, true).sent == Some(b.text)
  {
  }

  /** Delete is offered only to the comment's author; an administrator gets no override here. */
  predicate CanDelete(user: Option<User>, c: Comment) {
    user.Some? && c.author.Some? && user.value.id == c.author.value.id
  }

  /** Being an administrator gives no right to delete: another user's comment never offers Delete. */
  lemma AdministratorCannotDeleteOthersComments(admin: User, c: Comment)
    requires admin.role == "admin"
    requires c.author.Some? && c.author.value.id != admin.id
    ensures !CanDelete(Some(admin), c)
  {
  }
}
