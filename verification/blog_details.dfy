/**
 The article page: it dispatches like/unlike for the like button, prepends or
 filters comments after the backend call succeeds, and shows the Edit control
 to the author or an administrator. Its handlers log failures and never rethrow.
 */
module BlogDetails {
  import opened JsCore
  import opened Entities
  import LikeButton
  import CommentSection

  /** The request `handleLike` issues. */
  datatype LikeRequest = PostLike | DeleteLike

  /** `handleLike(newIsLiked)`: like when the new value is true, else unlike; errors are swallowed. */
  function HandleLike(newIsLiked: bool, reply: Outcome<()>): (r: (LikeRequest, LikeButton.Settled))
    ensures r.0 == PostLike <==> newIsLiked
    ensures r.1 == LikeButton.Resolved
  {
    (if newIsLiked then PostLike else DeleteLike, LikeButton.Resolved)
  }

  /** The like button's props: the blog's count and flag, and `handleLike` as the handler. */
  function LikeProps(b: Blog): (p: LikeButton.Props)
    ensures p.initialLikes == b.likesCount && p.initialIsLiked == b.isLiked && p.hasHandler
  {
    LikeButton.Props(b.likesCount, b.isLiked, true)
  }

  /** On this page the like button's revert branch is unreachable: whatever the backend says, the click ends in the optimistic state. */
  lemma LikeButtonHereNeverReverts(b: Blog, st: LikeButton.LikeState, reply: Outcome<()>)
    ensures var settled := HandleLike(!st.isLiked, reply).1;
      LikeButton.Click(st, LikeProps(b), true, settled).state == LikeButton.Optimistic(st).(isLoading := false)
  {
  }

  /** What a comment handler leaves: the page's blog, and whether the promise it returns rejects. */
  datatype Handled = Handled(blog: Blog, rejects: bool)

  /** `handleAddComment`: prepend the created comment and count it; a failure is logged, changes nothing and is not rethrown. */
  function AddComment(b: Blog, created: Outcome<Comment>): (r: Handled)
    ensures created.Returned? ==>
      && r.blog.comments == [created.value] + b.comments
      && r.blog.commentsCount == b.commentsCount + 1
      && r.blog == b.(comments := r.blog.comments, commentsCount := r.blog.commentsCount)
    ensures created.Threw? ==> r.blog == b
    ensures !r.rejects
  {
    match created
    case Returned(c) => Handled(b.(comments := [c] + b.comments, commentsCount := b.commentsCount + 1), false)
    case Threw(_) => Handled(b, false)
  }

  /** The number of comments with a given id. */
  function CountId(cs: seq<Comment>, id: int): (n: nat)
    ensures n <= |cs|
  {
    if cs == [] then 0 else (if cs[0].id == id then 1 else 0) + CountId(cs[1..], id)
  }

  /** `comments.filter(c => c.id !== commentId)`. */
  function WithoutComment(cs: seq<Comment>, id: int): (r: seq<Comment>)
    ensures forall c :: c in r <==> c in cs && c.id != id
    ensures |r| == |cs| - CountId(cs, id)
  {
    if cs == [] then []
    else
      var rest := WithoutComment(cs[1..], id);
      assert cs == [cs[0]] + cs[1..];
      if cs[0].id == id then rest else [cs[0]] + rest
  }

  /** Filtering distributes over concatenation, so the surviving comments keep their order. */
  lemma {:induction false} WithoutCommentConcat(a: seq<Comment>, b: seq<Comment>, id: int)
    ensures WithoutComment(a + b, id) == WithoutComment(a, id) + WithoutComment(b, id)
  {
    if a == [] {
      assert a + b == b;
    } else {
      var ab := a + b;
      assert ab[0] == a[0];
      assert ab[1..] == a[1..] + b;
      WithoutCommentConcat(a[1..], b, id);
      var tail := WithoutComment(a[1..], id);
      if a[0].id == id {
        assert WithoutComment(a, id) == tail;
      } else {
        assert WithoutComment(a, id) == [a[0]] + tail;
        assert WithoutComment(ab, id) == [a[0]] + (tail + WithoutComment(b, id));
      }
    }
  }

  /** `handleDeleteComment`: drop every comment with that id and decrement the count by exactly one. */
  function DeleteComment(b: Blog, id: int, deleted: Outcome<()>): (r: Blog)
    ensures deleted.Returned? ==>
      && r.comments == WithoutComment(b.comments, id)
      && r.commentsCount == b.commentsCount - 1
      && r == b.(comments := r.comments, commentsCount := r.commentsCount)
    ensures deleted.Threw? ==> r == b
  {
    match deleted
    case Returned(_) => b.(comments := WithoutComment(b.comments, id), commentsCount := b.commentsCount - 1)
    case Threw(_) => b
  }

  /** The count moves by one however many comments were removed: it drifts from the list unless exactly one matched. */
  lemma DeleteCountDrift(b: Blog, id: int)
    ensures var r := DeleteComment(b, id, Returned(()));
      r.commentsCount - |r.comments| == b.commentsCount - |b.comments| + CountId(b.comments, id) - 1
  {
  }

  /** Adding a comment and deleting it by its id restores list and count, when the id was not already used. */
  lemma DeleteUndoesAdd(b: Blog, c: Comment)
    requires forall i :: 0 <= i < |b.comments| ==> b.comments[i].id != c.id
    ensures DeleteComment(AddComment(b, Returned(c)).blog, c.id, Returned(())) == b
  {
    var r := DeleteComment(AddComment(b, Returned(c)).blog, c.id, Returned(()));
    WithoutCommentConcat([c], b.comments, c.id);
    NoMatchKeepsAll(b.comments, c.id);
  }

  lemma {:induction false} NoMatchKeepsAll(cs: seq<Comment>, id: int)
    requires forall i :: 0 <= i < |cs| ==> cs[i].id != id
    ensures WithoutComment(cs, id) == cs
  {
    if cs != [] {
      NoMatchKeepsAll(cs[1..], id);
    }
  }

  /** The Edit control: a signed-in author of the blog, or any administrator. */
  predicate CanEdit(user: Option<User>, b: Blog) {
    user.Some? && ((b.author.Some? && user.value.id == b.author.value.id) || user.value.role == "admin")
  }

  /** An administrator may edit any article but may not delete another user's comment on it; an author may do both on their own. */
  lemma EditAndDeleteRulesDiffer(user: User, b: Blog, c: Comment)
    ensures user.role == "admin" ==> CanEdit(Some(user), b)
    ensures c.author.Some? && c.author.value.id != user.id ==> !CommentSection.CanDelete(Some(user), c)
    ensures b.author.Some? && c.author == b.author && b.author.value.id == user.id ==>
      CanEdit(Some(user), b) && CommentSection.CanDelete(Some(user), c)
    ensures !CanEdit(None, b) && !CommentSection.CanDelete(None, c)
  {
  }

  /** On this page the comment box always clears after a non-blank submission, even when the backend refused the comment and the list did not change. */
  lemma CommentBoxClearsEvenOnFailure(b: Blog, box: CommentSection.CommentBox, created: Outcome<Comment>)
    requires !Blank(box.text)
    ensures CommentSection.Submit(box, true, AddComment(b, created).rejects).box.text == ""
    ensures created.Threw? ==> AddComment(b, created).blog == b
  {
  }
}
