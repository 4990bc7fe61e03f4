/**
 The like button: an optimistic toggle. A click flips `isLiked` and moves the
 count by one before the handler runs; when the handler rejects, the catch
 block resets the count to the `initialLikes` prop and sets `isLiked` to the
 negation of the pre-click value, which leaves it flipped. This is not a
 restoration of the pre-click state.
 */
module LikeButton {
  import opened JsCore
  import opened Entities

  /** The component's props; `hasHandler` says whether `onLike` was passed. */
  datatype Props = Props(initialLikes: Option<int>, initialIsLiked: Option<bool>, hasHandler: bool)

  datatype LikeState = LikeState(likes: int, isLiked: bool, isLoading: bool)

  /** How `await onLike(...)` ended. */
  datatype Settled = Resolved | Rejected

  /** The `initialLikes` prop after its default of 0. */
  function InitialLikes(props: Props): int {
    props.initialLikes.GetOr(0)
  }

  /** The first render: state comes from the props, defaulting to 0 likes and not liked, and not loading. */
  function Initial(props: Props): (st: LikeState)
    ensures st.likes == (if props.initialLikes.Some? then props.initialLikes.value else 0)
    ensures st.isLiked == (props.initialIsLiked.Some? && props.initialIsLiked.value)
    ensures !st.isLoading
  {
    LikeState(InitialLikes(props), props.initialIsLiked.GetOr(false), false)
  }

  /** The button is disabled while a click is being handled. */
  predicate Disabled(st: LikeState) {
    st.isLoading
  }

  /** The button is disabled exactly while a click is being handled: not at first, during the click, and no longer once it settles. */
  lemma DisabledOnlyWhileHandling(st: LikeState, props: Props, handler: Settled)
    ensures !Disabled(Initial(props))
    ensures Disabled(Optimistic(st))
    ensures !Disabled(Click(st, props, true, handler).state)
  {
  }

  /** The state while the handler runs: flipped, moved by one, loading. */
  function Optimistic(st: LikeState): (r: LikeState)
    ensures r.isLiked == !st.isLiked && r.isLoading
    ensures r.likes == st.likes + (if st.isLiked then -1 else 1)
  {
    LikeState(if st.isLiked then st.likes - 1 else st.likes + 1, !st.isLiked, true)
  }

  /** A click: the final state, the value passed to `onLike` (if it was called), and any redirect. */
  datatype ClickResult = ClickResult(state: LikeState, sent: Option<bool>, redirect: Option<Route>)

  /** `handleLike` for a signed-in or anonymous viewer; `handler` is how `onLike` settles. */
  function Click(st: LikeState, props: Props, signedIn: bool, handler: Settled): (r: ClickResult)
    ensures !signedIn ==> r == ClickResult(st, None, Some(LoginRoute))
    ensures signedIn ==> r.redirect.None? && !r.state.isLoading
    ensures signedIn ==> (r.sent.Some? <==> props.hasHandler)
    ensures signedIn && props.hasHandler ==> r.sent == Some(!st.isLiked)
    ensures signedIn && !(props.hasHandler && handler == Rejected) ==>
      r.state == Optimistic(st).(isLoading := false)
    ensures signedIn && props.hasHandler && handler == Rejected ==>
      r.state == LikeState(InitialLikes(props), !st.isLiked, false)
  {
    if !signedIn then ClickResult(st, None, Some(LoginRoute))
    else
      var sent := if props.hasHandler then Some(!st.isLiked) else None;
      if props.hasHandler && handler == Rejected then
        ClickResult(LikeState(InitialLikes(props), !st.isLiked, false), sent, None)
      else
        ClickResult(Optimistic(st).(isLoading := false), sent, None)
  }

  /** Two confirmed clicks return to the starting count and state. */
  lemma ConfirmedClicksRoundTrip(st: LikeState, props: Props)
    requires !st.isLoading
    ensures var once := Click(st, props, true, Resolved).state;
      Click(once, props, true, Resolved).state == st
  {
  }

  /** A rejected click keeps the flip and snaps the count to the prop, whatever the count was before. */
  lemma RejectedClickKeepsFlip(st: LikeState, props: Props)
    requires props.hasHandler
    ensures Click(st, props, true, Rejected).state.isLiked == !st.isLiked
    ensures Click(st, props, true, Rejected).state.likes == InitialLikes(props)
  {
  }

  /** The rollback a reader might expect does not happen: after a rejected like, the state differs from the pre-click state. */
  lemma RejectedClickIsNotARollback()
    ensures var st := LikeState(5, false, false);
      var props := Props(Some(3), Some(false), true);
      Click(st, props, true, Rejected).state == LikeState(3, true, false)
      && Click(st, props, true, Rejected).state != st
  {
  }
}
