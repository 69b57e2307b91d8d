/** One comment in the thread and the replies under it. Only top-level
    comments get a Reply button and form; their replies are rendered as
    reply items with no replies of their own. */
module CommentItem {
  import opened Wrappers
  import opened JsText

  datatype Comment = Comment(id: int, authorName: Option<string>)

  /** `showReplyForm` and `showReplies`. */
  datatype ItemState = ItemState(showReplyForm: bool, showReplies: bool)

  const InitialState := ItemState(false, true)

  datatype ReplyFormProps = ReplyFormProps(postId: int, parentId: int, parentAuthorName: string)

  datatype RepliesBlock = RepliesBlock(caption: string, expanded: bool, items: seq<Item>)

  datatype Item = Item(
    commentId: int, isReply: bool, replyButton: bool,
    replyForm: Option<ReplyFormProps>, replies: Option<RepliesBlock>)

  /** `comment.author?.name || 'Anonymous'`. */
  function ParentName(name: Option<string>): (r: string)
    ensures r != ""
    ensures name.Some? && name.value != "" ==> r == name.value
    ensures name.None? || name.value == "" ==> r == "Anonymous"
  {
    if name.Some? && name.value != "" then name.value else "Anonymous"
  }

  /** `{replies.length} {replies.length === 1 ? 'reply' : 'replies'}`. */
  function Caption(n: nat): (c: string)
    ensures n == 1 <==> c == "1 reply"
    ensures n != 1 ==> c == IntToString(n) + " replies"
  {
    var word := if n == 1 then "reply" else "replies";
    var c := IntToString(n) + " " + word;
    CaptionDistinct(n, c);
    c
  }

  lemma CaptionDistinct(n: nat, c: string)
    requires c == IntToString(n) + " " + (if n == 1 then "reply" else "replies")
    ensures n == 1 <==> c == "1 reply"
  {
    if n == 1 {
      assert IntToString(1) == "1";
    }
  }

  /** The rendered item: the button and form only on top-level comments,
      the form only while opened, and the replies block exactly when there
      are replies, with all of them listed while expanded. Nested replies
      get `isReply` = true, no replies and fresh state. */
  function Render(comment: Comment, replies: seq<Comment>, postId: int, isReply: bool, st: ItemState): (it: Item)
    ensures it.commentId == comment.id
    ensures it.replyButton <==> !isReply
    ensures it.replyForm.Some? <==> st.showReplyForm && !isReply
    ensures it.replyForm.Some? ==> it.replyForm.value == ReplyFormProps(postId, comment.id, ParentName(comment.authorName))
    ensures it.replies.Some? <==> |replies| > 0
    ensures it.replies.Some? ==>
      it.replies.value.caption == Caption(|replies|)
      && it.replies.value.expanded == st.showReplies
      && |it.replies.value.items| == (if st.showReplies then |replies| else 0)
    decreases |replies|
  {
    var nested :=
      if st.showReplies then
        seq(|replies|, i requires 0 <= i < |replies| => Render(replies[i], [], postId, true, InitialState))
      else [];
    Item(
      comment.id, isReply, !isReply,
      if st.showReplyForm && !isReply then Some(ReplyFormProps(postId, comment.id, ParentName(comment.authorName)))
      else None,
      if |replies| > 0 then Some(RepliesBlock(Caption(|replies|), st.showReplies, nested)) else None)
  }

  /** An item with nothing under it. */
  predicate Leaf(it: Item) {
    it.replies.None?
  }

  /** The thread is at most one level deep: every nested item is a reply
      for the matching comment, without a button, a form or replies. */
  lemma OneLevelOfNesting(comment: Comment, replies: seq<Comment>, postId: int, isReply: bool, st: ItemState)
    requires Render(comment, replies, postId, isReply, st).replies.Some?
    ensures var items := Render(comment, replies, postId, isReply, st).replies.value.items;
      forall i :: 0 <= i < |items| ==>
        items[i].isReply && !items[i].replyButton && items[i].replyForm.None? && Leaf(items[i])
        && items[i].commentId == replies[i].id
  {
    var items := Render(comment, replies, postId, isReply, st).replies.value.items;
    forall i | 0 <= i < |items|
      ensures items[i].isReply && !items[i].replyButton && items[i].replyForm.None? && Leaf(items[i])
        && items[i].commentId == replies[i].id
    {
      assert items[i] == Render(replies[i], [], postId, true, InitialState);
    }
  }

  /** Clicks on the item. */
  datatype Event = ReplyClicked | Cancelled | ReplyPosted | RepliesToggled

  function Step(st: ItemState, e: Event): (t: ItemState)
    ensures t.showReplies == (if e == RepliesToggled then !st.showReplies else st.showReplies)
    ensures e == ReplyClicked ==> t.showReplyForm == !st.showReplyForm
    ensures e == Cancelled || e == ReplyPosted ==> !t.showReplyForm
    ensures e == RepliesToggled ==> t.showReplyForm == st.showReplyForm
  {
    match e
    case ReplyClicked => st.(showReplyForm := !st.showReplyForm)
    case Cancelled => st.(showReplyForm := false)
    case ReplyPosted => st.(showReplyForm := false)
    case RepliesToggled => st.(showReplies := !st.showReplies)
  }

  /** Both toggles undo themselves. */
  lemma TogglesAreInvolutions(st: ItemState)
    ensures Step(Step(st, ReplyClicked), ReplyClicked) == st
    ensures Step(Step(st, RepliesToggled), RepliesToggled) == st
  {
  }

  function Run(st: ItemState, events: seq<Event>): ItemState
    decreases |events|
  {
    if |events| == 0 then st else Run(Step(st, events[0]), events[1..])
  }

  /** Whatever the clicks, a reply never shows a reply form or a button. */
  lemma {:induction false} RepliesNeverOfferAReply(comment: Comment, replies: seq<Comment>, postId: int, events: seq<Event>)
    ensures var it := Render(comment, replies, postId, true, Run(InitialState, events));
      it.replyForm.None? && !it.replyButton
  {
  }

  /** Before any click the replies are expanded and the form is hidden. */
  lemma InitialView(comment: Comment, replies: seq<Comment>, postId: int, isReply: bool)
    ensures var it := Render(comment, replies, postId, isReply, InitialState);
      it.replyForm.None? && (|replies| > 0 ==> it.replies.value.expanded && |it.replies.value.items| == |replies|)
  {
  }
}
