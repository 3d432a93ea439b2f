/** The review manager: the five-star rating display, the publish toggle,
    the reply dialog and who a reply is shown as coming from, and the list
    of reviews read from the answer. */
module Reviews {
  import opened Wrappers
  import opened JsText
  import opened Json

  // --------------------------------------------------------------- stars

  /** `Math.max(0, Math.min(5, Number(rating) || 0))`. */
  function Rating(v: Json): (r: real)
    ensures 0.0 <= r <= 5.0
    ensures ToNumber(v).Some? && 0.0 <= ToNumber(v).value <= 5.0 ==> r == ToNumber(v).value
    ensures ToNumber(v).None? ==> r == 0.0
  {
    var x := OrZero(ToNumber(v));
    if x < 0.0 then 0.0 else if x > 5.0 then 5.0 else x
  }

  /** Stars 1 to 5, each filled when its number is at most the rating. */
  function Stars(v: Json): (filled: seq<bool>)
    ensures |filled| == 5
    ensures forall k | 0 <= k < 5 :: filled[k] <==> (k + 1) as real <= Rating(v)
  {
    var r := Rating(v);
    seq(5, k requires 0 <= k < 5 => (k + 1) as real <= r)
  }

  function Count(bs: seq<bool>): nat {
    if bs == [] then 0 else Count(bs[..|bs| - 1]) + (if bs[|bs| - 1] then 1 else 0)
  }

  /** The filled stars are the first ones, as many as the whole part of the
      rating. */
  lemma FilledStarsAreTheRating(v: Json)
    ensures Count(Stars(v)) == Rating(v).Floor
    ensures 0 <= Rating(v).Floor <= 5
    ensures forall k | 0 <= k < 5 :: Stars(v)[k] <==> k < Rating(v).Floor
  {
    var r := Rating(v);
    var f := r.Floor;
    assert forall k | 0 <= k < 5 :: Stars(v)[k] <==> k < f;
    CountLeading(Stars(v), f);
  }

  lemma {:induction false} CountLeading(bs: seq<bool>, f: int)
    requires 0 <= f <= |bs|
    requires forall k | 0 <= k < |bs| :: bs[k] <==> k < f
    ensures Count(bs) == f
  {
    if bs != [] {
      var init := bs[..|bs| - 1];
      if f == |bs| {
        CountLeading(init, f - 1);
      } else {
        CountLeading(init, f);
      }
    }
  }

  // ------------------------------------------------------------- publish

  /** `String(status) === '1'`: the review is published. */
  predicate Published(status: Json) {
    StringOf(status) == "1"
  }

  /** The status button's caption. */
  function ToggleCaption(status: Json): (caption: string)
    ensures caption == "UNPUBLISH" <==> Published(status)
    ensures caption == "PUBLISH" <==> !Published(status)
  {
    if Published(status) then "UNPUBLISH" else "PUBLISH"
  }

  datatype StatusRequest = StatusRequest(reviewId: Json, status: string)

  /** `confirmToggle`: nothing without a review id; otherwise the opposite
      of the current publication state, '0' to unpublish and '1' to
      publish. */
  function ConfirmToggle(active: Json): (req: Option<StatusRequest>)
    ensures req.Some? <==> Truthy(Get(active, "id"))
    ensures req.Some? ==> req.value.reviewId == Get(active, "id")
    ensures req.Some? ==> (req.value.status == "0" <==> Published(Get(active, "status")))
    ensures req.Some? ==> (req.value.status == "1" <==> !Published(Get(active, "status")))
  {
    if !Truthy(Get(active, "id")) then None
    else Some(StatusRequest(Get(active, "id"), if Published(Get(active, "status")) then "0" else "1"))
  }

  /** Once the server has applied a toggle, the next toggle of the same
      review asks for the state it started from, and the caption names
      the opposite of the request just made. */
  lemma ToggleTwiceRestores(active: Json)
    requires Truthy(Get(active, "id"))
    requires StringOf(Get(active, "status")) == "0" || StringOf(Get(active, "status")) == "1"
    ensures var first := ConfirmToggle(active).value;
      var after := active.(fields := active.fields["status" := JStr(first.status)]);
      ConfirmToggle(after).value.status == StringOf(Get(active, "status"))
      && (ToggleCaption(JStr(first.status)) == "UNPUBLISH" <==> first.status == "1")
  {
    var first := ConfirmToggle(active).value;
    var after := active.(fields := active.fields["status" := JStr(first.status)]);
    assert Get(after, "id") == Get(active, "id");
    assert Get(after, "status") == JStr(first.status);
  }

  /** The status counts as published for the text '1' and the number 1
      only. */
  lemma PublishedValues(status: Json)
    requires !status.JArr?
    ensures Published(status) <==> status == JStr("1") || status == JNum(1.0)
  {
    StringOfIsOne(status);
  }

  // --------------------------------------------------------------- reply

  datatype ReplyRequest = ReplyRequest(reviewId: Json, message: string, replyBy: Json)

  /** `submitReply`: a review id and a reply that is not blank are needed;
      the reply is sent trimmed, marked as written by the restaurant. */
  function SubmitReply(active: Json, text: string): (req: Option<ReplyRequest>)
    ensures req.Some? <==> Truthy(Get(active, "id")) && !AllSpace(text)
    ensures req.Some? ==> req.value.reviewId == Get(active, "id") && req.value.replyBy == JNum(1.0)
    ensures req.Some? ==> req.value.message != "" && Trim(req.value.message) == req.value.message
  {
    TrimEmptyIffAllSpace(text);
    TrimTwice(text);
    if !Truthy(Get(active, "id")) || Trim(text) == "" then None
    else Some(ReplyRequest(Get(active, "id"), Trim(text), JNum(1.0)))
  }

  /** Who a reply is shown as written by. */
  datatype Author = You | Customer

  /** The author a reply is drawn with; `None` when drawing it throws,
      since `r.id` and `r.reply_by` are read from a null or undefined
      reply. */
  function Attribution(reply: Json): (who: Option<Author>)
    ensures who.None? <==> Nullish(reply)
    ensures who == Some(You) <==> !Nullish(reply) && StringOf(Get(reply, "reply_by")) == "1"
  {
    if Nullish(reply) then None
    else if StringOf(Get(reply, "reply_by")) == "1" then Some(You) else Some(Customer)
  }

  /** The authors of a review's replies block, one per reply in order:
      none when the block is hidden, and `None` when drawing any reply
      throws. */
  function ReplyAuthors(item: Json): (who: Option<seq<Author>>)
    ensures !ShowsReplies(item) ==> who == Some([])
    ensures ShowsReplies(item) ==> (who.None? <==> exists i | 0 <= i < |Get(item, "reply").items| :: Nullish(Get(item, "reply").items[i]))
    ensures ShowsReplies(item) && who.Some? ==> |who.value| == |Get(item, "reply").items|
    ensures ShowsReplies(item) && who.Some? ==>
      forall i | 0 <= i < |who.value| :: Some(who.value[i]) == Attribution(Get(item, "reply").items[i])
  {
    if !ShowsReplies(item) then Some([]) else AuthorsOf(Get(item, "reply").items)
  }

  function AuthorsOf(replies: seq<Json>): (who: Option<seq<Author>>)
    ensures who.None? <==> exists i | 0 <= i < |replies| :: Nullish(replies[i])
    ensures who.Some? ==> |who.value| == |replies|
    ensures who.Some? ==> forall i | 0 <= i < |replies| :: Some(who.value[i]) == Attribution(replies[i])
  {
    if replies == [] then Some([])
    else match (Attribution(replies[0]), AuthorsOf(replies[1..]))
      case (Some(a), Some(rest)) => Some([a] + rest)
      case _ => None
  }

  /** A reply the restaurant sent comes back shown as its own. */
  lemma OwnReplyShownAsYou(active: Json, text: string, stored: Json)
    requires SubmitReply(active, text).Some?
    requires stored.JObj? && Get(stored, "reply_by") == SubmitReply(active, text).value.replyBy
    ensures Attribution(stored) == Some(You)
  {
    NumberOneIsYou(stored);
  }

  lemma NumberOneIsYou(reply: Json)
    requires reply.JObj? && Get(reply, "reply_by") == JNum(1.0)
    ensures Attribution(reply) == Some(You)
  {
    StringOfIsOne(JNum(1.0));
  }

  // --------------------------------------------------------------- list

  /** The reviews shown after `fetchReviews`: none without a restaurant or
      when the request threw, `data` when the answer's status is 'Success'
      and `data` is an array, none otherwise. */
  function ReviewList(restId: Json, answer: Option<Json>): (reviews: seq<Json>)
    ensures reviews != [] ==> Truthy(restId) && answer.Some? && Get(answer.value, "status") == JStr("Success")
    ensures Truthy(restId) && answer.Some? && Get(answer.value, "status") == JStr("Success")
      ==> reviews == Elements(Get(answer.value, "data"))
  {
    if !Truthy(restId) then []
    else match answer
      case None => []
      case Some(res) =>
        if Get(res, "status") == JStr("Success") then Elements(Get(res, "data")) else []
  }

  /** The replies block of a review is shown exactly for a non-empty reply
      array. */
  predicate ShowsReplies(item: Json) {
    Get(item, "reply").JArr? && |Get(item, "reply").items| > 0
  }
}
