/** The ticket list: the sort sheet's choice and the request it selects,
    page loading with append or replace, the load-more rule, the reset on
    focus or sort change, the status label and the submit gate of the
    create dialog. */
module Tickets {
  import opened Wrappers
  import opened JsText
  import opened Json

  datatype SortOption = All | Pending | Resolved

  /** The value stored when an option of the sort sheet is chosen. */
  function ChooseSort(o: SortOption): (v: string)
    ensures v == "" <==> o == All
    ensures IsFiltered(v) <==> o != All
  {
    match o
    case All => ""
    case Pending => "PENDING"
    case Resolved => "RESOLVED"
  }

  /** `isFiltered`. */
  predicate IsFiltered(sortValue: string) {
    sortValue == "PENDING" || sortValue == "RESOLVED"
  }

  /** `complain_status`: 1 for PENDING, 2 for anything else. */
  function ComplainStatus(sortValue: string): (st: nat)
    ensures st == 1 <==> sortValue == "PENDING"
    ensures st == 1 || st == 2
  {
    if sortValue == "PENDING" then 1 else 2
  }

  /** The list request for a page at `offset`. */
  datatype Query =
    | TicketList(userId: Json, pincode: Json, limit: nat)
    | FilterList(userId: Json, complainStatus: nat, limit: nat)

  function QueryFor(sortValue: string, userId: Json, pincode: Json, offset: nat): (q: Query)
    ensures q.FilterList? <==> IsFiltered(sortValue)
    ensures q.limit == offset && q.userId == userId
    ensures q.FilterList? ==> (q.complainStatus == 1 <==> sortValue == "PENDING")
  {
    if IsFiltered(sortValue) then FilterList(userId, ComplainStatus(sortValue), offset)
    else TicketList(userId, pincode, offset)
  }

  /** The list state. */
  datatype Page = Page(tickets: seq<Json>, offset: nat, hasMore: bool, loading: bool)

  const InitialPage := Page([], 0, true, false)

  /** `data?.complains || []`, read as a list: an array's elements, and no
      tickets for any other value, a truthy text, number or object
      included. */
  function Incoming(data: Json): seq<Json> {
    Elements(Or(Get(data, "complains"), JArr([])))
  }

  /** The end of `fetchTickets(nextOffset, append)` when the request
      answered `data`. */
  function Received(p: Page, nextOffset: nat, append: bool, data: Json): (r: Page)
    ensures append ==> r.tickets == p.tickets + Incoming(data)
    ensures !append ==> r.tickets == Incoming(data)
    ensures r.hasMore <==> |Incoming(data)| >= 10
    ensures r.offset == nextOffset && !r.loading
  {
    var incoming := Incoming(data);
    Page(if append then p.tickets + incoming else incoming, nextOffset, |incoming| >= 10, false)
  }

  /** The end of a fetch whose request threw: only `loading` is
      cleared. */
  function Failed(p: Page): (r: Page)
    ensures r == p.(loading := false)
  {
    p.(loading := false)
  }

  /** `fetchTickets(nextOffset, append)`: without a user id nothing
      happens; otherwise the answer, or the failure when there is none, is
      applied. */
  function Fetch(p: Page, userId: Json, nextOffset: nat, append: bool, answer: Option<Json>): (r: Page)
    ensures !Truthy(userId) ==> r == p
    ensures Truthy(userId) && answer.None? ==> r.tickets == p.tickets && r.offset == p.offset && r.hasMore == p.hasMore
  {
    if !Truthy(userId) then p
    else match answer
      case Some(data) => Received(p, nextOffset, append, data)
      case None => Failed(p)
  }

  /** `onEndReached`: the offset of the next page, when one is asked for. */
  function EndReached(p: Page): (next: Option<nat>)
    ensures next.Some? <==> !p.loading && p.hasMore
    ensures next.Some? ==> next.value == p.offset + 10
  {
    if !p.loading && p.hasMore then Some(p.offset + 10) else None
  }

  /** The reset run on focus or sort change, and after a submit: an empty
      list at offset 0 that expects more, then a fetch of offset 0 that
      replaces the list. */
  function Reset(p: Page): (r: Page)
    ensures r.tickets == [] && r.offset == 0 && r.hasMore
  {
    p.(tickets := [], offset := 0, hasMore := true)
  }

  function ResetAndLoad(p: Page, userId: Json, answer: Option<Json>): Page {
    Fetch(Reset(p), userId, 0, false, answer)
  }

  /** Loading one more page as `onEndReached` asks for it; nothing when it
      asks for none. */
  function LoadMore(p: Page, userId: Json, answer: Option<Json>): Page {
    match EndReached(p)
    case None => p
    case Some(next) => Fetch(p, userId, next, true, answer)
  }

  /** The status shown on a ticket: strict comparison with the strings '1'
      and '2'. */
  function StatusLabel(v: Json): (shown: string)
    ensures shown == "PENDING" <==> v == JStr("1")
    ensures shown == "RESOLVED" <==> v == JStr("2")
    ensures shown == "CLOSED" <==> v != JStr("1") && v != JStr("2")
  {
    if v == JStr("1") then "PENDING" else if v == JStr("2") then "RESOLVED" else "CLOSED"
  }

  /** SUBMIT is enabled, and `submitTicket` proceeds, only for a message
      that is not empty after trimming; the message itself is sent as
      typed. */
  predicate CanSubmit(input: string) {
    Trim(input) != ""
  }

  datatype Submission = Submission(userId: Json, pincode: Json, message: string, files: seq<string>)

  function Submit(input: string, userId: Json, pincode: Json, files: seq<string>): (r: Option<Submission>)
    ensures r.Some? <==> !AllSpace(input)
    ensures r.Some? ==> r.value.message == input && r.value.files == files
  {
    TrimEmptyIffAllSpace(input);
    if !CanSubmit(input) then None else Some(Submission(userId, pincode, input, files))
  }

  // ------------------------------------------------------------- lemmas

  /** The answers of a run of pages joined in order. */
  function Concat(pages: seq<seq<Json>>): seq<Json> {
    if pages == [] then [] else Concat(pages[..|pages| - 1]) + pages[|pages| - 1]
  }

  /** A user scrolls through the pages after a reset: every page but the
      last was full, so each load-more was honoured. */
  function Scroll(p: Page, userId: Json, pages: seq<seq<Json>>): Page
    requires pages != []
  {
    if |pages| == 1 then ResetAndLoad(p, userId, Some(JObj(map["complains" := JArr(pages[0])])))
    else LoadMore(Scroll(p, userId, pages[..|pages| - 1]), userId, Some(JObj(map["complains" := JArr(pages[|pages| - 1])])))
  }

  /** After a reset and a run of pages, each full but the last, the list
      holds every page in order, the offset counts the pages loaded after
      the first in tens, and more is expected exactly when the last page
      was full. */
  lemma {:induction false} ScrollLoadsEveryPage(p: Page, userId: Json, pages: seq<seq<Json>>)
    requires Truthy(userId) && pages != []
    requires forall i | 0 <= i < |pages| - 1 :: |pages[i]| >= 10
    ensures var r := Scroll(p, userId, pages);
      r.tickets == Concat(pages) && r.offset == 10 * (|pages| - 1)
      && (r.hasMore <==> |pages[|pages| - 1]| >= 10) && !r.loading
  {
    var last := JObj(map["complains" := JArr(pages[|pages| - 1])]);
    assert Incoming(last) == pages[|pages| - 1];
    if |pages| == 1 {
      assert Concat(pages) == Concat([]) + pages[0];
    } else {
      var init := pages[..|pages| - 1];
      ScrollLoadsEveryPage(p, userId, init);
      assert init[|init| - 1] == pages[|pages| - 2];
    }
  }

  /** Load-more is refused while a fetch runs or after a short page, and
      then changes nothing. */
  lemma LoadMoreRefused(p: Page, userId: Json, answer: Option<Json>)
    requires p.loading || !p.hasMore
    ensures LoadMore(p, userId, answer) == p
  {
  }

  /** A message is refused exactly when it trims to nothing; so one made
      only of spaces and newlines is never submitted. */
  lemma BlankMessageNotSubmitted(input: string, userId: Json, pincode: Json, files: seq<string>)
    ensures Submit(input, userId, pincode, files).None? <==> Trim(input) == ""
    ensures (forall i | 0 <= i < |input| :: input[i] == ' ' || input[i] == '\n')
      ==> Submit(input, userId, pincode, files).None?
  {
    TrimEmptyIffAllSpace(input);
  }
}
