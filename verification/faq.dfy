/** The FAQ accordion: the list as loaded, and the one item that is open. */
module Faq {
  import opened Wrappers
  import opened Json

  /** `open` is `activeIndex`, `None` when every item is closed. */
  datatype Accordion = Accordion(data: Json, open: Option<nat>)

  const Initial := Accordion(JArr([]), None)

  /** `fetchFaqs` once its answer is in. An answer with a non-zero length
      is stored and opens the first item; an empty answer, an answer
      without a length and a request that threw change nothing. */
  function Loaded(s: Accordion, response: Option<Json>): (r: Accordion)
    ensures response.Some? && Length(response.value).Some? && Length(response.value).value > 0 ==>
      r == Accordion(response.value, Some(0))
    ensures !(response.Some? && Length(response.value).Some? && Length(response.value).value > 0) ==> r == s
  {
    match response
    case Some(v) =>
      if Length(v).Some? && Length(v).value > 0 then Accordion(v, Some(0)) else s
    case None => s
  }

  predicate IsOpen(s: Accordion, i: nat) {
    s.open == Some(i)
  }

  /** `toggleIndex(i)`: closes everything when `i` is the open item and
      opens `i` otherwise. */
  function Toggle(s: Accordion, i: nat): (r: Accordion)
    ensures r.data == s.data
    ensures IsOpen(s, i) ==> r.open.None?
    ensures !IsOpen(s, i) ==> IsOpen(r, i)
  {
    s.(open := if s.open == Some(i) then None else Some(i))
  }

  /** Applies the taps in order. */
  function Taps(s: Accordion, taps: seq<nat>): Accordion
    decreases |taps|
  {
    if taps == [] then s else Taps(Toggle(s, taps[0]), taps[1..])
  }

  /** The open item, when there is one, is an item of the list. */
  predicate OpenIsShown(s: Accordion) {
    s.open.Some? ==> Length(s.data).Some? && s.open.value < Length(s.data).value
  }

  /** Item `i`'s body is shown when it is open and its content is truthy. */
  predicate ShowsBody(s: Accordion, i: nat)
    requires s.data.JArr? && i < |s.data.items|
  {
    IsOpen(s, i) && Truthy(Get(s.data.items[i], "content"))
  }

  // ------------------------------------------------------------- lemmas

  /** At most one item is open. */
  lemma AtMostOneOpen(s: Accordion, i: nat, j: nat)
    requires IsOpen(s, i) && IsOpen(s, j)
    ensures i == j
  {
  }

  /** Tapping the same item twice restores the accordion when it started
      closed or with that item open. */
  lemma ToggleTwice(s: Accordion, i: nat)
    requires s.open.None? || IsOpen(s, i)
    ensures Toggle(Toggle(s, i), i) == s
  {
  }

  /** Tapping the same item twice when another one was open leaves every
      item closed, not the other one open. */
  lemma ToggleTwiceFromOther(s: Accordion, i: nat, j: nat)
    requires IsOpen(s, j) && i != j
    ensures Toggle(Toggle(s, i), i).open.None?
  {
  }

  /** A load never opens an item outside the list, and taps on listed
      items keep it that way. */
  lemma {:induction false} TapsKeepOpenShown(s: Accordion, taps: seq<nat>)
    decreases |taps|
    requires OpenIsShown(s) && Length(s.data).Some?
    requires forall k | 0 <= k < |taps| :: taps[k] < Length(s.data).value
    ensures OpenIsShown(Taps(s, taps)) && Taps(s, taps).data == s.data
  {
    if taps != [] {
      var t := Toggle(s, taps[0]);
      assert OpenIsShown(t);
      assert forall k | 0 <= k < |taps[1..]| :: taps[1..][k] < Length(t.data).value by {
        forall k | 0 <= k < |taps[1..]|
          ensures taps[1..][k] < Length(t.data).value
        {
          assert taps[1..][k] == taps[k + 1];
        }
      }
      TapsKeepOpenShown(t, taps[1..]);
    }
  }

  /** A load that stores a list opens an item of it. */
  lemma LoadOpensShown(s: Accordion, response: Option<Json>)
    requires OpenIsShown(s)
    ensures OpenIsShown(Loaded(s, response))
  {
  }

  /** Each item's body is shown exactly when that item is open and has
      content: so at most one body is shown. */
  lemma OneBodyShown(s: Accordion, i: nat, j: nat)
    requires s.data.JArr? && i < |s.data.items| && j < |s.data.items|
    requires ShowsBody(s, i) && ShowsBody(s, j)
    ensures i == j
  {
  }
}
