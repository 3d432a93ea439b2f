/** The grouping step of `fetchReservations`: a response in either the
    structured shape (today / tomorrow / upcoming buckets per status) or
    the legacy flat shape becomes three tab lists, each then sorted by key.
    An element whose normalisation throws sends the fetch to its catch,
    which stores three empty tabs. */
module ReservationList {
  import opened Wrappers
  import opened Json
  import opened ReservationRecord
  import opened ReservationSort

  datatype Buckets = Buckets(unconfirmed: seq<Reservation>, confirmed: seq<Reservation>, rejected: seq<Reservation>) {
    function Of(t: Tab): seq<Reservation> {
      match t
      case Unconfirmed => unconfirmed
      case Confirmed => confirmed
      case Rejected => rejected
    }

    /** The tab badges: each tab's count is its list's length. */
    function Count(t: Tab): (n: nat)
      ensures n == |Of(t)|
    {
      match t
      case Unconfirmed => |unconfirmed|
      case Confirmed => |confirmed|
      case Rejected => |rejected|
    }
  }

  const NoBuckets := Buckets([], [], [])

  // ----------------------------------------------------- structured shape

  /** The elements of one sub-bucket: its `list` when that is an array,
      else the sub-bucket itself when it is an array, else nothing. */
  function BucketItems(arr: Json): (items: seq<Json>)
    ensures Get(arr, "list").JArr? ==> items == Get(arr, "list").items
    ensures !Get(arr, "list").JArr? && arr.JArr? ==> items == arr.items
    ensures !Get(arr, "list").JArr? && !arr.JArr? ==> items == []
  {
    if Get(arr, "list").JArr? then Get(arr, "list").items else Elements(arr)
  }

  /** `items.map(f)`. */
  function Map<A, B>(f: A -> B, items: seq<A>): (rs: seq<B>)
    ensures |rs| == |items|
    ensures forall i | 0 <= i < |rs| :: rs[i] == f(items[i])
  {
    seq(|items|, i requires 0 <= i < |items| => f(items[i]))
  }

  lemma MapAppend<A, B>(f: A -> B, x: seq<A>, y: seq<A>)
    ensures Map(f, x + y) == Map(f, x) + Map(f, y)
  {
    var l := Map(f, x + y);
    var r := Map(f, x) + Map(f, y);
    forall i | 0 <= i < |l|
      ensures l[i] == r[i]
    {
      if i < |x| {
        assert (x + y)[i] == x[i];
      } else {
        assert (x + y)[i] == y[i - |x|];
      }
    }
  }

  /** Some element's normalisation throws. */
  predicate AnyThrows(items: seq<Json>) {
    exists i | 0 <= i < |items| :: Throws(items[i])
  }

  /** Each raw record normalised with the same missing-status code; `None`
      when any of them throws. */
  function NormalizeAll(items: seq<Json>, statusKey: string): (rs: Option<seq<Reservation>>)
    ensures rs.None? <==> AnyThrows(items)
    ensures rs.Some? ==> |rs.value| == |items|
    ensures rs.Some? ==> forall i | 0 <= i < |items| :: Normalize(items[i], statusKey) == Some(rs.value[i])
  {
    if AnyThrows(items) then None else Some(Map(r => Record(r, statusKey), items))
  }

  /** `normalizeBucket(arr, statusKey)`. */
  function NormalizeBucket(arr: Json, statusKey: string): Option<seq<Reservation>>
  {
    NormalizeAll(BucketItems(arr), statusKey)
  }

  /** The raw records of one status bucket: today, then tomorrow, then
      upcoming. */
  function MergeItems(bucket: Json): seq<Json>
  {
    BucketItems(Get(bucket, "today")) + BucketItems(Get(bucket, "tomorrow"))
      + BucketItems(Get(bucket, "upcoming"))
  }

  /** `mergeAll(bucket, code)`. */
  function MergeAll(bucket: Json, code: string): Option<seq<Reservation>>
  {
    NormalizeAll(MergeItems(bucket), code)
  }

  /** The response has the structured shape. */
  predicate IsStructured(res: Json) {
    Get(res, "status") == JStr("Success") && Truthy(Get(Get(res, "reservation"), "list"))
  }

  /** Accepted records go to CONFIRMED with code '1', pending ones to
      UNCONFIRMED with '3', rejected ones to REJECTED with '-1'. */
  function StructuredBuckets(res: Json): Option<Buckets>
  {
    var list := Get(Get(res, "reservation"), "list");
    var p := MergeAll(Get(list, "pending"), "3");
    var a := MergeAll(Get(list, "accepted"), "1");
    var j := MergeAll(Get(list, "rejected"), "-1");
    if p.Some? && a.Some? && j.Some? then Some(Buckets(p.value, a.value, j.value)) else None
  }

  // --------------------------------------------------------- legacy shape

  /** The elements of `reservation_list` when it is an array, normalised
      with the empty string as the missing status; `None` when one of them
      throws. */
  function LegacyRecords(res: Json): (rs: Option<seq<Reservation>>)
    ensures rs.None? <==> AnyThrows(Elements(Get(res, "reservation_list")))
    ensures rs.Some? ==> |rs.value| == |Elements(Get(res, "reservation_list"))|
    ensures !Get(res, "reservation_list").JArr? ==> rs == Some([])
  {
    NormalizeAll(Elements(Get(res, "reservation_list")), "")
  }

  /** The `forEach` that pushes each record onto the list of its tab. */
  function PushAll(rs: seq<Reservation>): Buckets
  {
    if rs == [] then NoBuckets
    else Push(PushAll(rs[..|rs| - 1]), rs[|rs| - 1])
  }

  function Push(b: Buckets, r: Reservation): (b': Buckets)
    ensures var t := StatusToTab(r.status);
      b'.Of(t) == b.Of(t) + [r] && forall u | u != t :: b'.Of(u) == b.Of(u)
  {
    match StatusToTab(r.status)
    case Unconfirmed => b.(unconfirmed := b.unconfirmed + [r])
    case Confirmed => b.(confirmed := b.confirmed + [r])
    case Rejected => b.(rejected := b.rejected + [r])
  }

  /** The records of `rs` whose status maps to tab `t`, in order. */
  function OnTab(rs: seq<Reservation>, t: Tab): (r: seq<Reservation>)
    ensures |r| <= |rs|
  {
    if rs == [] then []
    else OnTab(rs[..|rs| - 1], t) + (if StatusToTab(rs[|rs| - 1].status) == t then [rs[|rs| - 1]] else [])
  }

  // -------------------------------------------------------- the response

  /** The three tab lists before sorting; `None` when normalising one of
      the elements throws. */
  function Group(res: Json): Option<Buckets>
  {
    if IsStructured(res) then StructuredBuckets(res)
    else match LegacyRecords(res)
      case None => None
      case Some(rs) => Some(PushAll(rs))
  }

  /** Every raw element the response offers for normalisation. */
  function RawItems(res: Json): seq<Json>
  {
    if IsStructured(res) then
      var list := Get(Get(res, "reservation"), "list");
      MergeItems(Get(list, "pending")) + MergeItems(Get(list, "accepted")) + MergeItems(Get(list, "rejected"))
    else Elements(Get(res, "reservation_list"))
  }

  /** The three tab lists as the screen stores them: each grouped list
      sorted, or three empty lists when the catch ran. */
  function GroupAndSort(res: Json): (b: Buckets)
    ensures Group(res).None? ==> b == NoBuckets
    ensures Group(res).Some? ==> forall t :: multiset(b.Of(t)) == multiset(Group(res).value.Of(t))
    ensures forall t :: Sorted(b.Of(t))
  {
    match Group(res)
    case None => NoBuckets
    case Some(g) =>
      var b := SortEach(g);
      assert forall t :: Sorted(b.Of(t)) by {
        forall t
          ensures Sorted(b.Of(t))
        {
          SortByKeySorted(g.Of(t));
        }
      }
      b
  }

  /** Each tab's list sorted on its own. */
  function SortEach(g: Buckets): (b: Buckets)
    ensures forall t :: b.Of(t) == SortByKey(g.Of(t))
  {
    Buckets(SortByKey(g.unconfirmed), SortByKey(g.confirmed), SortByKey(g.rejected))
  }

  // ------------------------------------------------------------- lemmas

  /** The legacy loop files every record under exactly its own tab, in list
      order. */
  lemma {:induction false} PushAllIsOnTab(rs: seq<Reservation>, t: Tab)
    ensures PushAll(rs).Of(t) == OnTab(rs, t)
  {
    if rs != [] {
      PushAllIsOnTab(rs[..|rs| - 1], t);
    }
  }

  /** Every record lands in exactly one tab, so the sizes add up. */
  lemma {:induction false} OnTabSizes(rs: seq<Reservation>)
    ensures |OnTab(rs, Unconfirmed)| + |OnTab(rs, Confirmed)| + |OnTab(rs, Rejected)| == |rs|
  {
    if rs != [] {
      OnTabSizes(rs[..|rs| - 1]);
    }
  }

  /** Legacy shape: the three lists together hold every element of
      `reservation_list` exactly once; a missing or non-array list gives
      three empty lists. */
  lemma LegacyPartition(res: Json)
    requires !IsStructured(res)
    ensures LegacyRecords(res).None? ==> GroupAndSort(res) == NoBuckets
    ensures LegacyRecords(res).Some? ==>
      GroupAndSort(res).Count(Unconfirmed) + GroupAndSort(res).Count(Confirmed)
      + GroupAndSort(res).Count(Rejected) == |Elements(Get(res, "reservation_list"))|
    ensures LegacyRecords(res).Some? ==>
      forall t :: multiset(GroupAndSort(res).Of(t)) == multiset(OnTab(LegacyRecords(res).value, t))
    ensures !Get(res, "reservation_list").JArr? ==> GroupAndSort(res) == NoBuckets
  {
    if LegacyRecords(res).None? {
      return;
    }
    var rs := LegacyRecords(res).value;
    var g := Group(res).value;
    assert g == PushAll(rs);
    forall t
      ensures g.Of(t) == OnTab(rs, t)
    {
      PushAllIsOnTab(rs, t);
    }
    OnTabSizes(rs);
    var b := GroupAndSort(res);
    assert b == SortEach(g);
    assert |b.Of(Unconfirmed)| + |b.Of(Confirmed)| + |b.Of(Rejected)| == |rs|;
  }

  /** An element of a concatenation throws exactly when one of either
      part does. */
  lemma AnyThrowsAppend(x: seq<Json>, y: seq<Json>)
    ensures AnyThrows(x + y) <==> AnyThrows(x) || AnyThrows(y)
  {
    if AnyThrows(x + y) {
      var i :| 0 <= i < |x + y| && Throws((x + y)[i]);
      if i < |x| {
        assert (x + y)[i] == x[i];
      } else {
        assert (x + y)[i] == y[i - |x|];
      }
    }
    if AnyThrows(x) {
      var i :| 0 <= i < |x| && Throws(x[i]);
      assert (x + y)[i] == x[i];
    }
    if AnyThrows(y) {
      var i :| 0 <= i < |y| && Throws(y[i]);
      assert (x + y)[|x| + i] == y[i];
    }
  }

  /** Normalising a concatenation succeeds exactly when both parts do, and
      then gives the two results one after the other. */
  lemma NormalizeAllAppend(x: seq<Json>, y: seq<Json>, code: string)
    ensures NormalizeAll(x + y, code).Some? <==> NormalizeAll(x, code).Some? && NormalizeAll(y, code).Some?
    ensures NormalizeAll(x + y, code).Some? ==>
      NormalizeAll(x + y, code).value == NormalizeAll(x, code).value + NormalizeAll(y, code).value
  {
    AnyThrowsAppend(x, y);
    MapAppend(r => Record(r, code), x, y);
  }

  /** `mergeAll` spreads the three normalised sub-buckets in order, and
      throws when one of them does. */
  lemma MergeAllConcatenates(bucket: Json, code: string)
    ensures var t := NormalizeBucket(Get(bucket, "today"), code);
      var m := NormalizeBucket(Get(bucket, "tomorrow"), code);
      var u := NormalizeBucket(Get(bucket, "upcoming"), code);
      (MergeAll(bucket, code).Some? <==> t.Some? && m.Some? && u.Some?)
      && (MergeAll(bucket, code).Some? ==> MergeAll(bucket, code).value == t.value + m.value + u.value)
  {
    var t := BucketItems(Get(bucket, "today"));
    var m := BucketItems(Get(bucket, "tomorrow"));
    var u := BucketItems(Get(bucket, "upcoming"));
    NormalizeAllAppend(t + m, u, code);
    NormalizeAllAppend(t, m, code);
  }

  /** A merged bucket: a record keeps its own status and gets the bucket's
      code only when it has none. */
  lemma MergeAllStatus(bucket: Json, code: string, i: int)
    requires MergeAll(bucket, code).Some? && 0 <= i < |MergeAll(bucket, code).value|
    ensures var r := MergeItems(bucket)[i];
      MergeAll(bucket, code).value[i].raw == r
      && MergeAll(bucket, code).value[i].status
         == (if Nullish(Get(r, "status")) then code else StringOf(Get(r, "status")))
  {
    assert Normalize(MergeItems(bucket)[i], code) == Some(MergeAll(bucket, code).value[i]);
  }

  /** Structured shape: a record's tab comes from the bucket it was listed
      in, whatever its own status says. */
  lemma StructuredTabs(res: Json)
    requires IsStructured(res)
    ensures Group(res).Some? <==> !AnyThrows(RawItems(res))
    ensures var list := Get(Get(res, "reservation"), "list");
      Group(res).Some? ==>
      Group(res).value.Of(Unconfirmed) == MergeAll(Get(list, "pending"), "3").value
      && Group(res).value.Of(Confirmed) == MergeAll(Get(list, "accepted"), "1").value
      && Group(res).value.Of(Rejected) == MergeAll(Get(list, "rejected"), "-1").value
  {
    GroupFailsIffSomeThrows(res);
  }

  /** Grouping fails exactly when some element the response offers throws
      on normalisation. */
  lemma GroupFailsIffSomeThrows(res: Json)
    ensures Group(res).None? <==> AnyThrows(RawItems(res))
  {
    if IsStructured(res) {
      var list := Get(Get(res, "reservation"), "list");
      var p := MergeItems(Get(list, "pending"));
      var a := MergeItems(Get(list, "accepted"));
      var j := MergeItems(Get(list, "rejected"));
      AnyThrowsAppend(p + a, j);
      AnyThrowsAppend(p, a);
    }
  }

  /** One element that throws on normalisation, in any bucket of either
      shape, leaves all three tabs empty. */
  lemma ThrowingRecordEmptiesTabs(res: Json, i: int)
    requires 0 <= i < |RawItems(res)| && Throws(RawItems(res)[i])
    ensures GroupAndSort(res) == NoBuckets
    ensures forall t :: GroupAndSort(res).Count(t) == 0
  {
    GroupFailsIffSomeThrows(res);
  }

  /** A legacy element whose e-mail is a truthy value other than text,
      such as a number, leaves all three tabs empty. */
  lemma NonTextEmailEmptiesTabs(res: Json, i: int)
    requires !IsStructured(res) && Get(res, "reservation_list").JArr?
    requires 0 <= i < |Get(res, "reservation_list").items|
    requires StringMethodThrows(Get(Get(res, "reservation_list").items[i], "email"))
    ensures GroupAndSort(res) == NoBuckets
  {
    ThrowingRecordEmptiesTabs(res, i);
  }

  /** Within each sorted tab, records with the same key keep the order they
      had in the response. */
  lemma GroupAndSortStable(res: Json, t: Tab, k: int)
    ensures Group(res).Some? ==>
      WithKey(GroupAndSort(res).Of(t), k) == WithKey(Group(res).value.Of(t), k)
  {
    if Group(res).Some? {
      var g := Group(res).value;
      assert GroupAndSort(res) == SortEach(g);
      SortByKeyStable(g.Of(t), k);
    }
  }
}
