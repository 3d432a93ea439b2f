/** `list.sort((a, b) => a.sortKey - b.sortKey)` on one tab's list.
    ECMAScript's `Array.prototype.sort` is stable; a NaN key makes the
    comparator answer 0 ("equal") for every pair it is in, which is not a
    consistent order, and the standard leaves the result to the engine in
    that case. The model is an insertion sort that places each record
    before the first record whose key is strictly greater: for defined keys
    this is the unique stable ascending order, and with NaN keys it is one
    of the orders an engine may produce. */
module ReservationSort {
  import opened Wrappers
  import opened ReservationRecord

  /** The comparator answers "negative": both keys are numbers and the
      first is smaller. */
  predicate KeyLess(a: Reservation, b: Reservation) {
    a.sortKey.Some? && b.sortKey.Some? && a.sortKey.value < b.sortKey.value
  }

  /** No record comes after a record that the comparator puts after it. */
  predicate Sorted(s: seq<Reservation>) {
    forall i, j | 0 <= i < j < |s| :: !KeyLess(s[j], s[i])
  }

  predicate AllKeysDefined(s: seq<Reservation>) {
    forall i | 0 <= i < |s| :: s[i].sortKey.Some?
  }

  /** With every key a number, `Sorted` is ascending order of the keys. */
  lemma SortedAscending(s: seq<Reservation>)
    requires AllKeysDefined(s)
    ensures Sorted(s) <==> forall i, j | 0 <= i < j < |s| :: s[i].sortKey.value <= s[j].sortKey.value
  {
  }

  /** The records whose key is the number `k`, in their order in `s`. */
  function WithKey(s: seq<Reservation>, k: int): (r: seq<Reservation>)
    ensures |r| <= |s|
    ensures forall i | 0 <= i < |r| :: r[i].sortKey == Some(k)
  {
    if s == [] then []
    else (if s[0].sortKey == Some(k) then [s[0]] else []) + WithKey(s[1..], k)
  }

  /** Places `x` before the first record of `s` with a strictly greater
      key. */
  function Insert(x: Reservation, s: seq<Reservation>): (r: seq<Reservation>)
    ensures |r| == |s| + 1
    ensures multiset(r) == multiset(s) + multiset{x}
  {
    if s == [] then [x]
    else if KeyLess(x, s[0]) then [x] + s
    else
      assert s == [s[0]] + s[1..];
      [s[0]] + Insert(x, s[1..])
  }

  /** The sort: insert each record, in list order, into the sorted prefix. */
  function SortByKey(s: seq<Reservation>): (r: seq<Reservation>)
    ensures |r| == |s|
    ensures multiset(r) == multiset(s)
  {
    if s == [] then []
    else
      assert s == s[..|s| - 1] + [s[|s| - 1]];
      Insert(s[|s| - 1], SortByKey(s[..|s| - 1]))
  }

  // ------------------------------------------------------------- lemmas

  lemma {:induction false} InsertSorted(x: Reservation, s: seq<Reservation>)
    requires Sorted(s)
    ensures Sorted(Insert(x, s))
  {
    if s != [] && !KeyLess(x, s[0]) {
      InsertSorted(x, s[1..]);
      var r := Insert(x, s);
      var t := Insert(x, s[1..]);
      assert r == [s[0]] + t;
      assert multiset(t) == multiset(s[1..]) + multiset{x};
      forall j | 0 < j < |r|
        ensures !KeyLess(r[j], r[0])
      {
        assert r[j] == t[j - 1];
        assert r[j] in multiset(t);
        if r[j] != x {
          assert r[j] in multiset(s[1..]);
          var k :| 0 <= k < |s[1..]| && s[1..][k] == r[j];
          assert s[k + 1] == r[j];
        }
      }
    }
  }

  /** The sort's output is ordered as the comparator demands. */
  lemma {:induction false} SortByKeySorted(s: seq<Reservation>)
    ensures Sorted(SortByKey(s))
  {
    if s != [] {
      SortByKeySorted(s[..|s| - 1]);
      InsertSorted(s[|s| - 1], SortByKey(s[..|s| - 1]));
    }
  }

  lemma WithKeyCons(x: Reservation, s: seq<Reservation>, k: int)
    ensures WithKey([x] + s, k) == (if x.sortKey == Some(k) then [x] else []) + WithKey(s, k)
  {
    assert ([x] + s)[1..] == s;
  }

  lemma {:induction false} WithKeyAppend(a: seq<Reservation>, b: seq<Reservation>, k: int)
    ensures WithKey(a + b, k) == WithKey(a, k) + WithKey(b, k)
  {
    if a == [] {
      assert a + b == b;
    } else {
      assert a + b == [a[0]] + (a[1..] + b);
      WithKeyAppend(a[1..], b, k);
      WithKeyCons(a[0], a[1..] + b, k);
      WithKeyCons(a[0], a[1..], k);
      assert [a[0]] + a[1..] == a;
    }
  }

  lemma {:induction false} WithKeyNone(s: seq<Reservation>, k: int)
    requires forall i | 0 <= i < |s| :: s[i].sortKey != Some(k)
    ensures WithKey(s, k) == []
  {
    if s != [] {
      WithKeyNone(s[1..], k);
    }
  }

  /** Inserting into a sorted list puts `x` after every record with the
      same key. */
  lemma {:induction false} InsertWithKey(x: Reservation, s: seq<Reservation>, k: int)
    requires Sorted(s)
    ensures WithKey(Insert(x, s), k) == WithKey(s, k) + (if x.sortKey == Some(k) then [x] else [])
  {
    if s == [] {
      WithKeyCons(x, [], k);
      assert [x] + [] == [x];
    } else if KeyLess(x, s[0]) {
      InsertFrontWithKey(x, s, k);
    } else {
      assert Sorted(s[1..]);
      InsertWithKey(x, s[1..], k);
      InsertPastWithKey(x, s, k);
    }
  }

  /** `x` goes first: no record of the sorted list shares its key. */
  lemma InsertFrontWithKey(x: Reservation, s: seq<Reservation>, k: int)
    requires Sorted(s) && s != [] && KeyLess(x, s[0])
    ensures WithKey(Insert(x, s), k) == WithKey(s, k) + (if x.sortKey == Some(k) then [x] else [])
  {
    if x.sortKey == Some(k) {
      forall i | 0 <= i < |s|
        ensures s[i].sortKey != Some(k)
      {
        assert i == 0 || !KeyLess(s[i], s[0]);
      }
      WithKeyNone(s, k);
    }
    assert Insert(x, s) == [x] + s;
    WithKeyCons(x, s, k);
  }

  /** `x` goes past the first record: the claim for the rest carries over. */
  lemma InsertPastWithKey(x: Reservation, s: seq<Reservation>, k: int)
    requires s != [] && !KeyLess(x, s[0])
    requires WithKey(Insert(x, s[1..]), k) == WithKey(s[1..], k) + (if x.sortKey == Some(k) then [x] else [])
    ensures WithKey(Insert(x, s), k) == WithKey(s, k) + (if x.sortKey == Some(k) then [x] else [])
  {
    InsertPast(x, s);
    WithKeyConsBoth(s[0], Insert(x, s[1..]), s[1..], k, if x.sortKey == Some(k) then [x] else []);
    assert [s[0]] + s[1..] == s;
  }

  lemma InsertPast(x: Reservation, s: seq<Reservation>)
    requires s != [] && !KeyLess(x, s[0])
    ensures Insert(x, s) == [s[0]] + Insert(x, s[1..])
  {
  }

  /** Putting the same record in front of two lists keeps a relation
      between their records of key `k`. */
  lemma WithKeyConsBoth(a: Reservation, t: seq<Reservation>, u: seq<Reservation>, k: int, tail: seq<Reservation>)
    requires WithKey(t, k) == WithKey(u, k) + tail
    ensures WithKey([a] + t, k) == WithKey([a] + u, k) + tail
  {
    WithKeyCons(a, t, k);
    WithKeyCons(a, u, k);
  }

  /** Stability: the records sharing a key keep their list order. */
  lemma {:induction false} SortByKeyStable(s: seq<Reservation>, k: int)
    ensures WithKey(SortByKey(s), k) == WithKey(s, k)
  {
    if s != [] {
      var init, x := s[..|s| - 1], s[|s| - 1];
      assert s == init + [x];
      SortByKeyStable(init, k);
      SortLastWithKey(s, init, x, k);
      WithKeySnoc(init, x, k);
    }
  }

  /** The last record is inserted into the sorted rest after the records
      of its key. */
  lemma SortLastWithKey(s: seq<Reservation>, init: seq<Reservation>, x: Reservation, k: int)
    requires s == init + [x]
    ensures WithKey(SortByKey(s), k) == WithKey(SortByKey(init), k) + (if x.sortKey == Some(k) then [x] else [])
  {
    assert s[..|s| - 1] == init;
    SortByKeySorted(init);
    InsertWithKey(x, SortByKey(init), k);
  }

  lemma WithKeySnoc(s: seq<Reservation>, x: Reservation, k: int)
    ensures WithKey(s + [x], k) == WithKey(s, k) + (if x.sortKey == Some(k) then [x] else [])
  {
    WithKeyAppend(s, [x], k);
    WithKeyCons(x, [], k);
    assert [x] + [] == [x];
  }
}
