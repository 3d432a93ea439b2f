/** Loosely typed values as the screens receive them from the backend and
    from navigation parameters, with the JavaScript coercions the code
    relies on: truthiness, `??`, `||`, optional property access, `String(x)`,
    `Number(x)`, `parseFloat(x)` and `parseInt(x, 10)`. */
module Json {
  import opened Wrappers
  import opened JsText
  import opened JsNumber

  /** `JUndef` is JavaScript's `undefined`. Numbers never hold NaN: every
      operation that can produce NaN returns an `Option` instead. */
  datatype Json =
    | JNull
    | JUndef
    | JBool(b: bool)
    | JNum(n: real)
    | JStr(s: string)
    | JArr(items: seq<Json>)
    | JObj(fields: map<string, Json>)

  /** `v?.key`: the field of an object, `undefined` for anything else. */
  function Get(v: Json, key: string): Json
  {
    if v.JObj? && key in v.fields then v.fields[key] else JUndef
  }

  /** JavaScript truthiness. */
  predicate Truthy(v: Json)
  {
    match v
    case JNull => false
    case JUndef => false
    case JBool(b) => b
    case JNum(n) => n != 0.0
    case JStr(s) => s != ""
    case JArr(_) => true
    case JObj(_) => true
  }

  predicate Nullish(v: Json) {
    v.JNull? || v.JUndef?
  }

  /** `a ?? b`. */
  function Coalesce(a: Json, b: Json): (r: Json)
    ensures Nullish(a) ==> r == b
    ensures !Nullish(a) ==> r == a
  {
    if Nullish(a) then b else a
  }

  /** `a || b`. */
  function Or(a: Json, b: Json): (r: Json)
    ensures Truthy(a) ==> r == a
    ensures !Truthy(a) ==> r == b
  {
    if Truthy(a) then a else b
  }

  /** `vs[0] || vs[1] || … || last`: the first truthy value, or `last`
      when none is truthy. */
  function FirstTruthy(vs: seq<Json>, last: Json): (r: Json)
    ensures Truthy(r) || r == last
    ensures (forall j | 0 <= j < |vs| :: !Truthy(vs[j])) ==> r == last
    ensures forall i | 0 <= i < |vs| && Truthy(vs[i]) && NoneTruthyBefore(vs, i) :: r == vs[i]
  {
    if vs == [] then last
    else if Truthy(vs[0]) then vs[0]
    else
      assert forall i | 1 <= i < |vs| && NoneTruthyBefore(vs, i) :: NoneTruthyBefore(vs[1..], i - 1);
      FirstTruthy(vs[1..], last)
  }

  predicate NoneTruthyBefore(vs: seq<Json>, i: int)
    requires 0 <= i <= |vs|
  {
    forall j | 0 <= j < i :: !Truthy(vs[j])
  }

  /** `vs[0] ?? vs[1] ?? … ?? last`: the first value that is neither `null`
      nor `undefined`, or `last` when there is none. */
  function FirstPresent(vs: seq<Json>, last: Json): (r: Json)
    ensures (forall j | 0 <= j < |vs| :: Nullish(vs[j])) ==> r == last
    ensures forall i | 0 <= i < |vs| && !Nullish(vs[i]) && AllNullishBefore(vs, i) :: r == vs[i]
  {
    if vs == [] then last
    else if !Nullish(vs[0]) then vs[0]
    else
      assert forall i | 1 <= i < |vs| && AllNullishBefore(vs, i) :: AllNullishBefore(vs[1..], i - 1);
      FirstPresent(vs[1..], last)
  }

  predicate AllNullishBefore(vs: seq<Json>, i: int)
    requires 0 <= i <= |vs|
  {
    forall j | 0 <= j < i :: Nullish(vs[j])
  }

  /** `Array.isArray(v) ? v : []` as a sequence. */
  function Elements(v: Json): (r: seq<Json>)
    ensures v.JArr? ==> r == v.items
    ensures !v.JArr? ==> r == []
  {
    if v.JArr? then v.items else []
  }

  /** `xs.filter(p)`. */
  function Filter(xs: seq<Json>, p: Json -> bool): (r: seq<Json>)
    ensures |r| <= |xs|
    ensures forall i | 0 <= i < |r| :: p(r[i]) && r[i] in xs
    ensures (forall i | 0 <= i < |xs| :: p(xs[i])) ==> r == xs
  {
    if xs == [] then []
    else (if p(xs[0]) then [xs[0]] else []) + Filter(xs[1..], p)
  }

  /** `xs.find(p)`: the first element satisfying `p`, if any. */
  function Find(xs: seq<Json>, p: Json -> bool): (r: Option<Json>)
    ensures r.Some? ==> p(r.value)
  {
    if xs == [] then None
    else if p(xs[0]) then Some(xs[0])
    else Find(xs[1..], p)
  }

  /** `find` gives nothing exactly when no element satisfies `p`, and
      otherwise the first element that does. */
  lemma {:induction false} FindSpec(xs: seq<Json>, p: Json -> bool)
    ensures Find(xs, p).None? <==> forall i | 0 <= i < |xs| :: !p(xs[i])
    ensures Find(xs, p).Some? ==> exists i | 0 <= i < |xs| :: xs[i] == Find(xs, p).value && NoneBefore(xs, p, i)
  {
    if xs != [] {
      if p(xs[0]) {
        assert NoneBefore(xs, p, 0);
      } else {
        FindSpec(xs[1..], p);
        var r := Find(xs[1..], p);
        if r.Some? {
          var i :| 0 <= i < |xs[1..]| && xs[1..][i] == r.value && NoneBefore(xs[1..], p, i);
          assert NoneBefore(xs, p, i + 1);
        } else {
          forall i | 0 <= i < |xs| ensures !p(xs[i]) {
            if i > 0 {
              assert xs[i] == xs[1..][i - 1];
            }
          }
        }
      }
    }
  }

  predicate NoneBefore(xs: seq<Json>, p: Json -> bool, i: int)
    requires 0 <= i <= |xs|
  {
    forall j | 0 <= j < i :: !p(xs[j])
  }

  /** `xs.find(p)` reaches an element on which the test throws (`bad`):
      the test runs on each element in turn until one passes. */
  predicate FindReaches(xs: seq<Json>, p: Json -> bool, bad: Json -> bool)
  {
    xs != [] && (bad(xs[0]) || (!p(xs[0]) && FindReaches(xs[1..], p, bad)))
  }

  /** `find` reaches a throwing element exactly when one comes before any
      element that passes. */
  lemma FindReachesSpec(xs: seq<Json>, p: Json -> bool, bad: Json -> bool)
    ensures FindReaches(xs, p, bad) <==> exists i | 0 <= i < |xs| :: bad(xs[i]) && NoneBefore(xs, p, i)
  {
    if FindReaches(xs, p, bad) {
      WitnessOfFindReaches(xs, p, bad);
    }
    forall i | 0 <= i < |xs| && bad(xs[i]) && NoneBefore(xs, p, i)
      ensures FindReaches(xs, p, bad)
    {
      FindReachesOfWitness(xs, p, bad, i);
    }
  }

  lemma {:induction false} WitnessOfFindReaches(xs: seq<Json>, p: Json -> bool, bad: Json -> bool)
    requires FindReaches(xs, p, bad)
    ensures exists i | 0 <= i < |xs| :: bad(xs[i]) && NoneBefore(xs, p, i)
  {
    if bad(xs[0]) {
      assert NoneBefore(xs, p, 0);
    } else {
      var ys := xs[1..];
      WitnessOfFindReaches(ys, p, bad);
      var i :| 0 <= i < |ys| && bad(ys[i]) && NoneBefore(ys, p, i);
      assert xs[i + 1] == ys[i];
      forall j | 0 <= j < i + 1
        ensures !p(xs[j])
      {
        if j > 0 {
          assert xs[j] == ys[j - 1];
        }
      }
      assert NoneBefore(xs, p, i + 1);
    }
  }

  lemma {:induction false} FindReachesOfWitness(xs: seq<Json>, p: Json -> bool, bad: Json -> bool, i: int)
    requires 0 <= i < |xs| && bad(xs[i]) && NoneBefore(xs, p, i)
    ensures FindReaches(xs, p, bad)
  {
    if i > 0 && !bad(xs[0]) {
      var ys := xs[1..];
      assert !p(xs[0]);
      assert ys[i - 1] == xs[i];
      forall j | 0 <= j < i - 1
        ensures !p(ys[j])
      {
        assert ys[j] == xs[j + 1];
      }
      FindReachesOfWitness(ys, p, bad, i - 1);
    }
  }

  /** What `xs.find(p)` does when its test throws on the elements `bad`
      holds of: it throws, finds nothing, or finds an element. */
  datatype Search = Thrown | NotFound | Found(value: Json)

  function FindOrThrow(xs: seq<Json>, p: Json -> bool, bad: Json -> bool): (r: Search)
  {
    if FindReaches(xs, p, bad) then Thrown
    else match Find(xs, p)
      case None => NotFound
      case Some(v) => Found(v)
  }

  /** The find throws exactly when a throwing element comes before every
      match; it finds nothing exactly when no element matches or throws;
      and what it finds is the first match, with no throwing element before
      it. */
  lemma FindOrThrowSpec(xs: seq<Json>, p: Json -> bool, bad: Json -> bool)
    ensures FindOrThrow(xs, p, bad).Thrown? <==> exists i | 0 <= i < |xs| :: bad(xs[i]) && NoneBefore(xs, p, i)
    ensures FindOrThrow(xs, p, bad).NotFound? <==> forall i | 0 <= i < |xs| :: !p(xs[i]) && !bad(xs[i])
    ensures FindOrThrow(xs, p, bad).Found? ==> exists i | 0 <= i < |xs| ::
      xs[i] == FindOrThrow(xs, p, bad).value && p(xs[i]) && NoneBefore(xs, p, i) && NoneBefore(xs, bad, i)
  {
    FindReachesSpec(xs, p, bad);
    FindSpec(xs, p);
    var r := FindOrThrow(xs, p, bad);
    if Find(xs, p).None? && !FindReaches(xs, p, bad) {
      forall i | 0 <= i < |xs|
        ensures !bad(xs[i])
      {
        assert NoneBefore(xs, p, i);
      }
    }
    if r.Found? {
      var i :| 0 <= i < |xs| && xs[i] == r.value && NoneBefore(xs, p, i);
      forall j | 0 <= j < i
        ensures !bad(xs[j])
      {
        assert NoneBefore(xs, p, j);
      }
      assert NoneBefore(xs, bad, i);
    }
  }

  /** `vs.filter(Boolean)` followed by `String` of each element, as
      `join` does. */
  function TruthyParts(vs: seq<Json>): (ps: seq<string>)
    ensures |ps| <= |vs|
    ensures ps == [] <==> forall i | 0 <= i < |vs| :: !Truthy(vs[i])
    ensures (forall i | 0 <= i < |vs| :: Truthy(vs[i])) ==> |ps| == |vs|
  {
    if vs == [] then []
    else
      var rest := TruthyParts(vs[1..]);
      if Truthy(vs[0]) then [StringOf(vs[0])] + rest else rest
  }

  /** `String(v)`. Array elements that are `null` or `undefined` render as
      the empty string, as `Array.prototype.join` does. */
  function StringOf(v: Json): string
  {
    match v
    case JNull => "null"
    case JUndef => "undefined"
    case JBool(b) => if b then "true" else "false"
    case JNum(n) => NumberToString(n)
    case JStr(s) => s
    case JArr(a) => Join(seq(|a|, i requires 0 <= i < |a| => if Nullish(a[i]) then "" else StringOf(a[i])), ",")
    case JObj(_) => "[object Object]"
  }

  /** `Number(v)`; `None` is NaN. Objects and arrays convert through their
      string form, as ECMAScript's ToPrimitive does for them. */
  function ToNumber(v: Json): Option<real>
  {
    match v
    case JNull => Some(0.0)
    case JUndef => None
    case JBool(b) => Some(if b then 1.0 else 0.0)
    case JNum(n) => Some(n)
    case JStr(s) => StringToNumber(s)
    case JArr(_) => StringToNumber(StringOf(v))
    case JObj(_) => StringToNumber(StringOf(v))
  }

  /** `parseFloat(v)`. */
  function ParseFloat(v: Json): Option<real> {
    ParseFloatText(StringOf(v))
  }

  /** `parseInt(v, 10)`. */
  function ParseInt(v: Json): Option<int> {
    ParseIntText(StringOf(v))
  }

  /** `x || 0` applied to a possibly-NaN number: NaN and 0 both give 0. */
  function OrZero(x: Option<real>): (r: real)
    ensures x.Some? && x.value != 0.0 ==> r == x.value
    ensures x.None? ==> r == 0.0
  {
    if x.Some? then x.value else 0.0
  }

  /** A numeric intermediate that JavaScript would treat as falsy: NaN or 0. */
  predicate FalsyNumber(x: Option<real>) {
    x.None? || x.value == 0.0
  }

  /** `v.length` for arrays and strings; other values have none. */
  function Length(v: Json): Option<nat>
  {
    match v
    case JArr(a) => Some(|a|)
    case JStr(s) => Some(|s|)
    case _ => None
  }

  /** `v[0]` for a one-element array or string. */
  function First(v: Json): Json
    requires Length(v) == Some(1)
  {
    match v
    case JArr(a) => a[0]
    case JStr(s) => JStr([s[0]])
  }

  /** Calling a string method (`trim`, `toLowerCase`, `split`) on
      `v || ''` throws a TypeError: `v` is truthy but not text, so the
      method is missing. A falsy `v` becomes '' and text has the method. */
  predicate StringMethodThrows(v: Json) {
    Truthy(v) && !v.JStr?
  }

  /** `res?.msg || fallback`, as shown. */
  function MessageOr(res: Json, fallback: string): (m: string)
    ensures Truthy(Get(res, "msg")) ==> m == StringOf(Get(res, "msg"))
    ensures !Truthy(Get(res, "msg")) ==> m == fallback
  {
    StringOf(Or(Get(res, "msg"), JStr(fallback)))
  }

  // ------------------------------------------------------------- lemmas

  /** `String(v) === '1'` holds for the string '1' and the number 1, and for
      no other string, number, boolean, null, undefined or object. */
  lemma StringOfIsOne(v: Json)
    requires !v.JArr?
    ensures StringOf(v) == "1" <==> v == JStr("1") || v == JNum(1.0)
  {
    if v.JNum? {
      NumberToStringIsOne(v.n);
    }
  }

  /** A string converts to itself. */
  lemma StringOfStr(s: string)
    ensures StringOf(JStr(s)) == s
  {
  }

  /** `parseInt` of a string reads that string itself. */
  lemma ParseIntOfText(s: string)
    ensures ParseInt(JStr(s)) == ParseIntText(s)
  {
  }

  /** `String(i)` of an integral number is its decimal text, so `parseInt`
      reads it back. */
  lemma ParseIntOfIntegralNumber(n: nat)
    ensures ParseInt(JNum(n as real)) == Some(n as int)
  {
    assert IsIntegral(n as real);
    assert (n as real).Floor == n;
    ParseIntOfNatToString(n);
  }
}
