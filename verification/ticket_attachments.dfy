/** The attachment list of a ticket's detail screen, read from its `file`
    field: an array as it is, a JSON array text parsed, or, when the text is
    not JSON, a lenient split of a bracketed, quoted, comma-separated list;
    and the address each attachment opens. `JSON.parse` is a parameter:
    `None` stands for the exception it throws on text that is not JSON. */
module TicketAttachments {
  import opened Wrappers
  import opened JsText
  import opened Json

  const Base := "http://smartrestaurantsolutions.com/upload_file/"

  /** `s.replace(/^\[|\]$/g, '')`: one leading '[' and one trailing ']'
      are dropped. */
  function StripBrackets(s: string): (r: string)
    ensures var i := if s != [] && s[0] == '[' then 1 else 0;
      i + |r| <= |s| && r == s[i..i + |r|]
    ensures var i := if s != [] && s[0] == '[' then 1 else 0;
      i + |r| == |s| <==> !(|s| > i && s[|s| - 1] == ']')
  {
    var a := if s != [] && s[0] == '[' then s[1..] else s;
    if a != [] && a[|a| - 1] == ']' then a[..|a| - 1] else a
  }

  /** `pieces.map((s) => s.trim()).filter(Boolean)`. */
  function TrimmedNonEmpty(pieces: seq<string>): (r: seq<string>)
    ensures |r| <= |pieces|
  {
    if pieces == [] then []
    else
      var t := Trim(pieces[0]);
      var rest := TrimmedNonEmpty(pieces[1..]);
      if t == "" then rest else [t] + rest
  }

  /** The fallback for text that is not JSON. */
  function Lenient(s: string): (names: seq<string>)
    ensures forall k | 0 <= k < |names| :: Kept(names[k])
    ensures forall k | 0 <= k < |names| :: Unquoted(names[k])
  {
    var unquoted := RemoveChar(StripBrackets(s), '"');
    var pieces := Split(unquoted, ',');
    SplitKeepsOut(unquoted, ',', '"');
    assert forall k | 0 <= k < |pieces| :: Unquoted(pieces[k]);
    TrimmedNonEmptyOmits(pieces);
    TrimmedNonEmptyKept(pieces);
    TrimmedNonEmpty(pieces)
  }

  /** `xs.filter(Boolean)`. */
  function TruthyOnly(xs: seq<Json>): (r: seq<Json>)
    ensures forall k | 0 <= k < |r| :: Truthy(r[k])
    ensures (forall k | 0 <= k < |xs| :: Truthy(xs[k])) ==> r == xs
  {
    Filter(xs, Truthy)
  }

  /** The `files` memo. */
  function Files(file: Json, parse: string -> Option<Json>): (fs: seq<Json>)
    ensures !Truthy(file) ==> fs == []
    ensures forall k | 0 <= k < |fs| :: Truthy(fs[k])
  {
    if !Truthy(file) then []
    else if file.JArr? then TruthyOnly(file.items)
    else match parse(StringOf(file))
      case Some(parsed) => TruthyOnly(Elements(parsed))
      case None =>
        AsStrings(Lenient(StringOf(file)))
  }

  function AsStrings(names: seq<string>): (vs: seq<Json>)
    ensures |vs| == |names|
    ensures forall k | 0 <= k < |vs| :: vs[k] == JStr(names[k])
  {
    seq(|names|, k requires 0 <= k < |names| => JStr(names[k]))
  }

  /** `${BASE}${name}`. */
  function FileUrl(name: Json): (url: string)
    ensures |url| == |Base| + |StringOf(name)| && url[..|Base|] == Base && url[|Base|..] == StringOf(name)
  {
    Base + StringOf(name)
  }

  // ------------------------------------------------------------- lemmas

  /** A piece holds neither separator nor quote. */
  predicate Unquoted(p: string) {
    ',' !in p && '"' !in p
  }

  lemma {:induction false} TrimmedNonEmptyOmits(pieces: seq<string>)
    requires forall k | 0 <= k < |pieces| :: Unquoted(pieces[k])
    ensures forall k | 0 <= k < |TrimmedNonEmpty(pieces)| :: Unquoted(TrimmedNonEmpty(pieces)[k])
  {
    if pieces != [] {
      var t := Trim(pieces[0]);
      var rest := TrimmedNonEmpty(pieces[1..]);
      TrimmedNonEmptyOmits(pieces[1..]);
      TrimWithin(pieces[0]);
      assert Unquoted(t);
      var r := TrimmedNonEmpty(pieces);
      assert r == (if t == "" then rest else [t] + rest);
      forall k | 0 <= k < |r|
        ensures Unquoted(r[k])
      {
        if t == "" {
          assert r[k] == rest[k];
        } else if k > 0 {
          assert r[k] == rest[k - 1];
        } else {
          assert r[k] == t;
        }
      }
    }
  }

  /** What the lenient reading keeps: a non-empty name without surrounding
      whitespace. */
  predicate Kept(n: string) {
    n != "" && Trimmed(n)
  }

  lemma {:induction false} TrimmedNonEmptyKept(pieces: seq<string>)
    ensures forall k | 0 <= k < |TrimmedNonEmpty(pieces)| :: Kept(TrimmedNonEmpty(pieces)[k])
  {
    if pieces != [] {
      var t := Trim(pieces[0]);
      var rest := TrimmedNonEmpty(pieces[1..]);
      TrimmedNonEmptyKept(pieces[1..]);
      var r := TrimmedNonEmpty(pieces);
      assert r == (if t == "" then rest else [t] + rest);
      forall k | 0 <= k < |r|
        ensures Kept(r[k])
      {
        if t == "" {
          assert r[k] == rest[k];
        } else if k > 0 {
          assert r[k] == rest[k - 1];
        } else {
          assert r[k] == t;
        }
      }
    }
  }

  /** Trimming keeps a contiguous part of the text, so it adds no
      character. */
  lemma TrimWithin(s: string)
    ensures forall c | c in Trim(s) :: c in s
  {
    var u := TrimStart(s);
    assert forall c | c in u :: c in s by {
      assert u == s[|s| - |u|..];
    }
  }

  /** A name the lenient reading gives back unchanged: not empty, with no
      comma, quote or surrounding whitespace. */
  predicate PlainName(n: string) {
    n != "" && ',' !in n && '"' !in n && Trimmed(n)
  }

  /** `JSON.stringify(names)` for plain names: `["a","b"]`. */
  function ArrayText(names: seq<string>): string {
    "[" + Join(Quoted(names), ",") + "]"
  }

  function Quoted(names: seq<string>): (q: seq<string>)
    ensures |q| == |names|
    ensures forall k | 0 <= k < |q| :: q[k] == "\"" + names[k] + "\""
  {
    seq(|names|, k requires 0 <= k < |names| => "\"" + names[k] + "\"")
  }

  /** The lenient reading of the text of a JSON array of plain names gives
      back the names, so a list stored in that form survives even when it
      cannot be parsed. */
  lemma LenientReadsArrayText(names: seq<string>)
    requires forall k | 0 <= k < |names| :: PlainName(names[k])
    ensures Lenient(ArrayText(names)) == names
  {
    var inner := Join(Quoted(names), ",");
    var text := ArrayText(names);
    assert StripBrackets(text) == inner by {
      assert text[0] == '[';
      assert text[1..] == inner + "]";
    }
    RemoveQuotes(names);
    if names == [] {
      assert Split("", ',') == [""];
      assert TrimmedNonEmpty([""]) == [] by {
        assert Trim("") == "";
      }
    } else {
      JoinSplit(names, ',');
      TrimmedNonEmptyPlain(names);
    }
  }

  lemma {:induction false} RemoveQuotes(names: seq<string>)
    requires forall k | 0 <= k < |names| :: '"' !in names[k]
    ensures RemoveChar(Join(Quoted(names), ","), '"') == Join(names, ",")
  {
    if |names| == 1 {
      Unquote(names[0]);
    } else if |names| > 1 {
      var q := Quoted(names);
      RemoveQuotes(names[1..]);
      assert q[1..] == Quoted(names[1..]);
      var rest := Join(q[1..], ",");
      assert Join(q, ",") == (q[0] + ",") + rest;
      RemoveCharAppend(q[0] + ",", rest, '"');
      RemoveCharAppend(q[0], ",", '"');
      Unquote(names[0]);
    }
  }

  lemma Unquote(n: string)
    requires '"' !in n
    ensures RemoveChar("\"" + n + "\"", '"') == n
  {
    RemoveCharAppend("\"", n + "\"", '"');
    RemoveCharAppend(n, "\"", '"');
    assert "\"" + n + "\"" == "\"" + (n + "\"");
  }

  lemma {:induction false} TrimmedNonEmptyPlain(names: seq<string>)
    requires forall k | 0 <= k < |names| :: PlainName(names[k])
    ensures TrimmedNonEmpty(names) == names
  {
    if names != [] {
      var rest := names[1..];
      assert forall k | 0 <= k < |rest| :: PlainName(rest[k]) by {
        forall k | 0 <= k < |rest| ensures PlainName(rest[k]) {
          assert rest[k] == names[k + 1];
        }
      }
      TrimmedNonEmptyPlain(rest);
      KeepsPlainHead(names);
      assert [names[0]] + rest == names;
    }
  }

  lemma KeepsPlainHead(names: seq<string>)
    requires names != [] && PlainName(names[0])
    ensures TrimmedNonEmpty(names) == [names[0]] + TrimmedNonEmpty(names[1..])
  {
    TrimIdentity(names[0]);
  }

  /** An attachment list read from an array keeps its truthy entries in
      order and drops the rest. */
  lemma ArrayFileKeepsTruthy(items: seq<Json>, parse: string -> Option<Json>)
    ensures Files(JArr(items), parse) == Filter(items, Truthy)
  {
  }

  /** Text that parses as JSON but not as an array gives no attachment. */
  lemma ParsedNonArrayGivesNone(s: string, parse: string -> Option<Json>)
    requires s != "" && parse(s).Some? && !parse(s).value.JArr?
    ensures Files(JStr(s), parse) == []
  {
  }
}
