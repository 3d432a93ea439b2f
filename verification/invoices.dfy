/** The invoice list: loading the restaurant's invoices, the search by week
    number or invoice number, and the parameters a row hands to the detail
    screen. */
module InvoiceList {
  import opened JsText
  import opened Json
  import opened InvoiceUrls

  /** The restaurant whose invoices are listed: the active branch, else the
      user's own restaurant. */
  function RestId(activeRestId: Json, fallbackRestId: Json): (id: Json)
    ensures Truthy(activeRestId) ==> id == activeRestId
    ensures !Truthy(activeRestId) ==> id == fallbackRestId
  {
    Or(activeRestId, fallbackRestId)
  }

  /** The search predicate for the query `q`: the week number contains the
      trimmed query, or the invoice number contains it ignoring case. */
  predicate Matches(it: Json, q: string) {
    Contains(StringOf(Coalesce(Get(it, "week_no"), JStr(""))), Trim(q))
    || Contains(Lower(StringOf(Coalesce(Get(it, "InvoiceNo"), JStr("")))), Lower(Trim(q)))
  }

  /** The search test reads `it.week_no` of every invoice it is given, so
      a null or undefined invoice makes the filter throw. */
  predicate SearchThrows(all: seq<Json>) {
    exists i | 0 <= i < |all| :: Nullish(all[i])
  }

  /** The list state: every invoice loaded, the rows shown and the text in
      the search box. */
  datatype Lists = Lists(all: seq<Json>, shown: seq<Json>, search: string)

  const Initial := Lists([], [], "")

  /** `filterByWeek(txt)`: an empty query shows everything loaded, any
      other the invoices it matches. The search text is stored first, so
      when the filter throws the text changes and the rows do not. */
  function FilterByWeek(s: Lists, txt: string): (r: Lists)
    ensures r.search == txt && r.all == s.all
    ensures txt == "" ==> r.shown == s.all
    ensures txt != "" && SearchThrows(s.all) ==> r.shown == s.shown
    ensures txt != "" && !SearchThrows(s.all) ==> forall x :: x in r.shown <==> x in s.all && Matches(x, txt)
  {
    FilterMembers(s.all, it => Matches(it, txt));
    if txt == "" then s.(shown := s.all, search := txt)
    else if SearchThrows(s.all) then s.(search := txt)
    else s.(shown := Filter(s.all, it => Matches(it, txt)), search := txt)
  }

  /** `fetchInvoices` answered with `data`: anything but an array reads as
      no invoices, and the current search is applied when it is not blank.
      Without a restaurant both lists are emptied and nothing is asked
      for. The loaded invoices are stored before the search runs, and
      nothing catches a throw from it, so then the rows stay as they
      were. */
  function Fetched(s: Lists, restId: Json, data: Json): (r: Lists)
    ensures r.search == s.search
    ensures !Truthy(restId) ==> r.all == [] && r.shown == []
    ensures Truthy(restId) ==> r.all == Elements(data)
    ensures Truthy(restId) && Trim(s.search) == "" ==> r.shown == r.all
    ensures Truthy(restId) && Trim(s.search) != "" && SearchThrows(r.all) ==> r.shown == s.shown
    ensures Truthy(restId) && Trim(s.search) != "" && !SearchThrows(r.all) ==>
      forall x :: x in r.shown <==> x in r.all && Matches(x, s.search)
  {
    if !Truthy(restId) then s.(all := [], shown := [])
    else
      var arr := Elements(data);
      FilterMembers(arr, it => Matches(it, s.search));
      if Trim(s.search) == "" then s.(all := arr, shown := arr)
      else if SearchThrows(arr) then s.(all := arr)
      else s.(all := arr, shown := Filter(arr, it => Matches(it, s.search)))
  }

  /** The parameters `openInvoice` passes to the detail screen. */
  function OpenParams(base: string, item: Json): (params: Json)
    ensures params.JObj? && params.fields.Keys == {"downloadUrl", "url", "weekNo"}
    ensures Get(params, "url") == JStr(DetailsPageUrl(Get(item, "InvoiceNo")))
    ensures Get(params, "downloadUrl") == JStr(DownloadUrl(base, Get(item, "InvoiceNo")))
    ensures Get(params, "weekNo") == Get(item, "week_no")
  {
    var no := Get(item, "InvoiceNo");
    RowParams(DetailsPageUrl(no), DownloadUrl(base, no), Get(item, "week_no"))
  }

  /** The parameters object itself, for any two addresses and week. */
  function RowParams(url: string, downloadUrl: string, weekNo: Json): (params: Json)
    ensures params.JObj? && params.fields.Keys == {"downloadUrl", "url", "weekNo"}
  {
    JObj(map["downloadUrl" := JStr(downloadUrl), "url" := JStr(url), "weekNo" := weekNo])
  }

  // ------------------------------------------------------------- lemmas

  /** `a` is `b` with some elements left out, the rest in order. */
  predicate Subsequence(a: seq<Json>, b: seq<Json>) {
    a == [] || (b != [] && ((a[0] == b[0] && Subsequence(a[1..], b[1..])) || Subsequence(a, b[1..])))
  }

  /** A filter keeps the elements it keeps in their order. */
  lemma {:induction false} FilterKeepsOrder(xs: seq<Json>, p: Json -> bool)
    ensures Subsequence(Filter(xs, p), xs)
  {
    if xs != [] {
      FilterKeepsOrder(xs[1..], p);
      var rest := Filter(xs[1..], p);
      if p(xs[0]) {
        assert Filter(xs, p) == [xs[0]] + rest;
        assert ([xs[0]] + rest)[1..] == rest;
      } else {
        assert Filter(xs, p) == rest;
      }
    }
  }

  /** A filter keeps every element that satisfies its predicate, and no
      other. */
  lemma {:induction false} FilterMembers(xs: seq<Json>, p: Json -> bool)
    ensures forall x :: x in Filter(xs, p) <==> x in xs && p(x)
  {
    if xs != [] {
      FilterMembers(xs[1..], p);
      assert xs == [xs[0]] + xs[1..];
    }
  }

  /** The rows shown after a search are the loaded invoices it matches, in
      their loaded order. */
  lemma SearchKeepsOrder(s: Lists, txt: string)
    ensures txt == "" || !SearchThrows(s.all) ==> Subsequence(FilterByWeek(s, txt).shown, s.all)
  {
    if txt == "" {
      FilterKeepsOrder(s.all, it => false);
      SubsequenceSelf(s.all);
    } else if !SearchThrows(s.all) {
      FilterKeepsOrder(s.all, it => Matches(it, txt));
    }
  }

  lemma {:induction false} SubsequenceSelf(a: seq<Json>)
    ensures Subsequence(a, a)
  {
    if a != [] {
      SubsequenceSelf(a[1..]);
    }
  }

  /** A query of blanks matches every invoice: it trims to the empty text,
      which every text contains. */
  lemma BlankQueryKeepsAll(s: Lists, txt: string)
    requires AllSpace(txt)
    ensures txt == "" || !SearchThrows(s.all) ==> FilterByWeek(s, txt).shown == s.all
  {
    TrimEmptyIffAllSpace(txt);
    forall it: Json
      ensures Matches(it, txt)
    {
      ContainsEmpty(StringOf(Coalesce(Get(it, "week_no"), JStr(""))));
    }
  }

  /** A reload shows what typing the current search into the box shows,
      although one tests the trimmed query and the other the raw text. They
      part only for a search of blanks over invoices that include a null
      one: the reload skips the filter, and typing runs it and throws. */
  lemma ReloadAgreesWithSearch(s: Lists, restId: Json, data: Json)
    requires Truthy(restId)
    ensures !(SearchThrows(Elements(data)) && s.search != "" && AllSpace(s.search)) ==>
      Fetched(s, restId, data).shown == FilterByWeek(s.(all := Elements(data)), s.search).shown
    ensures SearchThrows(Elements(data)) && s.search != "" && AllSpace(s.search) ==>
      Fetched(s, restId, data).shown == Elements(data) && FilterByWeek(s.(all := Elements(data)), s.search).shown == s.shown
  {
    TrimEmptyIffAllSpace(s.search);
    if Trim(s.search) == "" && !SearchThrows(Elements(data)) {
      BlankQueryKeepsAll(s.(all := Elements(data)), s.search);
    }
  }
}

/** The detail screen of one invoice: which invoice it shows, whichever of
    the several parameter shapes it is opened with, the page it loads, the
    download it offers and its title. */
module InvoiceDetail {
  import opened Wrappers
  import opened JsText
  import opened JsNumber
  import opened Json
  import opened InvoiceUrls
  import InvoiceList

  /** `params.invoice ?? params.item ?? params`, with `params` defaulting
      to an empty object. */
  function InvoiceObj(routeParams: Json): (obj: Json)
    ensures !Nullish(Get(routeParams, "invoice")) ==> obj == Get(routeParams, "invoice")
    ensures Nullish(Get(routeParams, "invoice")) && Nullish(Get(routeParams, "item")) && !Nullish(routeParams) ==> obj == routeParams
  {
    var params := Coalesce(routeParams, JObj(map[]));
    Coalesce(Get(params, "invoice"), Coalesce(Get(params, "item"), params))
  }

  // ------------------------------------------------------- regex matching

  /** `key` occurs at `i` and the character after it is one `ok` accepts. */
  predicate CaptureAt(s: string, key: string, ok: char -> bool, i: int) {
    0 <= i && i + |key| < |s| && s[i..i + |key|] == key && ok(s[i + |key|])
  }

  /** Length of the longest run of characters `ok` accepts at the start of
      `s`. */
  function Run(s: string, ok: char -> bool): (n: nat)
    ensures n <= |s|
    ensures forall k | 0 <= k < n :: ok(s[k])
    ensures n == |s| || !ok(s[n])
  {
    if s != [] && ok(s[0]) then 1 + Run(s[1..], ok) else 0
  }

  /** The match of the pattern `key(ok+)` searched from `i` on: its group,
      the longest run after the leftmost occurrence of `key` followed by at
      least one accepted character. */
  function CaptureFrom(s: string, key: string, ok: char -> bool, i: nat): (r: Option<string>)
    requires i <= |s|
    ensures r.Some? ==> r.value != []
    decreases |s| - i
  {
    if CaptureAt(s, key, ok, i) then Some(Group(s, key, ok, i))
    else if i == |s| then None
    else CaptureFrom(s, key, ok, i + 1)
  }

  /** The group of a match at `i`. */
  function Group(s: string, key: string, ok: char -> bool, i: int): (g: string)
    requires CaptureAt(s, key, ok, i)
    ensures g != [] && forall k | 0 <= k < |g| :: ok(g[k])
  {
    var start := i + |key|;
    s[start..start + Run(s[start..], ok)]
  }

  function Capture(s: string, key: string, ok: char -> bool): Option<string> {
    CaptureFrom(s, key, ok, 0)
  }

  predicate NotAmpersand(c: char) {
    c != '&'
  }

  /** The invoice number the screen works with: the object's `InvoiceNo`
      or `invoice` when truthy, else the digits after `details/` in its
      `url`, else the text after `invoice_id=` in its `downloadUrl` up to
      the next `&`, else nothing. */
  function InvoiceNumber(obj: Json): (no: string)
    ensures Truthy(Coalesce(Get(obj, "InvoiceNo"), Coalesce(Get(obj, "invoice"), JStr(""))))
      ==> no == StringOf(Coalesce(Get(obj, "InvoiceNo"), Get(obj, "invoice")))
    ensures no == "" && !Truthy(Coalesce(Get(obj, "InvoiceNo"), Coalesce(Get(obj, "invoice"), JStr(""))))
      ==> (Get(obj, "url").JStr? ==> Capture(Get(obj, "url").s, "details/", IsDigit).None?)
          && (Get(obj, "downloadUrl").JStr? ==> Capture(Get(obj, "downloadUrl").s, "invoice_id=", NotAmpersand).None?)
  {
    var fromObj := Coalesce(Get(obj, "InvoiceNo"), Coalesce(Get(obj, "invoice"), JStr("")));
    var url := Get(obj, "url");
    var download := Get(obj, "downloadUrl");
    var fromUrl := if url.JStr? then Capture(url.s, "details/", IsDigit) else None;
    var fromDownload := if download.JStr? then Capture(download.s, "invoice_id=", NotAmpersand) else None;
    if Truthy(fromObj) then StringOf(fromObj)
    else if fromUrl.Some? then fromUrl.value
    else if fromDownload.Some? then fromDownload.value
    else ""
  }

  /** What the detail screen shows. */
  datatype Detail = Detail(invoiceNo: string, weekNo: Json, detailsUrl: string, downloadUrl: string)

  /** A `url` or `downloadUrl` parameter that is a non-empty string. */
  predicate GivenUrl(v: Json) {
    v.JStr? && |v.s| > 0
  }

  /** The page loaded: the given `url`, else the details page of the
      invoice number, else none. */
  function DetailsLink(obj: Json, no: string): (url: string)
    ensures url == "" <==> !GivenUrl(Get(obj, "url")) && no == ""
    ensures GivenUrl(Get(obj, "url")) ==> url == Get(obj, "url").s
  {
    if GivenUrl(Get(obj, "url")) then Get(obj, "url").s
    else if no != "" then DetailsPageUrl(JStr(no))
    else ""
  }

  /** The file downloaded: the given `downloadUrl`, else the download
      address of the invoice number, else none. */
  function DownloadLink(base: string, obj: Json, no: string): (url: string)
    ensures url == "" <==> !GivenUrl(Get(obj, "downloadUrl")) && no == ""
    ensures GivenUrl(Get(obj, "downloadUrl")) ==> url == Get(obj, "downloadUrl").s
  {
    if GivenUrl(Get(obj, "downloadUrl")) then Get(obj, "downloadUrl").s
    else if no != "" then DownloadUrl(base, JStr(no))
    else ""
  }

  /** The screen opened with `routeParams`. */
  function Open(base: string, routeParams: Json): (d: Detail)
    ensures d.invoiceNo == InvoiceNumber(InvoiceObj(routeParams))
    ensures d.weekNo == FirstPresent([Get(InvoiceObj(routeParams), "week_no"), Get(InvoiceObj(routeParams), "week"),
      Get(InvoiceObj(routeParams), "weekNo")], JStr(""))
  {
    var obj := InvoiceObj(routeParams);
    var no := InvoiceNumber(obj);
    Detail(no,
      FirstPresent([Get(obj, "week_no"), Get(obj, "week"), Get(obj, "weekNo")], JStr("")),
      DetailsLink(obj, no), DownloadLink(base, obj, no))
  }

  /** The "Invalid or missing invoice data" message replaces the page
      exactly when there is no page to load. */
  predicate ShowsInvalid(d: Detail) {
    d.detailsUrl == ""
  }

  /** The header's download action is offered exactly when there is a file
      to download. */
  predicate ShowsDownload(d: Detail) {
    d.downloadUrl != ""
  }

  /** The header title. */
  function Title(d: Detail): (t: string)
    ensures |t| > 9 && t[..9] == "Invoice #"
    ensures d.invoiceNo != "" ==> t[9..] == d.invoiceNo
    ensures d.invoiceNo == "" ==> t[9..] == "-"
  {
    "Invoice #" + (if d.invoiceNo != "" then d.invoiceNo else "-")
  }

  // ------------------------------------------------------------- lemmas

  /** The search from `i` finds a match exactly when the pattern matches
      somewhere from `i` on, and then its group is the one of the leftmost
      such position. */
  lemma {:induction false} CaptureFromFinds(s: string, key: string, ok: char -> bool, i: nat)
    requires i <= |s|
    ensures CaptureFrom(s, key, ok, i).None? <==> forall j | i <= j <= |s| :: !CaptureAt(s, key, ok, j)
    ensures CaptureFrom(s, key, ok, i).Some? ==>
      exists j | i <= j <= |s| ::
        && CaptureAt(s, key, ok, j) && CaptureFrom(s, key, ok, i).value == Group(s, key, ok, j)
        && forall k | i <= k < j :: !CaptureAt(s, key, ok, k)
    decreases |s| - i
  {
    if CaptureAt(s, key, ok, i) {
      assert CaptureFrom(s, key, ok, i).value == Group(s, key, ok, i);
    } else if i < |s| {
      CaptureFromFinds(s, key, ok, i + 1);
      if CaptureFrom(s, key, ok, i + 1).Some? {
        var j :| i + 1 <= j <= |s| && CaptureAt(s, key, ok, j)
          && CaptureFrom(s, key, ok, i + 1).value == Group(s, key, ok, j)
          && forall k | i + 1 <= k < j :: !CaptureAt(s, key, ok, k);
        assert forall k | i <= k < j :: !CaptureAt(s, key, ok, k);
      }
    }
  }

  /** The search passes over positions where the pattern does not match. */
  lemma {:induction false} SkipTo(s: string, key: string, ok: char -> bool, i: nat, j: nat)
    requires i <= j <= |s|
    requires forall k | i <= k < j :: !CaptureAt(s, key, ok, k)
    ensures CaptureFrom(s, key, ok, i) == CaptureFrom(s, key, ok, j)
    decreases j - i
  {
    if i < j {
      assert !CaptureAt(s, key, ok, i);
      assert CaptureFrom(s, key, ok, i) == CaptureFrom(s, key, ok, i + 1);
      SkipTo(s, key, ok, i + 1, j);
    }
  }

  /** The digits of a details-page address are read back from it. */
  lemma DetailsNumberRoundTrip(d: string)
    requires d != "" && AllDigits(d)
    ensures Capture(DetailsPageUrl(JStr(d)), "details/", IsDigit) == Some(d)
  {
    EncodeDigits(d);
    var s := DetailsPrefix + d;
    assert DetailsPageUrl(JStr(d)) == s;
    NoEarlierDetails(s);
    SkipTo(s, "details/", IsDigit, 0, 44);
    DetailsGroup(d);
  }

  /** No `details/` starts in the first 44 characters of a details-page
      address, for they hold no 'd'. */
  lemma NoEarlierDetails(s: string)
    requires |s| >= 52 && s[..52] == DetailsPrefix
    ensures forall k | 0 <= k < 44 :: !CaptureAt(s, "details/", IsDigit, k)
  {
    PrefixHasNoD();
    forall k | 0 <= k < 44
      ensures !CaptureAt(s, "details/", IsDigit, k)
    {
      assert s[k] == DetailsPrefix[..44][k];
    }
  }

  lemma PrefixHasNoD()
    ensures 'd' !in DetailsPrefix[..44]
  {
    assert DetailsPrefix[..44] == "https://backoffice.chefonline.co.uk/invoice/";
  }

  lemma DetailsGroup(d: string)
    requires d != "" && AllDigits(d)
    ensures CaptureFrom(DetailsPrefix + d, "details/", IsDigit, 44) == Some(d)
  {
    var s := DetailsPrefix + d;
    assert DetailsPrefix == "https://backoffice.chefonline.co.uk/invoice/" + "details/";
    assert s[44..52] == "details/";
    assert CaptureAt(s, "details/", IsDigit, 44);
    assert s[52..] == d;
    RunAll(d, IsDigit);
    assert Group(s, "details/", IsDigit, 44) == d;
  }

  lemma {:induction false} RunAll(s: string, ok: char -> bool)
    requires forall k | 0 <= k < |s| :: ok(s[k])
    ensures Run(s, ok) == |s|
  {
    if s != [] {
      RunAll(s[1..], ok);
    }
  }

  /** An invoice number written in digits, as text or as a number. */
  predicate DigitNumber(no: Json) {
    (no.JStr? && no.s != "" && AllDigits(no.s)) || (no.JNum? && no.n >= 0.0 && IsIntegral(no.n))
  }

  lemma DigitNumberText(no: Json)
    requires DigitNumber(no)
    ensures StringOf(no) != "" && AllDigits(StringOf(no))
  {
    if no.JNum? {
      var n := no.n.Floor;
      assert n >= 0 && no.n == n as real;
      ParseIntOfIntegralNumber(n);
    }
  }

  /** Opening a row of the invoice list whose number is written in digits
      shows that invoice: its number read back from the details address,
      the row's week, the page and download built from it, no error
      message and the download action. */
  lemma ListRowOpensItsInvoice(base: string, item: Json)
    requires DigitNumber(Get(item, "InvoiceNo"))
    ensures var d := Open(base, InvoiceList.OpenParams(base, item));
      && d.invoiceNo == StringOf(Get(item, "InvoiceNo"))
      && d.weekNo == Coalesce(Get(item, "week_no"), JStr(""))
      && d.detailsUrl == DetailsPrefix + StringOf(Get(item, "InvoiceNo"))
      && !ShowsInvalid(d) && ShowsDownload(d)
  {
    var no := Get(item, "InvoiceNo");
    var url, download, week := DetailsPageUrl(no), DownloadUrl(base, no), Get(item, "week_no");
    var params := InvoiceList.OpenParams(base, item);
    assert params == InvoiceList.RowParams(url, download, week);
    var text := StringOf(no);
    ParamsNumber(base, item);
    RowShape(url, download, week);
    RowWeek(url, download, week);
    var d := Open(base, params);
    assert d.invoiceNo == text;
    assert d.detailsUrl == DetailsLink(params, text) == url;
    assert d.downloadUrl == DownloadLink(base, params, text) == download;
  }

  /** The week shown for a list row is the row's `week_no`, or nothing. */
  lemma RowWeek(url: string, download: string, week: Json)
    ensures var params := InvoiceList.RowParams(url, download, week);
      FirstPresent([Get(params, "week_no"), Get(params, "week"), Get(params, "weekNo")], JStr(""))
        == Coalesce(week, JStr(""))
  {
    var params := InvoiceList.RowParams(url, download, week);
    RowKeys(url, download, week);
    var vs := [Get(params, "week_no"), Get(params, "week"), Get(params, "weekNo")];
    assert vs[2] == week;
    if Nullish(vs[2]) {
      assert forall j | 0 <= j < |vs| :: Nullish(vs[j]);
    } else {
      assert AllNullishBefore(vs, 2);
    }
  }

  /** A list row's parameters are the invoice object themselves, carry
      both addresses and neither week key the screen reads first. */
  lemma RowShape(url: string, download: string, week: Json)
    requires url != "" && download != ""
    ensures var params := InvoiceList.RowParams(url, download, week);
      && InvoiceObj(params) == params
      && Get(params, "week_no") == JUndef && Get(params, "week") == JUndef
      && Get(params, "url") == JStr(url) && Get(params, "downloadUrl") == JStr(download)
      && GivenUrl(Get(params, "url")) && GivenUrl(Get(params, "downloadUrl"))
  {
    RowKeys(url, download, week);
  }

  /** The keys a list row's parameters do not have. */
  lemma RowKeys(url: string, download: string, week: Json)
    ensures var params := InvoiceList.RowParams(url, download, week);
      && Get(params, "invoice") == JUndef && Get(params, "item") == JUndef
      && Get(params, "week_no") == JUndef && Get(params, "week") == JUndef
      && Get(params, "InvoiceNo") == JUndef
  {
    NotAParamKey("invoice");
    NotAParamKey("item");
    NotAParamKey("week_no");
    NotAParamKey("week");
    NotAParamKey("InvoiceNo");
  }

  /** A key whose length differs from those of the three parameters is not
      one of them. */
  lemma NotAParamKey(k: string)
    requires |k| != 11 && |k| != 3 && |k| != 6
    ensures k !in {"downloadUrl", "url", "weekNo"}
  {
  }

  /** The number the detail screen reads from a list row's parameters. */
  lemma ParamsNumber(base: string, item: Json)
    requires DigitNumber(Get(item, "InvoiceNo"))
    ensures InvoiceNumber(InvoiceList.OpenParams(base, item)) == StringOf(Get(item, "InvoiceNo"))
    ensures DetailsPageUrl(Get(item, "InvoiceNo")) == DetailsPrefix + StringOf(Get(item, "InvoiceNo"))
  {
    var no := Get(item, "InvoiceNo");
    var url := DetailsPageUrl(no);
    assert InvoiceList.OpenParams(base, item) == InvoiceList.RowParams(url, DownloadUrl(base, no), Get(item, "week_no"));
    DigitNumberText(no);
    var text := StringOf(no);
    EncodeDigits(text);
    assert url == DetailsPageUrl(JStr(text));
    DetailsNumberRoundTrip(text);
    RowNumber(url, DownloadUrl(base, no), Get(item, "week_no"), text);
  }

  /** Parameters without a number of their own are read by the digits of
      their details address. */
  lemma RowNumber(url: string, download: string, week: Json, text: string)
    requires Capture(url, "details/", IsDigit) == Some(text)
    ensures InvoiceNumber(InvoiceList.RowParams(url, download, week)) == text
  {
    var params := InvoiceList.RowParams(url, download, week);
    RowKeys(url, download, week);
    assert Get(params, "url") == JStr(url);
    assert !Truthy(Coalesce(Get(params, "InvoiceNo"), Coalesce(Get(params, "invoice"), JStr(""))));
  }

  /** An object with a truthy `InvoiceNo` is shown under that number,
      whatever addresses come with it. */
  lemma ObjectNumberWins(base: string, obj: Json)
    requires obj.JObj? && Truthy(Get(obj, "InvoiceNo"))
    requires Nullish(Get(obj, "invoice")) && Nullish(Get(obj, "item"))
    ensures Open(base, obj).invoiceNo == StringOf(Get(obj, "InvoiceNo"))
  {
  }

  /** With neither addresses nor a number there is nothing to show: the
      error message replaces the page and there is no download. */
  lemma NothingToShow(base: string, obj: Json)
    requires obj.JObj? && Nullish(Get(obj, "invoice")) && Nullish(Get(obj, "item"))
    requires !Truthy(Get(obj, "InvoiceNo")) && Nullish(Get(obj, "invoice"))
    requires !Get(obj, "url").JStr? && !Get(obj, "downloadUrl").JStr?
    ensures ShowsInvalid(Open(base, obj)) && !ShowsDownload(Open(base, obj))
    ensures Title(Open(base, obj)) == "Invoice #-"
  {
  }
}
