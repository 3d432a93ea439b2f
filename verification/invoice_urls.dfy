/** The two invoice addresses the invoice screens build from an invoice
    number: the back-office details page and the download endpoint under the
    API's base address (a parameter here), each with the number passed
    through `encodeURIComponent`. */
module InvoiceUrls {
  import opened JsText
  import opened Json

  const DetailsPrefix := "https://backoffice.chefonline.co.uk/invoice/details/"
  const DownloadPath := "Tigger.php?funId=132&invoice_id="

  /** The characters `encodeURIComponent` leaves alone. */
  predicate Unreserved(c: char) {
    ('A' <= c <= 'Z') || ('a' <= c <= 'z') || IsDigit(c)
    || c == '-' || c == '_' || c == '.' || c == '!' || c == '~' || c == '*' || c == '\'' || c == '(' || c == ')'
  }

  predicate IsUpperHex(c: char) {
    IsDigit(c) || ('A' <= c <= 'F')
  }

  /** The UTF-8 encoding of a code point, as byte values. */
  function Utf8(c: char): (bs: seq<nat>)
    ensures 1 <= |bs| <= 4
    ensures forall k | 0 <= k < |bs| :: bs[k] < 256
  {
    var cp := c as int;
    if cp < 0x80 then [cp]
    else if cp < 0x800 then [0xC0 + cp / 64, 0x80 + cp % 64]
    else if cp < 0x10000 then [0xE0 + cp / 4096, 0x80 + (cp / 64) % 64, 0x80 + cp % 64]
    else [0xF0 + cp / 262144, 0x80 + (cp / 4096) % 64, 0x80 + (cp / 64) % 64, 0x80 + cp % 64]
  }

  function HexChar(d: nat): (c: char)
    requires d < 16
    ensures IsUpperHex(c)
  {
    if d < 10 then DigitChar(d) else ('A' as int + d - 10) as char
  }

  /** `%XX` for each byte, upper-case hex. */
  function Escapes(bs: seq<nat>): (r: string)
    requires forall k | 0 <= k < |bs| :: bs[k] < 256
    ensures |r| == 3 * |bs|
    ensures forall k | 0 <= k < |r| :: r[k] == '%' || IsUpperHex(r[k])
  {
    if bs == [] then ""
    else ['%', HexChar(bs[0] / 16), HexChar(bs[0] % 16)] + Escapes(bs[1..])
  }

  /** `encodeURIComponent(s)`: unreserved characters as they are, every
      other character as the escapes of its UTF-8 bytes. */
  function Encode(s: string): (r: string)
    ensures forall k | 0 <= k < |r| :: Unreserved(r[k]) || r[k] == '%' || IsUpperHex(r[k])
    ensures (forall k | 0 <= k < |s| :: Unreserved(s[k])) ==> r == s
  {
    if s == [] then ""
    else if Unreserved(s[0]) then [s[0]] + Encode(s[1..])
    else Escapes(Utf8(s[0])) + Encode(s[1..])
  }

  /** `getInvoiceDetailsPageUrl(id)`. */
  function DetailsPageUrl(id: Json): (url: string)
    ensures |url| >= |DetailsPrefix| && url[..|DetailsPrefix|] == DetailsPrefix
  {
    DetailsPrefix + Encode(StringOf(id))
  }

  /** `getInvoiceDownloadUrl(id)` under the base address `base`. */
  function DownloadUrl(base: string, id: Json): (url: string)
    ensures |url| >= |base| + |DownloadPath| && url[..|base|] == base
    ensures url[|base|..|base| + |DownloadPath|] == DownloadPath
  {
    base + DownloadPath + Encode(StringOf(id))
  }

  /** A number written in digits is passed through unchanged. */
  lemma EncodeDigits(d: string)
    requires AllDigits(d)
    ensures Encode(d) == d
  {
  }
}
