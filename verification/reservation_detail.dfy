/** The reservation-detail screen: its own `toNum`, `normalizeReservation`,
    and when the accept and reject actions are offered. */
module ReservationDetail {
  import opened Wrappers
  import opened JsText
  import opened Json
  import opened ReservationRecord

  /** This screen's `toNum(v, f)`: `Number(v) || f` for a truthy `v` or the
      number 0, else `f`. Zero and NaN both give `f`. */
  function ToNum(v: Json, f: real): (r: real)
    ensures r == f || (Truthy(v) && ToNumber(v).Some? && r == ToNumber(v).value != 0.0)
    ensures Truthy(v) && ToNumber(v).Some? && ToNumber(v).value != 0.0 ==> r == ToNumber(v).value
  {
    if v == JNum(0.0) || Truthy(v) then OrZeroElse(ToNumber(v), f) else f
  }

  /** `x || f` for a possibly-NaN number. */
  function OrZeroElse(x: Option<real>, f: real): real {
    if x.Some? && x.value != 0.0 then x.value else f
  }

  datatype Detail = Detail(
    id: Json,
    name: Json,
    email: string,
    phone: Json,
    guests: real,
    date: Json,
    time: Json,
    createdAt: Json)

  /** What `normalizeReservation(r)` leaves the screen with: `null` (the
      no-data message), a throw out of the render, or the details. */
  datatype Normalized = NoData | Fails | Shown(detail: Detail)

  /** `normalizeReservation(r)`: no data for a falsy reservation; the
      render fails when `trim` throws on an e-mail that is not text. */
  function NormalizeDetail(r: Json): (d: Normalized)
    ensures d.NoData? <==> !Truthy(r)
    ensures d.Fails? <==> Truthy(r) && Email(r).None?
    ensures d.Shown? ==> Truthy(d.detail.name) && Truthy(d.detail.date) && Truthy(d.detail.time)
    ensures d.Shown? ==> Some(d.detail.email) == Email(r) && Trimmed(d.detail.email)
  {
    if !Truthy(r) then NoData
    else match Email(r)
      case None => Fails
      case Some(e) => Shown(DetailOf(r, e))
  }

  /** The fields of a truthy reservation, with its trimmed e-mail `e`. */
  function DetailOf(r: Json, e: string): (d: Detail)
    ensures Truthy(d.name) && Truthy(d.date) && Truthy(d.time) && d.email == e
  {
    Detail(
      FirstPresent([Get(r, "id")], Coalesce(Get(r, "reservation_id"), JStr(""))),
      FullName(r),
      e,
      FirstTruthy([Get(r, "mobile"), Get(r, "telephone")], Or(Get(r, "phone"), JStr(""))),
      ToNum(FirstPresent([Get(r, "guests"), Get(r, "no_of_guest")], Get(r, "person")), 0.0),
      FirstTruthy([Get(r, "date"), Get(r, "reservation_date")], Or(Get(r, "req_date"), JStr("—"))),
      FirstTruthy([Get(r, "time"), Get(r, "reservation_time")], Or(Get(r, "req_time"), JStr("—"))),
      CreatedAt(r))
  }

  /** `createdRaw || '—'`, where `createdRaw` is the first truthy of five
      creation fields or ''. */
  function CreatedAt(r: Json): Json {
    var createdRaw := FirstTruthy([Get(r, "created_at"), Get(r, "added_date"), Get(r, "request_time"),
                                   Get(r, "request_date_time")], Or(Get(r, "req_datetime"), JStr("")));
    Or(createdRaw, JStr("—"))
  }

  /** `r.name || [title, first_name, last_name].filter(Boolean).join(' ').trim() || '—'`:
      the part after `r.name ||` is the list's display name. */
  function FullName(r: Json): (n: Json)
    ensures Truthy(n)
  {
    Or(Get(r, "name"), JStr(DisplayName(r)))
  }

  /** Accept and Reject are offered only for an unconfirmed reservation;
      a missing status counts as unconfirmed. */
  predicate ShowsActions(status: Json) {
    Or(status, JStr("UNCONFIRMED")) == JStr("UNCONFIRMED")
  }

  /** The screen shows the no-data message. */
  predicate ShowsNoData(raw: Json) {
    NormalizeDetail(raw).NoData?
  }

  // ------------------------------------------------------------- lemmas

  /** The actions appear exactly for the status 'UNCONFIRMED' or a falsy
      status. */
  lemma ActionsOnlyWhenUnconfirmed(status: Json)
    ensures ShowsActions(status) <==> status == JStr("UNCONFIRMED") || !Truthy(status)
  {
  }

  /** Without a `name` field, the detail screen shows the same name as the
      list row for the same record. */
  lemma DetailNameMatchesList(r: Json)
    requires Truthy(r) && !Truthy(Get(r, "name"))
    ensures NormalizeDetail(r).Shown? ==> NormalizeDetail(r).detail.name == JStr(DisplayName(r))
  {
  }

  /** The detail and the list trim the e-mail the same way: a record the
      list can normalise is shown by the detail screen with the same
      e-mail, and an e-mail that makes the detail fail makes the list's
      normalisation throw too. */
  lemma DetailEmailMatchesList(r: Json, statusKey: string)
    requires Truthy(r)
    ensures Normalize(r, statusKey).Some? ==>
      NormalizeDetail(r).Shown? && NormalizeDetail(r).detail.email == Normalize(r, statusKey).value.email
    ensures NormalizeDetail(r).Fails? ==> Normalize(r, statusKey).None?
  {
  }

  /** Guests: the number of the first present of `guests`, `no_of_guest`
      and `person`; 0 when none is present or when it is not a non-zero
      number. */
  lemma GuestsFallback(r: Json)
    requires Truthy(r)
    ensures var g := FirstPresent([Get(r, "guests"), Get(r, "no_of_guest")], Get(r, "person"));
      NormalizeDetail(r).Shown? ==>
      (ToNumber(g).None? || !Truthy(g) ==> NormalizeDetail(r).detail.guests == 0.0)
      && (Truthy(g) && ToNumber(g).Some? ==> NormalizeDetail(r).detail.guests == ToNumber(g).value)
  {
  }

  /** The number 0 is not kept by `toNum`: it becomes the fallback. */
  lemma ToNumOfZero(f: real)
    ensures ToNum(JNum(0.0), f) == f && ToNum(JStr("0"), f) == f
  {
    assert ToNumber(JStr("0")) == Some(0.0);
  }

  /** `createdAt` is the first truthy creation field, else '—'. */
  lemma CreatedAtFallback(r: Json)
    ensures CreatedAt(r)
      == FirstTruthy([Get(r, "created_at"), Get(r, "added_date"), Get(r, "request_time"),
                      Get(r, "request_date_time"), Get(r, "req_datetime")], JStr("—"))
  {
    var vs := [Get(r, "created_at"), Get(r, "added_date"), Get(r, "request_time"), Get(r, "request_date_time")];
    FirstTruthyLast(vs, Get(r, "req_datetime"));
    assert vs + [Get(r, "req_datetime")]
      == [Get(r, "created_at"), Get(r, "added_date"), Get(r, "request_time"),
          Get(r, "request_date_time"), Get(r, "req_datetime")];
  }

  /** `a || b || … || x || ''` followed by `|| '—'` is the same as
      `a || b || … || x || '—'`. */
  lemma {:induction false} FirstTruthyLast(vs: seq<Json>, x: Json)
    ensures Or(FirstTruthy(vs, Or(x, JStr(""))), JStr("—")) == FirstTruthy(vs + [x], JStr("—"))
  {
    if vs != [] {
      FirstTruthyLast(vs[1..], x);
      assert (vs + [x])[1..] == vs[1..] + [x];
    } else {
      assert [x][1..] == [];
    }
  }
}
