/**
 * The create-link request of the write side and its declarative validation:
 * `long_url` is required and between 8 and 2500 characters long;
 * `expires_at` may be absent, and when present must lie strictly after the
 * current instant.
 */
module CreateLinkDto {
  import opened Wrappers

  /** An instant on the write side's clock; only the order of instants matters here. */
  type Instant = int

  const MinUrlLength: nat := 8
  const MaxUrlLength: nat := 2500

  datatype CreateLinkDto = CreateLinkDto(longUrl: string, expiresAt: Option<Instant>)

  /** One failed validation rule: the struct field and the tag that rejected it. */
  datatype FieldError = FieldError(field: string, tag: string)

  /**
   * The rule of `long_url` that rejects it, if any. The tags are tried in
   * their written order, `required`, `min`, `max`, and the first failure is
   * the one reported.
   */
  function LongUrlError(longUrl: string): (r: Option<FieldError>)
    ensures r.None? <==> MinUrlLength <= |longUrl| <= MaxUrlLength
    ensures r.Some? ==> r.value.field == "LONG_URL"
    ensures longUrl == [] ==> r == Some(FieldError("LONG_URL", "required"))
  {
    if longUrl == [] then Some(FieldError("LONG_URL", "required"))
    else if |longUrl| < MinUrlLength then Some(FieldError("LONG_URL", "min"))
    else if |longUrl| > MaxUrlLength then Some(FieldError("LONG_URL", "max"))
    else None
  }

  /**
   * The rule of `expires_at` that rejects it, if any: an absent value skips
   * every rule (`omitempty`), a present one must be strictly after `now`.
   */
  function ExpiresAtError(expiresAt: Option<Instant>, now: Instant): (r: Option<FieldError>)
    ensures r.None? <==> expiresAt.None? || expiresAt.value > now
    ensures r.Some? ==> r == Some(FieldError("ExpiresAt", "gt"))
  {
    match expiresAt
    case None => None
    case Some(t) => if t > now then None else Some(FieldError("ExpiresAt", "gt"))
  }

  function OptionToSeq<T>(o: Option<T>): seq<T> {
    if o.Some? then [o.value] else []
  }

  /** Every failed rule, field by field in declaration order, at most one per field. */
  function Validate(dto: CreateLinkDto, now: Instant): (errors: seq<FieldError>)
    ensures |errors| <= 2
    ensures forall e :: e in errors ==> e.field in {"LONG_URL", "ExpiresAt"}
    ensures forall i, j :: 0 <= i < j < |errors| ==> errors[i].field != errors[j].field
  {
    OptionToSeq(LongUrlError(dto.longUrl)) + OptionToSeq(ExpiresAtError(dto.expiresAt, now))
  }

  predicate Valid(dto: CreateLinkDto, now: Instant) {
    Validate(dto, now) == []
  }

  /** A request is accepted exactly when the URL length is in range and any expiry is in the future. */
  lemma ValidIff(dto: CreateLinkDto, now: Instant)
    ensures Valid(dto, now) <==>
      && MinUrlLength <= |dto.longUrl| <= MaxUrlLength
      && (dto.expiresAt.None? || dto.expiresAt.value > now)
  {
    var a := OptionToSeq(LongUrlError(dto.longUrl));
    var b := OptionToSeq(ExpiresAtError(dto.expiresAt, now));
    assert |a + b| == |a| + |b|;
  }

  /** An empty URL is reported as missing, whatever else the request holds. */
  lemma EmptyUrlRejected(expiresAt: Option<Instant>, now: Instant)
    ensures !Valid(CreateLinkDto("", expiresAt), now)
    ensures Validate(CreateLinkDto("", expiresAt), now)[0] == FieldError("LONG_URL", "required")
  {
  }

  /** A URL outside 8..2500 characters is rejected by `min` or `max`. */
  lemma UrlLengthOutOfRangeRejected(dto: CreateLinkDto, now: Instant)
    requires dto.longUrl != []
    requires |dto.longUrl| < MinUrlLength || |dto.longUrl| > MaxUrlLength
    ensures !Valid(dto, now)
    ensures Validate(dto, now)[0].tag == (if |dto.longUrl| < MinUrlLength then "min" else "max")
  {
  }

  /** An expiry at or before the current instant is rejected: `gt` is strict. */
  lemma PastOrPresentExpiryRejected(longUrl: string, expiry: Instant, now: Instant)
    requires expiry <= now
    ensures !Valid(CreateLinkDto(longUrl, Some(expiry)), now)
    ensures FieldError("ExpiresAt", "gt") in Validate(CreateLinkDto(longUrl, Some(expiry)), now)
  {
    assert ExpiresAtError(Some(expiry), now) == Some(FieldError("ExpiresAt", "gt"));
  }

  /** A URL of acceptable length with no expiry, or with an expiry in the future, is accepted. */
  lemma InRangeUrlAccepted(longUrl: string, expiresAt: Option<Instant>, now: Instant)
    requires MinUrlLength <= |longUrl| <= MaxUrlLength
    requires expiresAt.None? || expiresAt.value > now
    ensures Valid(CreateLinkDto(longUrl, expiresAt), now)
  {
  }
}
