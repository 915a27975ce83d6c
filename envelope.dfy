/**
 * The change-event envelope produced by the change-data-capture connector, and
 * the decoder that turns its loosely typed `after` image into a strict Link
 * (url-projector/cdc/envelope.go).
 */
module Envelope {
  import opened Wrappers
  import opened LinkModel

  /**
   * A value of the loosely typed `after`/`before` maps. Numbers carry their
   * exact integer value, tagged with the Go type they arrived as; `Other`
   * stands for every remaining dynamic type (bool, nested map, slice), named
   * by its Go type.
   */
  datatype JsonValue =
    | Null
    | Str(s: string)
    | Float(n: int)
    | Int(n: int)
    | Other(typeName: string)

  /** What Go's `%T` prints for the value. */
  function TypeName(v: JsonValue): string {
    match v
    case Null => "<nil>"
    case Str(_) => "string"
    case Float(_) => "float64"
    case Int(_) => "int64"
    case Other(t) => t
  }

  /** Indexing a Go map: an absent key reads as nil. */
  function Lookup(m: map<string, JsonValue>, key: string): (v: JsonValue)
    ensures key !in m ==> v == Null
  {
    if key in m then m[key] else Null
  }

  /** The envelope shape; `schema` is empty and not kept. A nil map is the empty map. */
  datatype Envelope = Envelope(
    before: map<string, JsonValue>,
    after: map<string, JsonValue>,
    source: map<string, JsonValue>,
    op: string,
    tsMs: int,
    sequence: string)

  /** A raw message payload: either bytes that unmarshal to an envelope, or bytes that do not. */
  datatype RawMessage = Encoded(envelope: Envelope) | Malformed(bytes: seq<bv8>)

  /** JSON unmarshalling, abstracted to its outcome. */
  function ParseToEnvelope(value: RawMessage): (r: Result<Envelope, string>)
    ensures r.Success? <==> value.Encoded?
    ensures r.Success? ==> r.value == value.envelope
  {
    match value
    case Encoded(e) => Success(e)
    case Malformed(_) => Failure("failed to deserialize change event")
  }

  /** The decoder's errors; each names the field it is about. */
  datatype DecodeError =
    | InvalidId(got: string)
    | InvalidShortCode(got: string)
    | InvalidLongUrl(got: string)
    | FieldNull(fieldName: string)
    | FieldNotString(fieldName: string, got: string)
    | TimeUnparsable(fieldName: string)
  {
    function Field(): string {
      match this
      case InvalidId(_) => "id"
      case InvalidShortCode(_) => "short_code"
      case InvalidLongUrl(_) => "long_url"
      case FieldNull(f) => f
      case FieldNotString(f, _) => f
      case TimeUnparsable(f) => f
    }
  }

  /** A required timestamp: nil, a non-string or an unparsable string is an error naming the field. */
  function ParseTime(raw: JsonValue, fieldName: string): (r: Result<Time, DecodeError>)
    ensures raw.Null? ==> r == Failure(FieldNull(fieldName))
    ensures !raw.Null? && !raw.Str? ==> r == Failure(FieldNotString(fieldName, TypeName(raw)))
    ensures r.Success? <==> raw.Str? && ParseLayout(raw.s).Some?
    ensures r.Success? ==> r.value == ParseLayout(raw.s).value && ValidTime(r.value)
    ensures r.Failure? ==> r.error.Field() == fieldName
  {
    if raw.Null? then Failure(FieldNull(fieldName))
    else if !raw.Str? then Failure(FieldNotString(fieldName, TypeName(raw)))
    else
      match ParseLayout(raw.s)
      case None => Failure(TimeUnparsable(fieldName))
      case Some(t) => Success(t)
  }

  /** An optional timestamp: nil means no expiry; anything else is read as a required one. */
  function ParseOptionalTime(raw: JsonValue, fieldName: string): (r: Result<Option<Time>, DecodeError>)
    ensures raw.Null? ==> r == Success(None)
    ensures !raw.Null? && ParseTime(raw, fieldName).Success? ==> r == Success(Some(ParseTime(raw, fieldName).value))
    ensures !raw.Null? && ParseTime(raw, fieldName).Failure? ==> r == Failure(ParseTime(raw, fieldName).error)
  {
    if raw.Null? then Success(None)
    else
      match ParseTime(raw, fieldName)
      case Failure(e) => Failure(e)
      case Success(t) => Success(Some(t))
  }

  /** Decodes the `after` image; checks run in the order id, short_code, long_url, created_at, expires_at. */
  function GetLinkFromAfter(after: map<string, JsonValue>): (r: Result<Link, DecodeError>)
    ensures r.Failure? ==> r.error.Field() in FieldOrder
    ensures r.Success? ==>
      && Lookup(after, "id") in {Float(r.value.id), Int(r.value.id)}
      && Lookup(after, "short_code") == Str(r.value.shortCode)
      && Lookup(after, "long_url") == Str(r.value.longUrl)
      && ValidTime(r.value.createdAt)
      && (r.value.expiresAt.Some? ==> ValidTime(r.value.expiresAt.value))
  {
    var rawId := Lookup(after, "id");
    if !(rawId.Float? || rawId.Int?) then Failure(InvalidId(TypeName(rawId)))
    else
      var shortCode := Lookup(after, "short_code");
      if !shortCode.Str? then Failure(InvalidShortCode(TypeName(shortCode)))
      else
        var longUrl := Lookup(after, "long_url");
        if !longUrl.Str? then Failure(InvalidLongUrl(TypeName(longUrl)))
        else
          match ParseTime(Lookup(after, "created_at"), "created_at")
          case Failure(e) => Failure(e)
          case Success(createdAt) =>
            match ParseOptionalTime(Lookup(after, "expires_at"), "expires_at")
            case Failure(e) => Failure(e)
            case Success(expiresAt) =>
              Success(Link(rawId.n, shortCode.s, longUrl.s, createdAt, expiresAt))
  }

  // ---------------------------------------------------------------------------
  // Reference description of the decoder, field by field

  /** The fields the decoder reads, in the order it checks them. */
  const FieldOrder: seq<string> := ["id", "short_code", "long_url", "created_at", "expires_at"]

  /** A timestamp value the layout accepts. */
  predicate IsTimestamp(v: JsonValue) {
    v.Str? && ParseLayout(v.s).Some?
  }

  /** Whether the `after` image holds an acceptable value for the named field. */
  predicate FieldOk(after: map<string, JsonValue>, name: string) {
    var v := Lookup(after, name);
    if name == "id" then v.Float? || v.Int?
    else if name == "short_code" || name == "long_url" then v.Str?
    else if name == "created_at" then IsTimestamp(v)
    else if name == "expires_at" then v.Null? || IsTimestamp(v)
    else true
  }

  /** The image every field of which is acceptable. */
  predicate WellFormedAfter(after: map<string, JsonValue>) {
    forall k :: 0 <= k < |FieldOrder| ==> FieldOk(after, FieldOrder[k])
  }

  /** Decoding succeeds exactly on well-formed images, and then copies every field. */
  lemma DecodeSucceedsIffWellFormed(after: map<string, JsonValue>)
    ensures GetLinkFromAfter(after).Success? <==> WellFormedAfter(after)
    ensures GetLinkFromAfter(after).Success? ==>
      var link := GetLinkFromAfter(after).value;
      && Lookup(after, "id") in {Float(link.id), Int(link.id)}
      && Lookup(after, "short_code") == Str(link.shortCode)
      && Lookup(after, "long_url") == Str(link.longUrl)
      && Some(link.createdAt) == ParseLayout(Lookup(after, "created_at").s)
      && (if Lookup(after, "expires_at").Null? then link.expiresAt.None?
          else link.expiresAt == ParseLayout(Lookup(after, "expires_at").s))
  {
    if WellFormedAfter(after) {
      assert FieldOk(after, FieldOrder[0]) && FieldOk(after, FieldOrder[1]) && FieldOk(after, FieldOrder[2]);
      assert FieldOk(after, FieldOrder[3]) && FieldOk(after, FieldOrder[4]);
    }
  }

  /**
   * The field a failing decode names is the first unacceptable one in check
   * order: whatever the later fields hold, they are not looked at.
   */
  lemma DecodeReportsFirstBadField(after: map<string, JsonValue>, k: nat)
    requires k < |FieldOrder| && !FieldOk(after, FieldOrder[k])
    requires forall j :: 0 <= j < k ==> FieldOk(after, FieldOrder[j])
    ensures GetLinkFromAfter(after).Failure?
    ensures GetLinkFromAfter(after).error.Field() == FieldOrder[k]
  {
    if k > 0 { assert FieldOk(after, FieldOrder[0]); }
    if k > 1 { assert FieldOk(after, FieldOrder[1]); }
    if k > 2 { assert FieldOk(after, FieldOrder[2]); }
    if k > 3 { assert FieldOk(after, FieldOrder[3]); }
  }

  /** A whole-number float64 id and the equal int64 id decode to the same record. */
  lemma FloatAndIntIdAgree(after: map<string, JsonValue>, n: int)
    ensures GetLinkFromAfter(after["id" := Float(n)]) == GetLinkFromAfter(after["id" := Int(n)])
  {
  }

  /** An id of any other type, or no id at all, is rejected with the type Go reports. */
  lemma NonNumericIdRejected(after: map<string, JsonValue>)
    requires !Lookup(after, "id").Float? && !Lookup(after, "id").Int?
    ensures GetLinkFromAfter(after) == Failure(InvalidId(TypeName(Lookup(after, "id"))))
  {
  }

  /** A missing or null `created_at` fails naming the field; a missing or null `expires_at` means no expiry. */
  lemma CreatedAtRequiredExpiresAtOptional(after: map<string, JsonValue>)
    requires FieldOk(after, "id") && FieldOk(after, "short_code") && FieldOk(after, "long_url")
    ensures Lookup(after, "created_at").Null? ==> GetLinkFromAfter(after) == Failure(FieldNull("created_at"))
    ensures IsTimestamp(Lookup(after, "created_at")) && Lookup(after, "expires_at").Null? ==>
      GetLinkFromAfter(after).Success? && GetLinkFromAfter(after).value.expiresAt.None?
  {
  }
}
