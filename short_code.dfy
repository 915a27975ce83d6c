/**
 * The write side's short code: the 64-bit row id written as eight
 * big-endian bytes and encoded with the URL-safe base64 alphabet of
 * RFC 4648 section 5, without padding (RFC 4648 section 3.2).
 */
module ShortCode {
  import opened Wrappers
  import opened CreateLinkDto

  type Byte = b: int | 0 <= b < 256

  const TwoTo63: int := 0x8000_0000_0000_0000
  const TwoTo64: int := 0x1_0000_0000_0000_0000

  predicate IsInt64(x: int) {
    -TwoTo63 <= x < TwoTo63
  }

  // ---------------------------------------------------------------------------
  // Big-endian bytes

  function Pow256(n: nat): (p: nat)
    ensures p >= 1
  {
    if n == 0 then 1 else 256 * Pow256(n - 1)
  }

  /** The low `n` bytes of `u`, most significant first. */
  function ToBigEndian(u: nat, n: nat): (bs: seq<Byte>)
    ensures |bs| == n
  {
    if n == 0 then [] else ToBigEndian(u / 256, n - 1) + [u % 256]
  }

  /** The number the bytes spell, most significant first. */
  function FromBigEndian(bs: seq<Byte>): (u: nat)
    ensures u < Pow256(|bs|)
  {
    if bs == [] then 0 else FromBigEndian(bs[..|bs| - 1]) * 256 + bs[|bs| - 1]
  }

  lemma {:induction false} FromToBigEndian(u: nat, n: nat)
    requires u < Pow256(n)
    ensures FromBigEndian(ToBigEndian(u, n)) == u
  {
    if n > 0 {
      var bs := ToBigEndian(u, n);
      assert bs[..|bs| - 1] == ToBigEndian(u / 256, n - 1);
      FromToBigEndian(u / 256, n - 1);
    }
  }

  /** The eight bytes Go's binary.Write emits for an int64 in big-endian order: its two's-complement form. */
  function Int64Bytes(id: int): (bs: seq<Byte>)
    requires IsInt64(id)
    ensures |bs| == 8
  {
    ToBigEndian(if id < 0 then id + TwoTo64 else id, 8)
  }

  /** Reads eight big-endian bytes back as a signed 64-bit integer. */
  function ReadInt64(bs: seq<Byte>): (id: int)
    requires |bs| == 8
    ensures IsInt64(id)
  {
    assert Pow256(8) == TwoTo64;
    var u := FromBigEndian(bs);
    if u >= TwoTo63 then u - TwoTo64 else u
  }

  /** The bytes are the two's-complement image of the id, and reading them back gives the id. */
  lemma Int64BytesRoundTrip(id: int)
    requires IsInt64(id)
    ensures FromBigEndian(Int64Bytes(id)) == (if id < 0 then id + TwoTo64 else id)
    ensures ReadInt64(Int64Bytes(id)) == id
  {
    assert Pow256(8) == TwoTo64;
    FromToBigEndian(if id < 0 then id + TwoTo64 else id, 8);
  }

  // ---------------------------------------------------------------------------
  // Bytes to six-bit values and back

  /** A six-bit value. */
  type Sextet = v: int | 0 <= v < 64

  /** Splitting off the low digit of a number in base `b` and putting it back. */
  lemma DivModBase(m: int, r: int, b: int)
    requires b == 64 || b == 256
    requires 0 <= r < b
    ensures (m * b + r) / b == m && (m * b + r) % b == r
  {
  }

  /** The value of three bytes, most significant first. */
  function Join(b0: Byte, b1: Byte, b2: Byte): (n: int)
    ensures 0 <= n < 0x100_0000
  {
    (b0 * 256 + b1) * 256 + b2
  }

  /** The three bytes of a 24-bit value, most significant first. */
  function Split(n: int): (bs: seq<Byte>)
    requires 0 <= n < 0x100_0000
    ensures |bs| == 3
  {
    var m := n / 256;
    [m / 256, m % 256, n % 256]
  }

  /** The four six-bit values of a 24-bit value, most significant first. */
  function GroupSextets(n: int): (d: seq<Sextet>)
    requires 0 <= n < 0x100_0000
    ensures |d| == 4
  {
    var m := n / 64;
    var m2 := m / 64;
    [m2 / 64, m2 % 64, m % 64, n % 64]
  }

  /** The 24-bit value four six-bit values spell. */
  function GroupValue(d0: Sextet, d1: Sextet, d2: Sextet, d3: Sextet): (n: int)
    ensures 0 <= n < 0x100_0000
  {
    ((d0 * 64 + d1) * 64 + d2) * 64 + d3
  }

  /** Four characters per whole group of three bytes, one more than the bytes left over after them. */
  function EncodedLength(n: nat): (k: nat)
    ensures k % 4 != 1
  {
    if n >= 3 then 4 + EncodedLength(n - 3) else if n == 0 then 0 else n + 1
  }

  /**
   * Every three bytes become four six-bit values; two left-over bytes
   * become three values and one becomes two, the missing low bits zero.
   */
  function Sextets(bs: seq<Byte>): (d: seq<Sextet>)
    ensures |d| == EncodedLength(|bs|)
    decreases |bs|
  {
    if |bs| >= 3 then GroupSextets(Join(bs[0], bs[1], bs[2])) + Sextets(bs[3..])
    else if |bs| == 2 then GroupSextets(Join(bs[0], bs[1], 0))[..3]
    else if |bs| == 1 then GroupSextets(Join(bs[0], 0, 0))[..2]
    else []
  }

  /** The inverse of `Sextets`: four values give three bytes, a final three give two, a final two give one. */
  function Unsextets(d: seq<Sextet>): (bs: seq<Byte>)
    requires |d| % 4 != 1
    decreases |d|
  {
    if |d| >= 4 then Split(GroupValue(d[0], d[1], d[2], d[3])) + Unsextets(d[4..])
    else if |d| == 3 then Split(GroupValue(d[0], d[1], d[2], 0))[..2]
    else if |d| == 2 then Split(GroupValue(d[0], d[1], 0, 0))[..1]
    else []
  }

  /** The six-bit values of a 24-bit value put back together give the value. */
  lemma GroupSextetsValue(n: int)
    requires 0 <= n < 0x100_0000
    ensures var d := GroupSextets(n); GroupValue(d[0], d[1], d[2], d[3]) == n
  {
    var m := n / 64;
    DivModBase(m, n % 64, 64);
    DivModBase(m / 64, m % 64, 64);
  }

  /** Splitting joined bytes gives them back. */
  lemma SplitJoin(b0: Byte, b1: Byte, b2: Byte)
    ensures Split(Join(b0, b1, b2)) == [b0, b1, b2]
  {
    DivModBase(b0 * 256 + b1, b2, 256);
    DivModBase(b0, b1, 256);
  }

  /** When the last byte is zero, so are the last six bits. */
  lemma TwoByteSextets(b0: Byte, b1: Byte)
    ensures GroupSextets(Join(b0, b1, 0))[3] == 0
  {
    assert Join(b0, b1, 0) == ((b0 * 256 + b1) * 4) * 64;
    DivModBase((b0 * 256 + b1) * 4, 0, 64);
  }

  /** When the last two bytes are zero, so are the last twelve bits. */
  lemma OneByteSextets(b0: Byte)
    ensures GroupSextets(Join(b0, 0, 0))[2] == 0 && GroupSextets(Join(b0, 0, 0))[3] == 0
  {
    assert Join(b0, 0, 0) == (b0 * 1024) * 64;
    DivModBase(b0 * 1024, 0, 64);
    DivModBase(b0 * 16, 0, 64);
  }

  /** A whole group of three bytes survives the round trip. */
  lemma UnsextetsGroup(b0: Byte, b1: Byte, b2: Byte)
    ensures Unsextets(GroupSextets(Join(b0, b1, b2))) == [b0, b1, b2]
  {
    var n := Join(b0, b1, b2);
    var d := GroupSextets(n);
    assert GroupValue(d[0], d[1], d[2], d[3]) == n by { GroupSextetsValue(n); }
    assert Split(n) == [b0, b1, b2] by { SplitJoin(b0, b1, b2); }
    assert d[4..] == [];
  }

  /** A final pair of bytes survives the round trip. */
  lemma UnsextetsTwo(b0: Byte, b1: Byte)
    ensures Unsextets(Sextets([b0, b1])) == [b0, b1]
  {
    var n := Join(b0, b1, 0);
    var d := GroupSextets(n);
    assert Sextets([b0, b1]) == d[..3];
    assert d[3] == 0 by { TwoByteSextets(b0, b1); }
    assert GroupValue(d[0], d[1], d[2], 0) == n by { GroupSextetsValue(n); }
    assert Split(n) == [b0, b1, 0] by { SplitJoin(b0, b1, 0); }
  }

  /** A final single byte survives the round trip. */
  lemma UnsextetsOne(b0: Byte)
    ensures Unsextets(Sextets([b0])) == [b0]
  {
    var n := Join(b0, 0, 0);
    var d := GroupSextets(n);
    assert Sextets([b0]) == d[..2];
    assert d[2] == 0 && d[3] == 0 by { OneByteSextets(b0); }
    assert GroupValue(d[0], d[1], 0, 0) == n by { GroupSextetsValue(n); }
    assert Split(n) == [b0, 0, 0] by { SplitJoin(b0, 0, 0); }
  }

  /** Reading six-bit values back works group by group. */
  lemma UnsextetsAppend(d: seq<Sextet>, rest: seq<Sextet>)
    requires |d| == 4 && |rest| % 4 != 1
    ensures Unsextets(d + rest) == Unsextets(d) + Unsextets(rest)
  {
    var all := d + rest;
    assert all[..4] == d && all[4..] == rest;
    assert d[4..] == [];
  }

  /** Reading back the six-bit values of any bytes gives the bytes. */
  lemma {:induction false} UnsextetsSextets(bs: seq<Byte>)
    ensures Unsextets(Sextets(bs)) == bs
    decreases |bs|
  {
    if |bs| >= 3 {
      var d := GroupSextets(Join(bs[0], bs[1], bs[2]));
      var rest := Sextets(bs[3..]);
      assert Sextets(bs) == d + rest;
      assert Unsextets(d) == bs[..3] by {
        UnsextetsGroup(bs[0], bs[1], bs[2]);
        assert bs[..3] == [bs[0], bs[1], bs[2]];
      }
      assert Unsextets(rest) == bs[3..] by {
        UnsextetsSextets(bs[3..]);
      }
      UnsextetsAppend(d, rest);
      assert bs == bs[..3] + bs[3..];
    } else if |bs| == 2 {
      UnsextetsTwo(bs[0], bs[1]);
      assert bs == [bs[0], bs[1]];
    } else if |bs| == 1 {
      UnsextetsOne(bs[0]);
      assert bs == [bs[0]];
    } else {
      assert Sextets(bs) == [];
    }
  }

  // ---------------------------------------------------------------------------
  // The URL-safe base64 alphabet

  /** The character for a six-bit value, from the table in section 5 of RFC 4648. */
  function Digit(v: Sextet): (c: char)
    ensures InAlphabet(c)
  {
    if v < 26 then ('A' as int + v) as char
    else if v < 52 then ('a' as int + (v - 26)) as char
    else if v < 62 then ('0' as int + (v - 52)) as char
    else if v == 62 then '-'
    else '_'
  }

  predicate InAlphabet(c: char) {
    ('A' <= c <= 'Z') || ('a' <= c <= 'z') || ('0' <= c <= '9') || c == '-' || c == '_'
  }

  /** The six-bit value of an alphabet character. */
  function DigitValue(c: char): (v: Sextet)
    requires InAlphabet(c)
  {
    if 'A' <= c <= 'Z' then c as int - 'A' as int
    else if 'a' <= c <= 'z' then c as int - 'a' as int + 26
    else if '0' <= c <= '9' then c as int - '0' as int + 52
    else if c == '-' then 62
    else 63
  }

  /** Every six-bit value has its own character. */
  lemma DigitRoundTrip(v: Sextet)
    ensures DigitValue(Digit(v)) == v
  {
  }

  /** Each six-bit value written as its character. */
  function Chars(d: seq<Sextet>): (s: string)
    ensures |s| == |d|
    ensures forall i :: 0 <= i < |s| ==> InAlphabet(s[i])
  {
    if d == [] then [] else [Digit(d[0])] + Chars(d[1..])
  }

  /** Each alphabet character read as its six-bit value. */
  function Values(s: string): (d: seq<Sextet>)
    requires forall i :: 0 <= i < |s| ==> InAlphabet(s[i])
    ensures |d| == |s|
  {
    if s == [] then [] else [DigitValue(s[0])] + Values(s[1..])
  }

  lemma {:induction false} ValuesChars(d: seq<Sextet>)
    ensures Values(Chars(d)) == d
  {
    if d != [] {
      var s := Chars(d);
      assert s[1..] == Chars(d[1..]);
      DigitRoundTrip(d[0]);
      ValuesChars(d[1..]);
    }
  }

  // ---------------------------------------------------------------------------
  // Encoding and its inverse

  /** Raw URL-safe base64: the six-bit values of the bytes written as characters, with no `=` padding. */
  function Encode(bs: seq<Byte>): (s: string)
    ensures |s| == EncodedLength(|bs|)
    ensures forall i :: 0 <= i < |s| ==> InAlphabet(s[i])
  {
    Chars(Sextets(bs))
  }

  predicate Decodable(s: string) {
    |s| % 4 != 1 && forall i :: 0 <= i < |s| ==> InAlphabet(s[i])
  }

  /** The inverse of `Encode`. */
  function Decode(s: string): (bs: seq<Byte>)
    requires Decodable(s)
  {
    Unsextets(Values(s))
  }

  /** Decoding what `Encode` produced gives back the bytes. */
  lemma DecodeEncode(bs: seq<Byte>)
    ensures Decodable(Encode(bs))
    ensures Decode(Encode(bs)) == bs
  {
    ValuesChars(Sextets(bs));
    UnsextetsSextets(bs);
  }

  /** Removes every occurrence of `c`, as strings.ReplaceAll with an empty replacement does. */
  function RemoveAll(s: string, c: char): (r: string)
    ensures c !in r
    ensures |r| <= |s|
  {
    if s == [] then []
    else (if s[0] == c then [] else [s[0]]) + RemoveAll(s[1..], c)
  }

  lemma {:induction false} RemoveAbsent(s: string, c: char)
    requires c !in s
    ensures RemoveAll(s, c) == s
    decreases |s|
  {
    if s != [] {
      RemoveAbsent(s[1..], c);
      assert s == [s[0]] + s[1..];
    }
  }

  // ---------------------------------------------------------------------------
  // The short code

  const CodeLength: nat := 11

  /** The short code of a row id: its big-endian bytes, raw URL-safe base64, `=` removed. */
  function ParseToBase64(id: int): (code: string)
    requires IsInt64(id)
    ensures |code| == CodeLength
    ensures forall i :: 0 <= i < |code| ==> InAlphabet(code[i])
  {
    var s := Encode(Int64Bytes(id));
    assert forall i :: 0 <= i < |s| ==> s[i] != '=';
    RemoveAbsent(s, '=');
    RemoveAll(s, '=')
  }

  /** Removing `=` changes nothing, because the unpadded alphabet has none. */
  lemma ParseToBase64IsEncoding(id: int)
    requires IsInt64(id)
    ensures ParseToBase64(id) == Encode(Int64Bytes(id))
  {
    var s := Encode(Int64Bytes(id));
    assert forall i :: 0 <= i < |s| ==> s[i] != '=';
    RemoveAbsent(s, '=');
  }

  /** `Chars` maps position by position. */
  lemma {:induction false} CharsAt(d: seq<Sextet>)
    ensures forall i :: 0 <= i < |d| ==> Chars(d)[i] == Digit(d[i])
  {
    if d != [] {
      CharsAt(d[1..]);
      assert forall i :: 0 < i < |d| ==> Chars(d)[i] == Chars(d[1..])[i - 1];
    }
  }

  lemma SextetsFoobar()
    ensures Sextets([102, 111, 111, 98, 97, 114]) == [25, 38, 61, 47, 24, 38, 5, 50]
  {
    var bs: seq<Byte> := [102, 111, 111, 98, 97, 114];
    assert bs[3..] == [98, 97, 114] && bs[3..][3..] == [];
    assert Join(102, 111, 111) == 6713199 && Join(98, 97, 114) == 6447474;
    assert GroupSextets(6713199) == [25, 38, 61, 47];
    assert GroupSextets(6447474) == [24, 38, 5, 50];
  }

  lemma CharsFoobar()
    ensures Chars([25, 38, 61, 47, 24, 38, 5, 50]) == "Zm9vYmFy"
  {
    CharsAt([25, 38, 61, 47, 24, 38, 5, 50]);
    assert Digit(25) == 'Z' && Digit(38) == 'm' && Digit(61) == '9' && Digit(47) == 'v';
    assert Digit(24) == 'Y' && Digit(5) == 'F' && Digit(50) == 'y';
  }

  /** The encoding of "foobar", the known answer of section 10 of RFC 4648. */
  lemma EncodeFoobar()
    ensures Encode([102, 111, 111, 98, 97, 114]) == "Zm9vYmFy"
  {
    SextetsFoobar();
    CharsFoobar();
  }

  /** Leading zero bytes of a small value. */
  lemma {:induction false} ZeroBytes(n: nat)
    ensures ToBigEndian(0, n) == seq(n, _ => 0)
  {
    if n > 0 {
      ZeroBytes(n - 1);
    }
  }

  lemma BytesOfOne()
    ensures Int64Bytes(1) == [0, 0, 0, 0, 0, 0, 0, 1]
  {
    ZeroBytes(7);
    assert ToBigEndian(1, 8) == ToBigEndian(0, 7) + [1];
  }

  lemma SextetsOfOne()
    ensures Sextets([0, 0, 0, 0, 0, 0, 0, 1]) == [0, 0, 0, 0, 0, 0, 0, 0, 0, 0, 4]
  {
    var bs: seq<Byte> := [0, 0, 0, 0, 0, 0, 0, 1];
    var tail: seq<Byte> := [0, 1];
    assert Sextets(tail) == [0, 0, 4] by {
      assert Join(0, 1, 0) == 256;
      assert GroupSextets(256) == [0, 0, 4, 0];
    }
    assert GroupSextets(Join(0, 0, 0)) == [0, 0, 0, 0];
    assert bs[3..][3..] == tail;
    assert Sextets(bs[3..]) == [0, 0, 0, 0] + [0, 0, 4];
  }

  lemma CharsOfOne()
    ensures Chars([0, 0, 0, 0, 0, 0, 0, 0, 0, 0, 4]) == "AAAAAAAAAAE"
  {
    CharsAt([0, 0, 0, 0, 0, 0, 0, 0, 0, 0, 4]);
    assert Digit(0) == 'A' && Digit(4) == 'E';
  }

  /** The short code of id 1: seven zero bytes and a one, eleven characters. */
  lemma ShortCodeOfOne()
    ensures ParseToBase64(1) == "AAAAAAAAAAE"
  {
    BytesOfOne();
    SextetsOfOne();
    CharsOfOne();
    ParseToBase64IsEncoding(1);
  }

  /** Decoding a short code and reading the bytes big-endian gives back the id. */
  lemma ShortCodeRoundTrip(id: int)
    requires IsInt64(id)
    ensures Decodable(ParseToBase64(id))
    ensures |Decode(ParseToBase64(id))| == 8
    ensures ReadInt64(Decode(ParseToBase64(id))) == id
  {
    ParseToBase64IsEncoding(id);
    DecodeEncode(Int64Bytes(id));
    Int64BytesRoundTrip(id);
  }

  /** Distinct ids never share a short code. */
  lemma ShortCodeInjective(a: int, b: int)
    requires IsInt64(a) && IsInt64(b)
    requires ParseToBase64(a) == ParseToBase64(b)
    ensures a == b
  {
    ShortCodeRoundTrip(a);
    ShortCodeRoundTrip(b);
  }

  /** The width of the `short_code` column of the relational table. */
  const ShortCodeColumnWidth: nat := 10

  /** Every short code is one character longer than the column meant to hold it. */
  lemma ShortCodeExceedsColumn(id: int)
    requires IsInt64(id)
    ensures |ParseToBase64(id)| == ShortCodeColumnWidth + 1
  {
  }

  /** A column width that holds every short code: the fixed code length. */
  const CorrectedColumnWidth: nat := CodeLength

  /** Every short code fits the corrected column, and no narrower column holds them all. */
  lemma ShortCodeFitsCorrectedColumn(id: int, width: nat)
    requires IsInt64(id)
    ensures |ParseToBase64(id)| <= CorrectedColumnWidth
    ensures width < CorrectedColumnWidth ==> |ParseToBase64(id)| > width
  {
  }

  // ---------------------------------------------------------------------------
  // The row built by Create

  /** The write side's row; its creation time is set by the database layer and is not modelled. */
  datatype LinkRow = LinkRow(id: int, shortCode: string, longUrl: string, expiresAt: Option<Instant>)

  /**
   * The row `Create` inserts: the request's fields, the generated id, and
   * the short code derived from that id.
   */
  function NewRow(id: int, dto: CreateLinkDto): (row: LinkRow)
    requires IsInt64(id)
    ensures row.id == id && row.longUrl == dto.longUrl && row.expiresAt == dto.expiresAt
    ensures |row.shortCode| == CodeLength <= CorrectedColumnWidth
    ensures Decodable(row.shortCode) && |Decode(row.shortCode)| == 8
    ensures ReadInt64(Decode(row.shortCode)) == id
  {
    ShortCodeRoundTrip(id);
    LinkRow(id, ParseToBase64(id), dto.longUrl, dto.expiresAt)
  }

  /** Rows created with distinct ids carry distinct short codes, so the unique index on the code is never violated. */
  lemma DistinctRowsDistinctCodes(a: int, da: CreateLinkDto, b: int, db: CreateLinkDto)
    requires IsInt64(a) && IsInt64(b) && a != b
    ensures NewRow(a, da).shortCode != NewRow(b, db).shortCode
  {
    if ParseToBase64(a) == ParseToBase64(b) {
      ShortCodeInjective(a, b);
    }
  }
}
