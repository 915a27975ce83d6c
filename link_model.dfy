/**
 * The record mirrored from the relational store into the document store, and
 * the timestamp representation used by the change-event decoder.
 */
module LinkModel {
  import opened Wrappers

  /** A UTC calendar instant with whole-second precision. */
  datatype Time = Time(year: int, month: int, day: int, hour: int, minute: int, second: int)

  /**
   * The mirrored record; `id` is the document key. Both the write side's
   * relational row and the read side's document have this shape.
   */
  datatype Link = Link(
    id: int,
    shortCode: string,
    longUrl: string,
    createdAt: Time,
    expiresAt: Option<Time>)

  predicate IsLeapYear(y: int) {
    y % 4 == 0 && (y % 100 != 0 || y % 400 == 0)
  }

  function DaysIn(month: int, year: int): (d: int)
    requires 1 <= month <= 12
    ensures 28 <= d <= 31
  {
    if month == 2 then (if IsLeapYear(year) then 29 else 28)
    else if month == 4 || month == 6 || month == 9 || month == 11 then 30
    else 31
  }

  /** The instants the fixed layout can express: a four-digit year and in-range fields. */
  predicate ValidTime(t: Time) {
    && 0 <= t.year <= 9999
    && 1 <= t.month <= 12
    && 1 <= t.day <= DaysIn(t.month, t.year)
    && 0 <= t.hour < 24
    && 0 <= t.minute < 60
    && 0 <= t.second < 60
  }

  predicate IsDigit(c: char) {
    '0' <= c <= '9'
  }

  function DigitChar(d: int): (c: char)
    requires 0 <= d < 10
    ensures IsDigit(c)
  {
    ((d + '0' as int) as char)
  }

  /** The value of a run of decimal digits, most significant first. */
  function DigitsValue(s: string): (n: nat)
    requires forall i :: 0 <= i < |s| ==> IsDigit(s[i])
  {
    if s == [] then 0
    else
      var last := s[|s| - 1];
      assert IsDigit(last);
      DigitsValue(s[..|s| - 1]) * 10 + (last as int - '0' as int)
  }

  /** `n` written with exactly `width` decimal digits, zero-padded. */
  function PadDigits(n: nat, width: nat): (s: string)
    ensures |s| == width
    ensures forall i :: 0 <= i < |s| ==> IsDigit(s[i])
  {
    if width == 0 then "" else PadDigits(n / 10, width - 1) + [DigitChar(n % 10)]
  }

  function Pow10(k: nat): (p: nat)
    ensures p >= 1
  {
    if k == 0 then 1 else 10 * Pow10(k - 1)
  }

  lemma {:induction false} DigitsOfPadDigits(n: nat, width: nat)
    requires n < Pow10(width)
    ensures DigitsValue(PadDigits(n, width)) == n
  {
    if width > 0 {
      var s := PadDigits(n, width);
      assert s[..|s| - 1] == PadDigits(n / 10, width - 1);
      DigitsOfPadDigits(n / 10, width - 1);
    }
  }

  function AllDigits(s: string, from: nat, to: nat): bool
    requires from <= to <= |s|
  {
    forall i :: from <= i < to ==> IsDigit(s[i])
  }

  /**
   * One piece of a time layout as Go's time package splits it: a literal
   * character, or a numeric field with its own width rule.
   */
  datatype Chunk = Literal(c: char) | LongYear | ZeroMonth | ZeroDay | Hour | ZeroMinute | ZeroSecond

  /** The layout `2006-01-02T15:04:05Z`, chunk by chunk; the trailing `Z` is a literal. */
  const Layout: seq<Chunk> := [
    LongYear, Literal('-'), ZeroMonth, Literal('-'), ZeroDay, Literal('T'),
    Hour, Literal(':'), ZeroMinute, Literal(':'), ZeroSecond, Literal('Z')]

  /**
   * How many characters a numeric field takes from the front of `s`, 0 when
   * it cannot be read: the year takes exactly four digits, the hour one or
   * two (a second digit when one follows), every other field exactly two.
   */
  function FieldLength(c: Chunk, s: string): (n: nat)
    requires !c.Literal?
    ensures n <= |s| && AllDigits(s, 0, n)
    ensures c == LongYear ==> n == (if |s| >= 4 && AllDigits(s, 0, 4) then 4 else 0)
    ensures c == Hour ==>
      && (n > 0 <==> |s| >= 1 && IsDigit(s[0]))
      && (n == 2 <==> |s| >= 2 && IsDigit(s[0]) && IsDigit(s[1]))
    ensures c != LongYear && c != Hour ==>
      n == (if |s| >= 2 && IsDigit(s[0]) && IsDigit(s[1]) then 2 else 0)
  {
    match c
    case LongYear => if |s| >= 4 && AllDigits(s, 0, 4) then 4 else 0
    case Hour =>
      if |s| >= 1 && IsDigit(s[0]) then (if |s| >= 2 && IsDigit(s[1]) then 2 else 1) else 0
    case ZeroMonth | ZeroDay | ZeroMinute | ZeroSecond => if |s| >= 2 && IsDigit(s[0]) && IsDigit(s[1]) then 2 else 0
  }

  function FieldOf(t: Time, c: Chunk): int
    requires !c.Literal?
  {
    match c
    case LongYear => t.year
    case ZeroMonth => t.month
    case ZeroDay => t.day
    case Hour => t.hour
    case ZeroMinute => t.minute
    case ZeroSecond => t.second
  }

  function WithField(t: Time, c: Chunk, v: int): (r: Time)
    requires !c.Literal?
    ensures FieldOf(r, c) == v
    ensures forall d: Chunk :: !d.Literal? && d != c ==> FieldOf(r, d) == FieldOf(t, d)
  {
    match c
    case LongYear => t.(year := v)
    case ZeroMonth => t.(month := v)
    case ZeroDay => t.(day := v)
    case Hour => t.(hour := v)
    case ZeroMinute => t.(minute := v)
    case ZeroSecond => t.(second := v)
  }

  /**
   * Reads `s` against the layout chunk by chunk: a literal must match the
   * next character, a field must have its digits, and nothing may be left
   * over at the end. The fields read so far are collected in `acc`.
   */
  function ParseChunks(layout: seq<Chunk>, s: string, acc: Time): Option<Time>
    decreases |layout|
  {
    if layout == [] then (if s == [] then Some(acc) else None)
    else
      var c := layout[0];
      if c.Literal? then
        if |s| > 0 && s[0] == c.c then ParseChunks(layout[1..], s[1..], acc) else None
      else
        var n := FieldLength(c, s);
        if n == 0 then None
        else ParseChunks(layout[1..], s[n..], WithField(acc, c, DigitsValue(s[..n])))
  }

  /**
   * The layout `2006-01-02T15:04:05Z` as Go's time.Parse reads it: the
   * chunks in order, then every field in range (the day checked against the
   * month's length in that year).
   */
  function ParseLayout(s: string): (r: Option<Time>)
    ensures r.Some? ==> ValidTime(r.value)
  {
    var fields := ParseChunks(Layout, s, Time(0, 0, 0, 0, 0, 0));
    if fields.Some? && ValidTime(fields.value) then fields else None
  }

  function Width(c: Chunk): nat {
    if c == LongYear then 4 else 2
  }

  /** The text of a valid instant against a layout, every field zero-padded to its width. */
  function FormatChunks(layout: seq<Chunk>, t: Time): string
    requires ValidTime(t)
    decreases |layout|
  {
    if layout == [] then ""
    else
      var c := layout[0];
      (if c.Literal? then [c.c] else PadDigits(FieldOf(t, c), Width(c))) + FormatChunks(layout[1..], t)
  }

  /** The canonical text of a valid instant in the layout. */
  function FormatLayout(t: Time): string
    requires ValidTime(t)
  {
    FormatChunks(Layout, t)
  }

  /** The fields a layout sets, taken from `t`, over `acc`. */
  function Fill(layout: seq<Chunk>, t: Time, acc: Time): Time
    decreases |layout|
  {
    if layout == [] then acc
    else
      var c := layout[0];
      Fill(layout[1..], t, if c.Literal? then acc else WithField(acc, c, FieldOf(t, c)))
  }

  /** Fields of the layout come from `t`; the others keep their value in `acc`. */
  lemma {:induction false} FillFields(layout: seq<Chunk>, t: Time, acc: Time)
    ensures forall c: Chunk :: !c.Literal? && c in layout ==> FieldOf(Fill(layout, t, acc), c) == FieldOf(t, c)
    ensures forall c: Chunk :: !c.Literal? && c !in layout ==> FieldOf(Fill(layout, t, acc), c) == FieldOf(acc, c)
    decreases |layout|
  {
    if layout != [] {
      var c := layout[0];
      var next := if c.Literal? then acc else WithField(acc, c, FieldOf(t, c));
      FillFields(layout[1..], t, next);
      assert forall d: Chunk :: d in layout <==> d == c || d in layout[1..];
    }
  }

  /** Reading the formatted text of any layout gives back the fields of `t` it writes. */
  lemma {:induction false} ParseFormatChunks(layout: seq<Chunk>, t: Time, acc: Time)
    requires ValidTime(t)
    ensures ParseChunks(layout, FormatChunks(layout, t), acc) == Some(Fill(layout, t, acc))
    decreases |layout|
  {
    if layout != [] {
      var c := layout[0];
      var s := FormatChunks(layout, t);
      var more := FormatChunks(layout[1..], t);
      if c.Literal? {
        assert s[0] == c.c && s[1..] == more;
      } else {
        var w := Width(c);
        var digits := PadDigits(FieldOf(t, c), w);
        assert s == digits + more;
        assert s[..w] == digits && s[w..] == more;
        assert IsDigit(s[0]) && IsDigit(s[1]);
        if c == LongYear {
          assert AllDigits(s, 0, 4);
        }
        assert FieldLength(c, s) == w;
        assert Pow10(4) == 10000 && Pow10(2) == 100;
        DigitsOfPadDigits(FieldOf(t, c), w);
      }
      ParseFormatChunks(layout[1..], t, if c.Literal? then acc else WithField(acc, c, FieldOf(t, c)));
    }
  }

  /** Every valid instant survives formatting and parsing unchanged. */
  lemma ParseFormatRoundTrip(t: Time)
    requires ValidTime(t)
    ensures ParseLayout(FormatLayout(t)) == Some(t)
  {
    var zero := Time(0, 0, 0, 0, 0, 0);
    ParseFormatChunks(Layout, t, zero);
    FillFields(Layout, t, zero);
    assert LongYear in Layout && ZeroMonth in Layout && ZeroDay in Layout;
    assert Hour in Layout && ZeroMinute in Layout && ZeroSecond in Layout;
    var r := Fill(Layout, t, zero);
    assert FieldOf(r, LongYear) == t.year && FieldOf(r, ZeroMonth) == t.month && FieldOf(r, ZeroDay) == t.day;
    assert FieldOf(r, Hour) == t.hour && FieldOf(r, ZeroMinute) == t.minute && FieldOf(r, ZeroSecond) == t.second;
  }
}
