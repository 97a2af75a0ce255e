/** Naive Python `datetime` values as the application stores and serialises them:
    the proleptic Gregorian calendar of years 1 to 9999, the text that
    `strftime('%Y-%m-%d %H:%M:%S')` produces, and the part of
    `datetime.fromisoformat` that reads such text back. */
module DateTime {
  import opened Basics

  const MicrosPerSecond := 1000000
  const SecondsPerDay := 86400

  /** The fields of a naive `datetime`. */
  datatype Civil = Civil(
    year: int, month: int, day: int,
    hour: int, minute: int, second: int, microsecond: int)

  /** What the `datetime` constructor accepts. */
  predicate ValidCivil(c: Civil)
  {
    && 1 <= c.year <= 9999
    && 1 <= c.month <= 12
    && 1 <= c.day <= DaysInMonth(c.year, c.month)
    && 0 <= c.hour < 24
    && 0 <= c.minute < 60
    && 0 <= c.second < 60
    && 0 <= c.microsecond < MicrosPerSecond
  }

  /** A naive `datetime` value. */
  type Timestamp = c: Civil | ValidCivil(c) witness Civil(1, 1, 1, 0, 0, 0, 0)

  /** The timestamp with its microseconds dropped. */
  function Truncate(t: Timestamp): (r: Timestamp)
    ensures r.microsecond == 0
    ensures Micros(r) == Micros(t) - t.microsecond
  {
    t.(microsecond := 0)
  }

  /** Microseconds in a number of whole days (`timedelta(days=n)`). */
  function Days(n: int): int { n * 86_400_000_000 }

  // ---------------------------------------------------------------------------
  // Calendar
  // ---------------------------------------------------------------------------

  predicate IsLeap(y: int) { y % 4 == 0 && (y % 100 != 0 || y % 400 == 0) }

  function DaysInYear(y: int): int { if IsLeap(y) then 366 else 365 }

  /** Days before January 1st of year `y`, by the closed form Python's
      `datetime` module uses. */
  function DaysBeforeYear(y: int): int
  {
    var k := y - 1;
    k * 365 + k / 4 - k / 100 + k / 400
  }

  /** The closed form steps by exactly one year's length. */
  lemma DaysBeforeNextYear(y: int)
    requires y >= 1
    ensures DaysBeforeYear(y + 1) == DaysBeforeYear(y) + DaysInYear(y)
  {
    var k := y - 1;
    assert (k + 1) / 4 - k / 4 == if y % 4 == 0 then 1 else 0;
    assert (k + 1) / 100 - k / 100 == if y % 100 == 0 then 1 else 0;
    assert (k + 1) / 400 - k / 400 == if y % 400 == 0 then 1 else 0;
  }

  function DaysInMonth(y: int, m: int): int
    requires 1 <= m <= 12
  {
    if m == 2 then (if IsLeap(y) then 29 else 28)
    else if m == 4 || m == 6 || m == 9 || m == 11 then 30
    else 31
  }

  /** Days in year `y` before the first of month `m`; month 13 stands for the
      end of the year. */
  function DaysBeforeMonth(y: int, m: int): int
    requires 1 <= m <= 13
  {
    [0, 31, 59, 90, 120, 151, 181, 212, 243, 273, 304, 334, 365][m - 1]
      + (if m > 2 && IsLeap(y) then 1 else 0)
  }

  lemma MonthStep(y: int, m: int)
    requires 1 <= m <= 12
    ensures DaysBeforeMonth(y, m + 1) == DaysBeforeMonth(y, m) + DaysInMonth(y, m)
    ensures DaysBeforeMonth(y, 13) == DaysInYear(y)
  {
  }

  /** The day number of a date: 0 for 0001-01-01 (`toordinal() - 1`). */
  function DayNumber(t: Timestamp): (n: nat)
    ensures DaysBeforeYear(t.year) <= n < DaysBeforeYear(t.year + 1)
  {
    MonthStep(t.year, t.month);
    DaysBeforeNextYear(t.year);
    DaysBeforeYear(t.year) + DaysBeforeMonth(t.year, t.month) + t.day - 1
  }

  /** Microseconds since 0001-01-01 00:00:00: the scale on which the
      application compares timestamps and subtracts `timedelta`s. */
  function Micros(t: Timestamp): nat
  {
    (DayNumber(t) * 86400 + t.hour * 3600 + t.minute * 60 + t.second) * 1_000_000 + t.microsecond
  }

  /** Later in the calendar is later on the microsecond scale. */
  lemma {:induction false} DayNumberOrdered(a: Timestamp, b: Timestamp)
    requires a.year < b.year
      || (a.year == b.year && a.month < b.month)
      || (a.year == b.year && a.month == b.month && a.day < b.day)
    ensures DayNumber(a) < DayNumber(b)
  {
    if a.year < b.year {
      DaysBeforeYearMonotone(a.year + 1, b.year);
    } else if a.month < b.month {
      MonthMonotone(a.year, a.month + 1, b.month);
    }
  }

  lemma {:induction false} DaysBeforeYearMonotone(a: int, b: int)
    requires 1 <= a <= b
    ensures DaysBeforeYear(a) <= DaysBeforeYear(b)
    decreases b - a
  {
    if a < b {
      DaysBeforeNextYear(a);
      DaysBeforeYearMonotone(a + 1, b);
    }
  }

  lemma {:induction false} MonthMonotone(y: int, a: int, b: int)
    requires 1 <= a <= b <= 13
    ensures DaysBeforeMonth(y, a) <= DaysBeforeMonth(y, b)
    decreases b - a
  {
    if a < b {
      MonthStep(y, a);
      MonthMonotone(y, a + 1, b);
    }
  }

  // ---------------------------------------------------------------------------
  // Text
  // ---------------------------------------------------------------------------

  function Pow10(w: nat): nat { if w == 0 then 1 else 10 * Pow10(w - 1) }

  function DigitChar(d: int): char
    requires 0 <= d < 10
  {
    ('0' as int + d) as char
  }

  /** The last `w` decimal digits of `n`, zero-padded. */
  function Digits(n: nat, w: nat): (s: string)
    ensures |s| == w
    ensures forall i :: 0 <= i < |s| ==> IsAsciiDigit(s[i])
  {
    if w == 0 then [] else Digits(n / 10, w - 1) + [DigitChar(n % 10)]
  }

  /** Reads a run of ASCII digits as a number. */
  function ParseDigits(s: string): Option<nat>
  {
    if s == [] then Some(0)
    else
      var last := s[|s| - 1];
      match ParseDigits(s[..|s| - 1])
      case Some(v) => if IsAsciiDigit(last) then Some(v * 10 + (last as int - '0' as int)) else None
      case None => None
  }

  lemma {:induction false} ParseDigitsOfDigits(n: nat, w: nat)
    requires n < Pow10(w)
    ensures ParseDigits(Digits(n, w)) == Some(n)
  {
    if w > 0 {
      var s := Digits(n, w);
      assert s[..|s| - 1] == Digits(n / 10, w - 1);
      ParseDigitsOfDigits(n / 10, w - 1);
    }
  }

  /** One element of a date layout being written: a number zero-padded to a
      width, or a literal character. */
  datatype Chunk = Number(value: nat, width: nat) | Char(c: char)

  /** One element of a date layout being read: a run of exactly `width` ASCII
      digits, a given character, or any one character. */
  datatype Slot = DigitSlot(width: nat) | CharSlot(c: char) | AnySlot

  function Render(cs: seq<Chunk>): string
  {
    if cs == [] then []
    else
      (match cs[0]
       case Number(v, w) => Digits(v, w)
       case Char(c) => [c])
      + Render(cs[1..])
  }

  /** Reads `s` against `slots`, which must consume it exactly; gives the
      layout that was read. */
  function Read(s: string, slots: seq<Slot>): Option<seq<Chunk>>
    decreases slots
  {
    if slots == [] then (if s == [] then Some([]) else None)
    else
      match slots[0]
      case DigitSlot(w) =>
        if |s| < w then None
        else
          (match (ParseDigits(s[..w]), Read(s[w..], slots[1..]))
           case (Some(v), Some(rest)) => Some([Number(v, w)] + rest)
           case _ => None)
      case CharSlot(c) =>
        if |s| > 0 && s[0] == c then Prepend(Char(c), Read(s[1..], slots[1..])) else None
      case AnySlot =>
        if |s| > 0 then Prepend(Char(s[0]), Read(s[1..], slots[1..])) else None
  }

  function Prepend(ch: Chunk, rest: Option<seq<Chunk>>): Option<seq<Chunk>>
  {
    if rest.Some? then Some([ch] + rest.value) else None
  }

  predicate SlotReads(slot: Slot, chunk: Chunk)
  {
    match slot
    case DigitSlot(w) => chunk.Number? && chunk.width == w && chunk.value < Pow10(w)
    case CharSlot(c) => chunk == Char(c)
    case AnySlot => chunk.Char?
  }

  predicate LayoutReads(slots: seq<Slot>, cs: seq<Chunk>)
  {
    |slots| == |cs| && forall i :: 0 <= i < |cs| ==> SlotReads(slots[i], cs[i])
  }

  /** Reading what was rendered gives back the layout. */
  lemma {:induction false} ReadRender(cs: seq<Chunk>, slots: seq<Slot>)
    requires LayoutReads(slots, cs)
    ensures Read(Render(cs), slots) == Some(cs)
    decreases cs
  {
    if cs != [] {
      assert LayoutReads(slots[1..], cs[1..]) by {
        forall i | 0 <= i < |cs| - 1 ensures SlotReads(slots[1..][i], cs[1..][i]) {
          assert SlotReads(slots[i + 1], cs[i + 1]);
        }
      }
      ReadRender(cs[1..], slots[1..]);
      assert SlotReads(slots[0], cs[0]);
      assert cs == [cs[0]] + cs[1..];
      match cs[0]
      case Number(v, w) =>
        ReadNumber(v, w, Render(cs[1..]), slots, cs[1..]);
      case Char(c) =>
        ReadChar(c, Render(cs[1..]), slots, cs[1..]);
    }
  }

  lemma ReadNumber(v: nat, w: nat, rest: string, slots: seq<Slot>, tail: seq<Chunk>)
    requires slots != [] && slots[0] == DigitSlot(w) && v < Pow10(w)
    requires Read(rest, slots[1..]) == Some(tail)
    ensures Read(Digits(v, w) + rest, slots) == Some([Number(v, w)] + tail)
  {
    var head := Digits(v, w);
    assert (head + rest)[..w] == head;
    assert (head + rest)[w..] == rest;
    ParseDigitsOfDigits(v, w);
  }

  lemma ReadChar(c: char, rest: string, slots: seq<Slot>, tail: seq<Chunk>)
    requires slots != [] && (slots[0] == CharSlot(c) || slots[0] == AnySlot)
    requires Read(rest, slots[1..]) == Some(tail)
    ensures Read([c] + rest, slots) == Some([Char(c)] + tail)
  {
    assert ([c] + rest)[1..] == rest;
  }

  function ReplaceInLayout(cs: seq<Chunk>, from: char, to: char): (r: seq<Chunk>)
    ensures |r| == |cs|
    ensures forall i :: 0 <= i < |cs| ==>
      r[i] == if cs[i] == Char(from) then Char(to) else cs[i]
  {
    seq(|cs|, i requires 0 <= i < |cs| => if cs[i] == Char(from) then Char(to) else cs[i])
  }

  /** Replacing a character that is not a digit in the rendered text is
      replacing it in the layout. */
  lemma {:induction false} ReplaceRender(cs: seq<Chunk>, from: char, to: char)
    requires !IsAsciiDigit(from)
    ensures ReplaceChar(Render(cs), from, to) == Render(ReplaceInLayout(cs, from, to))
    decreases cs
  {
    if cs != [] {
      var r := ReplaceInLayout(cs, from, to);
      assert r[1..] == ReplaceInLayout(cs[1..], from, to);
      ReplaceRender(cs[1..], from, to);
      RenderCons(cs);
      RenderCons(r);
      ReplaceConcat(Render([cs[0]]), Render(cs[1..]), from, to);
      ReplaceOneChunk(cs[0], from, to);
    }
  }

  lemma RenderCons(cs: seq<Chunk>)
    requires cs != []
    ensures Render(cs) == Render([cs[0]]) + Render(cs[1..])
  {
    assert [cs[0]][1..] == [];
  }

  /** The replacement on one rendered chunk: digits are left alone. */
  lemma ReplaceOneChunk(c: Chunk, from: char, to: char)
    requires !IsAsciiDigit(from)
    ensures ReplaceChar(Render([c]), from, to) == Render([if c == Char(from) then Char(to) else c])
  {
    assert [c][1..] == [];
    var d := if c == Char(from) then Char(to) else c;
    assert [d][1..] == [];
    match c
    case Number(v, w) =>
      assert Render([c]) == Digits(v, w) + [];
    case Char(x) =>
      assert Render([c]) == [x] + [];
      assert Render([d]) == [if x == from then to else x] + [];
  }

  lemma ReplaceConcat(a: string, b: string, from: char, to: char)
    ensures ReplaceChar(a + b, from, to) == ReplaceChar(a, from, to) + ReplaceChar(b, from, to)
  {
  }

  /** glibc's `%Y` writes the year without padding. */
  function YearWidth(y: int): nat
  {
    if y >= 1000 then 4 else if y >= 100 then 3 else if y >= 10 then 2 else 1
  }

  /** `%Y-%m-%d<sep>%H:%M:%S`. */
  function Layout(c: Civil, sep: char): seq<Chunk>
    requires ValidCivil(c)
  {
    [Number(c.year, YearWidth(c.year)), Char('-'), Number(c.month, 2), Char('-'), Number(c.day, 2),
     Char(sep), Number(c.hour, 2), Char(':'), Number(c.minute, 2), Char(':'), Number(c.second, 2)]
  }

  /** `strftime('%Y-%m-%d %H:%M:%S')`; years below 1000 are not padded. */
  function Format(t: Timestamp): string
  {
    Render(Layout(t, ' '))
  }

  /** The formatted text is never empty, so the restore code always treats it
      as a date to convert. */
  lemma FormatNonEmpty(t: Timestamp)
    ensures Format(t) != ""
  {
    var l := Layout(t, ' ');
    assert Render(l) == Digits(l[0].value, l[0].width) + Render(l[1..]);
  }

  /** `str.replace(from, to)` for single characters. */
  function ReplaceChar(s: string, from: char, to: char): (r: string)
    ensures |r| == |s|
    ensures forall i :: 0 <= i < |s| ==> r[i] == if s[i] == from then to else s[i]
  {
    seq(|s|, i requires 0 <= i < |s| => if s[i] == from then to else s[i])
  }

  const DateSlots: seq<Slot> :=
    [DigitSlot(4), CharSlot('-'), DigitSlot(2), CharSlot('-'), DigitSlot(2)]
  const DateTimeSlots: seq<Slot> :=
    DateSlots + [AnySlot, DigitSlot(2), CharSlot(':'), DigitSlot(2), CharSlot(':'), DigitSlot(2)]

  /** The number in a chunk that was read against a digit slot. */
  function Value(ch: Chunk): nat
  {
    if ch.Number? then ch.value else 0
  }

  /** `datetime(year, month, day, hour, minute, second)` from the numbers at the
      given positions of a layout that was read: None when a field is out of
      range. */
  function Build(cs: seq<Chunk>, y: nat, mo: nat, d: nat, h: nat, mi: nat, sec: nat): Option<Timestamp>
  {
    if !(y < |cs| && mo < |cs| && d < |cs| && h < |cs| && mi < |cs| && sec < |cs|) then None
    else
      var c := Civil(Value(cs[y]), Value(cs[mo]), Value(cs[d]),
                     Value(cs[h]), Value(cs[mi]), Value(cs[sec]), 0);
      if ValidCivil(c) then Some(c) else None
  }

  /** `datetime.fromisoformat` on the two shapes the application produces:
      `YYYY-MM-DD` and `YYYY-MM-DD?HH:MM:SS`, where `?` is any one character.
      Anything else, or a field out of range, raises (here: None). */
  function ParseIso(s: string): Option<Timestamp>
  {
    match Read(s, DateTimeSlots)
    case Some(cs) => Build(cs, 0, 2, 4, 6, 8, 10)
    case None =>
      match Read(s, DateSlots)
      case Some(cs) => Build(cs + [Number(0, 2)], 0, 2, 4, 5, 5, 5)
      case None => None
  }

  /** The round trip the recovery code relies on: formatting a timestamp,
      replacing the space by `T` and parsing the result gives the timestamp
      truncated to whole seconds. It holds from year 1000 on, because `%Y` does
      not pad shorter years. */
  lemma FormatParseRoundTrip(t: Timestamp)
    requires t.year >= 1000
    ensures ParseIso(ReplaceChar(Format(t), ' ', 'T')) == Some(Truncate(t))
  {
    ReplaceRender(Layout(t, ' '), ' ', 'T');
    var l := Layout(t, 'T');
    assert ReplaceInLayout(Layout(t, ' '), ' ', 'T') == l;
    assert Pow10(2) == 100 && Pow10(4) == 10000;
    assert LayoutReads(DateTimeSlots, l);
    ReadRender(l, DateTimeSlots);
  }
}
