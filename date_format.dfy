/** `format_date`: the display form of the commit dates the upstream API reports.
    The timestamp is read in the RFC 3339 (section 5.6) shape
    `YYYY-MM-DDTHH:MM:SS` with an optional `+HH:MM` / `-HH:MM` offset, after every
    `Z` has been rewritten as `+00:00`, and printed as `DD/MM/YYYY à HH:MM` from
    its own fields, with no conversion to another offset. When it cannot be read
    the input comes back unchanged. */
module DateFormat {
  import opened Json

  datatype Offset = Offset(negative: bool, hours: nat, minutes: nat)

  datatype Timestamp = Timestamp(
    year: nat, month: nat, day: nat,
    hour: nat, minute: nat, second: nat,
    offset: Option<Offset>)

  // ---------------------------------------------------------------- digits

  predicate IsDigit(c: char) { '0' <= c <= '9' }

  predicate AllDigits(s: string) { forall i :: 0 <= i < |s| ==> IsDigit(s[i]) }

  function Pow10(w: nat): nat { if w == 0 then 1 else 10 * Pow10(w - 1) }

  /** The value of a decimal numeral (leading zeros allowed). */
  function Number(s: string): nat
    requires AllDigits(s)
    decreases |s|
  {
    if s == "" then 0 else Number(s[..|s| - 1]) * 10 + (s[|s| - 1] as int - '0' as int)
  }

  function DigitChar(d: nat): char
    requires d < 10
  {
    ('0' as int + d) as char
  }

  /** The last `w` decimal digits of `n`, zero-padded on the left (`%02d`, `%04d`). */
  function Pad(n: nat, w: nat): (r: string)
    ensures |r| == w && AllDigits(r)
  {
    if w == 0 then "" else Pad(n / 10, w - 1) + [DigitChar(n % 10)]
  }

  /** Printing a number that fits in `w` digits and reading it back gives the number. */
  lemma {:induction false} NumberOfPad(n: nat, w: nat)
    requires n < Pow10(w)
    ensures Number(Pad(n, w)) == n
  {
    if w > 0 {
      assert n / 10 < Pow10(w - 1);
      NumberOfPad(n / 10, w - 1);
      var p := Pad(n, w);
      assert p[..|p| - 1] == Pad(n / 10, w - 1);
    }
  }

  /** Reading a numeral and printing it back at its own width gives the numeral. */
  lemma {:induction false} PadOfNumber(s: string)
    requires AllDigits(s)
    ensures Number(s) < Pow10(|s|) && Pad(Number(s), |s|) == s
  {
    if s != "" {
      var init := s[..|s| - 1];
      PadOfNumber(init);
      var d := s[|s| - 1] as int - '0' as int;
      assert Number(s) == Number(init) * 10 + d;
      assert Number(s) / 10 == Number(init) && Number(s) % 10 == d;
      assert s == init + [s[|s| - 1]];
    }
  }

  // -------------------------------------------------------------- calendar

  predicate IsLeapYear(y: nat) { y % 4 == 0 && (y % 100 != 0 || y % 400 == 0) }

  function DaysInMonth(y: nat, m: nat): nat
    requires 1 <= m <= 12
  {
    if m == 2 then (if IsLeapYear(y) then 29 else 28)
    else if m == 4 || m == 6 || m == 9 || m == 11 then 30
    else 31
  }

  /** An offset is accepted when it stays strictly within one day; its minutes
      are not range-checked on their own (`+00:75` is 1h15). */
  predicate ValidOffset(o: Offset) {
    o.hours < 100 && o.minutes < 100 && o.hours * 60 + o.minutes < 24 * 60
  }

  /** The timestamps that can be built: years 1 to 9999, real calendar days,
      a 24-hour clock and an offset within one day. */
  predicate Valid(t: Timestamp) {
    1 <= t.year <= 9999 && 1 <= t.month <= 12 && 1 <= t.day <= DaysInMonth(t.year, t.month)
    && t.hour < 24 && t.minute < 60 && t.second < 60
    && (t.offset.Some? ==> ValidOffset(t.offset.value))
  }

  // ------------------------------------------------------- printing, parsing

  function DateText(t: Timestamp): string {
    Pad(t.year, 4) + "-" + Pad(t.month, 2) + "-" + Pad(t.day, 2)
  }

  function ClockText(t: Timestamp): string {
    Pad(t.hour, 2) + ":" + Pad(t.minute, 2) + ":" + Pad(t.second, 2)
  }

  function OffsetText(o: Offset): string {
    [if o.negative then '-' else '+'] + Pad(o.hours, 2) + ":" + Pad(o.minutes, 2)
  }

  /** The timestamp in the RFC 3339 form this model reads. */
  function Iso(t: Timestamp): string {
    DateText(t) + "T" + ClockText(t)
    + (match t.offset case None => "" case Some(o) => OffsetText(o))
  }

  predicate DigitsAt(s: string, i: nat, j: nat) { i <= j <= |s| && AllDigits(s[i..j]) }

  /** `YYYY-MM-DD` */
  predicate DateShape(s: string) {
    |s| == 10 && DigitsAt(s, 0, 4) && s[4] == '-' && DigitsAt(s, 5, 7) && s[7] == '-' && DigitsAt(s, 8, 10)
  }

  /** `HH:MM:SS` */
  predicate ClockShape(s: string) {
    |s| == 8 && DigitsAt(s, 0, 2) && s[2] == ':' && DigitsAt(s, 3, 5) && s[5] == ':' && DigitsAt(s, 6, 8)
  }

  /** `+HH:MM` or `-HH:MM` */
  predicate OffsetShape(s: string) {
    |s| == 6 && (s[0] == '+' || s[0] == '-') && DigitsAt(s, 1, 3) && s[3] == ':' && DigitsAt(s, 4, 6)
  }

  /** `YYYY-MM-DDTHH:MM:SS`, then nothing or an offset. */
  predicate IsoShape(s: string) {
    |s| >= 19 && DateShape(s[..10]) && s[10] == 'T' && ClockShape(s[11..19])
    && (|s| == 19 || OffsetShape(s[19..]))
  }

  function ReadOffset(s: string): Offset
    requires OffsetShape(s)
  {
    Offset(s[0] == '-', Number(s[1..3]), Number(s[4..6]))
  }

  /** The fields an `IsoShape` string spells, before any range check. */
  function Fields(s: string): Timestamp
    requires IsoShape(s)
  {
    var d, c := s[..10], s[11..19];
    Timestamp(Number(d[0..4]), Number(d[5..7]), Number(d[8..10]),
              Number(c[0..2]), Number(c[3..5]), Number(c[6..8]),
              if |s| == 19 then None else Some(ReadOffset(s[19..])))
  }

  /** `datetime.fromisoformat`, restricted to the RFC 3339 shape. */
  function Parse(s: string): (r: Option<Timestamp>)
    ensures r.Some? ==> Valid(r.value)
  {
    if IsoShape(s) && Valid(Fields(s)) then Some(Fields(s)) else None
  }

  /** `str.replace('Z', '+00:00')`: every `Z` is rewritten, not only a trailing one. */
  function ReplaceZ(s: string): (r: string)
    ensures 'Z' !in r
    ensures |s| <= |r| <= 6 * |s|
  {
    if s == "" then "" else (if s[0] == 'Z' then "+00:00" else [s[0]]) + ReplaceZ(s[1..])
  }

  const Separator: string := " \U{E0} "

  /** `strftime('%d/%m/%Y à %H:%M')`. */
  function Render(t: Timestamp): string {
    Pad(t.day, 2) + "/" + Pad(t.month, 2) + "/" + Pad(t.year, 4)
    + Separator + Pad(t.hour, 2) + ":" + Pad(t.minute, 2)
  }

  /** `format_date`: the display form of a timestamp, or the input itself when
      the timestamp cannot be read. */
  function FormatDate(s: string): (r: string)
    ensures r == s <==> Parse(ReplaceZ(s)).None?
  {
    match Parse(ReplaceZ(s))
    case None => s
    case Some(t) =>
      ReadableInputDiffers(s);
      Render(t)
  }

  // ---------------------------------------------------------------- lemmas

  /** Up to the first `Z`, rewriting leaves the text alone; at that `Z` it puts a `+`. */
  lemma {:induction false} ReplaceZHead(s: string, i: nat)
    requires i < |s|
    requires forall j :: 0 <= j < i ==> s[j] != 'Z'
    ensures |ReplaceZ(s)| > i
    ensures ReplaceZ(s)[..i] == s[..i]
    ensures ReplaceZ(s)[i] == if s[i] == 'Z' then '+' else s[i]
  {
    if i > 0 {
      ReplaceZHead(s[1..], i - 1);
      assert ReplaceZ(s) == [s[0]] + ReplaceZ(s[1..]);
    }
  }

  /** A readable input never already has the display shape: its third character
      is a digit where the display form has `/`. */
  lemma ReadableInputDiffers(s: string)
    requires Parse(ReplaceZ(s)).Some?
    ensures Render(Parse(ReplaceZ(s)).value) != s
  {
    var u := ReplaceZ(s);
    assert |s| >= 4;
    ReplaceZHead(s, 0);
    assert s[0] != 'Z' by { assert IsDigit(u[0..4][0]); }
    ReplaceZHead(s, 1);
    assert s[1] != 'Z' by { assert IsDigit(u[0..4][1]); }
    ReplaceZHead(s, 2);
    assert IsDigit(u[0..4][2]);
    assert Render(Parse(u).value)[2] == '/';
  }

  lemma DateTextRoundTrip(t: Timestamp)
    requires t.year < 10000 && t.month < 100 && t.day < 100
    ensures var d := DateText(t);
      DateShape(d) && Number(d[0..4]) == t.year && Number(d[5..7]) == t.month && Number(d[8..10]) == t.day
  {
    var d := DateText(t);
    assert d[0..4] == Pad(t.year, 4) && d[5..7] == Pad(t.month, 2) && d[8..10] == Pad(t.day, 2);
    NumberOfPad(t.year, 4);
    NumberOfPad(t.month, 2);
    NumberOfPad(t.day, 2);
  }

  lemma ClockTextRoundTrip(t: Timestamp)
    requires t.hour < 100 && t.minute < 100 && t.second < 100
    ensures var c := ClockText(t);
      ClockShape(c) && Number(c[0..2]) == t.hour && Number(c[3..5]) == t.minute && Number(c[6..8]) == t.second
  {
    var c := ClockText(t);
    assert c[0..2] == Pad(t.hour, 2) && c[3..5] == Pad(t.minute, 2) && c[6..8] == Pad(t.second, 2);
    NumberOfPad(t.hour, 2);
    NumberOfPad(t.minute, 2);
    NumberOfPad(t.second, 2);
  }

  lemma OffsetTextRoundTrip(o: Offset)
    requires o.hours < 100 && o.minutes < 100
    ensures OffsetShape(OffsetText(o)) && ReadOffset(OffsetText(o)) == o
  {
    var x := OffsetText(o);
    assert x[1..3] == Pad(o.hours, 2) && x[4..6] == Pad(o.minutes, 2);
    NumberOfPad(o.hours, 2);
    NumberOfPad(o.minutes, 2);
  }

  /** `fromisoformat` reads back exactly what `isoformat`-style printing wrote. */
  lemma ParseIso(t: Timestamp)
    requires Valid(t)
    ensures Parse(Iso(t)) == Some(t)
  {
    var s := Iso(t);
    DateTextRoundTrip(t);
    ClockTextRoundTrip(t);
    assert s[..10] == DateText(t);
    assert s[11..19] == ClockText(t);
    if t.offset.Some? {
      OffsetTextRoundTrip(t.offset.value);
      assert s[19..] == OffsetText(t.offset.value);
    }
    assert IsoShape(s);
    assert Fields(s) == t;
  }

  lemma DateTextOfShape(d: string)
    requires DateShape(d)
    ensures DateText(Timestamp(Number(d[0..4]), Number(d[5..7]), Number(d[8..10]), 0, 0, 0, None)) == d
  {
    PadOfNumber(d[0..4]);
    PadOfNumber(d[5..7]);
    PadOfNumber(d[8..10]);
    assert d == d[0..4] + "-" + d[5..7] + "-" + d[8..10];
  }

  lemma ClockTextOfShape(c: string)
    requires ClockShape(c)
    ensures ClockText(Timestamp(0, 0, 0, Number(c[0..2]), Number(c[3..5]), Number(c[6..8]), None)) == c
  {
    PadOfNumber(c[0..2]);
    PadOfNumber(c[3..5]);
    PadOfNumber(c[6..8]);
    assert c == c[0..2] + ":" + c[3..5] + ":" + c[6..8];
  }

  lemma OffsetTextOfShape(x: string)
    requires OffsetShape(x)
    ensures OffsetText(ReadOffset(x)) == x
  {
    PadOfNumber(x[1..3]);
    PadOfNumber(x[4..6]);
    assert x == [x[0]] + x[1..3] + ":" + x[4..6];
  }

  /** Every string that parses is the printed form of what it parses to. */
  lemma IsoOfParse(s: string)
    requires Parse(s).Some?
    ensures Iso(Parse(s).value) == s
  {
    var t := Parse(s).value;
    DateTextOfShape(s[..10]);
    ClockTextOfShape(s[11..19]);
    assert DateText(t) == s[..10];
    assert ClockText(t) == s[11..19];
    if |s| == 19 {
      assert s == s[..10] + "T" + s[11..19];
    } else {
      OffsetTextOfShape(s[19..]);
      assert s == s[..10] + "T" + s[11..19] + s[19..];
    }
  }

  /** Reading succeeds on exactly the printed forms of valid timestamps. */
  lemma ParseIff(s: string, t: Timestamp)
    ensures Parse(s) == Some(t) <==> Valid(t) && s == Iso(t)
  {
    if Parse(s) == Some(t) { IsoOfParse(s); }
    if Valid(t) && s == Iso(t) { ParseIso(t); }
  }

  /** The display form copies the day, month, year, hour and minute digits
      verbatim from the (rewritten) input: no field is converted or shifted. */
  lemma FormatDateVerbatim(s: string)
    requires Parse(ReplaceZ(s)).Some?
    ensures var u := ReplaceZ(s);
      FormatDate(s) == u[8..10] + "/" + u[5..7] + "/" + u[0..4] + Separator + u[11..13] + ":" + u[14..16]
  {
    var u := ReplaceZ(s);
    var d, c := u[..10], u[11..19];
    assert d[0..4] == u[0..4] && d[5..7] == u[5..7] && d[8..10] == u[8..10];
    assert c[0..2] == u[11..13] && c[3..5] == u[14..16];
    PadOfNumber(u[0..4]);
    PadOfNumber(u[5..7]);
    PadOfNumber(u[8..10]);
    PadOfNumber(u[11..13]);
    PadOfNumber(u[14..16]);
  }

  /** The rewrite distributes over concatenation: each part is rewritten on its own. */
  lemma {:induction false} ReplaceZAppend(a: string, b: string)
    ensures ReplaceZ(a + b) == ReplaceZ(a) + ReplaceZ(b)
  {
    if a != "" {
      ReplaceZAppend(a[1..], b);
      var head := if a[0] == 'Z' then "+00:00" else [a[0]];
      assert (a + b)[0] == a[0] && (a + b)[1..] == a[1..] + b;
      assert ReplaceZ(a + b) == head + ReplaceZ(a[1..] + b);
    } else {
      assert a + b == b;
    }
  }

  /** A lone `Z` becomes the zero offset. */
  lemma ReplaceZOfZ()
    ensures ReplaceZ("Z") == "+00:00"
  {
    assert "Z"[1..] == "";
  }

  lemma {:induction false} ReplaceZIdentity(s: string)
    requires 'Z' !in s
    ensures ReplaceZ(s) == s
  {
    if s != "" {
      ReplaceZIdentity(s[1..]);
    }
  }

  lemma NoZInDigits(s: string)
    requires AllDigits(s)
    ensures 'Z' !in s
  {
  }

  lemma NoZInIso(t: Timestamp)
    requires t.offset.None?
    ensures 'Z' !in Iso(t)
  {
    NoZInDigits(Pad(t.year, 4));
    NoZInDigits(Pad(t.month, 2));
    NoZInDigits(Pad(t.day, 2));
    NoZInDigits(Pad(t.hour, 2));
    NoZInDigits(Pad(t.minute, 2));
    NoZInDigits(Pad(t.second, 2));
  }

  /** A UTC timestamp as the upstream API writes it (`...Z`) is displayed from
      its own fields. */
  lemma FormatDateUtc(t: Timestamp)
    requires Valid(t) && t.offset.None?
    ensures FormatDate(Iso(t) + "Z") == Render(t)
  {
    var utc := t.(offset := Some(Offset(false, 0, 0)));
    assert OffsetText(Offset(false, 0, 0)) == "+00:00";
    assert Iso(utc) == Iso(t) + "+00:00";
    NoZInIso(t);
    ReplaceZAppend(Iso(t), "Z");
    ReplaceZIdentity(Iso(t));
    ReplaceZOfZ();
    ParseIso(utc);
  }

  lemma ExampleTexts()
    ensures Iso(Timestamp(2024, 1, 5, 13, 4, 0, None)) == "2024-01-05T13:04:00"
    ensures Render(Timestamp(2024, 1, 5, 13, 4, 0, None)) == "05/01/2024 \U{E0} 13:04"
  {
    ExamplePads();
  }

  lemma ExamplePads()
    ensures Pad(2024, 4) == "2024" && Pad(1, 2) == "01" && Pad(5, 2) == "05"
    ensures Pad(13, 2) == "13" && Pad(4, 2) == "04" && Pad(0, 2) == "00"
  {
    assert DigitChar(0) == '0' && DigitChar(1) == '1' && DigitChar(2) == '2';
    assert DigitChar(3) == '3' && DigitChar(4) == '4' && DigitChar(5) == '5';
    assert Pad(0, 1) == "0" && Pad(1, 1) == "1" && Pad(2, 1) == "2";
    assert Pad(20, 2) == "20";
    assert Pad(202, 3) == "202";
    assert Pad(0, 2) == "00" && Pad(1, 2) == "01" && Pad(5, 2) == "05";
    assert Pad(13, 2) == "13" && Pad(4, 2) == "04";
  }

  /** The worked examples: a GitHub commit date, and a string that is no date. */
  lemma FormatDateExample()
    ensures FormatDate("2024-01-05T13:04:00Z") == "05/01/2024 \U{E0} 13:04"
  {
    var t := Timestamp(2024, 1, 5, 13, 4, 0, None);
    ExampleTexts();
    assert Iso(t) + "Z" == "2024-01-05T13:04:00Z";
    FormatDateUtc(t);
  }

  lemma FormatDateNotADate()
    ensures FormatDate("not-a-date") == "not-a-date"
  {
    var s := "not-a-date";
    ReplaceZIdentity(s);
    assert !IsoShape(s);
  }
}
