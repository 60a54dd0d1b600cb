/**
 * The date helpers of the task view: `parseDateSafe`, `isoLocalKey` and `daysBetween`
 * (frontend/src/TaskManager.jsx:12-47). A date string is read as a LOCAL calendar day;
 * any time of day or zone offset after a `T` is ignored.
 */
module DateHelpers {
  import opened Wrappers
  import opened Text
  import opened Calendar

  /** The local fields (`getFullYear()`, `getMonth()`, `getDate()`) of a valid `Date`. */
  datatype LocalFields = LocalFields(year: int, monthIndex: int, day: int)

  /**
   * The engine's own `new Date(dateStr)`, used only for strings that no pattern of
   * `parseDateSafe` matches; `None` stands for an invalid Date (`isNaN(d)`).
   */
  type EngineParse = string -> Option<LocalFields>

  /** `!dateStr`: the date field is null, undefined or the empty string. */
  predicate Falsy(s: Option<string>) {
    s.None? || s.value == ""
  }

  /** `/^(\d{4})-(\d{2})-(\d{2})$/` matches all of `s`. */
  predicate IsYmdText(s: string) {
    |s| == 10 && s[4] == '-' && s[7] == '-' &&
    AllDigits(s[..4]) && AllDigits(s[5..7]) && AllDigits(s[8..])
  }

  /** The three captured groups as numbers: (`+m[1]`, `+m[2]`, `+m[3]`). */
  function Captured(s: string): (c: CDate)
    requires IsYmdText(s)
    ensures 0 <= c.y <= 9999 && 0 <= c.m <= 99 && 0 <= c.d <= 99
  {
    FourDigitsValue(s[..4]);
    TwoDigitsValue(s[5..7]);
    TwoDigitsValue(s[8..]);
    CDate(DigitsValue(s[..4]), DigitsValue(s[5..7]), DigitsValue(s[8..]))
  }

  /** `new Date(+m[1], +m[2] - 1, +m[3])` for a string the pattern matches. */
  function YmdLocalDate(s: string): CDate
    requires IsYmdText(s)
  {
    var c := Captured(s);
    MakeLocalDate(c.y, c.m - 1, c.d)
  }

  /** `parseDateSafe(dateStr)`: the local calendar day a due-date string names, if any. */
  function ParseDateSafe(dateStr: Option<string>, engine: EngineParse): (r: Option<CDate>)
    ensures Falsy(dateStr) ==> r == None
    ensures r.Some? ==> ValidDate(r.value)
  {
    if Falsy(dateStr) then None
    else
      var s := dateStr.value;
      if IsYmdText(s) then Some(YmdLocalDate(s))
      else if 'T' in s && IsYmdText(BeforeFirst(s, 'T')) then Some(YmdLocalDate(BeforeFirst(s, 'T')))
      else
        match engine(s)
        case None => None
        case Some(f) => Some(MakeLocalDate(f.year, f.monthIndex, f.day))
  }

  /**
   * The template string of `isoLocalKey`: the year unpadded, month and day padded to two
   * digits, joined by `-`.
   */
  function FormatKey(c: CDate): (k: string)
    requires ValidDate(c)
    ensures |k| == |IntToString(c.y)| + 6 && k[..|k| - 6] == IntToString(c.y)
    ensures k[|k| - 6] == '-' && k[|k| - 3] == '-'
    ensures k[|k| - 5..|k| - 3] == Pad2(c.m) && k[|k| - 2..] == Pad2(c.d)
    ensures AllDigits(k[|k| - 5..|k| - 3]) && AllDigits(k[|k| - 2..])
  {
    Pad2Digits(c.m);
    Pad2Digits(c.d);
    IntToString(c.y) + "-" + Pad2(c.m) + "-" + Pad2(c.d)
  }

  /** `isoLocalKey(dateStr)`: the `yyyy-mm-dd` key of the local day, or null. */
  function IsoLocalKey(dateStr: Option<string>, engine: EngineParse): (r: Option<string>)
    ensures Falsy(dateStr) ==> r == None
    ensures r.Some? <==> ParseDateSafe(dateStr, engine).Some?
    ensures r.Some? ==> r.value == FormatKey(ParseDateSafe(dateStr, engine).value)
  {
    match ParseDateSafe(dateStr, engine)
    case None => None
    case Some(c) => Some(FormatKey(c))
  }

  /**
   * `daysBetween(dateStr)`, with the clock's local day `today` as a parameter: the
   * whole days from local midnight today to local midnight of the due day.
   */
  function DaysBetween(dateStr: Option<string>, today: CDate, engine: EngineParse): (r: Option<int>)
    ensures r.Some? <==> ParseDateSafe(dateStr, engine).Some?
  {
    match ParseDateSafe(dateStr, engine)
    case None => None
    case Some(d) => Some(Ordinal(LocalMidnight(d)) - Ordinal(LocalMidnight(today)))
  }

  lemma FourDigitsValue(t: string)
    requires |t| == 4 && AllDigits(t)
    ensures DigitsValue(t) == 1000 * DigitValue(t[0]) + 100 * DigitValue(t[1]) + 10 * DigitValue(t[2]) + DigitValue(t[3])
    ensures DigitsValue(t) <= 9999
  {
    assert t[..3][..2] == t[..2] && t[..2][..1] == t[..1] && t[..1][..0] == [];
    assert DigitsValue(t[..1]) == DigitValue(t[0]);
    assert DigitsValue(t[..2]) == DigitsValue(t[..1]) * 10 + DigitValue(t[1]);
    assert DigitsValue(t[..3]) == DigitsValue(t[..2]) * 10 + DigitValue(t[2]);
    assert DigitsValue(t) == DigitsValue(t[..3]) * 10 + DigitValue(t[3]);
  }

  lemma TwoDigitsValue(t: string)
    requires |t| == 2 && AllDigits(t)
    ensures DigitsValue(t) == 10 * DigitValue(t[0]) + DigitValue(t[1])
    ensures DigitsValue(t) <= 99
  {
    assert t[..1][..0] == [];
    assert DigitsValue(t[..1]) == DigitValue(t[0]);
    assert DigitsValue(t) == DigitsValue(t[..1]) * 10 + DigitValue(t[1]);
  }

  /** Formatting a day of the years 1000..9999 gives a string the pattern matches, and the groups give the day back. */
  lemma {:induction false} FormatKeyShape(c: CDate)
    requires ValidDate(c) && 1000 <= c.y <= 9999
    ensures IsYmdText(FormatKey(c)) && Captured(FormatKey(c)) == c
  {
    FourDigitYear(c.y);
    DigitsOfNatToString(c.y);
    Pad2Digits(c.m);
    Pad2Digits(c.d);
    var k := FormatKey(c);
    assert k[..4] == NatToString(c.y);
    assert k[5..7] == Pad2(c.m);
    assert k[8..] == Pad2(c.d);
  }

  /** Parsing the key of a day of the years 1000..9999 gives that day back. */
  lemma ParseFormatKey(c: CDate, engine: EngineParse)
    requires ValidDate(c) && 1000 <= c.y <= 9999
    ensures ParseDateSafe(Some(FormatKey(c)), engine) == Some(c)
  {
    FormatKeyShape(c);
    assert (c.m - 1) / 12 == 0 && (c.m - 1) % 12 == c.m - 1;
  }

  /** A matching string is read as the day its groups name, once that is a real day of a year after 99. */
  lemma YmdTextParses(s: string, engine: EngineParse)
    requires IsYmdText(s)
    requires ValidDate(Captured(s)) && Captured(s).y >= 100
    ensures ParseDateSafe(Some(s), engine) == Some(Captured(s))
  {
    var c := Captured(s);
    assert (c.m - 1) / 12 == 0 && (c.m - 1) % 12 == c.m - 1;
    assert YmdLocalDate(s) == c;
  }

  /** Formatting the day a matching string names, in the years 1000..9999, gives the string back. */
  lemma {:induction false} FormatCaptured(s: string)
    requires IsYmdText(s)
    requires ValidDate(Captured(s)) && Captured(s).y >= 1000
    ensures FormatKey(Captured(s)) == s
  {
    var c := Captured(s);
    FourDigitsValue(s[..4]);
    assert s[0] != '0';
    NatToStringOfDigits(s[..4]);
    Pad2OfDigits(s[5..7]);
    Pad2OfDigits(s[8..]);
    assert FormatKey(c) == s[..4] + "-" + s[5..7] + "-" + s[8..];
    assert s == s[..4] + "-" + s[5..7] + "-" + s[8..];
  }

  /** A matching string whose groups name a real day of the years 1000..9999 is its own key. */
  lemma KeyOfYmdText(s: string, engine: EngineParse)
    requires IsYmdText(s)
    requires ValidDate(Captured(s)) && Captured(s).y >= 1000
    ensures ParseDateSafe(Some(s), engine) == Some(Captured(s))
    ensures IsoLocalKey(Some(s), engine) == Some(s)
  {
    YmdTextParses(s, engine);
    FormatCaptured(s);
  }

  /** A matching date followed by `T` and anything at all parses as the date alone. */
  lemma {:induction false} TimestampParsesAsDate(p: string, rest: string, engine: EngineParse)
    requires IsYmdText(p)
    ensures ParseDateSafe(Some(p + "T" + rest), engine) == ParseDateSafe(Some(p), engine)
    ensures IsoLocalKey(Some(p + "T" + rest), engine) == IsoLocalKey(Some(p), engine)
  {
    var s := p + "T" + rest;
    assert s[|p|] == 'T';
    assert 'T' !in p by {
      forall i | 0 <= i < |p| ensures p[i] != 'T' {
        if i < 4 { assert p[..4][i] == p[i]; }
        else if 4 < i < 7 { assert p[5..7][i - 5] == p[i]; }
        else if i > 7 { assert p[8..][i - 8] == p[i]; }
      }
    }
    var q := BeforeFirst(s, 'T');
    assert q == p;
  }

  /** With years 1000..9999, two real days with the same key are the same day. */
  lemma {:induction false} FormatKeyInjective(c: CDate, e: CDate)
    requires ValidDate(c) && ValidDate(e) && 1000 <= e.y <= 9999
    requires FormatKey(c) == FormatKey(e)
    ensures c == e
  {
    var k := FormatKey(e);
    FormatKeyShape(e);
    assert k[..4][0] == k[0];
    assert c.y >= 0;
    assert |NatToString(c.y)| == 4;
    assert k[..4] == NatToString(c.y);
    DigitsOfNatToString(c.y);
    FormatKeyShape(c);
  }

  /**
   * Once today and the due day are real days after the year 99, `daysBetween` is the
   * difference of their day numbers: zero exactly on the day, negative for a past day,
   * positive for a future one.
   */
  lemma DaysBetweenSign(dateStr: Option<string>, today: CDate, engine: EngineParse)
    requires ValidDate(today) && today.y >= 100
    requires ParseDateSafe(dateStr, engine).Some? && ParseDateSafe(dateStr, engine).value.y >= 100
    ensures var due := ParseDateSafe(dateStr, engine).value;
      && DaysBetween(dateStr, today, engine) == Some(Ordinal(due) - Ordinal(today))
      && (DaysBetween(dateStr, today, engine) == Some(0) <==> due == today)
      && (DaysBetween(dateStr, today, engine).value < 0 <==> Before(due, today))
      && (DaysBetween(dateStr, today, engine).value > 0 <==> Before(today, due))
  {
    var due := ParseDateSafe(dateStr, engine).value;
    OrdinalOrder(due, today);
  }
}
