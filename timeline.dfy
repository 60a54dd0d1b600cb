/**
 * The `timelineData` memo (frontend/src/TaskManager.jsx:255-278): one bucket for each of
 * the seven days from today on, counting the tasks that are not done and fall due that
 * day. `TimelineData` labels each bucket with the LOCAL key of its day, which is what the
 * memo is meant to do; `TimelineAsWritten` follows the memo's actual route through
 * `toISOString()`, whose date is the UTC one, and the lemmas below show where the two part.
 */
module Timeline {
  import opened Wrappers
  import opened Text
  import opened Calendar
  import opened DateHelpers
  import opened Tasks
  import opened Visible

  /** `timelineWindowDays`, the initial value of its state hook. */
  const TimelineWindowDays: nat := 7

  /** One element of the memo's array: `{ date: key, short, count }`. */
  datatype Bucket = Bucket(date: Option<string>, short: string, count: nat)

  /** `(t) => t.status !== "done" && isoLocalKey(t.due_date) === key`. */
  function OpenDueOn(key: Option<string>, engine: EngineParse): Task -> bool {
    (t: Task) => t.status != "done" && IsoLocalKey(t.dueDate, engine) == key
  }

  /** The independent reading of a bucket: not done, and due on the calendar day `day`. */
  function OpenDueOnDay(day: CDate, engine: EngineParse): Task -> bool {
    (t: Task) => t.status != "done" && ParseDateSafe(t.dueDate, engine) == Some(day)
  }

  /** The bucket of the local day `day` under the key `key`; `locale` stands for `toLocaleDateString`. */
  function BucketOf(tasks: seq<Task>, day: CDate, key: Option<string>, locale: CDate -> string, engine: EngineParse): Bucket {
    Bucket(key, locale(day), |Where(tasks, OpenDueOn(key, engine))|)
  }

  /** `base`, local midnight of the clock's day, moved on by `i` days with `setDate`. */
  function WindowDay(today: CDate, i: int): CDate {
    AddDays(LocalMidnight(today), i)
  }

  /** The timeline keyed by each day's own local key. */
  function TimelineData(tasks: seq<Task>, today: CDate, locale: CDate -> string, engine: EngineParse): (r: seq<Bucket>)
    ensures |r| == TimelineWindowDays
    ensures forall i :: 0 <= i < |r| ==> r[i].date.Some? && r[i].count <= |tasks|
  {
    seq(TimelineWindowDays, (i: int) requires 0 <= i < TimelineWindowDays =>
      BucketOf(tasks, WindowDay(today, i), Some(FormatKey(WindowDay(today, i))), locale, engine))
  }

  lemma {:induction false} WhereSame(ts: seq<Task>, p: Task -> bool, q: Task -> bool)
    requires forall i :: 0 <= i < |ts| ==> p(ts[i]) == q(ts[i])
    ensures Where(ts, p) == Where(ts, q)
  {
    if ts != [] {
      WhereSame(ts[1..], p, q);
    }
  }

  /** For a day of the years 1000..9999, a task's key equals the day's key exactly when it is due that day. */
  lemma KeyMatchesDay(t: Task, day: CDate, engine: EngineParse)
    requires ValidDate(day) && 1000 <= day.y <= 9999
    ensures OpenDueOn(Some(FormatKey(day)), engine)(t) == OpenDueOnDay(day, engine)(t)
  {
    var p := ParseDateSafe(t.dueDate, engine);
    if p.Some? && FormatKey(p.value) == FormatKey(day) {
      FormatKeyInjective(p.value, day);
    }
  }

  /** Counting by key is counting the open tasks due on the bucket's day. */
  lemma CountByKeyIsCountByDay(tasks: seq<Task>, day: CDate, engine: EngineParse)
    requires ValidDate(day) && 1000 <= day.y <= 9999
    ensures Where(tasks, OpenDueOn(Some(FormatKey(day)), engine)) == Where(tasks, OpenDueOnDay(day, engine))
  {
    forall i | 0 <= i < |tasks|
      ensures OpenDueOn(Some(FormatKey(day)), engine)(tasks[i]) == OpenDueOnDay(day, engine)(tasks[i])
    {
      KeyMatchesDay(tasks[i], day, engine);
    }
    WhereSame(tasks, OpenDueOn(Some(FormatKey(day)), engine), OpenDueOnDay(day, engine));
  }

  /** A window day lies in the clock's year or the next one. */
  lemma WindowDayYear(today: CDate, i: int)
    requires ValidDate(today) && 0 <= i < TimelineWindowDays
    ensures ValidDate(WindowDay(today, i))
    ensures today.y >= 100 ==> today.y <= WindowDay(today, i).y <= today.y + 1
  {
    var d := WindowDay(today, i);
    if today.y >= 100 {
      AddDaysOrdinal(LocalMidnight(today), i);
      YearsNear(today, d);
      OrdinalOrder(today, d);
      assert !Before(d, today) by {
        if Before(d, today) {
          OrdinalBeforeLess(d, today);
        }
      }
    }
  }

  /**
   * Between the years 1000 and 9998 the seven buckets are the days today+0 .. today+6, in
   * that order, each labelled with its own `yyyy-mm-dd` key, no two alike; each count is
   * the number of tasks not done whose due date parses to that very day.
   */
  lemma {:induction false} TimelineMeaning(tasks: seq<Task>, today: CDate, locale: CDate -> string, engine: EngineParse)
    requires ValidDate(today) && 1000 <= today.y <= 9998
    ensures var r := TimelineData(tasks, today, locale, engine);
      && |r| == 7
      && (forall i :: 0 <= i < 7 ==> Ordinal(WindowDay(today, i)) == Ordinal(today) + i)
      && (forall i :: 0 <= i < 7 ==> r[i].date == Some(FormatKey(WindowDay(today, i))))
      && (forall i :: 0 <= i < 7 ==> r[i].count == |Where(tasks, OpenDueOnDay(WindowDay(today, i), engine))|)
      && (forall i, j :: 0 <= i < j < 7 ==> r[i].date != r[j].date)
  {
    var r := TimelineData(tasks, today, locale, engine);
    forall i | 0 <= i < 7
      ensures Ordinal(WindowDay(today, i)) == Ordinal(today) + i
      ensures r[i].date == Some(FormatKey(WindowDay(today, i)))
      ensures r[i].count == |Where(tasks, OpenDueOnDay(WindowDay(today, i), engine))|
    {
      AddDaysOrdinal(LocalMidnight(today), i);
      WindowDayYear(today, i);
      CountByKeyIsCountByDay(tasks, WindowDay(today, i), engine);
    }
    forall i, j | 0 <= i < j < 7 ensures r[i].date != r[j].date {
      WindowDayYear(today, i);
      WindowDayYear(today, j);
      if r[i].date == r[j].date {
        FormatKeyInjective(WindowDay(today, i), WindowDay(today, j));
      }
    }
  }

  /** Filtering by a weaker test first changes nothing. */
  lemma {:induction false} WhereAfterWeaker(ts: seq<Task>, p: Task -> bool, q: Task -> bool)
    requires forall i :: 0 <= i < |ts| && q(ts[i]) ==> p(ts[i])
    ensures Where(Where(ts, p), q) == Where(ts, q)
  {
    if ts != [] {
      WhereAfterWeaker(ts[1..], p, q);
      if p(ts[0]) {
        var s := Where(ts, p);
        assert s == [ts[0]] + Where(ts[1..], p);
        assert s[0] == ts[0] && s[1..] == Where(ts[1..], p);
        assert Where(s, q) == (if q(ts[0]) then [ts[0]] else []) + Where(Where(ts[1..], p), q);
      } else {
        assert Where(ts, p) == Where(ts[1..], p);
      }
      assert Where(ts, q) == (if q(ts[0]) then [ts[0]] else []) + Where(ts[1..], q);
    }
  }

  /** Tasks with status "done" are never counted, whatever their due date. */
  lemma TimelineSkipsDone(tasks: seq<Task>, key: Option<string>, engine: EngineParse)
    ensures Where(tasks, OpenDueOn(key, engine)) == Where(Where(tasks, (t: Task) => t.status != "done"), OpenDueOn(key, engine))
  {
    WhereAfterWeaker(tasks, (t: Task) => t.status != "done", OpenDueOn(key, engine));
  }

  /** After `markDone(id)` each bucket loses exactly the open tasks with that id. */
  lemma {:induction false} TimelineAfterMarkDone(tasks: seq<Task>, id: int, key: Option<string>, engine: EngineParse)
    ensures Where(MarkDone(tasks, id), OpenDueOn(key, engine)) ==
            Where(tasks, (t: Task) => OpenDueOn(key, engine)(t) && t.id != id)
  {
    if tasks != [] {
      TimelineAfterMarkDone(tasks[1..], id, key, engine);
      assert MarkDone(tasks, id)[1..] == MarkDone(tasks[1..], id);
    }
  }

  /* ---------------- the memo as written: the key goes through toISOString() ---------------- */

  /** The year field of `toISOString()`: four digits, or a signed six-digit expanded year. */
  function IsoYear(y: int): (r: string)
    ensures 0 <= y <= 9999 ==> |r| == 4 && AllDigits(r) && DigitsValue(r) == y
    ensures !(0 <= y <= 9999) ==>
      && |r| >= 7 && r[0] == (if y < 0 then '-' else '+')
      && AllDigits(r[1..]) && DigitsValue(r[1..]) == (if y < 0 then -y else y)
  {
    if 0 <= y <= 9999 then
      assert Pow10(4) == 10000;
      NatToStringLength(y, 4);
      DigitsOfNatToString(y);
      PadStartValue(NatToString(y), 4);
      PadStart(NatToString(y), 4)
    else
      var a: nat := if y < 0 then -y else y;
      DigitsOfNatToString(a);
      PadStartValue(NatToString(a), 6);
      var r := (if y < 0 then "-" else "+") + PadStart(NatToString(a), 6);
      assert r[1..] == PadStart(NatToString(a), 6);
      r
  }

  /**
   * `d.toISOString()` for local midnight of the day `d` in a zone `offsetMinutes` ahead of
   * UTC (a negative offset is behind it): the date of the UTC day, `T`, and the UTC time
   * of day, whose hours and minutes give the minutes past UTC midnight.
   */
  function ToIsoString(d: CDate, offsetMinutes: int): (r: string)
    requires 1 <= d.m <= 12
    ensures var u := AddDays(d, (-offsetMinutes) / 1440);
      |r| == |IsoDate(u)| + 14 && r[..|r| - 14] == IsoDate(u) && r[|r| - 14] == 'T'
    ensures var time := r[|r| - 13..];
      && AllDigits(time[..2]) && AllDigits(time[3..5])
      && DigitsValue(time[..2]) * 60 + DigitsValue(time[3..5]) == (-offsetMinutes) % 1440
  {
    var date := IsoDate(AddDays(d, (-offsetMinutes) / 1440));
    var time := IsoTime((-offsetMinutes) % 1440);
    JoinParts(date, "T", time);
    date + "T" + time
  }

  /** The pieces of `a + b + c` are found again at their offsets. */
  lemma JoinParts(a: string, b: string, c: string)
    ensures (a + b + c)[..|a|] == a && (a + b + c)[|a|..|a| + |b|] == b && (a + b + c)[|a| + |b|..] == c
  {
  }

  /** The date part of `toISOString()` for the UTC day `u`: the year field, then `-mm-dd`. */
  function IsoDate(u: CDate): (r: string)
    requires ValidDate(u)
    ensures |r| == |IsoYear(u.y)| + 6 && r[..|r| - 6] == IsoYear(u.y)
    ensures var md := r[|r| - 6..];
      && md[0] == '-' && md[3] == '-' && AllDigits(md[1..3]) && AllDigits(md[4..])
      && DigitsValue(md[1..3]) == u.m && DigitsValue(md[4..]) == u.d
  {
    Pad2Digits(u.m);
    Pad2Digits(u.d);
    var md := "-" + Pad2(u.m) + "-" + Pad2(u.d);
    JoinParts("-" + Pad2(u.m), "-", Pad2(u.d));
    JoinParts("-", Pad2(u.m), "");
    assert md[1..3] == Pad2(u.m);
    JoinParts(IsoYear(u.y), md, "");
    IsoYear(u.y) + md
  }

  /** For the years 0..9999 the ISO date part matches `^\d{4}-\d{2}-\d{2}$` and its groups are the day. */
  lemma IsoDatePattern(u: CDate)
    requires ValidDate(u) && 0 <= u.y <= 9999
    ensures IsYmdText(IsoDate(u)) && Captured(IsoDate(u)) == u
  {
    var r := IsoDate(u);
    var md := r[|r| - 6..];
    assert |r| == 10 && r[..4] == IsoYear(u.y);
    assert r[4] == md[0] && r[7] == md[3];
    assert r[5..7] == md[1..3] && r[8..] == md[4..];
  }

  /** The time part of `toISOString()` at `minutes` past UTC midnight, with zero seconds. */
  function IsoTime(minutes: nat): (r: string)
    requires minutes < 1440
    ensures |r| == 13 && r[2] == ':' && r[5..] == ":00.000Z"
    ensures AllDigits(r[..2]) && AllDigits(r[3..5]) && DigitsValue(r[..2]) < 24 && DigitsValue(r[3..5]) < 60
    ensures DigitsValue(r[..2]) * 60 + DigitsValue(r[3..5]) == minutes
  {
    Pad2Digits(minutes / 60);
    Pad2Digits(minutes % 60);
    var r := Pad2(minutes / 60) + ":" + Pad2(minutes % 60) + ":00.000Z";
    assert r[..2] == Pad2(minutes / 60) && r[3..5] == Pad2(minutes % 60);
    r
  }

  /** The UTC day and time of day that `toISOString()` writes are local midnight moved back by the offset. */
  lemma ToIsoStringInstant(d: CDate, offsetMinutes: int)
    requires 1 <= d.m <= 12
    ensures Ordinal(AddDays(d, (-offsetMinutes) / 1440)) * 1440 + (-offsetMinutes) % 1440 == Ordinal(d) * 1440 - offsetMinutes
  {
    var q := (-offsetMinutes) / 1440;
    AddDaysOrdinal(d, q);
    assert Ordinal(AddDays(d, q)) * 1440 == Ordinal(d) * 1440 + q * 1440;
  }

  /** In the years 1000..9999 the ISO date part is the local key of the same day. */
  lemma IsoDateIsKey(u: CDate)
    requires ValidDate(u) && 1000 <= u.y <= 9999
    ensures IsoDate(u) == FormatKey(u)
  {
    IsoDatePattern(u);
    FormatCaptured(IsoDate(u));
  }

  /** The memo as written, with the zone's offset as a parameter. */
  function TimelineAsWritten(tasks: seq<Task>, today: CDate, offsetMinutes: int, locale: CDate -> string, engine: EngineParse): (r: seq<Bucket>)
    ensures |r| == TimelineWindowDays
  {
    seq(TimelineWindowDays, (i: int) requires 0 <= i < TimelineWindowDays =>
      BucketOf(tasks, WindowDay(today, i), IsoLocalKey(Some(ToIsoString(WindowDay(today, i), offsetMinutes)), engine), locale, engine))
  }

  /** For a day of the years 1000..9999 the timestamp's key is the key of its UTC day. */
  lemma IsoKeyIsUtcDay(d: CDate, offsetMinutes: int, engine: EngineParse)
    requires ValidDate(d)
    requires 1000 <= AddDays(d, (-offsetMinutes) / 1440).y <= 9999
    ensures IsoLocalKey(Some(ToIsoString(d, offsetMinutes)), engine) == Some(FormatKey(AddDays(d, (-offsetMinutes) / 1440)))
  {
    var u := AddDays(d, (-offsetMinutes) / 1440);
    IsoDateIsKey(u);
    FormatKeyShape(u);
    TimestampParsesAsDate(FormatKey(u), IsoTime((-offsetMinutes) % 1440), engine);
    ParseFormatKey(u, engine);
  }

  /**
   * In a zone ahead of UTC (offset 1..1439 minutes) every bucket carries the key of the
   * day BEFORE its own and counts the tasks due that day; a task due today is not counted
   * in today's bucket.
   */
  lemma TimelineAsWrittenShifted(tasks: seq<Task>, today: CDate, offsetMinutes: int, locale: CDate -> string, engine: EngineParse)
    requires ValidDate(today) && 1001 <= today.y <= 9998
    requires 0 < offsetMinutes < 1440
    ensures var r := TimelineAsWritten(tasks, today, offsetMinutes, locale, engine);
      forall i :: 0 <= i < 7 ==>
        && r[i].date == Some(FormatKey(WindowDay(today, i - 1)))
        && r[i].date != TimelineData(tasks, today, locale, engine)[i].date
        && r[i].count == |Where(tasks, OpenDueOnDay(WindowDay(today, i - 1), engine))|
  {
    forall i | 0 <= i < 7
      ensures TimelineAsWritten(tasks, today, offsetMinutes, locale, engine)[i].date == Some(FormatKey(WindowDay(today, i - 1)))
      ensures TimelineAsWritten(tasks, today, offsetMinutes, locale, engine)[i].count == |Where(tasks, OpenDueOnDay(WindowDay(today, i - 1), engine))|
      ensures TimelineAsWritten(tasks, today, offsetMinutes, locale, engine)[i].date != TimelineData(tasks, today, locale, engine)[i].date
    {
      ShiftedBucket(today, i, offsetMinutes, engine);
      CountByKeyIsCountByDay(tasks, WindowDay(today, i - 1), engine);
    }
  }

  /** Ahead of UTC the timestamp of window day `i` is keyed as window day `i - 1`, whose key differs. */
  lemma ShiftedBucket(today: CDate, i: nat, offsetMinutes: int, engine: EngineParse)
    requires ValidDate(today) && 1001 <= today.y <= 9998 && i < TimelineWindowDays
    requires 0 < offsetMinutes < 1440
    ensures ValidDate(WindowDay(today, i - 1)) && 1000 <= WindowDay(today, i - 1).y <= 9999
    ensures IsoLocalKey(Some(ToIsoString(WindowDay(today, i), offsetMinutes)), engine) == Some(FormatKey(WindowDay(today, i - 1)))
    ensures FormatKey(WindowDay(today, i - 1)) != FormatKey(WindowDay(today, i))
  {
    var d := WindowDay(today, i);
    var e := WindowDay(today, i - 1);
    PreviousWindowDay(today, i);
    WindowDayYear(today, i);
    assert (-offsetMinutes) / 1440 == -1;
    IsoKeyIsUtcDay(d, offsetMinutes, engine);
    if FormatKey(e) == FormatKey(d) {
      FormatKeyInjective(e, d);
    }
  }

  /** The day before window day `i` is window day `i - 1`: a real day of the years 1000..9999, other than day `i`. */
  lemma PreviousWindowDay(today: CDate, i: nat)
    requires ValidDate(today) && 1001 <= today.y <= 9998 && i < TimelineWindowDays
    ensures ValidDate(WindowDay(today, i - 1)) && 1000 <= WindowDay(today, i - 1).y <= 9999
    ensures AddDays(WindowDay(today, i), -1) == WindowDay(today, i - 1)
    ensures WindowDay(today, i - 1) != WindowDay(today, i)
  {
    var d := WindowDay(today, i);
    var e := WindowDay(today, i - 1);
    assert LocalMidnight(today) == today;
    AddDaysOrdinal(today, i);
    AddDaysOrdinal(today, i - 1);
    AddDaysOrdinal(d, -1);
    OrdinalOrder(AddDays(d, -1), e);
    YearsNear(today, e);
  }

  lemma BucketBehindUtc(tasks: seq<Task>, today: CDate, i: nat, offsetMinutes: int, engine: EngineParse)
    requires ValidDate(today) && 1000 <= today.y <= 9998 && i < TimelineWindowDays
    requires -1440 < offsetMinutes <= 0
    ensures IsoLocalKey(Some(ToIsoString(WindowDay(today, i), offsetMinutes)), engine) == Some(FormatKey(WindowDay(today, i)))
  {
    var d := WindowDay(today, i);
    assert (-offsetMinutes) / 1440 == 0;
    WindowDayYear(today, i);
    IsoKeyIsUtcDay(d, offsetMinutes, engine);
  }

  /** In UTC and in zones behind it (offset -1439..0 minutes) the memo as written is the timeline. */
  lemma TimelineAsWrittenBehindUtc(tasks: seq<Task>, today: CDate, offsetMinutes: int, locale: CDate -> string, engine: EngineParse)
    requires ValidDate(today) && 1000 <= today.y <= 9998
    requires -1440 < offsetMinutes <= 0
    ensures TimelineAsWritten(tasks, today, offsetMinutes, locale, engine) == TimelineData(tasks, today, locale, engine)
  {
    var r := TimelineAsWritten(tasks, today, offsetMinutes, locale, engine);
    var c := TimelineData(tasks, today, locale, engine);
    forall i | 0 <= i < 7 ensures r[i] == c[i] {
      BucketBehindUtc(tasks, today, i, offsetMinutes, engine);
    }
  }

  /** The key of 2024-03-15. */
  lemma KeyOfMarch15()
    ensures FormatKey(CDate(2024, 3, 15)) == "2024-03-15"
  {
    assert NatToString(2024) == "2024" by {
      assert NatToString(2) == "2";
      assert NatToString(20) == "20";
      assert NatToString(202) == "202";
    }
    assert Pad2(3) == "03";
    assert Pad2(15) == "15" by {
      assert NatToString(1) == "1";
    }
  }

  /**
   * Ahead of UTC, an open task due today is missing from today's bucket of the memo as
   * written, while the local timeline counts it there.
   */
  lemma {:induction false} TimelineAsWrittenMissesToday(t: Task, today: CDate, offsetMinutes: int, locale: CDate -> string, engine: EngineParse)
    requires ValidDate(today) && 1001 <= today.y <= 9998
    requires 0 < offsetMinutes < 1440
    requires t.status != "done" && ParseDateSafe(t.dueDate, engine) == Some(today)
    ensures TimelineAsWritten([t], today, offsetMinutes, locale, engine)[0].count == 0
    ensures TimelineData([t], today, locale, engine)[0].count == 1
  {
    var d, e := WindowDay(today, 0), WindowDay(today, -1);
    assert LocalMidnight(today) == today;
    AddDaysOrdinal(today, -1);
    OrdinalOrder(e, today);
    TimelineMeaning([t], today, locale, engine);
    TimelineAsWrittenShifted([t], today, offsetMinutes, locale, engine);
    assert OpenDueOnDay(d, engine)(t);
    assert Where([t], OpenDueOnDay(d, engine)) == [t];
    assert !OpenDueOnDay(e, engine)(t);
    assert Where([t], OpenDueOnDay(e, engine)) == [];
  }

  /** The open task due 2024-03-15 of the example below. */
  function ExampleTask(): Task {
    Task(1, "Report", None, Some("2024-03-15"), "pending")
  }

  /** On 2024-03-15, one hour ahead of UTC, the task due that day is not in today's bucket. */
  lemma TimelineAsWrittenExample(locale: CDate -> string, engine: EngineParse)
    ensures TimelineAsWritten([ExampleTask()], CDate(2024, 3, 15), 60, locale, engine)[0].count == 0
    ensures TimelineData([ExampleTask()], CDate(2024, 3, 15), locale, engine)[0].count == 1
  {
    KeyOfMarch15();
    ParseFormatKey(CDate(2024, 3, 15), engine);
    TimelineAsWrittenMissesToday(ExampleTask(), CDate(2024, 3, 15), 60, locale, engine);
  }
}
