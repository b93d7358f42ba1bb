/** The banking calendar's counting loops (app/domain/calendar.py). A date is its day number. */
module Calendar {
  import opened Prelude

  datatype DayKey = DayKey(currency: Currency, rail: Id, date: int)

  datatype CalendarError = NoBusinessDay | NegativeCount | EndPrecedesStart

  /** The loaded rows, seen from one currency and rail. */
  datatype View = View(days: map<DayKey, bool>, currency: Currency, rail: Id)

  const LOOKAHEAD := 30

  /** Python's `date.weekday()`: Monday is 0. */
  function Weekday(d: int): int {
    (d + 6) % 7
  }

  predicate IsBusinessDay(v: View, d: int) {
    var key := DayKey(v.currency, v.rail, d);
    if key in v.days then v.days[key] else Weekday(d) < 5
  }

  /** A loaded row decides its day, holiday or opened weekend alike; without one Monday to Friday are open. */
  lemma LoadedRowWins(v: View, d: int)
    ensures DayKey(v.currency, v.rail, d) in v.days ==>
              (IsBusinessDay(v, d) <==> v.days[DayKey(v.currency, v.rail, d)])
    ensures DayKey(v.currency, v.rail, d) !in v.days ==>
              (IsBusinessDay(v, d) <==> (d - MONDAY) % 7 < 5)
  {
  }

  /** 1 January 2024, a Monday, as its day number. */
  const MONDAY := 738_886

  /** The first business day among `tries` days from `d`. */
  function FirstOpen(v: View, d: int, tries: nat): Option<int>
    decreases tries
  {
    if tries == 0 then None else if IsBusinessDay(v, d) then Some(d) else FirstOpen(v, d + 1, tries - 1)
  }

  function Next(v: View, d: int): Option<int> {
    FirstOpen(v, d, LOOKAHEAD + 1)
  }

  function Add(v: View, d: int, n: nat): Option<int> {
    if n == 0 then Next(v, d)
    else match Add(v, d, n - 1)
         case None => None
         case Some(x) => Next(v, x + 1)
  }

  /** Business days in `[start, end)`. */
  function Count(v: View, start: int, end: int): nat
    decreases end - start
  {
    if end <= start then 0 else Count(v, start, end - 1) + if IsBusinessDay(v, end - 1) then 1 else 0
  }

  // ---------------------------------------------------------------- the loops

  method NextBusinessDay(v: View, day: int) returns (r: Result<int, CalendarError>)
    ensures r == if Next(v, day).Some? then Ok(Next(v, day).value) else Err(NoBusinessDay)
    ensures r.Err? <==> forall d :: day <= d <= day + 30 ==> !IsBusinessDay(v, d)
    ensures r.Ok? ==> day <= r.value <= day + 30 && IsBusinessDay(v, r.value)
    ensures r.Ok? ==> forall d :: day <= d < r.value ==> !IsBusinessDay(v, d)
  {
    FirstOpenExact(v, day, LOOKAHEAD + 1, if Next(v, day).Some? then Next(v, day).value else day);
    var candidate := day;
    for i := 0 to LOOKAHEAD + 1
      invariant candidate == day + i
      invariant Next(v, day) == FirstOpen(v, candidate, LOOKAHEAD + 1 - i)
    {
      if IsBusinessDay(v, candidate) {
        return Ok(candidate);
      }
      candidate := candidate + 1;
    }
    r := Err(NoBusinessDay);
  }

  method AddBusinessDays(v: View, day: int, count: int) returns (r: Result<int, CalendarError>)
    ensures count < 0 ==> r == Err(NegativeCount)
    ensures count >= 0 ==> r == if Add(v, day, count).Some? then Ok(Add(v, day, count).value) else Err(NoBusinessDay)
  {
    if count < 0 {
      return Err(NegativeCount);
    }
    r := NextBusinessDay(v, day);
    if r.Err? {
      FailsOnwards(v, day, 0, count);
      return;
    }
    var cursor := r.value;
    for i := 0 to count
      invariant Add(v, day, i) == Some(cursor)
    {
      r := NextBusinessDay(v, cursor + 1);
      if r.Err? {
        FailsOnwards(v, day, i + 1, count);
        return;
      }
      cursor := r.value;
    }
    r := Ok(cursor);
  }

  method BusinessDaysBetween(v: View, start: int, end: int) returns (r: Result<nat, CalendarError>)
    ensures r == if end < start then Err(EndPrecedesStart) else Ok(Count(v, start, end))
  {
    if end < start {
      return Err(EndPrecedesStart);
    }
    var count, cursor := 0, start;
    while cursor < end
      invariant start <= cursor <= end
      invariant count == Count(v, start, cursor)
    {
      if IsBusinessDay(v, cursor) {
        count := count + 1;
      }
      cursor := cursor + 1;
    }
    r := Ok(count);
  }

  // ---------------------------------------------------------------- what they compute

  predicate ClosedUpTo(v: View, from: int, to: int) {
    forall y :: from <= y < to ==> !IsBusinessDay(v, y)
  }

  lemma {:induction false} FirstOpenExact(v: View, d: int, tries: nat, x: int)
    ensures FirstOpen(v, d, tries) == Some(x) <==> d <= x < d + tries && IsBusinessDay(v, x) && ClosedUpTo(v, d, x)
    ensures FirstOpen(v, d, tries).None? <==> ClosedUpTo(v, d, d + tries)
    decreases tries
  {
    if tries > 0 {
      FirstOpenExact(v, d + 1, tries - 1, x);
    }
  }

  lemma {:induction false} FailsOnwards(v: View, d: int, n: nat, m: nat)
    requires n <= m && Add(v, d, n).None?
    ensures Add(v, d, m).None?
  {
    if n < m { FailsOnwards(v, d, n, m - 1); }
  }

  lemma {:induction false} CountSplit(v: View, a: int, b: int, c: int)
    requires a <= b <= c
    ensures Count(v, a, c) == Count(v, a, b) + Count(v, b, c)
    decreases c - b
  {
    if b < c { CountSplit(v, a, b, c - 1); }
  }

  lemma {:induction false} CountClosed(v: View, a: int, b: int)
    requires a <= b
    ensures Count(v, a, b) == 0 <==> ClosedUpTo(v, a, b)
    decreases b - a
  {
    if a < b { CountClosed(v, a, b - 1); }
  }

  /** The day `Add` lands on is a business day, and exactly `n` business days lie before it. */
  lemma {:induction false} AddCounts(v: View, d: int, n: nat)
    requires Add(v, d, n).Some?
    ensures var x := Add(v, d, n).value; d <= x && IsBusinessDay(v, x) && Count(v, d, x) == n
  {
    var x := Add(v, d, n).value;
    if n == 0 {
      FirstOpenExact(v, d, LOOKAHEAD + 1, x);
      CountClosed(v, d, x);
    } else {
      AddCounts(v, d, n - 1);
      var p := Add(v, d, n - 1).value;
      FirstOpenExact(v, p + 1, LOOKAHEAD + 1, x);
      CountClosed(v, p + 1, x);
      CountSplit(v, d, p + 1, x);
    }
  }

  /** Closed for one day more than the lookahead, from `y`. */
  predicate ShutFrom(v: View, y: int) {
    ClosedUpTo(v, y, y + LOOKAHEAD + 1)
  }

  /** A stretch of more than `LOOKAHEAD` closed days inside `[d, x)`. */
  ghost predicate LongClosure(v: View, d: int, x: int) {
    exists y :: d <= y && y + LOOKAHEAD < x && ShutFrom(v, y)
  }

  lemma NextReaches(v: View, d: int, x: int)
    requires d <= x && IsBusinessDay(v, x) && ClosedUpTo(v, d, x)
    ensures Next(v, d) == Some(x) <==> !LongClosure(v, d, x)
  {
    FirstOpenExact(v, d, LOOKAHEAD + 1, x);
    if x > d + LOOKAHEAD {
      assert ShutFrom(v, d);
    }
  }

  /** The last business day before `x`, when `[d, x)` has one. */
  lemma {:induction false} LastOpen(v: View, d: int, x: int) returns (p: int)
    requires d <= x && Count(v, d, x) > 0
    ensures d <= p < x && IsBusinessDay(v, p) && ClosedUpTo(v, p + 1, x) && Count(v, d, p) == Count(v, d, x) - 1
    decreases x - d
  {
    if IsBusinessDay(v, x - 1) { p := x - 1; } else { p := LastOpen(v, d, x - 1); }
  }

  /**
   `Add` without its loop: it finds `x` exactly when `x` is a business day with `n` of them from
   `d` before it and no closure on the way outlasts the lookahead.
   */
  lemma {:induction false} AddExact(v: View, d: int, n: nat, x: int)
    ensures Add(v, d, n) == Some(x) <==> d <= x && IsBusinessDay(v, x) && Count(v, d, x) == n && !LongClosure(v, d, x)
    decreases n
  {
    if Add(v, d, n) == Some(x) {
      AddCounts(v, d, n);
    }
    if d <= x && IsBusinessDay(v, x) && Count(v, d, x) == n {
      if n == 0 {
        CountClosed(v, d, x);
        NextReaches(v, d, x);
      } else {
        var p := LastOpen(v, d, x);
        AddExact(v, d, n - 1, p);
        NextReaches(v, p + 1, x);
        ClosureSplits(v, d, p, x);
        if Add(v, d, n) == Some(x) {
          var q := Add(v, d, n - 1).value;
          AddCounts(v, d, n - 1);
          SameRank(v, d, p, q);
        }
      }
    }
  }

  lemma ClosureSplits(v: View, d: int, p: int, x: int)
    requires d <= p < x && IsBusinessDay(v, p)
    ensures LongClosure(v, d, x) <==> LongClosure(v, d, p) || LongClosure(v, p + 1, x)
  {
    if LongClosure(v, d, x) {
      var y :| d <= y && y + LOOKAHEAD < x && ShutFrom(v, y);
      assert y + LOOKAHEAD < p || p + 1 <= y;
    }
  }

  lemma SameRank(v: View, d: int, p: int, q: int)
    requires d <= p && d <= q && IsBusinessDay(v, p) && IsBusinessDay(v, q) && Count(v, d, p) == Count(v, d, q)
    ensures p == q
  {
    if p < q {
      CountSplit(v, d, p + 1, q);
    } else if q < p {
      CountSplit(v, d, q + 1, p);
    }
  }

  /** Adding in two goes is adding at once, failures included. */
  lemma {:induction false} AddComposes(v: View, d: int, m: nat, n: nat)
    ensures Add(v, d, m + n) == match Add(v, d, m) case None => None case Some(x) => Add(v, x, n)
  {
    if n == 0 {
      if Add(v, d, m).Some? { AddCounts(v, d, m); }
    } else {
      AddComposes(v, d, m, n - 1);
    }
  }

  // ---------------------------------------------------------------- with nothing loaded

  ghost predicate NoRows(v: View) {
    forall d :: DayKey(v.currency, v.rail, d) !in v.days
  }

  lemma WeekdayNext(d: int)
    ensures Weekday(d + 1) == if Weekday(d) == 6 then 0 else Weekday(d) + 1
  {
  }

  /** Without rows for the pair the lookahead is never exhausted: two days are always enough. */
  lemma NextWithoutRows(v: View, d: int)
    requires NoRows(v)
    ensures Next(v, d) == Some(if Weekday(d) < 5 then d else d + 7 - Weekday(d))
  {
    WeekdayNext(d);
    WeekdayNext(d + 1);
    if Weekday(d) >= 5 {
      assert Next(v, d) == FirstOpen(v, d + 1, LOOKAHEAD);
      assert Weekday(d) == 5 ==> FirstOpen(v, d + 1, LOOKAHEAD) == FirstOpen(v, d + 2, LOOKAHEAD - 1);
    }
  }

  /** Without rows every addition succeeds, and five business days are one week. */
  lemma {:induction false} WeekIsFiveDays(v: View, d: int, n: nat)
    requires NoRows(v)
    ensures Add(v, d, n).Some? && Add(v, d, n + 5) == Some(Add(v, d, n).value + 7)
  {
    AddWithoutRows(v, d, n);
    var x := Add(v, d, n).value;
    AddCounts(v, d, n);
    AddWithoutRows(v, d, n + 5);
    assert Weekday(x) < 5;
    WithoutRowsFive(v, x);
    AddComposes(v, d, n, 5);
  }

  lemma {:induction false} AddWithoutRows(v: View, d: int, n: nat)
    requires NoRows(v)
    ensures Add(v, d, n).Some?
  {
    if n == 0 { NextWithoutRows(v, d); } else {
      AddWithoutRows(v, d, n - 1);
      NextWithoutRows(v, Add(v, d, n - 1).value + 1);
    }
  }

  /** The weekday after weekday `x`. */
  function WeekdayAfter(x: int): int {
    if Weekday(x) == 4 then x + 3 else x + 1
  }

  lemma OneMoreWeekday(v: View, x: int, n: nat, y: int)
    requires NoRows(v) && Add(v, x, n) == Some(y) && Weekday(y) < 5
    ensures Add(v, x, n + 1) == Some(WeekdayAfter(y)) && Weekday(WeekdayAfter(y)) < 5
  {
    NextWithoutRows(v, y + 1);
    WeekdayNext(y);
    StepOn(y);
  }

  /** Five weekdays on is the same day next week. */
  lemma FiveOn(x: int)
    requires Weekday(x) < 5
    ensures WeekdayAfter(WeekdayAfter(WeekdayAfter(WeekdayAfter(WeekdayAfter(x))))) == x + 7
  {
    StepOn(x);
    StepOn(WeekdayAfter(x));
    StepOn(WeekdayAfter(WeekdayAfter(x)));
    StepOn(WeekdayAfter(WeekdayAfter(WeekdayAfter(x))));
  }

  lemma StepOn(x: int)
    requires Weekday(x) < 5
    ensures Weekday(WeekdayAfter(x)) == if Weekday(x) == 4 then 0 else Weekday(x) + 1
  {
    WeekdayNext(x);
    WeekdayNext(x + 1);
    WeekdayNext(x + 2);
  }

  lemma WithoutRowsFive(v: View, x: int)
    requires NoRows(v) && Weekday(x) < 5
    ensures Add(v, x, 5) == Some(x + 7)
  {
    NextWithoutRows(v, x);
    var x1 := WeekdayAfter(x);
    var x2 := WeekdayAfter(x1);
    var x3 := WeekdayAfter(x2);
    var x4 := WeekdayAfter(x3);
    OneMoreWeekday(v, x, 0, x);
    OneMoreWeekday(v, x, 1, x1);
    OneMoreWeekday(v, x, 2, x2);
    OneMoreWeekday(v, x, 3, x3);
    OneMoreWeekday(v, x, 4, x4);
    FiveOn(x);
  }
}
