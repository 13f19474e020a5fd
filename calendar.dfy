/** The working-day calendar of utils/date_utils.py.

    An instant is a whole number of seconds since 1970-01-01 00:00 (naive
    UTC, as every caller normalises its timestamps before asking). A day is
    named by its day number, the number of whole days since 1970-01-01, and a
    holiday registry lists day numbers. */
module Calendar {
  import opened Common

  const SecondsPerDay: int := 86400

  /** The day number of an instant; for a negative instant this is still
      the floor, as Python's date of a naive datetime is. */
  function DayOf(t: int): int
  {
    t / SecondsPerDay
  }

  lemma DayOfMonotone(a: int, b: int)
    requires a <= b
    ensures DayOf(a) <= DayOf(b)
  {
  }

  /** Python's `weekday()`: Monday is 0 and Sunday is 6. Day 0, 1970-01-01,
      was a Thursday. */
  function Weekday(day: int): (w: int)
    ensures 0 <= w < 7
  {
    (day + 3) % 7
  }

  /** `is_working_day`: not a Saturday or Sunday and not a listed holiday.
      Only the date of the instant is looked at. */
  predicate IsWorkingDay(holidays: set<int>, t: int)
  {
    Weekday(DayOf(t)) < 5 && DayOf(t) !in holidays
  }

  /** The instant the counting loops reach after `k` one-day steps from `s`. */
  function StepInstant(s: int, k: int): int
  {
    s + k * SecondsPerDay
  }

  /** The number of iterations of the loop of `working_days_between`: the
      number of k >= 0 with s + k days < e. */
  function Steps(s: int, e: int): (n: nat)
  {
    if s >= e then 0 else (e - s - 1) / SecondsPerDay + 1
  }

  /** The working days among the instants s, s + 1 day, ... that lie strictly
      before e: the start counts, the end instant does not. */
  function CountWorkingDays(holidays: set<int>, s: int, e: int): nat
    decreases e - s
  {
    if s >= e then 0
    else (if IsWorkingDay(holidays, s) then 1 else 0) + CountWorkingDays(holidays, s + SecondsPerDay, e)
  }

  /** A day is in the registry if some year's list holds it. */
  ghost predicate Listed(registry: Option<seq<seq<int>>>, day: int)
  {
    registry.Some? && exists y :: 0 <= y < |registry.value| && day in registry.value[y]
  }

  /** `_load_holidays`: the union of every year's list, or nothing when the
      registry file is absent (`None`). */
  method LoadHolidays(registry: Option<seq<seq<int>>>) returns (holidays: set<int>)
    ensures forall d :: d in holidays <==> Listed(registry, d)
  {
    if registry.None? {
      return {};
    }
    var years := registry.value;
    var all: seq<int> := [];
    for y := 0 to |years|
      invariant forall d :: d in all <==> exists k :: 0 <= k < y && d in years[k]
    {
      all := all + years[y];
    }
    holidays := set d | d in all;
  }

  /** `WorkingDayCalculator`: the holiday set is fixed when it is built. */
  class WorkingDayCalculator {
    const holidays: set<int>

    constructor (registry: Option<seq<seq<int>>>)
      ensures forall d :: d in holidays <==> Listed(registry, d)
    {
      var h := LoadHolidays(registry);
      holidays := h;
    }

    /** `working_days_between`: 0 when start is after end, otherwise one
        step per day while the current instant is before end. */
    method WorkingDaysBetween(start: int, end: int) returns (n: nat)
      ensures n == CountWorkingDays(holidays, start, end)
    {
      if start > end {
        return 0;
      }
      n := 0;
      var current := start;
      while current < end
        invariant n + CountWorkingDays(holidays, current, end) == CountWorkingDays(holidays, start, end)
        decreases end - current
      {
        if IsWorkingDay(holidays, current) {
          n := n + 1;
        }
        current := current + SecondsPerDay;
      }
    }

    /** `add_working_days`: step one day first, then count it if it is a
        working day, until `n` have been counted. The result is the n-th
        working day after `start`. */
    method AddWorkingDays(start: int, n: int) returns (r: int)
      ensures n <= 0 ==> r == start
      ensures n >= 1 ==> start < r && (r - start) % SecondsPerDay == 0
      ensures n >= 1 ==> IsWorkingDay(holidays, r)
      ensures n >= 1 ==> CountWorkingDays(holidays, start + SecondsPerDay, r + SecondsPerDay) == n
    {
      r := start;
      var added := 0;
      while added < n
        invariant 0 <= added && (n >= 0 ==> added <= n)
        invariant n <= 0 ==> r == start
        invariant start <= r && (r - start) % SecondsPerDay == 0
        invariant CountWorkingDays(holidays, start + SecondsPerDay, r + SecondsPerDay) == added
        invariant n >= 1 && added == n ==> IsWorkingDay(holidays, r)
        decreases n - added, HolidaysAfter(holidays, DayOf(r)), 6 - Weekday(DayOf(r))
      {
        ghost var before := r;
        NextDay(start, r);
        r := r + SecondsPerDay;
        CountExtend(holidays, start + SecondsPerDay, r);
        if IsWorkingDay(holidays, r) {
          added := added + 1;
        } else {
          NonWorkingStepDecreases(holidays, DayOf(before));
        }
      }
    }
  }

  /** The holidays later than a given day: a finite, shrinking supply. */
  ghost function HolidaysAfter(holidays: set<int>, day: int): nat
  {
    |set d | d in holidays && d > day|
  }

  /** One day later is the next day number, still a whole number of days from `start`. */
  lemma NextDay(start: int, t: int)
    requires (t - start) % SecondsPerDay == 0
    ensures (t + SecondsPerDay - start) % SecondsPerDay == 0
    ensures DayOf(t + SecondsPerDay) == DayOf(t) + 1
  {
  }

  lemma WeekdayNext(day: int)
    ensures Weekday(day + 1) == if Weekday(day) == 6 then 0 else Weekday(day) + 1
  {
  }

  /** Stepping onto a day that is not a working day uses up a holiday or
      moves towards the end of a weekend: the measure `add_working_days`
      needs to terminate. */
  lemma NonWorkingStepDecreases(holidays: set<int>, day: int)
    requires Weekday(day + 1) >= 5 || day + 1 in holidays
    ensures HolidaysAfter(holidays, day + 1) < HolidaysAfter(holidays, day)
         || (HolidaysAfter(holidays, day + 1) == HolidaysAfter(holidays, day)
             && 6 - Weekday(day + 1) < 6 - Weekday(day))
  {
    var now, next := set d | d in holidays && d > day, set d | d in holidays && d > day + 1;
    assert next <= now;
    WeekdayNext(day);
    if day + 1 in holidays {
      assert day + 1 in now;
      assert next <= now - {day + 1};
      SubsetSize(next, now - {day + 1});
    } else {
      assert next == now;
    }
  }

  lemma SubsetSize(a: set<int>, b: set<int>)
    requires a <= b
    ensures |a| <= |b|
  {
    assert b == a + (b - a);
  }

  /** Extending the range by the day at its end adds that day if it is a
      working day. */
  lemma {:induction false} CountExtend(holidays: set<int>, a: int, b: int)
    requires a <= b && (b - a) % SecondsPerDay == 0
    ensures CountWorkingDays(holidays, a, b + SecondsPerDay)
         == CountWorkingDays(holidays, a, b) + (if IsWorkingDay(holidays, b) then 1 else 0)
    decreases b - a
  {
    if a < b {
      CountExtend(holidays, a + SecondsPerDay, b);
    }
  }

  lemma StepsNext(s: int, e: int)
    requires s < e
    ensures Steps(s + SecondsPerDay, e) == Steps(s, e) - 1
  {
  }

  /** `working_days_between` counts at most one per loop iteration, and is 0
      when the start is not before the end. */
  lemma {:induction false} CountWorkingDaysBounds(holidays: set<int>, s: int, e: int)
    ensures CountWorkingDays(holidays, s, e) <= Steps(s, e)
    ensures s >= e ==> CountWorkingDays(holidays, s, e) == 0
    decreases e - s
  {
    if s < e {
      StepsNext(s, e);
      CountWorkingDaysBounds(holidays, s + SecondsPerDay, e);
    }
  }

  /** The instants the loop of `working_days_between` visits. */
  function Visited(s: int, e: int): (v: seq<int>)
    ensures |v| == Steps(s, e)
  {
    seq(Steps(s, e), k requires 0 <= k => StepInstant(s, k))
  }

  lemma {:induction false} CountIsCountOverVisited(holidays: set<int>, s: int, e: int)
    ensures CountWorkingDays(holidays, s, e) == Count(Visited(s, e), t => IsWorkingDay(holidays, t))
    decreases e - s
  {
    if s < e {
      StepsNext(s, e);
      CountIsCountOverVisited(holidays, s + SecondsPerDay, e);
      var v, w := Visited(s, e), Visited(s + SecondsPerDay, e);
      assert v[1..] == w by {
        forall k | 0 <= k < |w| ensures v[1..][k] == w[k] {
          assert StepInstant(s, k + 1) == StepInstant(s + SecondsPerDay, k);
        }
      }
    } else {
      assert Visited(s, e) == [];
    }
  }

  /** The result of `working_days_between(s, e)` is the number of k >= 0
      with s + k days before e and s + k days a working day. */
  lemma WorkingDaysAreVisitedWorkingDays(holidays: set<int>, s: int, e: int)
    ensures CountWorkingDays(holidays, s, e)
         == |set k | 0 <= k < Steps(s, e) && IsWorkingDay(holidays, StepInstant(s, k))|
  {
    var p := t => IsWorkingDay(holidays, t);
    CountIsCountOverVisited(holidays, s, e);
    CountIsPositionsSize(Visited(s, e), p);
    assert Positions(Visited(s, e), p)
        == set k | 0 <= k < Steps(s, e) && IsWorkingDay(holidays, StepInstant(s, k));
  }

  /** From the result r of `add_working_days(s, n)`, `working_days_between(s, r)`
      gives back n only when s is itself a working day; from a weekend or a
      holiday it gives n - 1. */
  lemma AddThenCountBetween(holidays: set<int>, s: int, n: int, r: int)
    requires n >= 1 && s < r && (r - s) % SecondsPerDay == 0 && IsWorkingDay(holidays, r)
    requires CountWorkingDays(holidays, s + SecondsPerDay, r + SecondsPerDay) == n
    ensures CountWorkingDays(holidays, s, r) == if IsWorkingDay(holidays, s) then n else n - 1
  {
    CountExtend(holidays, s, r);
  }

  /** Monday 2025-01-06 (day 20094) to Friday 2025-01-10 counts Monday to
      Thursday. */
  lemma MondayToFridayIsFour(holidays: set<int>)
    requires 20094 !in holidays && 20095 !in holidays && 20096 !in holidays && 20097 !in holidays
    ensures CountWorkingDays(holidays, 20094 * SecondsPerDay, 20098 * SecondsPerDay) == 4
  {
    var monday := 20094 * SecondsPerDay;
    assert Weekday(20094) == 0;
    assert CountWorkingDays(holidays, monday + 4 * SecondsPerDay, 20098 * SecondsPerDay) == 0;
    assert CountWorkingDays(holidays, monday + 3 * SecondsPerDay, 20098 * SecondsPerDay) == 1;
    assert CountWorkingDays(holidays, monday + 2 * SecondsPerDay, 20098 * SecondsPerDay) == 2;
    assert CountWorkingDays(holidays, monday + SecondsPerDay, 20098 * SecondsPerDay) == 3;
  }
}
