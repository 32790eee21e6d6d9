/**
 * The installation-date picker: the weekdays of the next two weeks that the form
 * offers, and the toggle that selects or deselects one of them.
 */
module InstallDates {

  // ---------------------------------------------------------------------------
  // toggleDate

  /** `dates.filter(d => d !== date)`. */
  function Remove(dates: seq<string>, date: string): (r: seq<string>)
    ensures date !in r
    ensures forall x :: x in r <==> x in dates && x != date
  {
    if dates == [] then []
    else (if dates[0] == date then [] else [dates[0]]) + Remove(dates[1..], date)
  }

  /**
   * `toggleDate`: a selected date is removed, any other is appended at the end; either
   * way the date's selection flips and no other date's does.
   */
  function ToggleDate(selected: seq<string>, date: string): (r: seq<string>)
    ensures date in r <==> date !in selected
    ensures forall x :: x != date ==> (x in r <==> x in selected)
  {
    if date in selected then Remove(selected, date) else selected + [date]
  }

  /** A list without the date is its own `Remove`. */
  lemma {:induction false} RemoveAbsent(dates: seq<string>, date: string)
    requires date !in dates
    ensures Remove(dates, date) == dates
  {
    if dates != [] {
      RemoveAbsent(dates[1..], date);
      assert [dates[0]] + dates[1..] == dates;
    }
  }

  lemma {:induction false} RemoveConcat(a: seq<string>, b: seq<string>, date: string)
    ensures Remove(a + b, date) == Remove(a, date) + Remove(b, date)
  {
    if a == [] {
      assert a + b == b;
    } else {
      assert (a + b)[0] == a[0] && (a + b)[1..] == a[1..] + b;
      RemoveConcat(a[1..], b, date);
    }
  }

  /**
   * The other selected dates keep their order: leaving the toggled date aside, the
   * list is the same before and after.
   */
  lemma ToggleKeepsOthers(selected: seq<string>, date: string)
    ensures Remove(ToggleDate(selected, date), date) == Remove(selected, date)
  {
    if date in selected {
      RemoveAbsent(Remove(selected, date), date);
    } else {
      RemoveConcat(selected, [date], date);
      assert Remove([date], date) == [];
    }
  }

  /** A date that was not selected is appended after all the others. */
  lemma ToggleAppends(selected: seq<string>, date: string)
    requires date !in selected
    ensures ToggleDate(selected, date) == selected + [date]
    ensures |ToggleDate(selected, date)| == |selected| + 1
  {
  }

  /** No date appears twice. */
  predicate NoDuplicates(dates: seq<string>)
  {
    forall i, j :: 0 <= i < j < |dates| ==> dates[i] != dates[j]
  }

  lemma {:induction false} RemoveNoDuplicates(dates: seq<string>, date: string)
    requires NoDuplicates(dates)
    ensures NoDuplicates(Remove(dates, date))
  {
    if dates != [] {
      assert NoDuplicates(dates[1..]) by {
        forall i, j | 0 <= i < j < |dates| - 1
          ensures dates[1..][i] != dates[1..][j]
        {
          assert dates[1..][i] == dates[i + 1] && dates[1..][j] == dates[j + 1];
        }
      }
      RemoveNoDuplicates(dates[1..], date);
      assert dates[0] !in dates[1..];
    }
  }

  /** Toggling never makes a date appear twice. */
  lemma ToggleNoDuplicates(selected: seq<string>, date: string)
    requires NoDuplicates(selected)
    ensures NoDuplicates(ToggleDate(selected, date))
  {
    if date in selected {
      RemoveNoDuplicates(selected, date);
    }
  }

  /** Selecting and deselecting a date restores the selection. */
  lemma ToggleTwice(selected: seq<string>, date: string)
    requires date !in selected
    ensures ToggleDate(ToggleDate(selected, date), date) == selected
  {
    RemoveConcat(selected, [date], date);
    RemoveAbsent(selected, date);
    assert Remove([date], date) == [];
  }

  // ---------------------------------------------------------------------------
  // getValidDates

  /** `getDay()` of the day `offset` days after a day whose `getDay()` is `todayWeekday` (0 is Sunday). */
  function DayOfWeek(todayWeekday: nat, offset: nat): nat
  {
    (todayWeekday + offset) % 7
  }

  /** Monday to Friday. */
  predicate IsWorkday(dayOfWeek: nat) { 1 <= dayOfWeek <= 5 }

  /** The offsets `lo .. hi - 1` whose day is a workday, in increasing order. */
  function WorkdaysBetween(todayWeekday: nat, lo: nat, hi: nat): seq<nat>
    decreases hi
  {
    if hi <= lo then []
    else WorkdaysBetween(todayWeekday, lo, hi - 1) + (if IsWorkday(DayOfWeek(todayWeekday, hi - 1)) then [hi - 1] else [])
  }

  /** How many days ahead the form offers: tomorrow up to the same day two weeks later. */
  const Horizon: nat := 14

  /**
   * The loop of `getValidDates`: walks tomorrow through the day two weeks from today and
   * keeps the workdays, as offsets in days from today.
   */
  method ValidDateOffsets(todayWeekday: nat) returns (dates: seq<nat>)
    requires todayWeekday < 7
    ensures dates == Offered(todayWeekday)
  {
    dates := [];
    var current := 1;
    while current <= Horizon
      invariant 1 <= current <= Horizon + 1
      invariant dates == WorkdaysBetween(todayWeekday, 1, current)
    {
      var dayOfWeek := DayOfWeek(todayWeekday, current);
      if dayOfWeek >= 1 && dayOfWeek <= 5 {
        dates := dates + [current];
      }
      current := current + 1;
    }
  }

  /** An offset is listed exactly when it lies in the range and falls on a workday. */
  lemma {:induction false} WorkdaysMembers(w: nat, lo: nat, hi: nat, k: nat)
    ensures k in WorkdaysBetween(w, lo, hi) <==> lo <= k < hi && IsWorkday(DayOfWeek(w, k))
    decreases hi
  {
    if hi > lo {
      WorkdaysMembers(w, lo, hi - 1, k);
    }
  }

  /** The offsets are listed in strictly increasing order, so no day is offered twice. */
  lemma {:induction false} WorkdaysIncreasing(w: nat, lo: nat, hi: nat)
    ensures forall i, j :: 0 <= i < j < |WorkdaysBetween(w, lo, hi)| ==>
              WorkdaysBetween(w, lo, hi)[i] < WorkdaysBetween(w, lo, hi)[j]
    decreases hi
  {
    if hi > lo {
      var prev := WorkdaysBetween(w, lo, hi - 1);
      WorkdaysIncreasing(w, lo, hi - 1);
      forall i | 0 <= i < |prev|
        ensures prev[i] < hi - 1
      {
        WorkdaysMembers(w, lo, hi - 1, prev[i]);
      }
    }
  }

  /** Splitting a range of days splits the list. */
  lemma {:induction false} WorkdaysSplit(w: nat, lo: nat, mid: nat, hi: nat)
    requires lo <= mid <= hi
    ensures WorkdaysBetween(w, lo, hi) == WorkdaysBetween(w, lo, mid) + WorkdaysBetween(w, mid, hi)
    decreases hi
  {
    if hi > mid {
      WorkdaysSplit(w, lo, mid, hi - 1);
    }
  }

  /** 1 for a workday, 0 for a weekend day. */
  function WorkdayCount(d: nat): nat
  {
    if IsWorkday(d % 7) then 1 else 0
  }

  lemma WorkdaysLength(w: nat, lo: nat, hi: nat)
    requires lo < hi
    ensures |WorkdaysBetween(w, lo, hi)| == |WorkdaysBetween(w, lo, hi - 1)| + WorkdayCount(w + hi - 1)
  {
  }

  /** The day after a day of the week. */
  lemma NextDay(d: nat)
    ensures (d + 1) % 7 == if d % 7 == 6 then 0 else d % 7 + 1
  {
  }

  /** Seven consecutive days hold five workdays, whichever day they start on. */
  lemma WeekHasFive(d: nat)
    ensures WorkdayCount(d) + WorkdayCount(d + 1) + WorkdayCount(d + 2) + WorkdayCount(d + 3)
            + WorkdayCount(d + 4) + WorkdayCount(d + 5) + WorkdayCount(d + 6) == 5
  {
    NextDay(d);
    NextDay(d + 1);
    NextDay(d + 2);
    NextDay(d + 3);
    NextDay(d + 4);
    NextDay(d + 5);
  }

  /** Any week of offsets lists five days. */
  lemma WeekOfWorkdays(w: nat, lo: nat)
    ensures |WorkdaysBetween(w, lo, lo + 7)| == 5
  {
    var d := w + lo;
    var c0, c1, c2, c3 := WorkdayCount(d), WorkdayCount(d + 1), WorkdayCount(d + 2), WorkdayCount(d + 3);
    var c4, c5, c6 := WorkdayCount(d + 4), WorkdayCount(d + 5), WorkdayCount(d + 6);
    WeekHasFive(d);
    WorkdaysLength(w, lo, lo + 1);
    assert |WorkdaysBetween(w, lo, lo + 1)| == c0;
    WorkdaysLength(w, lo, lo + 2);
    assert |WorkdaysBetween(w, lo, lo + 2)| == c0 + c1;
    WorkdaysLength(w, lo, lo + 3);
    assert |WorkdaysBetween(w, lo, lo + 3)| == c0 + c1 + c2;
    WorkdaysLength(w, lo, lo + 4);
    assert |WorkdaysBetween(w, lo, lo + 4)| == c0 + c1 + c2 + c3;
    WorkdaysLength(w, lo, lo + 5);
    assert |WorkdaysBetween(w, lo, lo + 5)| == c0 + c1 + c2 + c3 + c4;
    WorkdaysLength(w, lo, lo + 6);
    assert |WorkdaysBetween(w, lo, lo + 6)| == c0 + c1 + c2 + c3 + c4 + c5;
    WorkdaysLength(w, lo, lo + 7);
  }

  /**
   * The offsets the form offers: tomorrow through two weeks from today, Monday to Friday,
   * in increasing order; ten of them whatever day today is.
   */
  function Offered(todayWeekday: nat): (r: seq<nat>)
    ensures |r| == 10
    ensures forall k :: k in r <==> 1 <= k <= Horizon && IsWorkday(DayOfWeek(todayWeekday, k))
    ensures forall i, j :: 0 <= i < j < |r| ==> r[i] < r[j]
  {
    TwoWeeksCount(todayWeekday, 1, Horizon + 1);
    TwoWeeksIncreasing(todayWeekday, 1, Horizon + 1);
    TwoWeeksMembers(todayWeekday, 1, Horizon + 1);
    WorkdaysBetween(todayWeekday, 1, Horizon + 1)
  }

  /** Two weeks from tomorrow hold ten workdays. */
  lemma TwoWeeksCount(w: nat, lo: nat, hi: nat)
    requires lo == 1 && hi == Horizon + 1
    ensures |WorkdaysBetween(w, lo, hi)| == 10
  {
    WorkdaysSplit(w, lo, lo + 7, hi);
    WeekOfWorkdays(w, lo);
    WeekOfWorkdays(w, lo + 7);
  }

  /** Listed in increasing order. */
  lemma TwoWeeksIncreasing(w: nat, lo: nat, hi: nat)
    requires lo == 1 && hi == Horizon + 1
    ensures forall i, j :: 0 <= i < j < |WorkdaysBetween(w, lo, hi)| ==> WorkdaysBetween(w, lo, hi)[i] < WorkdaysBetween(w, lo, hi)[j]
  {
    WorkdaysIncreasing(w, lo, hi);
  }

  /** Exactly the workdays of the two weeks are listed. */
  lemma TwoWeeksMembers(w: nat, lo: nat, hi: nat)
    requires lo == 1 && hi == Horizon + 1
    ensures forall k :: k in WorkdaysBetween(w, lo, hi) <==> lo <= k < hi && IsWorkday(DayOfWeek(w, k))
  {
    forall k: nat
      ensures k in WorkdaysBetween(w, lo, hi) <==> lo <= k < hi && IsWorkday(DayOfWeek(w, k))
    {
      WorkdaysMembers(w, lo, hi, k);
    }
  }
}
