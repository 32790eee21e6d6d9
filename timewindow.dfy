/**
 * The installation time window of the form: the strict `HH:MM` parser, the
 * "Desde" < "Hasta" rule, the list of "Hasta" options offered once "Desde" is
 * chosen, and the effect that clears "Hasta" when the range turns invalid.
 */
module TimeWindow {
  import opened Wrappers
  import opened Chars

  /** The two-digit number written by `a` followed by `b`. */
  function TwoDigits(a: char, b: char): nat
  {
    DigitValue(a) * 10 + DigitValue(b)
  }

  /** `[01]\d|2[0-3]`: the hour part of the pattern. */
  predicate HourPattern(a: char, b: char)
  {
    ((a == '0' || a == '1') && IsDigit(b)) || (a == '2' && '0' <= b <= '3')
  }

  /** `^([01]\d|2[0-3]):([0-5]\d)$`: the whole string, nothing before or after. */
  predicate IsHHMM(s: string)
  {
    |s| == 5 && HourPattern(s[0], s[1]) && s[2] == ':' && '0' <= s[3] <= '5' && IsDigit(s[4])
  }

  /** `timeToMinutes`: minutes since midnight of a strict `HH:MM`, and `None` for JavaScript's NaN. */
  function TimeToMinutes(s: string): (r: Option<nat>)
    ensures r.Some? ==> r.value < 24 * 60
  {
    if IsHHMM(s) then Some(TwoDigits(s[0], s[1]) * 60 + TwoDigits(s[3], s[4])) else None
  }

  /**
   * What the pattern means: five characters, a colon in the middle, digits around it,
   * an hour of at most 23 and a minute of at most 59; the value is hours times 60 plus minutes.
   */
  lemma TimeToMinutesMeaning(s: string)
    ensures TimeToMinutes(s).Some? <==>
              |s| == 5 && s[2] == ':' && IsDigit(s[0]) && IsDigit(s[1]) && IsDigit(s[3]) && IsDigit(s[4])
              && TwoDigits(s[0], s[1]) <= 23 && TwoDigits(s[3], s[4]) <= 59
    ensures TimeToMinutes(s).Some? ==> TimeToMinutes(s).value == TwoDigits(s[0], s[1]) * 60 + TwoDigits(s[3], s[4])
  {
    if |s| == 5 && IsDigit(s[0]) && IsDigit(s[1]) && IsDigit(s[3]) {
      assert TwoDigits(s[0], s[1]) <= 23 <==> HourPattern(s[0], s[1]);
      assert TwoDigits(s[3], s[4]) <= 59 ==> s[3] <= '5';
    }
  }

  /** The empty string, which the form treats as "not chosen", never parses. */
  lemma EmptyNeverParses()
    ensures TimeToMinutes("").None?
  {
  }

  /** The `HH:MM` text of a time of day given in minutes since midnight. */
  function FormatHHMM(m: nat): (s: string)
    requires m < 24 * 60
    ensures |s| == 5
  {
    var h, mi := m / 60, m % 60;
    [DigitChar(h / 10), DigitChar(h % 10), ':', DigitChar(mi / 10), DigitChar(mi % 10)]
  }

  /** Splitting a two-digit number into its digits and back. */
  lemma TwoDigitsOf(n: nat)
    requires n < 100
    ensures TwoDigits(DigitChar(n / 10), DigitChar(n % 10)) == n
  {
  }

  /** Every time of day formats to a string that parses back to it. */
  lemma ParseFormat(m: nat)
    requires m < 24 * 60
    ensures TimeToMinutes(FormatHHMM(m)) == Some(m)
  {
    var s := FormatHHMM(m);
    var h, mi := m / 60, m % 60;
    TwoDigitsOf(h);
    TwoDigitsOf(mi);
    assert TwoDigits(s[0], s[1]) == h && TwoDigits(s[3], s[4]) == mi;
    assert HourPattern(s[0], s[1]);
  }

  /** Hours and minutes are recovered from minutes since midnight. */
  lemma SplitMinutes(h: nat, mi: nat)
    requires mi < 60
    ensures (h * 60 + mi) / 60 == h && (h * 60 + mi) % 60 == mi
  {
  }

  /** A two-digit string is recovered from its number. */
  lemma DigitsOfTwoDigits(a: char, b: char)
    requires IsDigit(a) && IsDigit(b)
    ensures DigitChar(TwoDigits(a, b) / 10) == a && DigitChar(TwoDigits(a, b) % 10) == b
  {
  }

  /** Every string that parses is the formatted form of its value: the parser accepts one spelling per time. */
  lemma FormatParse(s: string)
    requires TimeToMinutes(s).Some?
    ensures FormatHHMM(TimeToMinutes(s).value) == s
  {
    var h, mi := TwoDigits(s[0], s[1]), TwoDigits(s[3], s[4]);
    SplitMinutes(h, mi);
    DigitsOfTwoDigits(s[0], s[1]);
    DigitsOfTwoDigits(s[3], s[4]);
    var f := FormatHHMM(h * 60 + mi);
    assert f[0] == s[0] && f[1] == s[1] && f[2] == s[2] && f[3] == s[3] && f[4] == s[4];
  }

  // ---------------------------------------------------------------------------
  // validateTimeRange

  const RangeMessage: string := "La hora \"Desde\" debe ser menor que \"Hasta\""

  /**
   * `validateTimeRange`: accepted when either side is empty or does not parse, and
   * otherwise exactly when "Desde" is earlier than "Hasta".
   */
  function ValidateTimeRange(from: string, to: string): (r: Validation)
    ensures r.Invalid? <==>
              TimeToMinutes(from).Some? && TimeToMinutes(to).Some? && TimeToMinutes(from).value >= TimeToMinutes(to).value
    ensures r.Invalid? ==> r.message == RangeMessage
  {
    if from == "" || to == "" then Valid
    else
      var fromMin, toMin := TimeToMinutes(from), TimeToMinutes(to);
      if fromMin.None? || toMin.None? then Valid
      else if fromMin.value < toMin.value then Valid
      else Invalid(RangeMessage)
  }

  /** No time is a valid "Hasta" for itself. */
  lemma SameTimeRejected(t: string)
    requires TimeToMinutes(t).Some?
    ensures ValidateTimeRange(t, t) == Invalid(RangeMessage)
  {
  }

  /** Comparing minutes since midnight is comparing hours, then minutes. */
  lemma ClockOrder(h: nat, m: nat, h2: nat, m2: nat)
    requires m < 60 && m2 < 60
    ensures h * 60 + m < h2 * 60 + m2 <==> h < h2 || (h == h2 && m < m2)
  {
    if h < h2 {
      assert h * 60 + 60 <= h2 * 60;
    } else if h > h2 {
      assert h2 * 60 + 60 <= h * 60;
    }
  }

  // ---------------------------------------------------------------------------
  // The "Hasta" options

  /** The half-hour slots from 09:00 to 17:00 offered by both time selectors. */
  const TimeOptions: seq<string> := [
    "09:00", "09:30", "10:00", "10:30", "11:00", "11:30",
    "12:00", "12:30", "13:00", "13:30", "14:00", "14:30",
    "15:00", "15:30", "16:00", "16:30", "17:00"
  ]

  /** Every entry parses, and the values strictly increase along the list. */
  predicate Ascending(opts: seq<string>)
  {
    (forall i :: 0 <= i < |opts| ==> TimeToMinutes(opts[i]).Some?)
    && forall i, j :: 0 <= i < j < |opts| ==> TimeToMinutes(opts[i]).value < TimeToMinutes(opts[j]).value
  }

  /** The slots are 09:00 plus half an hour per position. */
  lemma TimeOptionsMinutes(i: nat)
    requires i < |TimeOptions|
    ensures TimeToMinutes(TimeOptions[i]) == Some(9 * 60 + 30 * i)
  {
    if i < 6 {
      if i == 0 { assert TimeOptions[i] == "09:00"; }
      else if i == 1 { assert TimeOptions[i] == "09:30"; }
      else if i == 2 { assert TimeOptions[i] == "10:00"; }
      else if i == 3 { assert TimeOptions[i] == "10:30"; }
      else if i == 4 { assert TimeOptions[i] == "11:00"; }
      else { assert TimeOptions[i] == "11:30"; }
    } else if i < 12 {
      if i == 6 { assert TimeOptions[i] == "12:00"; }
      else if i == 7 { assert TimeOptions[i] == "12:30"; }
      else if i == 8 { assert TimeOptions[i] == "13:00"; }
      else if i == 9 { assert TimeOptions[i] == "13:30"; }
      else if i == 10 { assert TimeOptions[i] == "14:00"; }
      else { assert TimeOptions[i] == "14:30"; }
    } else {
      if i == 12 { assert TimeOptions[i] == "15:00"; }
      else if i == 13 { assert TimeOptions[i] == "15:30"; }
      else if i == 14 { assert TimeOptions[i] == "16:00"; }
      else if i == 15 { assert TimeOptions[i] == "16:30"; }
      else { assert TimeOptions[i] == "17:00"; }
    }
  }

  /** The option list is in ascending order of time. */
  lemma TimeOptionsAscending()
    ensures Ascending(TimeOptions)
  {
    forall i | 0 <= i < |TimeOptions|
      ensures TimeToMinutes(TimeOptions[i]) == Some(9 * 60 + 30 * i)
    {
      TimeOptionsMinutes(i);
    }
  }

  /** `options.filter((t) => timeToMinutes(t) > fromMin)`; a NaN option compares false and is dropped. */
  function Later(opts: seq<string>, fromMin: nat): (r: seq<string>)
    ensures |r| <= |opts|
    ensures opts != [] && TimeToMinutes(opts[0]).Some? && TimeToMinutes(opts[0]).value > fromMin ==> r != [] && r[0] == opts[0]
  {
    if opts == [] then []
    else
      var t := TimeToMinutes(opts[0]);
      (if t.Some? && t.value > fromMin then [opts[0]] else []) + Later(opts[1..], fromMin)
  }

  /** An option is kept exactly when it parses to a time strictly later than "Desde". */
  lemma {:induction false} LaterMembers(opts: seq<string>, fromMin: nat, t: string)
    ensures t in Later(opts, fromMin) <==>
              t in opts && TimeToMinutes(t).Some? && TimeToMinutes(t).value > fromMin
  {
    if opts != [] {
      LaterMembers(opts[1..], fromMin, t);
      assert opts == [opts[0]] + opts[1..];
    }
  }

  /** `a` is `b` with some entries removed and the rest in their order. */
  predicate IsSubsequence<T(==)>(a: seq<T>, b: seq<T>)
    decreases |b|
  {
    if a == [] then true
    else if b == [] then false
    else if a[0] == b[0] then IsSubsequence(a[1..], b[1..])
    else IsSubsequence(a, b[1..])
  }

  /** A subsequence of the tail of `b` is a subsequence of `b`. */
  lemma {:induction false} SubsequenceSkip<T>(a: seq<T>, b: seq<T>)
    requires b != [] && IsSubsequence(a, b[1..])
    ensures IsSubsequence(a, b)
    decreases |a| + |b|, 1
  {
    if a != [] && a[0] == b[0] {
      SubsequenceDropHead(a, b[1..]);
    }
  }

  /** Dropping the first entry of a subsequence leaves a subsequence. */
  lemma {:induction false} SubsequenceDropHead<T>(a: seq<T>, c: seq<T>)
    requires a != [] && IsSubsequence(a, c)
    ensures IsSubsequence(a[1..], c)
    decreases |a| + |c|, 0
  {
    if a[0] == c[0] {
      if c[1..] != [] {
        SubsequenceSkip(a[1..], c);
      } else if a[1..] != [] {
        assert false;
      }
    } else {
      SubsequenceDropHead(a, c[1..]);
      SubsequenceSkip(a[1..], c);
    }
  }

  /** Filtering keeps the options in their order. */
  lemma {:induction false} LaterSubsequence(opts: seq<string>, fromMin: nat)
    ensures IsSubsequence(Later(opts, fromMin), opts)
  {
    if opts != [] {
      LaterSubsequence(opts[1..], fromMin);
      var t := TimeToMinutes(opts[0]);
      if t.Some? && t.value > fromMin {
        assert Later(opts, fromMin) == [opts[0]] + Later(opts[1..], fromMin);
      } else {
        assert Later(opts, fromMin) == Later(opts[1..], fromMin);
        SubsequenceSkip(Later(opts[1..], fromMin), opts);
      }
    }
  }

  lemma AscendingTail(opts: seq<string>)
    requires Ascending(opts) && opts != []
    ensures Ascending(opts[1..])
  {
    forall i, j | 0 <= i < j < |opts| - 1
      ensures TimeToMinutes(opts[1..][i]).value < TimeToMinutes(opts[1..][j]).value
    {
      assert opts[1..][i] == opts[i + 1] && opts[1..][j] == opts[j + 1];
    }
  }

  /** When every option is later than "Desde", all of them are kept. */
  lemma {:induction false} LaterKeepsAll(opts: seq<string>, fromMin: nat)
    requires forall i :: 0 <= i < |opts| ==> TimeToMinutes(opts[i]).Some? && TimeToMinutes(opts[i]).value > fromMin
    ensures Later(opts, fromMin) == opts
  {
    if opts != [] {
      LaterKeepsAll(opts[1..], fromMin);
      assert opts == [opts[0]] + opts[1..];
    }
  }

  /** On an ascending list the later options form a tail of it. */
  lemma {:induction false} LaterOfAscending(opts: seq<string>, fromMin: nat)
    requires Ascending(opts)
    ensures |Later(opts, fromMin)| <= |opts|
    ensures Later(opts, fromMin) == opts[|opts| - |Later(opts, fromMin)|..]
  {
    if opts != [] {
      var t := TimeToMinutes(opts[0]);
      if t.value > fromMin {
        LaterKeepsAll(opts, fromMin);
      } else {
        AscendingTail(opts);
        LaterOfAscending(opts[1..], fromMin);
        assert opts[1..][|opts| - 1 - |Later(opts[1..], fromMin)|..] == opts[|opts| - |Later(opts[1..], fromMin)|..];
      }
    }
  }

  /**
   * `filteredTimeToOptions`: every slot while "Desde" is empty or does not parse;
   * otherwise a slot is offered exactly when choosing it passes `validateTimeRange`,
   * so the list never offers an invalid "Hasta" and never hides a valid one.
   */
  function FilteredTimeToOptions(from: string): (r: seq<string>)
    ensures TimeToMinutes(from).None? ==> r == TimeOptions
    ensures TimeToMinutes(from).Some? ==>
              forall t :: t in r <==> t in TimeOptions && ValidateTimeRange(from, t) == Valid
  {
    if from != "" && TimeToMinutes(from).Some? then
      var fromMin := TimeToMinutes(from).value;
      TimeOptionsAscending();
      assert forall t :: t in Later(TimeOptions, fromMin) <==>
                t in TimeOptions && TimeToMinutes(t).Some? && TimeToMinutes(t).value > fromMin by {
        forall t { LaterMembers(TimeOptions, fromMin, t); }
      }
      Later(TimeOptions, fromMin)
    else TimeOptions
  }

  /** The offered slots keep the order of the full list and are a tail of it. */
  lemma FilteredOrder(from: string)
    ensures IsSubsequence(FilteredTimeToOptions(from), TimeOptions)
    ensures |FilteredTimeToOptions(from)| <= |TimeOptions|
    ensures FilteredTimeToOptions(from) == TimeOptions[|TimeOptions| - |FilteredTimeToOptions(from)|..]
  {
    var f := FilteredTimeToOptions(from);
    if from != "" && TimeToMinutes(from).Some? {
      LaterSubsequence(TimeOptions, TimeToMinutes(from).value);
      TimeOptionsAscending();
      LaterOfAscending(TimeOptions, TimeToMinutes(from).value);
    } else {
      SelfSubsequence(TimeOptions);
    }
  }

  lemma {:induction false} SelfSubsequence<T>(s: seq<T>)
    ensures IsSubsequence(s, s)
  {
    if s != [] {
      SelfSubsequence(s[1..]);
    }
  }

  // ---------------------------------------------------------------------------
  // The effect that clears "Hasta"

  /**
   * The value of "Hasta" after the effect that runs on every change of either field:
   * cleared when both are set and the range is rejected, left alone otherwise.
   */
  function ClearedTimeTo(from: string, to: string): (r: string)
    ensures r == to || r == ""
    ensures r == to <==> ValidateTimeRange(from, to) == Valid
  {
    if from == "" then to
    else if to == "" then to
    else if ValidateTimeRange(from, to) == Valid then to
    else ""
  }

  /** After the effect the range is always accepted, and running the effect again changes nothing. */
  lemma ClearedIsValid(from: string, to: string)
    ensures ValidateTimeRange(from, ClearedTimeTo(from, to)) == Valid
    ensures ClearedTimeTo(from, ClearedTimeTo(from, to)) == ClearedTimeTo(from, to)
  {
  }

  // ---------------------------------------------------------------------------
  // Examples

  lemma ParseExamples()
    ensures TimeToMinutes("09:30") == Some(570)
    ensures TimeToMinutes("23:59") == Some(1439)
    ensures TimeToMinutes("24:00").None? && TimeToMinutes("9:30").None? && TimeToMinutes("12:60").None?
  {
    assert !HourPattern('2', '4');
  }
}
