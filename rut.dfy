/**
 * The Chilean national-ID (RUT) rules of the installation form:
 * cleaning, display formatting and the modulo-11 check character.
 */
module Rut {
  import opened Chars

  /** A character that survives cleaning: a decimal digit or the letter K in either case. */
  predicate IsKept(c: char) { IsDigit(c) || c == 'k' || c == 'K' }

  /** A character of a cleaned RUT: a digit or an upper-case K. */
  predicate IsRutChar(c: char) { IsDigit(c) || c == 'K' }

  predicate AllRutChars(s: string) { forall i :: 0 <= i < |s| ==> IsRutChar(s[i]) }

  /** `toUpperCase` restricted to the characters that cleaning keeps. */
  function Upper(c: char): char { if c == 'k' then 'K' else c }

  // ---------------------------------------------------------------------------
  // cleanRut

  /** Keeps only digits and k/K, then upper-cases. */
  function Clean(s: string): (r: string)
    ensures |r| <= |s|
  {
    if s == [] then [] else Keep(s[0]) + Clean(s[1..])
  }

  /** What cleaning leaves: only digits and upper-case K, never more characters than it was given. */
  lemma {:induction false} CleanChars(s: string)
    ensures AllRutChars(Clean(s)) && |Clean(s)| <= |s|
  {
    if s != [] {
      CleanChars(s[1..]);
    }
  }

  /** What cleaning keeps of one character. */
  function Keep(c: char): string
  {
    if IsKept(c) then [Upper(c)] else []
  }

  lemma CleanCons(c: char, s: string)
    ensures Clean([c] + s) == Keep(c) + Clean(s)
  {
    assert ([c] + s)[0] == c && ([c] + s)[1..] == s;
  }

  /** Cleaning works character by character, so it distributes over concatenation. */
  lemma {:induction false} CleanConcat(a: string, b: string)
    ensures Clean(a + b) == Clean(a) + Clean(b)
  {
    if a == [] {
      assert a + b == b;
    } else {
      var t := a[1..];
      assert a == [a[0]] + t;
      assert a + b == [a[0]] + (t + b);
      CleanCons(a[0], t + b);
      CleanCons(a[0], t);
      CleanConcat(t, b);
      assert Keep(a[0]) + (Clean(t) + Clean(b)) == (Keep(a[0]) + Clean(t)) + Clean(b);
    }
  }

  /** A separator between two strings disappears on cleaning. */
  lemma CleanAround(x: string, sep: char, y: string)
    requires !IsKept(sep)
    ensures Clean(x + [sep] + y) == Clean(x) + Clean(y)
  {
    CleanConcat(x + [sep], y);
    CleanConcat(x, [sep]);
    CleanCons(sep, []);
    assert [sep] + [] == [sep];
    assert Clean([sep]) == [];
    assert Clean(x) + [] == Clean(x);
  }

  /** A string made only of digits and upper-case K is its own cleaning. */
  lemma {:induction false} CleanOfClean(s: string)
    requires AllRutChars(s)
    ensures Clean(s) == s
  {
    if s != [] {
      CleanOfClean(s[1..]);
    }
  }

  /** Cleaning is idempotent. */
  lemma CleanIdempotent(s: string)
    ensures Clean(Clean(s)) == Clean(s)
  {
    CleanChars(s);
    CleanOfClean(Clean(s));
  }

  // ---------------------------------------------------------------------------
  // Helpers for formatting

  function Reverse<T>(s: seq<T>): (r: seq<T>)
    ensures |r| == |s|
  {
    if s == [] then [] else Reverse(s[1..]) + [s[0]]
  }

  lemma {:induction false} ReverseAt<T>(s: seq<T>, i: nat)
    requires i < |s|
    ensures Reverse(s)[i] == s[|s| - 1 - i]
  {
    if i < |s| - 1 {
      ReverseAt(s[1..], i);
    }
  }

  lemma ReverseConcat<T>(a: seq<T>, b: seq<T>)
    ensures Reverse(a + b) == Reverse(b) + Reverse(a)
  {
    forall i | 0 <= i < |a| + |b|
      ensures Reverse(a + b)[i] == (Reverse(b) + Reverse(a))[i]
    {
      ReverseAt(a + b, i);
      if i < |b| {
        ReverseAt(b, i);
      } else {
        ReverseAt(a, i - |b|);
      }
    }
  }

  lemma ReverseReverse<T>(s: seq<T>)
    ensures Reverse(Reverse(s)) == s
  {
    forall i | 0 <= i < |s|
      ensures Reverse(Reverse(s))[i] == s[i]
    {
      ReverseAt(Reverse(s), i);
      ReverseAt(s, |s| - 1 - i);
    }
  }

  /** `body.replace(/^0+/, '')`: drops every leading zero. */
  function DropZeros(b: string): string
  {
    if b != [] && b[0] == '0' then DropZeros(b[1..]) else b
  }

  /** What `DropZeros` removes is a run of zeros at the front, and what it keeps does not start with one. */
  lemma {:induction false} DropZerosSuffix(b: string)
    ensures |DropZeros(b)| <= |b| && DropZeros(b) == b[|b| - |DropZeros(b)|..]
    ensures DropZeros(b) == [] || DropZeros(b)[0] != '0'
    ensures forall i :: 0 <= i < |b| - |DropZeros(b)| ==> b[i] == '0'
  {
    if b != [] && b[0] == '0' {
      var t := b[1..];
      DropZerosSuffix(t);
      var d := DropZeros(t);
      assert DropZeros(b) == d;
      assert t[|t| - |d|..] == b[|b| - |d|..];
      forall i | 0 <= i < |b| - |d|
        ensures b[i] == '0'
      {
        if i > 0 {
          assert b[i] == t[i - 1];
        }
      }
    }
  }

  /** `body.replace(/^0+/, '') || body`: leading zeros are stripped unless nothing would remain. */
  function StripZeros(b: string): (r: string)
    ensures |r| <= |b|
    ensures b != [] ==> r != []
  {
    DropZerosSuffix(b);
    var d := DropZeros(b);
    if d == [] then b else d
  }

  /** Stripping twice strips nothing more. */
  lemma StripZerosIdempotent(b: string)
    ensures StripZeros(StripZeros(b)) == StripZeros(b)
  {
    var d := DropZeros(b);
    DropZerosSuffix(b);
    DropZerosSuffix(d);
    if d == [] {
      AllZerosDropped(b);
    }
  }

  /** A string made only of zeros drops to nothing. */
  lemma {:induction false} AllZerosDropped(b: string)
    requires forall i :: 0 <= i < |b| ==> b[i] == '0'
    ensures DropZeros(b) == []
  {
    if b != [] {
      AllZerosDropped(b[1..]);
    }
  }

  /** `s.match(/.{1,3}/g) || []`: consecutive chunks of three characters, the last one shorter. */
  function Chunks3(s: string): seq<string>
    decreases |s|
  {
    if s == [] then [] else if |s| <= 3 then [s] else [s[..3]] + Chunks3(s[3..])
  }

  /** `groups.join('.')`. */
  function JoinDots(groups: seq<string>): string
  {
    if groups == [] then ""
    else if |groups| == 1 then groups[0]
    else groups[0] + "." + JoinDots(groups[1..])
  }

  /** Reference grouping: a dot before every complete block of three characters counted from the right. */
  function GroupFromRight(b: string): (r: string)
    ensures |b| <= |r|
    ensures r == [] <==> b == []
    decreases |b|
  {
    if |b| <= 3 then b else GroupFromRight(b[..|b| - 3]) + "." + b[|b| - 3..]
  }

  lemma GroupStep(p: string, t: string)
    requires p != [] && |t| == 3
    ensures GroupFromRight(p + t) == GroupFromRight(p) + "." + t
  {
    assert (p + t)[..|p|] == p && (p + t)[|p|..] == t;
  }

  /** The source's reverse/chunk/join/reverse pipeline is grouping from the right. */
  lemma {:induction false} ReversedChunksGroupFromRight(b: string)
    ensures Reverse(JoinDots(Chunks3(Reverse(b)))) == GroupFromRight(b)
    decreases |b|
  {
    if |b| == 0 {
    } else if |b| <= 3 {
      ReverseReverse(b);
    } else {
      var n := |b|;
      var p, t := b[..n - 3], b[n - 3..];
      assert b == p + t;
      ReverseConcat(p, t);
      var rb := Reverse(b);
      assert rb[..3] == Reverse(t);
      assert rb[3..] == Reverse(p);
      var rest := Chunks3(Reverse(p));
      assert Chunks3(rb) == [Reverse(t)] + rest;
      assert rest != [];
      var j := JoinDots(rest);
      assert JoinDots(Chunks3(rb)) == Reverse(t) + "." + j;
      ReverseConcat(Reverse(t) + ".", j);
      ReverseConcat(Reverse(t), ".");
      ReverseReverse(t);
      ReversedChunksGroupFromRight(p);
    }
  }

  /**
   * The body grouping of `formatRut`: reverse, chunk by three, join with dots, reverse back;
   * it groups the body in threes counted from the right.
   */
  function GroupBody(body: string): (r: string)
    ensures r == GroupFromRight(body)
  {
    ReversedChunksGroupFromRight(body);
    Reverse(JoinDots(Chunks3(Reverse(body))))
  }

  /** Grouping adds one dot per complete block of three beyond the first character. */
  lemma {:induction false} GroupLength(b: string)
    requires b != []
    ensures |GroupFromRight(b)| == |b| + (|b| - 1) / 3
    decreases |b|
  {
    if |b| > 3 {
      GroupLength(b[..|b| - 3]);
    }
  }

  /** Grouping inserts dots exactly at the positions counted from the right in steps of four. */
  lemma {:induction false} GroupDots(b: string)
    requires forall i :: 0 <= i < |b| ==> b[i] != '.'
    ensures forall k :: 0 <= k < |GroupFromRight(b)| ==>
              (GroupFromRight(b)[k] == '.' <==> k > 0 && (|GroupFromRight(b)| - k) % 4 == 0)
    decreases |b|
  {
    if |b| > 3 {
      var p, t := b[..|b| - 3], b[|b| - 3..];
      GroupDots(p);
      GroupLength(p);
      var gp := GroupFromRight(p);
      var g := GroupFromRight(b);
      assert g == gp + "." + t;
      assert |g| == |gp| + 4;
      forall k | 0 <= k < |g|
        ensures g[k] == '.' <==> k > 0 && (|g| - k) % 4 == 0
      {
        GroupDotAt(gp, t, k);
      }
    }
  }

  /** One step of `GroupDots`: the dot added before the last block, and the block itself holds none. */
  lemma GroupDotAt(gp: string, t: string, k: nat)
    requires gp != [] && |t| == 3 && forall i :: 0 <= i < 3 ==> t[i] != '.'
    requires forall j :: 0 <= j < |gp| ==> (gp[j] == '.' <==> j > 0 && (|gp| - j) % 4 == 0)
    requires k < |gp| + 4
    ensures (gp + "." + t)[k] == '.' <==> k > 0 && (|gp| + 4 - k) % 4 == 0
  {
    if k < |gp| {
      assert (gp + "." + t)[k] == gp[k];
      assert (|gp| + 4 - k) % 4 == (|gp| - k) % 4;
    } else if k > |gp| {
      assert (gp + "." + t)[k] == t[k - |gp| - 1];
      assert 1 <= |gp| + 4 - k <= 3;
    }
  }

  /** Cleaning a grouped body gives the body back. */
  lemma {:induction false} CleanGroup(b: string)
    requires AllRutChars(b)
    ensures Clean(GroupFromRight(b)) == b
    decreases |b|
  {
    if |b| <= 3 {
      CleanOfClean(b);
    } else {
      var p, t := b[..|b| - 3], b[|b| - 3..];
      assert AllRutChars(p) && AllRutChars(t);
      CleanGroup(p);
      CleanOfClean(t);
      CleanAround(GroupFromRight(p), '.', t);
      assert "." == ['.'];
      assert p + t == b;
    }
  }

  // ---------------------------------------------------------------------------
  // formatRut

  /** The body of a cleaned RUT of at least two characters: everything but the check character. */
  function Body(c: string): string
    requires |c| >= 2
  {
    c[..|c| - 1]
  }

  /**
   * `formatRut`: the display form `12.345.678-5` of any partial or dirty input. The source
   * groups the body by reversing it, cutting it into threes, joining with dots and reversing
   * back (`GroupBody`); `GroupBody` is proved equal to `GroupFromRight`, which is used here.
   */
  function Format(rut: string): (r: string)
    ensures r == "" <==> Clean(rut) == []
  {
    var cleaned := Clean(rut);
    if cleaned == [] then ""
    else
      var dv := if |cleaned| > 1 then cleaned[|cleaned| - 1..] else "";
      var body := if |cleaned| > 1 then cleaned[..|cleaned| - 1] else cleaned;
      var withDots := GroupFromRight(StripZeros(body));
      if dv != "" then withDots + "-" + dv else withDots
  }

  /** Nothing that survives cleaning gives the empty display form. */
  lemma FormatEmpty(rut: string)
    requires Clean(rut) == []
    ensures Format(rut) == ""
  {
  }

  /** A single cleaned character is shown unchanged: no grouping and no check character. */
  lemma FormatSingle(rut: string)
    requires |Clean(rut)| == 1
    ensures Format(rut) == Clean(rut)
  {
    var c := Clean(rut);
    assert c[1..] == [];
    assert DropZeros(c) == (if c[0] == '0' then DropZeros([]) else c);
    assert StripZeros(c) == c;
    assert Format(rut) == GroupFromRight(c);
  }

  /** With a check character, the display form is the grouped, zero-stripped body, a dash and the check character. */
  lemma FormatWithCheck(rut: string)
    requires |Clean(rut)| >= 2
    ensures Format(rut) == GroupFromRight(StripZeros(Body(Clean(rut)))) + "-" + [Clean(rut)[|Clean(rut)| - 1]]
  {
    var c := Clean(rut);
    assert c[|c| - 1..] == [c[|c| - 1]];
    assert Format(rut) == GroupFromRight(StripZeros(Body(c))) + "-" + c[|c| - 1..];
  }

  /** The three shapes of a display form. */
  lemma FormatShape(rut: string)
    ensures Clean(rut) == [] ==> Format(rut) == ""
    ensures |Clean(rut)| == 1 ==> Format(rut) == Clean(rut)
    ensures |Clean(rut)| >= 2 ==>
              Format(rut) == GroupFromRight(StripZeros(Body(Clean(rut)))) + "-" + [Clean(rut)[|Clean(rut)| - 1]]
  {
    if Clean(rut) == [] {
      FormatEmpty(rut);
    } else if |Clean(rut)| == 1 {
      FormatSingle(rut);
    } else {
      FormatWithCheck(rut);
    }
  }

  lemma StripZerosNonEmpty(b: string)
    requires b != []
    ensures StripZeros(b) != [] && |StripZeros(b)| <= |b|
    ensures StripZeros(b) == b[|b| - |StripZeros(b)|..]
    ensures forall i :: 0 <= i < |b| - |StripZeros(b)| ==> b[i] == '0'
    ensures StripZeros(b)[0] == '0' ==> StripZeros(b) == b && forall i :: 0 <= i < |b| ==> b[i] == '0'
  {
    DropZerosSuffix(b);
  }

  /** Cleaning a display form `grouped-d` gives back the body and the check character. */
  lemma CleanDisplay(body: string, d: char)
    requires AllRutChars(body) && IsRutChar(d)
    ensures Clean(GroupFromRight(body) + "-" + [d]) == body + [d]
  {
    CleanGroup(body);
    CleanAround(GroupFromRight(body), '-', [d]);
    assert "-" == ['-'];
    assert Clean([d]) == [d];
  }

  /** A zero-stripped cleaned body is still made of digits and K only. */
  lemma StripZerosRutChars(c: string)
    requires |c| >= 2 && AllRutChars(c)
    ensures AllRutChars(StripZeros(Body(c)))
  {
    StripZerosNonEmpty(Body(c));
  }

  /** Cleaning the display form of a RUT with a check character gives its stripped body and its check character. */
  lemma CleanFormat(rut: string)
    requires |Clean(rut)| >= 2
    ensures Clean(Format(rut)) == StripZeros(Body(Clean(rut))) + [Clean(rut)[|Clean(rut)| - 1]]
  {
    var c := Clean(rut);
    FormatShape(rut);
    CleanChars(rut);
    StripZerosRutChars(c);
    CleanDisplay(StripZeros(Body(c)), c[|c| - 1]);
  }

  /** An already clean body without leading zeros and a check character are formatted without change to either. */
  lemma FormatOfClean(body: string, dv: char)
    requires body != [] && body[0] != '0' && AllRutChars(body) && IsRutChar(dv)
    ensures Format(body + [dv]) == GroupFromRight(body) + "-" + [dv]
  {
    var c := body + [dv];
    assert AllRutChars(c);
    CleanOfClean(c);
    assert Body(c) == body;
    FormatWithCheck(c);
  }

  /** Formatting is a fixed point: formatting a formatted RUT changes nothing. */
  lemma FormatIdempotent(rut: string)
    ensures Format(Format(rut)) == Format(rut)
  {
    var c := Clean(rut);
    var f := Format(rut);
    FormatShape(rut);
    FormatShape(f);
    CleanChars(rut);
    if |c| == 1 {
      CleanOfClean(c);
    } else if |c| >= 2 {
      var s := StripZeros(Body(c));
      CleanFormat(rut);
      StripZerosNonEmpty(Body(c));
      var c2 := Clean(f);
      assert Body(c2) == s && c2[|c2| - 1] == c[|c| - 1];
      StripZerosIdempotent(Body(c));
    }
  }

  // ---------------------------------------------------------------------------
  // validateRut

  /** The weight of the digit at position `i` counted from the right: 2, 3, 4, 5, 6, 7, 2, 3, ... */
  function Weight(i: nat): nat { 2 + i % 6 }

  /** The weighted sum of the body's digits, the rightmost digit carrying weight 2. */
  function BodySum(body: string): nat
  {
    if body == [] then 0 else DigitValue(body[0]) * Weight(|body| - 1) + BodySum(body[1..])
  }

  /** The check character belonging to a weighted sum: 11 - sum mod 11, with 11 as '0' and 10 as 'K'. */
  function CheckChar(sum: nat): (c: char)
    ensures IsRutChar(c)
  {
    var res := 11 - sum % 11;
    if res == 11 then '0' else if res == 10 then 'K' else ('0' as int + res) as char
  }

  /** The validity of a RUT as the form defines it. */
  function IsValidRut(rut: string): (r: bool)
    ensures r ==> |Clean(rut)| >= 2 && 'K' !in Body(Clean(rut))
  {
    var c := Clean(rut);
    assert |c| >= 2 && 'K' in Body(c) ==> !AllDigits(Body(c));
    |c| >= 2 && AllDigits(Body(c)) && CheckChar(BodySum(Body(c))) == c[|c| - 1]
  }

  /** A JavaScript number as far as `validateRut` uses one: an integer or NaN. */
  datatype Number = NaN | Finite(v: int)

  /** `parseInt(n, 10)` of a single cleaned character. */
  function ParseDigit(c: char): (n: Number)
    ensures n.Finite? <==> IsDigit(c)
  {
    if IsDigit(c) then Finite(DigitValue(c)) else NaN
  }

  function Add(a: Number, b: Number): Number
  {
    if a.Finite? && b.Finite? then Finite(a.v + b.v) else NaN
  }

  function Times(a: Number, k: int): Number
  {
    if a.Finite? then Finite(a.v * k) else NaN
  }

  /** `String(res)` for 1 <= res <= 9 and `String(NaN)`. */
  function NumberString(n: Number): string
  {
    if n.Finite? && 0 <= n.v <= 9 then [('0' as int + n.v) as char] else "NaN"
  }

  /**
   * `11 - (sum % 11)` mapped to its character: 11 to "0", 10 to "K", other values to their
   * decimal string; a NaN sum gives "NaN", which equals no single check character.
   */
  function ComputedDv(sum: Number): (r: string)
    ensures sum.Finite? && sum.v >= 0 ==> r == [CheckChar(sum.v)]
    ensures sum.NaN? ==> |r| != 1
  {
    var res := if sum.Finite? then Finite(11 - sum.v % 11) else NaN;
    if res == Finite(11) then "0" else if res == Finite(10) then "K" else NumberString(res)
  }

  /** The checksum as JavaScript computes it on a suffix of the body: NaN as soon as a non-digit is met. */
  function NumberSum(s: string): Number
  {
    if s == [] then Finite(0) else Add(NumberSum(s[1..]), Times(ParseDigit(s[0]), Weight(|s| - 1)))
  }

  /** The JavaScript sum is NaN exactly when the body holds a non-digit, and otherwise it is `BodySum`. */
  lemma {:induction false} NumberSumMeaning(s: string)
    ensures NumberSum(s).Finite? <==> AllDigits(s)
    ensures NumberSum(s).Finite? ==> NumberSum(s).v == BodySum(s)
  {
    if s != [] {
      NumberSumMeaning(s[1..]);
      assert AllDigits(s) <==> IsDigit(s[0]) && AllDigits(s[1..]) by {
        if IsDigit(s[0]) && AllDigits(s[1..]) {
          forall j | 0 <= j < |s| ensures IsDigit(s[j]) {
            if j > 0 { assert s[j] == s[1..][j - 1]; }
          }
        }
      }
    }
  }

  lemma SuffixStep(body: string, i: nat)
    requires i < |body|
    ensures NumberSum(body[|body| - 1 - i..])
            == Add(NumberSum(body[|body| - i..]), Times(ParseDigit(body[|body| - 1 - i]), Weight(i)))
  {
    var suffix := body[|body| - 1 - i..];
    assert suffix[0] == body[|body| - 1 - i] && suffix[1..] == body[|body| - i..];
  }

  /** The weight cycle of the loop: after 7 comes 2 again. */
  lemma WeightNext(i: nat)
    ensures Weight(i + 1) == if Weight(i) == 7 then 2 else Weight(i) + 1
  {
  }

  /**
   * The checksum loop of `validateRut`: walks the reversed body, adding each digit times
   * a weight that cycles 2, 3, 4, 5, 6, 7, 2, ...; a non-digit makes the sum NaN.
   */
  method WeightedSum(body: string) returns (sum: Number)
    ensures sum.Finite? <==> AllDigits(body)
    ensures sum.Finite? ==> sum.v == BodySum(body)
  {
    var numbers := Reverse(body);
    sum := Finite(0);
    var mul := 2;
    for i := 0 to |numbers|
      invariant mul == Weight(i)
      invariant sum == NumberSum(body[|body| - i..])
    {
      ReverseAt(body, i);
      SuffixStep(body, i);
      WeightNext(i);
      sum := Add(sum, Times(ParseDigit(numbers[i]), mul));
      mul := if mul == 7 then 2 else mul + 1;
    }
    assert body[|body| - |numbers|..] == body;
    NumberSumMeaning(body);
  }

  /** `validateRut`: recomputes the check character from the body and compares it with the given one. */
  method ValidateRut(rut: string) returns (valid: bool)
    ensures valid == IsValidRut(rut)
    ensures |Clean(rut)| < 2 ==> !valid
    ensures valid ==> 'K' !in Body(Clean(rut))
  {
    var cleaned := Clean(rut);
    if |cleaned| < 2 {
      return false;
    }
    var dv := cleaned[|cleaned| - 1..];
    var sum := WeightedSum(cleaned[..|cleaned| - 1]);
    var computedDv := ComputedDv(sum);
    valid := computedDv == [Upper(dv[0])];
    FinalComparison(rut, sum, valid);
  }

  /** The loop's final comparison decides `IsValidRut`. */
  lemma FinalComparison(rut: string, sum: Number, valid: bool)
    requires |Clean(rut)| >= 2
    requires sum.Finite? <==> AllDigits(Body(Clean(rut)))
    requires sum.Finite? ==> sum.v == BodySum(Body(Clean(rut)))
    requires valid == (ComputedDv(sum) == [Upper(Clean(rut)[|Clean(rut)| - 1])])
    ensures valid == IsValidRut(rut)
    ensures valid ==> 'K' !in Body(Clean(rut))
  {
    var c := Clean(rut);
    var body := Body(c);
    CleanChars(rut);
    assert Upper(c[|c| - 1]) == c[|c| - 1];
    assert 'K' in body ==> !AllDigits(body);
  }

  /** Stripped leading zeros carry no weight. */
  lemma {:induction false} BodySumLeadingZeros(b: string, k: nat)
    requires AllDigits(b) && k <= |b|
    requires forall i :: 0 <= i < k ==> b[i] == '0'
    ensures BodySum(b) == BodySum(b[k..])
    decreases k
  {
    if k > 0 {
      assert AllDigits(b[1..]);
      BodySumLeadingZeros(b[1..], k - 1);
      assert b[1..][k - 1..] == b[k..];
    }
  }

  /** Formatting never changes validity; the form formats on change and then validates. */
  lemma ValidateAfterFormat(rut: string)
    ensures IsValidRut(Format(rut)) == IsValidRut(rut)
  {
    var c := Clean(rut);
    FormatShape(rut);
    CleanChars(rut);
    if |c| == 1 {
      CleanOfClean(c);
    } else if |c| >= 2 {
      CleanFormat(rut);
      var b := Body(c);
      var c2 := Clean(Format(rut));
      assert Body(c2) == StripZeros(b) && c2[|c2| - 1] == c[|c| - 1];
      StripKeepsSum(b);
    }
  }

  /** Stripping leading zeros keeps a body all digits or not, and keeps its weighted sum. */
  lemma StripKeepsSum(b: string)
    requires b != []
    ensures AllDigits(StripZeros(b)) == AllDigits(b)
    ensures AllDigits(b) ==> BodySum(StripZeros(b)) == BodySum(b)
  {
    var s := StripZeros(b);
    StripZerosNonEmpty(b);
    var k := |b| - |s|;
    assert s == b[k..];
    if AllDigits(b) {
      BodySumLeadingZeros(b, k);
    } else {
      var j :| 0 <= j < |b| && !IsDigit(b[j]);
      assert j >= k && s[j - k] == b[j];
    }
  }

  /** A digit body followed by a check character is valid exactly when that character, upper-cased, is the computed one. */
  lemma CheckCharDecides(body: string, dv: char)
    requires body != [] && AllDigits(body) && IsKept(dv)
    ensures IsValidRut(body + [dv]) <==> Upper(dv) == CheckChar(BodySum(body))
  {
    assert AllRutChars(body);
    CleanConcat(body, [dv]);
    CleanOfClean(body);
    assert Clean([dv]) == [Upper(dv)];
    assert Body(body + [Upper(dv)]) == body;
  }

  /** The same holds of the display form: a grouped digit body, a dash and an upper-case check character. */
  lemma DisplayCheckDecides(body: string, dv: char)
    requires body != [] && AllDigits(body) && IsRutChar(dv)
    ensures IsValidRut(GroupFromRight(body) + "-" + [dv]) <==> dv == CheckChar(BodySum(body))
  {
    assert AllRutChars(body);
    CleanDisplay(body, dv);
    assert Body(body + [dv]) == body;
  }

  /** Every digit body completed with its computed check character validates, also after formatting. */
  lemma CompletedRutValid(body: string)
    requires body != [] && AllDigits(body)
    ensures IsValidRut(body + [CheckChar(BodySum(body))])
    ensures IsValidRut(Format(body + [CheckChar(BodySum(body))]))
  {
    CheckCharDecides(body, CheckChar(BodySum(body)));
    ValidateAfterFormat(body + [CheckChar(BodySum(body))]);
  }

  // ---------------------------------------------------------------------------
  // The form's own examples, derived from the general lemmas above

  /** The placeholder body groups as 12.345.678. */
  lemma GroupExample()
    ensures GroupFromRight("12345678") == "12.345.678"
  {
    GroupStep("12", "345");
    assert "12" + "345" == "12345";
    GroupStep("12345", "678");
    assert "12345" + "678" == "12345678";
    assert "12" + "." + "345" + "." + "678" == "12.345.678";
  }

  /** Cleaning strips the separators of the placeholder `12.345.678-5`. */
  lemma CleanDisplayExample()
    ensures Clean("12.345.678-5") == "123456785"
  {
    GroupExample();
    assert AllRutChars("12345678");
    CleanDisplay("12345678", '5');
    assert "12.345.678" + "-" + ['5'] == "12.345.678-5";
    assert "12345678" + ['5'] == "123456785";
  }

  /** Cleaning upper-cases a lower-case check character k. */
  lemma CleanLowerK(body: string)
    requires AllRutChars(body)
    ensures Clean(body + "k") == body + "K"
  {
    CleanConcat(body, "k");
    CleanOfClean(body);
  }

  /** A full cleaned RUT gets its dots and dash. */
  lemma FormatExample()
    ensures Format("123456785") == "12.345.678-5"
  {
    assert AllRutChars("12345678");
    FormatOfClean("12345678", '5');
    GroupExample();
    assert "12345678" + ['5'] == "123456785";
    assert "12.345.678" + "-" + ['5'] == "12.345.678-5";
  }

  /** A single character is left as it is: no grouping and no check character. */
  lemma FormatSingleExample()
    ensures Format("5") == "5"
  {
    var s := "5";
    assert AllRutChars(s);
    CleanOfClean(s);
    FormatSingle(s);
  }

  /** The weighted sum of the placeholder body 12345678 is 138, whose check character is 5. */
  lemma BodySumExample()
    ensures BodySum("12345678") == 138 && CheckChar(138) == '5'
  {
    var s := "12345678";
    assert BodySum(s[7..]) == 16;
    assert BodySum(s[6..]) == 37;
    assert BodySum(s[5..]) == 61;
    assert BodySum(s[4..]) == 86;
    assert BodySum(s[3..]) == 110;
    assert BodySum(s[2..]) == 131;
    assert BodySum(s[1..]) == 135;
    assert s[0..] == s;
  }

  /** The placeholder `12.345.678-5` is valid. */
  lemma PlaceholderValid()
    ensures IsValidRut("12.345.678-5")
  {
    BodySumExample();
    assert AllDigits("12345678");
    GroupExample();
    DisplayCheckDecides("12345678", '5');
    assert "12.345.678" + "-" + ['5'] == "12.345.678-5";
  }

  /** The same body with check character 4 is not valid. */
  lemma PlaceholderWrongCheck()
    ensures !IsValidRut("12.345.678-4")
  {
    BodySumExample();
    assert AllDigits("12345678");
    GroupExample();
    DisplayCheckDecides("12345678", '4');
    assert "12.345.678" + "-" + ['4'] == "12.345.678-4";
  }
}
