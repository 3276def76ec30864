/**
  The string side of `org import`: the numbers a candidate's name contains
  (`numbers_in_filename`), the bracketed CRC-32 a name may announce, and the
  number the series continues with (`next_number_in_series`).
*/
module ImportNumbers {
  import opened Wrappers
  import opened Text
  import opened Naming

  // ---------------------------------------------------------------------------
  // Bracketed CRC tokens `\[[0-9a-fA-F]{8}\]`

  /** A token `[XXXXXXXX]` of eight hex digits starts at position `i` of `s`. */
  predicate CrcTokenAt(s: string, i: nat) {
    i + 10 <= |s| && s[i] == '[' && AllHex(s[i + 1..i + 9]) && s[i + 9] == ']'
  }

  /**
    `s.gsub(/\[[0-9a-fA-F]{8}\]/, '')`: the scan runs left to right, and after
    removing a token it resumes right behind it.
  */
  function StripCrcTokens(s: string): (r: string)
    ensures |r| <= |s|
    decreases |s|
  {
    if s == [] then []
    else if CrcTokenAt(s, 0) then StripCrcTokens(s[10..])
    else [s[0]] + StripCrcTokens(s[1..])
  }

  /** Text without `[` is kept as it is, in front of whatever the rest becomes. */
  lemma {:induction false} StripKeepsPlainText(a: string, b: string)
    requires forall i :: 0 <= i < |a| ==> a[i] != '['
    ensures StripCrcTokens(a + b) == a + StripCrcTokens(b)
  {
    if a != [] {
      assert (a + b)[1..] == a[1..] + b;
      StripKeepsPlainText(a[1..], b);
      assert a == [a[0]] + a[1..];
    } else {
      assert a + b == b;
    }
  }

  /**
    The first match of `/\[([0-9a-fA-F]{8})\]/`: the eight digits of the
    leftmost token.
  */
  function FirstCrcToken(s: string): (r: Option<string>)
    ensures r.Some? ==> |r.value| == 8 && AllHex(r.value)
    decreases |s|
  {
    if |s| < 10 then None
    else if CrcTokenAt(s, 0) then Some(s[1..9])
    else FirstCrcToken(s[1..])
  }

  /** The leftmost token is the one found. */
  lemma {:induction false} FirstCrcTokenAt(s: string, i: nat)
    requires CrcTokenAt(s, i)
    requires forall j :: 0 <= j < i ==> !CrcTokenAt(s, j)
    ensures FirstCrcToken(s) == Some(s[i + 1..i + 9])
  {
    if i > 0 {
      assert !CrcTokenAt(s, 0);
      forall j | 0 <= j < i - 1 ensures !CrcTokenAt(s[1..], j) {
        assert !CrcTokenAt(s, j + 1);
        assert s[1..][j + 1..j + 9] == s[j + 2..j + 10];
      }
      assert s[1..][i - 1 + 1..i - 1 + 9] == s[i + 1..i + 9];
      FirstCrcTokenAt(s[1..], i - 1);
    }
  }

  /** A token at position `i + 1` of `s` is a token at position `i` of `s[1..]`. */
  lemma CrcTokenShift(s: string, i: nat)
    requires 0 < |s|
    ensures CrcTokenAt(s, i + 1) == CrcTokenAt(s[1..], i)
  {
    if i + 11 <= |s| {
      assert s[1..][i + 1..i + 9] == s[i + 2..i + 10];
    }
  }

  /** Nothing is found exactly when the name holds no token; then `gsub` changes nothing. */
  lemma {:induction false} NoCrcToken(s: string)
    ensures FirstCrcToken(s) == None <==> forall i :: 0 <= i < |s| ==> !CrcTokenAt(s, i)
    ensures FirstCrcToken(s) == None ==> StripCrcTokens(s) == s
    decreases |s|
  {
    if s != [] {
      NoCrcToken(s[1..]);
      if FirstCrcToken(s) == None {
        forall i | 0 <= i < |s| ensures !CrcTokenAt(s, i) {
          if i > 0 {
            CrcTokenShift(s, i - 1);
          }
        }
        assert s == [s[0]] + s[1..];
      } else if !CrcTokenAt(s, 0) {
        var i :| 0 <= i < |s| - 1 && CrcTokenAt(s[1..], i);
        CrcTokenShift(s, i);
      }
    }
  }

  /** No token of `a + x` starts in `a` and reaches into `x`. */
  predicate NoTokenAcross(a: string, x: string) {
    forall i: nat :: i < |a| < i + 10 ==> !CrcTokenAt(a + x, i)
  }

  /** A token at position `i + k` of `s` is a token at position `i` of `s[k..]`. */
  lemma CrcTokenDrop(s: string, k: nat, i: nat)
    requires k <= |s|
    ensures CrcTokenAt(s, i + k) == CrcTokenAt(s[k..], i)
  {
    if i + k + 10 <= |s| {
      assert s[k..][i + 1..i + 9] == s[i + k + 1..i + k + 9];
    }
  }

  /** A token that fits in `a` is a token of `a + x` and the reverse. */
  lemma CrcTokenPrefix(a: string, x: string, i: nat)
    requires i + 10 <= |a|
    ensures CrcTokenAt(a + x, i) == CrcTokenAt(a, i)
  {
    assert (a + x)[i + 1..i + 9] == a[i + 1..i + 9];
  }

  /**
    Where no token reaches across the boundary, removing the tokens of a
    concatenation removes those of each part.
  */
  lemma {:induction false} StripSplit(a: string, x: string)
    requires NoTokenAcross(a, x)
    ensures StripCrcTokens(a + x) == StripCrcTokens(a) + StripCrcTokens(x)
    decreases |a|
  {
    if a == [] {
      assert a + x == x;
    } else {
      var k := if CrcTokenAt(a + x, 0) then 10 else 1;
      if k == 10 {
        assert |a| >= 10;
        CrcTokenPrefix(a, x, 0);
      } else if |a| >= 10 {
        CrcTokenPrefix(a, x, 0);
      }
      assert (a + x)[k..] == a[k..] + x;
      forall i: nat | i < |a[k..]| < i + 10 ensures !CrcTokenAt(a[k..] + x, i) {
        CrcTokenDrop(a + x, k, i);
      }
      StripSplit(a[k..], x);
      if k == 1 {
        assert a == [a[0]] + a[1..];
      }
    }
  }

  /**
    Every token `[XXXXXXXX]` is removed whatever text surrounds it: no token
    the scan finds before it can reach its opening bracket.
  */
  lemma StripCrcToken(a: string, h: string, b: string)
    requires |h| == 8 && AllHex(h)
    ensures StripCrcTokens(a + ("[" + h + "]") + b) == StripCrcTokens(a) + StripCrcTokens(b)
  {
    var t := "[" + h + "]" + b;
    assert a + ("[" + h + "]") + b == a + t;
    assert t[0] == '[' && !IsHexDigit('[');
    forall i: nat | i < |a| < i + 10 ensures !CrcTokenAt(a + t, i) {
      assert (a + t)[|a|] == '[';
    }
    StripSplit(a, t);
    assert t[1..9] == h && t[10..] == b;
    assert CrcTokenAt(t, 0);
  }

  // ---------------------------------------------------------------------------
  // `scan(/\d+/)` and `numbers_in_filename`

  /** `scan(/\d+/)`: the maximal runs of digits, left to right. */
  function DigitRuns(s: string): (runs: seq<string>)
    ensures forall k :: 0 <= k < |runs| ==> |runs[k]| > 0 && AllDigits(runs[k])
    decreases |s|
  {
    if s == [] then []
    else if !IsDigit(s[0]) then DigitRuns(s[1..])
    else
      var d := DigitPrefix(s);
      [d] + DigitRuns(s[|d|..])
  }

  /** A run of digits on its own is one run. */
  lemma DigitRunsOfDigits(d: string)
    requires |d| > 0 && AllDigits(d)
    ensures DigitRuns(d) == [d]
  {
    DigitPrefixOfDigits(d, []);
    assert d + [] == d;
  }

  /** A character that is not a digit separates the runs before it from those after it. */
  lemma {:induction false} DigitRunsSplit(a: string, c: char, b: string)
    requires !IsDigit(c)
    ensures DigitRuns(a + [c] + b) == DigitRuns(a) + DigitRuns(b)
    decreases |a|
  {
    var s := a + [c] + b;
    if a == [] {
      assert s[1..] == b;
    } else if !IsDigit(a[0]) {
      assert s[1..] == a[1..] + [c] + b;
      DigitRunsSplit(a[1..], c, b);
    } else {
      var d := DigitPrefix(a);
      if |d| == |a| {
        assert a == d;
        DigitPrefixOfDigits(a, [c] + b);
        assert s == a + ([c] + b);
        assert s[|a|..] == [c] + b;
        assert ([c] + b)[1..] == b;
        DigitRunsOfDigits(a);
      } else {
        assert a == d + a[|d|..];
        DigitPrefixOfDigits(d, a[|d|..] + [c] + b);
        assert s == d + (a[|d|..] + [c] + b);
        assert s[|d|..] == a[|d|..] + [c] + b;
        DigitRunsSplit(a[|d|..], c, b);
        assert a[|d|..] != [];
        DigitPrefixOfDigits(d, a[|d|..]);
      }
    }
  }

  /** The runs `scan` returns, each read with `to_i`. */
  function RunValues(runs: seq<string>): (nums: seq<int>)
    ensures |nums| == |runs| && forall k :: 0 <= k < |runs| ==> nums[k] == ToI(runs[k])
  {
    seq(|runs|, k requires 0 <= k < |runs| => ToI(runs[k]))
  }

  lemma ToIOfRuns(runs: seq<string>)
    requires forall k :: 0 <= k < |runs| ==> |runs[k]| > 0 && AllDigits(runs[k])
    ensures forall k :: 0 <= k < |runs| ==> ToI(runs[k]) == DecimalValue(runs[k])
  {
    forall k | 0 <= k < |runs| ensures ToI(runs[k]) == DecimalValue(runs[k]) {
      ToIOfDigits(runs[k]);
    }
  }

  /**
    `numbers_in_filename(filename)`: the CRC tokens are deleted, then every
    maximal run of digits is read with `to_i`, which gives its decimal value.
  */
  function NumbersInFilename(filename: string): (nums: seq<int>)
    ensures var runs := DigitRuns(StripCrcTokens(filename));
      |nums| == |runs| && forall k :: 0 <= k < |nums| ==> nums[k] == DecimalValue(runs[k])
    ensures forall k :: 0 <= k < |nums| ==> nums[k] >= 0
  {
    var runs := DigitRuns(StripCrcTokens(filename));
    ToIOfRuns(runs);
    RunValues(runs)
  }

  /** A run of digits read by `to_i` is its decimal value. */
  lemma ToIOfDigits(d: string)
    requires |d| > 0 && AllDigits(d)
    ensures ToI(d) == DecimalValue(d)
  {
    assert !IsSpace(d[0]) && d[0] != '-' && d[0] != '+';
    LeadingNumberOfDigits(d);
  }

  /** A run of digits ended by a non-digit, or by the end, is the first run. */
  lemma LeadingRun(d: string, t: string)
    requires |d| > 0 && AllDigits(d)
    requires t == [] || !IsDigit(t[0])
    ensures DigitRuns(d + t) == [d] + DigitRuns(t)
  {
    DigitPrefixOfDigits(d, t);
    assert (d + t)[|d|..] == t;
  }

  /** Digit runs of text ending in a non-digit never join the runs after it. */
  lemma RunsConcat(x: string, y: string)
    requires x == [] || !IsDigit(x[|x| - 1])
    ensures DigitRuns(x + y) == DigitRuns(x) + DigitRuns(y)
  {
    if x == [] {
      assert x + y == y;
    } else {
      var x', c := x[..|x| - 1], x[|x| - 1];
      var e: string := [];
      assert x == x' + [c] + e;
      assert x + y == x' + [c] + y;
      DigitRunsSplit(x', c, y);
      DigitRunsSplit(x', c, e);
      assert DigitRuns(e) == [];
    }
  }

  lemma RunValuesConcat(r: seq<string>, u: seq<string>)
    ensures RunValues(r + u) == RunValues(r) + RunValues(u)
  {
    var ru := r + u;
    assert forall k :: 0 <= k < |u| ==> ru[|r| + k] == u[k];
  }

  /**
    A run of digits `d` that no CRC token covers, with no digit on either side
    once the tokens are removed, is found on its own between the numbers of
    the text before it and those of the text after it.
  */
  lemma NumberInFilename(a: string, d: string, b: string)
    requires |d| > 0 && AllDigits(d)
    requires NoTokenAcross(a, d + b)
    requires StripCrcTokens(a) == [] || !IsDigit(StripCrcTokens(a)[|StripCrcTokens(a)| - 1])
    requires StripCrcTokens(b) == [] || !IsDigit(StripCrcTokens(b)[0])
    ensures NumbersInFilename(a + d + b) ==
      NumbersInFilename(a) + [DecimalValue(d)] + NumbersInFilename(b)
  {
    StripAroundRun(a, d, b);
    NumbersAroundRun(StripCrcTokens(a), d, StripCrcTokens(b));
  }

  /** The runs of `x + (d + y)`, for a digit run `d` with non-digits beside it. */
  lemma NumbersAroundRun(x: string, d: string, y: string)
    requires |d| > 0 && AllDigits(d)
    requires x == [] || !IsDigit(x[|x| - 1])
    requires y == [] || !IsDigit(y[0])
    ensures RunValues(DigitRuns(x + (d + y))) ==
      RunValues(DigitRuns(x)) + [DecimalValue(d)] + RunValues(DigitRuns(y))
  {
    RunsAround(x, d, y);
    ValuesAround(DigitRuns(x), d, DigitRuns(y));
  }

  lemma RunsAround(x: string, d: string, y: string)
    requires |d| > 0 && AllDigits(d)
    requires x == [] || !IsDigit(x[|x| - 1])
    requires y == [] || !IsDigit(y[0])
    ensures DigitRuns(x + (d + y)) == DigitRuns(x) + ([d] + DigitRuns(y))
  {
    RunsConcat(x, d + y);
    LeadingRun(d, y);
  }

  lemma ValuesAround(rx: seq<string>, d: string, ry: seq<string>)
    requires |d| > 0 && AllDigits(d)
    ensures RunValues(rx + ([d] + ry)) == RunValues(rx) + [DecimalValue(d)] + RunValues(ry)
  {
    var dy := [d] + ry;
    assert RunValues(rx + dy) == RunValues(rx) + RunValues(dy) by {
      RunValuesConcat(rx, dy);
    }
    assert RunValues(dy) == RunValues([d]) + RunValues(ry) by {
      RunValuesConcat([d], ry);
    }
    assert RunValues([d]) == [DecimalValue(d)] by {
      RunValueOfDigits(d);
    }
    ConcatAssoc(RunValues(rx), [DecimalValue(d)], RunValues(ry));
  }

  lemma ConcatAssoc(x: seq<int>, y: seq<int>, z: seq<int>)
    ensures x + (y + z) == x + y + z
  {
  }

  lemma RunValueOfDigits(d: string)
    requires |d| > 0 && AllDigits(d)
    ensures RunValues([d]) == [DecimalValue(d)]
  {
    ToIOfDigits(d);
  }

  /** Removing the tokens around a run no token covers keeps the run. */
  lemma StripAroundRun(a: string, d: string, b: string)
    requires AllDigits(d)
    requires NoTokenAcross(a, d + b)
    ensures StripCrcTokens(a + d + b) == StripCrcTokens(a) + (d + StripCrcTokens(b))
  {
    assert a + d + b == a + (d + b);
    StripSplit(a, d + b);
    forall i | 0 <= i < |d| ensures d[i] != '[' {
      assert IsDigit(d[i]);
    }
    StripKeepsPlainText(d, b);
  }

  /**
    The digits of a CRC token are never counted: the numbers of a name holding
    a token are those of the text around it, the token deleted, and when the
    text before it ends in a non-digit they are the numbers of each side.
  */
  lemma CrcDigitsIgnored(a: string, h: string, b: string)
    requires |h| == 8 && AllHex(h)
    ensures NumbersInFilename(a + ("[" + h + "]") + b) ==
      RunValues(DigitRuns(StripCrcTokens(a) + StripCrcTokens(b)))
    ensures StripCrcTokens(a) == [] || !IsDigit(StripCrcTokens(a)[|StripCrcTokens(a)| - 1]) ==>
      NumbersInFilename(a + ("[" + h + "]") + b) == NumbersInFilename(a) + NumbersInFilename(b)
  {
    StripCrcToken(a, h, b);
    var sa := StripCrcTokens(a);
    if sa == [] || !IsDigit(sa[|sa| - 1]) {
      RunsConcat(sa, StripCrcTokens(b));
      RunValuesConcat(DigitRuns(sa), DigitRuns(StripCrcTokens(b)));
    }
  }

  // ---------------------------------------------------------------------------
  // `next_number_in_series`

  /**
    The numbers of the yielded episodes, read with `to_i`: a digit string
    gives its decimal value, so the padding zeros do not count.
  */
  function EpisodeNumbers(ys: seq<Episode>): (nums: seq<int>)
    ensures |nums| == |ys|
    ensures forall i :: 0 <= i < |ys| && |ys[i].number| > 0 && AllDigits(ys[i].number) ==>
      nums[i] == DecimalValue(ys[i].number)
  {
    ToIOfNumbers(ys);
    seq(|ys|, i requires 0 <= i < |ys| => ToI(ys[i].number))
  }

  lemma ToIOfNumbers(ys: seq<Episode>)
    ensures forall i :: 0 <= i < |ys| && |ys[i].number| > 0 && AllDigits(ys[i].number) ==>
      ToI(ys[i].number) == DecimalValue(ys[i].number)
  {
    forall i | 0 <= i < |ys| && |ys[i].number| > 0 && AllDigits(ys[i].number)
      ensures ToI(ys[i].number) == DecimalValue(ys[i].number)
    {
      ToIOfDigits(ys[i].number);
    }
  }

  /**
    The loop of `next_number_in_series` from the expected number `next` on:
    each number must be the expected one, and the next is one more.
  */
  function SeriesFrom(nums: seq<int>, next: int): Result<int>
    decreases |nums|
  {
    if nums == [] then Ok(next)
    else if nums[0] != next then Err(InconsistentNumbering(next, nums[0]))
    else SeriesFrom(nums[1..], next + 1)
  }

  /** When the numbers run `next, next + 1, ...` without a gap, the series continues after the last. */
  lemma {:induction false} SeriesComplete(nums: seq<int>, next: int)
    requires forall i :: 0 <= i < |nums| ==> nums[i] == next + i
    ensures SeriesFrom(nums, next) == Ok(next + |nums|)
    decreases |nums|
  {
    if nums != [] {
      SeriesComplete(nums[1..], next + 1);
    }
  }

  /** The first number out of line raises, naming the number expected and the one found. */
  lemma {:induction false} SeriesBroken(nums: seq<int>, next: int, k: nat)
    requires k < |nums| && nums[k] != next + k
    requires forall i :: 0 <= i < k ==> nums[i] == next + i
    ensures SeriesFrom(nums, next) == Err(InconsistentNumbering(next + k, nums[k]))
    decreases k
  {
    if k > 0 {
      SeriesBroken(nums[1..], next + 1, k - 1);
    }
  }

  /** The series is accepted exactly when it has no gap. */
  lemma {:induction false} SeriesOutcome(nums: seq<int>, next: int)
    ensures SeriesFrom(nums, next).Ok? <==> forall i :: 0 <= i < |nums| ==> nums[i] == next + i
    decreases |nums|
  {
    if nums != [] {
      SeriesOutcome(nums[1..], next + 1);
      if nums[0] == next && SeriesFrom(nums, next).Ok? {
        forall i | 0 <= i < |nums| ensures nums[i] == next + i {
          if i > 0 {
            assert nums[i] == nums[1..][i - 1];
          }
        }
      }
    }
  }
}
