/**
  Text primitives the commands rely on: the ASCII character classes of Ruby's
  regular expressions, decimal and hexadecimal renderings, `String#to_i`,
  `String#downcase` on ASCII, and the ordering `Array#sort` uses on strings.
*/
module Text {

  type byte = b: int | 0 <= b < 256

  // ---------------------------------------------------------------------------
  // Character classes. Ruby's `\d` and `\s` are ASCII-only.

  predicate IsDigit(c: char) { '0' <= c <= '9' }

  /** `\s`: space, tab, line feed, vertical tab, form feed, carriage return. */
  predicate IsSpace(c: char) { c == ' ' || '\t' <= c <= '\r' }

  /** `[0-9a-fA-F]` */
  predicate IsHexDigit(c: char) { IsDigit(c) || 'a' <= c <= 'f' || 'A' <= c <= 'F' }

  predicate IsLowerHexDigit(c: char) { IsDigit(c) || 'a' <= c <= 'f' }

  predicate AllDigits(s: string) { forall i :: 0 <= i < |s| ==> IsDigit(s[i]) }

  predicate AllHex(s: string) { forall i :: 0 <= i < |s| ==> IsHexDigit(s[i]) }

  predicate AllLowerHex(s: string) { forall i :: 0 <= i < |s| ==> IsLowerHexDigit(s[i]) }

  function LowerChar(c: char): char {
    if 'A' <= c <= 'Z' then (c as int + 32) as char else c
  }

  /** `String#downcase`, for the ASCII strings it is applied to here. */
  function Lower(s: string): string {
    seq(|s|, i requires 0 <= i < |s| => LowerChar(s[i]))
  }

  // ---------------------------------------------------------------------------
  // Decimal numbers

  function DigitValue(c: char): nat
    requires IsDigit(c)
  {
    c as int - '0' as int
  }

  function DigitChar(d: nat): char
    requires d < 10
  {
    ('0' as int + d) as char
  }

  /** `String#to_i` of a string of decimal digits: leading zeros carry no value. */
  function DecimalValue(s: string): nat
    requires AllDigits(s)
  {
    if s == [] then 0 else 10 * DecimalValue(s[..|s| - 1]) + DigitValue(s[|s| - 1])
  }

  /** `Integer#to_s`: decimal digits without leading zeros. */
  function DecimalString(n: nat): (s: string)
    ensures 1 <= |s| && AllDigits(s)
  {
    if n < 10 then [DigitChar(n)] else DecimalString(n / 10) + [DigitChar(n % 10)]
  }

  lemma {:induction false} DecimalStringValue(n: nat)
    ensures DecimalValue(DecimalString(n)) == n
  {
    if n >= 10 {
      DecimalStringValue(n / 10);
      var s := DecimalString(n);
      assert s[..|s| - 1] == DecimalString(n / 10);
    }
  }

  function Pow10(k: nat): nat {
    if k == 0 then 1 else 10 * Pow10(k - 1)
  }

  lemma {:induction false} Pow10AtLeastTen(k: nat)
    requires 1 <= k
    ensures 10 <= Pow10(k)
  {
    if k > 1 { Pow10AtLeastTen(k - 1); }
  }

  /** A number has at most `w` decimal digits exactly when it is below 10^w. */
  lemma {:induction false} DecimalStringLength(n: nat, w: nat)
    requires 1 <= w
    ensures |DecimalString(n)| <= w <==> n < Pow10(w)
  {
    if n < 10 {
      Pow10AtLeastTen(w);
    } else if w == 1 {
      assert |DecimalString(n)| == |DecimalString(n / 10)| + 1;
    } else {
      DecimalStringLength(n / 10, w - 1);
    }
  }

  function Zeros(k: nat): string {
    seq(k, _ => '0')
  }

  /** `"%0<w>d" % n`: `n` in decimal, left-padded with zeros to `w` characters. */
  function ZeroPad(n: nat, w: nat): string {
    var d := DecimalString(n);
    if |d| < w then Zeros(w - |d|) + d else d
  }

  lemma {:induction false} DecimalValueOfZeros(k: nat)
    ensures AllDigits(Zeros(k)) && DecimalValue(Zeros(k)) == 0
  {
    if k > 0 {
      DecimalValueOfZeros(k - 1);
      assert Zeros(k)[..k - 1] == Zeros(k - 1);
    }
  }

  lemma {:induction false} DecimalValueLeadingZeros(k: nat, s: string)
    requires AllDigits(s)
    ensures AllDigits(Zeros(k) + s) && DecimalValue(Zeros(k) + s) == DecimalValue(s)
    decreases |s|
  {
    if s == [] {
      DecimalValueOfZeros(k);
      assert Zeros(k) + s == Zeros(k);
    } else {
      var t := Zeros(k) + s;
      assert t[..|t| - 1] == Zeros(k) + s[..|s| - 1];
      DecimalValueLeadingZeros(k, s[..|s| - 1]);
    }
  }

  /**
    The padded rendering consists of digits, reads back as `n`, and is exactly
    `w` characters long whenever `n` has no more than `w` digits.
  */
  lemma ZeroPadProperties(n: nat, w: nat)
    ensures AllDigits(ZeroPad(n, w))
    ensures DecimalValue(ZeroPad(n, w)) == n
    ensures |ZeroPad(n, w)| == if |DecimalString(n)| < w then w else |DecimalString(n)|
    ensures 1 <= w && n < Pow10(w) ==> |ZeroPad(n, w)| == w
  {
    var d := DecimalString(n);
    DecimalStringValue(n);
    if |d| < w {
      DecimalValueLeadingZeros(w - |d|, d);
    }
    if 1 <= w {
      DecimalStringLength(n, w);
    }
  }

  // ---------------------------------------------------------------------------
  // Hexadecimal

  function HexChar(v: nat): char
    requires v < 16
  {
    if v < 10 then DigitChar(v) else ('a' as int + (v - 10)) as char
  }

  function HexDigitValue(c: char): nat
    requires IsHexDigit(c)
  {
    if IsDigit(c) then DigitValue(c)
    else if 'a' <= c <= 'f' then c as int - 'a' as int + 10
    else c as int - 'A' as int + 10
  }

  /** The value of a string of hex digits of either case, most significant first. */
  function HexValue(s: string): nat
    requires AllHex(s)
  {
    if s == [] then 0 else 16 * HexValue(s[..|s| - 1]) + HexDigitValue(s[|s| - 1])
  }

  function HexByte(b: byte): string {
    [HexChar(b / 16), HexChar(b % 16)]
  }

  /** `Digest.hexencode`: two lowercase hex digits per byte, in byte order. */
  function Hex(bs: seq<byte>): (s: string)
    ensures |s| == 2 * |bs| && AllLowerHex(s)
  {
    if bs == [] then [] else HexByte(bs[0]) + Hex(bs[1..])
  }

  /** The big-endian unsigned value of a byte string. */
  function BytesValue(bs: seq<byte>): nat {
    if bs == [] then 0 else 256 * BytesValue(bs[..|bs| - 1]) + bs[|bs| - 1]
  }

  function Pow16(k: nat): nat {
    if k == 0 then 1 else 16 * Pow16(k - 1)
  }

  /** The arithmetic of appending one digit: `16 * (a * p + b) + d == a * (16 * p) + (16 * b + d)`. */
  lemma ShiftStep(u: int, v: int, a: int, b: int, p: int, d: int, w: int, q: int)
    requires u == 16 * v + d && v == a * p + b && w == 16 * b + d && q == 16 * p
    ensures u == a * q + w
  {
  }

  lemma {:induction false} HexValueAppend(s: string, t: string)
    requires AllHex(s) && AllHex(t)
    ensures AllHex(s + t) && HexValue(s + t) == HexValue(s) * Pow16(|t|) + HexValue(t)
    decreases |t|
  {
    var u := s + t;
    assert AllHex(u);
    if t != [] {
      var t' := t[..|t| - 1];
      assert u[..|u| - 1] == s + t';
      assert u[|u| - 1] == t[|t| - 1];
      HexValueAppend(s, t');
      ShiftStep(HexValue(u), HexValue(s + t'), HexValue(s), HexValue(t'), Pow16(|t'|),
                HexDigitValue(t[|t| - 1]), HexValue(t), Pow16(|t|));
    } else {
      assert u == s;
    }
  }

  lemma HexCharValue(v: nat)
    requires v < 16
    ensures IsLowerHexDigit(HexChar(v)) && HexDigitValue(HexChar(v)) == v
  {
  }

  lemma HexByteValue(b: byte)
    ensures AllHex(HexByte(b)) && HexValue(HexByte(b)) == b
  {
    var hi, lo := HexChar(b / 16), HexChar(b % 16);
    HexCharValue(b / 16);
    HexCharValue(b % 16);
    assert HexByte(b)[..1] == [hi];
    assert [hi][..0] == [];
    assert HexValue([hi]) == b / 16;
    assert HexValue(HexByte(b)) == 16 * HexValue([hi]) + HexDigitValue(lo);
  }

  lemma {:induction false} HexAppend(a: seq<byte>, b: seq<byte>)
    ensures Hex(a + b) == Hex(a) + Hex(b)
  {
    if a != [] {
      assert (a + b)[1..] == a[1..] + b;
      HexAppend(a[1..], b);
    } else {
      assert a + b == b;
    }
  }

  /** Reading back the hex rendering of a byte string gives its big-endian value. */
  lemma {:induction false} HexValueOfHex(bs: seq<byte>)
    ensures AllHex(Hex(bs)) && HexValue(Hex(bs)) == BytesValue(bs)
    decreases |bs|
  {
    if bs != [] {
      var p, last := bs[..|bs| - 1], bs[|bs| - 1];
      assert bs == p + [last];
      HexAppend(p, [last]);
      assert Hex([last]) == HexByte(last);
      HexValueOfHex(p);
      HexValueAppend(Hex(p), HexByte(last));
      HexByteValue(last);
    }
  }

  lemma {:induction false} LowerHexCharsEqual(c: char, d: char)
    requires IsLowerHexDigit(c) && IsLowerHexDigit(d)
    requires HexDigitValue(c) == HexDigitValue(d)
    ensures c == d
  {
  }

  /** A number's last hex digit and the rest are determined by the number. */
  lemma LastDigitSplit(a: int, x: int, b: int, y: int)
    requires 0 <= x < 16 && 0 <= y < 16 && 16 * a + x == 16 * b + y
    ensures a == b && x == y
  {
  }

  /** Two lowercase hex strings of equal length are equal when their values are. */
  lemma {:induction false} LowerHexInjective(s: string, t: string)
    requires |s| == |t| && AllLowerHex(s) && AllLowerHex(t)
    requires HexValue(s) == HexValue(t)
    ensures s == t
    decreases |s|
  {
    if s != [] {
      var n := |s| - 1;
      var a, b := HexValue(s[..n]), HexValue(t[..n]);
      var x, y := HexDigitValue(s[n]), HexDigitValue(t[n]);
      assert 16 * a + x == 16 * b + y;
      LastDigitSplit(a, x, b, y);
      LowerHexCharsEqual(s[n], t[n]);
      LowerHexInjective(s[..n], t[..n]);
      assert s == s[..n] + [s[n]] && t == t[..n] + [t[n]];
    }
  }

  lemma {:induction false} LowerKeepsHexValue(s: string)
    requires AllHex(s)
    ensures AllLowerHex(Lower(s)) && HexValue(Lower(s)) == HexValue(s)
    decreases |s|
  {
    if s != [] {
      var n := |s| - 1;
      assert Lower(s)[..n] == Lower(s[..n]);
      LowerKeepsHexValue(s[..n]);
    }
  }

  /**
    Comparing `token.downcase` with the lowercase hex rendering of a digest is a
    comparison of values: it ignores letter case in the token and nothing else.
  */
  lemma DowncaseComparesValues(token: string, bs: seq<byte>)
    requires AllHex(token) && |token| == 2 * |bs|
    ensures Lower(token) == Hex(bs) <==> HexValue(token) == BytesValue(bs)
  {
    LowerKeepsHexValue(token);
    HexValueOfHex(bs);
    if HexValue(token) == BytesValue(bs) {
      LowerHexInjective(Lower(token), Hex(bs));
    }
  }

  // ---------------------------------------------------------------------------
  // String#to_i in base 10

  function SkipSpaces(s: string): (r: string)
    ensures |r| <= |s| && r == s[|s| - |r|..]
  {
    if |s| > 0 && IsSpace(s[0]) then SkipSpaces(s[1..]) else s
  }

  /** The digits at the front of `s`, where a single `_` may separate two digits. */
  function LeadingNumber(s: string): (d: string)
    ensures AllDigits(d)
  {
    if |s| == 0 || !IsDigit(s[0]) then []
    else [s[0]] + LeadingNumber(if 3 <= |s| && s[1] == '_' && IsDigit(s[2]) then s[2..] else s[1..])
  }

  /**
    `String#to_i`: leading white space is skipped, one sign is allowed, digits
    (with single underscores between them) are read up to the first other
    character; no digits read as 0.
  */
  function ToI(s: string): int {
    var t := SkipSpaces(s);
    if |t| > 0 && t[0] == '-' then 0 - DecimalValue(LeadingNumber(t[1..])) as int
    else if |t| > 0 && t[0] == '+' then DecimalValue(LeadingNumber(t[1..]))
    else DecimalValue(LeadingNumber(t))
  }

  lemma {:induction false} LeadingNumberOfDigits(s: string)
    requires AllDigits(s)
    ensures LeadingNumber(s) == s
  {
    if s != [] {
      LeadingNumberOfDigits(s[1..]);
      assert s == [s[0]] + s[1..];
    }
  }

  /** `n.to_s.to_i == n` */
  lemma ToIOfDecimal(n: nat)
    ensures ToI(DecimalString(n)) == n
  {
    var s := DecimalString(n);
    assert !IsSpace(s[0]) && s[0] != '-' && s[0] != '+';
    LeadingNumberOfDigits(s);
    DecimalStringValue(n);
  }

  // ---------------------------------------------------------------------------
  // The order of `Array#sort` on strings: lexicographic by character code, a
  // proper prefix first. (On UTF-8 text this coincides with Ruby's byte order.)

  predicate LexLess(a: string, b: string)
    decreases |a|
  {
    0 < |b| && (|a| == 0 || a[0] < b[0] || (a[0] == b[0] && LexLess(a[1..], b[1..])))
  }

  lemma {:induction false} LexLessIrreflexive(a: string)
    ensures !LexLess(a, a)
    decreases |a|
  {
    if |a| > 0 { LexLessIrreflexive(a[1..]); }
  }

  lemma {:induction false} LexLessTransitive(a: string, b: string, c: string)
    requires LexLess(a, b) && LexLess(b, c)
    ensures LexLess(a, c)
    decreases |a|
  {
    if |a| > 0 && a[0] == b[0] && b[0] == c[0] {
      LexLessTransitive(a[1..], b[1..], c[1..]);
    }
  }

  lemma {:induction false} LexLessTotal(a: string, b: string)
    ensures a == b || LexLess(a, b) || LexLess(b, a)
    decreases |a|
  {
    if |a| > 0 && |b| > 0 && a[0] == b[0] {
      LexLessTotal(a[1..], b[1..]);
      if a[1..] == b[1..] {
        assert a == [a[0]] + a[1..] && b == [b[0]] + b[1..];
      }
    }
  }

  predicate StrictlySorted(s: seq<string>) {
    forall i, j :: 0 <= i < j < |s| ==> LexLess(s[i], s[j])
  }

  predicate IsLeast(m: string, S: set<string>) {
    m in S && forall x :: x in S ==> !LexLess(x, m)
  }

  lemma {:induction false} LeastExists(S: set<string>)
    requires S != {}
    ensures exists m :: IsLeast(m, S)
    decreases S
  {
    var x :| x in S;
    if S - {x} == {} {
      assert S == {x};
      LexLessIrreflexive(x);
      assert IsLeast(x, S);
    } else {
      LeastExists(S - {x});
      var m :| IsLeast(m, S - {x});
      if LexLess(x, m) {
        forall y | y in S ensures !LexLess(y, x) {
          if LexLess(y, x) { LexLessTransitive(y, x, m); }
          LexLessIrreflexive(x);
        }
        assert IsLeast(x, S);
      } else {
        assert IsLeast(m, S);
      }
    }
  }

  lemma LeastUnique(S: set<string>)
    ensures forall a, b :: IsLeast(a, S) && IsLeast(b, S) ==> a == b
  {
    forall a, b | IsLeast(a, S) && IsLeast(b, S) ensures a == b {
      LexLessTotal(a, b);
    }
  }

  lemma LeastComesFirst(m: string, S: set<string>)
    requires IsLeast(m, S)
    ensures forall x :: x in S && x != m ==> LexLess(m, x)
  {
    forall x | x in S && x != m ensures LexLess(m, x) {
      LexLessTotal(m, x);
    }
  }

  /** The elements of `S` in ascending order: `set.to_a.sort`. */
  function SortedOf(S: set<string>): (s: seq<string>)
    ensures StrictlySorted(s)
    ensures forall x :: x in s <==> x in S
    decreases S
  {
    if S == {} then []
    else
      LeastExists(S);
      LeastUnique(S);
      var m :| IsLeast(m, S);
      LeastComesFirst(m, S);
      [m] + SortedOf(S - {m})
  }
}
