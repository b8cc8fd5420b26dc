/**
 Decimal text of C ints: what `sprintf(buf, "%d", x)` writes (void_int_to_string)
 and what a `%d` directive of `fscanf` reads back.
 */
module Decimal {
  import opened Options

  /** The range of a 32-bit C `int`. */
  const MinInt: int := -0x8000_0000
  const MaxInt: int := 0x7FFF_FFFF

  /** void_int_to_string renders into a buffer of this many chars. */
  const ConvBufferSize: nat := 50

  predicate IsDigit(c: char) {
    '0' <= c <= '9'
  }

  /** The characters `isspace` accepts in the "C" locale. */
  predicate IsSpace(c: char) {
    c == ' ' || c == '\t' || c == '\n' || c == '\U{B}' || c == '\U{C}' || c == '\r'
  }

  predicate AllDigits(s: string) {
    forall i :: 0 <= i < |s| ==> IsDigit(s[i])
  }

  function DigitChar(d: nat): (c: char)
    requires d < 10
    ensures IsDigit(c)
  {
    (('0' as int) + d) as char
  }

  function DigitVal(c: char): int
  {
    (c as int) - ('0' as int)
  }

  function Pow10(k: nat): (p: nat)
    ensures p >= 1
  {
    if k == 0 then 1 else 10 * Pow10(k - 1)
  }

  lemma {:induction false} Pow10Monotone(i: nat, j: nat)
    requires i <= j
    ensures Pow10(i) <= Pow10(j)
  {
    if i < j {
      Pow10Monotone(i, j - 1);
    }
  }

  /** The value of a digit string read most significant digit first. */
  function DigitsValue(s: string): int
  {
    if s == [] then 0 else 10 * DigitsValue(s[..|s| - 1]) + DigitVal(s[|s| - 1])
  }

  /** The decimal digits of `n`, most significant first. */
  function Digits(n: nat): (s: string)
    ensures 1 <= |s| && IsDigit(s[0])
  {
    if n < 10 then [DigitChar(n)] else Digits(n / 10) + [DigitChar(n % 10)]
  }

  /** The digits of `n` are decimal digits without leading zeros, and reading them back gives `n`. */
  lemma {:induction false} DigitsIsDecimal(n: nat)
    ensures AllDigits(Digits(n))
    ensures Digits(n)[0] == '0' ==> n == 0
    ensures DigitsValue(Digits(n)) == n
  {
    var s := Digits(n);
    if n >= 10 {
      DigitsIsDecimal(n / 10);
      assert s[..|s| - 1] == Digits(n / 10);
    }
  }

  /** The number of digits of `n` is the unique `k` with 10^(k-1) <= n < 10^k. */
  lemma {:induction false} DigitsLength(n: nat)
    ensures n < Pow10(|Digits(n)|)
    ensures |Digits(n)| == 1 || Pow10(|Digits(n)| - 1) <= n
  {
    if n >= 10 {
      DigitsLength(n / 10);
      assert |Digits(n)| == |Digits(n / 10)| + 1;
    }
  }

  /** Every int in the 32-bit range has at most ten digits. */
  lemma {:induction false} DigitsOfInt32(n: nat)
    ensures n <= 0x8000_0000 ==> |Digits(n)| <= 10
  {
    assert Pow10(10) == 10_000_000_000;
    var k := |Digits(n)|;
    DigitsLength(n);
    if k > 10 {
      Pow10Monotone(10, k - 1);
    }
  }

  /** void_int_to_string: the text `sprintf("%d")` writes for `x`. */
  function IntToString(x: int): (s: string)
    ensures 1 <= |s|
    ensures s[0] == '-' <==> x < 0
  {
    (if x < 0 then ['-'] else []) + Digits(if x < 0 then -x else x)
  }

  /**
   The text void_int_to_string writes is decimal: a minus sign exactly when
   `x` is negative, then the digits of its magnitude without leading zeros.
   For a 32-bit int it has at most 11 chars, so with its terminating NUL it
   fits the 50-char buffer.
   */
  lemma {:induction false} IntToStringIsDecimal(x: int)
    ensures var s := IntToString(x);
      && |s| >= 1
      && ((s[0] == '-') <==> x < 0)
      && var m := if x < 0 then 1 else 0;
         m < |s| && AllDigits(s[m..]) && (s[m] == '0' ==> x == 0)
    ensures MinInt <= x <= MaxInt ==> |IntToString(x)| <= 11 && |IntToString(x)| + 1 <= ConvBufferSize
  {
    var s := IntToString(x);
    var n: nat := if x < 0 then -x else x;
    DigitsIsDecimal(n);
    DigitsOfInt32(n);
    if x < 0 {
      assert s[1..] == Digits(n);
    } else {
      assert s == [] + Digits(n);
      assert s[0..] == Digits(n);
    }
  }

  /** The text of an int holds only a minus sign and digits: no NUL, comma, newline, space or `<`. */
  lemma {:induction false} IntToStringHasNo(x: int, c: char)
    requires c != '-' && !IsDigit(c)
    ensures c !in IntToString(x)
  {
    var s := IntToString(x);
    var m := if x < 0 then 1 else 0;
    IntToStringIsDecimal(x);
    forall i | 0 <= i < |s|
      ensures s[i] != c
    {
      if i >= m {
        assert s[i] == s[m..][i - m];
      }
    }
  }

  /** `s` stands in `t` at position `i`. */
  predicate At(t: string, i: nat, s: string)
    decreases |s|
  {
    i + |s| <= |t| && (s == [] || (t[i] == s[0] && At(t, i + 1, s[1..])))
  }

  /** The rest of a text stands in it where that rest begins. */
  lemma {:induction false} AtSuffix(t: string, i: nat)
    requires i <= |t|
    ensures At(t, i, t[i..])
    decreases |t| - i
  {
    if i < |t| {
      assert t[i..][1..] == t[i + 1..];
      AtSuffix(t, i + 1);
    }
  }

  /** Position `j` of `t` is past the end of any number: the end of the text, or a char that is not a digit. */
  predicate EndsNumber(t: string, j: nat) {
    j <= |t| && (j == |t| || !IsDigit(t[j]))
  }

  /** Text standing at `i` is split in two parts standing one after the other. */
  lemma {:induction false} AtAppend(t: string, i: nat, a: string, b: string)
    requires At(t, i, a + b)
    ensures At(t, i, a) && At(t, i + |a|, b)
    decreases |a|
  {
    if a != [] {
      assert (a + b)[1..] == a[1..] + b;
      AtAppend(t, i + 1, a[1..], b);
    } else {
      assert a + b == b;
    }
  }

  /** The end of the run of white space that starts at `i`. */
  function SpaceRun(t: string, i: nat): (j: nat)
    requires i <= |t|
    ensures i <= j <= |t|
    ensures j == |t| || !IsSpace(t[j])
    decreases |t| - i
  {
    if i == |t| || !IsSpace(t[i]) then i else SpaceRun(t, i + 1)
  }

  /** The end of the run of digits that starts at `i`. */
  function DigitRun(t: string, i: nat): (j: nat)
    requires i <= |t|
    ensures i <= j <= |t|
    ensures j == |t| || !IsDigit(t[j])
    decreases |t| - i
  {
    if i == |t| || !IsDigit(t[i]) then i else DigitRun(t, i + 1)
  }

  lemma {:induction false} DigitRunOfDigits(t: string, i: nat, d: string)
    requires AllDigits(d) && At(t, i, d) && EndsNumber(t, i + |d|)
    ensures DigitRun(t, i) == i + |d|
    decreases |d|
  {
    if d != [] {
      DigitRunOfDigits(t, i + 1, d[1..]);
    }
  }

  /** The value of the digits from `i` up to `j`, read most significant first. */
  function ValueAt(t: string, i: nat, j: nat): int
    requires i <= j <= |t|
    decreases j - i
  {
    if j == i then 0 else 10 * ValueAt(t, i, j - 1) + DigitVal(t[j - 1])
  }

  /** Chars of text standing at `i` are found at their offsets from `i`. */
  lemma {:induction false} AtIndex(t: string, i: nat, s: string, m: nat)
    requires At(t, i, s) && m < |s|
    ensures t[i + m] == s[m]
    decreases m
  {
    if m > 0 {
      AtIndex(t, i + 1, s[1..], m - 1);
    }
  }

  lemma {:induction false} ValueAtOfDigits(t: string, i: nat, d: string)
    requires At(t, i, d)
    ensures ValueAt(t, i, i + |d|) == DigitsValue(d)
    decreases |d|
  {
    if d != [] {
      var e := d[..|d| - 1];
      assert d == e + [d[|d| - 1]];
      AtAppend(t, i, e, [d[|d| - 1]]);
      AtIndex(t, i, d, |d| - 1);
      ValueAtOfDigits(t, i, e);
    }
  }

  /** What one `%d` directive did: the int it stored, if any, and where it stopped reading. */
  datatype IntScan = IntScan(value: Option<int>, next: nat)

  /** The run of digits at `i`, as an unsigned `%d` input item. */
  function ScanDigits(t: string, i: nat): (r: IntScan)
    requires i <= |t|
    ensures i <= r.next <= |t|
    ensures r.value.Some? <==> i < r.next
    ensures r.next == |t| || !IsDigit(t[r.next])
  {
    var j := DigitRun(t, i);
    if j == i then IntScan(None, i) else IntScan(Some(ValueAt(t, i, j)), j)
  }

  /** An optionally signed `%d` input item at `i`, white space already skipped. */
  function ScanSigned(t: string, i: nat): (r: IntScan)
    requires i <= |t|
    ensures i <= r.next <= |t|
    ensures r.next == |t| || !IsDigit(t[r.next])
  {
    if i < |t| && (t[i] == '-' || t[i] == '+') then
      var r := ScanDigits(t, i + 1);
      IntScan(if r.value.Some? && t[i] == '-' then Some(-r.value.value) else r.value, r.next)
    else
      ScanDigits(t, i)
  }

  /**
   One `%d` directive of `fscanf` (section 7.21.6.2 of ISO C11) reading `t`
   from `i`: white space is skipped, then an optional sign and the longest run
   of digits is the input item. Without any digit the directive fails and
   stores nothing, but the white space and a sign it has read stay consumed;
   the first char after the input item is left unread.
   */
  function ScanInt(t: string, i: nat): (r: IntScan)
    requires i <= |t|
    ensures i <= r.next <= |t|
    ensures r.next == |t| || !IsDigit(t[r.next])
  {
    ScanSigned(t, SpaceRun(t, i))
  }

  lemma {:induction false} ScanDigitsOfDigits(t: string, i: nat, n: nat)
    requires At(t, i, Digits(n)) && EndsNumber(t, i + |Digits(n)|)
    ensures ScanDigits(t, i) == IntScan(Some(n), i + |Digits(n)|)
  {
    DigitsIsDecimal(n);
    DigitRunOfDigits(t, i, Digits(n));
    ValueAtOfDigits(t, i, Digits(n));
  }

  /**
   Reading back what void_int_to_string wrote: a `%d` directive at the
   decimal text of `x`, when no digit follows it, stores `x` and stops right
   after that text.
   */
  lemma {:induction false} ScanIntOfDecimal(t: string, i: nat, x: int)
    requires At(t, i, IntToString(x)) && EndsNumber(t, i + |IntToString(x)|)
    ensures ScanInt(t, i) == IntScan(Some(x), i + |IntToString(x)|)
  {
    var n: nat := if x < 0 then -x else x;
    var sign: string := if x < 0 then ['-'] else [];
    assert IntToString(x) == sign + Digits(n);
    AtAppend(t, i, sign, Digits(n));
    DigitsIsDecimal(n);
    ScanDigitsOfDigits(t, i + |sign|, n);
    AtIndex(t, i + |sign|, Digits(n), 0);
    if x < 0 {
      AtIndex(t, i, sign, 0);
      assert ScanSigned(t, i) == IntScan(Some(x), i + |IntToString(x)|);
    } else {
      assert ScanSigned(t, i) == IntScan(Some(x), i + |IntToString(x)|);
    }
  }
}
