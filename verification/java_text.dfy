/**
  The few pieces of the Java runtime the battery widget leans on, stated
  exactly: 32-bit `int` arithmetic, `String.valueOf(int)`, the natural
  order of `String.compareTo`, and `TextUtils.split` with a one-character
  separator.
 */
module JavaText {
  import opened IntArith

  /** Java's `int`. */
  type Int32 = x: int | -0x8000_0000 <= x < 0x8000_0000

  /** Two's-complement wrap-around of a Java `int` operation whose exact value is `x`. */
  function Wrap32(x: int): (r: Int32)
    ensures (r - x) % 0x1_0000_0000 == 0
    ensures -0x8000_0000 <= x < 0x8000_0000 ==> r == x
  {
    (x + 0x8000_0000) % 0x1_0000_0000 - 0x8000_0000
  }

  /** Java's `/` on `int`: truncation toward zero. */
  function TruncDiv(a: Int32, b: Int32): (q: Int32)
    requires b > 0
    ensures a >= 0 ==> q == a / b
    ensures a < 0 ==> q <= 0 && q * b >= a && (q - 1) * b < a
  {
    if a >= 0 then a / b
    else
      var m: int := -(a as int);
      NegatedQuotient(m, b);
      -(m / b)
  }

  // ---------------------------------------------------------------------
  // String.valueOf(int) and its inverse

  predicate IsDigit(c: char) { '0' <= c <= '9' }

  predicate AllDigits(s: string) { forall i :: 0 <= i < |s| ==> IsDigit(s[i]) }

  function DigitChar(d: int): (c: char)
    requires 0 <= d < 10
    ensures IsDigit(c) && c as int - '0' as int == d
  {
    ('0' as int + d) as char
  }

  /** The shortest decimal spelling of a natural number. */
  function NatToDecimal(n: nat): (s: string)
    ensures |s| >= 1 && AllDigits(s)
    ensures n >= 10 ==> s[0] != '0'
    decreases n
  {
    if n < 10 then [DigitChar(n)] else NatToDecimal(n / 10) + [DigitChar(n % 10)]
  }

  /** `String.valueOf(int)`: a minus sign for negative values, then the digits. */
  function IntToDecimal(n: int): (s: string)
    ensures n >= 0 ==> s != [] && AllDigits(s)
    ensures n < 0 ==> |s| >= 2 && s[0] == '-' && AllDigits(s[1..])
    ensures n <= -10 ==> s[1] != '0'
  {
    if n < 0 then
      var digits := NatToDecimal(-n);
      assert (['-'] + digits)[1..] == digits;
      ['-'] + digits
    else NatToDecimal(n)
  }

  /** The value of a string of decimal digits (leading zeros allowed). */
  function DecimalValue(s: string): (v: nat)
    requires AllDigits(s)
  {
    if s == [] then 0
    else DecimalValue(s[..|s| - 1]) * 10 + (s[|s| - 1] as int - '0' as int)
  }

  /** The value of an optionally signed decimal numeral. */
  function SignedValue(s: string): int
    requires s != [] && s[0] == '-' ==> AllDigits(s[1..])
    requires s == [] || s[0] != '-' ==> AllDigits(s)
  {
    if s != [] && s[0] == '-' then -(DecimalValue(s[1..]) as int) else DecimalValue(s)
  }

  lemma {:induction false} NatToDecimalRoundTrip(n: nat)
    ensures DecimalValue(NatToDecimal(n)) == n
    decreases n
  {
    if n >= 10 {
      var s := NatToDecimal(n);
      assert s[..|s| - 1] == NatToDecimal(n / 10);
      NatToDecimalRoundTrip(n / 10);
    }
  }

  /** `String.valueOf(int)` loses nothing: its output parses back to the number. */
  lemma IntToDecimalRoundTrip(n: int)
    ensures SignedValue(IntToDecimal(n)) == n
  {
    if n < 0 {
      var s := IntToDecimal(n);
      assert s[1..] == NatToDecimal(-n);
      NatToDecimalRoundTrip(-n);
    } else {
      NatToDecimalRoundTrip(n);
    }
  }

  /** A leading zero does not change a decimal value. */
  lemma {:induction false} LeadingZero(s: string)
    requires AllDigits(s)
    ensures AllDigits(['0'] + s) && DecimalValue(['0'] + s) == DecimalValue(s)
    decreases |s|
  {
    var t := ['0'] + s;
    if s != [] {
      assert t[..|t| - 1] == ['0'] + s[..|s| - 1];
      LeadingZero(s[..|s| - 1]);
    }
  }

  lemma NatToDecimalLength(n: nat)
    ensures n < 10 ==> |NatToDecimal(n)| == 1
    ensures 10 <= n < 100 ==> |NatToDecimal(n)| == 2
    ensures 100 <= n < 1000 ==> |NatToDecimal(n)| == 3
  {
  }

  // ---------------------------------------------------------------------
  // String.compareTo

  /** `a.compareTo(b) < 0`: lexicographic by character, a proper prefix first. */
  predicate Less(a: string, b: string)
    decreases |a|
  {
    if a == [] then b != []
    else if b == [] then false
    else if a[0] != b[0] then a[0] < b[0]
    else Less(a[1..], b[1..])
  }

  predicate LessEq(a: string, b: string) { Less(a, b) || a == b }

  lemma {:induction false} LessIrreflexive(a: string)
    ensures !Less(a, a)
    decreases |a|
  {
    if a != [] { LessIrreflexive(a[1..]); }
  }

  lemma {:induction false} LessTransitive(a: string, b: string, c: string)
    requires Less(a, b) && Less(b, c)
    ensures Less(a, c)
    decreases |a|
  {
    if a != [] && a[0] == b[0] && b[0] == c[0] {
      LessTransitive(a[1..], b[1..], c[1..]);
    }
  }

  /** Two different strings are always ordered one way or the other. */
  lemma {:induction false} LessTotal(a: string, b: string)
    ensures a == b || Less(a, b) || Less(b, a)
    decreases |a|
  {
    if a != [] && b != [] && a[0] == b[0] {
      LessTotal(a[1..], b[1..]);
      if a[1..] == b[1..] {
        assert a == [a[0]] + a[1..] && b == [b[0]] + b[1..];
      }
    }
  }

  lemma LessAsymmetric(a: string, b: string)
    requires Less(a, b)
    ensures !Less(b, a) && a != b
  {
    LessIrreflexive(a);
    if Less(b, a) { LessTransitive(a, b, a); }
  }

  lemma LessEqLessTransitive(a: string, b: string, c: string)
    requires LessEq(a, b) && Less(b, c)
    ensures Less(a, c)
  {
    if a != b { LessTransitive(a, b, c); }
  }

  lemma LessLessEqTransitive(a: string, b: string, c: string)
    requires Less(a, b) && LessEq(b, c)
    ensures Less(a, c)
  {
    if b != c { LessTransitive(a, b, c); }
  }

  /** Ascending in the order of `String.compareTo` (duplicates allowed). */
  ghost predicate Sorted(s: seq<string>)
  {
    forall i, j :: 0 <= i < j < |s| ==> LessEq(s[i], s[j])
  }

  // ---------------------------------------------------------------------
  // TextUtils.split with a one-character separator

  /** `s.split(sep, -1)`: every separator cuts, empty pieces are kept. */
  function Split(s: string, sep: char): (parts: seq<string>)
    ensures |parts| >= 1
    decreases |s|
  {
    if s == [] then [[]]
    else
      var rest := Split(s[1..], sep);
      if s[0] == sep then [[]] + rest
      else [[s[0]] + rest[0]] + rest[1..]
  }

  /** The inverse of Split: the pieces glued back with the separator. */
  function Join(parts: seq<string>, sep: char): string
    requires |parts| >= 1
    decreases |parts|
  {
    if |parts| == 1 then parts[0] else parts[0] + [sep] + Join(parts[1..], sep)
  }

  /** `TextUtils.split`: the empty text has no pieces at all. */
  function TextSplit(s: string, sep: char): (parts: seq<string>)
    ensures s == [] <==> parts == []
  {
    if s == [] then [] else Split(s, sep)
  }

  lemma {:induction false} SplitJoin(s: string, sep: char)
    ensures Join(Split(s, sep), sep) == s
    decreases |s|
  {
    if s != [] {
      var rest := Split(s[1..], sep);
      SplitJoin(s[1..], sep);
      if s[0] == sep {
        assert Split(s, sep)[1..] == rest;
      } else if |rest| > 1 {
        var parts := Split(s, sep);
        assert parts[1..] == rest[1..];
        assert Join(rest, sep) == rest[0] + [sep] + Join(rest[1..], sep);
      }
    }
  }

  /** No piece of a split contains the separator. */
  lemma {:induction false} SplitPiecesFree(s: string, sep: char)
    ensures forall i :: 0 <= i < |Split(s, sep)| ==> sep !in Split(s, sep)[i]
    decreases |s|
  {
    if s != [] { SplitPiecesFree(s[1..], sep); }
  }

  lemma {:induction false} SplitWithoutSeparator(c: string, sep: char)
    requires sep !in c
    ensures Split(c, sep) == [c]
    decreases |c|
  {
    if c != [] {
      SplitWithoutSeparator(c[1..], sep);
      assert [c[0]] + c[1..] == c;
    }
  }

  /** Splitting at the first separator peels off the text before it. */
  lemma {:induction false} SplitAtFirst(p: string, c: string, sep: char)
    requires sep !in p
    ensures Split(p + [sep] + c, sep) == [p] + Split(c, sep)
    decreases |p|
  {
    var s := p + [sep] + c;
    if p == [] {
      assert s[1..] == c;
    } else {
      assert s[1..] == p[1..] + [sep] + c;
      SplitAtFirst(p[1..], c, sep);
      assert [p[0]] + p[1..] == p;
    }
  }

  /** A string without the separator splits into itself alone. */
  lemma SplitCount(s: string, sep: char)
    ensures |Split(s, sep)| == 1 <==> sep !in s
  {
    if sep !in s {
      SplitWithoutSeparator(s, sep);
    } else {
      var k :| 0 <= k < |s| && s[k] == sep;
      var i := FirstIndex(s, sep);
      assert s == s[..i] + [sep] + s[i + 1..];
      SplitAtFirst(s[..i], s[i + 1..], sep);
    }
  }

  function FirstIndex(s: string, c: char): (i: nat)
    requires c in s
    ensures i < |s| && s[i] == c && c !in s[..i]
  {
    if s[0] == c then 0 else
      assert c in s[1..];
      1 + FirstIndex(s[1..], c)
  }
}
