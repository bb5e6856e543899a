/** The decimal conversions of Go's strconv and strings packages that revision strings rely on. */
module Decimal {
  import opened Wrappers
  import opened Strings

  const MAX_UINT64 := 0xFFFF_FFFF_FFFF_FFFF
  const MIN_INT64 := -0x8000_0000_0000_0000
  const MAX_INT64 := 0x7FFF_FFFF_FFFF_FFFF

  predicate IsDigit(c: char) {
    '0' <= c <= '9'
  }

  predicate AllDigits(s: string) {
    forall i :: 0 <= i < |s| ==> IsDigit(s[i])
  }

  function Digit(d: nat): (c: char)
    requires d < 10
    ensures IsDigit(c) && c as int == '0' as int + d
  {
    ('0' as int + d) as char
  }

  function Value(s: string): nat
    requires AllDigits(s)
  {
    if s == "" then 0 else 10 * Value(s[..|s| - 1]) + (s[|s| - 1] as int - '0' as int)
  }

  function FormatNat(n: nat): (s: string)
    ensures s != "" && AllDigits(s)
  {
    if n < 10 then [Digit(n)] else FormatNat(n / 10) + [Digit(n % 10)]
  }

  /** strconv.FormatInt(x, 10). */
  function FormatInt(x: int): (s: string)
    ensures s != "" && (x >= 0 ==> AllDigits(s)) && (x < 0 ==> s[0] == '-')
  {
    if x < 0 then "-" + FormatNat(0 - x) else FormatNat(x)
  }

  /** strconv.ParseUint(s, 10, 64). */
  function ParseUint64(s: string): Option<nat> {
    if s == "" || !AllDigits(s) || Value(s) > MAX_UINT64 then None else Some(Value(s))
  }

  /** strconv.ParseInt(s, 10, 64): an optional sign, then digits within range. */
  function ParseInt64(s: string): Option<int> {
    if s == "" then None
    else
      var neg := s[0] == '-';
      match ParseUint64(if s[0] == '+' || s[0] == '-' then s[1..] else s)
      case None => None
      case Some(n) =>
        if neg then (if n > 0 - MIN_INT64 then None else Some(0 - n))
        else if n > MAX_INT64 then None else Some(n)
  }

  /** strings.Repeat("0", k). */
  function Zeros(k: nat): (s: string)
    ensures |s| == k && AllDigits(s)
  {
    if k == 0 then "" else Zeros(k - 1) + "0"
  }

  /** strings.Split with a one-character separator. */
  function Split(s: string, sep: char): (pieces: seq<string>)
    ensures pieces != []
  {
    if s == "" then [""]
    else
      var rest := Split(s[1..], sep);
      if s[0] == sep then [""] + rest else [[s[0]] + rest[0]] + rest[1..]
  }

  // ---- Laws ----

  lemma {:induction false} ValueOfFormat(n: nat)
    ensures Value(FormatNat(n)) == n
  {
    if n < 10 {
      assert FormatNat(n)[..0] == "";
    } else {
      ValueOfFormat(n / 10);
      assert FormatNat(n)[..|FormatNat(n)| - 1] == FormatNat(n / 10);
    }
  }

  lemma ParseOfNat(n: nat)
    requires n <= MAX_UINT64
    ensures ParseUint64(FormatNat(n)) == Some(n)
  {
    ValueOfFormat(n);
  }

  lemma ParseSigned(digits: string)
    requires digits != "" && AllDigits(digits)
    ensures ParseInt64("-" + digits) ==
            if ParseUint64(digits).None? || ParseUint64(digits).value > 0 - MIN_INT64 then None
            else Some(0 - ParseUint64(digits).value)
    ensures ParseInt64(digits) ==
            if ParseUint64(digits).None? || ParseUint64(digits).value > MAX_INT64 then None
            else Some(ParseUint64(digits).value)
  {
    assert ("-" + digits)[1..] == digits;
    assert IsDigit(digits[0]);
  }

  lemma ParseOfFormat(x: int)
    requires MIN_INT64 <= x <= MAX_INT64
    ensures ParseInt64(FormatInt(x)) == Some(x)
  {
    var n := if x < 0 then 0 - x else x;
    ParseOfNat(n);
    ParseSigned(FormatNat(n));
  }

  /** The text is a decimal number, with or without a sign, of value x. */
  predicate Denotes(s: string, x: int) {
    || (s != "" && AllDigits(s) && x == Value(s))
    || (|s| > 1 && s[0] == '+' && AllDigits(s[1..]) && x == Value(s[1..]))
    || (|s| > 1 && s[0] == '-' && AllDigits(s[1..]) && x == 0 - Value(s[1..]))
  }

  /** Exactly the texts of 64-bit numbers parse, to their values. */
  lemma ParseInt64Meaning(s: string, x: int)
    ensures ParseInt64(s) == Some(x) <==> Denotes(s, x) && MIN_INT64 <= x <= MAX_INT64
  {
    if s != "" {
      assert s[0] == '+' || s[0] == '-' ==> !IsDigit(s[0]);
      assert |s| > 1 <==> s[1..] != "";
    }
  }

  lemma ShiftOnce(s: string)
    ensures AllDigits(s + "0") <==> AllDigits(s)
    ensures AllDigits(s) ==> Value(s + "0") == 10 * Value(s)
  {
    assert (s + "0")[..|s|] == s && (s + "0")[|s|] == '0';
    assert forall i :: 0 <= i < |s| ==> (s + "0")[i] == s[i];
  }

  lemma TimesTen(v: int, p: int)
    ensures 10 * (v * p) == v * (10 * p)
  {
  }

  lemma {:induction false} ValueOfShifted(s: string, k: nat)
    ensures AllDigits(s + Zeros(k)) <==> AllDigits(s)
    ensures AllDigits(s) ==> Value(s + Zeros(k)) == Value(s) * Pow10(k)
  {
    if k == 0 {
      assert s + Zeros(0) == s;
    } else {
      ValueOfShifted(s, k - 1);
      assert s + Zeros(k) == (s + Zeros(k - 1)) + "0";
      ShiftOnce(s + Zeros(k - 1));
      if AllDigits(s) {
        TimesTen(Value(s), Pow10(k - 1));
      }
    }
  }

  lemma {:induction false} ValueOfPadded(k: nat, s: string)
    requires AllDigits(s)
    ensures AllDigits(Zeros(k) + s) && Value(Zeros(k) + s) == Value(s)
    decreases |s|, k
  {
    if s != "" {
      ValueOfPadded(k, s[..|s| - 1]);
      assert (Zeros(k) + s)[..|Zeros(k) + s| - 1] == Zeros(k) + s[..|s| - 1];
    } else if k > 0 {
      ValueOfPadded(k - 1, "");
      assert Zeros(k - 1) + "" == Zeros(k - 1);
      assert (Zeros(k) + "")[..k - 1] == Zeros(k - 1);
    }
  }

  function Pow10(k: nat): nat {
    if k == 0 then 1 else 10 * Pow10(k - 1)
  }

  lemma {:induction false} ValueBelowPow(s: string)
    requires AllDigits(s)
    ensures Value(s) < Pow10(|s|)
  {
    if s != "" {
      ValueBelowPow(s[..|s| - 1]);
    }
  }

  /** The number of digits of a number. */
  lemma {:induction false} FormatWidth(n: nat, k: nat)
    requires k > 0
    ensures |FormatNat(n)| <= k <==> n < Pow10(k)
  {
    if n >= 10 && k > 1 {
      FormatWidth(n / 10, k - 1);
    } else {
      assert Pow10(1) == 10 by { assert Pow10(0) == 1; }
      PowGrows(1, k);
      if n >= 10 {
        assert |FormatNat(n / 10)| >= 1;
      }
    }
  }

  lemma {:induction false} PowGrows(j: nat, k: nat)
    requires j <= k
    ensures Pow10(j) <= Pow10(k) && (j < k ==> Pow10(j) < Pow10(k)) && Pow10(j) > 0
    decreases k
  {
    if j < k {
      PowGrows(j, k - 1);
    } else if k > 0 {
      PowGrows(k - 1, k - 1);
    }
  }

  lemma {:induction false} SplitWhole(s: string, sep: char)
    requires sep !in s
    ensures Split(s, sep) == [s]
  {
    if s != "" {
      assert s == [s[0]] + s[1..];
      SplitWhole(s[1..], sep);
    }
  }

  lemma {:induction false} SplitFirst(a: string, b: string, sep: char)
    requires sep !in a
    ensures Split(a + [sep] + b, sep) == [a] + Split(b, sep)
  {
    var s := a + [sep] + b;
    if a == "" {
      assert s[1..] == b;
    } else {
      assert a == [a[0]] + a[1..];
      SplitFirst(a[1..], b, sep);
      assert s[1..] == a[1..] + [sep] + b;
    }
  }

  lemma {:induction false} SplitCounts(s: string, sep: char)
    ensures |Split(s, sep)| == 1 <==> sep !in s
  {
    if s != "" {
      assert s == [s[0]] + s[1..];
      SplitCounts(s[1..], sep);
    }
  }

  lemma {:induction false} LessConcat(a: string, b: string, x: string, y: string)
    requires |a| == |b|
    ensures Less(a + x, b + y) <==> Less(a, b) || (a == b && Less(x, y))
  {
    if a == "" {
      assert a + x == x && b + y == y;
    } else {
      assert (a + x)[1..] == a[1..] + x && (b + y)[1..] == b[1..] + y;
      LessConcat(a[1..], b[1..], x, y);
      assert a == [a[0]] + a[1..] && b == [b[0]] + b[1..];
    }
  }

  /** Digit strings of one length sort as their values do. */
  lemma {:induction false} SortedAsValues(a: string, b: string)
    requires |a| == |b| && AllDigits(a) && AllDigits(b)
    ensures Less(a, b) <==> Value(a) < Value(b)
    ensures a == b <==> Value(a) == Value(b)
  {
    if a != "" {
      var n := |a| - 1;
      SortedAsValues(a[..n], b[..n]);
      assert a == a[..n] + [a[n]] && b == b[..n] + [b[n]];
      LessConcat(a[..n], b[..n], [a[n]], [b[n]]);
      LastDigit(a[n], b[n]);
    }
  }

  lemma LastDigit(x: char, y: char)
    ensures Less([x], [y]) <==> x < y
  {
    assert [x][1..] == "" && [y][1..] == "";
  }
}
