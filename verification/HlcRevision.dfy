/** Hybrid-logical-clock revisions and their text form
    (internal/datastore/revisions/hlcrevision.go:22-165). The offset that is added to every logical
    clock is a parameter: it converts the float 1e11 to uint32, which is out of range and depends on
    the platform. */
module HlcRevision {
  import opened Wrappers
  import opened Strings
  import opened Decimal

  const LOGICAL_CLOCK_LENGTH := 10
  const TWO_TO_32 := 0x1_0000_0000

  type uint32 = n: int | 0 <= n < TWO_TO_32 witness 0
  type int64 = n: int | MIN_INT64 <= n <= MAX_INT64 witness 0

  datatype HLC = HLC(time: int64, logical: uint32)

  const ZERO_HLC := HLC(0, 0)

  datatype ParseError = Invalid | LogicalClockTooLong | LogicalClockTooLarge

  /** Unsigned 32-bit addition wraps around. */
  function Wrap(n: int): uint32 {
    n % TWO_TO_32
  }

  /** The revision for a time and a logical clock, as parsing builds it. */
  function FromClock(offset: uint32, time: int64, clock: uint32): HLC {
    HLC(time, Wrap(clock + offset))
  }

  /** The text after the point padded to the precision of the clock. */
  function Padded(f: string): string
    requires |f| <= LOGICAL_CLOCK_LENGTH
  {
    f + Zeros(LOGICAL_CLOCK_LENGTH - |f|)
  }

  function Parse(offset: uint32, s: string): Result<HLC, ParseError> {
    ParsePieces(offset, Split(s, '.'))
  }

  function ParsePieces(offset: uint32, pieces: seq<string>): Result<HLC, ParseError>
    requires pieces != []
  {
    if |pieces| == 1 then
      match ParseInt64(pieces[0])
      case None => Err(Invalid)
      case Some(t) => Ok(HLC(t, offset))
    else if |pieces| != 2 then Err(Invalid)
    else
      match ParseInt64(pieces[0])
      case None => Err(Invalid)
      case Some(t) =>
        if |pieces[1]| > LOGICAL_CLOCK_LENGTH then Err(LogicalClockTooLong)
        else
          match ParseUint64(Padded(pieces[1]))
          case None => Err(Invalid)
          case Some(clock) => if clock >= TWO_TO_32 then Err(LogicalClockTooLarge) else Ok(FromClock(offset, t, clock))
  }

  /** Padding to ten characters. */
  function Fraction(clock: string): string
    requires |clock| <= LOGICAL_CLOCK_LENGTH
  {
    Zeros(LOGICAL_CLOCK_LENGTH - |clock|) + clock
  }

  /** The text form. Printing panics when the clock takes more than ten characters, because the
      padding would be repeated a negative number of times. */
  function Print(offset: uint32, h: HLC): Option<string> {
    var clock := FormatInt(h.logical - offset);
    if |clock| > LOGICAL_CLOCK_LENGTH then None
    else Some(FormatInt(h.time) + "." + Fraction(clock))
  }

  /** Comparisons; None is datastore.NoRevision, which counts as the zero revision. */
  function OrZero(rhs: Option<HLC>): HLC {
    if rhs.None? then ZERO_HLC else rhs.value
  }

  predicate Equal(h: HLC, rhs: Option<HLC>) {
    var r := OrZero(rhs);
    h.time == r.time && h.logical == r.logical
  }

  predicate GreaterThan(h: HLC, rhs: Option<HLC>) {
    var r := OrZero(rhs);
    h.time > r.time || (h.time == r.time && h.logical > r.logical)
  }

  predicate LessThan(h: HLC, rhs: Option<HLC>) {
    var r := OrZero(rhs);
    h.time < r.time || (h.time == r.time && h.logical < r.logical)
  }

  // ---- Round trips ----

  lemma TenDigits()
    ensures Pow10(10) == 10_000_000_000
  {
    assert Pow10(5) == 100_000;
    assert Pow10(10) == 100_000 * Pow10(5);
  }

  lemma ClockDigits(clock: uint32)
    ensures |FormatInt(clock)| <= LOGICAL_CLOCK_LENGTH
  {
    TenDigits();
    FormatWidth(clock, 10);
  }

  lemma NoPoint(x: int)
    ensures '.' !in FormatInt(x)
  {
    var s := FormatInt(x);
    if x < 0 {
      var digits := FormatNat(0 - x);
      assert s == ['-'] + digits;
      assert forall i :: 0 < i < |s| ==> s[i] == digits[i - 1];
    }
  }

  lemma SplitTwo(a: string, b: string)
    requires '.' !in a
    ensures Split(a + "." + b, '.') == [a] + Split(b, '.')
  {
    SplitFirst(a, b, '.');
  }

  lemma ParseTwo(offset: uint32, t: int64, b: string)
    requires '.' !in b && |b| == LOGICAL_CLOCK_LENGTH
    ensures
      Parse(offset, FormatInt(t) + "." + b) ==
      match ParseUint64(b)
      case None => Err(Invalid)
      case Some(clock) => if clock >= TWO_TO_32 then Err(LogicalClockTooLarge) else Ok(FromClock(offset, t, clock))
  {
    NoPoint(t);
    SplitTwo(FormatInt(t), b);
    SplitWhole(b, '.');
    ParseOfFormat(t);
    assert b + Zeros(0) == b;
  }

  lemma FractionOf(n: uint32)
    ensures |FormatInt(n)| <= LOGICAL_CLOCK_LENGTH
    ensures
      var f := Fraction(FormatInt(n));
      && |f| == LOGICAL_CLOCK_LENGTH && '.' !in f
      && AllDigits(f) && Value(f) == n && ParseUint64(f) == Some(n)
  {
    ClockDigits(n);
    ValueOfPadded(LOGICAL_CLOCK_LENGTH - |FormatInt(n)|, FormatInt(n));
    ValueOfFormat(n);
  }

  lemma ClockParses(offset: uint32, time: int64, n: uint32)
    ensures |FormatInt(n)| <= LOGICAL_CLOCK_LENGTH
    ensures Parse(offset, FormatInt(time) + "." + Fraction(FormatInt(n))) == Ok(FromClock(offset, time, n))
  {
    FractionOf(n);
    ParseTwo(offset, time, Fraction(FormatInt(n)));
  }

  lemma PrintIs(offset: uint32, h: HLC, n: uint32)
    requires h.logical - offset == n
    ensures |FormatInt(n)| <= LOGICAL_CLOCK_LENGTH
    ensures Print(offset, h) == Some(FormatInt(h.time) + "." + Fraction(FormatInt(n)))
  {
    ClockDigits(n);
  }

  lemma PrintedParses(offset: uint32, h: HLC)
    requires h.logical >= offset
    ensures Print(offset, h).Some? && Parse(offset, Print(offset, h).value) == Ok(h)
  {
    var n: uint32 := h.logical - offset;
    PrintIs(offset, h, n);
    ClockParses(offset, h.time, n);
    WrapBack(offset, h.logical);
    assert FromClock(offset, h.time, n) == h;
  }

  lemma WrapBack(offset: uint32, logical: uint32)
    requires logical >= offset
    ensures Wrap(logical - offset + offset) == logical
  {
  }

  lemma NegativeFraction(n: int)
    requires n < 0 && |FormatInt(n)| <= LOGICAL_CLOCK_LENGTH
    ensures var f := Fraction(FormatInt(n)); '.' !in f && ParseUint64(f).None?
  {
    NoPoint(n);
    var clock := FormatInt(n);
    assert Fraction(clock)[LOGICAL_CLOCK_LENGTH - |clock|] == '-';
  }

  /** A printed revision is its time, a point, and ten characters; it prints exactly when the clock
      less the offset takes at most ten. */
  lemma PrintedShape(offset: uint32, h: HLC)
    ensures Print(offset, h).Some? <==> |FormatInt(h.logical - offset)| <= 10
    ensures Print(offset, h).Some? ==>
              exists f :: |f| == 10 && Print(offset, h).value == FormatInt(h.time) + "." + f
  {
    if Print(offset, h).Some? {
      var f := Fraction(FormatInt(h.logical - offset));
      assert |f| == 10;
    }
  }

  /** A revision survives printing and parsing if and only if its stored clock is not below the
      offset; otherwise printing panics or yields text that does not parse. */
  lemma RoundTrip(offset: uint32, h: HLC)
    ensures Print(offset, h).Some? && Parse(offset, Print(offset, h).value) == Ok(h) <==> h.logical >= offset
    ensures Print(offset, h).Some? && h.logical < offset ==> Parse(offset, Print(offset, h).value) == Err(Invalid)
  {
    if h.logical >= offset {
      PrintedParses(offset, h);
    } else if Print(offset, h).Some? {
      NegativeFraction(h.logical - offset);
      ParseTwo(offset, h.time, Fraction(FormatInt(h.logical - offset)));
    }
  }

  /** A clock wraps when its sum with the offset does not fit. */
  predicate Wraps(offset: uint32, clock: uint32) {
    clock + offset >= TWO_TO_32
  }

  lemma WrapValue(offset: uint32, clock: uint32)
    ensures Wrap(clock + offset) == if Wraps(offset, clock) then clock + offset - TWO_TO_32 else clock + offset
  {
  }

  /** For every time and clock: the revision built from them survives the round trip exactly when
      the sum with the offset stays below 2^32. */
  lemma ClockRoundTrip(offset: uint32, time: int64, clock: uint32)
    ensures
      var h := FromClock(offset, time, clock);
      Print(offset, h).Some? && Parse(offset, Print(offset, h).value) == Ok(h) <==> !Wraps(offset, clock)
  {
    RoundTrip(offset, FromClock(offset, time, clock));
    WrapValue(offset, clock);
  }

  // ---- The fraction ----

  lemma SplitPoint(t: string, f: string)
    ensures |Split(t + "." + f, '.')| == 2 <==> '.' !in t && '.' !in f
    ensures |Split(t + "." + f, '.')| >= 2
  {
    SplitCounts(t + "." + f, '.');
    assert (t + "." + f)[|t|] == '.';
    if '.' !in t {
      SplitTwo(t, f);
      SplitCounts(f, '.');
    } else {
      SplitTwice(t, f);
    }
  }

  lemma {:induction false} SplitTwice(t: string, f: string)
    requires '.' in t
    ensures |Split(t + "." + f, '.')| > 2
  {
    var s := t + "." + f;
    assert t == [t[0]] + t[1..];
    assert s[1..] == t[1..] + "." + f;
    if t[0] == '.' {
      SplitCounts(s[1..], '.');
      assert s[1..][|t| - 1] == '.';
    } else {
      SplitTwice(t[1..], f);
    }
  }

  lemma PaddedZero(f: string)
    requires |f| < LOGICAL_CLOCK_LENGTH
    ensures Padded(f + "0") == Padded(f)
  {
    var k := LOGICAL_CLOCK_LENGTH - |f| - 1;
    ZerosFront(k);
    assert f + "0" + Zeros(k) == f + ("0" + Zeros(k));
  }

  lemma PaddedParses(offset: uint32, t: string, f: string, g: string)
    requires |f| <= LOGICAL_CLOCK_LENGTH && |g| <= LOGICAL_CLOCK_LENGTH && Padded(f) == Padded(g)
    requires '.' in f <==> '.' in g
    ensures Parse(offset, t + "." + f) == Parse(offset, t + "." + g)
  {
    SplitPoint(t, f);
    SplitPoint(t, g);
    if '.' !in t && '.' !in f {
      SplitTwo(t, f);
      SplitWhole(f, '.');
      SplitTwo(t, g);
      SplitWhole(g, '.');
    }
  }

  /** Trailing zeros of the fraction do not matter, for any text before and any fraction of fewer
      than ten characters, valid or not. */
  lemma TrailingZeros(offset: uint32, t: string, f: string)
    requires |f| < LOGICAL_CLOCK_LENGTH
    ensures Parse(offset, t + "." + (f + "0")) == Parse(offset, t + "." + f)
  {
    PaddedZero(f);
    PaddedParses(offset, t, f + "0", f);
  }

  lemma {:induction false} ZerosFront(k: nat)
    ensures "0" + Zeros(k) == Zeros(k + 1)
  {
    if k > 0 {
      ZerosFront(k - 1);
    }
  }

  lemma EmptyFraction()
    ensures ParseUint64(Padded("")) == Some(0)
  {
    ValueOfPadded(10, "");
    assert "" + Zeros(10) == Zeros(10) + "";
  }

  lemma PairParses(offset: uint32, a: string, b: string, clock: uint32)
    requires |b| <= LOGICAL_CLOCK_LENGTH && ParseUint64(Padded(b)) == Some(clock)
    ensures
      ParsePieces(offset, [a, b]) ==
      if ParseInt64(a).None? then Err(Invalid) else Ok(FromClock(offset, ParseInt64(a).value, clock))
  {
  }

  /** The clock a fraction stands for: its digits shifted to ten places. */
  predicate ClockIs(b: string, clock: int) {
    |b| <= 10 && AllDigits(b) && clock == Value(b) * Pow10(10 - |b|)
  }

  lemma ShiftedDigits(b: string, k: nat)
    requires |b| + k == 10
    ensures AllDigits(b + Zeros(k)) <==> AllDigits(b)
    ensures AllDigits(b) ==> Value(b + Zeros(k)) == Value(b) * Pow10(k) && Value(b + Zeros(k)) <= MAX_UINT64
  {
    ValueOfShifted(b, k);
    if AllDigits(b) {
      TenDigitValue(b + Zeros(k));
    }
  }

  lemma FractionParses(b: string)
    requires |b| <= LOGICAL_CLOCK_LENGTH
    ensures ParseUint64(Padded(b)).Some? <==> AllDigits(b)
    ensures AllDigits(b) ==> ClockIs(b, ParseUint64(Padded(b)).value)
  {
    ShiftedDigits(b, 10 - |b|);
    assert Padded(b) != "";
  }

  lemma TenDigitValue(s: string)
    requires |s| == 10 && AllDigits(s)
    ensures Value(s) <= MAX_UINT64
  {
    ValueBelowPow(s);
    TenDigits();
  }

  /** A text with a point parses iff the part before the first point is a 64-bit number and the part
      after it is at most ten digits whose clock fits 32 bits; the revision has that time, and that
      clock plus the offset modulo 2^32. */
  lemma ParseMeaning(offset: uint32, a: string, b: string, h: HLC)
    requires '.' !in a
    ensures Parse(offset, a + "." + b) == Ok(h) <==>
            && Denotes(a, h.time)
            && exists clock: uint32 :: ClockIs(b, clock) && h.logical == (clock + offset) % 0x1_0000_0000
  {
    SplitTwo(a, b);
    SplitCounts(b, '.');
    ParseInt64Meaning(a, h.time);
    if ParseInt64(a).Some? {
      ParseInt64Meaning(a, ParseInt64(a).value);
    }
    if '.' in b {
      var i :| 0 <= i < |b| && b[i] == '.';
      assert !AllDigits(b);
    } else {
      SplitWhole(b, '.');
      assert [a] + [b] == [a, b];
      if |b| <= 10 {
        FractionParses(b);
        if AllDigits(b) && ParseUint64(Padded(b)).value < TWO_TO_32 {
          PairParses(offset, a, b, ParseUint64(Padded(b)).value);
        }
      }
    }
  }

  /** A revision without a point is the one with an empty fraction. */
  lemma PlainTimestamp(offset: uint32, t: string)
    requires '.' !in t
    ensures Parse(offset, t) == Parse(offset, t + "." + "")
  {
    SplitWhole(t, '.');
    SplitTwo(t, "");
    EmptyFraction();
    PairParses(offset, t, "", 0);
    assert Split("", '.') == [""];
    assert [t] + [""] == [t, ""];
  }

  // ---- Order ----

  /** Exactly one of the three comparisons holds. NoRevision lies below every revision with a
      positive time, above those with a negative one, and equals time zero with clock zero. */
  lemma Trichotomy(h: HLC, rhs: Option<HLC>)
    ensures rhs.None? ==> (LessThan(h, rhs) <==> h.time < 0) && (Equal(h, rhs) <==> h.time == 0 && h.logical == 0)
    ensures LessThan(h, rhs) <==> !Equal(h, rhs) && !GreaterThan(h, rhs)
    ensures !(LessThan(h, rhs) && GreaterThan(h, rhs)) && !(Equal(h, rhs) && GreaterThan(h, rhs))
    ensures rhs.Some? ==> (LessThan(h, rhs) <==> GreaterThan(rhs.value, Some(h)))
  {
  }

  predicate ClockBefore(t: int64, c: uint32, t': int64, c': uint32) {
    t < t' || (t == t' && c < c')
  }

  /** Comparison is the order on (time, logical clock) exactly when the times differ, the clocks are
      equal, or both or neither of the clocks wrap. */
  lemma OrderExactly(offset: uint32, t: int64, c: uint32, t': int64, c': uint32)
    ensures
      (LessThan(FromClock(offset, t, c), Some(FromClock(offset, t', c'))) <==> ClockBefore(t, c, t', c')) <==>
      (t != t' || (Wraps(offset, c) <==> Wraps(offset, c')))
  {
    WrapValue(offset, c);
    WrapValue(offset, c');
  }

  lemma LessPieces(ta: string, tb: string, fa: string, fb: string)
    requires |ta| == |tb|
    ensures Less(ta + "." + fa, tb + "." + fb) <==> Less(ta, tb) || (ta == tb && Less(fa, fb))
  {
    LessConcat(ta + ".", tb + ".", fa, fb);
    LessConcat(ta, tb, ".", ".");
    LastDigit('.', '.');
    assert (ta + ".")[..|ta|] == ta && (tb + ".")[..|tb|] == tb;
  }

  lemma NatOrder(a: nat, b: nat)
    requires |FormatInt(a)| == |FormatInt(b)|
    ensures Less(FormatInt(a), FormatInt(b)) <==> a < b
    ensures FormatInt(a) == FormatInt(b) <==> a == b
  {
    ValueOfFormat(a);
    ValueOfFormat(b);
    SortedAsValues(FormatInt(a), FormatInt(b));
  }

  lemma ClockOrder(a: uint32, b: uint32)
    ensures |FormatInt(a)| <= LOGICAL_CLOCK_LENGTH && |FormatInt(b)| <= LOGICAL_CLOCK_LENGTH
    ensures Less(Fraction(FormatInt(a)), Fraction(FormatInt(b))) <==> a < b
  {
    FractionOf(a);
    FractionOf(b);
    SortedAsValues(Fraction(FormatInt(a)), Fraction(FormatInt(b)));
  }

  /** For times of one decimal width the text order is the revision order. */
  lemma TextOrder(offset: uint32, a: HLC, b: HLC)
    requires a.time >= 0 && b.time >= 0 && |FormatInt(a.time)| == |FormatInt(b.time)|
    requires a.logical >= offset && b.logical >= offset
    ensures Print(offset, a).Some? && Print(offset, b).Some?
    ensures Less(Print(offset, a).value, Print(offset, b).value) <==> LessThan(a, Some(b))
  {
    var ca: uint32, cb: uint32 := a.logical - offset, b.logical - offset;
    PrintIs(offset, a, ca);
    PrintIs(offset, b, cb);
    ClockOrder(ca, cb);
    NatOrder(a.time, b.time);
    LessPieces(FormatInt(a.time), FormatInt(b.time), Fraction(FormatInt(ca)), Fraction(FormatInt(cb)));
  }

  ghost predicate TextSorts(offset: uint32, low: nat, high: nat) {
    forall a: HLC, b: HLC :: InSpan(offset, low, high, a) && InSpan(offset, low, high, b) ==> TextAgrees(offset, a, b)
  }

  predicate InSpan(offset: uint32, low: nat, high: nat, h: HLC) {
    low <= h.time <= high && h.logical >= offset
  }

  predicate TextAgrees(offset: uint32, a: HLC, b: HLC) {
    Print(offset, a).Some? && Print(offset, b).Some? &&
    (Less(Print(offset, a).value, Print(offset, b).value) <==> LessThan(a, Some(b)))
  }

  lemma {:induction false} PowerDigits(k: nat)
    ensures FormatNat(Pow10(k))[0] == '1'
    ensures k > 0 ==> FormatNat(Pow10(k) - 1)[0] == '9'
  {
    if k > 0 {
      PowerDigits(k - 1);
      PowGrows(0, k - 1);
      assert Pow10(k) / 10 == Pow10(k - 1) && Pow10(k) >= 10;
      if k > 1 {
        PowGrows(1, k - 1);
        assert Pow10(1) == 10 * Pow10(0);
        assert (Pow10(k) - 1) / 10 == Pow10(k - 1) - 1;
      }
    }
  }

  lemma WidthsApart(offset: uint32, low: nat, high: nat)
    requires low <= high <= MAX_INT64 && |FormatInt(low)| < |FormatInt(high)|
    ensures !TextSorts(offset, low, high)
  {
    var k := |FormatInt(low)|;
    FormatWidth(low, k);
    FormatWidth(high, k);
    PowGrows(0, k);
    PowerDigits(k);
    var a, b := HLC(Pow10(k) - 1, offset), HLC(Pow10(k), offset);
    FractionOf(0);
    assert Print(offset, a).value[0] == '9' && Print(offset, b).value[0] == '1';
    assert InSpan(offset, low, high, a) && InSpan(offset, low, high, b);
    assert !TextAgrees(offset, a, b);
  }

  lemma {:induction false} WidthGrows(a: nat, b: nat)
    requires a <= b
    ensures |FormatNat(a)| <= |FormatNat(b)|
  {
    if b >= 10 && a >= 10 {
      WidthGrows(a / 10, b / 10);
    }
  }

  /** Revisions are declared byte-sortable. Over a span of times that holds if and only if the
      first and the last time of the span have the same number of digits. */
  lemma ByteSortableExactly(offset: uint32, low: nat, high: nat)
    requires low <= high <= MAX_INT64
    ensures TextSorts(offset, low, high) <==> |FormatInt(low)| == |FormatInt(high)|
  {
    WidthGrows(low, high);
    if |FormatInt(low)| == |FormatInt(high)| {
      forall a: HLC, b: HLC | InSpan(offset, low, high, a) && InSpan(offset, low, high, b)
        ensures TextAgrees(offset, a, b)
      {
        WidthGrows(low, a.time);
        WidthGrows(a.time, high);
        WidthGrows(low, b.time);
        WidthGrows(b.time, high);
        TextOrder(offset, a, b);
      }
    } else {
      WidthsApart(offset, low, high);
    }
  }
}
