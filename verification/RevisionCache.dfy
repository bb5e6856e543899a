/** Quantized revisions: the cache of optimized revisions with random staleness, the clock
    arithmetic behind it and the garbage-collection window check
    (internal/datastore/revisions/optimized.go:41-119,
    internal/datastore/revisions/remoteclock.go:27-125). Times are nanoseconds; the clocks and the
    random draw are parameters. */
module RevisionCache {
  import opened Wrappers

  datatype Settings = Settings(gcWindow: int, maxStaleness: int, delay: int, quantization: int)

  datatype Candidate = Candidate(revision: int, validThrough: int)

  /** Go's % for a positive divisor: the remainder has the sign of the dividend. */
  function GoMod(a: int, b: int): int
    requires b > 0
  {
    if a >= 0 then a % b else 0 - ((0 - a) % b)
  }

  /** NewRemoteClockRevisions: staleness beyond the window is capped just below it. */
  function NewSettings(gcWindow: int, maxStaleness: int, delay: int, quantization: int): Settings {
    Settings(gcWindow, if maxStaleness > gcWindow then gcWindow - 1 else maxStaleness, delay, quantization)
  }

  /** The quantized revision at `now` and for how long it stays valid. */
  function Optimized(s: Settings, now: int): (int, int) {
    var delayed := now - s.delay;
    if s.quantization > 0 then
      var after := GoMod(delayed, s.quantization);
      (delayed - after, s.quantization - after)
    else (delayed, 0)
  }

  datatype Rejection = RevisionStale | CouldNotDetermineRevision | ClockFailed

  function Check(s: Settings, rev: int, now: int): Option<Rejection> {
    if rev < now - s.gcWindow then Some(RevisionStale)
    else if rev > now then Some(CouldNotDetermineRevision)
    else None
  }

  // ---- The cache ----

  /** One call: the local clock, the remote clock (None when reading it fails), the random draw. */
  datatype Call = Call(now: int, remote: Option<int>, rnd: nat)

  /** rand.Int63n(n) lies in [0, n); without staleness nothing is drawn. */
  predicate ValidDraw(s: Settings, rnd: nat) {
    if s.maxStaleness > 0 then rnd < s.maxStaleness else rnd == 0
  }

  function FirstValid(cs: seq<Candidate>, adjusted: int): Option<int> {
    if cs == [] then None
    else if cs[0].validThrough > adjusted then Some(cs[0].revision)
    else FirstValid(cs[1..], adjusted)
  }

  /** Drops the prefix of candidates that have definitely expired. */
  function Prune(s: Settings, cs: seq<Candidate>, now: int): seq<Candidate> {
    if cs != [] && cs[0].validThrough + s.maxStaleness < now then Prune(s, cs[1..], now) else cs
  }

  /** The cache after a call, and the revision it returns. */
  function Answer(s: Settings, cs: seq<Candidate>, c: Call): (seq<Candidate>, Option<int>) {
    var hit := FirstValid(cs, c.now - c.rnd);
    if hit.Some? then (cs, hit)
    else if c.remote.None? then (cs, None)
    else
      var (rev, validFor) := Optimized(s, c.remote.value);
      (Prune(s, cs, c.now) + [Candidate(rev, c.now + validFor)], Some(rev))
  }

  class RemoteClockRevisions {
    const settings: Settings
    var candidates: seq<Candidate>

    constructor (gcWindow: int, maxRevisionStaleness: int, followerReadDelay: int, quantization: int)
      ensures settings == NewSettings(gcWindow, maxRevisionStaleness, followerReadDelay, quantization)
      ensures settings.gcWindow == gcWindow && settings.delay == followerReadDelay
      ensures settings.quantization == quantization
      ensures maxRevisionStaleness <= gcWindow ==> settings.maxStaleness == maxRevisionStaleness
      ensures maxRevisionStaleness > gcWindow ==> settings.maxStaleness == gcWindow - 1
      ensures candidates == []
    {
      var staleness := maxRevisionStaleness;
      if staleness > gcWindow {
        staleness := gcWindow - 1;
      }
      settings := Settings(gcWindow, staleness, followerReadDelay, quantization);
      candidates := [];
    }

    method OptimizedRevisionFunc(remoteNow: int) returns (rev: int, validFor: int)
      ensures (rev, validFor) == Optimized(settings, remoteNow)
    {
      var delayedNow := remoteNow - settings.delay;
      rev := delayedNow;
      validFor := 0;
      if settings.quantization > 0 {
        var afterLastQuantization := GoMod(delayedNow, settings.quantization);
        rev := rev - afterLastQuantization;
        validFor := settings.quantization - afterLastQuantization;
      }
    }

    method OptimizedRevision(c: Call) returns (out: Option<int>)
      requires ValidDraw(settings, c.rnd)
      modifies this`candidates
      ensures (candidates, out) == Answer(settings, old(candidates), c)
    {
      var adjustedNow := c.now;
      if settings.maxStaleness > 0 {
        adjustedNow := c.now - c.rnd;
      }
      for i := 0 to |candidates|
        invariant FirstValid(candidates, adjustedNow) == FirstValid(candidates[i..], adjustedNow)
      {
        if candidates[i].validThrough > adjustedNow {
          return Some(candidates[i].revision);
        }
        assert candidates[i..][1..] == candidates[i + 1..];
      }
      if c.remote.None? {
        return None;
      }
      var optimized, validFor := OptimizedRevisionFunc(c.remote.value);
      var numToDrop := 0;
      while numToDrop < |candidates| && candidates[numToDrop].validThrough + settings.maxStaleness < c.now
        invariant 0 <= numToDrop <= |candidates|
        invariant Prune(settings, candidates, c.now) == Prune(settings, candidates[numToDrop..], c.now)
      {
        assert candidates[numToDrop..][1..] == candidates[numToDrop + 1..];
        numToDrop := numToDrop + 1;
      }
      candidates := candidates[numToDrop..] + [Candidate(optimized, c.now + validFor)];
      return Some(optimized);
    }

    /** `rev` is None for NoRevision, `now` when the clock cannot be read. */
    method CheckRevision(rev: Option<int>, now: Option<int>) returns (out: Option<Rejection>)
      ensures out.None? <==> rev.Some? && now.Some? && now.value - settings.gcWindow <= rev.value <= now.value
      ensures rev.None? ==> out == Some(CouldNotDetermineRevision)
      ensures rev.Some? && now.None? ==> out == Some(ClockFailed)
      ensures rev.Some? && now.Some? ==> out == Check(settings, rev.value, now.value)
    {
      if rev.None? {
        return Some(CouldNotDetermineRevision);
      }
      if now.None? {
        return Some(ClockFailed);
      }
      if rev.value < now.value - settings.gcWindow {
        return Some(RevisionStale);
      }
      if rev.value > now.value {
        return Some(CouldNotDetermineRevision);
      }
      return None;
    }
  }

  // ---- Clock arithmetic ----

  lemma MulOrder(i: int, j: int, q: int)
    requires q > 0
    ensures i <= j <==> i * q <= j * q
  {
    if i <= j {
      assert (j - i) * q >= 0;
    } else {
      assert (i - j - 1) * q >= 0;
    }
  }

  lemma MultiplesApart(a: int, b: int, q: int)
    requires q > 0 && a % q == 0 && b % q == 0 && a < b
    ensures a + q <= b
  {
    var i, j := a / q, b / q;
    assert a == i * q && b == j * q;
    MulOrder(j, i, q);
    MulOrder(i + 1, j, q);
  }

  lemma DropRemainder(a: int, q: int)
    requires q > 0
    ensures (a - a % q) % q == 0 && (a - a % q + q) % q == 0
  {
    MultipleOf(a / q, q);
    MultipleOf(a / q + 1, q);
  }

  lemma MultipleOf(k: int, q: int)
    requires q > 0
    ensures (k * q) % q == 0
  {
    var i, r := k * q / q, k * q % q;
    assert k * q == i * q + r;
    MulOrder(k, i, q);
    MulOrder(i + 1, k, q);
  }

  /** The revision is the multiple of the quantum next to the delayed time in the direction of
      zero: the greatest one not above it, or for a negative time the least one not below it. It
      expires one quantum after the multiple. Without a quantum it is the delayed time itself, valid
      at that moment only. */
  lemma QuantizedMeaning(s: Settings, now: int)
    ensures
      var (rev, validFor) := Optimized(s, now);
      && (s.quantization > 0 ==>
            && rev % s.quantization == 0
            && (now >= s.delay ==> rev <= now - s.delay < rev + s.quantization)
            && (now < s.delay ==> rev - s.quantization < now - s.delay <= rev)
            && now + validFor == rev + s.quantization + s.delay)
      && (s.quantization <= 0 ==> rev == now - s.delay && validFor == 0)
  {
    var delayed, q := now - s.delay, s.quantization;
    if q <= 0 {
    } else if delayed >= 0 {
      DropRemainder(delayed, q);
    } else {
      DropRemainder(0 - delayed, q);
      NegatedMultiple(0 - delayed - (0 - delayed) % q, q);
    }
  }

  lemma NegatedMultiple(a: int, q: int)
    requires q > 0 && a % q == 0
    ensures (0 - a) % q == 0
  {
    assert a == a / q * q;
    MultipleOf(0 - a / q, q);
    assert (0 - a / q) * q == 0 - a;
  }

  /** The quantized revision never runs ahead of the delayed time exactly when the delayed time is
      not negative, is itself a multiple, or nothing is quantized. */
  lemma QuantizedNotAhead(s: Settings, now: int)
    ensures Optimized(s, now).0 <= now - s.delay <==>
            s.quantization <= 0 || now - s.delay >= 0 || (s.delay - now) % s.quantization == 0
  {
  }

  // ---- Runs with one clock ----

  /** Calls whose local and remote clocks are one monotone clock at or after `since`, which is not
      before the follower read delay. */
  predicate OneClock(s: Settings, since: int, cs: seq<Call>) {
    if cs == [] then since >= s.delay
    else
      var c := cs[|cs| - 1];
      && OneClock(s, since, cs[..|cs| - 1])
      && c.remote == Some(c.now) && ValidDraw(s, c.rnd)
      && c.now >= LastNow(since, cs[..|cs| - 1])
  }

  function LastNow(since: int, cs: seq<Call>): int {
    if cs == [] then since else cs[|cs| - 1].now
  }

  /** The cache after a run that began with an empty one. */
  function CacheAfter(s: Settings, cs: seq<Call>): seq<Candidate> {
    if cs == [] then [] else Answer(s, CacheAfter(s, cs[..|cs| - 1]), cs[|cs| - 1]).0
  }

  /** What the last call of a run returns. */
  function LastAnswer(s: Settings, cs: seq<Call>): Option<int>
    requires cs != []
  {
    Answer(s, CacheAfter(s, cs[..|cs| - 1]), cs[|cs| - 1]).1
  }

  /** A candidate some call up to `now` stored. */
  predicate GoodCandidate(s: Settings, c: Candidate, now: int) {
    if s.quantization > 0 then
      && c.revision % s.quantization == 0
      && c.validThrough == c.revision + s.quantization + s.delay
      && c.revision + s.delay <= now
    else c.validThrough == c.revision + s.delay <= now
  }

  /** Every candidate is one the clock produced, in the order they expire. */
  ghost predicate GoodCache(s: Settings, cs: seq<Candidate>, now: int) {
    && (forall i :: 0 <= i < |cs| ==> GoodCandidate(s, cs[i], now))
    && (forall i, j :: 0 <= i < j < |cs| ==> cs[i].validThrough <= cs[j].validThrough)
    && (s.quantization > 0 ==> forall i, j :: 0 <= i < j < |cs| ==> cs[i].validThrough < cs[j].validThrough)
  }

  lemma {:induction false} PruneIsSuffix(s: Settings, cs: seq<Candidate>, now: int)
    ensures |Prune(s, cs, now)| <= |cs| && Prune(s, cs, now) == cs[|cs| - |Prune(s, cs, now)|..]
    ensures forall i :: 0 <= i < |cs| - |Prune(s, cs, now)| ==> cs[i].validThrough + s.maxStaleness < now
    ensures Prune(s, cs, now) != [] ==> Prune(s, cs, now)[0].validThrough + s.maxStaleness >= now
  {
    if cs != [] && cs[0].validThrough + s.maxStaleness < now {
      PruneIsSuffix(s, cs[1..], now);
    }
  }

  /** Candidate i is the first that is valid at the adjusted time, and has this revision. */
  predicate FirstAt(cs: seq<Candidate>, adjusted: int, rev: int, i: nat) {
    && i < |cs| && cs[i].validThrough > adjusted && cs[i].revision == rev
    && forall j :: 0 <= j < i ==> cs[j].validThrough <= adjusted
  }

  /** The first candidate that is valid at the adjusted time has this revision. */
  ghost predicate FirstIs(cs: seq<Candidate>, adjusted: int, rev: int) {
    exists i: nat :: FirstAt(cs, adjusted, rev, i)
  }

  lemma {:induction false} FirstValidIs(cs: seq<Candidate>, adjusted: int)
    ensures FirstValid(cs, adjusted).None? <==> forall i :: 0 <= i < |cs| ==> cs[i].validThrough <= adjusted
    ensures FirstValid(cs, adjusted).Some? ==> FirstIs(cs, adjusted, FirstValid(cs, adjusted).value)
  {
    if cs == [] {
    } else if cs[0].validThrough > adjusted {
      assert FirstAt(cs, adjusted, cs[0].revision, 0);
    } else {
      FirstValidIs(cs[1..], adjusted);
      assert forall i :: 0 < i < |cs| ==> cs[i] == cs[1..][i - 1];
      if FirstValid(cs[1..], adjusted).Some? {
        var i: nat :| FirstAt(cs[1..], adjusted, FirstValid(cs, adjusted).value, i);
        assert FirstAt(cs, adjusted, FirstValid(cs, adjusted).value, i + 1);
      }
    }
  }

  /** A refresh: the candidates before position n go, the first that is kept has not definitely
      expired, and the new candidate comes last. */
  predicate RefreshedAt(s: Settings, cs: seq<Candidate>, now: int, stored: Candidate, after: seq<Candidate>, n: nat) {
    && n <= |cs| && after == cs[n..] + [stored]
    && (forall i :: 0 <= i < n ==> cs[i].validThrough + s.maxStaleness < now)
    && (n < |cs| ==> cs[n].validThrough + s.maxStaleness >= now)
  }

  ghost predicate Refreshed(s: Settings, cs: seq<Candidate>, now: int, stored: Candidate, after: seq<Candidate>) {
    exists n: nat :: RefreshedAt(s, cs, now, stored, after, n)
  }

  /** What a call returns and what it leaves in the cache. While some candidate is valid at the time
      the draw adjusted, the first one is returned and nothing changes; otherwise a revision is
      computed from the remote clock, unless that fails, and stored after the pruned candidates. */
  lemma AnswerMeaning(s: Settings, cs: seq<Candidate>, c: Call)
    ensures
      var (after, out) := Answer(s, cs, c);
      var expired := forall i :: 0 <= i < |cs| ==> cs[i].validThrough <= c.now - c.rnd;
      && (!expired ==> after == cs && out.Some? && FirstIs(cs, c.now - c.rnd, out.value))
      && (expired && c.remote.None? ==> after == cs && out.None?)
      && (expired && c.remote.Some? ==>
            var (rev, validFor) := Optimized(s, c.remote.value);
            out == Some(rev) && Refreshed(s, cs, c.now, Candidate(rev, c.now + validFor), after))
  {
    FirstValidIs(cs, c.now - c.rnd);
    PruneIsSuffix(s, cs, c.now);
    if FirstValid(cs, c.now - c.rnd).None? && c.remote.Some? {
      var (rev, validFor) := Optimized(s, c.remote.value);
      var n := |cs| - |Prune(s, cs, c.now)|;
      assert n < |cs| ==> cs[n] == Prune(s, cs, c.now)[0];
      assert RefreshedAt(s, cs, c.now, Candidate(rev, c.now + validFor), Answer(s, cs, c).0, n);
    }
  }

  lemma HitIsGood(s: Settings, cs: seq<Candidate>, since: int, adjusted: int) returns (c: Candidate)
    requires GoodCache(s, cs, since) && FirstValid(cs, adjusted).Some?
    ensures GoodCandidate(s, c, since)
    ensures c.validThrough > adjusted && c.revision == FirstValid(cs, adjusted).value
  {
    FirstValidIs(cs, adjusted);
    var i: nat :| FirstAt(cs, adjusted, FirstValid(cs, adjusted).value, i);
    c := cs[i];
  }

  function Stored(s: Settings, now: int): Candidate {
    Candidate(Optimized(s, now).0, now + Optimized(s, now).1)
  }

  lemma StoredIsGood(s: Settings, now: int)
    requires now >= s.delay
    ensures
      var c := Stored(s, now);
      GoodCandidate(s, c, now) && now <= c.validThrough && (s.quantization > 0 ==> now < c.validThrough)
  {
    if s.quantization > 0 {
      QuantizedMeaning(s, now);
    }
  }

  lemma PruneKeepsCache(s: Settings, cs: seq<Candidate>, since: int, now: int)
    requires GoodCache(s, cs, since) && since <= now
    ensures GoodCache(s, Prune(s, cs, now), now)
  {
    PruneIsSuffix(s, cs, now);
    var kept := Prune(s, cs, now);
    assert forall i :: 0 <= i < |kept| ==> kept[i] == cs[|cs| - |kept| + i];
    assert forall i :: 0 <= i < |kept| ==> GoodCandidate(s, kept[i], since);
  }

  lemma AppendKeepsCache(s: Settings, cs: seq<Candidate>, e: Candidate, now: int)
    requires GoodCache(s, cs, now) && GoodCandidate(s, e, now)
    requires forall i :: 0 <= i < |cs| ==> cs[i].validThrough <= now
    requires now <= e.validThrough
    requires s.quantization > 0 ==> now < e.validThrough
    ensures GoodCache(s, cs + [e], now)
  {
  }

  lemma PruneKeepsBound(s: Settings, cs: seq<Candidate>, now: int)
    requires forall i :: 0 <= i < |cs| ==> cs[i].validThrough <= now
    ensures forall i :: 0 <= i < |Prune(s, cs, now)| ==> Prune(s, cs, now)[i].validThrough <= now
  {
    PruneIsSuffix(s, cs, now);
  }

  lemma StoreKeepsCache(s: Settings, cs: seq<Candidate>, since: int, now: int)
    requires GoodCache(s, cs, since) && since <= now && s.delay <= now
    requires forall i :: 0 <= i < |cs| ==> cs[i].validThrough <= now
    ensures GoodCache(s, Prune(s, cs, now) + [Stored(s, now)], now)
  {
    PruneKeepsCache(s, cs, since, now);
    PruneKeepsBound(s, cs, now);
    StoredIsGood(s, now);
    AppendKeepsCache(s, Prune(s, cs, now), Stored(s, now), now);
  }

  lemma LaterKeepsCache(s: Settings, cs: seq<Candidate>, since: int, now: int)
    requires GoodCache(s, cs, since) && since <= now
    ensures GoodCache(s, cs, now)
  {
    assert forall i :: 0 <= i < |cs| ==> GoodCandidate(s, cs[i], since);
  }

  lemma AnswerKeepsCache(s: Settings, cs: seq<Candidate>, c: Call, since: int)
    requires GoodCache(s, cs, since) && since <= c.now && s.delay <= c.now
    requires c.remote == Some(c.now)
    ensures GoodCache(s, Answer(s, cs, c).0, c.now)
  {
    FirstValidIs(cs, c.now - c.rnd);
    if FirstValid(cs, c.now - c.rnd).None? {
      StoreKeepsCache(s, cs, since, c.now);
    } else {
      LaterKeepsCache(s, cs, since, c.now);
    }
  }

  /** Over every run with one monotone clock the candidates are ones the clock produced, strictly
      increasing in their expiry when there is a quantum. */
  lemma {:induction false} CacheStaysGood(s: Settings, since: int, cs: seq<Call>)
    requires OneClock(s, since, cs)
    ensures GoodCache(s, CacheAfter(s, cs), LastNow(since, cs))
    ensures LastNow(since, cs) >= since >= s.delay
  {
    if cs != [] {
      CacheStaysGood(s, since, cs[..|cs| - 1]);
      AnswerKeepsCache(s, CacheAfter(s, cs[..|cs| - 1]), cs[|cs| - 1], LastNow(since, cs[..|cs| - 1]));
    }
  }

  // ---- Staleness ----

  /** How far an answer can lie behind the clock. */
  function MaxLag(s: Settings): int {
    if s.quantization > 0 then s.delay + s.quantization - 1 + (if s.maxStaleness > 0 then s.maxStaleness - 1 else 0)
    else s.delay + (if s.maxStaleness > 2 then s.maxStaleness - 2 else 0)
  }

  lemma HitLag(s: Settings, cs: seq<Candidate>, since: int, now: int, rnd: nat)
    requires GoodCache(s, cs, since) && since <= now && ValidDraw(s, rnd) && FirstValid(cs, now - rnd).Some?
    ensures now - MaxLag(s) <= FirstValid(cs, now - rnd).value <= now - s.delay
  {
    var c := HitIsGood(s, cs, since, now - rnd);
  }

  /** Every answer lies between MaxLag and the follower read delay behind the clock. */
  lemma AnswerLag(s: Settings, since: int, cs: seq<Call>)
    requires OneClock(s, since, cs) && cs != []
    ensures
      var now := LastNow(since, cs);
      LastAnswer(s, cs).Some? && now - MaxLag(s) <= LastAnswer(s, cs).value <= now - s.delay
  {
    var front, c := cs[..|cs| - 1], cs[|cs| - 1];
    CacheStaysGood(s, since, front);
    if FirstValid(CacheAfter(s, front), c.now - c.rnd).Some? {
      HitLag(s, CacheAfter(s, front), LastNow(since, front), c.now, c.rnd);
    } else if s.quantization > 0 {
      QuantizedMeaning(s, c.now);
    }
  }

  /** A run whose last answer is as far behind the clock as MaxLag allows. */
  function WorstRun(s: Settings): seq<Call> {
    var first := Call(s.delay, Some(s.delay), 0);
    var last := MaxLag(s);
    var rnd := if s.maxStaleness > 0 then s.maxStaleness - 1 else 0;
    if last == s.delay then [first] else [first, Call(last, Some(last), rnd)]
  }

  lemma FirstCall(s: Settings)
    ensures
      var c := Call(s.delay, Some(s.delay), 0);
      && OneClock(s, s.delay, [c])
      && CacheAfter(s, [c]) == [Candidate(0, s.delay + if s.quantization > 0 then s.quantization else 0)]
      && LastAnswer(s, [c]) == Some(0)
  {
    var c := Call(s.delay, Some(s.delay), 0);
    assert [c][..0] == [] && CacheAfter(s, []) == [];
  }

  lemma WorstRunLags(s: Settings)
    ensures OneClock(s, s.delay, WorstRun(s)) && LastNow(s.delay, WorstRun(s)) == MaxLag(s)
    ensures LastAnswer(s, WorstRun(s)) == Some(0)
  {
    var run := WorstRun(s);
    FirstCall(s);
    if |run| == 2 {
      assert run[..1] == [run[0]];
      var e := CacheAfter(s, run[..1])[0];
      assert [e] == CacheAfter(s, run[..1]);
      assert e.validThrough > run[1].now - run[1].rnd;
    }
  }

  /** Whatever the run, the last answer passes the window check made at the same moment. */
  ghost predicate AlwaysAccepted(s: Settings) {
    forall since: int, cs: seq<Call> :: OneClock(s, since, cs) && cs != [] ==> AcceptedAtEnd(s, since, cs)
  }

  predicate AcceptedAtEnd(s: Settings, since: int, cs: seq<Call>)
    requires cs != []
  {
    LastAnswer(s, cs).Some? && Check(s, LastAnswer(s, cs).value, LastNow(since, cs)).None?
  }

  /** Every answer of every run passes CheckRevision if and only if the delay is not negative and
      the largest possible lag fits the garbage-collection window. */
  lemma AcceptedExactly(s: Settings)
    ensures AlwaysAccepted(s) <==> 0 <= s.delay && MaxLag(s) <= s.gcWindow
  {
    if 0 <= s.delay && MaxLag(s) <= s.gcWindow {
      forall since: int, cs: seq<Call> | OneClock(s, since, cs) && cs != []
        ensures AcceptedAtEnd(s, since, cs)
      {
        AnswerLag(s, since, cs);
      }
    } else if 0 <= s.delay {
      WorstRunLags(s);
      assert !AcceptedAtEnd(s, s.delay, WorstRun(s));
    } else {
      FirstCall(s);
      assert !AcceptedAtEnd(s, s.delay, [Call(s.delay, Some(s.delay), 0)]);
    }
  }

  /** The bound a deployment would use: delay, quantum and staleness together within the window. */
  lemma WithinWindow(s: Settings)
    requires 0 <= s.delay && 0 <= s.quantization && 0 <= s.maxStaleness
    requires s.delay + s.quantization + s.maxStaleness <= s.gcWindow
    ensures AlwaysAccepted(s)
  {
    AcceptedExactly(s);
  }

  /** Capping the staleness at the window does not by itself keep answers inside the window. What a
      capped configuration needs, for every window and quantum: with a quantum and a window of at
      least two nanoseconds, a delay and a quantum of at most three nanoseconds together; without a
      quantum and with a window of at least four, a delay of at most three. */
  lemma CapIsNotEnough(gcWindow: int, maxStaleness: int, delay: int, quantization: int)
    requires gcWindow < maxStaleness
    ensures AlwaysAccepted(NewSettings(gcWindow, maxStaleness, delay, quantization)) <==>
            0 <= delay &&
            if quantization > 0 then delay + quantization <= (if gcWindow >= 2 then 3 else gcWindow + 1)
            else delay <= (if gcWindow >= 4 then 3 else gcWindow)
  {
    AcceptedExactly(NewSettings(gcWindow, maxStaleness, delay, quantization));
  }

  // ---- Freshness ----

  ghost predicate AlwaysFresh(s: Settings) {
    forall since: int, cs: seq<Call> :: OneClock(s, since, cs) && cs != [] ==> FreshAtEnd(s, since, cs)
  }

  predicate FreshAtEnd(s: Settings, since: int, cs: seq<Call>)
    requires cs != []
  {
    LastAnswer(s, cs) == Some(Optimized(s, LastNow(since, cs)).0)
  }

  lemma UnexpiredIsCurrent(s: Settings, c: Candidate, now: int)
    requires s.quantization > 0 && GoodCandidate(s, c, now) && now < c.validThrough && s.delay <= now
    ensures c.revision == Optimized(s, now).0
  {
    QuantizedMeaning(s, now);
    var rev := Optimized(s, now).0;
    if c.revision < rev {
      MultiplesApart(c.revision, rev, s.quantization);
    } else if rev < c.revision {
      MultiplesApart(rev, c.revision, s.quantization);
    }
  }

  lemma FreshAnswer(s: Settings, cs: seq<Candidate>, since: int, now: int, rnd: nat)
    requires GoodCache(s, cs, since) && s.delay <= since <= now && FirstValid(cs, now - rnd).Some?
    requires rnd <= (if s.quantization > 0 then 0 else 1)
    ensures FirstValid(cs, now - rnd).value == Optimized(s, now).0
  {
    var c := HitIsGood(s, cs, since, now - rnd);
    if s.quantization > 0 {
      UnexpiredIsCurrent(s, c, now);
    }
  }

  /** Without staleness a cached answer is the one recomputing would give. */
  lemma FreshWithoutStaleness(s: Settings, since: int, cs: seq<Call>)
    requires OneClock(s, since, cs) && cs != []
    requires s.maxStaleness <= (if s.quantization > 0 then 1 else 2)
    ensures FreshAtEnd(s, since, cs)
  {
    var front, c := cs[..|cs| - 1], cs[|cs| - 1];
    CacheStaysGood(s, since, front);
    if FirstValid(CacheAfter(s, front), c.now - c.rnd).Some? {
      FreshAnswer(s, CacheAfter(s, front), LastNow(since, front), c.now, c.rnd);
    }
  }

  /** A run that returns an outdated revision as soon as staleness allows one. */
  function StaleRun(s: Settings): seq<Call> {
    var q := if s.quantization > 0 then s.quantization else 1;
    var rnd := if s.quantization > 0 then 1 else 2;
    [Call(s.delay, Some(s.delay), 0), Call(s.delay + q, Some(s.delay + q), rnd)]
  }

  /** Caching is invisible on every run if and only if the staleness is at most one nanosecond, or
      at most two when nothing is quantized. */
  lemma FreshExactly(s: Settings)
    ensures AlwaysFresh(s) <==> s.maxStaleness <= (if s.quantization > 0 then 1 else 2)
  {
    if s.maxStaleness <= (if s.quantization > 0 then 1 else 2) {
      forall since: int, cs: seq<Call> | OneClock(s, since, cs) && cs != []
        ensures FreshAtEnd(s, since, cs)
      {
        FreshWithoutStaleness(s, since, cs);
      }
    } else {
      var run := StaleRun(s);
      FirstCall(s);
      assert run[..1] == [run[0]];
      var e := CacheAfter(s, run[..1])[0];
      assert [e] == CacheAfter(s, run[..1]);
      assert e.validThrough > run[1].now - run[1].rnd;
      assert OneClock(s, s.delay, run) && LastAnswer(s, run) == Some(0);
      if s.quantization > 0 {
        QuantizedMeaning(s, run[1].now);
      }
      assert !FreshAtEnd(s, s.delay, run);
    }
  }

  // ---- Pruning ----

  /** A call to a cache that is never pruned. */
  function UnprunedAnswer(s: Settings, cs: seq<Candidate>, c: Call): (seq<Candidate>, Option<int>) {
    var hit := FirstValid(cs, c.now - c.rnd);
    if hit.Some? then (cs, hit)
    else if c.remote.None? then (cs, None)
    else
      var (rev, validFor) := Optimized(s, c.remote.value);
      (cs + [Candidate(rev, c.now + validFor)], Some(rev))
  }

  function Unpruned(s: Settings, cs: seq<Call>): seq<Candidate> {
    if cs == [] then [] else UnprunedAnswer(s, Unpruned(s, cs[..|cs| - 1]), cs[|cs| - 1]).0
  }

  lemma KeptAreAlive(s: Settings, cs: seq<Candidate>, since: int, now: int, i: nat)
    requires GoodCache(s, cs, since) && i < |cs|
    ensures cs[i].validThrough + s.maxStaleness >= now <==> i >= |cs| - |Prune(s, cs, now)|
  {
    PruneIsSuffix(s, cs, now);
    var n := |cs| - |Prune(s, cs, now)|;
    if i >= n {
      assert cs[n] == Prune(s, cs, now)[0];
      assert cs[n].validThrough <= cs[i].validThrough;
    }
  }

  /** Pruning drops exactly the definitely expired candidates: because expiries are ordered, the
      prefix is all of them. */
  lemma PruneIsExact(s: Settings, cs: seq<Candidate>, since: int, now: int, e: Candidate)
    requires GoodCache(s, cs, since)
    ensures e in Prune(s, cs, now) <==> e in cs && e.validThrough + s.maxStaleness >= now
  {
    var kept := Prune(s, cs, now);
    PruneIsSuffix(s, cs, now);
    if e in cs {
      var i :| 0 <= i < |cs| && cs[i] == e;
      KeptAreAlive(s, cs, since, now, i);
      if i >= |cs| - |kept| {
        assert kept[i - (|cs| - |kept|)] == e;
      } else {
        NotKept(s, cs, since, now, e);
      }
    }
  }

  lemma NotKept(s: Settings, cs: seq<Candidate>, since: int, now: int, e: Candidate)
    requires GoodCache(s, cs, since) && e.validThrough + s.maxStaleness < now
    ensures e !in Prune(s, cs, now)
  {
    var kept := Prune(s, cs, now);
    PruneIsSuffix(s, cs, now);
    if e in kept {
      var j :| 0 <= j < |kept| && kept[j] == e;
      KeptAreAlive(s, cs, since, now, |cs| - |kept| + j);
      assert false;
    }
  }

  /** The largest possible draw. */
  function MaxDraw(s: Settings): nat {
    if s.maxStaleness > 0 then s.maxStaleness - 1 else 0
  }

  /** Every dropped candidate is one that no later call can use, whatever it draws. */
  ghost predicate DroppedIsDead(s: Settings, full: seq<Candidate>, kept: seq<Candidate>, now: int) {
    && |kept| <= |full|
    && kept == full[|full| - |kept|..]
    && forall i :: 0 <= i < |full| - |kept| ==> full[i].validThrough <= now - MaxDraw(s)
  }

  lemma {:induction false} DeadNeverHit(full: seq<Candidate>, n: nat, adjusted: int)
    requires n <= |full| && forall i :: 0 <= i < n ==> full[i].validThrough <= adjusted
    ensures FirstValid(full, adjusted) == FirstValid(full[n..], adjusted)
  {
    if n > 0 {
      DeadNeverHit(full[1..], n - 1, adjusted);
      assert full[1..][n - 1..] == full[n..];
    }
  }

  /** A refresh prunes only what is dead: beyond the staleness, or, when nothing is drawn, because
      the lookup before it found every candidate expired. */
  lemma PruneDropsDead(s: Settings, full: seq<Candidate>, kept: seq<Candidate>, then_: int, now: int, rnd: nat)
    requires DroppedIsDead(s, full, kept, then_) && then_ <= now
    requires ValidDraw(s, rnd) && FirstValid(kept, now - rnd).None?
    ensures DroppedIsDead(s, full, Prune(s, kept, now), now)
  {
    var kept', n := Prune(s, kept, now), |full| - |kept|;
    PruneIsSuffix(s, kept, now);
    FirstValidIs(kept, now - rnd);
    forall i | 0 <= i < |full| - |kept'|
      ensures full[i].validThrough <= now - MaxDraw(s)
    {
      if i >= n {
        assert full[i] == kept[i - n];
      }
    }
  }

  lemma AppendDropsDead(s: Settings, full: seq<Candidate>, kept: seq<Candidate>, e: Candidate, now: int)
    requires DroppedIsDead(s, full, kept, now)
    ensures DroppedIsDead(s, full + [e], kept + [e], now)
  {
  }

  lemma LaterDropsDead(s: Settings, full: seq<Candidate>, kept: seq<Candidate>, then_: int, now: int)
    requires DroppedIsDead(s, full, kept, then_) && then_ <= now
    ensures DroppedIsDead(s, full, kept, now)
  {
  }

  lemma SameHit(s: Settings, full: seq<Candidate>, kept: seq<Candidate>, then_: int, c: Call)
    requires DroppedIsDead(s, full, kept, then_) && then_ <= c.now && ValidDraw(s, c.rnd)
    ensures FirstValid(full, c.now - c.rnd) == FirstValid(kept, c.now - c.rnd)
  {
    DeadNeverHit(full, |full| - |kept|, c.now - c.rnd);
  }

  lemma PruningStep(s: Settings, full: seq<Candidate>, kept: seq<Candidate>, then_: int, c: Call)
    requires DroppedIsDead(s, full, kept, then_) && then_ <= c.now && ValidDraw(s, c.rnd)
    ensures UnprunedAnswer(s, full, c).1 == Answer(s, kept, c).1
    ensures DroppedIsDead(s, UnprunedAnswer(s, full, c).0, Answer(s, kept, c).0, c.now)
  {
    SameHit(s, full, kept, then_, c);
    if FirstValid(kept, c.now - c.rnd).None? && c.remote.Some? {
      var e := Candidate(Optimized(s, c.remote.value).0, c.now + Optimized(s, c.remote.value).1);
      PruneDropsDead(s, full, kept, then_, c.now, c.rnd);
      AppendDropsDead(s, full, Prune(s, kept, c.now), e, c.now);
    } else {
      LaterDropsDead(s, full, kept, then_, c.now);
    }
  }

  /** Pruning is unobservable: for all settings, any sequence of calls with a clock that does not go
      back, whatever the remote clock says, gets the answers a never-pruned cache would give. */
  lemma {:induction false} PruningUnobservable(s: Settings, since: int, cs: seq<Call>)
    requires Monotone(s, since, cs)
    ensures DroppedIsDead(s, Unpruned(s, cs), CacheAfter(s, cs), LastNow(since, cs))
    ensures cs != [] ==>
              UnprunedAnswer(s, Unpruned(s, cs[..|cs| - 1]), cs[|cs| - 1]).1 == LastAnswer(s, cs)
  {
    if cs != [] {
      var front := cs[..|cs| - 1];
      PruningUnobservable(s, since, front);
      PruningStep(s, Unpruned(s, front), CacheAfter(s, front), LastNow(since, front), cs[|cs| - 1]);
    }
  }

  predicate Monotone(s: Settings, since: int, cs: seq<Call>) {
    cs == [] ||
    (Monotone(s, since, cs[..|cs| - 1]) && ValidDraw(s, cs[|cs| - 1].rnd) &&
     cs[|cs| - 1].now >= LastNow(since, cs[..|cs| - 1]))
  }

  // ---- Memory ----

  lemma {:induction false} Spread(s: Settings, cs: seq<Candidate>, since: int)
    requires s.quantization > 0 && GoodCache(s, cs, since) && cs != []
    ensures cs[|cs| - 1].validThrough - cs[0].validThrough >= (|cs| - 1) * s.quantization
  {
    var n := |cs| - 1;
    if n > 0 {
      Spread(s, cs[..n], since);
      assert cs[..n][n - 1] == cs[n - 1];
      assert GoodCandidate(s, cs[n - 1], since) && GoodCandidate(s, cs[n], since);
      MultiplesApart(cs[n - 1].revision, cs[n].revision, s.quantization);
      assert n * s.quantization == (n - 1) * s.quantization + s.quantization;
    }
  }

  lemma QuotientBound(k: int, x: int, q: int)
    requires q > 0 && k * q <= x
    ensures k <= x / q
  {
    MulOrder(k, x / q, q);
    MulOrder(x / q + 1, k, q);
  }

  lemma StoredCount(s: Settings, cs: seq<Candidate>, now: int)
    requires s.quantization > 0 && GoodCache(s, cs, now) && cs != []
    requires cs[|cs| - 1].validThrough <= now + s.quantization && cs[0].validThrough >= now - s.maxStaleness
    ensures |cs| <= s.maxStaleness / s.quantization + 2
  {
    var k, q := |cs| - 2, s.quantization;
    Spread(s, cs, now);
    assert (|cs| - 1) * q == k * q + q;
    QuotientBound(k, s.maxStaleness, q);
  }

  /** floor(staleness / quantum) + 2, or one when the staleness is negative. */
  function CacheBound(s: Settings): nat
    requires s.quantization > 0
  {
    if s.maxStaleness >= 0 then s.maxStaleness / s.quantization + 2 else 1
  }

  /** After a call that stored a revision, the cache holds at most CacheBound candidates. */
  lemma CacheIsBounded(s: Settings, since: int, cs: seq<Call>)
    requires s.quantization > 0 && OneClock(s, since, cs) && cs != []
    requires FirstValid(CacheAfter(s, cs[..|cs| - 1]), cs[|cs| - 1].now - cs[|cs| - 1].rnd).None?
    ensures |CacheAfter(s, cs)| <= CacheBound(s)
  {
    var cache, c := CacheAfter(s, cs), cs[|cs| - 1];
    var before := CacheAfter(s, cs[..|cs| - 1]);
    CacheStaysGood(s, since, cs[..|cs| - 1]);
    CacheStaysGood(s, since, cs);
    assert cache == Prune(s, before, c.now) + [Stored(s, c.now)];
    PruneIsSuffix(s, before, c.now);
    if s.maxStaleness >= 0 {
      StoredEnds(s, c.now);
      StoredCount(s, cache, c.now);
    } else {
      FirstValidIs(before, c.now - c.rnd);
      assert Prune(s, before, c.now) == [];
    }
  }

  lemma StoredEnds(s: Settings, now: int)
    requires s.quantization > 0 && now >= s.delay
    ensures now < Stored(s, now).validThrough <= now + s.quantization
  {
    QuantizedMeaning(s, now);
  }

  /** A refresh at every quantum fills the cache. */
  function Ladder(s: Settings, m: nat): seq<Call> {
    if m == 0 then [] else
      var now := s.delay + (m - 1) * s.quantization;
      Ladder(s, m - 1) + [Call(now, Some(now), 0)]
  }

  lemma LadderStep(s: Settings, cs: seq<Candidate>, m: nat)
    requires m > 0 && s.quantization > 0 && s.maxStaleness >= 0 && (m - 2) * s.quantization <= s.maxStaleness
    requires |cs| == m - 1
    requires forall i :: 0 <= i < m - 1 ==> cs[i].validThrough == s.delay + i * s.quantization + s.quantization
    ensures
      var now := s.delay + (m - 1) * s.quantization;
      Answer(s, cs, Call(now, Some(now), 0)).0 ==
      cs + [Candidate((m - 1) * s.quantization, s.delay + (m - 1) * s.quantization + s.quantization)]
  {
    var q := s.quantization;
    var now := s.delay + (m - 1) * q;
    forall i | 0 <= i < m - 1
      ensures cs[i].validThrough <= now
    {
      MulOrder(i + 1, m - 1, q);
      assert (i + 1) * q == i * q + q;
    }
    FirstValidIs(cs, now);
    if m > 1 {
      assert cs[0].validThrough == s.delay + q;
      assert (m - 1) * q == (m - 2) * q + q;
    }
    assert Prune(s, cs, now) == cs;
    MultipleOf(m - 1, q);
    MulOrder(0, m - 1, q);
  }

  lemma {:induction false} LadderFills(s: Settings, m: nat)
    requires s.quantization > 0 && s.maxStaleness >= 0 && (m - 2) * s.quantization <= s.maxStaleness
    ensures OneClock(s, s.delay, Ladder(s, m)) && |Ladder(s, m)| == m
    ensures |CacheAfter(s, Ladder(s, m))| == m
    ensures forall i :: 0 <= i < m ==>
              CacheAfter(s, Ladder(s, m))[i].validThrough == s.delay + i * s.quantization + s.quantization
    ensures m > 0 ==> LastNow(s.delay, Ladder(s, m)) == s.delay + (m - 1) * s.quantization
  {
    if m > 0 {
      var q := s.quantization;
      assert (m - 3) * q <= (m - 2) * q by { MulOrder(m - 3, m - 2, q); }
      LadderFills(s, m - 1);
      LadderStep(s, CacheAfter(s, Ladder(s, m - 1)), m);
      var now := s.delay + (m - 1) * q;
      assert Ladder(s, m)[..m - 1] == Ladder(s, m - 1);
      MulOrder(0, m - 1, q);
      if m > 1 {
        assert (m - 1) * q == (m - 2) * q + q;
      }
    }
  }

  /** A run that fills the cache. */
  function FillingRun(s: Settings): seq<Call>
    requires s.quantization > 0
  {
    if s.maxStaleness >= 0 then Ladder(s, CacheBound(s)) else [Call(s.delay, Some(s.delay), 0)]
  }

  /** The bound is reached for all settings. */
  lemma {:induction false} BoundIsReached(s: Settings)
    requires s.quantization > 0
    ensures OneClock(s, s.delay, FillingRun(s)) && |CacheAfter(s, FillingRun(s))| == CacheBound(s)
  {
    if s.maxStaleness >= 0 {
      var k := s.maxStaleness / s.quantization;
      assert k * s.quantization <= s.maxStaleness;
      LadderFills(s, k + 2);
    } else {
      FirstCall(s);
    }
  }
}
