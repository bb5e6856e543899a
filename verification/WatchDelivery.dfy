/** The changelog watcher (internal/datastore/memdb/watch.go:63-96, 102-148): every round loads the
    changelog entries above the last revision seen and sends them on. */
module WatchDelivery {
  import opened Wrappers
  import opened SqlClauses
  import opened ChangeTracker
  import opened MemdbStore
  import opened Mutations
  import opened StoreRuns

  /** The watched content flags. */
  datatype WatchContent = WatchContent(relationships: bool, schema: bool, checkpoints: bool)

  const RELATIONSHIPS_ONLY := WatchContent(true, false, false)

  datatype Delivery = Entry(changes: RevisionChanges) | Checkpoint(rev: int)

  predicate ChangesRelationships(r: Record) {
    r.touches != map[] || r.deletes != map[]
  }

  predicate DeletesSchema(r: Record) {
    r.caveatsDeleted != {} || r.namespacesDeleted != {}
  }

  /** Up to two copies of an entry and its checkpoint. */
  function Pieces(e: RevisionChanges, first: bool, second: bool, third: bool): seq<Delivery> {
    (if first then [Entry(e)] else []) + (if second then [Entry(e)] else []) +
    (if third then [Checkpoint(e.rev)] else [])
  }

  predicate ForRelationships(content: WatchContent, r: Record) {
    content.relationships && ChangesRelationships(r)
  }

  /** The schema flag guards only the changed definitions; a deletion is sent whatever the flags are. */
  predicate ForSchema(content: WatchContent, r: Record) {
    (content.schema && r.definitions != map[]) || DeletesSchema(r)
  }

  /** What one changelog entry sends. After a relationship change a schema change is the same entry
      again (lines 123-130). */
  function Emit(content: WatchContent, last: int, e: RevisionChanges): seq<Delivery> {
    Pieces(e, ForRelationships(content, e.record), ForSchema(content, e.record),
           content.checkpoints && e.rev > last)
  }

  function LastRev(current: int, entries: seq<RevisionChanges>): int {
    if entries == [] then current else entries[|entries| - 1].rev
  }

  function EmitAll(content: WatchContent, current: int, entries: seq<RevisionChanges>): seq<Delivery> {
    if entries == [] then []
    else
      var front := entries[..|entries| - 1];
      EmitAll(content, current, front) + Emit(content, LastRev(current, front), entries[|entries| - 1])
  }

  lemma EmitSnoc(content: WatchContent, current: int, front: seq<RevisionChanges>, e: RevisionChanges)
    ensures EmitAll(content, current, front + [e]) ==
            EmitAll(content, current, front) + Emit(content, LastRev(current, front), e)
    ensures LastRev(current, front + [e]) == e.rev
  {
    assert (front + [e])[..|front|] == front;
  }

  /** An iterator over the revision index from the first entry at or above the bound. */
  function LowerBound(log: seq<RevisionChanges>, bound: int): seq<RevisionChanges> {
    if log == [] || log[0].rev >= bound then log else LowerBound(log[1..], bound)
  }

  lemma JoinFour<T>(a: seq<T>, b: seq<T>, c: seq<T>, d: seq<T>)
    ensures a + (b + c + d) == ((a + b) + c) + d
  {
  }

  method LoadChanges(mdb: MemdbDatastore, currentTxn: int, content: WatchContent)
    returns (out: Result<(seq<Delivery>, int), ReadError>)
    ensures
      var entries := LowerBound(mdb.db.log, currentTxn + 1);
      out == if mdb.closed then Err(StoreClosed)
             else Ok((EmitAll(content, currentTxn, entries), LastRev(currentTxn, entries)))
  {
    if mdb.closed {
      return Err(StoreClosed);
    }
    var it := LowerBound(mdb.db.log, currentTxn + 1);
    var changes: seq<Delivery> := [];
    var lastRevision := currentTxn;
    for i := 0 to |it|
      invariant changes == EmitAll(content, currentTxn, it[..i])
      invariant lastRevision == LastRev(currentTxn, it[..i])
    {
      assert it[..i + 1] == it[..i] + [it[i]];
      EmitSnoc(content, currentTxn, it[..i], it[i]);
      var change := it[i];
      ghost var before := changes;
      if content.relationships && (|change.record.touches| > 0 || |change.record.deletes| > 0) {
        changes := changes + [Entry(change)];
      }
      if (content.schema && |change.record.definitions| > 0)
         || |change.record.caveatsDeleted| > 0 || |change.record.namespacesDeleted| > 0
      {
        changes := changes + [Entry(change)];
      }
      if content.checkpoints && change.rev > lastRevision {
        changes := changes + [Checkpoint(change.rev)];
      }
      JoinFour(before,
               if ForRelationships(content, change.record) then [Entry(change)] else [],
               if ForSchema(content, change.record) then [Entry(change)] else [],
               if content.checkpoints && change.rev > lastRevision then [Checkpoint(change.rev)] else []);
      assert changes == before + Emit(content, lastRevision, change);
      lastRevision := change.rev;
    }
    assert it[..|it|] == it;
    return Ok((changes, lastRevision));
  }

  // ---- The watcher beside the store ----

  /** The watch loop: each round threads currentTxn and sends what was staged. */
  class Watcher {
    const content: WatchContent
    var currentTxn: int
    var sent: seq<Delivery>

    constructor (content: WatchContent, after: int)
      ensures this.content == content && currentTxn == after && sent == []
    {
      this.content := content;
      currentTxn := after;
      sent := [];
    }

    method Round(mdb: MemdbDatastore) returns (ok: bool)
      modifies this
      ensures ok <==> !mdb.closed
      ensures !ok ==> sent == old(sent)
      ensures ok ==> Watching(mdb.State(), currentTxn, sent) ==
                     WatchStep(content, Watching(mdb.State(), old(currentTxn), old(sent)), Poll)
    {
      var loaded := LoadChanges(mdb, currentTxn, content);
      if loaded.Err? {
        return false;
      }
      var staged, last := loaded.value.0, loaded.value.1;
      currentTxn := last;
      for i := 0 to |staged|
        invariant sent == old(sent) + staged[..i]
        invariant currentTxn == last
      {
        sent := sent + [staged[i]];
      }
      return true;
    }
  }

  datatype Watching = Watching(store: StoreState, current: int, sent: seq<Delivery>)
  datatype WatchEvent = Happens(e: Event) | Poll

  ghost predicate CanWatch(w: Watching, ev: WatchEvent) {
    ev.Happens? ==> Rises(w.store, ev.e)
  }

  function WatchStep(content: WatchContent, w: Watching, ev: WatchEvent): Watching
    requires ev.Happens? ==> Enabled(w.store, ev.e)
  {
    match ev
    case Happens(e) => w.(store := Step(w.store, e))
    case Poll =>
      var entries := LowerBound(w.store.live.log, w.current + 1);
      w.(current := LastRev(w.current, entries), sent := w.sent + EmitAll(content, w.current, entries))
  }

  ghost predicate WatchRun(content: WatchContent, w: Watching, evs: seq<WatchEvent>)
    decreases |evs|
  {
    evs == [] || (CanWatch(w, evs[0]) && WatchRun(content, WatchStep(content, w, evs[0]), evs[1..]))
  }

  ghost function AfterRun(content: WatchContent, w: Watching, evs: seq<WatchEvent>): Watching
    requires WatchRun(content, w, evs)
    decreases |evs|
  {
    if evs == [] then w else AfterRun(content, WatchStep(content, w, evs[0]), evs[1..])
  }

  // ---- The changelog in order ----

  lemma JoinLast<T>(a: seq<T>, b: seq<T>, c: seq<T>)
    ensures (a + b) + c == a + (b + c)
  {
  }

  lemma {:induction false} BetweenConcat(a: seq<RevisionChanges>, b: seq<RevisionChanges>, from: int, to: int)
    ensures Between(a + b, from, to) == Between(a, from, to) + Between(b, from, to)
    decreases |b|
  {
    if b == [] {
      assert a + b == a;
    } else {
      var front, last := b[..|b| - 1], b[|b| - 1];
      BetweenConcat(a, front, from, to);
      BetweenSnoc(a + front, last, from, to);
      BetweenSnoc(front, last, from, to);
      assert b == front + [last];
      JoinLast(a, front, [last]);
      JoinLast(Between(a, from, to), Between(front, from, to), if from < last.rev <= to then [last] else []);
    }
  }

  /** Where the iterator starts: everything before lies below the bound. */
  lemma {:induction false} LowerBoundAt(log: seq<RevisionChanges>, bound: int) returns (k: nat)
    ensures k <= |log| && LowerBound(log, bound) == log[k..]
    ensures forall i :: 0 <= i < k ==> log[i].rev < bound
    ensures k < |log| ==> log[k].rev >= bound
  {
    if log == [] || log[0].rev >= bound {
      k := 0;
    } else {
      k := LowerBoundAt(log[1..], bound);
      k := k + 1;
      assert forall i :: 0 < i < k ==> log[i] == log[1..][i - 1];
      assert k < |log| ==> log[k] == log[1..][k - 1];
    }
  }

  lemma LastRevLast(c: int, entries: seq<RevisionChanges>)
    requires SortedLog(entries) && forall i :: 0 <= i < |entries| ==> entries[i].rev > c
    ensures LastRev(c, entries) >= c && forall i :: 0 <= i < |entries| ==> c < entries[i].rev <= LastRev(c, entries)
  {
  }

  lemma SplitLog(log: seq<RevisionChanges>, k: nat, c: int)
    requires SortedLog(log) && k <= |log|
    requires forall i :: 0 <= i < k ==> log[i].rev <= c
    requires k < |log| ==> log[k].rev > c
    ensures log == log[..k] + log[k..] && SortedLog(log[k..])
    ensures forall i :: 0 <= i < |log[..k]| ==> log[..k][i].rev <= c
    ensures forall i :: 0 <= i < |log[k..]| ==> log[k..][i].rev > c
  {
  }

  lemma BetweenOfSplit(front: seq<RevisionChanges>, back: seq<RevisionChanges>, c: int, to: int)
    requires forall i :: 0 <= i < |front| ==> front[i].rev <= c
    requires forall i :: 0 <= i < |back| ==> c < back[i].rev <= to
    ensures Between(front + back, c, to) == back
  {
    BetweenConcat(front, back, c, to);
    NothingBetween(front, c, to);
    AllBetween(back, c, to);
  }

  /** What is loaded is the stretch of the changelog from `c` to the end. */
  lemma LowerBoundIsBetween(log: seq<RevisionChanges>, c: int)
    requires SortedLog(log)
    ensures
      var b := LowerBound(log, c + 1);
      var to := LastRev(c, b);
      b == Between(log, c, to) && to >= c
  {
    var k := LowerBoundAt(log, c + 1);
    SplitLog(log, k, c);
    LastRevLast(c, log[k..]);
    BetweenOfSplit(log[..k], log[k..], c, LastRev(c, log[k..]));
  }

  lemma NothingAfterLoad(log: seq<RevisionChanges>, c: int)
    requires SortedLog(log)
    ensures forall i :: 0 <= i < |log| ==> log[i].rev <= LastRev(c, LowerBound(log, c + 1))
  {
    var k := LowerBoundAt(log, c + 1);
    SplitLog(log, k, c);
    LastRevLast(c, log[k..]);
    assert forall i :: k <= i < |log| ==> log[i] == log[k..][i - k];
  }

  lemma {:induction false} EmitJoins(content: WatchContent, current: int,
                                     a: seq<RevisionChanges>, b: seq<RevisionChanges>)
    ensures EmitAll(content, current, a + b) ==
            EmitAll(content, current, a) + EmitAll(content, LastRev(current, a), b)
    ensures LastRev(current, a + b) == LastRev(LastRev(current, a), b)
    decreases |b|
  {
    if b == [] {
      assert a + b == a;
    } else {
      var front := b[..|b| - 1];
      EmitJoins(content, current, a, front);
      assert (a + b)[..|a + b| - 1] == a + front && (a + b)[|a + b| - 1] == b[|b| - 1];
      var last := Emit(content, LastRev(current, a + front), b[|b| - 1]);
      JoinLast(EmitAll(content, current, a), EmitAll(content, LastRev(current, a), front), last);
    }
  }

  // ---- Every entry once, in order ----

  /** What the watcher has sent so far is determined by the changelog between where it began and
      where it stands. */
  ghost predicate Delivered(content: WatchContent, from: int, w: Watching) {
    var entries := Between(w.store.live.log, from, w.current);
    && Inv(w.store)
    && (w.current == from || from < w.current <= Head(w.store))
    && w.sent == EmitAll(content, from, entries)
    && LastRev(from, entries) == w.current
  }

  lemma LowerBoundEnds(log: seq<RevisionChanges>, bound: int)
    requires LowerBound(log, bound) != []
    ensures log != [] && LastRev(0, LowerBound(log, bound)) == log[|log| - 1].rev
  {
  }

  /** A round reaches the end of the changelog. */
  lemma LoadReaches(log: seq<RevisionChanges>, current: int)
    requires SortedLog(log)
    ensures
      var to := LastRev(current, LowerBound(log, current + 1));
      && to >= current
      && (to == current || (log != [] && to == log[|log| - 1].rev))
      && (forall e :: e in log ==> e.rev <= to)
  {
    LowerBoundIsBetween(log, current);
    NothingAfterLoad(log, current);
    if LowerBound(log, current + 1) != [] {
      LowerBoundEnds(log, current + 1);
    }
  }

  lemma LoadExtends(content: WatchContent, from: int, current: int, log: seq<RevisionChanges>)
    requires SortedLog(log) && from <= current && LastRev(from, Between(log, from, current)) == current
    ensures
      var b := LowerBound(log, current + 1);
      var to := LastRev(current, b);
      && EmitAll(content, from, Between(log, from, to)) ==
         EmitAll(content, from, Between(log, from, current)) + EmitAll(content, current, b)
      && LastRev(from, Between(log, from, to)) == to
  {
    var b := LowerBound(log, current + 1);
    LowerBoundIsBetween(log, current);
    BetweenJoins(log, from, current, LastRev(current, b));
    EmitJoins(content, from, Between(log, from, current), b);
  }

  lemma PollDelivers(content: WatchContent, from: int, w: Watching)
    requires Delivered(content, from, w)
    ensures Delivered(content, from, WatchStep(content, w, Poll))
    ensures forall e :: e in w.store.live.log && e.rev > from ==> e.rev <= WatchStep(content, w, Poll).current
  {
    var log := w.store.live.log;
    InvLog(w.store);
    LoadReaches(log, w.current);
    if w.current == from {
      NothingBetween(log, from, from);
    }
    LoadExtends(content, from, w.current, log);
  }

  lemma InvLog(s: StoreState)
    requires Inv(s)
    ensures SortedLog(s.live.log)
    ensures s.live.log != [] ==> s.live.log[|s.live.log| - 1].rev <= Head(s)
  {
  }

  /** A store step adds at most one entry, and that one lies above the head. */
  lemma StepLog(s: StoreState, e: Event)
    requires Inv(s) && Rises(s, e)
    ensures
      var s' := Step(s, e);
      && Inv(s') && Head(s') >= Head(s)
      && (s'.live.log == s.live.log ||
          (s'.live.log != [] && s'.live.log[..|s'.live.log| - 1] == s.live.log &&
           s'.live.log[|s'.live.log| - 1].rev > Head(s)))
  {
    StepKeepsInv(s, e);
    var s' := Step(s, e);
    assert s'.snaps[|s.snaps| - 1] == s.snaps[|s.snaps| - 1];
    if e.Commit? && s.attempts[e.t].Open? {
      OpenCommitChains(s, e.t, e.changes);
    }
  }

  lemma StoreStepDelivers(content: WatchContent, from: int, w: Watching, e: Event)
    requires Delivered(content, from, w) && CanWatch(w, Happens(e))
    ensures Delivered(content, from, WatchStep(content, w, Happens(e)))
  {
    StepLog(w.store, e);
    var log' := Step(w.store, e).live.log;
    assert Between(log', from, w.current) == Between(w.store.live.log, from, w.current);
  }

  /** Whatever commits of increasing revision, aborts and retries interleave with the watcher's
      rounds, and whatever else the callbacks of an open store do, the sent messages are exactly
      those of the changelog entries after the start revision up to the revision the watcher has
      reached: none is skipped, repeated or reordered. */
  lemma {:induction false} WatchDelivers(content: WatchContent, from: int, w: Watching, evs: seq<WatchEvent>)
    requires Delivered(content, from, w) && WatchRun(content, w, evs)
    ensures Delivered(content, from, AfterRun(content, w, evs))
    decreases |evs|
  {
    if evs != [] {
      if evs[0].Poll? {
        PollDelivers(content, from, w);
      } else {
        StoreStepDelivers(content, from, w, evs[0].e);
      }
      WatchDelivers(content, from, WatchStep(content, w, evs[0]), evs[1..]);
    }
  }

  /** From the start of the watch, and with one more round at the end nothing is outstanding. */
  lemma WatchIsComplete(content: WatchContent, s: StoreState, from: int, evs: seq<WatchEvent>)
    requires Inv(s) && WatchRun(content, Watching(s, from, []), evs)
    ensures
      var w := AfterRun(content, Watching(s, from, []), evs);
      var w' := WatchStep(content, w, Poll);
      && w.sent == EmitAll(content, from, Between(w.store.live.log, from, w.current))
      && w'.sent == EmitAll(content, from, Between(w.store.live.log, from, w'.current))
      && (forall e :: e in w.store.live.log && e.rev > from ==> e.rev <= w'.current)
  {
    NothingBetween(s.live.log, from, from);
    WatchDelivers(content, from, Watching(s, from, []), evs);
    PollDelivers(content, from, AfterRun(content, Watching(s, from, []), evs));
  }

  // ---- A watcher of relationships only ----

  /** The entries a watcher of relationships asks for, once each and in order. */
  function Wanted(entries: seq<RevisionChanges>): seq<Delivery> {
    if entries == [] then []
    else
      var e := entries[|entries| - 1];
      Wanted(entries[..|entries| - 1]) + (if ChangesRelationships(e.record) then [Entry(e)] else [])
  }

  function Unrequested(entries: seq<RevisionChanges>): nat {
    if entries == [] then 0
    else Unrequested(entries[..|entries| - 1]) + (if DeletesSchema(entries[|entries| - 1].record) then 1 else 0)
  }

  lemma {:induction false} SentCount(current: int, entries: seq<RevisionChanges>)
    ensures |EmitAll(RELATIONSHIPS_ONLY, current, entries)| == |Wanted(entries)| + Unrequested(entries)
    ensures Unrequested(entries) == 0 ==> EmitAll(RELATIONSHIPS_ONLY, current, entries) == Wanted(entries)
    ensures Unrequested(entries) == 0 <==> forall e :: e in entries ==> !DeletesSchema(e.record)
  {
    if entries != [] {
      var n := |entries| - 1;
      SentCount(current, entries[..n]);
      assert entries == entries[..n] + [entries[n]];
    }
  }

  /** A watcher of relationships only receives exactly the relationship-bearing entries of its
      range, once each and in order, if and only if no entry of the range deletes a namespace or a
      caveat. */
  lemma RelationshipWatchExact(s: StoreState, from: int, evs: seq<WatchEvent>)
    requires Inv(s) && WatchRun(RELATIONSHIPS_ONLY, Watching(s, from, []), evs)
    ensures
      var w := AfterRun(RELATIONSHIPS_ONLY, Watching(s, from, []), evs);
      var entries := Between(w.store.live.log, from, w.current);
      w.sent == Wanted(entries) <==> forall e :: e in entries ==> !DeletesSchema(e.record)
  {
    WatchIsComplete(RELATIONSHIPS_ONLY, s, from, evs);
    var w := AfterRun(RELATIONSHIPS_ONLY, Watching(s, from, []), evs);
    SentCount(from, Between(w.store.live.log, from, w.current));
  }

  /** The revisions of the wanted messages are strictly increasing, so none occurs twice. */
  lemma {:induction false} WantedIncreases(entries: seq<RevisionChanges>)
    requires SortedLog(entries)
    ensures forall i, j :: 0 <= i < j < |Wanted(entries)| ==> Before(Wanted(entries)[i], Wanted(entries)[j])
    ensures forall d :: d in Wanted(entries) ==> d.Entry? && d.changes in entries
  {
    if entries != [] {
      WantedIncreases(entries[..|entries| - 1]);
    }
  }

  predicate Before(a: Delivery, b: Delivery) {
    a.Entry? && b.Entry? && a.changes.rev < b.changes.rev
  }

  // ---- What is sent, message by message ----

  function RevOf(d: Delivery): int {
    match d
    case Entry(e) => e.rev
    case Checkpoint(rev) => rev
  }

  /** a may be sent before b. */
  predicate InOrder(a: Delivery, b: Delivery) {
    RevOf(a) < RevOf(b) || (RevOf(a) == RevOf(b) && a.Entry?)
  }

  function One(b: bool): nat {
    if b then 1 else 0
  }

  /** How often an entry is sent. */
  function Times(content: WatchContent, r: Record): nat {
    One(ForRelationships(content, r)) + One(ForSchema(content, r))
  }

  /** Messages of one entry, in order. */
  ghost predicate OfEntry(e: RevisionChanges, s: seq<Delivery>) {
    && (forall i, j :: 0 <= i < j < |s| ==> InOrder(s[i], s[j]))
    && (forall i :: 0 <= i < |s| ==> RevOf(s[i]) == e.rev)
  }

  /** How often a message occurs. */
  ghost function Count(sent: seq<Delivery>, d: Delivery): nat {
    if sent == [] then 0 else Count(sent[..|sent| - 1], d) + One(sent[|sent| - 1] == d)
  }

  lemma {:induction false} CountIsMultiplicity(sent: seq<Delivery>, d: Delivery)
    ensures multiset(sent)[d] == Count(sent, d)
  {
    if sent != [] {
      CountIsMultiplicity(sent[..|sent| - 1], d);
      assert sent == sent[..|sent| - 1] + [sent[|sent| - 1]];
    }
  }

  lemma {:induction false} CountJoins(a: seq<Delivery>, b: seq<Delivery>, d: Delivery)
    ensures Count(a + b, d) == Count(a, d) + Count(b, d)
    decreases |b|
  {
    if b == [] {
      assert a + b == a;
    } else {
      CountJoins(a, b[..|b| - 1], d);
      assert (a + b)[..|a + b| - 1] == a + b[..|b| - 1];
    }
  }

  lemma CountOne(b: bool, x: Delivery, d: Delivery)
    ensures Count(if b then [x] else [], d) == One(b && d == x)
  {
    assert [x][..0] == [];
  }

  lemma CountPieces(e: RevisionChanges, first: bool, second: bool, third: bool, d: Delivery)
    ensures Count(Pieces(e, first, second, third), d) ==
            if d == Entry(e) then One(first) + One(second) else One(third && d == Checkpoint(e.rev))
  {
    var a: seq<Delivery>, b: seq<Delivery> := if first then [Entry(e)] else [], if second then [Entry(e)] else [];
    CountJoins(a + b, if third then [Checkpoint(e.rev)] else [], d);
    CountJoins(a, b, d);
    CountOne(first, Entry(e), d);
    CountOne(second, Entry(e), d);
    CountOne(third, Checkpoint(e.rev), d);
  }

  lemma PiecesOrder(e: RevisionChanges, first: bool, second: bool, third: bool)
    ensures OfEntry(e, Pieces(e, first, second, third))
  {
  }

  lemma EmitCounts(content: WatchContent, last: int, e: RevisionChanges, d: Delivery)
    requires last < e.rev
    ensures Count(Emit(content, last, e), d) ==
            if d == Entry(e) then Times(content, e.record)
            else One(content.checkpoints && d == Checkpoint(e.rev))
  {
    CountPieces(e, ForRelationships(content, e.record), ForSchema(content, e.record),
                content.checkpoints && e.rev > last, d);
  }

  lemma EmitOrder(content: WatchContent, last: int, e: RevisionChanges)
    ensures OfEntry(e, Emit(content, last, e))
  {
    PiecesOrder(e, ForRelationships(content, e.record), ForSchema(content, e.record),
                content.checkpoints && e.rev > last);
  }

  /** The entry of a revision, if the stretch has one. */
  ghost predicate HasEntryAt(entries: seq<RevisionChanges>, rev: int) {
    exists i :: 0 <= i < |entries| && entries[i].rev == rev
  }

  /** How often a message is sent for a stretch of the changelog. */
  ghost function SentTimes(content: WatchContent, entries: seq<RevisionChanges>, d: Delivery): nat {
    match d
    case Entry(e) => if e in entries then Times(content, e.record) else 0
    case Checkpoint(rev) => One(content.checkpoints && HasEntryAt(entries, rev))
  }

  ghost predicate SentInOrder(sent: seq<Delivery>, upTo: int) {
    && (forall i, j :: 0 <= i < j < |sent| ==> InOrder(sent[i], sent[j]))
    && (forall i :: 0 <= i < |sent| ==> RevOf(sent[i]) <= upTo)
  }

  lemma OrderJoins(before: seq<Delivery>, upTo: int, e: RevisionChanges, last: seq<Delivery>)
    requires SentInOrder(before, upTo) && upTo < e.rev && OfEntry(e, last)
    ensures SentInOrder(before + last, e.rev)
  {
  }

  /** The entries of a stretch come after the revision it starts at. */
  ghost predicate Stretch(current: int, entries: seq<RevisionChanges>) {
    SortedLog(entries) && forall i :: 0 <= i < |entries| ==> entries[i].rev > current
  }

  lemma StretchFront(current: int, entries: seq<RevisionChanges>)
    requires Stretch(current, entries) && entries != []
    ensures
      var front, e := entries[..|entries| - 1], entries[|entries| - 1];
      && Stretch(current, front) && entries == front + [e] && LastRev(current, front) < e.rev
      && forall i :: 0 <= i < |front| ==> front[i].rev < e.rev
  {
  }

  lemma {:induction false} SentCounts(content: WatchContent, current: int, entries: seq<RevisionChanges>, d: Delivery)
    requires Stretch(current, entries)
    ensures Count(EmitAll(content, current, entries), d) == SentTimes(content, entries, d)
  {
    if entries != [] {
      var front, e := entries[..|entries| - 1], entries[|entries| - 1];
      StretchFront(current, entries);
      SentCounts(content, current, front, d);
      EmitSnoc(content, current, front, e);
      EmitCounts(content, LastRev(current, front), e, d);
      CountJoins(EmitAll(content, current, front), Emit(content, LastRev(current, front), e), d);
      EntrySplits(front, e, d);
    }
  }

  lemma {:induction false} SentOrder(content: WatchContent, current: int, entries: seq<RevisionChanges>)
    requires Stretch(current, entries)
    ensures SentInOrder(EmitAll(content, current, entries), LastRev(current, entries))
  {
    if entries != [] {
      var front, e := entries[..|entries| - 1], entries[|entries| - 1];
      StretchFront(current, entries);
      SentOrder(content, current, front);
      EmitSnoc(content, current, front, e);
      EmitOrder(content, LastRev(current, front), e);
      var last := Emit(content, LastRev(current, front), e);
      OrderJoins(EmitAll(content, current, front), LastRev(current, front), e, last);
    }
  }

  /** The messages of a stretch of the changelog, whatever content is watched: an entry of the stretch
      is sent once for changed relationships, if they are watched, and once more for changed
      definitions, if they are watched, or for deleted ones; a checkpoint is sent once for each
      revision of the stretch, if they are watched. Nothing else is sent, and the revisions never
      decrease, with the checkpoint of a revision after its entry. */
  lemma SentExactly(content: WatchContent, current: int, entries: seq<RevisionChanges>, d: Delivery)
    requires SortedLog(entries) && forall i :: 0 <= i < |entries| ==> entries[i].rev > current
    ensures multiset(EmitAll(content, current, entries))[d] ==
            match d
            case Entry(e) =>
              if e !in entries then 0
              else
                One(content.relationships && (e.record.touches != map[] || e.record.deletes != map[])) +
                One((content.schema && e.record.definitions != map[]) ||
                    e.record.namespacesDeleted != {} || e.record.caveatsDeleted != {})
            case Checkpoint(rev) => One(content.checkpoints && HasEntryAt(entries, rev))
    ensures SentInOrder(EmitAll(content, current, entries), LastRev(current, entries))
  {
    SentCounts(content, current, entries, d);
    CountIsMultiplicity(EmitAll(content, current, entries), d);
    SentOrder(content, current, entries);
  }

  lemma EntrySplits(front: seq<RevisionChanges>, e: RevisionChanges, d: Delivery)
    requires forall i :: 0 <= i < |front| ==> front[i].rev < e.rev
    ensures e !in front && !HasEntryAt(front, e.rev)
    ensures d.Entry? ==> (d.changes in front + [e] <==> d.changes in front || d.changes == e)
    ensures d.Checkpoint? ==> (HasEntryAt(front + [e], d.rev) <==> HasEntryAt(front, d.rev) || d.rev == e.rev)
  {
    assert forall i :: 0 <= i < |front| ==> (front + [e])[i] == front[i];
    assert (front + [e])[|front|] == e;
  }

  // ---- Replaying the stream ----

  /** A consumer that applies every entry it receives. */
  ghost function Consume(t: Tables, sent: seq<Delivery>): Tables {
    if sent == [] then t
    else
      var before := Consume(t, sent[..|sent| - 1]);
      match sent[|sent| - 1]
      case Entry(e) => Replay(before, e.record)
      case Checkpoint(_) => before
  }

  lemma ConsumeSnoc(t: Tables, sent: seq<Delivery>, d: Delivery)
    ensures Consume(t, sent + [d]) == if d.Entry? then Replay(Consume(t, sent), d.changes.record) else Consume(t, sent)
  {
    assert (sent + [d])[..|sent|] == sent;
  }

  lemma {:induction false} ConsumeJoins(t: Tables, a: seq<Delivery>, b: seq<Delivery>)
    ensures Consume(t, a + b) == Consume(Consume(t, a), b)
    decreases |b|
  {
    if b == [] {
      assert a + b == a;
    } else {
      var front, last := b[..|b| - 1], b[|b| - 1];
      ConsumeJoins(t, a, front);
      assert a + b == (a + front) + [last] && b == front + [last];
      ConsumeSnoc(t, a + front, last);
      ConsumeSnoc(Consume(t, a), front, last);
    }
  }

  /** The tables agree as far as the watched content goes. */
  ghost predicate SameWatched(content: WatchContent, a: Tables, b: Tables) {
    && (content.relationships ==> a.rels == b.rels)
    && (content.schema ==> a.namespaces == b.namespaces && a.caveats == b.caveats)
  }

  /** Applying an entry twice is applying it once. */
  lemma ReplayTwice(t: Tables, r: Record)
    ensures Replay(Replay(t, r), r) == Replay(t, r)
  {
    var once := Replay(t, r);
    assert ReplayRels(once.rels, r) == once.rels;
    assert ReplayNamespaces(once.namespaces, r) == once.namespaces;
    assert ReplayCaveats(once.caveats, r) == once.caveats;
  }

  /** An entry that is not sent changes nothing that is watched. */
  lemma UnsentChangesNothing(content: WatchContent, t: Tables, r: Record)
    requires !ForRelationships(content, r) && !ForSchema(content, r)
    ensures SameWatched(content, t, Replay(t, r))
  {
    NothingChanged(t, r);
  }

  lemma ConsumeAtMost(t: Tables, sent: seq<Delivery>)
    requires |sent| <= 1
    ensures sent == [] || sent[0].Checkpoint? ==> Consume(t, sent) == t
    ensures sent != [] && sent[0].Entry? ==> Consume(t, sent) == Replay(t, sent[0].changes.record)
  {
    if sent != [] {
      assert sent[..|sent| - 1] == [] && Consume(t, []) == t;
    }
  }

  lemma ConsumePieces(t: Tables, e: RevisionChanges, first: bool, second: bool, third: bool)
    ensures Consume(t, Pieces(e, first, second, third)) == if first || second then Replay(t, e.record) else t
  {
    var a: seq<Delivery>, b: seq<Delivery> := if first then [Entry(e)] else [], if second then [Entry(e)] else [];
    var c: seq<Delivery> := if third then [Checkpoint(e.rev)] else [];
    ConsumeJoins(t, a + b, c);
    ConsumeJoins(t, a, b);
    ConsumeAtMost(t, a);
    ConsumeAtMost(Consume(t, a), b);
    ConsumeAtMost(Consume(t, a + b), c);
    ReplayTwice(t, e.record);
  }

  /** What one entry's messages come to: the entry applied once, or not at all. */
  lemma ConsumeOne(content: WatchContent, t: Tables, last: int, e: RevisionChanges)
    ensures Consume(t, Emit(content, last, e)) == if Times(content, e.record) > 0 then Replay(t, e.record) else t
  {
    ConsumePieces(t, e, ForRelationships(content, e.record), ForSchema(content, e.record),
                  content.checkpoints && e.rev > last);
  }

  lemma ReplayWatched(content: WatchContent, a: Tables, b: Tables, r: Record)
    requires SameWatched(content, a, b)
    ensures SameWatched(content, if Times(content, r) > 0 then Replay(a, r) else a, Replay(b, r))
  {
    if !ForRelationships(content, r) && !ForSchema(content, r) {
      UnsentChangesNothing(content, b, r);
    }
  }

  lemma {:induction false} ConsumeIsReplay(content: WatchContent, t: Tables, current: int,
                                           entries: seq<RevisionChanges>)
    ensures SameWatched(content, Consume(t, EmitAll(content, current, entries)), ReplayAll(t, entries))
  {
    if entries != [] {
      var front, e := entries[..|entries| - 1], entries[|entries| - 1];
      ConsumeIsReplay(content, t, current, front);
      var before := EmitAll(content, current, front);
      ConsumeJoins(t, before, Emit(content, LastRev(current, front), e));
      ConsumeOne(content, Consume(t, before), LastRev(current, front), e);
      ReplayWatched(content, Consume(t, before), ReplayAll(t, front), e.record);
    }
  }

  /** Whatever content is watched, and although entries can be sent twice: a consumer that starts
      from the snapshot the watch began at and applies what it receives holds, after the next round,
      exactly the relationships of the head if it watches relationships, and exactly its namespaces
      and caveats if it watches the schema. */
  lemma WatcherReachesHead(content: WatchContent, s: StoreState, i: nat, evs: seq<WatchEvent>)
    requires Inv(s) && i < |s.snaps|
    requires WatchRun(content, Watching(s, s.snaps[i].rev, []), evs)
    ensures
      var w := AfterRun(content, Watching(s, s.snaps[i].rev, []), evs);
      var held := Consume(TablesOf(DbAt(s, i)), WatchStep(content, w, Poll).sent);
      && (content.relationships ==> held.rels == w.store.live.rels)
      && (content.schema ==>
            held.namespaces == Total(w.store.live.namespaces) && held.caveats == Total(w.store.live.caveats))
  {
    var from := s.snaps[i].rev;
    var w0 := Watching(s, from, []);
    NothingBetween(s.live.log, from, from);
    WatchDelivers(content, from, w0, evs);
    WatchKeepsSnaps(content, w0, evs);
    PollReachesHead(content, s, i, AfterRun(content, w0, evs));
  }

  /** The entries up to the revision a round reaches are those up to the head. */
  lemma ReachedIsHead(log: seq<RevisionChanges>, from: int, reached: int, head: int)
    requires SortedLog(log) && from <= reached && from <= head
    requires forall i :: 0 <= i < |log| ==> log[i].rev <= head && (log[i].rev > from ==> log[i].rev <= reached)
    ensures Between(log, from, reached) == Between(log, from, head)
  {
    if reached <= head {
      BetweenJoins(log, from, reached, head);
      NothingBetween(log, reached, head);
    } else {
      BetweenJoins(log, from, head, reached);
      NothingBetween(log, head, reached);
    }
  }

  lemma PollSent(content: WatchContent, from: int, w: Watching)
    requires Delivered(content, from, w)
    ensures
      var w', log := WatchStep(content, w, Poll), w.store.live.log;
      && w'.current >= from && w'.sent == EmitAll(content, from, Between(log, from, w'.current))
      && (forall i :: 0 <= i < |log| && log[i].rev > from ==> log[i].rev <= w'.current)
  {
    PollDelivers(content, from, w);
    assert forall i :: 0 <= i < |w.store.live.log| ==> w.store.live.log[i] in w.store.live.log;
  }

  lemma LiveIsHead(s: StoreState)
    requires Inv(s)
    ensures s.live == DbAt(s, |s.snaps| - 1) && SortedLog(s.live.log)
    ensures forall i :: 0 <= i < |s.live.log| ==> s.live.log[i].rev <= Head(s)
    ensures forall i :: 0 <= i < |s.snaps| ==> s.snaps[i].rev <= Head(s)
  {
  }

  lemma HeadReplays(s: StoreState, i: nat, reached: int)
    requires Inv(s) && i < |s.snaps| && s.snaps[i].rev <= reached
    requires forall k :: 0 <= k < |s.live.log| && s.live.log[k].rev > s.snaps[i].rev ==> s.live.log[k].rev <= reached
    ensures ReplayAll(TablesOf(DbAt(s, i)), Between(s.live.log, s.snaps[i].rev, reached)) == TablesOf(s.live)
  {
    LiveIsHead(s);
    assert Between(s.live.log, s.snaps[i].rev, reached) == Between(s.live.log, s.snaps[i].rev, Head(s)) by {
      ReachedIsHead(s.live.log, s.snaps[i].rev, reached, Head(s));
    }
    ReplayEqualsSnapshot(s, i, |s.snaps| - 1);
  }

  lemma PollReachesHead(content: WatchContent, s: StoreState, i: nat, w: Watching)
    requires i < |s.snaps|
    requires Delivered(content, s.snaps[i].rev, w) && s.snaps <= w.store.snaps
    ensures
      SameWatched(content, Consume(TablesOf(DbAt(s, i)), WatchStep(content, w, Poll).sent), TablesOf(w.store.live))
  {
    var from, reached := s.snaps[i].rev, WatchStep(content, w, Poll).current;
    PollSent(content, from, w);
    StillThere(s, w.store, i);
    HeadReplays(w.store, i, reached);
    ConsumeIsReplay(content, TablesOf(DbAt(s, i)), from, Between(w.store.live.log, from, reached));
  }

  lemma StillThere(s: StoreState, s': StoreState, i: nat)
    requires i < |s.snaps| && s.snaps <= s'.snaps && Sorted(s'.snaps)
    ensures s'.snaps[i] == s.snaps[i] && DbAt(s', i) == DbAt(s, i) && s.snaps[i].rev <= Head(s')
  {
  }

  lemma {:induction false} WatchKeepsSnaps(content: WatchContent, w: Watching, evs: seq<WatchEvent>)
    requires Inv(w.store) && WatchRun(content, w, evs)
    ensures w.store.snaps <= AfterRun(content, w, evs).store.snaps
    decreases |evs|
  {
    if evs != [] {
      if evs[0].Happens? {
        StepKeepsInv(w.store, evs[0].e);
      }
      WatchKeepsSnaps(content, WatchStep(content, w, evs[0]), evs[1..]);
    }
  }

  // ---- Why the revisions must increase ----

  /** The changelog stays in order; the new entry takes the place of one at its revision, and every
      other entry stays. */
  lemma {:induction false} InsertKeepsOrder(log: seq<RevisionChanges>, e: RevisionChanges)
    requires SortedLog(log)
    ensures SortedLog(InsertLog(log, e))
    ensures forall x :: x in InsertLog(log, e) <==> x == e || (x in log && x.rev != e.rev)
  {
    if log != [] {
      var rest, last := log[..|log| - 1], log[|log| - 1];
      assert log == rest + [last];
      if last.rev > e.rev {
        var front := InsertLog(rest, e);
        InsertKeepsOrder(rest, e);
        assert forall i :: 0 <= i < |front| ==> front[i] in front;
      }
    }
  }

  lemma {:induction false} LowerBoundKeeps(log: seq<RevisionChanges>, bound: int, e: RevisionChanges)
    requires SortedLog(log) && e in log
    ensures e in LowerBound(log, bound) <==> e.rev >= bound
  {
    if log[0].rev < bound && e != log[0] {
      LowerBoundKeeps(log[1..], bound, e);
    } else if log[0].rev < bound {
      LowerBoundTail(log[1..], bound);
    }
  }

  lemma {:induction false} LowerBoundTail(log: seq<RevisionChanges>, bound: int)
    ensures forall x :: x in LowerBound(log, bound) ==> x in log
    ensures SortedLog(log) ==> forall x :: x in LowerBound(log, bound) ==> x.rev >= bound
  {
    if log != [] && log[0].rev < bound {
      LowerBoundTail(log[1..], bound);
    }
  }

  /** An entry written at any revision, in or out of order, is loaded by a watcher standing at
      `current` if and only if its revision is above it: one that commits behind the watcher is
      lost for good. */
  lemma LateEntryIsMissed(log: seq<RevisionChanges>, e: RevisionChanges, current: int)
    requires SortedLog(log)
    ensures e in LowerBound(InsertLog(log, e), current + 1) <==> e.rev > current
  {
    InsertKeepsOrder(log, e);
    LowerBoundKeeps(InsertLog(log, e), current + 1, e);
  }
}
