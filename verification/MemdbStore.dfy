/** The in-memory multi-version store: write attempts, commits, snapshots and the changelog
    (internal/datastore/memdb/memdb.go, readwrite.go, revisions.go). go-memdb is taken as ordered
    tables with immutable roots; a write transaction works on its own copy of the root and
    tx.Changes() is the net difference per touched key. Each goroutine's progress through
    ReadWriteTx is one numbered attempt, and the events below interleave freely. */
module MemdbStore {
  import opened Wrappers
  import opened SqlClauses
  import opened ChangeTracker
  import opened TrackerLaws
  import opened Mutations

  // ---- tx.Changes() and the changelog entry (memdb.go:220-314) ----

  /** One entry of tx.Changes(): the row after the transaction, or the row it removed. */
  datatype TableChange =
    | RelPut(row: Row) | RelGone(row: Row)
    | NamespacePut(def: Definition) | NamespaceGone(name: string)
    | CaveatPut(def: Definition) | CaveatGone(name: string)

  predicate Maps<K, V(==)>(m: map<K, V>, k: K, v: V) {
    k in m && m[k] == v
  }

  /** c is the net change of a touched key: its final value, or its old one if it is gone. */
  predicate IsChange(tx: Txn, c: TableChange) {
    match c
    case RelPut(row) => row.key in tx.keys && Maps(tx.work.rels, row.key, row)
    case RelGone(row) => row.key in tx.keys && row.key !in tx.work.rels && Maps(tx.base.rels, row.key, row)
    case NamespacePut(d) => d.name in tx.names && Maps(tx.work.namespaces, d.name, d)
    case NamespaceGone(n) => n in tx.names && n !in tx.work.namespaces && n in tx.base.namespaces
    case CaveatPut(d) => d.name in tx.caveatNames && Maps(tx.work.caveats, d.name, d)
    case CaveatGone(n) => n in tx.caveatNames && n !in tx.work.caveats && n in tx.base.caveats
  }

  /** The list holds the net change of every touched key and nothing else. */
  ghost predicate NetChanges(tx: Txn, changes: seq<TableChange>) {
    forall c :: c in changes <==> IsChange(tx, c)
  }

  function ToOp(rev: int, c: TableChange): Op {
    match c
    case RelPut(row) => Touch(rev, row)
    case RelGone(row) => Delete(rev, row)
    case NamespacePut(d) => Changed(rev, d)
    case NamespaceGone(n) => DeletedNamespace(rev, n)
    case CaveatPut(d) => Changed(rev, d)
    case CaveatGone(n) => DeletedCaveat(rev, n)
  }

  const TRACK_ALL := Config(true, true, 0)

  function ToOps(rev: int, changes: seq<TableChange>): seq<Op> {
    seq(|changes|, i requires 0 <= i < |changes| => ToOp(rev, changes[i]))
  }

  /** What the tracker reports for the transaction; empty when it changed nothing. */
  function CommitRecord(rev: int, changes: seq<TableChange>): Record {
    RecordAt(Fold(TRACK_ALL, ToOps(rev, changes)), rev)
  }

  /** Insert into the changelog table, whose unique index is the revision. */
  function InsertLog(log: seq<RevisionChanges>, e: RevisionChanges): seq<RevisionChanges> {
    if log == [] || log[|log| - 1].rev < e.rev then log + [e]
    else if log[|log| - 1].rev == e.rev then log[..|log| - 1] + [e]
    else InsertLog(log[..|log| - 1], e) + [log[|log| - 1]]
  }

  function Committed(rev: int, tx: Txn, changes: seq<TableChange>): Db {
    tx.work.(log := InsertLog(tx.work.log, RevisionChanges(rev, CommitRecord(rev, changes))))
  }

  // ---- The store's state and its events ----

  /** The first snapshot holds the live database itself; later ones hold frozen roots. */
  datatype SnapshotContent = LiveDb | Frozen(db: Db)
  datatype Snapshot = Snapshot(rev: int, content: SnapshotContent)

  /** One pass of the ReadWriteTx loop. `seen` is a history variable: the number of snapshots when
      the revision was allocated. Denied means the first txSource call returned an error. */
  datatype Attempt = Allocated(rev: int, seen: nat) | Denied(rev: int) | Open(rev: int, txn: Txn)

  /** `active` is activeWriteTxn. `writer` is the attempt whose transaction holds go-memdb's writer
      lock, which Txn(true) takes and Commit and Abort of a transaction release. `blocked` says that
      a goroutine waits for that lock while it holds the store's own mutex. */
  datatype StoreState = StoreState(
    live: Db, closed: bool, snaps: seq<Snapshot>, active: Option<nat>, writer: Option<nat>, blocked: bool,
    attempts: map<nat, Attempt>)

  function InitialState(clock: int): StoreState {
    StoreState(EMPTY_DB, false, [Snapshot(clock, LiveDb)], None, None, false, map[])
  }

  function Head(s: StoreState): int
    requires s.snaps != []
  {
    s.snaps[|s.snaps| - 1].rev
  }

  /** newRevisionID: only equality with the head revision is avoided. */
  function NewRevision(head: int, clock: int): int {
    if clock == head then clock + 1 else clock
  }

  datatype Event =
    | Allocate(t: nat, clock: int)
    | Source(t: nat)
    | Mutate(t: nat, op: TxOp)
    | Abort(t: nat)
    | Commit(t: nat, changes: seq<TableChange>)
    | FailEntry(t: nat)
    | CloseStore(clock: int)

  /** Every step but a mutation takes the store's mutex. */
  ghost predicate Enabled(s: StoreState, e: Event) {
    s.snaps != [] && (s.blocked ==> e.Mutate?) &&
    match e
    case Allocate(t, _) => t !in s.attempts
    case Source(t) => t in s.attempts && s.attempts[t].Allocated?
    case Mutate(t, _) => t in s.attempts && s.attempts[t].Open?
    case Abort(t) => t in s.attempts
    case Commit(t, changes) => t in s.attempts && (s.attempts[t].Open? ==> NetChanges(s.attempts[t].txn, changes))
    case FailEntry(t) => t in s.attempts && s.attempts[t].Open?
    case CloseStore(_) => true
  }

  /** The first txSource call of an attempt passes its checks. */
  predicate PassesChecks(s: StoreState) {
    s.active.None? && !s.closed
  }

  /** It passes and gets a transaction. */
  predicate Opens(s: StoreState) {
    PassesChecks(s) && s.writer.None?
  }

  /** It passes and waits for the writer lock. */
  predicate Blocks(s: StoreState) {
    PassesChecks(s) && s.writer.Some?
  }

  function Step(s: StoreState, e: Event): StoreState
    requires Enabled(s, e)
  {
    match e
    case Allocate(t, clock) =>
      s.(attempts := s.attempts[t := Allocated(NewRevision(Head(s), clock), |s.snaps|)])
    case Source(t) =>
      var rev := s.attempts[t].rev;
      if Opens(s) then
        s.(active := Some(t), writer := Some(t),
           attempts := s.attempts[t := Open(rev, Txn(s.live, s.live, {}, {}, {}))])
      else if Blocks(s) then s.(blocked := true)
      else s.(attempts := s.attempts[t := Denied(rev)])
    case Mutate(t, op) =>
      var a := s.attempts[t];
      s.(attempts := s.attempts[t := Open(a.rev, ApplyOp(a.txn, op).0)])
    case Abort(t) =>
      var open := s.attempts[t].Open?;
      s.(active := if open then None else s.active, writer := if open then None else s.writer,
         attempts := s.attempts - {t})
    case Commit(t, changes) =>
      var a := s.attempts[t];
      var live := if a.Open? then Committed(a.rev, a.txn, changes) else s.live;
      s.(live := live, active := None, writer := if a.Open? then None else s.writer, attempts := s.attempts - {t},
         snaps := if s.closed then s.snaps else s.snaps + [Snapshot(a.rev, Frozen(live))])
    case FailEntry(t) => s.(attempts := s.attempts - {t})
    case CloseStore(clock) =>
      s.(closed := true, snaps := if s.closed then [] else [Snapshot(clock, LiveDb)])
  }

  // ---- Reading a snapshot (memdb.go:114-150, revisions.go:85-118) ----

  datatype ReadError = StoreClosed | NotReady | RevisionStale | CouldNotDetermineRevision

  /** sort.Search over the snapshots: whatever their order, the index its binary search ends at. */
  function Search(snaps: seq<Snapshot>, rev: int, lo: nat, hi: nat): (i: nat)
    requires lo <= hi <= |snaps|
    ensures lo <= i <= hi
    decreases hi - lo
  {
    if lo == hi then lo
    else
      var mid := (lo + hi) / 2;
      if snaps[mid].rev >= rev then Search(snaps, rev, lo, mid) else Search(snaps, rev, mid + 1, hi)
  }

  /** The snapshot a reader gets: the one the search ends at, or the last one. */
  function PickIndex(snaps: seq<Snapshot>, rev: int): nat
    requires snaps != []
    ensures PickIndex(snaps, rev) < |snaps|
  {
    var i := Search(snaps, rev, 0, |snaps|);
    if i == |snaps| then |snaps| - 1 else i
  }

  function ContentOf(s: StoreState, snapshot: Snapshot): Db {
    match snapshot.content
    case LiveDb => s.live
    case Frozen(db) => db
  }

  function Picked(s: StoreState, rev: int): Db
    requires s.snaps != []
  {
    ContentOf(s, s.snaps[PickIndex(s.snaps, rev)])
  }

  /** The revision is the head, or inside the window and not beyond both the clock and the head. */
  predicate Acceptable(s: StoreState, gcWindow: int, rev: int, now: int)
    requires s.snaps != []
  {
    rev == Head(s) || (now - gcWindow <= rev && (rev <= now || rev <= Head(s)))
  }

  function Read(s: StoreState, gcWindow: int, rev: int, now: int): Result<Db, ReadError> {
    if s.closed then Err(StoreClosed)
    else if s.snaps == [] then Err(NotReady)
    else if Acceptable(s, gcWindow, rev, now) then Ok(Picked(s, rev))
    else if rev < now - gcWindow then Err(RevisionStale)
    else Err(CouldNotDetermineRevision)
  }

  // ---- The store itself ----

  /** What a txSource call returns: a transaction, the serialization or closed error, nil without an
      error, or nothing at all because it waits for the writer lock. */
  datatype SourceResult = GotTransaction | Refused | NilTransaction | NeverReturns

  class MemdbDatastore {
    const gcWindow: int
    var db: Db
    var closed: bool
    var revisions: seq<Snapshot>
    var activeWriteTxn: Option<nat>
    var writer: Option<nat>
    var blocked: bool
    var attempts: map<nat, Attempt>

    function State(): StoreState
      reads this
    {
      StoreState(db, closed, revisions, activeWriteTxn, writer, blocked, attempts)
    }

    constructor (gcWindow: int, clock: int)
      ensures this.gcWindow == gcWindow && State() == InitialState(clock)
    {
      this.gcWindow := gcWindow;
      db := EMPTY_DB;
      closed := false;
      revisions := [Snapshot(clock, LiveDb)];
      activeWriteTxn := None;
      writer := None;
      blocked := false;
      attempts := map[];
    }

    method NewRevisionID(t: nat, clock: int) returns (rev: int)
      requires Enabled(State(), Allocate(t, clock))
      modifies this
      ensures State() == Step(old(State()), Allocate(t, clock))
      ensures t in attempts && rev == attempts[t].rev
      ensures
        var head := revisions[|revisions| - 1].rev;
        rev != head && (rev == clock || (clock == head && rev == clock + 1))
    {
      var existing := revisions[|revisions| - 1].rev;
      rev := clock;
      if rev == existing {
        rev := clock + 1;
      }
      attempts := attempts[t := Allocated(rev, |revisions|)];
    }

    /** A call of txSource. The body behind sync.Once runs in the first one only; a later call
        returns what the first one left, without its error. */
    method TxSource(t: nat) returns (r: SourceResult)
      requires t in attempts && (attempts[t].Allocated? ==> Enabled(State(), Source(t)))
      modifies this
      ensures State() == if old(attempts[t].Allocated?) then Step(old(State()), Source(t)) else old(State())
      ensures match old(attempts[t])
              case Allocated(_, _) =>
                r == if old(Opens(State())) then GotTransaction
                     else if old(Blocks(State())) then NeverReturns else Refused
              case Denied(_) => r == NilTransaction
              case Open(_, _) => r == GotTransaction
    {
      if attempts[t].Open? {
        return GotTransaction;
      }
      if attempts[t].Denied? {
        return NilTransaction;
      }
      var rev := attempts[t].rev;
      if activeWriteTxn.Some? || closed {
        attempts := attempts[t := Denied(rev)];
        return Refused;
      }
      if writer.Some? {
        blocked := true;
        return NeverReturns;
      }
      writer := Some(t);
      attempts := attempts[t := Open(rev, Txn(db, db, {}, {}, {}))];
      activeWriteTxn := Some(t);
      return GotTransaction;
    }

    /** `write`: applies the mutations in order up to the first error. */
    method Write(t: nat, updates: seq<Update>) returns (err: Option<TxError>)
      requires Enabled(State(), Mutate(t, WriteRelationships(updates)))
      modifies this`attempts
      ensures State() == Step(old(State()), Mutate(t, WriteRelationships(updates)))
      ensures t in attempts && attempts[t].Open?
      ensures err == if CreateMeetsRow(old(attempts[t].txn.work.rels), updates) then Some(RelationshipExists) else None
      ensures err.None? ==>
                forall k :: RowDecided(old(attempts[t].txn.work.rels), updates, attempts[t].txn.work.rels, k)
    {
      var rev, tx := attempts[t].rev, attempts[t].txn;
      err := None;
      var i := 0;
      while i < |updates|
        invariant 0 <= i <= |updates| && err.None?
        invariant attempts == old(attempts) && WriteAll(old(attempts[t].txn), updates[..i]) == (tx, None)
      {
        assert updates[..i + 1][..i] == updates[..i];
        var row, rels := updates[i].row, tx.work.rels;
        match updates[i] {
          case CreateRel(_) =>
            if row.key in rels {
              err := Some(RelationshipExists);
            } else {
              tx := InsertRow(tx, row);
            }
          case TouchRel(_) =>
            if !(row.key in rels && SamePrinted(rels[row.key], row)) {
              tx := InsertRow(tx, row);
            }
          case DeleteRel(_) =>
            if row.key in rels {
              tx := tx.(work := tx.work.(rels := rels - {row.key}), keys := tx.keys + {row.key});
            }
        }
        i := i + 1;
        if err.Some? {
          WriteAllStops(old(attempts[t].txn), updates, i);
          break;
        }
      }
      assert updates[..|updates|] == updates;
      WritesExactly(attempts[t].txn, updates);
      attempts := attempts[t := Open(rev, tx)];
    }

    method WriteNamespaces(t: nat, newConfigs: seq<Namespace>)
      requires Enabled(State(), Mutate(t, TxOp.WriteNamespaces(newConfigs)))
      modifies this`attempts
      ensures State() == Step(old(State()), Mutate(t, TxOp.WriteNamespaces(newConfigs)))
      ensures t in attempts && attempts[t].Open?
      ensures forall n :: Lookup(attempts[t].txn.work.namespaces, n) ==
                          if LastOfName(newConfigs, n).Some? then LastOfName(newConfigs, n)
                          else Lookup(old(attempts[t].txn.work.namespaces), n)
    {
      var tx := attempts[t].txn;
      for i := 0 to |newConfigs|
        invariant attempts == old(attempts) && tx == PutNamespaces(old(attempts[t].txn), newConfigs[..i])
      {
        assert newConfigs[..i + 1][..i] == newConfigs[..i];
        var name := newConfigs[i].name;
        var table := tx.work.namespaces[name := newConfigs[i]];
        tx := tx.(work := tx.work.(namespaces := table), names := tx.names + {name});
      }
      assert newConfigs[..|newConfigs|] == newConfigs;
      forall n
        ensures Lookup(tx.work.namespaces, n) ==
                if LastOfName(newConfigs, n).Some? then LastOfName(newConfigs, n)
                else Lookup(attempts[t].txn.work.namespaces, n)
      {
        PutNamespacesExactly(attempts[t].txn, newConfigs, n);
      }
      attempts := attempts[t := Open(attempts[t].rev, tx)];
    }

    /** Succeeds iff every name is present and none is repeated. */
    method DeleteNamespaces(t: nat, nsNames: seq<string>, andRelationships: bool) returns (err: Option<TxError>)
      requires Enabled(State(), Mutate(t, TxOp.DeleteNamespaces(nsNames, andRelationships)))
      modifies this`attempts
      ensures State() == Step(old(State()), Mutate(t, TxOp.DeleteNamespaces(nsNames, andRelationships)))
      ensures err == DropNamespaces(old(attempts[t].txn), nsNames, andRelationships).1
      ensures err.None? <==> Distinct(nsNames) && forall n :: n in nsNames ==> n in old(attempts[t].txn).work.namespaces
      ensures t in attempts && attempts[t].Open?
      ensures err.None? ==>
                forall n :: Lookup(attempts[t].txn.work.namespaces, n) ==
                            if n in nsNames then None else Lookup(old(attempts[t].txn.work.namespaces), n)
      ensures err.None? ==>
                forall k :: Lookup(attempts[t].txn.work.rels, k) ==
                            if andRelationships && k.resourceType in nsNames then None
                            else Lookup(old(attempts[t].txn.work.rels), k)
    {
      ghost var tx0 := attempts[t].txn;
      var tx := attempts[t].txn;
      err := None;
      for i := 0 to |nsNames|
        invariant err.None? && attempts == old(attempts)
        invariant DropNamespaces(tx0, nsNames[..i], andRelationships) == (tx, None)
      {
        assert nsNames[..i + 1] == nsNames[..i] + [nsNames[i]];
        var nsName := nsNames[i];
        DropNamespacesSnoc(tx0, nsNames[..i], nsName, andRelationships);
        if nsName !in tx.work.namespaces {
          err := Some(NotFound);
          DropNamespacesStops(tx0, nsNames, andRelationships, i + 1);
          break;
        }
        tx := tx.(work := tx.work.(namespaces := tx.work.namespaces - {nsName}), names := tx.names + {nsName});
        if andRelationships {
          tx := RemoveOfType(tx, nsName);
        }
      }
      assert nsNames[..|nsNames|] == nsNames;
      DropNamespacesExactly(tx0, nsNames, andRelationships);
      if err.None? {
        forall n
          ensures Lookup(tx.work.namespaces, n) == if n in nsNames then None else Lookup(tx0.work.namespaces, n)
        {
          DropNamespacesMeaning(tx0, nsNames, andRelationships, n, RelationshipKey(n, n, n, n, n, n));
        }
        forall k
          ensures Lookup(tx.work.rels, k) ==
                  if andRelationships && k.resourceType in nsNames then None else Lookup(tx0.work.rels, k)
        {
          DropNamespacesMeaning(tx0, nsNames, andRelationships, "", k);
        }
      }
      attempts := attempts[t := Open(attempts[t].rev, tx)];
    }

    /** Succeeds iff no name is repeated within the call. */
    method WriteCaveats(t: nat, caveats: seq<Caveat>) returns (err: Option<TxError>)
      requires Enabled(State(), Mutate(t, TxOp.WriteCaveats(caveats)))
      modifies this`attempts
      ensures State() == Step(old(State()), Mutate(t, TxOp.WriteCaveats(caveats)))
      ensures err == PutCaveats(old(attempts[t].txn), caveats).1
      ensures err.None? <==> DistinctNames(caveats)
      ensures t in attempts && attempts[t].Open?
      ensures err.None? ==> CaveatsWritten(old(attempts[t].txn.work.caveats), caveats, attempts[t].txn.work.caveats)
    {
      ghost var tx0 := attempts[t].txn;
      var tx := attempts[t].txn;
      var caveatNames: set<string> := {};
      err := None;
      for i := 0 to |caveats|
        invariant err.None? && attempts == old(attempts)
        invariant caveatNames == NamesOf(caveats[..i])
        invariant PutCaveats(tx0, caveats[..i]) == (tx, None)
      {
        assert caveats[..i + 1] == caveats[..i] + [caveats[i]] && caveats[..i + 1][..i] == caveats[..i];
        var name := caveats[i].name;
        if name in caveatNames {
          err := Some(DuplicateCaveat);
          PutCaveatsStops(tx0, caveats, i + 1);
          break;
        }
        NamesSnoc(caveats[..i], caveats[i]);
        caveatNames := caveatNames + {name};
        var table := tx.work.caveats[name := caveats[i]];
        tx := tx.(work := tx.work.(caveats := table), caveatNames := tx.caveatNames + {name});
      }
      assert caveats[..|caveats|] == caveats;
      PutCaveatsExactly(tx0, caveats);
      AllCaveatsWritten(tx0, caveats);
      attempts := attempts[t := Open(attempts[t].rev, tx)];
    }

    /** Succeeds iff every name is present and none is repeated. */
    method DeleteCaveats(t: nat, names: seq<string>) returns (err: Option<TxError>)
      requires Enabled(State(), Mutate(t, TxOp.DeleteCaveats(names)))
      modifies this`attempts
      ensures State() == Step(old(State()), Mutate(t, TxOp.DeleteCaveats(names)))
      ensures err == DropCaveats(old(attempts[t].txn), names).1
      ensures err.None? <==> Distinct(names) && forall n :: n in names ==> n in old(attempts[t].txn).work.caveats
      ensures t in attempts && attempts[t].Open?
      ensures err.None? ==>
                forall n :: Lookup(attempts[t].txn.work.caveats, n) ==
                            if n in names then None else Lookup(old(attempts[t].txn.work.caveats), n)
    {
      ghost var tx0 := attempts[t].txn;
      var tx := attempts[t].txn;
      err := None;
      for i := 0 to |names|
        invariant err.None? && attempts == old(attempts)
        invariant DropCaveats(tx0, names[..i]) == (tx, None)
      {
        assert names[..i + 1][..i] == names[..i];
        var name := names[i];
        if name !in tx.work.caveats {
          err := Some(NotFound);
          DropCaveatsStops(tx0, names, i + 1);
          break;
        }
        tx := tx.(work := tx.work.(caveats := tx.work.caveats - {name}), caveatNames := tx.caveatNames + {name});
      }
      assert names[..|names|] == names;
      DropCaveatsExactly(tx0, names);
      forall n | err.None?
        ensures Lookup(tx.work.caveats, n) == if n in names then None else Lookup(tx0.work.caveats, n)
      {
        DropCaveatsMeaning(tx0, names, n);
      }
      attempts := attempts[t := Open(attempts[t].rev, tx)];
    }

    /** The callback returned an error. */
    method AbortAttempt(t: nat)
      requires Enabled(State(), Abort(t))
      modifies this
      ensures State() == Step(old(State()), Abort(t))
    {
      if attempts[t].Open? {
        writer := None;
        activeWriteTxn := None;
      }
      attempts := attempts - {t};
    }

    /** The callback returned nil: build the changelog entry with a fresh tracker, commit, and
        append a snapshot unless the store was closed meanwhile. */
    method CommitAttempt(t: nat, changes: seq<TableChange>) returns (rev: Result<int, ReadError>)
      requires Enabled(State(), Commit(t, changes))
      modifies this
      ensures State() == Step(old(State()), Commit(t, changes))
      ensures old(attempts[t].Open?) ==>
                && db.rels == old(attempts[t].txn.work.rels) && db.namespaces == old(attempts[t].txn.work.namespaces)
                && db.caveats == old(attempts[t].txn.work.caveats)
      ensures !old(attempts[t].Open?) ==> db == old(db)
      ensures revisions == old(revisions) + if old(closed) then [] else [Snapshot(old(attempts[t].rev), Frozen(db))]
      ensures rev == if old(closed) then Err(StoreClosed) else Ok(old(attempts[t].rev))
    {
      var a := attempts[t];
      if a.Open? {
        var record := TrackChanges(a.rev, changes);
        db := a.txn.work.(log := InsertLog(a.txn.work.log, RevisionChanges(a.rev, record)));
        writer := None;
      }
      activeWriteTxn := None;
      attempts := attempts - {t};
      if closed {
        return Err(StoreClosed);
      }
      revisions := revisions + [Snapshot(a.rev, Frozen(db))];
      return Ok(a.rev);
    }

    /** The changelog entry cannot be built: the early return leaves activeWriteTxn set and the
        writer lock taken. */
    method AbandonEntry(t: nat)
      requires Enabled(State(), FailEntry(t))
      modifies this`attempts
      ensures State() == Step(old(State()), FailEntry(t))
    {
      attempts := attempts - {t};
    }

    method TrackChanges(rev: int, changes: seq<TableChange>) returns (record: Record)
      ensures record == CommitRecord(rev, changes)
    {
      var tracked := new Changes(TRACK_ALL);
      for i := 0 to |changes|
        invariant tracked.State() == Fold(TRACK_ALL, ToOps(rev, changes[..i]))
      {
        FoldSnoc(rev, changes[..i], changes[i]);
        assert changes[..i + 1] == changes[..i] + [changes[i]];
        TrackChange(tracked, rev, changes[i]);
      }
      assert changes[..|changes|] == changes;
      record := if rev in tracked.records then tracked.records[rev] else EMPTY_RECORD;
    }

    /** The switch over the table and over what is before and after. */
    method TrackChange(tracked: Changes, rev: int, change: TableChange)
      requires tracked.cfg == TRACK_ALL
      modifies tracked
      ensures tracked.State() == Apply(TRACK_ALL, old(tracked.State()), ToOp(rev, change)).0
    {
      match change {
        case RelPut(row) => var _ := tracked.AddTouch(rev, row);
        case RelGone(row) => var _ := tracked.AddDelete(rev, row);
        case NamespacePut(d) => var _ := tracked.AddChangedDefinition(rev, d);
        case NamespaceGone(n) => tracked.AddDeletedNamespace(rev, n);
        case CaveatPut(d) => var _ := tracked.AddChangedDefinition(rev, d);
        case CaveatGone(n) => tracked.AddDeletedCaveat(rev, n);
      }
    }

    method Close(clock: int)
      requires Enabled(State(), CloseStore(clock))
      modifies this
      ensures State() == Step(old(State()), CloseStore(clock))
      ensures closed && db == old(db) && attempts == old(attempts)
      ensures revisions == if old(closed) then [] else [Snapshot(clock, LiveDb)]
    {
      revisions := if closed then [] else [Snapshot(clock, LiveDb)];
      closed := true;
    }

    /** sort.Search over the snapshots; on increasing ones it finds the first at or above the revision. */
    method SearchRevisions(rev: int) returns (index: nat)
      ensures index == Search(revisions, rev, 0, |revisions|)
      ensures Sorted(revisions) ==> forall i :: 0 <= i < |revisions| ==> (revisions[i].rev < rev <==> i < index)
    {
      var lo, hi := 0, |revisions|;
      while lo < hi
        invariant 0 <= lo <= hi <= |revisions|
        invariant Search(revisions, rev, 0, |revisions|) == Search(revisions, rev, lo, hi)
      {
        var mid := (lo + hi) / 2;
        if revisions[mid].rev > rev || revisions[mid].rev == rev {
          hi := mid;
        } else {
          lo := mid + 1;
        }
      }
      index := lo;
      if Sorted(revisions) {
        SearchSplits(revisions, rev, 0, |revisions|);
      }
    }

    /** The two checks of a read: only the head may be older than the window, and nothing may be
        ahead of the clock and the head. */
    method CheckRevision(rev: int, now: int) returns (err: Option<ReadError>)
      requires revisions != []
      ensures
        var head := revisions[|revisions| - 1].rev;
        && (err == Some(RevisionStale) <==> rev != head && rev < now - gcWindow)
        && (err == Some(CouldNotDetermineRevision) <==> now - gcWindow <= rev && now < rev && head < rev)
        && (err.None? <==> rev == head || (now - gcWindow <= rev && (rev <= now || rev <= head)))
    {
      var headRevision := revisions[|revisions| - 1].rev;
      if RevisionOutsideGCWindow(headRevision, now, rev) {
        return Some(RevisionStale);
      }
      if rev > now {
        if rev < headRevision || rev == headRevision {
          return None;
        }
        return Some(CouldNotDetermineRevision);
      }
      return None;
    }

    /** The head is never outside the window. */
    predicate RevisionOutsideGCWindow(headRevision: int, now: int, rev: int) {
      rev != headRevision && rev < now - gcWindow
    }

    /** A read fails with the first of these: the store is closed, it has no snapshot, the revision
        is stale, the revision is ahead of clock and head. */
    method SnapshotReader(rev: int, now: int) returns (out: Result<Db, ReadError>)
      ensures out == Read(State(), gcWindow, rev, now)
      ensures out == Err(StoreClosed) <==> closed
      ensures out == Err(NotReady) <==> !closed && revisions == []
      ensures !closed && revisions != [] ==>
                var head := revisions[|revisions| - 1].rev;
                && (out == Err(RevisionStale) <==> rev != head && rev < now - gcWindow)
                && (out.Ok? <==> rev == head || (now - gcWindow <= rev && (rev <= now || rev <= head)))
    {
      if closed {
        return Err(StoreClosed);
      }
      if |revisions| == 0 {
        return Err(NotReady);
      }
      var check := CheckRevision(rev, now);
      if check.Some? {
        return Err(check.value);
      }
      var index := SearchRevisions(rev);
      if index == |revisions| {
        index := |revisions| - 1;
      }
      return Ok(ContentOf(State(), revisions[index]));
    }
  }

  lemma FoldSnoc(rev: int, changes: seq<TableChange>, c: TableChange)
    ensures Fold(TRACK_ALL, ToOps(rev, changes + [c])) ==
            Apply(TRACK_ALL, Fold(TRACK_ALL, ToOps(rev, changes)), ToOp(rev, c)).0
  {
    var ops := ToOps(rev, changes + [c]);
    assert ops[..|ops| - 1] == ToOps(rev, changes) && ops[|ops| - 1] == ToOp(rev, c);
  }

  ghost predicate Sorted(snaps: seq<Snapshot>) {
    forall i, j :: 0 <= i < j < |snaps| ==> snaps[i].rev < snaps[j].rev
  }

  /** On increasing snapshots the search separates those below the revision from the others. */
  lemma {:induction false} SearchSplits(snaps: seq<Snapshot>, rev: int, lo: nat, hi: nat)
    requires Sorted(snaps) && lo <= hi <= |snaps|
    requires forall i :: 0 <= i < lo ==> snaps[i].rev < rev
    requires forall i :: hi <= i < |snaps| ==> snaps[i].rev >= rev
    ensures forall i :: 0 <= i < |snaps| ==> (snaps[i].rev < rev <==> i < Search(snaps, rev, lo, hi))
    decreases hi - lo
  {
    if lo < hi {
      var mid := (lo + hi) / 2;
      if snaps[mid].rev >= rev {
        SearchSplits(snaps, rev, lo, mid);
      } else {
        SearchSplits(snaps, rev, mid + 1, hi);
      }
    }
  }

  lemma PickIndexIs(snaps: seq<Snapshot>, rev: int, index: nat)
    requires Sorted(snaps) && index < |snaps|
    requires forall i :: 0 <= i < index ==> snaps[i].rev < rev
    requires snaps[index].rev >= rev || index == |snaps| - 1
    ensures PickIndex(snaps, rev) == index
  {
    SearchSplits(snaps, rev, 0, |snaps|);
    var i := Search(snaps, rev, 0, |snaps|);
    assert snaps[index].rev < rev <==> index < i;
    assert i < |snaps| ==> snaps[i].rev >= rev;
  }
}
