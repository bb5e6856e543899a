/** Safety over whole runs of the in-memory store: the transaction invariant, replay of the
    changelog, and repeatable snapshot reads (internal/datastore/memdb/memdb.go:114-328,
    internal/datastore/memdb/revisions.go:17-39). */
module StoreRuns {
  import opened Wrappers
  import opened SqlClauses
  import opened ChangeTracker
  import opened TrackerLaws
  import opened MemdbStore
  import opened Mutations

  // ---- One transaction: its changelog entry is its net effect ----

  /** The contents of a database beside its changelog; the definitions as maps that need not be
      finite, so that a record's keys need no inverting. */
  datatype Tables = Tables(
    rels: map<RelationshipKey, Row>, namespaces: imap<string, Definition>, caveats: imap<string, Definition>)

  ghost const NO_TABLES := TablesOf(EMPTY_DB)

  ghost function Total(m: map<string, Definition>): imap<string, Definition> {
    imap n | n in m :: m[n]
  }

  ghost function TablesOf(db: Db): Tables {
    Tables(db.rels, Total(db.namespaces), Total(db.caveats))
  }

  function ReplayRels(rels: map<RelationshipKey, Row>, r: Record): map<RelationshipKey, Row> {
    (rels - r.deletes.Keys) + r.touches
  }

  ghost function ReplayNamespaces(m: imap<string, Definition>, r: Record): imap<string, Definition> {
    imap n: string | NamespaceKey(n) in r.definitions || (n in m && n !in r.namespacesDeleted) ::
      if NamespaceKey(n) in r.definitions then r.definitions[NamespaceKey(n)] else m[n]
  }

  ghost function ReplayCaveats(m: imap<string, Definition>, r: Record): imap<string, Definition> {
    imap n: string | CaveatKey(n) in r.definitions || (n in m && n !in r.caveatsDeleted) ::
      if CaveatKey(n) in r.definitions then r.definitions[CaveatKey(n)] else m[n]
  }

  /** Applying one changelog entry: deletions, then changes. */
  ghost function Replay(t: Tables, r: Record): Tables {
    Tables(ReplayRels(t.rels, r), ReplayNamespaces(t.namespaces, r), ReplayCaveats(t.caveats, r))
  }

  ghost predicate WellKeyed(rels: map<RelationshipKey, Row>) {
    forall k :: k in rels ==> rels[k].key == k
  }

  ghost predicate Namespaces(m: map<string, Definition>) {
    forall n :: n in m ==> m[n].NamespaceDefinition? && m[n].name == n
  }

  ghost predicate Caveats(m: map<string, Definition>) {
    forall n :: n in m ==> m[n].CaveatDefinition? && m[n].name == n
  }

  ghost predicate WellFormed(db: Db) {
    WellKeyed(db.rels) && Namespaces(db.namespaces) && Caveats(db.caveats)
  }

  /** Outside the touched keys two tables agree. */
  ghost predicate AgreeOutside<K(!new), V>(a: map<K, V>, b: map<K, V>, touched: set<K>) {
    forall k :: k !in touched ==> Lookup(a, k) == Lookup(b, k)
  }

  /** Outside the touched keys the working root still agrees with its base. */
  ghost predicate GoodTxn(tx: Txn) {
    && WellFormed(tx.base) && WellFormed(tx.work)
    && tx.work.log == tx.base.log
    && AgreeOutside(tx.work.rels, tx.base.rels, tx.keys)
    && AgreeOutside(tx.work.namespaces, tx.base.namespaces, tx.names)
    && AgreeOutside(tx.work.caveats, tx.base.caveats, tx.caveatNames)
  }

  lemma WriteOneGood(tx: Txn, u: Update)
    requires GoodTxn(tx)
    ensures GoodTxn(WriteOne(tx, u).0) && WriteOne(tx, u).0.base == tx.base
  {
  }

  lemma {:induction false} WriteAllGood(tx: Txn, us: seq<Update>)
    requires GoodTxn(tx)
    ensures GoodTxn(WriteAll(tx, us).0) && WriteAll(tx, us).0.base == tx.base
  {
    if us != [] {
      WriteAllGood(tx, us[..|us| - 1]);
      WriteOneGood(WriteAll(tx, us[..|us| - 1]).0, us[|us| - 1]);
    }
  }

  lemma RemoveOfTypeGood(tx: Txn, resourceType: string)
    requires GoodTxn(tx)
    ensures GoodTxn(RemoveOfType(tx, resourceType)) && RemoveOfType(tx, resourceType).base == tx.base
  {
  }

  lemma {:induction false} PutNamespacesGood(tx: Txn, ds: seq<Namespace>)
    requires GoodTxn(tx)
    ensures GoodTxn(PutNamespaces(tx, ds)) && PutNamespaces(tx, ds).base == tx.base
  {
    if ds != [] {
      PutNamespacesGood(tx, ds[..|ds| - 1]);
    }
  }

  lemma {:induction false} PutCaveatsGood(tx: Txn, ds: seq<Caveat>)
    requires GoodTxn(tx)
    ensures GoodTxn(PutCaveats(tx, ds).0) && PutCaveats(tx, ds).0.base == tx.base
  {
    if ds != [] {
      PutCaveatsGood(tx, ds[..|ds| - 1]);
    }
  }

  lemma {:induction false} DropCaveatsGood(tx: Txn, names: seq<string>)
    requires GoodTxn(tx)
    ensures GoodTxn(DropCaveats(tx, names).0) && DropCaveats(tx, names).0.base == tx.base
  {
    if names != [] {
      DropCaveatsGood(tx, names[..|names| - 1]);
    }
  }

  lemma DropNamespaceGood(tx: Txn, n: string, andRelationships: bool)
    requires GoodTxn(tx)
    ensures
      var tx' := DropNamespace(tx, n, andRelationships).0;
      GoodTxn(tx') && tx'.base == tx.base
  {
    var tx1 := tx.(work := tx.work.(namespaces := tx.work.namespaces - {n}), names := tx.names + {n});
    assert GoodTxn(tx1);
    RemoveOfTypeGood(tx1, n);
  }

  lemma {:induction false} DropNamespacesGood(tx: Txn, names: seq<string>, andRelationships: bool)
    requires GoodTxn(tx)
    ensures
      var tx' := DropNamespaces(tx, names, andRelationships).0;
      GoodTxn(tx') && tx'.base == tx.base
  {
    if names != [] {
      DropNamespacesGood(tx, names[..|names| - 1], andRelationships);
      var tx1 := DropNamespaces(tx, names[..|names| - 1], andRelationships).0;
      DropNamespaceGood(tx1, names[|names| - 1], andRelationships);
    }
  }

  lemma ApplyOpGood(tx: Txn, op: TxOp)
    requires GoodTxn(tx)
    ensures GoodTxn(ApplyOp(tx, op).0) && ApplyOp(tx, op).0.base == tx.base
  {
    match op
    case WriteRelationships(us) => WriteAllGood(tx, us);
    case WriteNamespaces(ds) => PutNamespacesGood(tx, ds);
    case DeleteNamespaces(names, andRelationships) => DropNamespacesGood(tx, names, andRelationships);
    case WriteCaveats(ds) => PutCaveatsGood(tx, ds);
    case DeleteCaveats(names) => DropCaveatsGood(tx, names);
  }

  lemma {:induction false} TrackAllFine(ops: seq<Op>)
    ensures AllFine(TRACK_ALL, ops)
  {
    if ops != [] {
      TrackAllFine(ops[..|ops| - 1]);
    }
  }

  lemma {:induction false} LastTouchIsAdded(cfg: Config, ops: seq<Op>, rev: int, key: RelationshipKey)
    requires LastTouch(cfg, ops, rev, key).Some?
    ensures exists op :: op in ops && TouchOf(cfg, op, rev, key) && op.row == LastTouch(cfg, ops, rev, key).value
  {
    if !TouchOf(cfg, ops[|ops| - 1], rev, key) {
      LastTouchIsAdded(cfg, ops[..|ops| - 1], rev, key);
    }
  }

  lemma TouchesOfKey(tx: Txn, rev: int, changes: seq<TableChange>, key: RelationshipKey)
    requires GoodTxn(tx) && NetChanges(tx, changes)
    ensures HasTouch(TRACK_ALL, ToOps(rev, changes), rev, key) <==> key in tx.keys && key in tx.work.rels
    ensures forall op ::
              op in ToOps(rev, changes) && TouchOf(TRACK_ALL, op, rev, key) ==> Maps(tx.work.rels, key, op.row)
  {
    var ops := ToOps(rev, changes);
    forall op | op in ops && TouchOf(TRACK_ALL, op, rev, key)
      ensures key in tx.keys && Maps(tx.work.rels, key, op.row)
    {
      var i :| 0 <= i < |ops| && ops[i] == op;
      assert changes[i] in changes;
    }
    if key in tx.keys && key in tx.work.rels {
      var c := RelPut(tx.work.rels[key]);
      assert IsChange(tx, c);
      var i :| 0 <= i < |changes| && changes[i] == c;
      assert ops[i] in ops && TouchOf(TRACK_ALL, ops[i], rev, key);
    }
  }

  lemma DeletesOfKey(tx: Txn, rev: int, changes: seq<TableChange>, key: RelationshipKey)
    requires GoodTxn(tx) && NetChanges(tx, changes)
    ensures HasDelete(TRACK_ALL, ToOps(rev, changes), rev, key) <==>
            key in tx.keys && key in tx.base.rels && key !in tx.work.rels
  {
    var ops := ToOps(rev, changes);
    forall op | op in ops && DeleteOf(TRACK_ALL, op, rev, key)
      ensures key in tx.keys && key in tx.base.rels && key !in tx.work.rels
    {
      var i :| 0 <= i < |ops| && ops[i] == op;
      assert changes[i] in changes;
    }
    if key in tx.keys && key in tx.base.rels && key !in tx.work.rels {
      var c := RelGone(tx.base.rels[key]);
      assert IsChange(tx, c);
      var i :| 0 <= i < |changes| && changes[i] == c;
      assert ops[i] in ops && DeleteOf(TRACK_ALL, ops[i], rev, key);
    }
  }

  /** The entry touches a key iff the transaction left it present, and deletes it iff the
      transaction removed it. */
  lemma EntryOfKey(tx: Txn, rev: int, changes: seq<TableChange>, key: RelationshipKey)
    requires GoodTxn(tx) && NetChanges(tx, changes)
    ensures
      var r := CommitRecord(rev, changes);
      && (key in r.touches <==> key in tx.keys && key in tx.work.rels)
      && (key in r.touches ==> r.touches[key] == tx.work.rels[key])
      && (key in r.deletes <==> key in tx.keys && key in tx.base.rels && key !in tx.work.rels)
  {
    var ops := ToOps(rev, changes);
    TrackAllFine(ops);
    RelationshipNormalForm(TRACK_ALL, ops, rev, key);
    TouchesOfKey(tx, rev, changes, key);
    DeletesOfKey(tx, rev, changes, key);
    if key in CommitRecord(rev, changes).touches {
      LastTouchIsAdded(TRACK_ALL, ops, rev, key);
    }
  }

  lemma {:induction false} LastChangeIsAdded(cfg: Config, ops: seq<Op>, rev: int, key: DefinitionKey)
    requires LastChange(cfg, ops, rev, key).Some?
    ensures exists op :: op in ops && ChangeOf(cfg, op, rev, key) && op.def == LastChange(cfg, ops, rev, key).value
  {
    if !ChangeOf(cfg, ops[|ops| - 1], rev, key) {
      LastChangeIsAdded(cfg, ops[..|ops| - 1], rev, key);
    }
  }

  lemma NamespaceChanges(tx: Txn, rev: int, changes: seq<TableChange>, n: string)
    requires GoodTxn(tx) && NetChanges(tx, changes)
    ensures HasChange(TRACK_ALL, ToOps(rev, changes), rev, NamespaceKey(n)) <==>
            n in tx.names && n in tx.work.namespaces
    ensures forall op :: op in ToOps(rev, changes) && ChangeOf(TRACK_ALL, op, rev, NamespaceKey(n)) ==>
              Maps(tx.work.namespaces, n, op.def)
  {
    var ops := ToOps(rev, changes);
    forall op | op in ops && ChangeOf(TRACK_ALL, op, rev, NamespaceKey(n))
      ensures n in tx.names && Maps(tx.work.namespaces, n, op.def)
    {
      var i :| 0 <= i < |ops| && ops[i] == op;
      assert changes[i] in changes;
    }
    if n in tx.names && n in tx.work.namespaces {
      var c := NamespacePut(tx.work.namespaces[n]);
      assert IsChange(tx, c);
      var i :| 0 <= i < |changes| && changes[i] == c;
      assert ops[i] in ops && ChangeOf(TRACK_ALL, ops[i], rev, NamespaceKey(n));
    }
  }

  lemma NamespaceDeletions(tx: Txn, rev: int, changes: seq<TableChange>, n: string)
    requires GoodTxn(tx) && NetChanges(tx, changes)
    ensures HasNamespaceDeletion(TRACK_ALL, ToOps(rev, changes), rev, n) <==>
            n in tx.names && n in tx.base.namespaces && n !in tx.work.namespaces
  {
    var ops := ToOps(rev, changes);
    forall op | op in ops && NamespaceDeletion(TRACK_ALL, op, rev, n)
      ensures n in tx.names && n in tx.base.namespaces && n !in tx.work.namespaces
    {
      var i :| 0 <= i < |ops| && ops[i] == op;
      assert changes[i] in changes;
    }
    if n in tx.names && n in tx.base.namespaces && n !in tx.work.namespaces {
      var c := NamespaceGone(n);
      assert IsChange(tx, c);
      var i :| 0 <= i < |changes| && changes[i] == c;
      assert ops[i] in ops && NamespaceDeletion(TRACK_ALL, ops[i], rev, n);
    }
  }

  /** The entry holds the definition of every written namespace that is still there, and names as
      deleted those the transaction removed. */
  lemma EntryOfNamespace(tx: Txn, rev: int, changes: seq<TableChange>, n: string)
    requires GoodTxn(tx) && NetChanges(tx, changes)
    ensures
      var r := CommitRecord(rev, changes);
      && (NamespaceKey(n) in r.definitions <==> n in tx.names && n in tx.work.namespaces)
      && (NamespaceKey(n) in r.definitions ==> r.definitions[NamespaceKey(n)] == tx.work.namespaces[n])
      && (n in r.namespacesDeleted <==> n in tx.names && n in tx.base.namespaces && n !in tx.work.namespaces)
  {
    var ops := ToOps(rev, changes);
    TrackAllFine(ops);
    NamespaceNormalForm(TRACK_ALL, ops, rev, n);
    NamespaceChanges(tx, rev, changes, n);
    NamespaceDeletions(tx, rev, changes, n);
    if NamespaceKey(n) in CommitRecord(rev, changes).definitions {
      LastChangeIsAdded(TRACK_ALL, ops, rev, NamespaceKey(n));
    }
  }

  lemma CaveatChanges(tx: Txn, rev: int, changes: seq<TableChange>, n: string)
    requires GoodTxn(tx) && NetChanges(tx, changes)
    ensures HasChange(TRACK_ALL, ToOps(rev, changes), rev, CaveatKey(n)) <==>
            n in tx.caveatNames && n in tx.work.caveats
    ensures forall op :: op in ToOps(rev, changes) && ChangeOf(TRACK_ALL, op, rev, CaveatKey(n)) ==>
              Maps(tx.work.caveats, n, op.def)
  {
    var ops := ToOps(rev, changes);
    forall op | op in ops && ChangeOf(TRACK_ALL, op, rev, CaveatKey(n))
      ensures n in tx.caveatNames && Maps(tx.work.caveats, n, op.def)
    {
      var i :| 0 <= i < |ops| && ops[i] == op;
      assert changes[i] in changes;
    }
    if n in tx.caveatNames && n in tx.work.caveats {
      var c := CaveatPut(tx.work.caveats[n]);
      assert IsChange(tx, c);
      var i :| 0 <= i < |changes| && changes[i] == c;
      assert ops[i] in ops && ChangeOf(TRACK_ALL, ops[i], rev, CaveatKey(n));
    }
  }

  lemma CaveatDeletions(tx: Txn, rev: int, changes: seq<TableChange>, n: string)
    requires GoodTxn(tx) && NetChanges(tx, changes)
    ensures HasCaveatDeletion(TRACK_ALL, ToOps(rev, changes), rev, n) <==>
            n in tx.caveatNames && n in tx.base.caveats && n !in tx.work.caveats
  {
    var ops := ToOps(rev, changes);
    forall op | op in ops && CaveatDeletion(TRACK_ALL, op, rev, n)
      ensures n in tx.caveatNames && n in tx.base.caveats && n !in tx.work.caveats
    {
      var i :| 0 <= i < |ops| && ops[i] == op;
      assert changes[i] in changes;
    }
    if n in tx.caveatNames && n in tx.base.caveats && n !in tx.work.caveats {
      var c := CaveatGone(n);
      assert IsChange(tx, c);
      var i :| 0 <= i < |changes| && changes[i] == c;
      assert ops[i] in ops && CaveatDeletion(TRACK_ALL, ops[i], rev, n);
    }
  }

  lemma EntryOfCaveat(tx: Txn, rev: int, changes: seq<TableChange>, n: string)
    requires GoodTxn(tx) && NetChanges(tx, changes)
    ensures
      var r := CommitRecord(rev, changes);
      && (CaveatKey(n) in r.definitions <==> n in tx.caveatNames && n in tx.work.caveats)
      && (CaveatKey(n) in r.definitions ==> r.definitions[CaveatKey(n)] == tx.work.caveats[n])
      && (n in r.caveatsDeleted <==> n in tx.caveatNames && n in tx.base.caveats && n !in tx.work.caveats)
  {
    var ops := ToOps(rev, changes);
    TrackAllFine(ops);
    CaveatNormalForm(TRACK_ALL, ops, rev, n);
    CaveatChanges(tx, rev, changes, n);
    CaveatDeletions(tx, rev, changes, n);
    if CaveatKey(n) in CommitRecord(rev, changes).definitions {
      LastChangeIsAdded(TRACK_ALL, ops, rev, CaveatKey(n));
    }
  }

  lemma RelationshipsReplayed(tx: Txn, rev: int, changes: seq<TableChange>)
    requires GoodTxn(tx) && NetChanges(tx, changes)
    ensures ReplayRels(tx.base.rels, CommitRecord(rev, changes)) == tx.work.rels
  {
    var replayed := ReplayRels(tx.base.rels, CommitRecord(rev, changes));
    forall k
      ensures Lookup(replayed, k) == Lookup(tx.work.rels, k)
    {
      EntryOfKey(tx, rev, changes, k);
    }
    SameLookups(replayed, tx.work.rels);
  }

  lemma NamespacesReplayed(tx: Txn, rev: int, changes: seq<TableChange>)
    requires GoodTxn(tx) && NetChanges(tx, changes)
    ensures ReplayNamespaces(Total(tx.base.namespaces), CommitRecord(rev, changes)) == Total(tx.work.namespaces)
  {
    var replayed := ReplayNamespaces(Total(tx.base.namespaces), CommitRecord(rev, changes));
    forall n: string
      ensures n in replayed <==> n in tx.work.namespaces
      ensures n in replayed ==> replayed[n] == tx.work.namespaces[n]
    {
      EntryOfNamespace(tx, rev, changes, n);
      assert n !in tx.names ==> Lookup(tx.work.namespaces, n) == Lookup(tx.base.namespaces, n);
    }
  }

  lemma CaveatsReplayed(tx: Txn, rev: int, changes: seq<TableChange>)
    requires GoodTxn(tx) && NetChanges(tx, changes)
    ensures ReplayCaveats(Total(tx.base.caveats), CommitRecord(rev, changes)) == Total(tx.work.caveats)
  {
    var replayed := ReplayCaveats(Total(tx.base.caveats), CommitRecord(rev, changes));
    forall n: string
      ensures n in replayed <==> n in tx.work.caveats
      ensures n in replayed ==> replayed[n] == tx.work.caveats[n]
    {
      EntryOfCaveat(tx, rev, changes, n);
      assert n !in tx.caveatNames ==> Lookup(tx.work.caveats, n) == Lookup(tx.base.caveats, n);
    }
  }

  /** Applying the entry to the database the transaction started from gives the relationships,
      namespaces and caveats it committed. */
  lemma EntryReplays(tx: Txn, rev: int, changes: seq<TableChange>)
    requires GoodTxn(tx) && NetChanges(tx, changes)
    ensures Replay(TablesOf(tx.base), CommitRecord(rev, changes)) == TablesOf(tx.work)
  {
    RelationshipsReplayed(tx, rev, changes);
    NamespacesReplayed(tx, rev, changes);
    CaveatsReplayed(tx, rev, changes);
  }

  lemma SameLookups<K, V>(a: map<K, V>, b: map<K, V>)
    requires forall k :: Lookup(a, k) == Lookup(b, k)
    ensures a == b
  {
    forall k
      ensures k in a <==> k in b
      ensures k in a ==> a[k] == b[k]
    {
      assert Lookup(a, k) == Lookup(b, k);
    }
  }

  // ---- Runs ----

  /** Every event of the list can happen when its turn comes. Nothing is asked of the clocks, of the
      order of the goroutines, or of what the callbacks do. */
  ghost predicate IsRun(s: StoreState, es: seq<Event>)
    decreases |es|
  {
    es == [] || (Enabled(s, es[0]) && IsRun(Step(s, es[0]), es[1..]))
  }

  ghost function Run(s: StoreState, es: seq<Event>): StoreState
    requires IsRun(s, es)
    decreases |es|
  {
    if es == [] then s else Run(Step(s, es[0]), es[1..])
  }

  // ---- One transaction at a time ----

  /** Every open transaction holds the writer lock and started from the live database. */
  ghost predicate GoodOpen(s: StoreState) {
    && WellFormed(s.live)
    && (forall t :: t in s.attempts && s.attempts[t].Open? ==>
          s.writer == Some(t) && s.attempts[t].txn.base == s.live && GoodTxn(s.attempts[t].txn))
  }

  lemma GoodOpenStep(s: StoreState, e: Event)
    requires GoodOpen(s) && Enabled(s, e)
    ensures GoodOpen(Step(s, e))
  {
    if e.Mutate? {
      ApplyOpGood(s.attempts[e.t].txn, e.op);
    }
  }

  lemma {:induction false} GoodOpenRun(s: StoreState, es: seq<Event>)
    requires GoodOpen(s) && IsRun(s, es)
    ensures GoodOpen(Run(s, es))
    decreases |es|
  {
    if es != [] {
      GoodOpenStep(s, es[0]);
      GoodOpenRun(Step(s, es[0]), es[1..]);
    }
  }

  /** No update is lost, in any run whatsoever: at most one transaction is open, and it started from
      the database that its commit replaces. */
  lemma OneTransaction(clock: int, es: seq<Event>)
    requires IsRun(InitialState(clock), es)
    ensures
      var s := Run(InitialState(clock), es);
      && (forall t, u :: t in s.attempts && u in s.attempts && s.attempts[t].Open? && s.attempts[u].Open? ==> t == u)
      && (forall t :: t in s.attempts && s.attempts[t].Open? ==> s.attempts[t].txn.base == s.live)
  {
    GoodOpenRun(InitialState(clock), es);
  }

  // ---- activeWriteTxn ----

  /** activeWriteTxn names the attempt that holds a transaction, if there is one, and only it. */
  ghost predicate Mutex(s: StoreState) {
    && (forall t :: t in s.attempts && s.attempts[t].Open? ==> s.active == Some(t))
    && (s.active.Some? ==> s.active.value in s.attempts && s.attempts[s.active.value].Open?)
  }

  /** The two steps after which activeWriteTxn no longer tells which transaction is open: a
      callback succeeds without having opened one while another attempt's is open, and an early
      return because the changelog entry cannot be built. */
  predicate LosesTrack(s: StoreState, e: Event) {
    match e
    case Commit(t, _) => s.active.Some? && t in s.attempts && !s.attempts[t].Open?
    case FailEntry(_) => true
    case _ => false
  }

  lemma MutexStep(s: StoreState, e: Event)
    requires Mutex(s) && Enabled(s, e)
    ensures Mutex(Step(s, e)) <==> !LosesTrack(s, e)
  {
    var s' := Step(s, e);
    if LosesTrack(s, e) {
      assert !Mutex(s') by {
        if e.Commit? {
          assert s.active.value in s'.attempts && s'.attempts[s.active.value].Open?;
        } else {
          assert s'.active == Some(e.t) && e.t !in s'.attempts;
        }
      }
    } else {
      forall t | t in s'.attempts && s'.attempts[t].Open?
        ensures s'.active == Some(t)
      {
      }
    }
  }

  ghost predicate MutexThroughout(s: StoreState, es: seq<Event>)
    requires IsRun(s, es)
    decreases |es|
  {
    Mutex(s) && (es == [] || MutexThroughout(Step(s, es[0]), es[1..]))
  }

  ghost predicate KeepsTrack(s: StoreState, es: seq<Event>)
    requires IsRun(s, es)
    decreases |es|
  {
    es == [] || (!LosesTrack(s, es[0]) && KeepsTrack(Step(s, es[0]), es[1..]))
  }

  /** For any clocks and any interleaving, including Close: activeWriteTxn names the open transaction
      throughout a run if and only if no step of the run loses track. */
  lemma {:induction false} ActiveNamesOpenExactly(s: StoreState, es: seq<Event>)
    requires Mutex(s) && IsRun(s, es)
    ensures MutexThroughout(s, es) <==> KeepsTrack(s, es)
    decreases |es|
  {
    if es != [] {
      MutexStep(s, es[0]);
      if Mutex(Step(s, es[0])) {
        ActiveNamesOpenExactly(Step(s, es[0]), es[1..]);
      } else {
        NotThroughout(Step(s, es[0]), es[1..]);
      }
    }
  }

  lemma NotThroughout(s: StoreState, es: seq<Event>)
    requires !Mutex(s) && IsRun(s, es)
    ensures !MutexThroughout(s, es)
  {
  }

  /** A run that keeps track never waits for the writer lock: txSource refuses the second attempt
      before it gets there. */
  lemma {:induction false} NeverBlocks(s: StoreState, es: seq<Event>)
    requires Mutex(s) && s.writer == s.active && !s.blocked
    requires IsRun(s, es) && KeepsTrack(s, es)
    ensures !Run(s, es).blocked && Run(s, es).writer == Run(s, es).active
    decreases |es|
  {
    if es != [] {
      MutexStep(s, es[0]);
      NeverBlocks(Step(s, es[0]), es[1..]);
    }
  }

  /** Once a goroutine waits for the writer lock with the mutex in hand nothing moves any more: the
      database, the snapshots and activeWriteTxn stay as they are in every continuation. */
  lemma {:induction false} BlockedForever(s: StoreState, es: seq<Event>)
    requires s.blocked && IsRun(s, es)
    ensures
      var s' := Run(s, es);
      s'.blocked && s'.live == s.live && s'.snaps == s.snaps && s'.active == s.active && s'.closed == s.closed
    ensures forall i :: 0 <= i < |es| ==> es[i].Mutate?
    decreases |es|
  {
    if es != [] {
      BlockedForever(Step(s, es[0]), es[1..]);
      assert forall i :: 0 < i < |es| ==> es[i] == es[1..][i - 1];
    }
  }

  // ---- Increasing revisions ----

  /** Any step but Close. */
  ghost predicate StaysOpen(s: StoreState, e: Event) {
    Enabled(s, e) && !e.CloseStore?
  }

  ghost predicate OpenRun(s: StoreState, es: seq<Event>)
    decreases |es|
  {
    es == [] || (StaysOpen(s, es[0]) && OpenRun(Step(s, es[0]), es[1..]))
  }

  /** A step that keeps the revisions increasing: a commit lies above the head. */
  ghost predicate Rises(s: StoreState, e: Event) {
    StaysOpen(s, e) && (e.Commit? ==> s.attempts[e.t].rev > Head(s))
  }

  ghost predicate RisingRun(s: StoreState, es: seq<Event>)
    decreases |es|
  {
    es == [] || (Rises(s, es[0]) && RisingRun(Step(s, es[0]), es[1..]))
  }

  lemma {:induction false} OpenIsRun(s: StoreState, es: seq<Event>)
    requires OpenRun(s, es)
    ensures IsRun(s, es)
    decreases |es|
  {
    if es != [] {
      OpenIsRun(Step(s, es[0]), es[1..]);
    }
  }

  lemma {:induction false} RisingIsOpen(s: StoreState, es: seq<Event>)
    requires RisingRun(s, es)
    ensures OpenRun(s, es) && IsRun(s, es)
    decreases |es|
  {
    if es != [] {
      RisingIsOpen(Step(s, es[0]), es[1..]);
    }
  }

  lemma AppendSorted(snaps: seq<Snapshot>, x: Snapshot)
    requires snaps != []
    ensures Sorted(snaps + [x]) <==> Sorted(snaps) && x.rev > snaps[|snaps| - 1].rev
  {
    var all, n := snaps + [x], |snaps|;
    assert all[n] == x && all[n - 1] == snaps[n - 1];
    assert forall i :: 0 <= i < n ==> all[i] == snaps[i];
  }

  /** An open store's snapshots only ever grow at the end. */
  lemma OpenSnaps(s: StoreState, e: Event)
    requires s.snaps != [] && !s.closed && StaysOpen(s, e)
    ensures
      var s' := Step(s, e);
      && s'.snaps != [] && !s'.closed && s.snaps <= s'.snaps
      && (Sorted(s'.snaps) <==> Sorted(s.snaps) && (e.Commit? ==> s.attempts[e.t].rev > Head(s)))
  {
    if e.Commit? {
      AppendSorted(s.snaps, Step(s, e).snaps[|s.snaps|]);
    }
  }

  lemma {:induction false} OpenRunSnaps(s: StoreState, es: seq<Event>)
    requires s.snaps != [] && !s.closed && OpenRun(s, es)
    ensures IsRun(s, es) && s.snaps <= Run(s, es).snaps && !Run(s, es).closed
    ensures Sorted(Run(s, es).snaps) <==> Sorted(s.snaps) && RisingRun(s, es)
    decreases |es|
  {
    if es != [] {
      OpenSnaps(s, es[0]);
      OpenRunSnaps(Step(s, es[0]), es[1..]);
    }
  }

  /** The attempt's next end in the run is a commit. */
  predicate GoesOnToCommit(t: nat, es: seq<Event>)
    decreases |es|
  {
    es != [] &&
    match es[0]
    case Commit(u, _) => u == t || GoesOnToCommit(t, es[1..])
    case Abort(u) => u != t && GoesOnToCommit(t, es[1..])
    case FailEntry(u) => u != t && GoesOnToCommit(t, es[1..])
    case _ => GoesOnToCommit(t, es[1..])
  }

  /** Every open transaction that goes on to commit lies above the revision. */
  ghost predicate OpenAbove(s: StoreState, rev: int, es: seq<Event>) {
    forall t :: t in s.attempts && s.attempts[t].Open? && GoesOnToCommit(t, es) ==> s.attempts[t].rev > rev
  }

  /** Where an attempt opens: if it goes on to commit, it was allocated above the head it opens on.
      Where a callback succeeds without a transaction: its revision is above the head and below that
      of an open transaction that goes on to commit. */
  ghost predicate Ordered(s: StoreState, e: Event, rest: seq<Event>)
    requires Enabled(s, e)
  {
    match e
    case Source(t) => Opens(s) && GoesOnToCommit(t, rest) ==> s.attempts[t].rev > Head(s)
    case Commit(t, _) =>
      !s.attempts[t].Open? ==> s.attempts[t].rev > Head(s) && OpenAbove(s, s.attempts[t].rev, rest)
    case _ => true
  }

  ghost predicate AllOrdered(s: StoreState, es: seq<Event>)
    requires IsRun(s, es)
    decreases |es|
  {
    es == [] || (Ordered(s, es[0], es[1..]) && AllOrdered(Step(s, es[0]), es[1..]))
  }

  lemma OrderedStep(s: StoreState, e: Event, rest: seq<Event>)
    requires GoodOpen(s) && s.snaps != [] && !s.closed && StaysOpen(s, e)
    ensures Step(s, e).snaps != []
    ensures Rises(s, e) && OpenAbove(Step(s, e), Head(Step(s, e)), rest) <==>
            OpenAbove(s, Head(s), [e] + rest) && Ordered(s, e, rest)
  {
    var s', es := Step(s, e), [e] + rest;
    assert es[0] == e && es[1..] == rest;
    if Rises(s, e) && OpenAbove(s', Head(s'), rest) {
      forall t | t in s.attempts && s.attempts[t].Open? && GoesOnToCommit(t, es)
        ensures s.attempts[t].rev > Head(s)
      {
        assert t in s'.attempts ==> s'.attempts[t].Open? && s'.attempts[t].rev == s.attempts[t].rev;
      }
      assert Ordered(s, e, rest) by {
        if e.Source? && Opens(s) {
          assert s'.attempts[e.t].Open?;
        } else if e.Commit? && !s.attempts[e.t].Open? {
          forall t | t in s.attempts && s.attempts[t].Open? && GoesOnToCommit(t, rest)
            ensures s.attempts[t].rev > s.attempts[e.t].rev
          {
            assert s'.attempts[t].Open?;
          }
        }
      }
    }
    if OpenAbove(s, Head(s), es) && Ordered(s, e, rest) {
      forall t | t in s'.attempts && s'.attempts[t].Open? && GoesOnToCommit(t, rest)
        ensures s'.attempts[t].rev > Head(s')
      {
        if t in s.attempts && s.attempts[t].Open? {
          assert GoesOnToCommit(t, es);
        }
      }
    }
  }

  lemma {:induction false} RisingExactly(s: StoreState, es: seq<Event>)
    requires GoodOpen(s) && s.snaps != [] && !s.closed && OpenRun(s, es)
    ensures IsRun(s, es)
    ensures RisingRun(s, es) <==> OpenAbove(s, Head(s), es) && AllOrdered(s, es)
    decreases |es|
  {
    OpenIsRun(s, es);
    if es != [] {
      OpenSnaps(s, es[0]);
      GoodOpenStep(s, es[0]);
      OrderedStep(s, es[0], es[1..]);
      assert [es[0]] + es[1..] == es;
      RisingExactly(Step(s, es[0]), es[1..]);
    }
  }

  /** In every run of an open store the revisions stay strictly increasing if and only if every
      attempt that opens and goes on to commit was allocated above the head it opened on, and every
      callback that succeeds without a transaction has a revision above the head and below that of an
      open transaction that goes on to commit. */
  lemma RevisionsIncreaseExactly(clock: int, es: seq<Event>)
    requires OpenRun(InitialState(clock), es)
    ensures IsRun(InitialState(clock), es)
    ensures Sorted(Run(InitialState(clock), es).snaps) <==> AllOrdered(InitialState(clock), es)
  {
    OpenRunSnaps(InitialState(clock), es);
    RisingExactly(InitialState(clock), es);
  }

  // ---- What every run with increasing revisions keeps ----

  ghost predicate SortedLog(log: seq<RevisionChanges>) {
    forall i, j :: 0 <= i < j < |log| ==> log[i].rev < log[j].rev
  }

  /** The changelog entries with revisions in (from, to]. */
  function Between(log: seq<RevisionChanges>, from: int, to: int): seq<RevisionChanges> {
    if log == [] then []
    else
      var e := log[|log| - 1];
      Between(log[..|log| - 1], from, to) + (if from < e.rev <= to then [e] else [])
  }

  /** Applying a stretch of the changelog in order. */
  ghost function ReplayAll(t: Tables, log: seq<RevisionChanges>): Tables {
    if log == [] then t else Replay(ReplayAll(t, log[..|log| - 1]), log[|log| - 1].record)
  }

  /** The database at snapshot i; before the first commit it is empty. */
  function DbAt(s: StoreState, i: nat): Db
    requires i < |s.snaps|
  {
    if i > 0 && s.snaps[i].content.Frozen? then s.snaps[i].content.db else EMPTY_DB
  }

  ghost predicate LogInRange(s: StoreState)
    requires s.snaps != []
  {
    forall i :: 0 <= i < |s.live.log| ==> s.snaps[0].rev < s.live.log[i].rev <= Head(s)
  }

  /** The changelog leads from snapshot i to snapshot i + 1. */
  ghost predicate Link(s: StoreState, i: nat)
    requires i + 1 < |s.snaps|
  {
    TablesOf(DbAt(s, i + 1)) ==
    ReplayAll(TablesOf(DbAt(s, i)), Between(s.live.log, s.snaps[i].rev, s.snaps[i + 1].rev))
  }

  ghost predicate Links(s: StoreState) {
    forall i: nat :: i + 1 < |s.snaps| ==> Link(s, i)
  }

  /** Every snapshot but the first is frozen, the live database is the last one, and the changelog
      chains them together. */
  ghost predicate Chain(s: StoreState) {
    && s.snaps != []
    && s.snaps[0].content == LiveDb
    && (forall i :: 0 < i < |s.snaps| ==> s.snaps[i].content.Frozen?)
    && s.live == DbAt(s, |s.snaps| - 1)
    && SortedLog(s.live.log) && LogInRange(s)
    && Links(s)
  }

  ghost predicate Inv(s: StoreState) {
    s.snaps != [] && !s.closed && Sorted(s.snaps) && GoodOpen(s) && Chain(s)
  }

  /** Allocation lies above the head exactly when the clock is not behind it. */
  lemma NewRevisionExact(head: int, clock: int)
    ensures NewRevision(head, clock) > head <==> clock >= head
  {
  }

  lemma AppendLog(log: seq<RevisionChanges>, e: RevisionChanges)
    requires log == [] || log[|log| - 1].rev < e.rev
    ensures InsertLog(log, e) == log + [e]
  {
  }

  lemma {:induction false} NothingBetween(log: seq<RevisionChanges>, from: int, to: int)
    requires forall i :: 0 <= i < |log| ==> !(from < log[i].rev <= to)
    ensures Between(log, from, to) == []
  {
    if log != [] {
      NothingBetween(log[..|log| - 1], from, to);
    }
  }

  lemma {:induction false} BetweenJoins(log: seq<RevisionChanges>, a: int, b: int, c: int)
    requires SortedLog(log) && a <= b <= c
    ensures Between(log, a, c) == Between(log, a, b) + Between(log, b, c)
  {
    if log != [] {
      var n := |log| - 1;
      BetweenJoins(log[..n], a, b, c);
      if log[n].rev <= b {
        NothingBetween(log[..n], b, c);
      }
    }
  }

  lemma {:induction false} BetweenMembers(log: seq<RevisionChanges>, from: int, to: int, e: RevisionChanges)
    ensures e in Between(log, from, to) <==> e in log && from < e.rev <= to
  {
    if log != [] {
      var front, last := log[..|log| - 1], log[|log| - 1];
      BetweenMembers(front, from, to, e);
      assert log == front + [last];
    }
  }

  /** The stretch has exactly the entries of the log with revisions in (from, to], in log order. */
  lemma {:induction false} BetweenMeaning(log: seq<RevisionChanges>, from: int, to: int)
    requires SortedLog(log)
    ensures forall e :: e in Between(log, from, to) <==> e in log && from < e.rev <= to
    ensures SortedLog(Between(log, from, to))
  {
    forall e
      ensures e in Between(log, from, to) <==> e in log && from < e.rev <= to
    {
      BetweenMembers(log, from, to, e);
    }
    if log != [] {
      var front, last := log[..|log| - 1], log[|log| - 1];
      BetweenMeaning(front, from, to);
      assert forall i :: 0 <= i < |Between(front, from, to)| ==> Between(front, from, to)[i] in front;
    }
  }

  lemma BetweenSnoc(log: seq<RevisionChanges>, e: RevisionChanges, from: int, to: int)
    ensures Between(log + [e], from, to) == Between(log, from, to) + (if from < e.rev <= to then [e] else [])
  {
    assert (log + [e])[..|log|] == log;
  }

  lemma ReplaySnoc(t: Tables, log: seq<RevisionChanges>, e: RevisionChanges)
    ensures ReplayAll(t, log + [e]) == Replay(ReplayAll(t, log), e.record)
  {
    assert (log + [e])[..|log|] == log;
  }

  lemma SameSnoc(t: Tables, a: seq<RevisionChanges>, u: Tables, b: seq<RevisionChanges>, e: RevisionChanges)
    requires ReplayAll(t, a) == ReplayAll(u, b)
    ensures ReplayAll(t, a + [e]) == ReplayAll(u, b + [e])
  {
    ReplaySnoc(t, a, e);
    ReplaySnoc(u, b, e);
  }

  lemma LastJoins<T>(a: seq<T>, b: seq<T>)
    requires b != []
    ensures a + b == (a + b[..|b| - 1]) + [b[|b| - 1]] && b == b[..|b| - 1] + [b[|b| - 1]]
  {
  }

  lemma {:induction false} ReplayJoins(t: Tables, a: seq<RevisionChanges>, b: seq<RevisionChanges>)
    ensures ReplayAll(t, a + b) == ReplayAll(ReplayAll(t, a), b)
    decreases |b|
  {
    if b == [] {
      assert a + b == a;
    } else {
      var front := b[..|b| - 1];
      ReplayJoins(t, a, front);
      LastJoins(a, b);
      SameSnoc(t, a + front, ReplayAll(t, a), front, b[|b| - 1]);
    }
  }

  /** A snapshot is appended at a revision above the head, and possibly the entry that leads to it. */
  ghost predicate Appends(s: StoreState, s': StoreState, rev: int, added: seq<RevisionChanges>) {
    && s.snaps != [] && rev > Head(s)
    && s'.snaps == s.snaps + [Snapshot(rev, Frozen(s'.live))]
    && s'.live.log == s.live.log + added
    && (added == [] || (|added| == 1 && added[0].rev == rev))
  }

  lemma BetweenAppended(log: seq<RevisionChanges>, added: seq<RevisionChanges>, rev: int, from: int, to: int)
    requires added == [] || (|added| == 1 && added[0].rev == rev)
    ensures Between(log + added, from, to) == Between(log, from, to) + (if from < rev <= to then added else [])
  {
    if added == [] {
      assert log + added == log;
    } else {
      assert added == [added[0]];
      BetweenSnoc(log, added[0], from, to);
    }
  }

  lemma OldLink(s: StoreState, s': StoreState, rev: int, added: seq<RevisionChanges>, i: nat)
    requires Appends(s, s', rev, added) && Sorted(s.snaps) && i + 1 < |s.snaps| && Link(s, i)
    ensures Link(s', i)
  {
    var from, to := s.snaps[i].rev, s.snaps[i + 1].rev;
    assert s'.snaps[i] == s.snaps[i] && s'.snaps[i + 1] == s.snaps[i + 1];
    assert to <= Head(s);
    BetweenAppended(s.live.log, added, rev, from, to);
    assert Between(s'.live.log, from, to) == Between(s.live.log, from, to);
    assert DbAt(s', i) == DbAt(s, i) && DbAt(s', i + 1) == DbAt(s, i + 1);
  }

  lemma NewLink(s: StoreState, s': StoreState, rev: int, added: seq<RevisionChanges>)
    requires Appends(s, s', rev, added) && LogInRange(s) && s.live == DbAt(s, |s.snaps| - 1)
    requires TablesOf(s'.live) == ReplayAll(TablesOf(s.live), added)
    ensures Link(s', |s.snaps| - 1)
  {
    var n := |s.snaps|;
    assert s'.snaps[n - 1] == s.snaps[n - 1];
    NothingBetween(s.live.log, Head(s), rev);
    BetweenAppended(s.live.log, added, rev, Head(s), rev);
    assert Between(s'.live.log, Head(s), rev) == added;
    assert DbAt(s', n - 1) == DbAt(s, n - 1) && DbAt(s', n) == s'.live;
  }

  lemma AppendShape(s: StoreState, s': StoreState, rev: int, added: seq<RevisionChanges>)
    requires Chain(s) && Sorted(s.snaps) && Appends(s, s', rev, added)
    ensures s'.snaps[0].content == LiveDb && s'.live == DbAt(s', |s'.snaps| - 1)
    ensures forall i :: 0 < i < |s'.snaps| ==> s'.snaps[i].content.Frozen?
    ensures SortedLog(s'.live.log) && LogInRange(s')
  {
    assert s'.snaps[0] == s.snaps[0] && Head(s') == rev > Head(s) >= s.snaps[0].rev;
    assert forall i :: 0 <= i < |s.snaps| ==> s'.snaps[i] == s.snaps[i];
    assert forall i :: 0 <= i < |s.live.log| ==> s'.live.log[i] == s.live.log[i];
  }

  lemma AppendLinks(s: StoreState, s': StoreState, rev: int, added: seq<RevisionChanges>)
    requires Appends(s, s', rev, added) && LogInRange(s) && s.live == DbAt(s, |s.snaps| - 1)
    requires Sorted(s.snaps) && Links(s)
    requires TablesOf(s'.live) == ReplayAll(TablesOf(s.live), added)
    ensures Links(s')
  {
    NewLink(s, s', rev, added);
    forall i: nat | i + 1 < |s.snaps|
      ensures Link(s', i)
    {
      assert Link(s, i);
      OldLink(s, s', rev, added, i);
    }
  }

  /** Such a step keeps the chain. */
  lemma AppendChains(s: StoreState, s': StoreState, rev: int, added: seq<RevisionChanges>)
    requires Chain(s) && Sorted(s.snaps) && Appends(s, s', rev, added)
    requires TablesOf(s'.live) == ReplayAll(TablesOf(s.live), added)
    ensures Chain(s')
  {
    AppendShape(s, s', rev, added);
    AppendLinks(s, s', rev, added);
  }

  lemma OpenCommitChains(s: StoreState, t: nat, changes: seq<TableChange>)
    requires Inv(s) && Rises(s, Commit(t, changes)) && s.attempts[t].Open?
    ensures Chain(Step(s, Commit(t, changes)))
    ensures Step(s, Commit(t, changes)).live.log ==
            s.live.log + [RevisionChanges(s.attempts[t].rev, CommitRecord(s.attempts[t].rev, changes))]
  {
    var s', a := Step(s, Commit(t, changes)), s.attempts[t];
    var e := RevisionChanges(a.rev, CommitRecord(a.rev, changes));
    AppendLog(s.live.log, e);
    EntryReplays(a.txn, a.rev, changes);
    assert [e][..0] == [] && ReplayAll(TablesOf(s.live), [e]) == Replay(TablesOf(s.live), e.record);
    AppendChains(s, s', a.rev, [e]);
  }

  lemma CommitKeepsInv(s: StoreState, t: nat, changes: seq<TableChange>)
    requires Inv(s) && Rises(s, Commit(t, changes))
    ensures Inv(Step(s, Commit(t, changes)))
  {
    var s', a := Step(s, Commit(t, changes)), s.attempts[t];
    OpenSnaps(s, Commit(t, changes));
    GoodOpenStep(s, Commit(t, changes));
    if a.Open? {
      OpenCommitChains(s, t, changes);
    } else {
      assert s'.live.log == s.live.log + [];
      AppendChains(s, s', a.rev, []);
    }
  }

  /** A step that leaves the database and the snapshots alone keeps the chain. */
  lemma SameChain(s: StoreState, s': StoreState)
    requires Chain(s) && s'.live == s.live && s'.snaps == s.snaps
    ensures Chain(s')
  {
    assert forall i :: 0 <= i < |s.snaps| ==> DbAt(s', i) == DbAt(s, i);
    forall i: nat | i + 1 < |s'.snaps|
      ensures Link(s', i)
    {
      assert Link(s, i);
    }
  }

  lemma StepKeepsInv(s: StoreState, e: Event)
    requires Inv(s) && Rises(s, e)
    ensures Inv(Step(s, e))
    ensures s.snaps <= Step(s, e).snaps
  {
    OpenSnaps(s, e);
    if e.Commit? {
      CommitKeepsInv(s, e.t, e.changes);
    } else {
      GoodOpenStep(s, e);
      SameChain(s, Step(s, e));
    }
  }

  lemma InitialInv(clock: int)
    ensures Inv(InitialState(clock))
  {
  }

  /** Every run whose commits lie above the head keeps the invariant, whatever the clocks and
      however allocations, openings and commits interleave; the snapshots already taken are never
      changed or reordered. */
  lemma {:induction false} RunKeepsInv(s: StoreState, es: seq<Event>)
    requires Inv(s) && RisingRun(s, es)
    ensures IsRun(s, es) && Inv(Run(s, es))
    ensures s.snaps <= Run(s, es).snaps
    decreases |es|
  {
    if es != [] {
      StepKeepsInv(s, es[0]);
      RunKeepsInv(Step(s, es[0]), es[1..]);
    }
  }

  /** The invariant holds after a run of an open store if and only if the run left the revisions
      strictly increasing. */
  lemma InvExactly(s: StoreState, es: seq<Event>)
    requires Inv(s) && OpenRun(s, es)
    ensures IsRun(s, es)
    ensures Inv(Run(s, es)) <==> Sorted(Run(s, es).snaps)
  {
    OpenRunSnaps(s, es);
    if RisingRun(s, es) {
      RunKeepsInv(s, es);
    }
  }

  // ---- The usual conditions ----

  /** Conditions on the single steps that suffice: the clock is not behind the head, callbacks that
      succeed opened a transaction, no commit falls between an attempt's newRevisionID and its first
      txSource call, entries can be built, the store stays open. */
  ghost predicate Prompt(s: StoreState, e: Event) {
    Enabled(s, e) &&
    match e
    case Allocate(_, clock) => clock >= Head(s)
    case Source(t) => Opens(s) ==> s.attempts[t].seen == |s.snaps|
    case Commit(t, _) => s.attempts[t].Open?
    case FailEntry(_) => false
    case CloseStore(_) => false
    case _ => true
  }

  ghost predicate PromptRun(s: StoreState, es: seq<Event>)
    decreases |es|
  {
    es == [] || (Prompt(s, es[0]) && PromptRun(Step(s, es[0]), es[1..]))
  }

  ghost predicate Fresh(s: StoreState, t: nat)
    requires t in s.attempts && s.snaps != []
  {
    match s.attempts[t]
    case Allocated(rev, seen) => seen <= |s.snaps| && (seen == |s.snaps| ==> rev > Head(s))
    case Denied(_) => true
    case Open(rev, _) => rev > Head(s)
  }

  ghost predicate AllFresh(s: StoreState) {
    && s.snaps != [] && !s.closed && Mutex(s) && s.writer == s.active && !s.blocked
    && forall t :: t in s.attempts ==> Fresh(s, t)
  }

  lemma PromptStep(s: StoreState, e: Event)
    requires AllFresh(s) && Prompt(s, e)
    ensures Rises(s, e) && AllFresh(Step(s, e))
  {
    assert e.Commit? ==> Fresh(s, e.t);
    MutexStep(s, e);
    var s' := Step(s, e);
    forall t | t in s'.attempts
      ensures Fresh(s', t)
    {
      if t in s.attempts {
        assert Fresh(s, t);
      }
    }
  }

  lemma {:induction false} PromptRunsRise(s: StoreState, es: seq<Event>)
    requires AllFresh(s) && PromptRun(s, es)
    ensures RisingRun(s, es) && IsRun(s, es) && AllFresh(Run(s, es))
    decreases |es|
  {
    if es != [] {
      PromptStep(s, es[0]);
      PromptRunsRise(Step(s, es[0]), es[1..]);
    }
  }

  /** MVCC run invariant: under these conditions at most one write transaction is open,
      activeWriteTxn names it, and the revisions are strictly increasing. */
  lemma MvccRunInvariant(clock: int, es: seq<Event>)
    requires PromptRun(InitialState(clock), es)
    ensures RisingRun(InitialState(clock), es) && IsRun(InitialState(clock), es)
    ensures Inv(Run(InitialState(clock), es))
    ensures
      var s := Run(InitialState(clock), es);
      && Sorted(s.snaps)
      && (forall t, u :: t in s.attempts && u in s.attempts && s.attempts[t].Open? && s.attempts[u].Open? ==> t == u)
      && (forall t :: t in s.attempts ==> (s.attempts[t].Open? <==> s.active == Some(t)))
      && !s.blocked
  {
    PromptRunsRise(InitialState(clock), es);
    InitialInv(clock);
    RunKeepsInv(InitialState(clock), es);
  }

  // ---- Replay ----

  lemma {:induction false} ReplayChain(s: StoreState, i: nat, j: nat)
    requires SortedLog(s.live.log) && Sorted(s.snaps) && Links(s) && i <= j < |s.snaps|
    ensures ReplayAll(TablesOf(DbAt(s, i)), Between(s.live.log, s.snaps[i].rev, s.snaps[j].rev)) == TablesOf(DbAt(s, j))
    decreases j - i
  {
    if i == j {
      NothingBetween(s.live.log, s.snaps[i].rev, s.snaps[j].rev);
    } else {
      ReplayChain(s, i, j - 1);
      assert Link(s, j - 1);
      ReplayMore(TablesOf(DbAt(s, i)), s.live.log, s.snaps[i].rev, s.snaps[j - 1].rev, s.snaps[j].rev);
    }
  }

  lemma ReplayMore(t: Tables, log: seq<RevisionChanges>, a: int, b: int, c: int)
    requires SortedLog(log) && a <= b <= c
    ensures ReplayAll(t, Between(log, a, c)) == ReplayAll(ReplayAll(t, Between(log, a, b)), Between(log, b, c))
  {
    BetweenJoins(log, a, b, c);
    ReplayJoins(t, Between(log, a, b), Between(log, b, c));
  }

  /** Changelog replay equals snapshot: for any two snapshots of a state reached by a run with
      increasing revisions, applying the changelog entries after the first one's revision up to the
      second one's turns the first one's relationships, namespaces and caveats into exactly the second
      one's. The initial snapshot counts as empty. */
  lemma {:induction false} ReplayEqualsSnapshot(s: StoreState, i: nat, j: nat)
    requires Inv(s) && i <= j < |s.snaps|
    ensures ReplayAll(TablesOf(DbAt(s, i)), Between(s.live.log, s.snaps[i].rev, s.snaps[j].rev)) == TablesOf(DbAt(s, j))
  {
    ReplayChain(s, i, j);
  }

  /** The same for runs: every run of a fresh, open store that left the revisions strictly
      increasing, whatever the clocks, the interleaving and the callbacks did. */
  lemma RunsReplay(clock: int, es: seq<Event>, i: nat, j: nat)
    requires OpenRun(InitialState(clock), es)
    ensures IsRun(InitialState(clock), es)
    ensures
      var s := Run(InitialState(clock), es);
      Sorted(s.snaps) && i <= j < |s.snaps| ==>
      ReplayAll(TablesOf(DbAt(s, i)), Between(s.live.log, s.snaps[i].rev, s.snaps[j].rev)) == TablesOf(DbAt(s, j))
  {
    InitialInv(clock);
    InvExactly(InitialState(clock), es);
    var s := Run(InitialState(clock), es);
    if Sorted(s.snaps) && i <= j < |s.snaps| {
      ReplayEqualsSnapshot(s, i, j);
    }
  }

  // ---- Repeatable reads ----

  lemma PickInRange(snaps: seq<Snapshot>, rev: int)
    requires snaps != [] && Sorted(snaps)
    ensures
      var i := PickIndex(snaps, rev);
      && (forall k :: 0 <= k < i ==> snaps[k].rev < rev)
      && (snaps[i].rev >= rev || i == |snaps| - 1)
  {
    SearchSplits(snaps, rev, 0, |snaps|);
  }

  lemma PickIsStable(before: seq<Snapshot>, after: seq<Snapshot>, rev: int)
    requires before != [] && Sorted(before) && Sorted(after) && before <= after
    requires rev <= before[|before| - 1].rev
    ensures PickIndex(after, rev) == PickIndex(before, rev)
  {
    PickInRange(before, rev);
    assert forall k :: 0 <= k < |before| ==> after[k] == before[k];
    PickIndexIs(after, rev, PickIndex(before, rev));
  }

  /** Repeatable snapshot reads: a revision above the initial one and at or below the head reads
      the least commit at or above it, and reads the same relationships, namespaces and caveats
      after any further run with increasing revisions. */
  lemma RepeatableReads(s: StoreState, es: seq<Event>, rev: int)
    requires Inv(s) && RisingRun(s, es)
    requires s.snaps[0].rev < rev <= Head(s)
    ensures
      var i := PickIndex(s.snaps, rev);
      && i > 0 && s.snaps[i].rev >= rev && (forall k :: 0 <= k < i ==> s.snaps[k].rev < rev)
      && Picked(s, rev) == DbAt(s, i)
    ensures IsRun(s, es) && Run(s, es).snaps != [] && Picked(Run(s, es), rev) == Picked(s, rev)
  {
    RisingIsOpen(s, es);
    var s', i := Run(s, es), PickIndex(s.snaps, rev);
    RunKeepsInv(s, es);
    PickInRange(s.snaps, rev);
    PickIsStable(s.snaps, s'.snaps, rev);
  }

  /** The smallest run that adds one relationship. */
  function AddOne(t: nat, clock: int, row: Row): seq<Event> {
    [Allocate(t, clock), Source(t), Mutate(t, WriteRelationships([CreateRel(row)])), Commit(t, [RelPut(row)])]
  }

  lemma InsertOne(db: Db, row: Row)
    requires row.key !in db.rels
    ensures
      var tx := Txn(db, db, {}, {}, {});
      && ApplyOp(tx, WriteRelationships([CreateRel(row)])).0 == InsertRow(tx, row)
      && NetChanges(InsertRow(tx, row), [RelPut(row)])
  {
    var tx, us := Txn(db, db, {}, {}, {}), [CreateRel(row)];
    assert us[..|us| - 1] == [] && WriteAll(tx, []) == (tx, None);
    assert WriteAll(tx, us) == WriteOne(tx, us[0]);
    forall c
      ensures c in [RelPut(row)] <==> IsChange(InsertRow(tx, row), c)
    {
    }
  }

  lemma FirstStep(s: StoreState, e: Event, es: seq<Event>)
    requires Rises(s, e) && RisingRun(Step(s, e), es) && IsRun(Step(s, e), es)
    ensures RisingRun(s, [e] + es) && IsRun(s, [e] + es) && Run(s, [e] + es) == Run(Step(s, e), es)
  {
    assert ([e] + es)[1..] == es;
  }

  /** The state in which the attempt has inserted its row. */
  lemma AddOneOpens(s: StoreState, t: nat, clock: int, row: Row)
    requires Inv(s) && Opens(s) && !s.blocked && t !in s.attempts && row.key !in s.live.rels
    ensures
      var es := AddOne(t, clock, row);
      && Rises(s, es[0])
      && var s1 := Step(s, es[0]);
      && Rises(s1, es[1])
      && var s2 := Step(s1, es[1]);
      && Rises(s2, es[2])
      && Step(s2, es[2]) ==
         s.(active := Some(t), writer := Some(t),
            attempts := s.attempts[
              t := Open(NewRevision(Head(s), clock), InsertRow(Txn(s.live, s.live, {}, {}, {}), row))])
  {
    InsertOne(s.live, row);
    var es := AddOne(t, clock, row);
    var s2 := Step(Step(s, es[0]), es[1]);
    var a := Open(NewRevision(Head(s), clock), InsertRow(Txn(s.live, s.live, {}, {}, {}), row));
    assert Step(s2, es[2]).attempts == s.attempts[t := a];
  }

  lemma AddOneCommits(s: StoreState, t: nat, rev: int, row: Row)
    requires Inv(s) && Opens(s) && !s.blocked && t !in s.attempts && rev > Head(s) && row.key !in s.live.rels
    ensures
      var tx := InsertRow(Txn(s.live, s.live, {}, {}, {}), row);
      var s3 := s.(active := Some(t), writer := Some(t), attempts := s.attempts[t := Open(rev, tx)]);
      && Rises(s3, Commit(t, [RelPut(row)]))
      && var s' := Step(s3, Commit(t, [RelPut(row)]));
      && s'.live.rels == s.live.rels[row.key := row]
      && s'.live.log == s.live.log + [RevisionChanges(rev, CommitRecord(rev, [RelPut(row)]))]
      && s'.snaps == s.snaps + [Snapshot(rev, Frozen(s'.live))]
      && s'.attempts == s.attempts && Opens(s') && !s'.blocked
  {
    InsertOne(s.live, row);
    AppendLog(s.live.log, RevisionChanges(rev, CommitRecord(rev, [RelPut(row)])));
    var tx := InsertRow(Txn(s.live, s.live, {}, {}, {}), row);
    assert s.attempts[t := Open(rev, tx)] - {t} == s.attempts;
  }

  lemma FourSteps(s: StoreState, e1: Event, e2: Event, e3: Event, e4: Event)
    requires Rises(s, e1) && Rises(Step(s, e1), e2) && Rises(Step(Step(s, e1), e2), e3)
    requires Rises(Step(Step(Step(s, e1), e2), e3), e4)
    ensures RisingRun(s, [e1, e2, e3, e4]) && IsRun(s, [e1, e2, e3, e4])
    ensures Run(s, [e1, e2, e3, e4]) == Step(Step(Step(Step(s, e1), e2), e3), e4)
  {
    var s1 := Step(s, e1);
    var s2 := Step(s1, e2);
    var s3 := Step(s2, e3);
    FirstStep(s3, e4, []);
    FirstStep(s2, e3, [e4]);
    FirstStep(s1, e2, [e3, e4]);
    FirstStep(s, e1, [e2, e3, e4]);
    assert [e4] + [] == [e4] && [e3] + [e4] == [e3, e4] && [e2] + [e3, e4] == [e2, e3, e4];
    assert [e1] + [e2, e3, e4] == [e1, e2, e3, e4];
  }

  lemma AddOneRuns(s: StoreState, t: nat, clock: int, row: Row)
    requires Inv(s) && Opens(s) && !s.blocked && t !in s.attempts && clock >= Head(s) && row.key !in s.live.rels
    ensures RisingRun(s, AddOne(t, clock, row)) && IsRun(s, AddOne(t, clock, row))
    ensures
      var s', rev := Run(s, AddOne(t, clock, row)), NewRevision(Head(s), clock);
      && s'.live.rels == s.live.rels[row.key := row]
      && s'.live.log == s.live.log + [RevisionChanges(rev, CommitRecord(rev, [RelPut(row)]))]
      && s'.snaps == s.snaps + [Snapshot(rev, Frozen(s'.live))]
      && s'.attempts == s.attempts && Opens(s') && !s'.blocked
  {
    var es := AddOne(t, clock, row);
    AddOneOpens(s, t, clock, row);
    AddOneCommits(s, t, NewRevision(Head(s), clock), row);
    FourSteps(s, es[0], es[1], es[2], es[3]);
  }

  lemma OutsideReadsChange(s: StoreState, s': StoreState, rev: int)
    requires s.snaps != [] && Sorted(s.snaps) && Sorted(s'.snaps) && s'.live.rels != s.live.rels
    requires s.snaps[0].content == LiveDb && s.live == DbAt(s, |s.snaps| - 1)
    requires |s'.snaps| == |s.snaps| + 1 && s.snaps <= s'.snaps && s'.snaps[|s.snaps|].content == Frozen(s'.live)
    requires |s.snaps| > 1 ==> s.snaps[|s.snaps| - 1].content == Frozen(s.live)
    requires rev <= s.snaps[0].rev || rev > Head(s)
    ensures Picked(s', rev) == s'.live && Picked(s, rev) == s.live
  {
    var n := |s.snaps|;
    assert forall k :: 0 <= k < n ==> s'.snaps[k] == s.snaps[k];
    if rev <= s.snaps[0].rev {
      PickIndexIs(s.snaps, rev, 0);
      PickIndexIs(s'.snaps, rev, 0);
    } else {
      PickIndexIs(s.snaps, rev, n - 1);
      PickIndexIs(s'.snaps, rev, n);
    }
  }

  /** The bounds on the revision are exact: with no transaction open, one further commit leaves a
      read unchanged if and only if its revision is above the initial one and at or below the head.
      At or below the initial revision the read sees the live database; above the head it moves on
      to the new commit. */
  lemma RepeatableExactly(s: StoreState, rev: int, t: nat, clock: int, row: Row)
    requires Inv(s) && Opens(s) && !s.blocked && t !in s.attempts && clock >= Head(s) && row.key !in s.live.rels
    ensures RisingRun(s, AddOne(t, clock, row)) && IsRun(s, AddOne(t, clock, row))
    ensures Run(s, AddOne(t, clock, row)).snaps != []
    ensures Picked(Run(s, AddOne(t, clock, row)), rev) == Picked(s, rev) <==> s.snaps[0].rev < rev <= Head(s)
  {
    AddOneRuns(s, t, clock, row);
    var s' := Run(s, AddOne(t, clock, row));
    RunKeepsInv(s, AddOne(t, clock, row));
    if s.snaps[0].rev < rev <= Head(s) {
      RepeatableReads(s, AddOne(t, clock, row), rev);
    } else {
      assert row.key in s'.live.rels;
      OutsideReadsChange(s, s', rev);
    }
  }

  // ---- Runs that break the conditions ----

  lemma EmptyTxnChanges(tx: Txn)
    requires tx.keys == {} && tx.names == {} && tx.caveatNames == {}
    ensures NetChanges(tx, [])
  {
  }

  /** An attempt that opens now and commits nothing leaves the snapshots increasing exactly when its
      revision is above the head. */
  lemma CommitNothing(s: StoreState, t: nat)
    requires s.snaps != [] && Opens(s) && !s.blocked && t in s.attempts && s.attempts[t].Allocated?
    ensures
      var s1 := Step(s, Source(t));
      Enabled(s1, Commit(t, [])) &&
      var s2 := Step(s1, Commit(t, []));
      && s2.snaps != [] && Head(s2) == s.attempts[t].rev && Opens(s2) && !s2.blocked && s2.attempts == s.attempts - {t}
      && (Sorted(s2.snaps) <==> Sorted(s.snaps) && s.attempts[t].rev > Head(s))
  {
    var s1 := Step(s, Source(t));
    EmptyTxnChanges(s1.attempts[t].txn);
    AppendSorted(s.snaps, Step(s1, Commit(t, [])).snaps[|s.snaps|]);
    assert s1.attempts - {t} == s.attempts - {t};
  }

  /** A commit between another attempt's newRevisionID and its first txSource call: t and u
      allocate on the same head, u commits, then t opens and commits. For all clocks the revisions
      stay increasing if and only if u's clock is not behind the head and t got a later revision
      than u. Equal clocks give equal revisions. */
  lemma CommitBetweenReorders(s: StoreState, t: nat, u: nat, clockT: int, clockU: int)
    requires Inv(s) && Opens(s) && !s.blocked && t !in s.attempts && u !in s.attempts && t != u
    ensures
      var s1 := Step(Step(s, Allocate(t, clockT)), Allocate(u, clockU));
      var s2 := Step(s1, Source(u));
      Enabled(s2, Commit(u, [])) &&
      var s3 := Step(s2, Commit(u, []));
      Enabled(s3, Source(t)) &&
      var s4 := Step(s3, Source(t));
      Enabled(s4, Commit(t, [])) &&
      (Sorted(Step(s4, Commit(t, [])).snaps) <==>
       clockU >= Head(s) && NewRevision(Head(s), clockT) > NewRevision(Head(s), clockU))
  {
    var s1 := Step(Step(s, Allocate(t, clockT)), Allocate(u, clockU));
    CommitNothing(s1, u);
    CommitNothing(Step(Step(s1, Source(u)), Commit(u, [])), t);
  }

  lemma {:induction false} AllBetween(log: seq<RevisionChanges>, from: int, to: int)
    requires forall i :: 0 <= i < |log| ==> from < log[i].rev <= to
    ensures Between(log, from, to) == log
  {
    if log != [] {
      AllBetween(log[..|log| - 1], from, to);
      assert log == log[..|log| - 1] + [log[|log| - 1]];
    }
  }

  lemma WholeLogReplays(s: StoreState)
    requires Inv(s)
    ensures ReplayAll(NO_TABLES, s.live.log) == TablesOf(s.live)
  {
    AllBetween(s.live.log, s.snaps[0].rev, Head(s));
    ReplayEqualsSnapshot(s, 0, |s.snaps| - 1);
  }

  /** What an entry leaves alone. */
  lemma NothingChanged(t: Tables, r: Record)
    ensures r.touches == map[] && r.deletes == map[] ==> Replay(t, r).rels == t.rels
    ensures r.definitions == map[] && r.namespacesDeleted == {} ==> Replay(t, r).namespaces == t.namespaces
    ensures r.definitions == map[] && r.caveatsDeleted == {} ==> Replay(t, r).caveats == t.caveats
  {
    if r.deletes == map[] {
      assert r.deletes.Keys == {};
    }
  }

  lemma EmptyRecordReplays(t: Tables)
    ensures Replay(t, EMPTY_RECORD) == t
  {
    NothingChanged(t, EMPTY_RECORD);
  }

  lemma EmptyEntryReplays(t: Tables, log: seq<RevisionChanges>, rev: int)
    ensures ReplayAll(t, log + [RevisionChanges(rev, CommitRecord(rev, []))]) == ReplayAll(t, log)
  {
    assert ToOps(rev, []) == [];
    assert CommitRecord(rev, []) == EMPTY_RECORD;
    var all := log + [RevisionChanges(rev, EMPTY_RECORD)];
    assert all[..|all| - 1] == log;
    EmptyRecordReplays(ReplayAll(t, log));
  }

  /** u adds its relationship at the revision that t has already got. */
  lemma AddedBeside(s: StoreState, t: nat, u: nat, clock: int, row: Row)
    requires Inv(s) && Opens(s) && !s.blocked && t !in s.attempts && u !in s.attempts && t != u
    requires clock >= Head(s) && row.key !in s.live.rels
    ensures
      var s1, rev := Step(s, Allocate(t, clock)), NewRevision(Head(s), clock);
      IsRun(s1, AddOne(u, clock, row)) &&
      var s2 := Run(s1, AddOne(u, clock, row));
      && s2.snaps != [] && Head(s2) == rev && Opens(s2) && !s2.blocked
      && t in s2.attempts && s2.attempts[t].Allocated? && s2.attempts[t].rev == rev
      && s2.live.log != [] && s2.live.log[..|s2.live.log| - 1] == s.live.log
      && s2.live.log[|s2.live.log| - 1].rev == rev
      && row.key in s2.live.rels
  {
    StepKeepsInv(s, Allocate(t, clock));
    AddOneRuns(Step(s, Allocate(t, clock)), u, clock, row);
  }

  /** Two attempts that read the same clock get the same revision. If u adds a relationship and
      commits first, t's commit overwrites u's changelog entry: the database holds the relationship,
      the changelog no longer leads to it, and the snapshots are no longer increasing. */
  lemma EqualRevisionsLoseAnEntry(s: StoreState, t: nat, u: nat, clock: int, row: Row)
    requires Inv(s) && Opens(s) && !s.blocked && t !in s.attempts && u !in s.attempts && t != u
    requires clock >= Head(s) && row.key !in s.live.rels
    ensures
      var s1 := Step(s, Allocate(t, clock));
      IsRun(s1, AddOne(u, clock, row)) &&
      var s2 := Run(s1, AddOne(u, clock, row));
      Enabled(s2, Source(t)) &&
      var s3 := Step(s2, Source(t));
      Enabled(s3, Commit(t, [])) &&
      var s4 := Step(s3, Commit(t, []));
      && row.key in s4.live.rels && row.key !in ReplayAll(NO_TABLES, s4.live.log).rels
      && |s4.live.log| == |s2.live.log| && !Sorted(s4.snaps)
  {
    AddedBeside(s, t, u, clock, row);
    NotReplayed(s, row.key, NewRevision(Head(s), clock));
    CommitsAtHead(Run(Step(s, Allocate(t, clock)), AddOne(u, clock, row)), t, s.live.log, row.key);
  }

  /** An attempt whose revision is the head's, and the last entry's, takes that entry's place. */
  lemma CommitsAtHead(s: StoreState, t: nat, before: seq<RevisionChanges>, key: RelationshipKey)
    requires s.snaps != [] && Opens(s) && !s.blocked && t in s.attempts && s.attempts[t].Allocated?
    requires s.live.log != [] && before == s.live.log[..|s.live.log| - 1]
    requires s.live.log[|s.live.log| - 1].rev == s.attempts[t].rev == Head(s)
    requires key in s.live.rels
    requires key !in ReplayAll(NO_TABLES, before + [RevisionChanges(Head(s), CommitRecord(Head(s), []))]).rels
    ensures
      var s1 := Step(s, Source(t));
      Enabled(s1, Commit(t, [])) &&
      var s2 := Step(s1, Commit(t, []));
      && key in s2.live.rels && key !in ReplayAll(NO_TABLES, s2.live.log).rels
      && |s2.live.log| == |s.live.log| && !Sorted(s2.snaps)
  {
    CommitNothing(s, t);
    OverwritesLast(s, t, before);
  }

  /** An entry that changes nothing after the whole changelog does not add a key. */
  lemma NotReplayed(s: StoreState, key: RelationshipKey, rev: int)
    requires Inv(s) && key !in s.live.rels
    ensures key !in ReplayAll(NO_TABLES, s.live.log + [RevisionChanges(rev, CommitRecord(rev, []))]).rels
  {
    EmptyEntryReplays(NO_TABLES, s.live.log, rev);
    WholeLogReplays(s);
  }

  /** A commit at the revision of the last changelog entry takes that entry's place. */
  lemma OverwritesLast(s: StoreState, t: nat, before: seq<RevisionChanges>)
    requires s.snaps != [] && Opens(s) && !s.blocked && t in s.attempts && s.attempts[t].Allocated?
    requires s.live.log != [] && before == s.live.log[..|s.live.log| - 1]
    requires s.live.log[|s.live.log| - 1].rev == s.attempts[t].rev
    ensures
      var s1, rev := Step(s, Source(t)), s.attempts[t].rev;
      Enabled(s1, Commit(t, [])) &&
      var s2 := Step(s1, Commit(t, []));
      s2.live.rels == s.live.rels && s2.live.log == before + [RevisionChanges(rev, CommitRecord(rev, []))]
  {
    EmptyTxnChanges(Step(s, Source(t)).attempts[t].txn);
  }

  /** A successful callback that never opened a transaction clears the mark of the one that is
      open, and takes its snapshot number. The next attempt then passes the checks of its first
      txSource call and waits for the writer lock with the mutex in hand: from there on no run
      changes the database or the snapshots. */
  lemma UnopenedCommitBlocks(s: StoreState, t: nat, u: nat, v: nat, es: seq<Event>)
    requires GoodOpen(s) && s.snaps != [] && !s.blocked && !s.closed && s.active == Some(t)
    requires t in s.attempts && s.attempts[t].Open? && u in s.attempts && u != t
    requires v in s.attempts && v != u && s.attempts[v].Allocated?
    ensures Enabled(s, Commit(u, [])) && LosesTrack(s, Commit(u, []))
    ensures
      var s1 := Step(s, Commit(u, []));
      && t in s1.attempts && s1.attempts[t].Open? && s1.active == None && Enabled(s1, Source(v))
      && var s2 := Step(s1, Source(v));
      && (IsRun(s2, es) ==> Run(s2, es).blocked && Run(s2, es).live == s1.live && Run(s2, es).snaps == s1.snaps)
  {
    assert !s.attempts[u].Open?;
    var s2 := Step(Step(s, Commit(u, [])), Source(v));
    if IsRun(s2, es) {
      BlockedForever(s2, es);
    }
  }

  /** For all clocks: an attempt that runs alone keeps the revisions increasing exactly when its
      clock is not behind the head. */
  lemma ClockBehindReorders(s: StoreState, t: nat, clock: int)
    requires Inv(s) && Opens(s) && !s.blocked && t !in s.attempts
    ensures
      var s1 := Step(s, Allocate(t, clock));
      var s2 := Step(s1, Source(t));
      Enabled(s2, Commit(t, [])) && (Sorted(Step(s2, Commit(t, [])).snaps) <==> clock >= Head(s))
  {
    CommitNothing(Step(s, Allocate(t, clock)), t);
  }

  /** The writer lock is taken and nobody holds the transaction that took it. */
  ghost predicate Abandoned(s: StoreState) {
    s.writer.Some? && forall t :: t in s.attempts ==> !s.attempts[t].Open?
  }

  lemma {:induction false} AbandonedForever(s: StoreState, es: seq<Event>)
    requires Abandoned(s) && IsRun(s, es)
    ensures Abandoned(Run(s, es)) && Run(s, es).live == s.live
    decreases |es|
  {
    if es != [] {
      AbandonedForever(Step(s, es[0]), es[1..]);
    }
  }

  /** When a changelog entry cannot be built, the early return leaves the writer lock taken for good:
      in every run that follows, whatever the callbacks do, no attempt gets a transaction again and
      the database never changes. */
  lemma FailedEntryIsFinal(s: StoreState, t: nat, es: seq<Event>)
    requires GoodOpen(s) && Enabled(s, FailEntry(t))
    requires IsRun(Step(s, FailEntry(t)), es)
    ensures
      var s' := Run(Step(s, FailEntry(t)), es);
      s'.live == s.live && !Opens(s') && forall u :: u in s'.attempts ==> !s'.attempts[u].Open?
  {
    AbandonedForever(Step(s, FailEntry(t)), es);
  }

  // ---- A closed store ----

  /** No attempt has a transaction that had none before. */
  ghost predicate OpensNothing(s: StoreState, s': StoreState) {
    forall t :: t in s'.attempts && s'.attempts[t].Open? ==> t in s.attempts && s.attempts[t].Open?
  }

  /** Close is final: in every run of a closed store it stays closed, no attempt gets a transaction,
      no snapshot is added, and every read fails with the closed error. */
  lemma {:induction false} ClosedForever(s: StoreState, es: seq<Event>)
    requires s.closed && IsRun(s, es)
    ensures Run(s, es).closed && OpensNothing(s, Run(s, es))
    ensures Run(s, es).snaps == s.snaps || Run(s, es).snaps == []
    ensures forall window, rev, now :: Read(Run(s, es), window, rev, now) == Err(StoreClosed)
    decreases |es|
  {
    if es != [] {
      var s1 := Step(s, es[0]);
      assert s1.closed && OpensNothing(s, s1);
      ClosedForever(s1, es[1..]);
    }
  }
}
