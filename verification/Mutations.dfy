/** Write transactions and their mutations: relationships, namespaces and caveats
    (internal/datastore/memdb/readwrite.go:52-126, 275-339; caveat.go:121-156), and what a whole
    list of mutations comes to. */
module Mutations {
  import opened Wrappers
  import opened SqlClauses
  import opened ChangeTracker

  datatype Db = Db(
    rels: map<RelationshipKey, Row>,
    namespaces: map<string, Definition>,
    caveats: map<string, Definition>,
    log: seq<RevisionChanges>)

  const EMPTY_DB := Db(map[], map[], map[], [])

  /** A write transaction: the root it started from, its working root, and the keys it touched. */
  datatype Txn = Txn(base: Db, work: Db, keys: set<RelationshipKey>, names: set<string>, caveatNames: set<string>)

  // ---- The mutations ----

  datatype Update = CreateRel(row: Row) | TouchRel(row: Row) | DeleteRel(row: Row)

  type Namespace = d: Definition | d.NamespaceDefinition? witness NamespaceDefinition("", 0, 0)
  type Caveat = d: Definition | d.CaveatDefinition? witness CaveatDefinition("", 0, 0)

  datatype TxOp =
    | WriteRelationships(updates: seq<Update>)
    | WriteNamespaces(namespaces: seq<Namespace>)
    | DeleteNamespaces(names: seq<string>, andRelationships: bool)
    | WriteCaveats(caveats: seq<Caveat>)
    | DeleteCaveats(names: seq<string>)

  datatype TxError = RelationshipExists | NotFound | DuplicateCaveat

  /** tuple.MustString agrees: everything but the integrity data is printed. */
  predicate SamePrinted(a: Row, b: Row) {
    && a.key == b.key && a.caveat == b.caveat && (a.caveat.Some? ==> a.context == b.context)
    && a.expiration == b.expiration
  }

  function InsertRow(tx: Txn, row: Row): Txn {
    tx.(work := tx.work.(rels := tx.work.rels[row.key := row]), keys := tx.keys + {row.key})
  }

  function WriteOne(tx: Txn, u: Update): (Txn, Option<TxError>) {
    var rels := tx.work.rels;
    match u
    case CreateRel(row) => if row.key in rels then (tx, Some(RelationshipExists)) else (InsertRow(tx, row), None)
    case TouchRel(row) =>
      if row.key in rels && SamePrinted(rels[row.key], row) then (tx, None) else (InsertRow(tx, row), None)
    case DeleteRel(row) =>
      if row.key in rels then
        (tx.(work := tx.work.(rels := rels - {row.key}), keys := tx.keys + {row.key}), None)
      else (tx, None)
  }

  /** Stops at the first failing mutation; the earlier ones stay applied. */
  function WriteAll(tx: Txn, us: seq<Update>): (Txn, Option<TxError>) {
    if us == [] then (tx, None)
    else
      var (tx1, err) := WriteAll(tx, us[..|us| - 1]);
      if err.Some? then (tx1, err) else WriteOne(tx1, us[|us| - 1])
  }

  function PutNamespaces(tx: Txn, ds: seq<Namespace>): Txn {
    if ds == [] then tx
    else
      var tx1, d := PutNamespaces(tx, ds[..|ds| - 1]), ds[|ds| - 1];
      tx1.(work := tx1.work.(namespaces := tx1.work.namespaces[d.name := d]), names := tx1.names + {d.name})
  }

  /** The relationships of one resource type go; RelationshipDelete shows that this is what the
      delete by filter does. */
  function RemoveOfType(tx: Txn, resourceType: string): Txn {
    var gone := set k | k in tx.work.rels && k.resourceType == resourceType;
    tx.(work := tx.work.(rels := tx.work.rels - gone), keys := tx.keys + gone)
  }

  function DropNamespace(tx: Txn, n: string, andRelationships: bool): (Txn, Option<TxError>) {
    if n !in tx.work.namespaces then (tx, Some(NotFound))
    else
      var tx1 := tx.(work := tx.work.(namespaces := tx.work.namespaces - {n}), names := tx.names + {n});
      (if andRelationships then RemoveOfType(tx1, n) else tx1, None)
  }

  /** Stops at the first missing name; the earlier deletions stay applied. */
  function DropNamespaces(tx: Txn, names: seq<string>, andRelationships: bool): (Txn, Option<TxError>) {
    if names == [] then (tx, None)
    else
      var (tx1, err) := DropNamespaces(tx, names[..|names| - 1], andRelationships);
      if err.Some? then (tx1, err) else DropNamespace(tx1, names[|names| - 1], andRelationships)
  }

  function NamesOf(ds: seq<Caveat>): set<string> {
    set d | d in ds :: d.name
  }

  /** Stops at the first name that the same call already wrote. */
  function PutCaveats(tx: Txn, ds: seq<Caveat>): (Txn, Option<TxError>) {
    if ds == [] then (tx, None)
    else
      var front, d := ds[..|ds| - 1], ds[|ds| - 1];
      var (tx1, err) := PutCaveats(tx, front);
      if err.Some? then (tx1, err)
      else if d.name in NamesOf(front) then (tx1, Some(DuplicateCaveat))
      else
        (tx1.(work := tx1.work.(caveats := tx1.work.caveats[d.name := d]),
              caveatNames := tx1.caveatNames + {d.name}), None)
  }

  function DropCaveats(tx: Txn, names: seq<string>): (Txn, Option<TxError>) {
    if names == [] then (tx, None)
    else
      var n := names[|names| - 1];
      var (tx1, err) := DropCaveats(tx, names[..|names| - 1]);
      if err.Some? then (tx1, err)
      else if n !in tx1.work.caveats then (tx1, Some(NotFound))
      else
        (tx1.(work := tx1.work.(caveats := tx1.work.caveats - {n}), caveatNames := tx1.caveatNames + {n}), None)
  }

  function ApplyOp(tx: Txn, op: TxOp): (Txn, Option<TxError>) {
    match op
    case WriteRelationships(us) => WriteAll(tx, us)
    case WriteNamespaces(ds) => (PutNamespaces(tx, ds), None)
    case DeleteNamespaces(names, andRelationships) => DropNamespaces(tx, names, andRelationships)
    case WriteCaveats(ds) => PutCaveats(tx, ds)
    case DeleteCaveats(names) => DropCaveats(tx, names)
  }

  lemma WriteAllStops(tx: Txn, us: seq<Update>, n: nat)
    requires n <= |us| && WriteAll(tx, us[..n]).1.Some?
    ensures WriteAll(tx, us) == WriteAll(tx, us[..n])
  {
    if n < |us| {
      assert us[..|us| - 1][..n] == us[..n];
      WriteAllStops(tx, us[..|us| - 1], n);
    } else {
      assert us[..n] == us;
    }
  }

  // ---- Schema mutations succeed or stop ----

  predicate Distinct(names: seq<string>) {
    forall i, j :: 0 <= i < j < |names| ==> names[i] != names[j]
  }

  lemma NamesSnoc(ds: seq<Caveat>, d: Caveat)
    ensures NamesOf(ds + [d]) == NamesOf(ds) + {d.name}
  {
    assert forall x :: x in ds + [d] <==> x in ds || x == d;
  }

  lemma DropNamespacesSnoc(tx: Txn, names: seq<string>, n: string, andRelationships: bool)
    requires DropNamespaces(tx, names, andRelationships).1.None?
    ensures DropNamespaces(tx, names + [n], andRelationships) ==
            DropNamespace(DropNamespaces(tx, names, andRelationships).0, n, andRelationships)
  {
    assert (names + [n])[..|names|] == names;
  }

  lemma DropNamespacesStops(tx: Txn, names: seq<string>, andRelationships: bool, n: nat)
    requires n <= |names| && DropNamespaces(tx, names[..n], andRelationships).1.Some?
    ensures DropNamespaces(tx, names, andRelationships) == DropNamespaces(tx, names[..n], andRelationships)
  {
    if n < |names| {
      assert names[..|names| - 1][..n] == names[..n];
      DropNamespacesStops(tx, names[..|names| - 1], andRelationships, n);
    } else {
      assert names[..n] == names;
    }
  }

  lemma PutCaveatsStops(tx: Txn, ds: seq<Caveat>, n: nat)
    requires n <= |ds| && PutCaveats(tx, ds[..n]).1.Some?
    ensures PutCaveats(tx, ds) == PutCaveats(tx, ds[..n])
  {
    if n < |ds| {
      assert ds[..|ds| - 1][..n] == ds[..n];
      PutCaveatsStops(tx, ds[..|ds| - 1], n);
    } else {
      assert ds[..n] == ds;
    }
  }

  lemma DropCaveatsStops(tx: Txn, names: seq<string>, n: nat)
    requires n <= |names| && DropCaveats(tx, names[..n]).1.Some?
    ensures DropCaveats(tx, names) == DropCaveats(tx, names[..n])
  {
    if n < |names| {
      assert names[..|names| - 1][..n] == names[..n];
      DropCaveatsStops(tx, names[..|names| - 1], n);
    } else {
      assert names[..n] == names;
    }
  }

  /** Deleting namespaces succeeds iff all are present and none is repeated, and then exactly they
      are gone. */
  lemma {:induction false} DropNamespacesExactly(tx: Txn, names: seq<string>, andRelationships: bool)
    ensures
      var (tx', err) := DropNamespaces(tx, names, andRelationships);
      && (err.None? <==> Distinct(names) && forall n :: n in names ==> n in tx.work.namespaces)
      && (err.None? ==> forall n :: n in tx'.work.namespaces <==> n in tx.work.namespaces && n !in names)
  {
    if names != [] {
      var front, last := names[..|names| - 1], names[|names| - 1];
      DropNamespacesExactly(tx, front, andRelationships);
      assert names == front + [last];
      DistinctSnoc(front, last);
    }
  }

  lemma {:induction false} DropCaveatsExactly(tx: Txn, names: seq<string>)
    ensures
      var (tx', err) := DropCaveats(tx, names);
      && (err.None? <==> Distinct(names) && forall n :: n in names ==> n in tx.work.caveats)
      && (err.None? ==> forall n :: n in tx'.work.caveats <==> n in tx.work.caveats && n !in names)
  {
    if names != [] {
      var front, last := names[..|names| - 1], names[|names| - 1];
      DropCaveatsExactly(tx, front);
      assert names == front + [last];
      DistinctSnoc(front, last);
    }
  }

  lemma DistinctSnoc(front: seq<string>, last: string)
    ensures Distinct(front + [last]) <==> Distinct(front) && last !in front
  {
    var names := front + [last];
    if Distinct(names) {
      assert forall i :: 0 <= i < |front| ==> front[i] == names[i];
      assert names[|front|] == last;
    }
  }

  /** Writing caveats succeeds iff no name is repeated within the call. */
  lemma {:induction false} PutCaveatsExactly(tx: Txn, ds: seq<Caveat>)
    ensures PutCaveats(tx, ds).1.None? <==> DistinctNames(ds)
  {
    if ds != [] {
      var front, last := ds[..|ds| - 1], ds[|ds| - 1];
      PutCaveatsExactly(tx, front);
      DistinctNamesSnoc(front, last);
      assert ds == front + [last];
    }
  }

  ghost predicate DistinctNames(ds: seq<Caveat>) {
    forall i, j :: 0 <= i < j < |ds| ==> ds[i].name != ds[j].name
  }

  lemma DistinctNamesSnoc(front: seq<Caveat>, last: Caveat)
    ensures DistinctNames(front + [last]) <==> DistinctNames(front) && last.name !in NamesOf(front)
  {
    var ds, n := front + [last], |front|;
    assert ds[n] == last;
    assert forall i :: 0 <= i < n ==> ds[i] == front[i];
    if last.name in NamesOf(front) {
      var d :| d in front && d.name == last.name;
      var i :| 0 <= i < n && front[i] == d;
      assert ds[i].name == ds[n].name;
    } else {
      forall i | 0 <= i < n
        ensures ds[i].name != ds[n].name
      {
        assert front[i] in front;
      }
    }
  }

  // ---- What a list of relationship updates comes to ----

  /** The last update of a key, if the list has one. */
  function LastUpdate(us: seq<Update>, k: RelationshipKey): Option<Update> {
    if us == [] then None
    else if us[|us| - 1].row.key == k then Some(us[|us| - 1])
    else LastUpdate(us[..|us| - 1], k)
  }

  /** The key has a row once the updates are done. */
  predicate PresentAfter(before: map<RelationshipKey, Row>, us: seq<Update>, k: RelationshipKey) {
    match LastUpdate(us, k)
    case None => k in before
    case Some(DeleteRel(_)) => false
    case Some(_) => true
  }

  /** Some create meets a key that the updates before it leave present. */
  ghost predicate CreateMeetsRow(before: map<RelationshipKey, Row>, us: seq<Update>) {
    exists i :: 0 <= i < |us| && MeetsRowAt(before, us, i)
  }

  predicate MeetsRowAt(before: map<RelationshipKey, Row>, us: seq<Update>, i: nat)
    requires i < |us|
  {
    us[i].CreateRel? && PresentAfter(before, us[..i], us[i].row.key)
  }

  /** The last update of a key decides: after a delete it is absent, after a create it has the
      created row, after a touch a row with the same caveat, context and expiration; a key that no
      update names keeps what it had. */
  predicate RowDecided(before: map<RelationshipKey, Row>, us: seq<Update>, after: map<RelationshipKey, Row>,
                       k: RelationshipKey)
  {
    match LastUpdate(us, k)
    case None => (k in after <==> k in before) && (k in after ==> after[k] == before[k])
    case Some(DeleteRel(_)) => k !in after
    case Some(CreateRel(row)) => k in after && after[k] == row
    case Some(TouchRel(row)) =>
      && k in after && after[k].key == k && after[k].caveat == row.caveat && after[k].expiration == row.expiration
      && (row.caveat.Some? ==> after[k].context == row.context)
  }

  lemma LastUpdateSnoc(us: seq<Update>, u: Update, k: RelationshipKey)
    ensures LastUpdate(us + [u], k) == if u.row.key == k then Some(u) else LastUpdate(us, k)
  {
    assert (us + [u])[..|us|] == us;
  }

  lemma WriteAllSnoc(tx: Txn, us: seq<Update>, u: Update)
    ensures WriteAll(tx, us + [u]) ==
            if WriteAll(tx, us).1.Some? then WriteAll(tx, us) else WriteOne(WriteAll(tx, us).0, u)
  {
    assert (us + [u])[..|us + [u]| - 1] == us;
  }

  lemma MeetsRowSnoc(before: map<RelationshipKey, Row>, us: seq<Update>, u: Update)
    ensures CreateMeetsRow(before, us + [u]) <==>
            CreateMeetsRow(before, us) || (u.CreateRel? && PresentAfter(before, us, u.row.key))
  {
    var all := us + [u];
    assert all[..|us|] == us;
    assert forall i :: 0 <= i < |us| ==> all[i] == us[i] && all[..i] == us[..i];
    assert forall i :: 0 <= i < |us| ==> MeetsRowAt(before, all, i) == MeetsRowAt(before, us, i);
    assert MeetsRowAt(before, all, |us|) <==> u.CreateRel? && PresentAfter(before, us, u.row.key);
  }

  lemma DecidedStep(before: map<RelationshipKey, Row>, us: seq<Update>, u: Update, tx: Txn, k: RelationshipKey)
    requires RowDecided(before, us, tx.work.rels, k) && WriteOne(tx, u).1.None?
    ensures RowDecided(before, us + [u], WriteOne(tx, u).0.work.rels, k)
  {
    LastUpdateSnoc(us, u, k);
  }

  /** The normal form of a write: it fails iff some create meets a key that the earlier updates leave
      present, and otherwise the last update of every key decides. */
  lemma {:induction false} WritesExactly(tx: Txn, us: seq<Update>)
    ensures WriteAll(tx, us).1 == if CreateMeetsRow(tx.work.rels, us) then Some(RelationshipExists) else None
    ensures WriteAll(tx, us).1.None? ==>
              forall k :: RowDecided(tx.work.rels, us, WriteAll(tx, us).0.work.rels, k)
  {
    if us != [] {
      var front, last := us[..|us| - 1], us[|us| - 1];
      assert us == front + [last];
      WritesExactly(tx, front);
      MeetsRowSnoc(tx.work.rels, front, last);
      var (tx1, err1) := WriteAll(tx, front);
      if err1.None? {
        assert RowDecided(tx.work.rels, front, tx1.work.rels, last.row.key);
        forall k | WriteOne(tx1, last).1.None?
          ensures RowDecided(tx.work.rels, us, WriteOne(tx1, last).0.work.rels, k)
        {
          assert RowDecided(tx.work.rels, front, tx1.work.rels, k);
          DecidedStep(tx.work.rels, front, last, tx1, k);
        }
      }
    }
  }

  /** A touch leaves the stored row alone, integrity data included, iff it prints the same; the
      touched row replaces it otherwise. */
  lemma TouchedRow(tx: Txn, us: seq<Update>, row: Row)
    requires WriteAll(tx, us).1.None?
    ensures
      var before, after := WriteAll(tx, us).0.work.rels, WriteAll(tx, us + [TouchRel(row)]).0.work.rels;
      && row.key in after
      && after[row.key] ==
         if row.key in before && before[row.key].key == row.key && before[row.key].caveat == row.caveat &&
            (row.caveat.Some? ==> before[row.key].context == row.context) &&
            before[row.key].expiration == row.expiration
         then before[row.key] else row
  {
    WriteAllSnoc(tx, us, TouchRel(row));
  }

  /** A failing write leaves the updates before the failing create applied. */
  lemma {:induction false} FailedWrite(tx: Txn, us: seq<Update>)
    requires WriteAll(tx, us).1.Some?
    ensures exists i :: 0 <= i < |us| && WriteAll(tx, us[..i]) == (WriteAll(tx, us).0, None) &&
                        MeetsRowAt(tx.work.rels, us, i)
  {
    var front, last := us[..|us| - 1], us[|us| - 1];
    assert us == front + [last];
    if WriteAll(tx, front).1.Some? {
      FailedWrite(tx, front);
      var i :| 0 <= i < |front| && WriteAll(tx, front[..i]) == (WriteAll(tx, front).0, None) &&
        MeetsRowAt(tx.work.rels, front, i);
      assert us[..i] == front[..i] && us[i] == front[i];
    } else {
      WritesExactly(tx, us);
      WritesExactly(tx, front);
      MeetsRowSnoc(tx.work.rels, front, last);
      assert MeetsRowAt(tx.work.rels, us, |front|);
    }
  }

  function Lookup<K, V>(m: map<K, V>, k: K): Option<V> {
    if k in m then Some(m[k]) else None
  }

  /** The i-th update changed what the key holds. */
  ghost predicate ChangesAt(tx: Txn, us: seq<Update>, i: nat, k: RelationshipKey)
    requires i < |us|
  {
    Lookup(WriteAll(tx, us[..i + 1]).0.work.rels, k) != Lookup(WriteAll(tx, us[..i]).0.work.rels, k)
  }

  lemma OneMark(tx: Txn, u: Update, k: RelationshipKey)
    ensures
      var tx' := WriteOne(tx, u).0;
      && (k in tx'.keys <==> k in tx.keys || Lookup(tx'.work.rels, k) != Lookup(tx.work.rels, k))
      && tx' == tx.(work := tx.work.(rels := tx'.work.rels), keys := tx'.keys)
  {
  }

  /** A write touches relationships only, and marks for the changelog exactly the keys whose value
      some update changed. */
  lemma {:induction false} WriteMarks(tx: Txn, us: seq<Update>, k: RelationshipKey)
    ensures
      var tx' := WriteAll(tx, us).0;
      && (k in tx'.keys <==> k in tx.keys || exists i :: 0 <= i < |us| && ChangesAt(tx, us, i, k))
      && tx' == tx.(work := tx.work.(rels := tx'.work.rels), keys := tx'.keys)
  {
    if us != [] {
      var front, last := us[..|us| - 1], us[|us| - 1];
      assert us == front + [last];
      WriteMarks(tx, front, k);
      OneMark(WriteAll(tx, front).0, last, k);
      forall i | 0 <= i < |front|
        ensures ChangesAt(tx, us, i, k) == ChangesAt(tx, front, i, k)
      {
        assert us[..i] == front[..i] && us[..i + 1] == front[..i + 1];
      }
      assert us[..|front|] == front && us[..|front| + 1] == us;
      assert ChangesAt(tx, us, |front|, k) <==>
             Lookup(WriteAll(tx, us).0.work.rels, k) != Lookup(WriteAll(tx, front).0.work.rels, k);
    }
  }

  // ---- What the schema mutations come to ----

  /** The last definition with the name, if the list has one. */
  function LastOfName(ds: seq<Namespace>, n: string): Option<Definition> {
    if ds == [] then None
    else if ds[|ds| - 1].name == n then Some(ds[|ds| - 1])
    else LastOfName(ds[..|ds| - 1], n)
  }

  /** Every written namespace has its last definition, the others keep theirs, the written names are
      marked, and nothing else changes. */
  lemma {:induction false} PutNamespacesExactly(tx: Txn, ds: seq<Namespace>, n: string)
    ensures
      var tx' := ApplyOp(tx, WriteNamespaces(ds)).0;
      && Lookup(tx'.work.namespaces, n) ==
         (if LastOfName(ds, n).Some? then LastOfName(ds, n) else Lookup(tx.work.namespaces, n))
      && (n in tx'.names <==> n in tx.names || exists i :: 0 <= i < |ds| && ds[i].name == n)
      && tx' == tx.(work := tx.work.(namespaces := tx'.work.namespaces), names := tx'.names)
  {
    if ds != [] {
      var front, last := ds[..|ds| - 1], ds[|ds| - 1];
      PutNamespacesExactly(tx, front, n);
      assert ds == front + [last];
      assert forall i :: 0 <= i < |front| ==> ds[i] == front[i];
      assert ds[|front|] == last;
    }
  }

  /** The relationships that go with the deleted namespaces. */
  predicate GoesWith(names: seq<string>, andRelationships: bool, k: RelationshipKey) {
    andRelationships && k.resourceType in names
  }

  /** Deleted namespaces are gone and marked; with the flag so are the relationships of their types.
      Every other namespace and relationship keeps its value, and nothing else changes. */
  lemma {:induction false} DropNamespacesMeaning(tx: Txn, names: seq<string>, andRelationships: bool,
                                                 n: string, k: RelationshipKey)
    requires ApplyOp(tx, DeleteNamespaces(names, andRelationships)).1.None?
    ensures
      var tx' := ApplyOp(tx, DeleteNamespaces(names, andRelationships)).0;
      && Lookup(tx'.work.namespaces, n) == (if n in names then None else Lookup(tx.work.namespaces, n))
      && Lookup(tx'.work.rels, k) == (if GoesWith(names, andRelationships, k) then None else Lookup(tx.work.rels, k))
      && (n in tx'.names <==> n in tx.names || n in names)
      && (k in tx'.keys <==> k in tx.keys || (k in tx.work.rels && GoesWith(names, andRelationships, k)))
      && tx' == tx.(work := tx.work.(namespaces := tx'.work.namespaces, rels := tx'.work.rels),
                    names := tx'.names, keys := tx'.keys)
  {
    if names != [] {
      var front, last := names[..|names| - 1], names[|names| - 1];
      assert names == front + [last];
      DropNamespacesMeaning(tx, front, andRelationships, n, k);
    }
  }

  /** Written caveats have their definitions and are marked, the others keep theirs, and nothing else
      changes. */
  lemma {:induction false} PutCaveatsMeaning(tx: Txn, ds: seq<Caveat>, n: string)
    requires ApplyOp(tx, WriteCaveats(ds)).1.None?
    ensures
      var tx' := ApplyOp(tx, WriteCaveats(ds)).0;
      && (forall i :: 0 <= i < |ds| && ds[i].name == n ==> Lookup(tx'.work.caveats, n) == Some(ds[i]))
      && (n !in NamesOf(ds) ==> Lookup(tx'.work.caveats, n) == Lookup(tx.work.caveats, n))
      && (n in tx'.caveatNames <==> n in tx.caveatNames || n in NamesOf(ds))
      && tx' == tx.(work := tx.work.(caveats := tx'.work.caveats), caveatNames := tx'.caveatNames)
  {
    if ds != [] {
      var front, last := ds[..|ds| - 1], ds[|ds| - 1];
      PutCaveatsMeaning(tx, front, n);
      assert ds == front + [last];
      NamesSnoc(front, last);
      assert forall i :: 0 <= i < |front| ==> ds[i] in front && ds[i].name in NamesOf(front);
    }
  }

  /** The listed caveats have their definitions and the others keep theirs. */
  ghost predicate CaveatsWritten(before: map<string, Definition>, ds: seq<Caveat>, after: map<string, Definition>) {
    && (forall i :: 0 <= i < |ds| ==> Lookup(after, ds[i].name) == Some(ds[i]))
    && (forall n :: n !in NamesOf(ds) ==> Lookup(after, n) == Lookup(before, n))
  }

  lemma AllCaveatsWritten(tx: Txn, ds: seq<Caveat>)
    ensures PutCaveats(tx, ds).1.None? ==>
              CaveatsWritten(tx.work.caveats, ds, PutCaveats(tx, ds).0.work.caveats)
  {
    if PutCaveats(tx, ds).1.None? {
      var after := PutCaveats(tx, ds).0.work.caveats;
      forall i | 0 <= i < |ds|
        ensures Lookup(after, ds[i].name) == Some(ds[i])
      {
        PutCaveatsMeaning(tx, ds, ds[i].name);
      }
      forall n | n !in NamesOf(ds)
        ensures Lookup(after, n) == Lookup(tx.work.caveats, n)
      {
        PutCaveatsMeaning(tx, ds, n);
      }
    }
  }

  /** Deleted caveats are gone and marked, the others keep their definitions, and nothing else
      changes. */
  lemma {:induction false} DropCaveatsMeaning(tx: Txn, names: seq<string>, n: string)
    requires ApplyOp(tx, DeleteCaveats(names)).1.None?
    ensures
      var tx' := ApplyOp(tx, DeleteCaveats(names)).0;
      && Lookup(tx'.work.caveats, n) == (if n in names then None else Lookup(tx.work.caveats, n))
      && (n in tx'.caveatNames <==> n in tx.caveatNames || n in names)
      && tx' == tx.(work := tx.work.(caveats := tx'.work.caveats), caveatNames := tx'.caveatNames)
  {
    if names != [] {
      var front, last := names[..|names| - 1], names[|names| - 1];
      assert names == front + [last];
      DropCaveatsMeaning(tx, front, n);
    }
  }

  /** A failing deletion of namespaces stops at the first missing one, with the earlier ones gone. */
  lemma {:induction false} FailedDropNamespaces(tx: Txn, names: seq<string>, andRelationships: bool)
    requires DropNamespaces(tx, names, andRelationships).1.Some?
    ensures
      var tx' := DropNamespaces(tx, names, andRelationships).0;
      exists i :: 0 <= i < |names| && names[i] !in tx'.work.namespaces &&
                  DropNamespaces(tx, names[..i], andRelationships) == (tx', None)
  {
    var front := names[..|names| - 1];
    if DropNamespaces(tx, front, andRelationships).1.Some? {
      FailedDropNamespaces(tx, front, andRelationships);
      var tx' := DropNamespaces(tx, front, andRelationships).0;
      var i :| 0 <= i < |front| && front[i] !in tx'.work.namespaces &&
        DropNamespaces(tx, front[..i], andRelationships) == (tx', None);
      assert names[..i] == front[..i] && names[i] == front[i];
    }
  }

  lemma {:induction false} FailedDropCaveats(tx: Txn, names: seq<string>)
    requires DropCaveats(tx, names).1.Some?
    ensures
      var tx' := DropCaveats(tx, names).0;
      exists i :: 0 <= i < |names| && names[i] !in tx'.work.caveats && DropCaveats(tx, names[..i]) == (tx', None)
  {
    var front := names[..|names| - 1];
    if DropCaveats(tx, front).1.Some? {
      FailedDropCaveats(tx, front);
      var tx' := DropCaveats(tx, front).0;
      var i :| 0 <= i < |front| && front[i] !in tx'.work.caveats && DropCaveats(tx, front[..i]) == (tx', None);
      assert names[..i] == front[..i] && names[i] == front[i];
    }
  }

  /** A failing write of caveats stops at the first repeated name, with the earlier ones written. */
  lemma {:induction false} FailedPutCaveats(tx: Txn, ds: seq<Caveat>)
    requires PutCaveats(tx, ds).1.Some?
    ensures
      var tx' := PutCaveats(tx, ds).0;
      exists i :: 0 <= i < |ds| && ds[i].name in NamesOf(ds[..i]) && PutCaveats(tx, ds[..i]) == (tx', None)
  {
    var front := ds[..|ds| - 1];
    if PutCaveats(tx, front).1.Some? {
      FailedPutCaveats(tx, front);
      var tx' := PutCaveats(tx, front).0;
      var i :| 0 <= i < |front| && front[i].name in NamesOf(front[..i]) && PutCaveats(tx, front[..i]) == (tx', None);
      assert ds[..i] == front[..i] && ds[i] == front[i];
    }
  }
}
