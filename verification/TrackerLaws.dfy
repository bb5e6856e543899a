/** What the Changes tracker holds after any history of additions, and what draining it in steps
    delivers (internal/datastore/common/changes.go:66-113,186-371). */
module TrackerLaws {
  import opened Wrappers
  import opened SqlClauses
  import opened ChangeTracker

  function Fold(cfg: Config, ops: seq<Op>): Tracker {
    if ops == [] then EMPTY_TRACKER
    else Apply(cfg, Fold(cfg, ops[..|ops| - 1]), ops[|ops| - 1]).0
  }

  /** No call of the history failed. */
  predicate AllFine(cfg: Config, ops: seq<Op>) {
    ops == [] ||
    (AllFine(cfg, ops[..|ops| - 1]) && Apply(cfg, Fold(cfg, ops[..|ops| - 1]), ops[|ops| - 1]).1 == Fine)
  }

  // ---- Order independence ----

  predicate TouchOf(cfg: Config, op: Op, rev: int, key: RelationshipKey) {
    cfg.relationships && op.Touch? && op.rev == rev && op.row.key == key
  }

  predicate DeleteOf(cfg: Config, op: Op, rev: int, key: RelationshipKey) {
    cfg.relationships && op.Delete? && op.rev == rev && op.row.key == key
  }

  predicate ChangeOf(cfg: Config, op: Op, rev: int, key: DefinitionKey) {
    cfg.schema && op.Changed? && op.rev == rev && KeyOf(op.def) == key
  }

  predicate NamespaceDeletion(cfg: Config, op: Op, rev: int, name: string) {
    cfg.schema && op.DeletedNamespace? && op.rev == rev && op.name == name
  }

  predicate CaveatDeletion(cfg: Config, op: Op, rev: int, name: string) {
    cfg.schema && op.DeletedCaveat? && op.rev == rev && op.name == name
  }

  ghost predicate HasTouch(cfg: Config, ops: seq<Op>, rev: int, key: RelationshipKey) {
    exists op :: op in ops && TouchOf(cfg, op, rev, key)
  }

  ghost predicate HasDelete(cfg: Config, ops: seq<Op>, rev: int, key: RelationshipKey) {
    exists op :: op in ops && DeleteOf(cfg, op, rev, key)
  }

  ghost predicate HasChange(cfg: Config, ops: seq<Op>, rev: int, key: DefinitionKey) {
    exists op :: op in ops && ChangeOf(cfg, op, rev, key)
  }

  ghost predicate HasNamespaceDeletion(cfg: Config, ops: seq<Op>, rev: int, name: string) {
    exists op :: op in ops && NamespaceDeletion(cfg, op, rev, name)
  }

  ghost predicate HasCaveatDeletion(cfg: Config, ops: seq<Op>, rev: int, name: string) {
    exists op :: op in ops && CaveatDeletion(cfg, op, rev, name)
  }

  ghost predicate Mentions(cfg: Config, ops: seq<Op>, rev: int) {
    exists op :: op in ops && op.rev == rev && (if op.Touch? || op.Delete? then cfg.relationships else cfg.schema)
  }

  /** The row of the last touch of a key at a revision. */
  function LastTouch(cfg: Config, ops: seq<Op>, rev: int, key: RelationshipKey): Option<Row> {
    if ops == [] then None
    else if TouchOf(cfg, ops[|ops| - 1], rev, key) then Some(ops[|ops| - 1].row)
    else LastTouch(cfg, ops[..|ops| - 1], rev, key)
  }

  function LastDelete(cfg: Config, ops: seq<Op>, rev: int, key: RelationshipKey): Option<Row> {
    if ops == [] then None
    else if DeleteOf(cfg, ops[|ops| - 1], rev, key) then Some(ops[|ops| - 1].row)
    else LastDelete(cfg, ops[..|ops| - 1], rev, key)
  }

  function LastChange(cfg: Config, ops: seq<Op>, rev: int, key: DefinitionKey): Option<Definition> {
    if ops == [] then None
    else if ChangeOf(cfg, ops[|ops| - 1], rev, key) then Some(ops[|ops| - 1].def)
    else LastChange(cfg, ops[..|ops| - 1], rev, key)
  }

  lemma LastOp(ops: seq<Op>)
    requires ops != []
    ensures forall op :: op in ops <==> op in ops[..|ops| - 1] || op == ops[|ops| - 1]
  {
    assert ops == ops[..|ops| - 1] + [ops[|ops| - 1]];
  }

  lemma StepRecords(cfg: Config, ops: seq<Op>)
    requires ops != [] && AllFine(cfg, ops)
    ensures
      var t, op := Fold(cfg, ops[..|ops| - 1]), ops[|ops| - 1];
      Fold(cfg, ops).records ==
      if Watched(cfg, op) then t.records[op.rev := Merge(RecordAt(t, op.rev), op)] else t.records
  {
    var t, op := Fold(cfg, ops[..|ops| - 1]), ops[|ops| - 1];
    if Watched(cfg, op) {
      ApplyFine(cfg, t, op);
    }
  }

  /** A key is touched iff some touch was added, whatever was deleted before or after; it carries
      the last touch. It is deleted iff it was deleted and never touched, and carries the last
      delete. */
  lemma {:induction false} RelationshipNormalForm(cfg: Config, ops: seq<Op>, rev: int, key: RelationshipKey)
    requires AllFine(cfg, ops)
    ensures
      var r := RecordAt(Fold(cfg, ops), rev);
      && (key in r.touches <==> HasTouch(cfg, ops, rev, key))
      && (key in r.deletes <==> HasDelete(cfg, ops, rev, key) && !HasTouch(cfg, ops, rev, key))
      && (key in r.touches ==> LastTouch(cfg, ops, rev, key) == Some(r.touches[key]))
      && (key in r.deletes ==> LastDelete(cfg, ops, rev, key) == Some(r.deletes[key]))
  {
    if ops != [] {
      var front, op := ops[..|ops| - 1], ops[|ops| - 1];
      RelationshipNormalForm(cfg, front, rev, key);
      LastOp(ops);
      StepRecords(cfg, ops);
      assert HasTouch(cfg, ops, rev, key) <==> HasTouch(cfg, front, rev, key) || TouchOf(cfg, op, rev, key);
      assert HasDelete(cfg, ops, rev, key) <==> HasDelete(cfg, front, rev, key) || DeleteOf(cfg, op, rev, key);
    }
  }

  /** Changed definitions win over deletions of the same name in either order. */
  lemma {:induction false} NamespaceNormalForm(cfg: Config, ops: seq<Op>, rev: int, name: string)
    requires AllFine(cfg, ops)
    ensures
      var r := RecordAt(Fold(cfg, ops), rev);
      && (NamespaceKey(name) in r.definitions <==> HasChange(cfg, ops, rev, NamespaceKey(name)))
      && (NamespaceKey(name) in r.definitions ==>
            LastChange(cfg, ops, rev, NamespaceKey(name)) == Some(r.definitions[NamespaceKey(name)]))
      && (name in r.namespacesDeleted <==>
          HasNamespaceDeletion(cfg, ops, rev, name) && !HasChange(cfg, ops, rev, NamespaceKey(name)))
  {
    if ops != [] {
      var front, op, key := ops[..|ops| - 1], ops[|ops| - 1], NamespaceKey(name);
      NamespaceNormalForm(cfg, front, rev, name);
      LastOp(ops);
      StepRecords(cfg, ops);
      assert HasChange(cfg, ops, rev, key) <==> HasChange(cfg, front, rev, key) || ChangeOf(cfg, op, rev, key);
      assert HasNamespaceDeletion(cfg, ops, rev, name) <==>
             HasNamespaceDeletion(cfg, front, rev, name) || NamespaceDeletion(cfg, op, rev, name);
    }
  }

  lemma {:induction false} CaveatNormalForm(cfg: Config, ops: seq<Op>, rev: int, name: string)
    requires AllFine(cfg, ops)
    ensures
      var r := RecordAt(Fold(cfg, ops), rev);
      && (CaveatKey(name) in r.definitions <==> HasChange(cfg, ops, rev, CaveatKey(name)))
      && (CaveatKey(name) in r.definitions ==>
            LastChange(cfg, ops, rev, CaveatKey(name)) == Some(r.definitions[CaveatKey(name)]))
      && (name in r.caveatsDeleted <==>
          HasCaveatDeletion(cfg, ops, rev, name) && !HasChange(cfg, ops, rev, CaveatKey(name)))
  {
    if ops != [] {
      var front, op, key := ops[..|ops| - 1], ops[|ops| - 1], CaveatKey(name);
      CaveatNormalForm(cfg, front, rev, name);
      LastOp(ops);
      StepRecords(cfg, ops);
      assert HasChange(cfg, ops, rev, key) <==> HasChange(cfg, front, rev, key) || ChangeOf(cfg, op, rev, key);
      assert HasCaveatDeletion(cfg, ops, rev, name) <==>
             HasCaveatDeletion(cfg, front, rev, name) || CaveatDeletion(cfg, op, rev, name);
    }
  }

  lemma {:induction false} RevisionNormalForm(cfg: Config, ops: seq<Op>, rev: int)
    requires AllFine(cfg, ops)
    ensures rev in Fold(cfg, ops).records <==> Mentions(cfg, ops, rev)
  {
    if ops != [] {
      RevisionNormalForm(cfg, ops[..|ops| - 1], rev);
      LastOp(ops);
      StepRecords(cfg, ops);
    }
  }

  /** The two records name the same relationships and definitions as touched, changed or deleted. */
  ghost predicate SameShape(a: Record, b: Record) {
    && a.touches.Keys == b.touches.Keys
    && a.deletes.Keys == b.deletes.Keys
    && a.definitions.Keys == b.definitions.Keys
    && a.namespacesDeleted == b.namespacesDeleted
    && a.caveatsDeleted == b.caveatsDeleted
  }

  /** Tracker is order-independent: any permutation of a history gives the same revisions, and at
      each revision the same touched, deleted and changed names; touched and deleted are disjoint. */
  lemma {:induction false} OrderIndependent(cfg: Config, ops1: seq<Op>, ops2: seq<Op>, rev: int)
    requires multiset(ops1) == multiset(ops2)
    requires AllFine(cfg, ops1) && AllFine(cfg, ops2)
    ensures rev in Fold(cfg, ops1).records <==> rev in Fold(cfg, ops2).records
    ensures SameShape(RecordAt(Fold(cfg, ops1), rev), RecordAt(Fold(cfg, ops2), rev))
    ensures RecordAt(Fold(cfg, ops1), rev).touches.Keys !! RecordAt(Fold(cfg, ops1), rev).deletes.Keys
  {
    var a, b := RecordAt(Fold(cfg, ops1), rev), RecordAt(Fold(cfg, ops2), rev);
    assert forall op :: op in ops1 <==> op in multiset(ops1);
    assert forall op :: op in ops2 <==> op in multiset(ops2);
    RevisionNormalForm(cfg, ops1, rev);
    RevisionNormalForm(cfg, ops2, rev);
    forall key
      ensures key in a.touches <==> key in b.touches
      ensures key in a.deletes <==> key in b.deletes
      ensures !(key in a.touches && key in a.deletes)
    {
      RelationshipNormalForm(cfg, ops1, rev, key);
      RelationshipNormalForm(cfg, ops2, rev, key);
    }
    forall name
      ensures NamespaceKey(name) in a.definitions <==> NamespaceKey(name) in b.definitions
      ensures name in a.namespacesDeleted <==> name in b.namespacesDeleted
    {
      NamespaceNormalForm(cfg, ops1, rev, name);
      NamespaceNormalForm(cfg, ops2, rev, name);
    }
    forall name
      ensures CaveatKey(name) in a.definitions <==> CaveatKey(name) in b.definitions
      ensures name in a.caveatsDeleted <==> name in b.caveatsDeleted
    {
      CaveatNormalForm(cfg, ops1, rev, name);
      CaveatNormalForm(cfg, ops2, rev, name);
    }
    forall key: DefinitionKey
      ensures key in a.definitions <==> key in b.definitions
    {
      match key
      case NamespaceKey(n) =>
      case CaveatKey(n) =>
    }
  }

  // ---- Incremental drain ----

  lemma ListsFront(a: seq<RevisionChanges>, m: map<int, Record>)
    requires Lists(a, m) && a != []
    ensures Lists(a[..|a| - 1], m - {a[|a| - 1].rev})
  {
    var last := a[|a| - 1].rev;
    forall r | r in m - {last}
      ensures HasRevision(a[..|a| - 1], r)
    {
      assert HasRevision(a, r);
      var i :| 0 <= i < |a| && a[i].rev == r;
      assert a[..|a| - 1][i].rev == r;
    }
  }

  lemma ListsLast(a: seq<RevisionChanges>, b: seq<RevisionChanges>, m: map<int, Record>)
    requires Lists(a, m) && Lists(b, m) && a != []
    ensures b != [] && a[|a| - 1] == b[|b| - 1]
  {
    var x := a[|a| - 1];
    assert HasRevision(b, x.rev);
    var y := b[|b| - 1];
    assert HasRevision(a, y.rev);
  }

  lemma {:induction false} ListsUnique(a: seq<RevisionChanges>, b: seq<RevisionChanges>, m: map<int, Record>)
    requires Lists(a, m) && Lists(b, m)
    ensures a == b
    decreases |a|
  {
    if a != [] {
      ListsLast(a, b, m);
      ListsFront(a, m);
      ListsFront(b, m);
      ListsUnique(a[..|a| - 1], b[..|b| - 1], m - {a[|a| - 1].rev});
      assert a == a[..|a| - 1] + [a[|a| - 1]] && b == b[..|b| - 1] + [b[|b| - 1]];
    } else if b != [] {
      ListsLast(b, a, m);
    }
  }

  /** A history of additions and drains; a drain carries what it returned. */
  datatype Command = Add(op: Op) | Drain(bound: int, changes: seq<RevisionChanges>)

  function Run(cfg: Config, cmds: seq<Command>): Tracker {
    if cmds == [] then EMPTY_TRACKER
    else
      var t := Run(cfg, cmds[..|cmds| - 1]);
      match cmds[|cmds| - 1]
      case Add(op) => Apply(cfg, t, op).0
      case Drain(bound, _) => t.(records := AtOrAbove(t.records, bound))
  }

  /** Every drain returned what FilterAndRemoveRevisionChanges promises and no addition failed. */
  ghost predicate Legal(cfg: Config, cmds: seq<Command>) {
    cmds == [] ||
    (Legal(cfg, cmds[..|cmds| - 1]) &&
     var t := Run(cfg, cmds[..|cmds| - 1]);
     match cmds[|cmds| - 1]
     case Add(op) => Apply(cfg, t, op).1 == Fine
     case Drain(bound, changes) => Lists(changes, Below(t.records, bound)))
  }

  function Drained(cmds: seq<Command>): seq<RevisionChanges> {
    if cmds == [] then []
    else
      Drained(cmds[..|cmds| - 1]) +
      match cmds[|cmds| - 1]
      case Add(_) => []
      case Drain(_, changes) => changes
  }

  function Additions(cmds: seq<Command>): seq<Op> {
    if cmds == [] then []
    else
      Additions(cmds[..|cmds| - 1]) +
      match cmds[|cmds| - 1]
      case Add(op) => [op]
      case Drain(_, _) => []
  }

  /** No watched addition comes at or below a revision that was already drained. */
  predicate NoLateAddition(cfg: Config, cmds: seq<Command>) {
    cmds == [] ||
    (NoLateAddition(cfg, cmds[..|cmds| - 1]) &&
     match cmds[|cmds| - 1]
     case Add(op) => Watched(cfg, op) ==> AllBelow(Drained(cmds[..|cmds| - 1]), op.rev)
     case Drain(_, _) => true)
  }

  predicate AllBelow(changes: seq<RevisionChanges>, rev: int) {
    forall i :: 0 <= i < |changes| ==> changes[i].rev < rev
  }

  /** The undrained tracker holds exactly the drained part and the rest, and every drained
      revision lies below every remaining one. */
  ghost predicate Splits(whole: map<int, Record>, rest: map<int, Record>, out: seq<RevisionChanges>) {
    && Increasing(out)
    && (forall r :: r in rest ==> r in whole && whole[r] == rest[r] && AllBelow(out, r))
    && (forall i :: 0 <= i < |out| ==> out[i].rev in whole && whole[out[i].rev] == out[i].record)
    && (forall r :: r in whole ==> r in rest || HasRevision(out, r))
  }

  lemma {:induction false} DrainSplits(cfg: Config, cmds: seq<Command>)
    requires Legal(cfg, cmds) && NoLateAddition(cfg, cmds) && AllFine(cfg, Additions(cmds))
    ensures Splits(Fold(cfg, Additions(cmds)).records, Run(cfg, cmds).records, Drained(cmds))
  {
    if cmds != [] {
      var front := cmds[..|cmds| - 1];
      if cmds[|cmds| - 1].Add? {
        assert Additions(cmds)[..|Additions(front)|] == Additions(front);
        DrainSplits(cfg, front);
        AddSplits(cfg, cmds);
      } else {
        assert Additions(cmds) == Additions(front);
        DrainSplits(cfg, front);
        var last := cmds[|cmds| - 1];
        DrainStepSplits(Fold(cfg, Additions(front)).records, Run(cfg, front).records, Drained(front),
                        last.bound, last.changes);
      }
    }
  }

  lemma AddSplits(cfg: Config, cmds: seq<Command>)
    requires cmds != [] && cmds[|cmds| - 1].Add?
    requires Legal(cfg, cmds) && NoLateAddition(cfg, cmds) && AllFine(cfg, Additions(cmds))
    requires Splits(Fold(cfg, Additions(cmds[..|cmds| - 1])).records, Run(cfg, cmds[..|cmds| - 1]).records,
                    Drained(cmds[..|cmds| - 1]))
    ensures Splits(Fold(cfg, Additions(cmds)).records, Run(cfg, cmds).records, Drained(cmds))
  {
    var front, op := cmds[..|cmds| - 1], cmds[|cmds| - 1].op;
    var ops, t, out := Additions(front), Run(cfg, front), Drained(front);
    assert Additions(cmds) == ops + [op] && (ops + [op])[..|ops|] == ops;
    assert Drained(cmds) == out;
    StepRecords(cfg, ops + [op]);
    if Watched(cfg, op) {
      ApplyFine(cfg, t, op);
      AddStepSplits(Fold(cfg, ops), t, out, op);
    }
  }

  lemma AddStepSplits(u: Tracker, t: Tracker, out: seq<RevisionChanges>, op: Op)
    requires Splits(u.records, t.records, out) && AllBelow(out, op.rev)
    ensures Splits(u.records[op.rev := Merge(RecordAt(u, op.rev), op)],
                   t.records[op.rev := Merge(RecordAt(t, op.rev), op)], out)
  {
    assert !HasRevision(out, op.rev);
    assert RecordAt(u, op.rev) == RecordAt(t, op.rev);
  }

  lemma DrainStepSplits(whole: map<int, Record>, rest: map<int, Record>, out: seq<RevisionChanges>,
                        bound: int, changes: seq<RevisionChanges>)
    requires Splits(whole, rest, out) && Lists(changes, Below(rest, bound))
    ensures Splits(whole, AtOrAbove(rest, bound), out + changes)
  {
    forall r | r in whole && r !in AtOrAbove(rest, bound)
      ensures HasRevision(out + changes, r)
    {
      if HasRevision(out, r) {
        var i :| 0 <= i < |out| && out[i].rev == r;
        assert (out + changes)[i].rev == r;
      } else {
        assert r in Below(rest, bound);
        assert HasRevision(changes, r);
        var i :| 0 <= i < |changes| && changes[i].rev == r;
        assert (out + changes)[|out| + i].rev == r;
      }
    }
    assert forall i :: 0 <= i < |changes| ==> changes[i].rev in rest;
  }

  ghost predicate DeliveredFrom(changes: seq<RevisionChanges>, from: nat, rev: int) {
    exists i :: from <= i < |changes| && changes[i].rev == rev
  }

  lemma DeliveredAppend(a: seq<RevisionChanges>, b: seq<RevisionChanges>, from: nat, rev: int)
    requires from <= |a|
    requires DeliveredFrom(a, from, rev) || HasRevision(b, rev)
    ensures DeliveredFrom(a + b, from, rev)
  {
    if DeliveredFrom(a, from, rev) {
      var i :| from <= i < |a| && a[i].rev == rev;
      assert (a + b)[i].rev == rev;
    } else {
      var i :| 0 <= i < |b| && b[i].rev == rev;
      assert (a + b)[|a| + i].rev == rev;
    }
  }

  lemma {:induction false} DrainedGrows(cmds: seq<Command>, n: nat)
    requires n <= |cmds|
    ensures Drained(cmds[..n]) <= Drained(cmds)
  {
    if n < |cmds| {
      DrainedGrows(cmds[..|cmds| - 1], n);
      assert cmds[..|cmds| - 1][..n] == cmds[..n];
    } else {
      assert cmds[..n] == cmds;
    }
  }

  /** A held record stays held until a later drain delivers it. */
  lemma {:induction false} HeldOrDrained(cfg: Config, cmds: seq<Command>, n: nat, rev: int)
    requires n <= |cmds| && Legal(cfg, cmds)
    requires rev in Run(cfg, cmds[..n]).records
    ensures rev in Run(cfg, cmds).records || DeliveredFrom(Drained(cmds), |Drained(cmds[..n])|, rev)
  {
    if n == |cmds| {
      assert cmds[..n] == cmds;
    } else {
      var front, from := cmds[..|cmds| - 1], |Drained(cmds[..n])|;
      assert front[..n] == cmds[..n];
      HeldOrDrained(cfg, front, n, rev);
      DrainedGrows(front, n);
      var t := Run(cfg, front);
      match cmds[|cmds| - 1]
      case Add(op) =>
        assert Drained(cmds) == Drained(front);
        if Watched(cfg, op) {
          ApplyFine(cfg, t, op);
        }
      case Drain(bound, changes) =>
        if rev in t.records && rev < bound {
          assert rev in Below(t.records, bound);
          DeliveredAppend(Drained(front), changes, from, rev);
        } else if rev !in t.records {
          DeliveredAppend(Drained(front), changes, from, rev);
        }
    }
  }

  /** The first late addition of a history that has one. */
  lemma {:induction false} FindLate(cfg: Config, cmds: seq<Command>) returns (n: nat)
    requires !NoLateAddition(cfg, cmds)
    ensures n < |cmds| && cmds[n].Add? && Watched(cfg, cmds[n].op)
    ensures !AllBelow(Drained(cmds[..n]), cmds[n].op.rev)
  {
    if !NoLateAddition(cfg, cmds[..|cmds| - 1]) {
      n := FindLate(cfg, cmds[..|cmds| - 1]);
      assert cmds[..|cmds| - 1][..n] == cmds[..n];
    } else {
      n := |cmds| - 1;
    }
  }

  lemma {:induction false} LegalPrefix(cfg: Config, cmds: seq<Command>, n: nat)
    requires n <= |cmds| && Legal(cfg, cmds)
    ensures Legal(cfg, cmds[..n])
  {
    if n < |cmds| {
      LegalPrefix(cfg, cmds[..|cmds| - 1], n);
      assert cmds[..|cmds| - 1][..n] == cmds[..n];
    } else {
      assert cmds[..n] == cmds;
    }
  }

  /** Incremental drain equals one-shot: the drained lists followed by what is left are what a
      single AsRevisionChanges of all additions would list, exactly when no addition came at or
      below an already drained revision. */
  lemma {:induction false} DrainEqualsOneShot(cfg: Config, cmds: seq<Command>,
                                              rest: seq<RevisionChanges>, all: seq<RevisionChanges>)
    requires Legal(cfg, cmds) && AllFine(cfg, Additions(cmds))
    requires Lists(rest, Run(cfg, cmds).records)
    requires Lists(all, Fold(cfg, Additions(cmds)).records)
    ensures Drained(cmds) + rest == all <==> NoLateAddition(cfg, cmds)
  {
    if NoLateAddition(cfg, cmds) {
      DrainSplits(cfg, cmds);
      SplitsLists(Fold(cfg, Additions(cmds)).records, Run(cfg, cmds).records, Drained(cmds), rest);
      ListsUnique(Drained(cmds) + rest, all, Fold(cfg, Additions(cmds)).records);
    } else {
      var n := FindLate(cfg, cmds);
      LateIsOutOfOrder(cfg, cmds, n, rest);
    }
  }

  lemma SplitsLists(whole: map<int, Record>, held: map<int, Record>,
                    out: seq<RevisionChanges>, rest: seq<RevisionChanges>)
    requires Splits(whole, held, out) && Lists(rest, held)
    ensures Lists(out + rest, whole)
  {
    forall r | r in whole
      ensures HasRevision(out + rest, r)
    {
      if r in held {
        assert HasRevision(rest, r);
        var i :| 0 <= i < |rest| && rest[i].rev == r;
        assert (out + rest)[|out| + i].rev == r;
      } else {
        var i :| 0 <= i < |out| && out[i].rev == r;
        assert (out + rest)[i].rev == r;
      }
    }
    assert forall i :: 0 <= i < |rest| ==> rest[i].rev in held;
  }

  lemma LateIsOutOfOrder(cfg: Config, cmds: seq<Command>, n: nat, rest: seq<RevisionChanges>)
    requires Legal(cfg, cmds) && Lists(rest, Run(cfg, cmds).records)
    requires n < |cmds| && cmds[n].Add? && Watched(cfg, cmds[n].op)
    requires !AllBelow(Drained(cmds[..n]), cmds[n].op.rev)
    ensures !Increasing(Drained(cmds) + rest)
  {
    var op := cmds[n].op;
    LegalPrefix(cfg, cmds, n + 1);
    assert cmds[..n + 1][..n] == cmds[..n];
    ApplyFine(cfg, Run(cfg, cmds[..n]), op);
    assert Drained(cmds[..n + 1]) == Drained(cmds[..n]);
    HeldOrDrained(cfg, cmds, n + 1, op.rev);
    DrainedGrows(cmds, n);
    DeliveredAppend(Drained(cmds), rest, |Drained(cmds[..n])|, op.rev);
    var out, early := Drained(cmds) + rest, Drained(cmds[..n]);
    var i :| 0 <= i < |early| && early[i].rev >= op.rev;
    var j :| |early| <= j < |out| && out[j].rev == op.rev;
    assert out[i] == early[i];
  }
}
