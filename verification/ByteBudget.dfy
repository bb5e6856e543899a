/** The byte budget of the Changes tracker: how the counter relates to the bytes it retains
    (internal/datastore/common/changes.go:66-140,239-289). */
module ByteBudget {
  import opened SqlClauses
  import opened ChangeTracker
  import opened TrackerLaws

  // ---- Sums over maps ----

  ghost function Sum<K>(m: map<K, nat>): nat
    decreases |m|
  {
    if m == map[] then 0
    else
      var k :| k in m;
      m[k] + Sum(m - {k})
  }

  lemma {:induction false} SumRemove<K>(m: map<K, nat>, k: K)
    requires k in m
    ensures Sum(m) == m[k] + Sum(m - {k})
    decreases |m|
  {
    var p :| p in m && Sum(m) == m[p] + Sum(m - {p});
    if p != k {
      SumRemove(m - {p}, k);
      SumRemove(m - {k}, p);
      assert m - {p} - {k} == m - {k} - {p};
    }
  }

  function SizeAt<K>(m: map<K, nat>, k: K): nat {
    if k in m then m[k] else 0
  }

  lemma SumPut<K>(m: map<K, nat>, k: K, v: nat)
    ensures Sum(m[k := v]) == Sum(m) - SizeAt(m, k) + v
  {
    SumRemove(m[k := v], k);
    assert m[k := v] - {k} == m - {k};
    if k in m {
      SumRemove(m, k);
    } else {
      assert m - {k} == m;
    }
  }

  lemma SumDrop<K>(m: map<K, nat>, k: K)
    ensures Sum(m - {k}) == Sum(m) - SizeAt(m, k)
  {
    if k in m {
      SumRemove(m, k);
    } else {
      assert m - {k} == m;
    }
  }

  // ---- Retained bytes ----

  function RowSizes(m: map<RelationshipKey, Row>): map<RelationshipKey, nat> {
    map k | k in m :: m[k].size
  }

  function DefinitionSizes(m: map<DefinitionKey, Definition>): map<DefinitionKey, nat> {
    map k | k in m :: m[k].size
  }

  ghost function RecordBytes(r: Record): nat {
    Sum(RowSizes(r.touches)) + Sum(RowSizes(r.deletes)) + Sum(DefinitionSizes(r.definitions))
  }

  ghost function Weights(records: map<int, Record>): map<int, nat> {
    map r | r in records :: RecordBytes(records[r])
  }

  /** The encoded size of everything the tracker still holds. */
  ghost function Retained(records: map<int, Record>): nat {
    Sum(Weights(records))
  }

  lemma RetainedPut(t: Tracker, rev: int, r: Record)
    ensures Retained(t.records[rev := r]) == Retained(t.records) - RecordBytes(RecordAt(t, rev)) + RecordBytes(r)
  {
    SumPut(Weights(t.records), rev, RecordBytes(r));
    assert Weights(t.records[rev := r]) == Weights(t.records)[rev := RecordBytes(r)];
    assert Sum(RowSizes(map[])) == 0 && Sum(DefinitionSizes(map[])) == 0;
  }

  lemma PutRow(m: map<RelationshipKey, Row>, row: Row)
    ensures Sum(RowSizes(m[row.key := row])) == Sum(RowSizes(m)) - SizeAt(RowSizes(m), row.key) + row.size
    ensures Sum(RowSizes(m - {row.key})) == Sum(RowSizes(m)) - SizeAt(RowSizes(m), row.key)
  {
    SumPut(RowSizes(m), row.key, row.size);
    assert RowSizes(m[row.key := row]) == RowSizes(m)[row.key := row.size];
    SumDrop(RowSizes(m), row.key);
    assert RowSizes(m - {row.key}) == RowSizes(m) - {row.key};
  }

  lemma PutDefinition(m: map<DefinitionKey, Definition>, d: Definition)
    ensures Sum(DefinitionSizes(m[KeyOf(d) := d])) ==
            Sum(DefinitionSizes(m)) - SizeAt(DefinitionSizes(m), KeyOf(d)) + d.size
  {
    SumPut(DefinitionSizes(m), KeyOf(d), d.size);
    assert DefinitionSizes(m[KeyOf(d) := d]) == DefinitionSizes(m)[KeyOf(d) := d.size];
  }

  // ---- The exact accounting of one call ----

  /** How far the counter lies above the retained bytes. */
  ghost function Slack(t: Tracker): int {
    t.bytes - Retained(t.records)
  }

  /** What one call adds to the slack: the size of an overwritten entry that is not given back,
      less the size of a namespace that is given back although it stays. */
  function Gain(r: Record, op: Op): int {
    match op
    case Touch(_, row) => SizeAt(RowSizes(r.touches), row.key)
    case Delete(_, row) => if row.key in r.touches then 0 else SizeAt(RowSizes(r.deletes), row.key)
    case Changed(_, d) =>
      SizeAt(DefinitionSizes(r.definitions), KeyOf(d)) - SizeAt(DefinitionSizes(r.definitions), NamespaceKey(d.name))
    case _ => 0
  }

  /** What a successful call adds to the counter. */
  function Counted(r: Record, op: Op): int {
    match op
    case Touch(_, row) => row.size - SizeAt(RowSizes(r.deletes), row.key)
    case Delete(_, row) => if row.key in r.touches then 0 else row.size
    case Changed(_, d) => d.size - SizeAt(DefinitionSizes(r.definitions), NamespaceKey(d.name))
    case _ => 0
  }

  lemma CallBytes(cfg: Config, t: Tracker, op: Op)
    requires cfg.maxBytes > 0 && Watched(cfg, op) && Apply(cfg, t, op).1 == Fine
    ensures Apply(cfg, t, op).0.bytes == t.bytes + Counted(RecordAt(t, op.rev), op)
  {
  }

  /** When a call fails, and what a call that exceeds the budget leaves behind: with a limit of zero
      or for unwatched content nothing ever fails; otherwise, while the counter does not undercount
      and is within the limit, the call fails iff what it counts does not fit, and it has recorded
      its change all the same. */
  lemma FailsExactly(cfg: Config, t: Tracker, op: Op)
    requires cfg.maxBytes > 0 ==> Retained(t.records) <= t.bytes <= cfg.maxBytes
    ensures
      var watched := if op.Touch? || op.Delete? then cfg.relationships else cfg.schema;
      var (t', out) := Apply(cfg, t, op);
      var r := RecordAt(t, op.rev);
      && (out == Fine <==> cfg.maxBytes == 0 || !watched || t.bytes + Counted(r, op) <= cfg.maxBytes)
      && (out != Fine ==> out == Exceeded)
      && (watched ==> t'.records == t.records[op.rev := Merge(r, op)])
      && (!watched ==> t' == t)
      && t'.bytes == if watched && cfg.maxBytes > 0 then t.bytes + Counted(r, op) else t.bytes
  {
    if cfg.maxBytes > 0 {
      NoUnderflow(cfg, t, op);
    }
  }

  lemma MergeBytes(r: Record, op: Op, before: int, after: int)
    requires op.Touch? || op.Delete? || op.Changed?
    requires after - before == Counted(r, op)
    ensures after - RecordBytes(Merge(r, op)) == before - RecordBytes(r) + Gain(r, op)
  {
    match op
    case Touch(_, row) =>
      PutRow(r.touches, row);
      PutRow(r.deletes, row);
    case Delete(_, row) =>
      PutRow(r.deletes, row);
    case Changed(_, d) =>
      PutDefinition(r.definitions, d);
  }

  /** Exact accounting: every watched call that does not fail changes the slack by its Gain. */
  lemma CallAccounting(cfg: Config, t: Tracker, op: Op)
    requires cfg.maxBytes > 0 && Watched(cfg, op) && Apply(cfg, t, op).1 == Fine
    ensures Slack(Apply(cfg, t, op).0) == Slack(t) + Gain(RecordAt(t, op.rev), op)
  {
    var r, t' := RecordAt(t, op.rev), Apply(cfg, t, op).0;
    ApplyFine(cfg, t, op);
    CallBytes(cfg, t, op);
    RetainedPut(t, op.rev, Merge(r, op));
    if op.Touch? || op.Delete? || op.Changed? {
      MergeBytes(r, op, t.bytes, t'.bytes);
    }
  }

  /** A changed caveat keeps the counter from falling behind exactly when the namespace of the same
      name changed at that revision is no larger than the caveat entry being replaced. */
  lemma CaveatAccountingExact(cfg: Config, t: Tracker, rev: int, name: string, config: int, size: nat)
    requires cfg.maxBytes > 0 && cfg.schema
    requires Apply(cfg, t, Changed(rev, CaveatDefinition(name, config, size))).1 == Fine
    ensures
      var sizes := DefinitionSizes(RecordAt(t, rev).definitions);
      Slack(Apply(cfg, t, Changed(rev, CaveatDefinition(name, config, size))).0) >= Slack(t) <==>
      SizeAt(sizes, NamespaceKey(name)) <= SizeAt(sizes, CaveatKey(name))
  {
    CallAccounting(cfg, t, Changed(rev, CaveatDefinition(name, config, size)));
  }

  // ---- Whole histories ----

  lemma {:induction false} SumMonotone<K>(m: map<K, nat>, kept: map<K, nat>)
    requires kept.Keys <= m.Keys && forall k :: k in kept ==> kept[k] == m[k]
    ensures Sum(kept) <= Sum(m)
    decreases |kept|
  {
    if kept != map[] {
      var k :| k in kept;
      SumRemove(kept, k);
      SumRemove(m, k);
      SumMonotone(m - {k}, kept - {k});
    }
  }

  /** The branch of line 272 that gives back another entry's size. */
  predicate SharesName(t: Tracker, op: Op) {
    && op.Changed? && op.def.CaveatDefinition?
    && NamespaceKey(op.def.name) in RecordAt(t, op.rev).definitions
  }

  predicate NoSharedName(cfg: Config, cmds: seq<Command>) {
    cmds == [] ||
    (NoSharedName(cfg, cmds[..|cmds| - 1]) &&
     match cmds[|cmds| - 1]
     case Add(op) => !SharesName(Run(cfg, cmds[..|cmds| - 1]), op)
     case Drain(_, _) => true)
  }

  lemma GainNonnegative(t: Tracker, op: Op)
    requires !SharesName(t, op)
    ensures Gain(RecordAt(t, op.rev), op) >= 0
  {
  }

  /** No watched addition loses bytes; CaveatAccountingExact says when one does. */
  predicate NoLoss(cfg: Config, cmds: seq<Command>) {
    cmds == [] ||
    (NoLoss(cfg, cmds[..|cmds| - 1]) &&
     match cmds[|cmds| - 1]
     case Add(op) => Watched(cfg, op) ==> Gain(RecordAt(Run(cfg, cmds[..|cmds| - 1]), op.rev), op) >= 0
     case Drain(_, _) => true)
  }

  /** It is enough that no caveat shares the name of a namespace changed at the same revision. */
  lemma {:induction false} NoSharedNameSuffices(cfg: Config, cmds: seq<Command>)
    requires NoSharedName(cfg, cmds)
    ensures NoLoss(cfg, cmds)
  {
    if cmds != [] {
      NoSharedNameSuffices(cfg, cmds[..|cmds| - 1]);
      if cmds[|cmds| - 1].Add? {
        GainNonnegative(Run(cfg, cmds[..|cmds| - 1]), cmds[|cmds| - 1].op);
      }
    }
  }

  /** The gains of a history's additions and the bytes its drains release without giving them back. */
  ghost function Balance(cfg: Config, cmds: seq<Command>): int {
    if cmds == [] then 0
    else
      var t := Run(cfg, cmds[..|cmds| - 1]);
      Balance(cfg, cmds[..|cmds| - 1]) +
      match cmds[|cmds| - 1]
      case Add(op) => if Watched(cfg, op) then Gain(RecordAt(t, op.rev), op) else 0
      case Drain(bound, _) => Retained(t.records) - Retained(AtOrAbove(t.records, bound))
  }

  /** Conservation: over any additions and drains in which no call failed, the distance between the
      counter and the retained bytes is exactly the balance. */
  lemma {:induction false} SlackIsBalance(cfg: Config, cmds: seq<Command>)
    requires cfg.maxBytes > 0 && Legal(cfg, cmds)
    ensures Slack(Run(cfg, cmds)) == Balance(cfg, cmds)
  {
    if cmds == [] {
      assert Weights(map[]) == map[];
    } else {
      var front := cmds[..|cmds| - 1];
      SlackIsBalance(cfg, front);
      if cmds[|cmds| - 1].Add? && Watched(cfg, cmds[|cmds| - 1].op) {
        CallAccounting(cfg, Run(cfg, front), cmds[|cmds| - 1].op);
      }
    }
  }

  /** Byte budget is sound: over any additions and drains in which no call failed and no addition
      loses bytes, the counter never undercounts what is retained, both stay within the maximum,
      and no next call, whatever it is, can underflow. */
  lemma {:induction false} BudgetSound(cfg: Config, cmds: seq<Command>)
    requires cfg.maxBytes > 0 && Legal(cfg, cmds) && NoLoss(cfg, cmds)
    ensures Retained(Run(cfg, cmds).records) <= Run(cfg, cmds).bytes <= cfg.maxBytes
    ensures forall op :: Apply(cfg, Run(cfg, cmds), op).1 != Underflow
  {
    if cmds == [] {
      assert Weights(map[]) == map[];
    } else {
      var front := cmds[..|cmds| - 1];
      BudgetSound(cfg, front);
      match cmds[|cmds| - 1]
      case Add(op) =>
        AddWithinBudget(cfg, Run(cfg, front), op);
      case Drain(bound, _) =>
        var t := Run(cfg, front);
        SumMonotone(Weights(t.records), Weights(AtOrAbove(t.records, bound)));
    }
    forall op
      ensures Apply(cfg, Run(cfg, cmds), op).1 != Underflow
    {
      NoUnderflow(cfg, Run(cfg, cmds), op);
    }
  }

  lemma AddWithinBudget(cfg: Config, t: Tracker, op: Op)
    requires cfg.maxBytes > 0 && Retained(t.records) <= t.bytes <= cfg.maxBytes
    requires Apply(cfg, t, op).1 == Fine && (Watched(cfg, op) ==> Gain(RecordAt(t, op.rev), op) >= 0)
    ensures Retained(Apply(cfg, t, op).0.records) <= Apply(cfg, t, op).0.bytes <= cfg.maxBytes
  {
    if Watched(cfg, op) {
      CallAccounting(cfg, t, op);
    }
  }

  /** An entry the tracker holds is part of what it retains. */
  lemma HeldEntry(t: Tracker, rev: int, size: nat)
    requires (exists k :: k in RecordAt(t, rev).deletes && RecordAt(t, rev).deletes[k].size == size) ||
             (exists d :: d in RecordAt(t, rev).definitions && RecordAt(t, rev).definitions[d].size == size)
    ensures size <= Retained(t.records)
  {
    var r := RecordAt(t, rev);
    SumRemove(Weights(t.records), rev);
    if k :| k in r.deletes && r.deletes[k].size == size {
      SumRemove(RowSizes(r.deletes), k);
    } else {
      var d :| d in r.definitions && r.definitions[d].size == size;
      SumRemove(DefinitionSizes(r.definitions), d);
    }
  }

  /** While the counter does not undercount, no call at all can reach the underflow branch. */
  lemma NoUnderflow(cfg: Config, t: Tracker, op: Op)
    requires cfg.maxBytes > 0 && Retained(t.records) <= t.bytes
    ensures Apply(cfg, t, op).1 != Underflow
  {
    var r := RecordAt(t, op.rev);
    match op
    case Touch(rev, row) =>
      if row.key in r.deletes {
        HeldEntry(t, rev, r.deletes[row.key].size);
      }
    case Changed(rev, d) =>
      if ReleasedKey(d) in r.definitions {
        HeldEntry(t, rev, r.definitions[ReleasedKey(d)].size);
      }
    case _ =>
  }

  /** Without that condition the counter does undercount, and the underflow branch is reached: a
      namespace of size 5 followed twice by a caveat of the same name and size 1. */
  lemma SharedNameUnderflows()
    ensures
      var cfg := Config(false, true, 100);
      var ns, caveat := Changed(1, NamespaceDefinition("x", 0, 5)), Changed(1, CaveatDefinition("x", 0, 1));
      && Fold(cfg, [ns, caveat]).bytes == 1
      && Apply(cfg, Fold(cfg, [ns, caveat]), caveat).1 == Underflow
  {
    var cfg := Config(false, true, 100);
    var ns, caveat := Changed(1, NamespaceDefinition("x", 0, 5)), Changed(1, CaveatDefinition("x", 0, 1));
    assert [ns, caveat][..1] == [ns] && [ns][..0] == [];
    var t1 := Apply(cfg, EMPTY_TRACKER, ns).0;
    assert Fold(cfg, [ns]) == t1;
    assert t1.bytes == 5 && NamespaceKey("x") in t1.records[1].definitions;
  }
}
