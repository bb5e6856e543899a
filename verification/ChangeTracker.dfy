/** The Changes tracker: per-revision merging of mutations, incremental drain and the byte
    budget (internal/datastore/common/changes.go). Revisions are integers and are their own keys,
    as with TimestampIDKeyFunc. */
module ChangeTracker {
  import opened SqlClauses

  datatype Definition =
    | NamespaceDefinition(name: string, config: int, size: nat)
    | CaveatDefinition(name: string, config: int, size: nat)

  /** A key of definitionsChanged: the prefixes n$ and c$ keep the two kinds apart. */
  datatype DefinitionKey = NamespaceKey(name: string) | CaveatKey(name: string)

  function KeyOf(d: Definition): DefinitionKey {
    match d
    case NamespaceDefinition(n, _, _) => NamespaceKey(n)
    case CaveatDefinition(n, _, _) => CaveatKey(n)
  }

  datatype Record = Record(
    touches: map<RelationshipKey, Row>,
    deletes: map<RelationshipKey, Row>,
    definitions: map<DefinitionKey, Definition>,
    namespacesDeleted: set<string>,
    caveatsDeleted: set<string>)

  const EMPTY_RECORD := Record(map[], map[], map[], {}, {})

  /** The watched content and the byte limit; a limit of zero switches the budget off. */
  datatype Config = Config(relationships: bool, schema: bool, maxBytes: nat)

  datatype Tracker = Tracker(records: map<int, Record>, bytes: int)

  const EMPTY_TRACKER := Tracker(map[], 0)

  datatype Outcome = Fine | Underflow | Exceeded

  datatype Op =
    | Touch(rev: int, row: Row)
    | Delete(rev: int, row: Row)
    | DeletedNamespace(rev: int, name: string)
    | DeletedCaveat(rev: int, name: string)
    | Changed(rev: int, def: Definition)

  predicate Watched(cfg: Config, op: Op) {
    if op.Touch? || op.Delete? then cfg.relationships else cfg.schema
  }

  // ---- Specification ----

  /** adjustByteSize: the new count and whether the call fails. */
  function Adjust(cfg: Config, bytes: int, delta: int): (int, Outcome) {
    if cfg.maxBytes == 0 then (bytes, Fine)
    else
      var n := bytes + delta;
      (n, if n < 0 then Underflow else if n > cfg.maxBytes then Exceeded else Fine)
  }

  function RecordAt(t: Tracker, rev: int): Record {
    if rev in t.records then t.records[rev] else EMPTY_RECORD
  }

  function Put(t: Tracker, rev: int, r: Record, bytes: int): Tracker {
    Tracker(t.records[rev := r], bytes)
  }

  function ApplyTouch(cfg: Config, t: Tracker, rev: int, row: Row): (Tracker, Outcome) {
    var r := RecordAt(t, rev);
    var (bytes1, out1) :=
      if row.key in r.deletes then Adjust(cfg, t.bytes, 0 - r.deletes[row.key].size) else (t.bytes, Fine);
    var r1 := r.(deletes := r.deletes - {row.key});
    if out1 != Fine then (Put(t, rev, r1, bytes1), out1)
    else
      var (bytes2, out2) := Adjust(cfg, bytes1, row.size);
      (Put(t, rev, r1.(touches := r1.touches[row.key := row]), bytes2), out2)
  }

  function ApplyDelete(cfg: Config, t: Tracker, rev: int, row: Row): (Tracker, Outcome) {
    var r := RecordAt(t, rev);
    if row.key in r.touches then (Put(t, rev, r, t.bytes), Fine)
    else
      var (bytes, out) := Adjust(cfg, t.bytes, row.size);
      (Put(t, rev, r.(deletes := r.deletes[row.key := row]), bytes), out)
  }

  /** The entry whose size a changed definition gives back. For a caveat this is the namespace of
      the same name (line 272), not the caveat's own earlier entry. */
  function ReleasedKey(d: Definition): DefinitionKey {
    NamespaceKey(d.name)
  }

  function Undeleted(r: Record, d: Definition): Record {
    match d
    case NamespaceDefinition(n, _, _) => r.(namespacesDeleted := r.namespacesDeleted - {n})
    case CaveatDefinition(n, _, _) => r.(caveatsDeleted := r.caveatsDeleted - {n})
  }

  function ApplyChanged(cfg: Config, t: Tracker, rev: int, d: Definition): (Tracker, Outcome) {
    var r := Undeleted(RecordAt(t, rev), d);
    var (bytes1, out1) :=
      if ReleasedKey(d) in r.definitions then Adjust(cfg, t.bytes, 0 - r.definitions[ReleasedKey(d)].size)
      else (t.bytes, Fine);
    if out1 != Fine then (Put(t, rev, r, bytes1), out1)
    else
      var (bytes2, out2) := Adjust(cfg, bytes1, d.size);
      (Put(t, rev, r.(definitions := r.definitions[KeyOf(d) := d]), bytes2), out2)
  }

  function Apply(cfg: Config, t: Tracker, op: Op): (Tracker, Outcome) {
    if !Watched(cfg, op) then (t, Fine)
    else
      match op
      case Touch(rev, row) => ApplyTouch(cfg, t, rev, row)
      case Delete(rev, row) => ApplyDelete(cfg, t, rev, row)
      case DeletedNamespace(rev, n) =>
        var r := RecordAt(t, rev);
        (Put(t, rev, if NamespaceKey(n) in r.definitions then r
                     else r.(namespacesDeleted := r.namespacesDeleted + {n}), t.bytes), Fine)
      case DeletedCaveat(rev, n) =>
        var r := RecordAt(t, rev);
        (Put(t, rev, if CaveatKey(n) in r.definitions then r
                     else r.(caveatsDeleted := r.caveatsDeleted + {n}), t.bytes), Fine)
      case Changed(rev, d) => ApplyChanged(cfg, t, rev, d)
  }

  /** The record after an operation that did not fail. */
  function Merge(r: Record, op: Op): Record {
    match op
    case Touch(_, row) => r.(deletes := r.deletes - {row.key}, touches := r.touches[row.key := row])
    case Delete(_, row) => if row.key in r.touches then r else r.(deletes := r.deletes[row.key := row])
    case DeletedNamespace(_, n) =>
      if NamespaceKey(n) in r.definitions then r else r.(namespacesDeleted := r.namespacesDeleted + {n})
    case DeletedCaveat(_, n) =>
      if CaveatKey(n) in r.definitions then r else r.(caveatsDeleted := r.caveatsDeleted + {n})
    case Changed(_, d) => var u := Undeleted(r, d); u.(definitions := u.definitions[KeyOf(d) := d])
  }

  lemma ApplyFine(cfg: Config, t: Tracker, op: Op)
    requires Watched(cfg, op) && Apply(cfg, t, op).1 == Fine
    ensures Apply(cfg, t, op).0.records == t.records[op.rev := Merge(RecordAt(t, op.rev), op)]
  {
  }

  /** One emitted change: AsRevisionChanges turns a record into one entry. The order of updates
      inside an entry is Go's map order and is not modelled. */
  datatype RevisionChanges = RevisionChanges(rev: int, record: Record)

  function Below(records: map<int, Record>, bound: int): map<int, Record> {
    map r | r in records && r < bound :: records[r]
  }

  function AtOrAbove(records: map<int, Record>, bound: int): map<int, Record> {
    map r | r in records && r >= bound :: records[r]
  }

  ghost predicate Increasing(changes: seq<RevisionChanges>) {
    forall i, j :: 0 <= i < j < |changes| ==> changes[i].rev < changes[j].rev
  }

  ghost predicate HasRevision(changes: seq<RevisionChanges>, rev: int) {
    exists i :: 0 <= i < |changes| && changes[i].rev == rev
  }

  /** `changes` lists every record once, in increasing revision order. */
  ghost predicate Lists(changes: seq<RevisionChanges>, records: map<int, Record>) {
    && Increasing(changes)
    && (forall i :: 0 <= i < |changes| ==>
          changes[i].rev in records && records[changes[i].rev] == changes[i].record)
    && (forall r :: r in records ==> HasRevision(changes, r))
  }

  lemma SameItems(a: map<int, Record>, b: map<int, Record>)
    requires forall e: (int, Record) :: e in a.Items <==> e in b.Items
    ensures a == b
  {
    forall r
      ensures r in a <==> r in b
      ensures r in a ==> a[r] == b[r]
    {
      assert r in a ==> (r, a[r]) in a.Items;
      assert r in b ==> (r, b[r]) in b.Items;
    }
  }

  lemma InsertedMembers(keys: seq<int>, n: nat, r: int)
    requires n <= |keys|
    ensures forall x :: x in keys[..n] + [r] + keys[n..] <==> x in keys || x == r
  {
    assert keys == keys[..n] + keys[n..];
  }

  lemma InsertedSorted(keys: seq<int>, n: nat, r: int)
    requires n <= |keys| && forall i, j :: 0 <= i < j < |keys| ==> keys[i] < keys[j]
    requires (n > 0 ==> keys[n - 1] < r) && (n < |keys| ==> keys[n] > r)
    ensures
      var s := keys[..n] + [r] + keys[n..];
      forall i, j :: 0 <= i < j < |s| ==> s[i] < s[j]
  {
    var s := keys[..n] + [r] + keys[n..];
    forall i, j | 0 <= i < j < |s|
      ensures s[i] < s[j]
    {
      assert s[i] == if i < n then keys[i] else if i == n then r else keys[i - 1];
      assert s[j] == if j < n then keys[j] else if j == n then r else keys[j - 1];
    }
  }

  // ---- The tracker itself ----

  class Changes {
    const cfg: Config
    var records: map<int, Record>
    var currentByteSize: int

    function State(): Tracker
      reads this
    {
      Tracker(records, currentByteSize)
    }

    constructor (cfg: Config)
      ensures this.cfg == cfg && State() == EMPTY_TRACKER
    {
      this.cfg := cfg;
      records := map[];
      currentByteSize := 0;
    }

    method AdjustByteSize(delta: int) returns (out: Outcome)
      modifies this`currentByteSize
      ensures (currentByteSize, out) == Adjust(cfg, old(currentByteSize), delta)
    {
      if cfg.maxBytes == 0 {
        return Fine;
      }
      currentByteSize := currentByteSize + delta;
      if currentByteSize < 0 {
        return Underflow;
      }
      if currentByteSize > cfg.maxBytes {
        return Exceeded;
      }
      return Fine;
    }

    /** recordForRevision: the record is created on first use. */
    method RecordForRevision(rev: int) returns (r: Record)
      modifies this`records
      ensures r == RecordAt(old(State()), rev)
      ensures records == old(records)[rev := r]
    {
      if rev !in records {
        records := records[rev := EMPTY_RECORD];
      }
      r := records[rev];
      assert records == old(records)[rev := r];
    }

    method AddTouch(rev: int, row: Row) returns (out: Outcome)
      modifies this
      ensures (State(), out) == Apply(cfg, old(State()), Touch(rev, row))
    {
      if !cfg.relationships {
        return Fine;
      }
      var r := RecordForRevision(rev);
      if row.key in r.deletes {
        var existing := r.deletes[row.key];
        r := r.(deletes := r.deletes - {row.key});
        records := records[rev := r];
        assert records == old(records)[rev := r];
        out := AdjustByteSize(0 - existing.size);
        if out != Fine {
          return;
        }
      } else {
        assert r.deletes - {row.key} == r.deletes;
      }
      r := r.(touches := r.touches[row.key := row]);
      records := records[rev := r];
      assert records == old(records)[rev := r];
      out := AdjustByteSize(row.size);
    }

    method AddDelete(rev: int, row: Row) returns (out: Outcome)
      modifies this
      ensures (State(), out) == Apply(cfg, old(State()), Delete(rev, row))
    {
      if !cfg.relationships {
        return Fine;
      }
      var r := RecordForRevision(rev);
      out := Fine;
      if row.key !in r.touches {
        r := r.(deletes := r.deletes[row.key := row]);
        records := records[rev := r];
        assert records == old(records)[rev := r];
        out := AdjustByteSize(row.size);
      }
    }

    method AddDeletedNamespace(rev: int, name: string)
      modifies this
      ensures (State(), Fine) == Apply(cfg, old(State()), DeletedNamespace(rev, name))
    {
      if !cfg.schema {
        return;
      }
      var r := RecordForRevision(rev);
      if NamespaceKey(name) !in r.definitions {
        r := r.(namespacesDeleted := r.namespacesDeleted + {name});
        records := records[rev := r];
        assert records == old(records)[rev := r];
      }
    }

    method AddDeletedCaveat(rev: int, name: string)
      modifies this
      ensures (State(), Fine) == Apply(cfg, old(State()), DeletedCaveat(rev, name))
    {
      if !cfg.schema {
        return;
      }
      var r := RecordForRevision(rev);
      if CaveatKey(name) !in r.definitions {
        r := r.(caveatsDeleted := r.caveatsDeleted + {name});
        records := records[rev := r];
        assert records == old(records)[rev := r];
      }
    }

    method AddChangedDefinition(rev: int, d: Definition) returns (out: Outcome)
      modifies this
      ensures (State(), out) == Apply(cfg, old(State()), Changed(rev, d))
    {
      if !cfg.schema {
        return Fine;
      }
      var r := RecordForRevision(rev);
      match d {
        case NamespaceDefinition(name, _, _) => r := r.(namespacesDeleted := r.namespacesDeleted - {name});
        case CaveatDefinition(name, _, _) => r := r.(caveatsDeleted := r.caveatsDeleted - {name});
      }
      records := records[rev := r];
      assert records == old(records)[rev := r];
      if NamespaceKey(d.name) in r.definitions {
        out := AdjustByteSize(0 - r.definitions[NamespaceKey(d.name)].size);
        if out != Fine {
          return;
        }
      }
      r := r.(definitions := r.definitions[KeyOf(d) := d]);
      records := records[rev := r];
      assert records == old(records)[rev := r];
      out := AdjustByteSize(d.size);
    }

    /** revisionChanges without a bound. */
    method AsRevisionChanges() returns (changes: seq<RevisionChanges>)
      ensures Lists(changes, records)
    {
      changes := ListRecords(records);
    }

    /** revisionChanges with a bound, then removeAllChangesBefore. */
    method FilterAndRemoveRevisionChanges(bound: int) returns (changes: seq<RevisionChanges>)
      modifies this`records
      ensures Lists(changes, Below(old(records), bound))
      ensures records == AtOrAbove(old(records), bound)
    {
      changes := ListRecords(Below(records, bound));
      ghost var before := records;
      var remaining := records.Items;
      while remaining != {}
        invariant remaining <= before.Items
        invariant forall e: (int, Record) ::
                    e in before.Items && (e in remaining || e.0 >= bound) ==> e in records.Items
        invariant forall e: (int, Record) ::
                    e in records.Items ==> e in before.Items && (e in remaining || e.0 >= bound)
        decreases |remaining|
      {
        var entry :| entry in remaining;
        if bound > entry.0 {
          records := records - {entry.0};
        }
        remaining := remaining - {entry};
        forall e: (int, Record) | e in before.Items && (e in remaining || e.0 >= bound)
          ensures e in records.Items
        {
          assert e == (e.0, before[e.0]) && entry == (entry.0, before[entry.0]);
          assert e.0 in records && records[e.0] == e.1;
        }
      }
      SameItems(records, AtOrAbove(before, bound));
    }

    /** Collects the chosen revisions in map order, sorts them, and emits one entry for each. */
    method ListRecords(chosen: map<int, Record>) returns (changes: seq<RevisionChanges>)
      ensures Lists(changes, chosen)
    {
      var keys: seq<int> := [];
      var remaining := chosen.Items;
      while remaining != {}
        invariant remaining <= chosen.Items
        invariant forall i, j :: 0 <= i < j < |keys| ==> keys[i] < keys[j]
        invariant forall r :: r in keys <==> r in chosen && (r, chosen[r]) !in remaining
        decreases |remaining|
      {
        var entry :| entry in remaining;
        keys := InsertSorted(keys, entry.0);
        remaining := remaining - {entry};
      }
      assert forall j :: 0 <= j < |keys| ==> keys[j] in keys && keys[j] in chosen;
      changes := [];
      for i := 0 to |keys|
        invariant |changes| == i
        invariant forall j :: 0 <= j < i ==> changes[j] == RevisionChanges(keys[j], chosen[keys[j]])
      {
        changes := changes + [RevisionChanges(keys[i], chosen[keys[i]])];
      }
      forall r | r in chosen
        ensures HasRevision(changes, r)
      {
        assert r in keys;
        var i :| 0 <= i < |keys| && keys[i] == r;
        assert changes[i].rev == r;
      }
    }

    /** One step of sort.Slice: keeps the collected keys in order. */
    method InsertSorted(keys: seq<int>, r: int) returns (sorted: seq<int>)
      requires forall i, j :: 0 <= i < j < |keys| ==> keys[i] < keys[j]
      requires r !in keys
      ensures forall i, j :: 0 <= i < j < |sorted| ==> sorted[i] < sorted[j]
      ensures forall x :: x in sorted <==> x in keys || x == r
    {
      var n := |keys|;
      while n > 0 && keys[n - 1] > r
        invariant 0 <= n <= |keys|
        invariant forall j :: n <= j < |keys| ==> keys[j] > r
      {
        n := n - 1;
      }
      sorted := keys[..n] + [r] + keys[n..];
      InsertedMembers(keys, n, r);
      assert n > 0 ==> keys[n - 1] in keys;
      InsertedSorted(keys, n, r);
    }
  }
}
