/** Deleting by filter, with and without a limit
    (internal/datastore/memdb/readwrite.go:139-191, 361-392; readonly.go:360-389). */
module RelationshipDelete {
  import opened Wrappers
  import opened Strings
  import opened SqlClauses
  import opened MemdbStore
  import opened Mutations
  import opened Pagination
  import QueryFilterer

  /** The API's subject filter; the relation is None when the field is not set. */
  datatype PublicSubjectFilter = PublicSubjectFilter(subjectType: string, subjectId: string, relation: Option<string>)

  datatype PublicFilter = PublicFilter(
    resourceType: string, resourceId: string, resourceIdPrefix: string, relation: string,
    subject: Option<PublicSubjectFilter>)
  {
    /** relationshipFilterFilterFunc: the first failing case drops the row. */
    predicate Skips(key: RelationshipKey) {
      if resourceType != "" && resourceType != key.resourceType then true
      else if resourceId != "" && resourceId != key.resourceID then true
      else if resourceIdPrefix != "" && !HasPrefix(key.resourceID, resourceIdPrefix) then true
      else if relation != "" && relation != key.resourceRelation then true
      else if subject.None? then false
      else
        var s := subject.value;
        if s.subjectType != key.subjectType then true
        else if s.subjectId != "" && s.subjectId != key.subjectID then true
        else s.relation.Some? && QueryFilterer.DatastoreRelation(s.relation.value) != key.subjectRelation
    }

    function Keeps(): Row -> bool {
      (row: Row) => !Skips(row.key)
    }

    function Indexed(): Row -> bool {
      (row: Row) => InIndex(row.key)
    }

    /** The index iteratorForFilter picks for the filter. */
    predicate InIndex(key: RelationshipKey) {
      (resourceType != "" ==> key.resourceType == resourceType) &&
      (resourceType != "" && relation != "" ==> key.resourceRelation == relation)
    }
  }

  /** The rows a delete is about, in primary-index order. */
  function Hits(table: seq<Row>, f: PublicFilter): seq<Row> {
    Select(table, f.Keeps())
  }

  /** The first `limit` hits; all of them when there is no limit. */
  function Doomed(table: seq<Row>, f: PublicFilter, limit: nat): seq<Row> {
    Take(Hits(table, f), if limit > 0 then Some(limit) else None)
  }

  function Deletions(rows: seq<Row>): seq<Update> {
    seq(|rows|, i requires 0 <= i < |rows| => DeleteRel(rows[i]))
  }

  /** The table lists a relationship map in primary-index order. */
  ghost predicate Tabulates(table: seq<Row>, rels: map<RelationshipKey, Row>) {
    && Ordered(QueryFilterer.ByResource, table)
    && (forall row :: row in table <==> Maps(rels, row.key, row))
    && (forall k :: k in rels ==> rels[k].key == k)
  }

  lemma SelectSnoc<T>(s: seq<T>, x: T, p: T -> bool)
    ensures Select(s + [x], p) == Select(s, p) + (if p(x) then [x] else [])
  {
    assert (s + [x])[..|s + [x]| - 1] == s;
  }

  lemma DeletionsSnoc(rows: seq<Row>, row: Row)
    ensures Deletions(rows + [row]) == Deletions(rows) + [DeleteRel(row)]
  {
  }

  lemma FoundIsDoomed(it: seq<Row>, i: nat, f: PublicFilter, limit: nat)
    requires i <= |it|
    requires
      var n := |Select(it[..i], f.Keeps())|;
      (limit > 0 ==> n <= limit) && (i == |it| || (limit > 0 && n == limit))
    ensures Take(Select(it, f.Keeps()), if limit > 0 then Some(limit) else None) == Select(it[..i], f.Keeps())
    ensures |Select(it[..i], f.Keeps())| <= |Select(it, f.Keeps())|
  {
    assert it[..|it|] == it;
    SelectPrefix(it, i, f.Keeps());
  }

  /** The loop over the filtered iterator, which stops when the limit is met. */
  method CollectDeletions(table: seq<Row>, f: PublicFilter, limit: nat)
    returns (mutations: seq<Update>, counter: nat, metLimit: bool)
    ensures mutations == Deletions(Doomed(table, f, limit))
    ensures counter == |Doomed(table, f, limit)|
    ensures metLimit <==> 0 < limit <= |Hits(table, f)|
  {
    var it := Select(table, f.Indexed());
    IndexCoversHits(table, f);
    mutations := [];
    counter := 0;
    metLimit := false;
    var i := 0;
    while i < |it| && !metLimit
      invariant 0 <= i <= |it|
      invariant mutations == Deletions(Select(it[..i], f.Keeps())) && counter == |Select(it[..i], f.Keeps())|
      invariant limit > 0 ==> counter <= limit && (metLimit <==> counter == limit)
      invariant metLimit ==> limit > 0
    {
      CollectStep(it, i, f);
      if !f.Skips(it[i].key) {
        mutations := mutations + [DeleteRel(it[i])];
        counter := counter + 1;
        if limit > 0 && counter == limit {
          metLimit := true;
        }
      }
      i := i + 1;
    }
    FoundIsDoomed(it, i, f, limit);
  }

  lemma CollectStep(it: seq<Row>, i: nat, f: PublicFilter)
    requires i < |it|
    ensures
      var found := Select(it[..i], f.Keeps());
      Select(it[..i + 1], f.Keeps()) == if f.Skips(it[i].key) then found else found + [it[i]]
    ensures
      var found := Select(it[..i], f.Keeps());
      Deletions(Select(it[..i + 1], f.Keeps())) ==
      if f.Skips(it[i].key) then Deletions(found) else Deletions(found) + [DeleteRel(it[i])]
  {
    assert it[..i + 1] == it[..i] + [it[i]];
    SelectSnoc(it[..i], it[i], f.Keeps());
    DeletionsSnoc(Select(it[..i], f.Keeps()), it[i]);
  }

  method DeleteWithLock(mdb: MemdbDatastore, t: nat, table: seq<Row>, f: PublicFilter, limit: nat)
    returns (counter: nat, metLimit: bool, err: Option<TxError>)
    requires Enabled(mdb.State(), Mutate(t, WriteRelationships([])))
    requires Tabulates(table, mdb.attempts[t].txn.work.rels)
    modifies mdb
    ensures mdb.State() == Step(old(mdb.State()), Mutate(t, WriteRelationships(Deletions(Doomed(table, f, limit)))))
    ensures t in mdb.attempts && mdb.attempts[t].Open?
    ensures err.None? && mdb.attempts[t].txn == Removed(old(mdb.attempts[t].txn), KeysOf(Doomed(table, f, limit)))
    ensures counter == |Gone(old(mdb.attempts[t].txn.work.rels), mdb.attempts[t].txn.work.rels)|
    ensures metLimit <==> 0 < limit == counter
    ensures limit == 0 ==> DeletedAll(f, old(mdb.attempts[t].txn.work.rels), mdb.attempts[t].txn.work.rels)
  {
    var mutations: seq<Update>;
    mutations, counter, metLimit := CollectDeletions(table, f, limit);
    DeleteDone(mdb.attempts[t].txn, table, f, limit);
    err := mdb.Write(t, mutations);
  }

  /** What one delete comes to. */
  lemma DeleteDone(tx: Txn, table: seq<Row>, f: PublicFilter, limit: nat)
    requires Tabulates(table, tx.work.rels)
    ensures
      var dead := Doomed(table, f, limit);
      var (tx', err) := WriteAll(tx, Deletions(dead));
      && err.None? && tx' == Removed(tx, KeysOf(dead)) && |dead| == |Gone(tx.work.rels, tx'.work.rels)|
      && (0 < limit <= |Hits(table, f)| <==> 0 < limit == |dead|)
      && (limit == 0 ==> DeletedAll(f, tx.work.rels, tx'.work.rels))
  {
    DeleteIsExact(tx, table, f, limit);
    GoneKeys(tx, table, f, limit);
    if limit == 0 {
      DeletesAll(tx, table, f);
    }
  }

  /** The index never hides a row the filter would keep. */
  lemma IndexCoversHits(table: seq<Row>, f: PublicFilter)
    ensures Select(Select(table, f.Indexed()), f.Keeps()) == Hits(table, f)
  {
    SelectTwice(table, f.Indexed(), f.Keeps(), f.Keeps());
  }

  // ---- What a delete leaves ----

  function KeysOf(rows: seq<Row>): set<RelationshipKey> {
    set row | row in rows :: row.key
  }

  function Removed(tx: Txn, ks: set<RelationshipKey>): Txn {
    tx.(work := tx.work.(rels := tx.work.rels - ks), keys := tx.keys + ks)
  }

  lemma RemoveOne(tx: Txn, ks: set<RelationshipKey>, row: Row)
    requires row.key in tx.work.rels && row.key !in ks
    ensures WriteOne(Removed(tx, ks), DeleteRel(row)) == (Removed(tx, ks + {row.key}), None)
  {
    assert (tx.work.rels - ks) - {row.key} == tx.work.rels - (ks + {row.key});
    assert (tx.keys + ks) + {row.key} == tx.keys + (ks + {row.key});
  }

  lemma KeysOfSnoc(rows: seq<Row>, row: Row)
    ensures KeysOf(rows + [row]) == KeysOf(rows) + {row.key}
  {
    assert forall r :: r in rows + [row] <==> r in rows || r == row;
  }

  /** Deleting rows that are present never fails, removes their keys and nothing else, and marks
      those keys for the changelog. */
  lemma {:induction false} DeletionsRemove(tx: Txn, rows: seq<Row>)
    requires DistinctKeys(rows)
    requires forall row :: row in rows ==> row.key in tx.work.rels
    ensures WriteAll(tx, Deletions(rows)) == (Removed(tx, KeysOf(rows)), None)
  {
    if rows == [] {
      assert tx.work.rels - {} == tx.work.rels && tx.keys + {} == tx.keys;
      assert KeysOf(rows) == {};
    } else {
      var front, last := rows[..|rows| - 1], rows[|rows| - 1];
      assert rows == front + [last];
      DeletionsRemove(tx, front);
      DeletionsSnoc(front, last);
      WriteAllSnoc(tx, Deletions(front), DeleteRel(last));
      KeysOfSnoc(front, last);
      RemoveOne(tx, KeysOf(front), last);
    }
  }

  function Without(table: seq<Row>, dead: seq<Row>): seq<Row> {
    Select(table, row => row !in dead)
  }

  lemma DoomedIsHit(table: seq<Row>, f: PublicFilter, limit: nat)
    requires DistinctKeys(table)
    ensures DistinctKeys(Hits(table, f)) && DistinctKeys(Doomed(table, f, limit))
    ensures forall row :: row in Doomed(table, f, limit) ==> row in table && !f.Skips(row.key)
  {
    var hits, doomed := Hits(table, f), Doomed(table, f, limit);
    SelectDistinct(table, f.Keeps());
    SelectMembers(table, f.Keeps());
    assert doomed == hits[..|doomed|];
    assert forall i :: 0 <= i < |doomed| ==> doomed[i] == hits[i];
    forall row | row in doomed
      ensures row in table && !f.Skips(row.key)
    {
      assert row in hits;
    }
  }

  lemma {:induction false} SelectDistinct(rows: seq<Row>, p: Row -> bool)
    requires DistinctKeys(rows)
    ensures DistinctKeys(Select(rows, p))
  {
    if rows != [] {
      SelectDistinct(rows[..|rows| - 1], p);
      SelectMembers(rows[..|rows| - 1], p);
      var kept := Select(rows[..|rows| - 1], p);
      assert forall i :: 0 <= i < |kept| ==> kept[i] in kept;
    }
  }

  /** One delete: exactly the doomed relationships go, every other one keeps its row, and the
      remaining table is the old one without them. */
  lemma DeleteIsExact(tx: Txn, table: seq<Row>, f: PublicFilter, limit: nat)
    requires Tabulates(table, tx.work.rels)
    ensures
      var dead := Doomed(table, f, limit);
      var (tx', err) := WriteAll(tx, Deletions(dead));
      && err.None?
      && tx' == Removed(tx, KeysOf(dead))
      && Tabulates(Without(table, dead), tx'.work.rels)
  {
    var dead := Doomed(table, f, limit);
    OrderedDistinct(QueryFilterer.ByResource, table);
    DoomedIsHit(table, f, limit);
    DeletionsRemove(tx, dead);
    SelectOrdered(QueryFilterer.ByResource, table, row => row !in dead);
    SelectMembers(table, row => row !in dead);
    forall row
      ensures row in Without(table, dead) <==> Maps(tx.work.rels - KeysOf(dead), row.key, row)
    {
      if row in table && row.key in KeysOf(dead) {
        var other :| other in dead && other.key == row.key;
        assert Maps(tx.work.rels, other.key, other);
      }
    }
  }

  /** What a delete filter asks of a relationship: every field it sets has to match, and a subject
      relation that is set to the empty string means the ellipsis. */
  predicate PublicMatches(f: PublicFilter, key: RelationshipKey) {
    && (f.resourceType != "" ==> key.resourceType == f.resourceType)
    && (f.resourceId != "" ==> key.resourceID == f.resourceId)
    && (f.resourceIdPrefix != "" ==>
          |f.resourceIdPrefix| <= |key.resourceID| && key.resourceID[..|f.resourceIdPrefix|] == f.resourceIdPrefix)
    && (f.relation != "" ==> key.resourceRelation == f.relation)
    && (f.subject.Some? ==> SubjectFilterMatches(f.subject.value, key))
  }

  predicate SubjectFilterMatches(s: PublicSubjectFilter, key: RelationshipKey) {
    && key.subjectType == s.subjectType
    && (s.subjectId != "" ==> key.subjectID == s.subjectId)
    && (s.relation.Some? ==> key.subjectRelation == if s.relation.value == "" then "..." else s.relation.value)
  }

  lemma SkipsMeaning(f: PublicFilter, key: RelationshipKey)
    ensures !f.Skips(key) <==> PublicMatches(f, key)
  {
  }

  /** Without a limit exactly the relationships that match every field of the filter go; every other
      one keeps its row. */
  lemma UnlimitedDelete(tx: Txn, table: seq<Row>, f: PublicFilter, key: RelationshipKey)
    requires Tabulates(table, tx.work.rels)
    ensures
      var rels := WriteAll(tx, Deletions(Doomed(table, f, 0))).0.work.rels;
      && (key in rels <==> key in tx.work.rels && !PublicMatches(f, key))
      && (key in rels ==> rels[key] == tx.work.rels[key])
  {
    DeleteIsExact(tx, table, f, 0);
    var dead := Doomed(table, f, 0);
    SelectMembers(table, f.Keeps());
    SkipsMeaning(f, key);
    if key in tx.work.rels && !f.Skips(key) {
      var row := tx.work.rels[key];
      assert Maps(tx.work.rels, key, row);
      assert row in table && row in dead;
    }
  }

  /** Exactly the relationships that match every field of the filter are gone. */
  ghost predicate DeletedAll(f: PublicFilter, before: map<RelationshipKey, Row>, after: map<RelationshipKey, Row>) {
    forall key :: (key in after <==> key in before && !PublicMatches(f, key)) &&
                  (key in after ==> after[key] == before[key])
  }

  lemma DeletesAll(tx: Txn, table: seq<Row>, f: PublicFilter)
    requires Tabulates(table, tx.work.rels)
    ensures DeletedAll(f, tx.work.rels, WriteAll(tx, Deletions(Doomed(table, f, 0))).0.work.rels)
  {
    forall key
      ensures
        var rels := WriteAll(tx, Deletions(Doomed(table, f, 0))).0.work.rels;
        && (key in rels <==> key in tx.work.rels && !PublicMatches(f, key))
        && (key in rels ==> rels[key] == tx.work.rels[key])
    {
      UnlimitedDelete(tx, table, f, key);
    }
  }

  /** The keys a delete removes. */
  function Gone(before: map<RelationshipKey, Row>, after: map<RelationshipKey, Row>): set<RelationshipKey> {
    before.Keys - after.Keys
  }

  lemma {:induction false} KeysCount(rows: seq<Row>)
    requires DistinctKeys(rows)
    ensures |KeysOf(rows)| == |rows|
  {
    if rows == [] {
      assert KeysOf(rows) == {};
    } else {
      var front, last := rows[..|rows| - 1], rows[|rows| - 1];
      KeysCount(front);
      assert rows == front + [last];
      KeysOfSnoc(front, last);
    }
  }

  lemma KeysMinus(m: map<RelationshipKey, Row>, ks: set<RelationshipKey>)
    requires ks <= m.Keys
    ensures Gone(m, m - ks) == ks
  {
  }

  /** The keys of the doomed rows are the keys that go, one per row. */
  lemma GoneKeys(tx: Txn, table: seq<Row>, f: PublicFilter, limit: nat)
    requires Tabulates(table, tx.work.rels)
    ensures
      var gone := Gone(tx.work.rels, WriteAll(tx, Deletions(Doomed(table, f, limit))).0.work.rels);
      gone == KeysOf(Doomed(table, f, limit)) && |gone| == |Doomed(table, f, limit)|
  {
    var dead := Doomed(table, f, limit);
    DeleteIsExact(tx, table, f, limit);
    DoomedPresent(tx, table, f, limit);
    KeysCount(dead);
    KeysMinus(tx.work.rels, KeysOf(dead));
  }

  lemma DoomedPresent(tx: Txn, table: seq<Row>, f: PublicFilter, limit: nat)
    requires Tabulates(table, tx.work.rels)
    ensures DistinctKeys(Doomed(table, f, limit)) && KeysOf(Doomed(table, f, limit)) <= tx.work.rels.Keys
    ensures forall k :: k in KeysOf(Doomed(table, f, limit)) ==> !f.Skips(k)
  {
    OrderedDistinct(QueryFilterer.ByResource, table);
    DoomedIsHit(table, f, limit);
    forall row | row in Doomed(table, f, limit)
      ensures row.key in tx.work.rels
    {
      assert row in table;
      assert Maps(tx.work.rels, row.key, row);
    }
  }

  /** What is doomed comes, in resource order, before every hit that is spared. */
  lemma DoomedComeFirst(table: seq<Row>, f: PublicFilter, limit: nat, dead: Row, spared: Row)
    requires Ordered(QueryFilterer.ByResource, table)
    requires dead in Doomed(table, f, limit) && spared in Hits(table, f) && spared !in Doomed(table, f, limit)
    ensures Before(QueryFilterer.ByResource, dead, spared) && limit > 0 && |Doomed(table, f, limit)| == limit
  {
    var hits, doomed := Hits(table, f), Doomed(table, f, limit);
    SelectOrdered(QueryFilterer.ByResource, table, f.Keeps());
    var i :| 0 <= i < |doomed| && doomed[i] == dead;
    var j :| 0 <= j < |hits| && hits[j] == spared;
    assert doomed == hits[..|doomed|];
    assert forall k :: 0 <= k < |doomed| ==> hits[k] in doomed;
  }

  /** With a limit at most that many relationships go, all of them matching the filter; if a matching
      one stays, exactly that many went and they all come before it in resource order. */
  lemma LimitedDelete(tx: Txn, table: seq<Row>, f: PublicFilter, limit: nat, key: RelationshipKey)
    requires Tabulates(table, tx.work.rels)
    ensures
      var rels := WriteAll(tx, Deletions(Doomed(table, f, limit))).0.work.rels;
      var gone := Gone(tx.work.rels, rels);
      && (limit > 0 ==> |gone| <= limit)
      && (key in rels ==> key in tx.work.rels && rels[key] == tx.work.rels[key])
      && (key in gone ==> PublicMatches(f, key))
      && (key in rels && PublicMatches(f, key) ==>
            limit > 0 && |gone| == limit &&
            forall k :: k in gone ==> Before(QueryFilterer.ByResource, tx.work.rels[k], tx.work.rels[key]))
  {
    var dead := Doomed(table, f, limit);
    var rels := WriteAll(tx, Deletions(dead)).0.work.rels;
    var gone := Gone(tx.work.rels, rels);
    GoneKeys(tx, table, f, limit);
    DeleteIsExact(tx, table, f, limit);
    DoomedPresent(tx, table, f, limit);
    SkipsMeaning(f, key);
    if key in rels && PublicMatches(f, key) {
      SparedHit(tx, table, f, limit, key);
    }
  }

  lemma SparedHit(tx: Txn, table: seq<Row>, f: PublicFilter, limit: nat, key: RelationshipKey)
    requires Tabulates(table, tx.work.rels)
    requires key in tx.work.rels && key !in KeysOf(Doomed(table, f, limit)) && !f.Skips(key)
    ensures limit > 0 && |Doomed(table, f, limit)| == limit
    ensures forall k :: k in KeysOf(Doomed(table, f, limit)) ==>
              k in tx.work.rels && Before(QueryFilterer.ByResource, tx.work.rels[k], tx.work.rels[key])
  {
    var dead, hits := Doomed(table, f, limit), Hits(table, f);
    var row := tx.work.rels[key];
    assert Maps(tx.work.rels, key, row);
    SelectMembers(table, f.Keeps());
    assert row in hits && row !in dead;
    assert dead != hits;
    forall k | k in KeysOf(dead)
      ensures k in tx.work.rels && Before(QueryFilterer.ByResource, tx.work.rels[k], row)
    {
      var d :| d in dead && d.key == k;
      OrderedDistinct(QueryFilterer.ByResource, table);
      DoomedIsHit(table, f, limit);
      assert d in table && Maps(tx.work.rels, d.key, d);
      DoomedComeFirst(table, f, limit, d, row);
    }
  }

  /** Deleting a namespace's relationships with it, which goes by its name as the resource type,
      removes exactly the relationships of that type. */
  lemma NamespaceDelete(tx: Txn, table: seq<Row>, name: string)
    requires Tabulates(table, tx.work.rels) && name != ""
    ensures WriteAll(tx, Deletions(Doomed(table, PublicFilter(name, "", "", "", None), 0))) ==
            (RemoveOfType(tx, name), None)
  {
    var f := PublicFilter(name, "", "", "", None);
    var dead := Doomed(table, f, 0);
    DeleteIsExact(tx, table, f, 0);
    SelectMembers(table, f.Keeps());
    var gone := set k | k in tx.work.rels && k.resourceType == name;
    forall k
      ensures k in KeysOf(dead) <==> k in gone
    {
      if k in gone {
        var row := tx.work.rels[k];
        assert Maps(tx.work.rels, k, row) && row in dead;
      }
    }
    assert KeysOf(dead) == gone;
  }

  // ---- Deleting in batches ----

  lemma {:induction false} WithoutMore(table: seq<Row>, dead: seq<Row>, x: Row)
    requires x !in table
    ensures Without(table, dead + [x]) == Without(table, dead)
  {
    if table != [] {
      WithoutMore(table[..|table| - 1], dead, x);
    }
  }

  lemma {:induction false} HitsAfter(table: seq<Row>, f: PublicFilter, n: nat)
    requires DistinctKeys(table) && n <= |Hits(table, f)|
    ensures Hits(Without(table, Hits(table, f)[..n]), f) == Hits(table, f)[n..]
  {
    if table != [] {
      var front, last := table[..|table| - 1], table[|table| - 1];
      var hits0 := Hits(front, f);
      SelectMembers(front, f.Keeps());
      assert last !in hits0;
      if n <= |hits0| {
        HitsAfter(front, f, n);
        HitsAfterKept(table, f, n);
      } else {
        HitsAfter(front, f, |hits0|);
        assert hits0[..|hits0|] == hits0 && Hits(table, f)[..n] == hits0 + [last];
        WithoutMore(front, hits0, last);
        assert Without(table, hits0 + [last]) == Without(front, hits0 + [last]);
        assert hits0[|hits0|..] == [] && Hits(table, f)[n..] == [];
      }
    }
  }

  lemma HitsAfterKept(table: seq<Row>, f: PublicFilter, n: nat)
    requires table != []
    requires
      var front, last := table[..|table| - 1], table[|table| - 1];
      var hits0 := Hits(front, f);
      n <= |hits0| && last !in hits0 && Hits(Without(front, hits0[..n]), f) == hits0[n..]
    ensures Hits(Without(table, Hits(table, f)[..n]), f) == Hits(table, f)[n..]
  {
    var front, last := table[..|table| - 1], table[|table| - 1];
    var dead := Hits(front, f)[..n];
    assert Hits(table, f)[..n] == dead;
    assert forall row :: row in dead ==> row in Hits(front, f);
    assert Without(table, dead) == Without(front, dead) + [last];
    SelectSnoc(Without(front, dead), last, f.Keeps());
  }

  /** The caller's loop: limited deletes until one reports that it did not meet its limit. The
      result is the number of relationships deleted and the table that remains. */
  ghost function Batches(table: seq<Row>, f: PublicFilter, limit: nat): (nat, seq<Row>)
    requires limit > 0 && DistinctKeys(table)
    decreases |Hits(table, f)|
  {
    var dead := Doomed(table, f, limit);
    var rest := Without(table, dead);
    if |Hits(table, f)| < limit then (|dead|, rest)
    else
      HitsAfter(table, f, limit);
      assert dead == Hits(table, f)[..limit];
      SelectDistinct(table, row => row !in dead);
      var (n, last) := Batches(rest, f, limit);
      (|dead| + n, last)
  }

  lemma WithoutTwice(table: seq<Row>, hits: seq<Row>, n: nat)
    requires n <= |hits|
    ensures Without(Without(table, hits[..n]), hits[n..]) == Without(table, hits)
  {
    assert forall row :: row in hits <==> row in hits[..n] || row in hits[n..] by {
      assert hits == hits[..n] + hits[n..];
    }
    SelectTwice(table, row => row !in hits[..n], row => row !in hits[n..], row => row !in hits);
  }

  /** Deleting in batches of any size deletes exactly what one unlimited delete does. */
  lemma {:induction false} BatchesDeleteAll(table: seq<Row>, f: PublicFilter, limit: nat)
    requires limit > 0 && DistinctKeys(table)
    ensures Batches(table, f, limit) == (|Hits(table, f)|, Without(table, Hits(table, f)))
    decreases |Hits(table, f)|
  {
    var dead := Doomed(table, f, limit);
    if |Hits(table, f)| >= limit {
      HitsAfter(table, f, limit);
      assert dead == Hits(table, f)[..limit];
      SelectDistinct(table, row => row !in dead);
      BatchesDeleteAll(Without(table, dead), f, limit);
      WithoutTwice(table, Hits(table, f), limit);
    }
  }

  /** The rows that stay are those that miss some field of the filter. */
  lemma BatchesLeave(table: seq<Row>, f: PublicFilter, limit: nat, row: Row)
    requires limit > 0 && DistinctKeys(table)
    ensures row in Batches(table, f, limit).1 <==> row in table && !PublicMatches(f, row.key)
  {
    var hits := Hits(table, f);
    BatchesDeleteAll(table, f, limit);
    SelectMembers(table, f.Keeps());
    SelectMembers(table, r => r !in hits);
    SkipsMeaning(f, row.key);
  }
}
