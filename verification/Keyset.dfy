/** Cursor comparisons: both SQL forms of After, the elision of pinned columns from them, and
    memdb's cursor filter (internal/datastore/common/sql.go:307-363,
    internal/datastore/memdb/readonly.go:465-495). */
module Keyset {
  import opened Wrappers
  import opened Strings
  import opened SqlClauses
  import opened QueryFilterer
  import opened ColumnElision
  import opened MemdbFilter

  /** The row comes strictly after the cursor in the order of the columns cs. */
  predicate IsAfter(cursor: RelationshipKey, cs: seq<Column>, key: RelationshipKey)
    requires KeyColumnsOnly(cs)
  {
    KeyLess(CursorValues(cursor, cs), CursorValues(key, cs))
  }

  lemma {:induction false} KeyLessWitness(a: seq<string>, b: seq<string>)
    requires |a| == |b|
    ensures KeyLess(a, b) <==> exists i :: 0 <= i < |a| && a[..i] == b[..i] && Less(a[i], b[i])
  {
    if a != [] {
      KeyLessWitness(a[1..], b[1..]);
      if Less(a[0], b[0]) {
        assert a[..0] == b[..0];
      } else if KeyLess(a, b) {
        var i :| 0 <= i < |a| - 1 && a[1..][..i] == b[1..][..i] && Less(a[1..][i], b[1..][i]);
        assert a[..i + 1] == [a[0]] + a[1..][..i] && b[..i + 1] == [b[0]] + b[1..][..i];
      }
      if i :| 0 <= i < |a| && a[..i] == b[..i] && Less(a[i], b[i]) {
        if i > 0 {
          assert a[..i][0] == b[..i][0];
          assert a[1..][..i - 1] == a[..i][1..] && b[1..][..i - 1] == b[..i][1..];
          assert Less(a[1..][i - 1], b[1..][i - 1]);
        }
      }
    }
  }

  lemma {:induction false} TupleFormMeaning(cursor: RelationshipKey, cs: seq<Column>, row: Row)
    requires KeyColumnsOnly(cs)
    ensures Eval(RowGreater(cs, CursorValues(cursor, cs)), row) == True <==> IsAfter(cursor, cs, row.key)
  {
    if cs != [] {
      var values, rest := CursorValues(cursor, cs), CursorValues(cursor, cs[1..]);
      assert values[1..] == rest && CursorValues(row.key, cs)[1..] == CursorValues(row.key, cs[1..]);
      TupleFormMeaning(cursor, cs[1..], row);
      LessTotal(values[0], KeyField(row.key, cs[0]));
    }
  }

  lemma EqCursorMeaning(cursor: RelationshipKey, cs: seq<Column>, i: nat, row: Row)
    requires KeyColumnsOnly(cs) && i <= |cs|
    ensures EvalAnd(EqCursor(cursor, cs[..i]), row) == True <==>
            CursorValues(cursor, cs)[..i] == CursorValues(row.key, cs)[..i]
  {
    var eqs := EqCursor(cursor, cs[..i]);
    var a, b := CursorValues(cursor, cs), CursorValues(row.key, cs);
    EvalAndTrue(eqs, row);
    assert forall j :: 0 <= j < i ==> (Eval(eqs[j], row) == True <==> a[j] == b[j]);
    if a[..i] == b[..i] {
      forall j | 0 <= j < i
        ensures Eval(eqs[j], row) == True
      {
        assert a[..i][j] == b[..i][j];
      }
    }
  }

  lemma DisjunctMeaning(cursor: RelationshipKey, cs: seq<Column>, i: nat, row: Row)
    requires KeyColumnsOnly(cs) && i < |cs|
    ensures Eval(Disjunct(cursor, cs, i), row) == True <==>
            && CursorValues(cursor, cs)[..i] == CursorValues(row.key, cs)[..i]
            && Less(CursorValues(cursor, cs)[i], CursorValues(row.key, cs)[i])
  {
    var eqs := EqCursor(cursor, cs[..i]);
    SelectsAppend(eqs, Gt(cs[i], KeyField(cursor, cs[i])), row);
    EqCursorMeaning(cursor, cs, i, row);
  }

  lemma ExpandedFormMeaning(cursor: RelationshipKey, cs: seq<Column>, row: Row)
    requires KeyColumnsOnly(cs)
    ensures Eval(Or(Disjuncts(cursor, cs)), row) == True <==> IsAfter(cursor, cs, row.key)
  {
    var ds := Disjuncts(cursor, cs);
    EvalOrTrue(ds, row);
    var a, b := CursorValues(cursor, cs), CursorValues(row.key, cs);
    KeyLessWitness(a, b);
    forall i | 0 <= i < |cs|
      ensures Eval(ds[i], row) == True <==> a[..i] == b[..i] && Less(a[i], b[i])
    {
      DisjunctMeaning(cursor, cs, i, row);
    }
  }

  /** For any list of key columns the tuple form and the expanded AND/OR form are the same
      lexicographic "strictly after". */
  lemma BothFormsAgree(cursor: RelationshipKey, cs: seq<Column>, row: Row)
    requires KeyColumnsOnly(cs)
    ensures Eval(AfterClause(TupleComparison, cursor, cs), row) == True <==> IsAfter(cursor, cs, row.key)
    ensures Eval(AfterClause(ExpandedLogicComparison, cursor, cs), row) == True <==> IsAfter(cursor, cs, row.key)
  {
    TupleFormMeaning(cursor, cs, row);
    ExpandedFormMeaning(cursor, cs, row);
  }

  // ---- Dropping pinned columns ----

  lemma {:induction false} KeyLessAppend(a: seq<string>, b: seq<string>, x: string, y: string)
    requires |a| == |b|
    ensures KeyLess(a + [x], b + [y]) <==> KeyLess(a, b) || (a == b && Less(x, y))
  {
    if a == [] {
      assert KeyLess([x], [y]) <==> Less(x, y);
    } else {
      assert (a + [x])[1..] == a[1..] + [x] && (b + [y])[1..] == b[1..] + [y];
      KeyLessAppend(a[1..], b[1..], x, y);
      assert a == b <==> a[0] == b[0] && a[1..] == b[1..] by {
        assert a == [a[0]] + a[1..] && b == [b[0]] + b[1..];
      }
    }
  }

  /** The cursor carries the pinned value of every pinned sort column. */
  predicate CursorFits(t: Tracker, cursor: RelationshipKey, cs: seq<Column>)
    requires KeyColumnsOnly(cs)
  {
    forall i :: 0 <= i < |cs| && HasStaticValue(t, cs[i]) ==> KeyField(cursor, cs[i]) == t[cs[i]].value
  }

  /** The two column lists order a and b alike. */
  predicate SameOrder(a: RelationshipKey, b: RelationshipKey, cs: seq<Column>, ds: seq<Column>)
    requires KeyColumnsOnly(cs) && KeyColumnsOnly(ds)
  {
    && (IsAfter(a, cs, b) <==> IsAfter(a, ds, b))
    && (CursorValues(a, cs) == CursorValues(b, cs) <==> CursorValues(a, ds) == CursorValues(b, ds))
  }

  lemma VaryingSnoc(t: Tracker, front: seq<Column>, c: Column)
    ensures Varying(t, front + [c]) == Varying(t, front) + (if HasStaticValue(t, c) then [] else [c])
  {
    assert (front + [c])[..|front|] == front;
  }

  lemma DroppingLast(t: Tracker, front: seq<Column>, c: Column, a: RelationshipKey, b: RelationshipKey)
    requires KeyColumnsOnly(front) && IsKeyColumn(c) && KeyColumnsOnly(front + [c])
    requires CursorFits(t, a, front + [c]) && CursorFits(t, b, front + [c])
    requires KeyColumnsOnly(Varying(t, front)) && SameOrder(a, b, Varying(t, front), front)
    ensures
      KeyColumnsOnly(Varying(t, front + [c])) && SameOrder(a, b, Varying(t, front + [c]), front + [c])
  {
    VaryingSnoc(t, front, c);
    if HasStaticValue(t, c) {
      assert (front + [c])[|front|] == c;
      assert Varying(t, front) + [] == Varying(t, front);
      PinnedColumn(a, b, front, Varying(t, front), c);
    } else {
      VaryingColumn(a, b, front, Varying(t, front), c);
    }
  }

  /** Comparing on the varying columns only is comparing on all of them, for keys that carry the
      pinned values. */
  lemma {:induction false} DroppingPinnedColumns(t: Tracker, cs: seq<Column>, a: RelationshipKey, b: RelationshipKey)
    requires KeyColumnsOnly(cs) && CursorFits(t, a, cs) && CursorFits(t, b, cs)
    ensures KeyColumnsOnly(Varying(t, cs)) && SameOrder(a, b, Varying(t, cs), cs)
  {
    if cs != [] {
      var front, c := cs[..|cs| - 1], cs[|cs| - 1];
      assert cs == front + [c];
      DroppingPinnedColumns(t, front, a, b);
      DroppingLast(t, front, c, a, b);
    }
  }

  lemma PinnedColumn(a: RelationshipKey, b: RelationshipKey, front: seq<Column>, kept: seq<Column>, c: Column)
    requires KeyColumnsOnly(front) && KeyColumnsOnly(kept) && IsKeyColumn(c) && KeyField(a, c) == KeyField(b, c)
    requires SameOrder(a, b, kept, front)
    ensures KeyColumnsOnly(front + [c]) && SameOrder(a, b, kept, front + [c])
  {
    AppendColumn(a, b, front, c);
    LessTotal(KeyField(a, c), KeyField(b, c));
  }

  lemma VaryingColumn(a: RelationshipKey, b: RelationshipKey, front: seq<Column>, kept: seq<Column>, c: Column)
    requires KeyColumnsOnly(front) && KeyColumnsOnly(kept) && IsKeyColumn(c)
    requires SameOrder(a, b, kept, front)
    ensures KeyColumnsOnly(front + [c]) && KeyColumnsOnly(kept + [c]) && SameOrder(a, b, kept + [c], front + [c])
  {
    AppendColumn(a, b, front, c);
    AppendColumn(a, b, kept, c);
  }

  /** Adding a least significant sort column. */
  lemma AppendColumn(a: RelationshipKey, b: RelationshipKey, cs: seq<Column>, c: Column)
    requires KeyColumnsOnly(cs) && IsKeyColumn(c)
    ensures KeyColumnsOnly(cs + [c])
    ensures IsAfter(a, cs + [c], b) <==>
            IsAfter(a, cs, b) || (CursorValues(a, cs) == CursorValues(b, cs) && Less(KeyField(a, c), KeyField(b, c)))
    ensures CursorValues(a, cs + [c]) == CursorValues(b, cs + [c]) <==>
            CursorValues(a, cs) == CursorValues(b, cs) && KeyField(a, c) == KeyField(b, c)
  {
    ValuesAppend(a, cs, c);
    ValuesAppend(b, cs, c);
    KeyLessAppend(CursorValues(a, cs), CursorValues(b, cs), KeyField(a, c), KeyField(b, c));
    AppendEqual(CursorValues(a, cs), CursorValues(b, cs), KeyField(a, c), KeyField(b, c));
  }

  lemma ValuesAppend(key: RelationshipKey, cs: seq<Column>, c: Column)
    requires KeyColumnsOnly(cs) && IsKeyColumn(c)
    ensures KeyColumnsOnly(cs + [c])
    ensures CursorValues(key, cs + [c]) == CursorValues(key, cs) + [KeyField(key, c)]
  {
  }

  lemma AppendEqual(a: seq<string>, b: seq<string>, x: string, y: string)
    requires |a| == |b|
    ensures a + [x] == b + [y] <==> a == b && x == y
  {
    if a + [x] == b + [y] {
      assert a == (a + [x])[..|a|] && b == (b + [y])[..|a|];
      assert x == (a + [x])[|a|] && y == (b + [y])[|a|];
    }
  }

  /** A cursor read off a row the query returned always fits the query's pins. */
  lemma ReturnedRowFits(q: Query, cs: seq<Column>, row: Row)
    requires Sound(q) && Selects(q.where_, row) && KeyColumnsOnly(cs)
    ensures CursorFits(q.tracker, row.key, cs)
  {
    forall i | 0 <= i < |cs| && HasStaticValue(q.tracker, cs[i])
      ensures KeyField(row.key, cs[i]) == q.tracker[cs[i]].value
    {
      assert Static(q.tracker, cs[i], q.tracker[cs[i]].value);
      assert Implied(q.where_, cs[i], q.tracker[cs[i]].value);
    }
  }

  /** After with a fitting cursor keeps, of the rows selected before, those strictly after the
      cursor in the full sort order. This is exact if and only if some sort column still varies:
      once all are pinned After adds nothing, and the rows equal to the cursor come back. */
  lemma KeysetExact(q: Query, schema: Schema, cursor: RelationshipKey, order: SortOrder, row: Row)
    requires Sound(q) && AfterAccepted(schema, order)
    requires CursorFits(q.tracker, cursor, SortColumns(schema, order))
    requires Selects(q.where_, row)
    ensures
      (Selects(FilterAfter(q, schema, cursor, order).where_, row) <==>
       IsAfter(cursor, SortColumns(schema, order), row.key))
      <==> Varying(q.tracker, SortColumns(schema, order)) != []
  {
    var cs := SortColumns(schema, order);
    var kept := Varying(q.tracker, cs);
    ReturnedRowFits(q, cs, row);
    DroppingPinnedColumns(q.tracker, cs, cursor, row.key);
    if kept != [] {
      BothFormsAgree(cursor, kept, row);
      SelectsAppend(q.where_, AfterClause(schema.pagination, cursor, kept), row);
    }
  }

  // ---- memdb's cursor filter ----

  lemma KeyLessSix(a: seq<string>, b: seq<string>)
    requires |a| == |b| == 6
    ensures KeyLess(a, b) <==>
            LessTriple(a[0], a[1], a[2], b[0], b[1], b[2]) ||
            (a[0] == b[0] && a[1] == b[1] && a[2] == b[2] && LessTriple(a[3], a[4], a[5], b[3], b[4], b[5]))
  {
    KeyLessThree(a[3..], b[3..]);
    assert KeyLess(a, b) <==> Less(a[0], b[0]) || (a[0] == b[0] && KeyLess(a[1..], b[1..]));
    assert a[1..][1..] == a[2..] && b[1..][1..] == b[2..];
    assert KeyLess(a[1..], b[1..]) <==> Less(a[1], b[1]) || (a[1] == b[1] && KeyLess(a[2..], b[2..]));
    assert a[2..][1..] == a[3..] && b[2..][1..] == b[3..];
    assert KeyLess(a[2..], b[2..]) <==> Less(a[2], b[2]) || (a[2] == b[2] && KeyLess(a[3..], b[3..]));
  }

  lemma KeyLessThree(a: seq<string>, b: seq<string>)
    requires |a| == |b| == 3
    ensures KeyLess(a, b) <==> LessTriple(a[0], a[1], a[2], b[0], b[1], b[2])
  {
    assert KeyLess(a[1..], b[1..]) <==> Less(a[1], b[1]) || (a[1] == b[1] && KeyLess(a[1..][1..], b[1..][1..]));
    assert KeyLess(a[1..][1..], b[1..][1..]) <==> Less(a[2], b[2]);
  }

  /** The fields of a key in the default order of a sort. */
  function DefaultColumns(order: SortOrder): seq<Column> {
    if order == BySubject then DEFAULT_SUBJECT_ORDER else DEFAULT_RESOURCE_ORDER
  }

  function SubjectFirst(key: RelationshipKey): (s: seq<string>)
    ensures |s| == 6
  {
    [key.subjectType, key.subjectID, key.subjectRelation, key.resourceType, key.resourceID, key.resourceRelation]
  }

  function ResourceFirst(key: RelationshipKey): (s: seq<string>)
    ensures |s| == 6
  {
    [key.resourceType, key.resourceID, key.resourceRelation, key.subjectType, key.subjectID, key.subjectRelation]
  }

  lemma DefaultValues(order: SortOrder, key: RelationshipKey)
    ensures KeyColumnsOnly(DefaultColumns(order))
    ensures CursorValues(key, DefaultColumns(order)) ==
            if order == BySubject then SubjectFirst(key) else ResourceFirst(key)
  {
  }

  lemma SixInjective(a: RelationshipKey, b: RelationshipKey)
    requires SubjectFirst(a) == SubjectFirst(b) || ResourceFirst(a) == ResourceFirst(b)
    ensures a == b
  {
    var bySubject := SubjectFirst(a) == SubjectFirst(b);
    var x := if bySubject then SubjectFirst(a) else ResourceFirst(a);
    var y := if bySubject then SubjectFirst(b) else ResourceFirst(b);
    assert x[0] == y[0] && x[1] == y[1] && x[2] == y[2] && x[3] == y[3] && x[4] == y[4] && x[5] == y[5];
  }

  lemma DefaultValuesInjective(order: SortOrder, a: RelationshipKey, b: RelationshipKey)
    requires KeyColumnsOnly(DefaultColumns(order))
    requires CursorValues(a, DefaultColumns(order)) == CursorValues(b, DefaultColumns(order))
    ensures a == b
  {
    DefaultValues(order, a);
    DefaultValues(order, b);
    SixInjective(a, b);
  }

  lemma SubjectCursor(cursor: RelationshipKey, key: RelationshipKey)
    ensures CursorDrops(Some(cursor), BySubject, key) <==>
            cursor == key || KeyLess(SubjectFirst(key), SubjectFirst(cursor))
  {
    KeyLessSix(SubjectFirst(key), SubjectFirst(cursor));
  }

  lemma ResourceCursor(cursor: RelationshipKey, order: SortOrder, key: RelationshipKey)
    requires !order.Unsorted? && !order.BySubject?
    ensures CursorDrops(Some(cursor), order, key) <==>
            cursor == key || KeyLess(ResourceFirst(key), ResourceFirst(cursor))
  {
    KeyLessSix(ResourceFirst(key), ResourceFirst(cursor));
  }

  /** memdb's cursor filter keeps exactly the rows strictly after the cursor in the default
      column order. */
  lemma MemdbCursorExact(cursor: RelationshipKey, order: SortOrder, key: RelationshipKey)
    requires !order.Unsorted?
    ensures KeyColumnsOnly(DefaultColumns(order))
    ensures CursorDrops(Some(cursor), order, key) <==> !IsAfter(cursor, DefaultColumns(order), key)
  {
    DefaultValues(order, cursor);
    DefaultValues(order, key);
    KeyLessTotal(CursorValues(cursor, DefaultColumns(order)), CursorValues(key, DefaultColumns(order)));
    if CursorValues(cursor, DefaultColumns(order)) == CursorValues(key, DefaultColumns(order)) {
      DefaultValuesInjective(order, cursor, key);
    }
    if order.BySubject? {
      SubjectCursor(cursor, key);
    } else {
      ResourceCursor(cursor, order, key);
    }
  }

  /** Both backends end to end: with the default column orders, a filter the builder accepts and
      a cursor read off a row that passes the filter, the compiled query with After and memdb's
      filter function agree on a row if and only if the filter drops the row or some sort column is
      not pinned. */
  lemma BackendsAgree(schema: Schema, f: RelationshipsFilter, order: SortOrder, cursorRow: Row, row: Row)
    requires schema.resourceOrder == [] && schema.subjectOrder == []
    requires order.ByResource? || order.BySubject?
    requires FilterAccepted(f) && !Drops(f, cursorRow)
    ensures AfterAccepted(schema, order)
    ensures
      (Selects(FilterAfter(FilterRelationships(EMPTY_QUERY, f), schema, cursorRow.key, order).where_, row) <==>
       !Drops(f, row) && !CursorDrops(Some(cursorRow.key), order, row.key))
      <==> Drops(f, row) || Varying(FilterRelationships(EMPTY_QUERY, f).tracker, DefaultColumns(order)) != []
  {
    var q := FilterRelationships(EMPTY_QUERY, f);
    var cs := DefaultColumns(order);
    assert SortColumns(schema, order) == cs;
    EmptyQuerySound();
    RelationshipsSound(EMPTY_QUERY, f);
    FilterCompilationAgrees(EMPTY_QUERY, f, cursorRow);
    FilterCompilationAgrees(EMPTY_QUERY, f, row);
    MemdbCursorExact(cursorRow.key, order, row.key);
    ReturnedRowFits(q, cs, cursorRow);
    if Selects(q.where_, row) {
      KeysetExact(q, schema, cursorRow.key, order, row);
    } else {
      AfterNarrows(q, schema, cursorRow.key, order, row);
    }
  }

  /** After never adds rows. */
  lemma AfterNarrows(q: Query, schema: Schema, cursor: RelationshipKey, order: SortOrder, row: Row)
    requires AfterAccepted(schema, order)
    ensures Selects(FilterAfter(q, schema, cursor, order).where_, row) ==> Selects(q.where_, row)
  {
    var kept := Varying(q.tracker, SortColumns(schema, order));
    VaryingKeyColumns(q.tracker, SortColumns(schema, order));
    SelectsAppend(q.where_, AfterClause(schema.pagination, cursor, kept), row);
  }
}
