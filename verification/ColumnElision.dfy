/** Dropping pinned columns from the SELECT list and restoring them at scan time
    (internal/datastore/common/sql.go:853-975, internal/datastore/common/relationships.go:98-205). */
module ColumnElision {
  import opened Wrappers
  import opened SqlClauses
  import opened QueryFilterer

  // ---- The tracker's promise: WHERE implies every pinned value ----

  ghost predicate Implied(where_: seq<Clause>, c: Column, v: string) {
    forall row :: Selects(where_, row) ==> CellOf(row, c) == Text(v)
  }

  ghost predicate Sound(q: Query) {
    forall c, v :: Static(q.tracker, c, v) ==> Implied(q.where_, c, v)
  }

  lemma {:induction false} RecordAllStatic(t: Tracker, c: Column, vs: seq<string>)
    ensures forall c', v :: Static(RecordAll(t, c, vs), c', v) ==>
              Static(t, c', v) || (c' == c && c !in t && vs != [] && forall i :: 0 <= i < |vs| ==> vs[i] == v)
    ensures c in t || vs != [] ==> c in RecordAll(t, c, vs)
    ensures vs == [] ==> RecordAll(t, c, vs) == t
  {
    if vs != [] {
      RecordAllStatic(t, c, vs[..|vs| - 1]);
    }
  }

  /** A conjunct and a tracker update keep the promise when each newly pinned value follows
      from the conjunct. */
  lemma StepSound(q: Query, clause: Clause, t: Tracker)
    requires Sound(q)
    requires forall c, v, row :: Static(t, c, v) && Eval(clause, row) == True ==>
               Static(q.tracker, c, v) || CellOf(row, c) == Text(v)
    ensures Sound(Query(q.where_ + [clause], t))
  {
    forall c, v, row | Static(t, c, v) && Selects(q.where_ + [clause], row)
      ensures CellOf(row, c) == Text(v)
    {
      SelectsAppend(q.where_, clause, row);
      if Static(q.tracker, c, v) {
        assert Implied(q.where_, c, v);
      }
    }
  }

  lemma EqSound(q: Query, c: Column, v: string)
    requires Sound(q)
    ensures Sound(FilterEq(q, c, v))
  {
    StepSound(q, Eq(c, v), Record(q.tracker, c, v));
  }

  lemma InSound(q: Query, c: Column, vs: seq<string>)
    requires Sound(q)
    ensures Sound(FilterIn(q, c, vs))
  {
    RecordAllStatic(q.tracker, c, vs);
    StepSound(q, In(c, vs), RecordAll(q.tracker, c, vs));
  }

  lemma SelectorPartsTrue(s: SubjectsSelector, row: Row)
    ensures EvalAnd(SelectorParts(s), row) == True <==>
            && (s.subjectType != "" ==> Eval(Eq(ColUsersetNamespace, s.subjectType), row) == True)
            && (s.subjectIds != [] ==> Eval(In(ColUsersetObjectID, s.subjectIds), row) == True)
            && (!s.relation.IsEmpty() ==> Eval(RelationClause(s.relation), row) == True)
  {
    var typeClause, idClause := Eq(ColUsersetNamespace, s.subjectType), In(ColUsersetObjectID, s.subjectIds);
    var relationClause := RelationClause(s.relation);
    EvalThree(if s.subjectType != "" then [typeClause] else [], if s.subjectIds != [] then [idClause] else [],
              if s.relation.IsEmpty() then [] else [relationClause], row);
    EvalOne(typeClause, row);
    EvalOne(idClause, row);
    EvalOne(relationClause, row);
  }

  lemma EvalSelectorParts(s: SubjectsSelector, row: Row)
    ensures EvalAnd(SelectorParts(s), row) == True <==>
            && (s.subjectType != "" ==> row.key.subjectType == s.subjectType)
            && (s.subjectIds != [] ==> row.key.subjectID in s.subjectIds)
            && (!s.relation.IsEmpty() ==> Eval(RelationClause(s.relation), row) == True)
  {
    SelectorPartsTrue(s, row);
    SubjectTypeMeaning(s.subjectType, row);
    SubjectIDMeaning(s.subjectIds, row);
  }

  lemma SubjectTypeMeaning(v: string, row: Row)
    ensures Eval(Eq(ColUsersetNamespace, v), row) == True <==> row.key.subjectType == v
  {
    assert CellOf(row, ColUsersetNamespace) == Text(row.key.subjectType);
  }

  lemma SubjectIDMeaning(vs: seq<string>, row: Row)
    ensures Eval(In(ColUsersetObjectID, vs), row) == True <==> row.key.subjectID in vs
  {
    assert CellOf(row, ColUsersetObjectID) == Text(row.key.subjectID);
  }

  lemma EvalThree(a: seq<Clause>, b: seq<Clause>, c: seq<Clause>, row: Row)
    ensures EvalAnd(a + b + c, row) == True <==>
            EvalAnd(a, row) == True && EvalAnd(b, row) == True && EvalAnd(c, row) == True
  {
    EvalAndConcat(a + b, c, row);
    EvalAndConcat(a, b, row);
  }

  lemma EvalOne(clause: Clause, row: Row)
    ensures EvalAnd([clause], row) == True <==> Eval(clause, row) == True
    ensures EvalAnd([], row) == True
  {
    EvalAndTrue([clause], row);
  }

  lemma EvalRelationClause(f: RelationFilter, row: Row)
    requires !f.IsEmpty()
    ensures Eval(RelationClause(f), row) == True <==>
            if f.onlyNonEllipsis then row.key.subjectRelation != ELLIPSIS
            else row.key.subjectRelation in f.Relations()
  {
    if !f.onlyNonEllipsis {
      var relations := f.Relations();
      var each := EqEach(ColUsersetRelation, relations);
      EvalOrTrue(each, row);
      assert relations != [] by {
        assert f.includeEllipsis ==> relations[0] == ELLIPSIS;
        assert f.nonEllipsis != "" ==> relations[|relations| - 1] == f.nonEllipsis;
      }
      if row.key.subjectRelation in relations {
        var i :| 0 <= i < |relations| && relations[i] == row.key.subjectRelation;
        assert Eval(each[i], row) == True;
      }
    }
  }

  lemma OneSelectorStatic(t: Tracker, s: SubjectsSelector, c: Column, v: string, row: Row)
    requires Static(SelectorTracker(t, s), c, v)
    requires EvalAnd(SelectorParts(s), row) == True
    ensures Static(t, c, v) || CellOf(row, c) == Text(v)
  {
    var t1 := if s.subjectType != "" then Record(t, ColUsersetNamespace, s.subjectType) else t;
    var t2 := RecordAll(t1, ColUsersetObjectID, s.subjectIds);
    EvalSelectorParts(s, row);
    if !Static(t2, c, v) {
      RelationStatic(t2, s.relation, c, v, row);
    } else {
      RecordAllStatic(t1, ColUsersetObjectID, s.subjectIds);
    }
  }

  lemma RelationStatic(t: Tracker, f: RelationFilter, c: Column, v: string, row: Row)
    requires Static(RelationTracker(t, f), c, v) && !Static(t, c, v)
    requires !f.IsEmpty() ==> Eval(RelationClause(f), row) == True
    ensures CellOf(row, c) == Text(v)
  {
    RecordAllStatic(t, ColUsersetRelation, f.Relations());
    if !f.IsEmpty() {
      EvalRelationClause(f, row);
    }
  }

  /** Columns already known to vary stay that way. */
  lemma {:induction false} VaryingStays(t: Tracker, ss: seq<SubjectsSelector>)
    requires forall c :: c in {ColUsersetNamespace, ColUsersetObjectID, ColUsersetRelation} ==> c in t && t[c] == None
    ensures SelectorTrackers(t, ss) == t
  {
    if ss != [] {
      var s := ss[|ss| - 1];
      VaryingStays(t, ss[..|ss| - 1]);
      RecordAllVarying(t, ColUsersetObjectID, s.subjectIds);
      RecordAllVarying(t, ColUsersetRelation, s.relation.Relations());
      assert t[ColUsersetRelation := None] == t;
    }
  }

  lemma {:induction false} RecordAllVarying(t: Tracker, c: Column, vs: seq<string>)
    requires c in t && t[c] == None
    ensures RecordAll(t, c, vs) == t
  {
    if vs != [] {
      RecordAllVarying(t, c, vs[..|vs| - 1]);
    }
  }

  lemma OneOrNoSelector(t: Tracker, ss: seq<SubjectsSelector>, c: Column, v: string, row: Row)
    requires |ss| <= 1
    requires Static(SelectorTrackers(t, ss), c, v) && Eval(Or(SelectorClauses(ss)), row) == True
    ensures Static(t, c, v) || CellOf(row, c) == Text(v)
  {
    if ss == [] {
      EvalOrTrue([], row);
      assert SelectorClauses(ss) == [];
    } else {
      assert ss == [ss[0]];
      OneTracker(t, ss[0]);
      OneClause(ss[0], row);
      OneSelectorStatic(t, ss[0], c, v, row);
    }
  }

  lemma OneClause(s: SubjectsSelector, row: Row)
    ensures Eval(Or(SelectorClauses([s])), row) == True <==> EvalAnd(SelectorParts(s), row) == True
  {
    var clause := And(SelectorParts(s));
    assert SelectorClauses([s]) == [clause];
    EvalOrTrue([clause], row);
    assert Eval(clause, row) == EvalAnd(SelectorParts(s), row);
  }

  lemma OneTracker(t: Tracker, s: SubjectsSelector)
    ensures SelectorTrackers(t, [s]) == SelectorTracker(t, s)
  {
    assert [s][..0] == [] && SelectorTrackers(t, []) == t;
  }

  lemma SelectorsSound(q: Query, ss: seq<SubjectsSelector>)
    requires Sound(q)
    ensures Sound(FilterSelectors(q, ss))
  {
    var t := SelectorTrackers(VarySubjects(q.tracker, ss), ss);
    var clause := Or(SelectorClauses(ss));
    forall c, v, row | Static(t, c, v) && Eval(clause, row) == True
      ensures Static(q.tracker, c, v) || CellOf(row, c) == Text(v)
    {
      if |ss| > 1 {
        VaryingStays(VarySubjects(q.tracker, ss), ss);
      } else {
        OneOrNoSelector(q.tracker, ss, c, v, row);
      }
    }
    StepSound(q, clause, t);
  }

  lemma WhereSound(q: Query, clause: Clause)
    requires Sound(q)
    ensures Sound(AddWhere(q, clause))
  {
    StepSound(q, clause, q.tracker);
  }

  lemma NoCaveatSound(q: Query)
    requires Sound(q)
    ensures Sound(FilterNoCaveat(q))
  {
    StepSound(q, Or([IsNull(ColCaveatName), Eq(ColCaveatName, "")]), q.tracker[ColCaveatName := None]);
  }

  lemma ResourceSound(q: Query, f: RelationshipsFilter)
    requires Sound(q) && FilterAccepted(f)
    ensures Sound(ResourceStage(q, f))
  {
    EqSound(q, ColNamespace, f.resourceType);
    var q1 := if f.resourceType != "" then FilterEq(q, ColNamespace, f.resourceType) else q;
    EqSound(q1, ColRelation, f.resourceRelation);
    var q2 := if f.resourceRelation != "" then FilterEq(q1, ColRelation, f.resourceRelation) else q1;
    InSound(q2, ColObjectID, f.resourceIds);
    var q3 := if f.resourceIds != [] then FilterIn(q2, ColObjectID, f.resourceIds) else q2;
    if f.idPrefix != "" {
      WhereSound(q3, Like(ColObjectID, LikePrefix.BuildLikePrefix(f.idPrefix).value));
    }
  }

  lemma RelationshipsSound(q: Query, f: RelationshipsFilter)
    requires Sound(q) && FilterAccepted(f)
    ensures Sound(FilterRelationships(q, f))
  {
    ResourceSound(q, f);
    var q1 := ResourceStage(q, f);
    SelectorsSound(q1, f.selectors);
    var q2 := SubjectStage(q1, f);
    EqSound(q2, ColCaveatName, f.caveatName);
    NoCaveatSound(q2);
    var q3 := CaveatStage(q2, f);
    WhereSound(q3, IsNotNull(ColExpiration));
    WhereSound(q3, IsNull(ColExpiration));
  }

  // ---- Chains of calls ----

  datatype Call =
    | ResourceTypeCall(resourceType: string)
    | ResourceIDCall(objectID: string)
    | ResourceIDsCall(ids: seq<string>)
    | PrefixCall(prefix: string)
    | RelationCall(relation: string)
    | CaveatNameCall(caveatName: string)
    | NoCaveatCall
    | SelectorsCall(selectors: seq<SubjectsSelector>)
    | RelationshipsCall(filter: RelationshipsFilter)
    | SubjectFilterCall(subjectType: string, subjectID: string, subjectRelation: Option<string>)
    | AfterCall(cursor: RelationshipKey, order: SortOrder)

  predicate CallAccepted(schema: Schema, call: Call) {
    match call
    case ResourceIDsCall(ids) => NoEmptyID(ids)
    case PrefixCall(prefix) => PrefixAccepted(prefix)
    case SelectorsCall(ss) => SelectorsAccepted(ss)
    case RelationshipsCall(f) => FilterAccepted(f)
    case AfterCall(_, order) => AfterAccepted(schema, order)
    case _ => true
  }

  function ApplyCall(schema: Schema, q: Query, call: Call): Query
    requires CallAccepted(schema, call)
  {
    match call
    case ResourceTypeCall(t) => FilterEq(q, ColNamespace, t)
    case ResourceIDCall(id) => FilterEq(q, ColObjectID, id)
    case ResourceIDsCall(ids) => FilterIn(q, ColObjectID, ids)
    case PrefixCall(prefix) => FilterPrefix(q, prefix)
    case RelationCall(r) => FilterEq(q, ColRelation, r)
    case CaveatNameCall(n) => FilterEq(q, ColCaveatName, n)
    case NoCaveatCall => FilterNoCaveat(q)
    case SelectorsCall(ss) => FilterSelectors(q, ss)
    case RelationshipsCall(f) => FilterRelationships(q, f)
    case SubjectFilterCall(t, id, r) => FilterSubject(q, t, id, r)
    case AfterCall(cursor, order) => FilterAfter(q, schema, cursor, order)
  }

  /** The one call that pins a value WHERE does not imply: FilterToSubjectFilter for a relation
      other than the ellipsis, on a query that has not yet recorded the subject relation. */
  predicate Mispins(q: Query, call: Call) {
    && call.SubjectFilterCall? && call.subjectRelation.Some?
    && DatastoreRelation(call.subjectRelation.value) != ELLIPSIS
    && ColUsersetRelation !in q.tracker
  }

  predicate AcceptedChain(schema: Schema, q: Query, calls: seq<Call>)
    decreases |calls|
  {
    calls == [] ||
    (CallAccepted(schema, calls[0]) && AcceptedChain(schema, ApplyCall(schema, q, calls[0]), calls[1..]))
  }

  /** None of the calls mispins where it stands. */
  predicate NoMispin(schema: Schema, q: Query, calls: seq<Call>)
    requires AcceptedChain(schema, q, calls)
    decreases |calls|
  {
    calls == [] || (!Mispins(q, calls[0]) && NoMispin(schema, ApplyCall(schema, q, calls[0]), calls[1..]))
  }

  predicate CleanChain(schema: Schema, q: Query, calls: seq<Call>) {
    AcceptedChain(schema, q, calls) && NoMispin(schema, q, calls)
  }

  function RunChain(schema: Schema, q: Query, calls: seq<Call>): Query
    requires AcceptedChain(schema, q, calls)
    decreases |calls|
  {
    if calls == [] then q else RunChain(schema, ApplyCall(schema, q, calls[0]), calls[1..])
  }

  lemma SubjectSound(q: Query, subjectType: string, subjectID: string, relation: Option<string>)
    requires Sound(q)
    requires !Mispins(q, SubjectFilterCall(subjectType, subjectID, relation))
    ensures Sound(FilterSubject(q, subjectType, subjectID, relation))
  {
    EqSound(q, ColUsersetNamespace, subjectType);
    var q1 := FilterEq(q, ColUsersetNamespace, subjectType);
    EqSound(q1, ColUsersetObjectID, subjectID);
    var q2 := if subjectID != "" then FilterEq(q1, ColUsersetObjectID, subjectID) else q1;
    if relation.Some? {
      StepSound(q2, Eq(ColUsersetRelation, DatastoreRelation(relation.value)),
                Record(q2.tracker, ColUsersetRelation, ELLIPSIS));
    }
  }

  lemma CallSound(schema: Schema, q: Query, call: Call)
    requires Sound(q) && CallAccepted(schema, call) && !Mispins(q, call)
    ensures Sound(ApplyCall(schema, q, call))
  {
    match call
    case ResourceTypeCall(t) => EqSound(q, ColNamespace, t);
    case ResourceIDCall(id) => EqSound(q, ColObjectID, id);
    case ResourceIDsCall(ids) => InSound(q, ColObjectID, ids);
    case PrefixCall(prefix) => WhereSound(q, Like(ColObjectID, LikePrefix.BuildLikePrefix(prefix).value));
    case RelationCall(r) => EqSound(q, ColRelation, r);
    case CaveatNameCall(n) => EqSound(q, ColCaveatName, n);
    case NoCaveatCall => NoCaveatSound(q);
    case SelectorsCall(ss) => SelectorsSound(q, ss);
    case RelationshipsCall(f) => RelationshipsSound(q, f);
    case SubjectFilterCall(t, id, r) => SubjectSound(q, t, id, r);
    case AfterCall(cursor, order) =>
      var cs := Varying(q.tracker, SortColumns(schema, order));
      VaryingKeyColumns(q.tracker, SortColumns(schema, order));
      WhereSound(q, AfterClause(schema.pagination, cursor, cs));
  }

  /** After any linear chain of error-free calls none of which mispins, every pinned value is
      implied by the accumulated WHERE tree. */
  lemma {:induction false} ChainSound(schema: Schema, q: Query, calls: seq<Call>)
    requires Sound(q) && CleanChain(schema, q, calls)
    ensures Sound(RunChain(schema, q, calls))
    decreases |calls|
  {
    if calls != [] {
      CallSound(schema, q, calls[0]);
      ChainSound(schema, ApplyCall(schema, q, calls[0]), calls[1..]);
    }
  }

  lemma EmptyQuerySound()
    ensures Sound(EMPTY_QUERY)
  {
  }

  // ---- SELECT list and scan slots ----

  /** The parts of RelationshipsQueryBuilder that decide what is selected. */
  datatype Projection = Projection(
    optimizeColumns: bool, skipCaveats: bool, skipExpiration: bool,
    expirationDisabled: bool, integrityEnabled: bool)
  {
    predicate WithCaveats() {
      !skipCaveats || !optimizeColumns
    }

    predicate WithExpiration() {
      !skipExpiration && !expirationDisabled
    }

    function ExtraColumns(): seq<Column> {
      (if WithCaveats() then [ColCaveatName, ColCaveatContext] else []) +
      (if WithExpiration() then [ColExpiration] else []) +
      (if integrityEnabled then [ColIntegrityKeyID, ColIntegrityHash, ColIntegrityTimestamp] else [])
    }
  }

  /** A selected expression: a column, or the literal 1 when no column is left. */
  datatype Selected = SelectColumn(col: Column) | SelectOne

  /** A scan destination: the variable of a column, or the throw-away variable. */
  datatype Slot = Field(col: Column) | Unused

  function CheckColumn(p: Projection, t: Tracker, columns: seq<Selected>, c: Column): seq<Selected> {
    if !p.optimizeColumns then columns + [SelectColumn(c)]
    else if !HasStaticValue(t, c) then columns + [SelectColumn(c)]
    else columns
  }

  predicate Elided(p: Projection, t: Tracker, c: Column) {
    p.optimizeColumns && HasStaticValue(t, c)
  }

  /** The value a selected expression has on a row. */
  function SelectedValue(s: Selected, row: Row): Cell {
    match s
    case SelectColumn(c) => CellOf(row, c)
    case SelectOne => Blob(1)
  }

  /** checkColumn applied to one column after the other. */
  function SelectEach(p: Projection, t: Tracker, cs: seq<Column>): seq<Selected> {
    if cs == [] then []
    else CheckColumn(p, t, SelectEach(p, t, cs[..|cs| - 1]), cs[|cs| - 1])
  }

  function SelectAll(cs: seq<Column>): seq<Selected> {
    seq(|cs|, i requires 0 <= i < |cs| => SelectColumn(cs[i]))
  }

  function SelectColumns(p: Projection, t: Tracker): seq<Selected> {
    var cs := SelectEach(p, t, KEY_COLUMNS) + SelectAll(p.ExtraColumns());
    if cs == [] then [SelectOne] else cs
  }

  /** Slot i receives what expression i produces, for every i. */
  predicate Aligned(slots: seq<Slot>, columns: seq<Selected>) {
    && |slots| == |columns|
    && forall i :: 0 <= i < |slots| ==> slots[i] == SlotFor(columns[i])
  }

  function SlotFor(s: Selected): Slot {
    match s
    case SelectColumn(c) => Field(c)
    case SelectOne => Unused
  }

  /** The columns in `done` have been dealt with: the elided ones are stored, the others, and
      nothing else, have a slot. */
  ghost predicate Prepared(p: Projection, t: Tracker, done: seq<Column>, slots: seq<Slot>, fields: map<Column, Cell>) {
    && (forall c :: c in done && Elided(p, t, c) ==> c in fields && fields[c] == Text(t[c].value))
    && (forall c :: c in done && !Elided(p, t, c) ==> Field(c) in slots)
    && (forall c :: Field(c) in slots && IsKeyColumn(c) ==> !Elided(p, t, c))
  }

  /** Beyond the key columns, exactly the extra columns have a slot or a value. */
  ghost predicate Declared(p: Projection, slots: seq<Slot>, fields: map<Column, Cell>) {
    && (forall c :: !IsKeyColumn(c) ==> (Field(c) in slots <==> IsExtra(p, c)))
    && (forall c :: c in fields && !IsKeyColumn(c) ==> IsExtra(p, c))
  }

  ghost predicate OnlyKeys(slots: seq<Slot>, fields: map<Column, Cell>) {
    && (forall c :: Field(c) in slots ==> IsKeyColumn(c))
    && (forall c :: c in fields ==> IsKeyColumn(c))
  }

  function FieldsOf(cs: seq<Column>): seq<Slot> {
    seq(|cs|, i requires 0 <= i < |cs| => Field(cs[i]))
  }

  lemma FieldsOfMembers(cs: seq<Column>, c: Column)
    ensures Field(c) in FieldsOf(cs) <==> c in cs
  {
    if c in cs {
      var i :| 0 <= i < |cs| && cs[i] == c;
      assert FieldsOf(cs)[i] == Field(c);
    }
  }

  /** Which extra columns there are. */
  predicate IsExtra(p: Projection, c: Column) {
    match c
    case ColCaveatName => p.WithCaveats()
    case ColCaveatContext => p.WithCaveats()
    case ColExpiration => p.WithExpiration()
    case ColIntegrityKeyID => p.integrityEnabled
    case ColIntegrityHash => p.integrityEnabled
    case ColIntegrityTimestamp => p.integrityEnabled
    case _ => false
  }

  lemma InThree<T>(a: seq<T>, b: seq<T>, c: seq<T>, x: T)
    ensures x in a + b + c <==> x in a || x in b || x in c
  {
  }

  lemma ExtraMember(p: Projection, c: Column)
    ensures c in p.ExtraColumns() <==> IsExtra(p, c)
  {
    var caveats := [ColCaveatName, ColCaveatContext];
    var integrity := [ColIntegrityKeyID, ColIntegrityHash, ColIntegrityTimestamp];
    InThree(if p.WithCaveats() then caveats else [], if p.WithExpiration() then [ColExpiration] else [],
            if p.integrityEnabled then integrity else [], c);
    assert c in caveats <==> c == ColCaveatName || c == ColCaveatContext;
    assert c in integrity <==> c == ColIntegrityKeyID || c == ColIntegrityHash || c == ColIntegrityTimestamp;
  }

  lemma DeclaredAppend(p: Projection, slots: seq<Slot>, fields: map<Column, Cell>)
    requires OnlyKeys(slots, fields)
    ensures Declared(p, slots + FieldsOf(p.ExtraColumns()), fields)
    ensures forall c :: Field(c) in FieldsOf(p.ExtraColumns()) ==> !IsKeyColumn(c)
  {
    var extra := FieldsOf(p.ExtraColumns());
    forall c: Column
      ensures Field(c) in extra <==> IsExtra(p, c)
    {
      ExtraMember(p, c);
      FieldsOfMembers(p.ExtraColumns(), c);
    }
  }

  lemma AlignedAppend(s1: seq<Slot>, c1: seq<Selected>, s2: seq<Slot>, c2: seq<Selected>)
    requires Aligned(s1, c1) && Aligned(s2, c2)
    ensures Aligned(s1 + s2, c1 + c2)
  {
  }

  lemma PreparedAppend(p: Projection, t: Tracker, slots: seq<Slot>, extra: seq<Slot>, fields: map<Column, Cell>)
    requires Prepared(p, t, KEY_COLUMNS, slots, fields)
    requires forall c :: Field(c) in extra ==> !IsKeyColumn(c)
    ensures Prepared(p, t, KEY_COLUMNS, slots + extra, fields)
  {
  }

  /** After a scan the key columns hold what a reader sees and the extra ones the row's cells. */
  lemma ScanFills(p: Projection, t: Tracker, slots: seq<Slot>,
                  before: map<Column, Cell>, after: map<Column, Cell>, row: Row)
    requires Prepared(p, t, KEY_COLUMNS, slots, before) && Declared(p, slots, before)
    requires forall c :: Field(c) in slots ==> c in after && after[c] == CellOf(row, c)
    requires forall c :: c in before && Field(c) !in slots ==> c in after && after[c] == before[c]
    requires forall c :: c in after ==> c in before || Field(c) in slots
    ensures Prepared(p, t, KEY_COLUMNS, slots, after) && Declared(p, slots, after)
    ensures forall c :: c in KEY_COLUMNS ==> c in after && after[c] == Text(RebuiltField(p, t, row, c))
    ensures forall c :: !IsKeyColumn(c) ==> (c in after <==> IsExtra(p, c))
    ensures forall c :: IsExtra(p, c) ==> c in after && after[c] == CellOf(row, c)
  {
    forall c | c in KEY_COLUMNS
      ensures c in after && after[c] == Text(RebuiltField(p, t, row, c))
    {
      if !Elided(p, t, c) {
        assert Field(c) in slots;
      }
    }
    forall c | IsExtra(p, c)
      ensures c in after && after[c] == CellOf(row, c)
    {
      assert Field(c) in slots;
    }
  }

  /** The destination variables of one query (internal/datastore/common/relationships.go:110-122). */
  class ScanTarget {
    var fields: map<Column, Cell>

    constructor ()
      ensures fields == map[]
    {
      fields := map[];
    }

    /** Pinned columns are stored at once; the others get a slot. */
    method StaticValueOrAddColumn(p: Projection, t: Tracker, slots: seq<Slot>, c: Column, ghost done: seq<Column>)
      returns (r: seq<Slot>)
      requires Prepared(p, t, done, slots, fields) && Aligned(slots, SelectEach(p, t, done))
      modifies this
      ensures Prepared(p, t, done + [c], r, fields) && Aligned(r, SelectEach(p, t, done + [c]))
      ensures OnlyKeys(slots, old(fields)) && IsKeyColumn(c) ==> OnlyKeys(r, fields)
    {
      assert (done + [c])[..|done|] == done;
      r := slots;
      if !p.optimizeColumns {
        r := slots + [Field(c)];
      } else if c in t && t[c].Some? {
        fields := fields[c := Text(t[c].value)];
      } else {
        r := slots + [Field(c)];
      }
    }

    method KeyColumnsToSelect(p: Projection, t: Tracker) returns (slots: seq<Slot>)
      modifies this
      ensures Aligned(slots, SelectEach(p, t, KEY_COLUMNS))
      ensures Prepared(p, t, KEY_COLUMNS, slots, fields)
      ensures OnlyKeys([], old(fields)) ==> OnlyKeys(slots, fields)
    {
      slots := ThreeColumnsToSelect(p, t, [], ColNamespace, ColObjectID, ColRelation, []);
      ghost var done := [] + [ColNamespace, ColObjectID, ColRelation];
      slots := ThreeColumnsToSelect(p, t, slots, ColUsersetNamespace, ColUsersetObjectID, ColUsersetRelation, done);
      assert done + [ColUsersetNamespace, ColUsersetObjectID, ColUsersetRelation] == KEY_COLUMNS;
    }

    /** Type, ID and relation of one side. */
    method ThreeColumnsToSelect(p: Projection, t: Tracker, slots: seq<Slot>, a: Column, b: Column, c: Column,
                                ghost done: seq<Column>)
      returns (r: seq<Slot>)
      requires Prepared(p, t, done, slots, fields) && Aligned(slots, SelectEach(p, t, done))
      modifies this
      ensures Prepared(p, t, done + [a, b, c], r, fields) && Aligned(r, SelectEach(p, t, done + [a, b, c]))
      ensures OnlyKeys(slots, old(fields)) && IsKeyColumn(a) && IsKeyColumn(b) && IsKeyColumn(c) ==> OnlyKeys(r, fields)
    {
      r := StaticValueOrAddColumn(p, t, slots, a, done);
      r := StaticValueOrAddColumn(p, t, r, b, done + [a]);
      r := StaticValueOrAddColumn(p, t, r, c, done + [a] + [b]);
      assert done + [a] + [b] + [c] == done + [a, b, c];
    }

    method ColumnsToSelect(p: Projection, t: Tracker) returns (slots: seq<Slot>)
      requires fields == map[]
      modifies this
      ensures Aligned(slots, SelectColumns(p, t))
      ensures Prepared(p, t, KEY_COLUMNS, slots, fields) && Declared(p, slots, fields)
    {
      slots := KeyColumnsToSelect(p, t);
      var extra := ExtraColumnsToSelect(p);
      DeclaredAppend(p, slots, fields);
      AlignedAppend(slots, SelectEach(p, t, KEY_COLUMNS), extra, SelectAll(p.ExtraColumns()));
      PreparedAppend(p, t, slots, extra, fields);
      slots := slots + extra;
      if |slots| == 0 {
        slots := [Unused];
      }
    }

    method ExtraColumnsToSelect(p: Projection) returns (extra: seq<Slot>)
      ensures extra == FieldsOf(p.ExtraColumns()) && Aligned(extra, SelectAll(p.ExtraColumns()))
    {
      extra := [];
      ghost var done: seq<Column> := [];
      if p.WithCaveats() {
        extra := extra + [Field(ColCaveatName), Field(ColCaveatContext)];
        done := done + [ColCaveatName, ColCaveatContext];
      }
      assert extra == FieldsOf(done);
      if p.WithExpiration() {
        extra := extra + [Field(ColExpiration)];
        done := done + [ColExpiration];
      }
      assert extra == FieldsOf(done);
      if p.integrityEnabled {
        extra := extra + [Field(ColIntegrityKeyID), Field(ColIntegrityHash), Field(ColIntegrityTimestamp)];
        done := done + [ColIntegrityKeyID, ColIntegrityHash, ColIntegrityTimestamp];
      }
      assert done == p.ExtraColumns();
    }

    /** rows.Scan: value i goes to slot i. */
    method Scan(slots: seq<Slot>, ghost columns: seq<Selected>, values: seq<Cell>, ghost row: Row)
      requires Aligned(slots, columns) && |values| == |columns|
      requires forall i :: 0 <= i < |values| ==> values[i] == SelectedValue(columns[i], row)
      modifies this
      ensures forall c :: Field(c) in slots ==> c in fields && fields[c] == CellOf(row, c)
      ensures forall c :: c in old(fields) && Field(c) !in slots ==> c in fields && fields[c] == old(fields)[c]
      ensures forall c :: c in fields ==> c in old(fields) || Field(c) in slots
    {
      for i := 0 to |slots|
        invariant forall c :: Field(c) in slots[..i] ==> c in fields && fields[c] == CellOf(row, c)
        invariant forall c :: c in old(fields) && Field(c) !in slots[..i] ==> c in fields && fields[c] == old(fields)[c]
        invariant forall c :: c in fields ==> c in old(fields) || Field(c) in slots[..i]
      {
        if slots[i].Field? {
          fields := fields[slots[i].col := values[i]];
        }
        assert slots[..i + 1] == slots[..i] + [slots[i]];
      }
      assert slots[..|slots|] == slots;
    }

    /** The variables after a scan of `row`; one without a slot still has Go's zero value. */
    ghost predicate Scanned(p: Projection, row: Row)
      reads this
    {
      && (forall c :: !IsKeyColumn(c) ==> (c in fields <==> IsExtra(p, c)))
      && (forall c :: IsExtra(p, c) ==> c in fields && fields[c] == CellOf(row, c))
    }

    method ReadCaveat(p: Projection, ghost row: Row) returns (caveat: Option<(string, int)>)
      requires Scanned(p, row)
      ensures caveat == YieldedCaveat(p, row)
    {
      caveat := None;
      if p.WithCaveats() {
        var name := fields[ColCaveatName];
        if name.Text? && name.text != "" {
          caveat := Some((name.text, fields[ColCaveatContext].blob));
        }
      }
    }

    method ReadExpiration(p: Projection, ghost row: Row) returns (expiration: Option<int>)
      requires Scanned(p, row)
      ensures expiration == if p.WithExpiration() then row.expiration else None
    {
      expiration := None;
      if ColExpiration in fields && fields[ColExpiration].Time? {
        expiration := Some(fields[ColExpiration].nanos);
      }
    }

    method ReadIntegrity(p: Projection, ghost row: Row) returns (integrity: Option<(string, int, int)>)
      requires Scanned(p, row)
      ensures integrity == YieldedIntegrity(p, row)
    {
      integrity := None;
      if ColIntegrityKeyID in fields && fields[ColIntegrityKeyID].text != "" {
        integrity := Some((fields[ColIntegrityKeyID].text, fields[ColIntegrityHash].blob,
                           fields[ColIntegrityTimestamp].nanos));
      }
    }

    /** One round of the row loop. */
    method NextRow(p: Projection, ghost t: Tracker, slots: seq<Slot>, ghost columns: seq<Selected>,
                   values: seq<Cell>, ghost row: Row) returns (rel: Relationship)
      requires Prepared(p, t, KEY_COLUMNS, slots, fields) && Declared(p, slots, fields)
      requires Aligned(slots, columns) && |values| == |columns|
      requires forall i :: 0 <= i < |values| ==> values[i] == SelectedValue(columns[i], row)
      modifies this
      ensures Prepared(p, t, KEY_COLUMNS, slots, fields) && Declared(p, slots, fields)
      ensures rel == Yielded(p, t, row)
    {
      ghost var before := fields;
      Scan(slots, columns, values, row);
      ScanFills(p, t, slots, before, fields, row);
      var key := ReadKey(p, t, row);
      var caveat := ReadCaveat(p, row);
      var expiration := ReadExpiration(p, row);
      var integrity := ReadIntegrity(p, row);
      rel := Relationship(key, caveat, expiration, integrity);
    }

    method ReadKey(p: Projection, ghost t: Tracker, ghost row: Row) returns (key: RelationshipKey)
      requires forall c :: c in KEY_COLUMNS ==> c in fields && fields[c] == Text(RebuiltField(p, t, row, c))
      ensures key == Rebuilt(p, t, row)
    {
      key := RelationshipKey(
        fields[ColNamespace].text, fields[ColObjectID].text, fields[ColRelation].text,
        fields[ColUsersetNamespace].text, fields[ColUsersetObjectID].text, fields[ColUsersetRelation].text);
    }
  }

  /** What a reader sees in column c of a scanned row. */
  function RebuiltField(p: Projection, t: Tracker, row: Row, c: Column): string
    requires IsKeyColumn(c)
  {
    if Elided(p, t, c) then t[c].value else KeyField(row.key, c)
  }

  function Rebuilt(p: Projection, t: Tracker, row: Row): RelationshipKey {
    RelationshipKey(
      RebuiltField(p, t, row, ColNamespace), RebuiltField(p, t, row, ColObjectID),
      RebuiltField(p, t, row, ColRelation), RebuiltField(p, t, row, ColUsersetNamespace),
      RebuiltField(p, t, row, ColUsersetObjectID), RebuiltField(p, t, row, ColUsersetRelation))
  }

  /** A yielded relationship: key, caveat name and context, expiration, integrity data. */
  datatype Relationship = Relationship(
    key: RelationshipKey, caveat: Option<(string, int)>, expiration: Option<int>,
    integrity: Option<(string, int, int)>)

  /** An empty caveat name counts as no caveat. */
  function YieldedCaveat(p: Projection, row: Row): Option<(string, int)> {
    if p.WithCaveats() && row.caveat.Some? && row.caveat.value != "" then Some((row.caveat.value, row.context))
    else None
  }

  /** An empty key ID counts as no integrity data. */
  function YieldedIntegrity(p: Projection, row: Row): Option<(string, int, int)> {
    if p.integrityEnabled && row.integrityKeyID != ""
    then Some((row.integrityKeyID, row.integrityHash, row.integrityTimestamp))
    else None
  }

  /** What is yielded for a stored row. */
  function Yielded(p: Projection, t: Tracker, row: Row): Relationship {
    Relationship(
      Rebuilt(p, t, row), YieldedCaveat(p, row), if p.WithExpiration() then row.expiration else None,
      YieldedIntegrity(p, row))
  }

  /** What a reader is promised about the relationship of one row, field by field. */
  predicate ReadsBack(p: Projection, t: Tracker, row: Row, rel: Relationship) {
    && (forall c :: c in KEY_COLUMNS ==>
          KeyField(rel.key, c) ==
          if p.optimizeColumns && c in t && t[c].Some? then t[c].value else KeyField(row.key, c))
    && rel.caveat == (if (!p.skipCaveats || !p.optimizeColumns) && row.caveat.Some? && row.caveat.value != ""
                      then Some((row.caveat.value, row.context)) else None)
    && rel.expiration == (if !p.skipExpiration && !p.expirationDisabled then row.expiration else None)
    && rel.integrity == (if p.integrityEnabled && row.integrityKeyID != ""
                         then Some((row.integrityKeyID, row.integrityHash, row.integrityTimestamp)) else None)
  }

  lemma YieldedReadsBack(p: Projection, t: Tracker, row: Row)
    ensures ReadsBack(p, t, row, Yielded(p, t, row))
  {
  }

  /** The SELECT list, the slots and the per-row scan put together: whatever the tracker holds,
      each yielded relationship is the stored row with the elided columns replaced by their pins,
      and with the caveat, the expiration and the integrity data that the projection asks for. */
  method QueryRelationships(p: Projection, q: Query, rows: seq<Row>) returns (rels: seq<Relationship>)
    ensures |rels| == |rows|
    ensures forall i :: 0 <= i < |rows| ==> ReadsBack(p, q.tracker, rows[i], rels[i])
    ensures forall i :: 0 <= i < |rows| ==> rels[i] == Yielded(p, q.tracker, rows[i])
  {
    var columns := SelectColumns(p, q.tracker);
    var target := new ScanTarget();
    var slots := target.ColumnsToSelect(p, q.tracker);
    rels := [];
    for i := 0 to |rows|
      invariant |rels| == i
      invariant Prepared(p, q.tracker, KEY_COLUMNS, slots, target.fields) && Declared(p, slots, target.fields)
      invariant forall j :: 0 <= j < i ==> rels[j] == Yielded(p, q.tracker, rows[j])
    {
      var values := seq(|columns|, k requires 0 <= k < |columns| => SelectedValue(columns[k], rows[i]));
      var rel := target.NextRow(p, q.tracker, slots, columns, values, rows[i]);
      rels := rels + [rel];
    }
    forall i | 0 <= i < |rows|
      ensures ReadsBack(p, q.tracker, rows[i], rels[i])
    {
      YieldedReadsBack(p, q.tracker, rows[i]);
    }
  }

  /** With nothing skipped, a row that a sound query returns is read back with every field it has. */
  lemma SoundReadsEverything(p: Projection, q: Query, row: Row, rel: Relationship)
    requires Sound(q) && Selects(q.where_, row)
    requires !p.skipCaveats && !p.skipExpiration && !p.expirationDisabled && p.integrityEnabled
    requires ReadsBack(p, q.tracker, row, rel)
    ensures rel.key == row.key && rel.expiration == row.expiration
    ensures row.caveat.Some? && row.caveat.value != "" ==> rel.caveat == Some((row.caveat.value, row.context))
    ensures row.integrityKeyID != "" ==>
              rel.integrity == Some((row.integrityKeyID, row.integrityHash, row.integrityTimestamp))
  {
    forall c | c in KEY_COLUMNS
      ensures KeyField(rel.key, c) == KeyField(row.key, c)
    {
      if p.optimizeColumns && HasStaticValue(q.tracker, c) {
        assert Static(q.tracker, c, q.tracker[c].value);
        assert Implied(q.where_, c, q.tracker[c].value);
      }
    }
    assert KeyField(rel.key, ColNamespace) == KeyField(row.key, ColNamespace);
    assert KeyField(rel.key, ColObjectID) == KeyField(row.key, ColObjectID);
    assert KeyField(rel.key, ColRelation) == KeyField(row.key, ColRelation);
    assert KeyField(rel.key, ColUsersetNamespace) == KeyField(row.key, ColUsersetNamespace);
    assert KeyField(rel.key, ColUsersetObjectID) == KeyField(row.key, ColUsersetObjectID);
    assert KeyField(rel.key, ColUsersetRelation) == KeyField(row.key, ColUsersetRelation);
  }

  lemma {:induction false} SelectEachMembers(p: Projection, t: Tracker, cs: seq<Column>)
    ensures forall c :: SelectColumn(c) in SelectEach(p, t, cs) <==>
              c in cs && !(p.optimizeColumns && c in t && t[c].Some?)
    ensures SelectOne !in SelectEach(p, t, cs)
  {
    if cs != [] {
      SelectEachMembers(p, t, cs[..|cs| - 1]);
      assert cs == cs[..|cs| - 1] + [cs[|cs| - 1]];
    }
  }

  lemma SelectAllMembers(cs: seq<Column>, c: Column)
    ensures SelectColumn(c) in SelectAll(cs) <==> c in cs
    ensures SelectOne !in SelectAll(cs)
  {
    if c in cs {
      var i :| 0 <= i < |cs| && cs[i] == c;
      assert SelectAll(cs)[i] == SelectColumn(c);
    }
  }

  lemma SelectListMembers(p: Projection, t: Tracker, c: Column)
    ensures SelectColumn(c) in SelectColumns(p, t) <==>
            SelectColumn(c) in SelectEach(p, t, KEY_COLUMNS) || IsExtra(p, c)
    ensures SelectOne in SelectColumns(p, t) <==> SelectColumns(p, t) == [SelectOne]
  {
    var keys, extra := SelectEach(p, t, KEY_COLUMNS), SelectAll(p.ExtraColumns());
    SelectEachMembers(p, t, KEY_COLUMNS);
    SelectAllMembers(p.ExtraColumns(), c);
    ExtraMember(p, c);
    assert SelectColumn(c) in keys + extra <==> SelectColumn(c) in keys || SelectColumn(c) in extra;
    assert SelectOne !in keys + extra;
  }

  /** Exactly these columns are in the SELECT list; the literal 1 is there iff no column is. */
  lemma SelectedExactly(p: Projection, t: Tracker, c: Column)
    ensures SelectColumn(c) in SelectColumns(p, t) <==>
            || (c in KEY_COLUMNS && !(p.optimizeColumns && c in t && t[c].Some?))
            || ((c == ColCaveatName || c == ColCaveatContext) && (!p.skipCaveats || !p.optimizeColumns))
            || (c == ColExpiration && !p.skipExpiration && !p.expirationDisabled)
            || (c in {ColIntegrityKeyID, ColIntegrityHash, ColIntegrityTimestamp} && p.integrityEnabled)
    ensures SelectOne in SelectColumns(p, t) <==> SelectColumns(p, t) == [SelectOne]
  {
    SelectListMembers(p, t, c);
    SelectEachMembers(p, t, KEY_COLUMNS);
  }

  /** Column elision preserves rows: after a clean chain every returned row is read back whole. */
  lemma {:induction false} ElisionPreservesRows(p: Projection, schema: Schema, calls: seq<Call>, row: Row)
    requires CleanChain(schema, EMPTY_QUERY, calls)
    requires Selects(RunChain(schema, EMPTY_QUERY, calls).where_, row)
    ensures Rebuilt(p, RunChain(schema, EMPTY_QUERY, calls).tracker, row) == row.key
    ensures Yielded(p, RunChain(schema, EMPTY_QUERY, calls).tracker, row) == Yielded(p, map[], row)
  {
    var q := RunChain(schema, EMPTY_QUERY, calls);
    EmptyQuerySound();
    ChainSound(schema, EMPTY_QUERY, calls);
    SoundReadsWhole(p, q, row);
  }

  /** FilterToSubjectFilter reads its rows back whole exactly when it does not mispin: with a
      relation other than the ellipsis on a fresh query every returned row loses its relation. */
  lemma SubjectFilterExact(p: Projection, q: Query, subjectType: string, subjectID: string,
                           relation: Option<string>, row: Row)
    requires p.optimizeColumns && Sound(q)
    requires Selects(FilterSubject(q, subjectType, subjectID, relation).where_, row)
    ensures Rebuilt(p, FilterSubject(q, subjectType, subjectID, relation).tracker, row) == row.key <==>
            !Mispins(q, SubjectFilterCall(subjectType, subjectID, relation))
  {
    var q' := FilterSubject(q, subjectType, subjectID, relation);
    if Mispins(q, SubjectFilterCall(subjectType, subjectID, relation)) {
      var q1 := FilterEq(q, ColUsersetNamespace, subjectType);
      var q2 := if subjectID != "" then FilterEq(q1, ColUsersetObjectID, subjectID) else q1;
      SelectsAppend(q2.where_, Eq(ColUsersetRelation, DatastoreRelation(relation.value)), row);
      assert Static(q'.tracker, ColUsersetRelation, ELLIPSIS);
    } else {
      SubjectSound(q, subjectType, subjectID, relation);
      forall c | c in KEY_COLUMNS
        ensures RebuiltField(p, q'.tracker, row, c) == KeyField(row.key, c)
      {
        if Elided(p, q'.tracker, c) {
          assert Static(q'.tracker, c, q'.tracker[c].value);
          assert Implied(q'.where_, c, q'.tracker[c].value);
        }
      }
    }
  }

  // ---- Chains that mispin ----

  /** The tracker with the subject relation counted as varying. */
  function Blurred(t: Tracker): Tracker {
    t[ColUsersetRelation := None]
  }

  function Blur(q: Query): Query {
    q.(tracker := Blurred(q.tracker))
  }

  /** The subject relation is recorded, as varying or pinned to the ellipsis. */
  predicate EllipsisAtMost(t: Tracker) {
    ColUsersetRelation in t && (t[ColUsersetRelation] == None || t[ColUsersetRelation] == Some(ELLIPSIS))
  }

  /** t' is t after recording values, seen through Blurred as well. */
  predicate Records(t: Tracker, t': Tracker, blurred: Tracker) {
    Blurred(t') == blurred && (EllipsisAtMost(t) ==> EllipsisAtMost(t'))
  }

  lemma BlurRecord(t: Tracker, c: Column, v: string)
    ensures Records(t, Record(t, c, v), Record(Blurred(t), c, v))
    ensures Records(t, t[c := None], Blurred(t)[c := None])
  {
    if c == ColUsersetRelation {
      assert Blurred(t)[c := None] == Blurred(t);
    } else {
      assert Blurred(t[c := None]) == Blurred(t)[c := None];
      assert Blurred(t[c := Some(v)]) == Blurred(t)[c := Some(v)];
    }
  }

  lemma {:induction false} BlurRecordAll(t: Tracker, c: Column, vs: seq<string>)
    ensures Records(t, RecordAll(t, c, vs), RecordAll(Blurred(t), c, vs))
  {
    if vs != [] {
      BlurRecordAll(t, c, vs[..|vs| - 1]);
      BlurRecord(RecordAll(t, c, vs[..|vs| - 1]), c, vs[|vs| - 1]);
    }
  }

  lemma BlurSelector(t: Tracker, s: SubjectsSelector)
    ensures Records(t, SelectorTracker(t, s), SelectorTracker(Blurred(t), s))
  {
    var t1 := if s.subjectType != "" then Record(t, ColUsersetNamespace, s.subjectType) else t;
    BlurRecord(t, ColUsersetNamespace, s.subjectType);
    BlurRecordAll(t1, ColUsersetObjectID, s.subjectIds);
    var t2 := RecordAll(t1, ColUsersetObjectID, s.subjectIds);
    BlurRecord(t2, ColUsersetRelation, "");
    BlurRecordAll(t2, ColUsersetRelation, s.relation.Relations());
  }

  lemma BlurVary(t: Tracker, ss: seq<SubjectsSelector>)
    ensures Records(t, VarySubjects(t, ss), VarySubjects(Blurred(t), ss))
  {
    BlurRecord(t, ColUsersetNamespace, "");
    BlurRecord(t[ColUsersetNamespace := None], ColUsersetObjectID, "");
    BlurRecord(t[ColUsersetNamespace := None][ColUsersetObjectID := None], ColUsersetRelation, "");
  }

  /** A call seen through Blur: q' is what the call makes of q, and `blurred` of Blur(q). */
  ghost predicate SameCall(q: Query, q': Query, blurred: Query) {
    && q'.where_ == blurred.where_ && q.where_ <= q'.where_
    && Records(q.tracker, q'.tracker, blurred.tracker)
  }

  lemma BlurEq(q: Query, c: Column, v: string)
    ensures SameCall(q, FilterEq(q, c, v), FilterEq(Blur(q), c, v))
  {
    BlurRecord(q.tracker, c, v);
  }

  lemma BlurIn(q: Query, c: Column, vs: seq<string>)
    ensures SameCall(q, FilterIn(q, c, vs), FilterIn(Blur(q), c, vs))
  {
    BlurRecordAll(q.tracker, c, vs);
  }

  lemma BlurFilterSelectors(q: Query, ss: seq<SubjectsSelector>)
    ensures SameCall(q, FilterSelectors(q, ss), FilterSelectors(Blur(q), ss))
  {
    BlurVary(q.tracker, ss);
    var t := VarySubjects(q.tracker, ss);
    for i := 0 to |ss|
      invariant Records(t, SelectorTrackers(t, ss[..i]), SelectorTrackers(Blurred(t), ss[..i]))
    {
      assert ss[..i + 1][..i] == ss[..i];
      BlurSelector(SelectorTrackers(t, ss[..i]), ss[i]);
    }
    assert ss[..|ss|] == ss;
  }

  lemma BlurNoCaveat(q: Query)
    ensures SameCall(q, FilterNoCaveat(q), FilterNoCaveat(Blur(q)))
  {
    BlurRecord(q.tracker, ColCaveatName, "");
  }

  lemma BlurResource(q: Query, f: RelationshipsFilter)
    requires FilterAccepted(f)
    ensures SameCall(q, ResourceStage(q, f), ResourceStage(Blur(q), f))
  {
    var q1 := if f.resourceType != "" then FilterEq(q, ColNamespace, f.resourceType) else q;
    BlurEq(q, ColNamespace, f.resourceType);
    var q2 := if f.resourceRelation != "" then FilterEq(q1, ColRelation, f.resourceRelation) else q1;
    BlurEq(q1, ColRelation, f.resourceRelation);
    BlurIn(q2, ColObjectID, f.resourceIds);
  }

  lemma BlurCaveat(q: Query, f: RelationshipsFilter)
    ensures SameCall(q, CaveatStage(q, f), CaveatStage(Blur(q), f))
  {
    BlurEq(q, ColCaveatName, f.caveatName);
    BlurNoCaveat(q);
  }

  lemma SameCalls(q: Query, q1: Query, b1: Query, q2: Query, b2: Query)
    requires SameCall(q, q1, b1) && SameCall(q1, q2, b2)
    ensures b1 == Blur(q1) && SameCall(q, q2, b2)
  {
  }

  lemma BlurSubjectAndCaveat(q: Query, f: RelationshipsFilter)
    ensures SameCall(q, CaveatStage(SubjectStage(q, f), f), CaveatStage(SubjectStage(Blur(q), f), f))
  {
    var q1, b1 := SubjectStage(q, f), SubjectStage(Blur(q), f);
    BlurFilterSelectors(q, f.selectors);
    assert SameCall(q, q1, b1) && b1 == Blur(q1);
    BlurCaveat(q1, f);
    SameCalls(q, q1, b1, CaveatStage(q1, f), CaveatStage(b1, f));
  }

  lemma BlurExpiration(q: Query, f: RelationshipsFilter)
    ensures SameCall(q, ExpirationStage(q, f), ExpirationStage(Blur(q), f))
  {
  }

  lemma BlurRelationships(q: Query, f: RelationshipsFilter)
    requires FilterAccepted(f)
    ensures SameCall(q, FilterRelationships(q, f), FilterRelationships(Blur(q), f))
  {
    var q1, b1 := ResourceStage(q, f), ResourceStage(Blur(q), f);
    BlurResource(q, f);
    BlurSubjectAndCaveat(q1, f);
    var q2, b2 := CaveatStage(SubjectStage(q1, f), f), CaveatStage(SubjectStage(Blur(q1), f), f);
    SameCalls(q, q1, b1, q2, b2);
    BlurExpiration(q2, f);
    SameCalls(q, q2, b2, ExpirationStage(q2, f), ExpirationStage(Blur(q2), f));
  }

  lemma BlurSubject(q: Query, subjectType: string, subjectID: string, relation: Option<string>)
    ensures SameCall(q, FilterSubject(q, subjectType, subjectID, relation),
                     FilterSubject(Blur(q), subjectType, subjectID, relation))
  {
    var q1 := FilterEq(q, ColUsersetNamespace, subjectType);
    BlurEq(q, ColUsersetNamespace, subjectType);
    assert FilterEq(Blur(q), ColUsersetNamespace, subjectType) == Blur(q1);
    BlurEq(q1, ColUsersetObjectID, subjectID);
    var q2 := if subjectID != "" then FilterEq(q1, ColUsersetObjectID, subjectID) else q1;
    BlurRecord(q2.tracker, ColUsersetRelation, ELLIPSIS);
  }

  lemma BlurCall(schema: Schema, q: Query, call: Call)
    requires CallAccepted(schema, call) && !call.AfterCall?
    ensures SameCall(q, ApplyCall(schema, q, call), ApplyCall(schema, Blur(q), call))
  {
    match call
    case ResourceTypeCall(t) => BlurEq(q, ColNamespace, t);
    case ResourceIDCall(id) => BlurEq(q, ColObjectID, id);
    case ResourceIDsCall(ids) => BlurIn(q, ColObjectID, ids);
    case PrefixCall(prefix) =>
    case RelationCall(r) => BlurEq(q, ColRelation, r);
    case CaveatNameCall(n) => BlurEq(q, ColCaveatName, n);
    case NoCaveatCall => BlurNoCaveat(q);
    case SelectorsCall(ss) => BlurFilterSelectors(q, ss);
    case RelationshipsCall(f) => BlurRelationships(q, f);
    case SubjectFilterCall(t, id, r) => BlurSubject(q, t, id, r);
  }

  lemma PrefixSelects(a: seq<Clause>, b: seq<Clause>, row: Row)
    requires a <= b && Selects(b, row)
    ensures Selects(a, row)
  {
    EvalAndConcat(a, b[|a|..], row);
    assert a + b[|a|..] == b;
  }

  /** A query on which some call has mispinned: every other column is sound, and the rows it returns
      never have the ellipsis that the tracker may hold for the subject relation. */
  ghost predicate Skewed(q: Query) {
    && Sound(Blur(q)) && EllipsisAtMost(q.tracker)
    && forall row :: Selects(q.where_, row) ==> row.key.subjectRelation != ELLIPSIS
  }

  lemma SkewedStep(schema: Schema, q: Query, call: Call)
    requires Skewed(q) && CallAccepted(schema, call)
    ensures Skewed(ApplyCall(schema, q, call))
  {
    var q' := ApplyCall(schema, q, call);
    if call.AfterCall? {
      var cs := Varying(q.tracker, SortColumns(schema, call.order));
      VaryingKeyColumns(q.tracker, SortColumns(schema, call.order));
      WhereSound(Blur(q), AfterClause(schema.pagination, call.cursor, cs));
      assert q.where_ <= q'.where_;
    } else {
      BlurCall(schema, q, call);
      CallSound(schema, Blur(q), call);
      assert Blur(q') == ApplyCall(schema, Blur(q), call);
    }
    forall row | Selects(q'.where_, row)
      ensures row.key.subjectRelation != ELLIPSIS
    {
      PrefixSelects(q.where_, q'.where_, row);
    }
  }

  lemma BlurSound(q: Query)
    requires Sound(q)
    ensures Sound(Blur(q))
  {
    forall c, v | Static(Blur(q).tracker, c, v)
      ensures Implied(q.where_, c, v)
    {
      assert Static(q.tracker, c, v);
    }
  }

  lemma MispinSkews(schema: Schema, q: Query, call: Call)
    requires Sound(q) && CallAccepted(schema, call) && Mispins(q, call)
    ensures Skewed(ApplyCall(schema, q, call))
  {
    var q' := ApplyCall(schema, q, call);
    BlurSound(q);
    BlurCall(schema, q, call);
    CallSound(schema, Blur(q), call);
    assert Blur(q') == ApplyCall(schema, Blur(q), call);
    var q1 := FilterEq(q, ColUsersetNamespace, call.subjectType);
    var q2 := if call.subjectID != "" then FilterEq(q1, ColUsersetObjectID, call.subjectID) else q1;
    assert ColUsersetRelation !in q2.tracker;
    forall row | Selects(q'.where_, row)
      ensures row.key.subjectRelation != ELLIPSIS
    {
      SelectsAppend(q2.where_, Eq(ColUsersetRelation, DatastoreRelation(call.subjectRelation.value)), row);
      assert CellOf(row, ColUsersetRelation) == Text(row.key.subjectRelation);
    }
  }

  lemma {:induction false} SkewedChain(schema: Schema, q: Query, calls: seq<Call>)
    requires Skewed(q) && AcceptedChain(schema, q, calls)
    ensures Skewed(RunChain(schema, q, calls))
    decreases |calls|
  {
    if calls != [] {
      SkewedStep(schema, q, calls[0]);
      SkewedChain(schema, ApplyCall(schema, q, calls[0]), calls[1..]);
    }
  }

  lemma {:induction false} ChainStatus(schema: Schema, q: Query, calls: seq<Call>)
    requires Sound(q) && AcceptedChain(schema, q, calls)
    ensures if NoMispin(schema, q, calls) then Sound(RunChain(schema, q, calls)) else Skewed(RunChain(schema, q, calls))
    decreases |calls|
  {
    if calls != [] {
      var q1 := ApplyCall(schema, q, calls[0]);
      if Mispins(q, calls[0]) {
        MispinSkews(schema, q, calls[0]);
        SkewedChain(schema, q1, calls[1..]);
      } else {
        CallSound(schema, q, calls[0]);
        ChainStatus(schema, q1, calls[1..]);
      }
    }
  }

  lemma SoundReadsWhole(p: Projection, q: Query, row: Row)
    requires Sound(q) && Selects(q.where_, row)
    ensures Rebuilt(p, q.tracker, row) == row.key
  {
    forall c | c in KEY_COLUMNS
      ensures RebuiltField(p, q.tracker, row, c) == KeyField(row.key, c)
    {
      if Elided(p, q.tracker, c) {
        assert Static(q.tracker, c, q.tracker[c].value);
        assert Implied(q.where_, c, q.tracker[c].value);
      }
    }
  }

  lemma SkewedReads(p: Projection, q: Query, row: Row)
    requires p.optimizeColumns && Skewed(q) && Selects(q.where_, row)
    ensures Rebuilt(p, q.tracker, row) == row.key <==> !HasStaticValue(q.tracker, ColUsersetRelation)
  {
    if !HasStaticValue(q.tracker, ColUsersetRelation) {
      assert q.tracker == Blurred(q.tracker);
      SoundReadsWhole(p, Blur(q), row);
    } else {
      assert RebuiltField(p, q.tracker, row, ColUsersetRelation) == ELLIPSIS;
    }
  }

  /** Over all accepted chains of calls, with column optimization on: a returned row is read back
      whole if and only if no call mispinned or a later one made the subject relation vary. */
  lemma ChainReadsExactly(p: Projection, schema: Schema, calls: seq<Call>, row: Row)
    requires p.optimizeColumns && AcceptedChain(schema, EMPTY_QUERY, calls)
    requires Selects(RunChain(schema, EMPTY_QUERY, calls).where_, row)
    ensures
      var q := RunChain(schema, EMPTY_QUERY, calls);
      Rebuilt(p, q.tracker, row) == row.key <==>
      NoMispin(schema, EMPTY_QUERY, calls) || !HasStaticValue(q.tracker, ColUsersetRelation)
  {
    var q := RunChain(schema, EMPTY_QUERY, calls);
    EmptyQuerySound();
    ChainStatus(schema, EMPTY_QUERY, calls);
    if NoMispin(schema, EMPTY_QUERY, calls) {
      SoundReadsWhole(p, q, row);
    } else {
      SkewedReads(p, q, row);
    }
  }

  const MISREAD_ROW := Row(RelationshipKey("doc", "1", "viewer", "user", "tom", "member"), None, None, 0, "", 0, 0, 0)

  lemma MisreadRowSelected()
    ensures Selects(FilterSubject(EMPTY_QUERY, "user", "", Some("member")).where_, MISREAD_ROW)
  {
    var one := Eq(ColUsersetNamespace, "user");
    assert FilterSubject(EMPTY_QUERY, "user", "", Some("member")).where_ ==
           [] + [one] + [Eq(ColUsersetRelation, "member")];
    SelectsAppend([], one, MISREAD_ROW);
    SelectsAppend([] + [one], Eq(ColUsersetRelation, "member"), MISREAD_ROW);
  }

  /** A concrete row that FilterToSubjectFilter("user", "", "member") returns but misreads. */
  lemma MispinExample(p: Projection)
    requires p.optimizeColumns
    ensures exists row ::
              Selects(FilterSubject(EMPTY_QUERY, "user", "", Some("member")).where_, row) &&
              Rebuilt(p, FilterSubject(EMPTY_QUERY, "user", "", Some("member")).tracker, row) != row.key
  {
    MisreadRowSelected();
    EmptyQuerySound();
    SubjectFilterExact(p, EMPTY_QUERY, "user", "", Some("member"), MISREAD_ROW);
  }
}
