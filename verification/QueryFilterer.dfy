/** SchemaQueryFilterer: the builder that turns filters and cursors into a WHERE tree while
    tracking which columns it has pinned to one value (internal/datastore/common/sql.go).
    The builder is used linearly: each call continues from the result of the previous one. */
module QueryFilterer {
  import opened Wrappers
  import opened SqlClauses
  import LikePrefix

  const ELLIPSIS := "..."

  datatype CaveatOption = CaveatAny | HasMatchingCaveat | NoCaveat | UnknownCaveatOption
  datatype ExpirationOption = ExpirationAny | HasExpiration | NoExpiration

  datatype RelationFilter = RelationFilter(
    includeEllipsis: bool, nonEllipsis: string, onlyNonEllipsis: bool)
  {
    predicate IsEmpty() {
      !includeEllipsis && nonEllipsis == "" && !onlyNonEllipsis
    }

    function Relations(): seq<string> {
      (if includeEllipsis then [ELLIPSIS] else []) + (if nonEllipsis != "" then [nonEllipsis] else [])
    }
  }

  datatype SubjectsSelector = SubjectsSelector(
    subjectType: string, subjectIds: seq<string>, relation: RelationFilter)

  datatype RelationshipsFilter = RelationshipsFilter(
    resourceType: string, resourceIds: seq<string>, idPrefix: string, resourceRelation: string,
    selectors: seq<SubjectsSelector>,
    caveat: CaveatOption, caveatName: string, expiration: ExpirationOption)

  datatype SortOrder = Unsorted | ByResource | BySubject | ChooseEfficient
  datatype PaginationType = TupleComparison | ExpandedLogicComparison

  /** The parts of SchemaInformation that shape the WHERE tree; an empty order means the default. */
  datatype Schema = Schema(
    pagination: PaginationType, resourceOrder: seq<Column>, subjectOrder: seq<Column>)

  const DEFAULT_RESOURCE_ORDER := KEY_COLUMNS
  const DEFAULT_SUBJECT_ORDER: seq<Column> :=
    [ColUsersetNamespace, ColUsersetObjectID, ColUsersetRelation, ColNamespace, ColObjectID, ColRelation]

  /** columnTrackerMap: Some(v) is a column pinned to v, None a column known to vary. */
  type Tracker = map<Column, Option<string>>

  predicate Static(t: Tracker, c: Column, v: string) {
    c in t && t[c] == Some(v)
  }

  predicate HasStaticValue(t: Tracker, c: Column) {
    c in t && t[c].Some?
  }

  /** The filterer's value: the conjuncts of WHERE so far and the tracker. */
  datatype Query = Query(where_: seq<Clause>, tracker: Tracker)

  const EMPTY_QUERY := Query([], map[])

  // ---- Specification of each call ----

  function Record(t: Tracker, c: Column, v: string): Tracker {
    if c !in t then t[c := Some(v)]
    else if t[c].Some? && t[c].value != v then t[c := None]
    else t
  }

  function RecordAll(t: Tracker, c: Column, vs: seq<string>): Tracker {
    if vs == [] then t
    else Record(RecordAll(t, c, vs[..|vs| - 1]), c, vs[|vs| - 1])
  }

  function FilterEq(q: Query, c: Column, v: string): Query {
    Query(q.where_ + [Eq(c, v)], Record(q.tracker, c, v))
  }

  function FilterIn(q: Query, c: Column, vs: seq<string>): Query {
    Query(q.where_ + [In(c, vs)], RecordAll(q.tracker, c, vs))
  }

  function AddWhere(q: Query, clause: Clause): Query {
    q.(where_ := q.where_ + [clause])
  }

  function EqEach(c: Column, vs: seq<string>): seq<Clause> {
    seq(|vs|, i requires 0 <= i < |vs| => Eq(c, vs[i]))
  }

  function RelationClause(f: RelationFilter): Clause {
    if f.onlyNonEllipsis then NotEq(ColUsersetRelation, ELLIPSIS)
    else if |f.Relations()| == 1 then Eq(ColUsersetRelation, f.Relations()[0])
    else Or(EqEach(ColUsersetRelation, f.Relations()))
  }

  function SelectorParts(s: SubjectsSelector): seq<Clause> {
    (if s.subjectType != "" then [Eq(ColUsersetNamespace, s.subjectType)] else []) +
    (if s.subjectIds != [] then [In(ColUsersetObjectID, s.subjectIds)] else []) +
    (if s.relation.IsEmpty() then [] else [RelationClause(s.relation)])
  }

  function RelationTracker(t: Tracker, f: RelationFilter): Tracker {
    if f.onlyNonEllipsis then t[ColUsersetRelation := None]
    else RecordAll(t, ColUsersetRelation, f.Relations())
  }

  function SelectorTracker(t: Tracker, s: SubjectsSelector): Tracker {
    var t1 := if s.subjectType != "" then Record(t, ColUsersetNamespace, s.subjectType) else t;
    RelationTracker(RecordAll(t1, ColUsersetObjectID, s.subjectIds), s.relation)
  }

  function SelectorClauses(ss: seq<SubjectsSelector>): seq<Clause> {
    seq(|ss|, i requires 0 <= i < |ss| => And(SelectorParts(ss[i])))
  }

  function SelectorTrackers(t: Tracker, ss: seq<SubjectsSelector>): Tracker {
    if ss == [] then t
    else SelectorTracker(SelectorTrackers(t, ss[..|ss| - 1]), ss[|ss| - 1])
  }

  function VarySubjects(t: Tracker, ss: seq<SubjectsSelector>): Tracker {
    if |ss| > 1 then t[ColUsersetNamespace := None][ColUsersetObjectID := None][ColUsersetRelation := None]
    else t
  }

  function FilterSelectors(q: Query, ss: seq<SubjectsSelector>): Query {
    Query(q.where_ + [Or(SelectorClauses(ss))], SelectorTrackers(VarySubjects(q.tracker, ss), ss))
  }

  predicate NoEmptyID(ids: seq<string>) {
    forall i :: 0 <= i < |ids| ==> ids[i] != ""
  }

  predicate SelectorsAccepted(ss: seq<SubjectsSelector>) {
    forall i :: 0 <= i < |ss| ==> NoEmptyID(ss[i].subjectIds)
  }

  predicate PrefixAccepted(prefix: string) {
    LikePrefix.BuildLikePrefix(prefix).Ok?
  }

  function FilterPrefix(q: Query, prefix: string): Query
    requires PrefixAccepted(prefix)
  {
    AddWhere(q, Like(ColObjectID, LikePrefix.BuildLikePrefix(prefix).value))
  }

  function FilterNoCaveat(q: Query): Query {
    Query(q.where_ + [Or([IsNull(ColCaveatName), Eq(ColCaveatName, "")])], q.tracker[ColCaveatName := None])
  }

  /** FilterWithRelationshipsFilter returns without error. */
  predicate FilterAccepted(f: RelationshipsFilter) {
    && (f.resourceIds == [] || f.idPrefix == "")
    && NoEmptyID(f.resourceIds)
    && (f.idPrefix != "" ==> PrefixAccepted(f.idPrefix))
    && SelectorsAccepted(f.selectors)
    && f.caveat != UnknownCaveatOption
  }

  function ResourceStage(q: Query, f: RelationshipsFilter): Query
    requires FilterAccepted(f)
  {
    var q1 := if f.resourceType != "" then FilterEq(q, ColNamespace, f.resourceType) else q;
    var q2 := if f.resourceRelation != "" then FilterEq(q1, ColRelation, f.resourceRelation) else q1;
    var q3 := if f.resourceIds != [] then FilterIn(q2, ColObjectID, f.resourceIds) else q2;
    if f.idPrefix != "" then FilterPrefix(q3, f.idPrefix) else q3
  }

  function SubjectStage(q: Query, f: RelationshipsFilter): Query {
    if f.selectors != [] then FilterSelectors(q, f.selectors) else q
  }

  function CaveatStage(q: Query, f: RelationshipsFilter): Query {
    match f.caveat
    case HasMatchingCaveat => FilterEq(q, ColCaveatName, f.caveatName)
    case NoCaveat => FilterNoCaveat(q)
    case _ => q
  }

  function ExpirationStage(q: Query, f: RelationshipsFilter): Query {
    match f.expiration
    case HasExpiration => AddWhere(q, IsNotNull(ColExpiration))
    case NoExpiration => AddWhere(q, IsNull(ColExpiration))
    case ExpirationAny => q
  }

  function FilterRelationships(q: Query, f: RelationshipsFilter): Query
    requires FilterAccepted(f)
  {
    ExpirationStage(CaveatStage(SubjectStage(ResourceStage(q, f), f), f), f)
  }

  /** cmp.Or(relation, datastore.Ellipsis). */
  function DatastoreRelation(relation: string): string {
    if relation == "" then ELLIPSIS else relation
  }

  /** FilterToSubjectFilter compares with the requested relation but records the ellipsis. */
  function FilterSubject(q: Query, subjectType: string, subjectID: string, relation: Option<string>): Query {
    var q1 := FilterEq(q, ColUsersetNamespace, subjectType);
    var q2 := if subjectID != "" then FilterEq(q1, ColUsersetObjectID, subjectID) else q1;
    if relation.None? then q2
    else Query(q2.where_ + [Eq(ColUsersetRelation, DatastoreRelation(relation.value))],
               Record(q2.tracker, ColUsersetRelation, ELLIPSIS))
  }

  function SortColumns(schema: Schema, order: SortOrder): seq<Column> {
    match order
    case ByResource => if schema.resourceOrder != [] then schema.resourceOrder else DEFAULT_RESOURCE_ORDER
    case BySubject => if schema.subjectOrder != [] then schema.subjectOrder else DEFAULT_SUBJECT_ORDER
    case _ => []
  }

  predicate KeyColumnsOnly(cs: seq<Column>) {
    forall i :: 0 <= i < |cs| ==> IsKeyColumn(cs[i])
  }

  predicate AfterAccepted(schema: Schema, order: SortOrder) {
    (order.ByResource? || order.BySubject?) && KeyColumnsOnly(SortColumns(schema, order))
  }

  /** The sort columns that the cursor comparison keeps. */
  function Varying(t: Tracker, cs: seq<Column>): seq<Column> {
    if cs == [] then []
    else
      var last := cs[|cs| - 1];
      Varying(t, cs[..|cs| - 1]) + (if HasStaticValue(t, last) then [] else [last])
  }

  function CursorValues(cursor: RelationshipKey, cs: seq<Column>): seq<string>
    requires KeyColumnsOnly(cs)
  {
    seq(|cs|, i requires 0 <= i < |cs| => KeyField(cursor, cs[i]))
  }

  function EqCursor(cursor: RelationshipKey, cs: seq<Column>): seq<Clause>
    requires KeyColumnsOnly(cs)
  {
    seq(|cs|, j requires 0 <= j < |cs| => Eq(cs[j], KeyField(cursor, cs[j])))
  }

  /** One disjunct of the expanded comparison: equal on cs[..i], greater on cs[i]. */
  function Disjunct(cursor: RelationshipKey, cs: seq<Column>, i: nat): Clause
    requires KeyColumnsOnly(cs) && i < |cs|
  {
    And(EqCursor(cursor, cs[..i]) + [Gt(cs[i], KeyField(cursor, cs[i]))])
  }

  function Disjuncts(cursor: RelationshipKey, cs: seq<Column>): seq<Clause>
    requires KeyColumnsOnly(cs)
  {
    seq(|cs|, i requires 0 <= i < |cs| => Disjunct(cursor, cs, i))
  }

  lemma DisjunctsAppend(cursor: RelationshipKey, cs: seq<Column>, c: Column)
    requires KeyColumnsOnly(cs) && IsKeyColumn(c)
    ensures KeyColumnsOnly(cs + [c])
    ensures Disjuncts(cursor, cs + [c]) ==
            Disjuncts(cursor, cs) + [And(EqCursor(cursor, cs) + [Gt(c, KeyField(cursor, c))])]
  {
    assert (cs + [c])[..|cs|] == cs;
    forall i | 0 <= i < |cs|
      ensures Disjunct(cursor, cs + [c], i) == Disjunct(cursor, cs, i)
    {
      assert (cs + [c])[..i] == cs[..i];
    }
  }

  function AfterClause(pagination: PaginationType, cursor: RelationshipKey, cs: seq<Column>): Clause
    requires KeyColumnsOnly(cs)
  {
    match pagination
    case TupleComparison => RowGreater(cs, CursorValues(cursor, cs))
    case ExpandedLogicComparison => Or(Disjuncts(cursor, cs))
  }

  lemma {:induction false} VaryingSubset(t: Tracker, cs: seq<Column>)
    ensures forall c :: c in Varying(t, cs) <==> c in cs && !HasStaticValue(t, c)
  {
    if cs != [] {
      VaryingSubset(t, cs[..|cs| - 1]);
      assert cs == cs[..|cs| - 1] + [cs[|cs| - 1]];
    }
  }

  lemma VaryingStep(t: Tracker, cs: seq<Column>, i: nat)
    requires i < |cs|
    ensures Varying(t, cs[..i + 1]) ==
            Varying(t, cs[..i]) + (if HasStaticValue(t, cs[i]) then [] else [cs[i]])
  {
    assert cs[..i + 1][..i] == cs[..i];
  }

  lemma VaryingKeyColumns(t: Tracker, cs: seq<Column>)
    requires KeyColumnsOnly(cs)
    ensures KeyColumnsOnly(Varying(t, cs))
  {
    VaryingSubset(t, cs);
    forall i | 0 <= i < |Varying(t, cs)|
      ensures IsKeyColumn(Varying(t, cs)[i])
    {
      assert Varying(t, cs)[i] in Varying(t, cs);
    }
  }

  /** After: nothing is added once every sort column is pinned. */
  function FilterAfter(q: Query, schema: Schema, cursor: RelationshipKey, order: SortOrder): Query
    requires AfterAccepted(schema, order)
  {
    var cs := Varying(q.tracker, SortColumns(schema, order));
    VaryingKeyColumns(q.tracker, SortColumns(schema, order));
    if cs == [] then q else AddWhere(q, AfterClause(schema.pagination, cursor, cs))
  }

  // ---- The builder itself ----

  class SchemaQueryFilterer {
    const schema: Schema
    var where_: seq<Clause>
    var tracker: Tracker

    function State(): Query
      reads this
    {
      Query(where_, tracker)
    }

    constructor (schema: Schema)
      ensures this.schema == schema && State() == EMPTY_QUERY
    {
      this.schema := schema;
      where_ := [];
      tracker := map[];
    }

    method RecordColumnValue(col: Column, value: string)
      modifies this`tracker
      ensures tracker == Record(old(tracker), col, value)
    {
      if col in tracker {
        if tracker[col].Some? && tracker[col].value != value {
          tracker := tracker[col := None];
        }
      } else {
        tracker := tracker[col := Some(value)];
      }
    }

    method RecordVaryingColumnValue(col: Column)
      modifies this`tracker
      ensures tracker == old(tracker)[col := None]
    {
      tracker := tracker[col := None];
    }

    method FilterToColumn(col: Column, value: string)
      modifies this
      ensures State() == FilterEq(old(State()), col, value)
    {
      where_ := where_ + [Eq(col, value)];
      RecordColumnValue(col, value);
    }

    method FilterToResourceType(resourceType: string)
      modifies this
      ensures State() == FilterEq(old(State()), ColNamespace, resourceType)
    {
      FilterToColumn(ColNamespace, resourceType);
    }

    method FilterToResourceID(objectID: string)
      modifies this
      ensures State() == FilterEq(old(State()), ColObjectID, objectID)
    {
      FilterToColumn(ColObjectID, objectID);
    }

    method FilterToRelation(relation: string)
      modifies this
      ensures State() == FilterEq(old(State()), ColRelation, relation)
    {
      FilterToColumn(ColRelation, relation);
    }

    method FilterWithCaveatName(caveatName: string)
      modifies this
      ensures State() == FilterEq(old(State()), ColCaveatName, caveatName)
    {
      FilterToColumn(ColCaveatName, caveatName);
    }

    method FilterWithNoCaveat()
      modifies this
      ensures State() == FilterNoCaveat(old(State()))
    {
      where_ := where_ + [Or([IsNull(ColCaveatName), Eq(ColCaveatName, "")])];
      RecordVaryingColumnValue(ColCaveatName);
    }

    method FilterWithResourceIDPrefix(prefix: string) returns (ok: bool)
      modifies this
      ensures ok <==> PrefixAccepted(prefix)
      ensures State() == if ok then FilterPrefix(old(State()), prefix) else old(State())
    {
      var like := LikePrefix.BuildLikePrefix(prefix);
      if like.Err? {
        return false;
      }
      where_ := where_ + [Like(ColObjectID, like.value)];
      return true;
    }

    /** Records every ID in turn; on an empty ID it stops with WHERE unchanged. */
    method FilterToResourceIDs(resourceIds: seq<string>) returns (ok: bool)
      modifies this
      ensures ok <==> NoEmptyID(resourceIds)
      ensures ok ==> State() == FilterIn(old(State()), ColObjectID, resourceIds)
      ensures !ok ==> where_ == old(where_)
    {
      for i := 0 to |resourceIds|
        invariant where_ == old(where_) && NoEmptyID(resourceIds[..i])
        invariant tracker == RecordAll(old(tracker), ColObjectID, resourceIds[..i])
      {
        if resourceIds[i] == "" {
          return false;
        }
        assert resourceIds[..i + 1][..i] == resourceIds[..i];
        RecordColumnValue(ColObjectID, resourceIds[i]);
      }
      assert resourceIds[..|resourceIds|] == resourceIds;
      where_ := where_ + [In(ColObjectID, resourceIds)];
      return true;
    }

    /** One round of the selector loop: the subject type, the subject IDs, then the relations. */
    method AddSelector(selector: SubjectsSelector) returns (ok: bool, parts: seq<Clause>)
      modifies this`tracker
      ensures ok <==> NoEmptyID(selector.subjectIds)
      ensures ok ==> parts == SelectorParts(selector) && tracker == SelectorTracker(old(tracker), selector)
    {
      parts := [];
      if |selector.subjectType| > 0 {
        parts := parts + [Eq(ColUsersetNamespace, selector.subjectType)];
        RecordColumnValue(ColUsersetNamespace, selector.subjectType);
      }
      var ids := selector.subjectIds;
      if |ids| > 0 {
        ghost var before := tracker;
        for i := 0 to |ids|
          invariant NoEmptyID(ids[..i]) && tracker == RecordAll(before, ColUsersetObjectID, ids[..i])
        {
          if ids[i] == "" {
            return false, parts;
          }
          assert ids[..i + 1][..i] == ids[..i];
          RecordColumnValue(ColUsersetObjectID, ids[i]);
        }
        assert ids[..|ids|] == ids;
        parts := parts + [In(ColUsersetObjectID, ids)];
      }
      if !selector.relation.IsEmpty() {
        if selector.relation.onlyNonEllipsis {
          parts := parts + [NotEq(ColUsersetRelation, ELLIPSIS)];
          RecordVaryingColumnValue(ColUsersetRelation);
        } else {
          parts := AddRelations(selector.relation.Relations(), parts);
        }
      }
      return true, parts;
    }

    method AddRelations(relations: seq<string>, before: seq<Clause>) returns (parts: seq<Clause>)
      requires forall i :: 0 <= i < |relations| ==> relations[i] != ""
      modifies this`tracker
      ensures tracker == RecordAll(old(tracker), ColUsersetRelation, relations)
      ensures |relations| == 1 ==> parts == before + [Eq(ColUsersetRelation, relations[0])]
      ensures |relations| != 1 ==> parts == before + [Or(EqEach(ColUsersetRelation, relations))]
    {
      if |relations| == 1 {
        RecordColumnValue(ColUsersetRelation, relations[0]);
        return before + [Eq(ColUsersetRelation, relations[0])];
      }
      var orClause: seq<Clause> := [];
      for i := 0 to |relations|
        invariant orClause == EqEach(ColUsersetRelation, relations[..i])
        invariant tracker == RecordAll(old(tracker), ColUsersetRelation, relations[..i])
      {
        var relation := DatastoreRelation(relations[i]);
        assert relations[..i + 1][..i] == relations[..i];
        orClause := orClause + [Eq(ColUsersetRelation, relation)];
        RecordColumnValue(ColUsersetRelation, relation);
      }
      assert relations[..|relations|] == relations;
      return before + [Or(orClause)];
    }

    method FilterWithSubjectsSelectors(selectors: seq<SubjectsSelector>) returns (ok: bool)
      modifies this
      ensures ok <==> SelectorsAccepted(selectors)
      ensures ok ==> State() == FilterSelectors(old(State()), selectors)
      ensures !ok ==> where_ == old(where_)
    {
      if |selectors| > 1 {
        RecordVaryingColumnValue(ColUsersetNamespace);
        RecordVaryingColumnValue(ColUsersetObjectID);
        RecordVaryingColumnValue(ColUsersetRelation);
      }
      ghost var before := tracker;
      var clauses: seq<Clause> := [];
      for i := 0 to |selectors|
        invariant where_ == old(where_) && SelectorsAccepted(selectors[..i])
        invariant clauses == SelectorClauses(selectors[..i])
        invariant tracker == SelectorTrackers(before, selectors[..i])
      {
        assert selectors[..i + 1][..i] == selectors[..i];
        var accepted, parts := AddSelector(selectors[i]);
        if !accepted {
          return false;
        }
        clauses := clauses + [And(parts)];
      }
      assert selectors[..|selectors|] == selectors;
      where_ := where_ + [Or(clauses)];
      return true;
    }

    method FilterToSubjectFilter(subjectType: string, subjectID: string, relation: Option<string>)
      modifies this
      ensures State() == FilterSubject(old(State()), subjectType, subjectID, relation)
    {
      FilterToColumn(ColUsersetNamespace, subjectType);
      if subjectID != "" {
        FilterToColumn(ColUsersetObjectID, subjectID);
      }
      if relation.Some? {
        where_ := where_ + [Eq(ColUsersetRelation, DatastoreRelation(relation.value))];
        RecordColumnValue(ColUsersetRelation, ELLIPSIS);
      }
    }

    method FilterWithRelationshipsFilter(f: RelationshipsFilter) returns (ok: bool)
      modifies this
      ensures ok <==> FilterAccepted(f)
      ensures ok ==> State() == FilterRelationships(old(State()), f)
    {
      if f.resourceType != "" {
        FilterToResourceType(f.resourceType);
      }
      if f.resourceRelation != "" {
        FilterToRelation(f.resourceRelation);
      }
      if |f.resourceIds| > 0 && f.idPrefix != "" {
        return false;
      }
      if |f.resourceIds| > 0 {
        var accepted := FilterToResourceIDs(f.resourceIds);
        if !accepted {
          return false;
        }
      }
      if |f.idPrefix| > 0 {
        var accepted := FilterWithResourceIDPrefix(f.idPrefix);
        if !accepted {
          return false;
        }
      }
      if |f.selectors| > 0 {
        var accepted := FilterWithSubjectsSelectors(f.selectors);
        if !accepted {
          return false;
        }
      }
      ok := FilterToCaveatOption(f);
      if !ok {
        return false;
      }
      FilterToExpirationOption(f);
      return true;
    }

    /** The first switch at the end of FilterWithRelationshipsFilter. */
    method FilterToCaveatOption(f: RelationshipsFilter) returns (ok: bool)
      modifies this
      ensures ok <==> f.caveat != UnknownCaveatOption
      ensures ok ==> State() == CaveatStage(old(State()), f)
    {
      match f.caveat {
        case HasMatchingCaveat => FilterWithCaveatName(f.caveatName);
        case NoCaveat => FilterWithNoCaveat();
        case CaveatAny =>
        case UnknownCaveatOption => return false;
      }
      return true;
    }

    /** The second switch. */
    method FilterToExpirationOption(f: RelationshipsFilter)
      modifies this`where_
      ensures State() == ExpirationStage(old(State()), f)
    {
      match f.expiration {
        case HasExpiration => where_ := where_ + [IsNotNull(ColExpiration)];
        case NoExpiration => where_ := where_ + [IsNull(ColExpiration)];
        case ExpirationAny =>
      }
    }

    method After(cursor: RelationshipKey, order: SortOrder) returns (ok: bool)
      modifies this`where_
      ensures ok <==> AfterAccepted(schema, order)
      ensures State() == if ok then FilterAfter(old(State()), schema, cursor, order) else old(State())
    {
      if order != ByResource && order != BySubject {
        return false;
      }
      var cs := SortColumns(schema, order);
      if exists i :: 0 <= i < |cs| && !IsKeyColumn(cs[i]) {
        return false;
      }
      VaryingKeyColumns(tracker, cs);
      match schema.pagination {
        case TupleComparison => AfterTuple(cursor, cs);
        case ExpandedLogicComparison => AfterExpanded(cursor, cs);
      }
      return true;
    }

    method AfterTuple(cursor: RelationshipKey, cs: seq<Column>)
      requires KeyColumnsOnly(cs) && KeyColumnsOnly(Varying(tracker, cs))
      modifies this`where_
      ensures where_ == if Varying(tracker, cs) == [] then old(where_)
                        else old(where_) + [AfterClause(TupleComparison, cursor, Varying(tracker, cs))]
    {
      var names: seq<Column>, values: seq<string> := [], [];
      for i := 0 to |cs|
        invariant names == Varying(tracker, cs[..i]) && KeyColumnsOnly(names)
        invariant values == CursorValues(cursor, names)
      {
        assert cs[..i + 1][..i] == cs[..i];
        if !HasStaticValue(tracker, cs[i]) {
          names := names + [cs[i]];
          values := values + [KeyField(cursor, cs[i])];
        }
      }
      assert cs[..|cs|] == cs;
      if |names| > 0 {
        where_ := where_ + [RowGreater(names, values)];
      }
    }

    method AfterExpanded(cursor: RelationshipKey, cs: seq<Column>)
      requires KeyColumnsOnly(cs) && KeyColumnsOnly(Varying(tracker, cs))
      modifies this`where_
      ensures where_ == if Varying(tracker, cs) == [] then old(where_)
                        else old(where_) + [AfterClause(ExpandedLogicComparison, cursor, Varying(tracker, cs))]
    {
      var orClause: seq<Clause> := [];
      ghost var kept: seq<Column> := [];
      for i := 0 to |cs|
        invariant kept == Varying(tracker, cs[..i]) && KeyColumnsOnly(kept)
        invariant where_ == old(where_) && orClause == Disjuncts(cursor, kept)
      {
        VaryingStep(tracker, cs, i);
        if !HasStaticValue(tracker, cs[i]) {
          var andClause := EqualPrevious(cursor, cs[..i]);
          andClause := andClause + [Gt(cs[i], KeyField(cursor, cs[i]))];
          DisjunctsAppend(cursor, kept, cs[i]);
          orClause := orClause + [And(andClause)];
          kept := kept + [cs[i]];
        }
      }
      assert cs[..|cs|] == cs;
      if |orClause| > 0 {
        where_ := where_ + [Or(orClause)];
      }
    }

    /** The inner loop of the expanded form: equality on the earlier columns that still vary. */
    method EqualPrevious(cursor: RelationshipKey, previous: seq<Column>) returns (andClause: seq<Clause>)
      requires KeyColumnsOnly(previous) && KeyColumnsOnly(Varying(tracker, previous))
      ensures andClause == EqCursor(cursor, Varying(tracker, previous))
    {
      andClause := [];
      for j := 0 to |previous|
        invariant KeyColumnsOnly(Varying(tracker, previous[..j]))
        invariant andClause == EqCursor(cursor, Varying(tracker, previous[..j]))
      {
        assert previous[..j + 1][..j] == previous[..j];
        if !HasStaticValue(tracker, previous[j]) {
          andClause := andClause + [Eq(previous[j], KeyField(cursor, previous[j]))];
        }
      }
      assert previous[..|previous|] == previous;
    }
  }
}
