/** What the single calls of the filterer mean, field by field: which rows each of them keeps and
    which columns it pins (internal/datastore/common/sql.go:367-679). */
module FilterMeaning {
  import opened Wrappers
  import opened SqlClauses
  import opened QueryFilterer
  import opened MemdbFilter
  import opened ColumnElision
  import LikePrefix

  // ---- The relationships filter ----

  /** The filters the builder accepts. */
  lemma AcceptedMeaning(f: RelationshipsFilter)
    ensures FilterAccepted(f) <==>
            && (f.resourceIds == [] || f.idPrefix == "")
            && "" !in f.resourceIds && '%' !in f.idPrefix
            && (forall i :: 0 <= i < |f.selectors| ==> "" !in f.selectors[i].subjectIds)
            && f.caveat != UnknownCaveatOption
  {
    LikePrefix.LikePrefixExact(f.idPrefix, "");
  }

  // ---- The single calls ----

  lemma EqMeaning(q: Query, c: Column, v: string, row: Row)
    ensures Selects(FilterEq(q, c, v).where_, row) <==> Selects(q.where_, row) && CellOf(row, c) == Text(v)
  {
    SelectsAppend(q.where_, Eq(c, v), row);
  }

  lemma ResourceTypeMeaning(schema: Schema, q: Query, v: string, row: Row)
    ensures Selects(ApplyCall(schema, q, ResourceTypeCall(v)).where_, row) <==>
            Selects(q.where_, row) && row.key.resourceType == v
  {
    EqMeaning(q, ColNamespace, v, row);
  }

  lemma ResourceIDMeaning(schema: Schema, q: Query, v: string, row: Row)
    ensures Selects(ApplyCall(schema, q, ResourceIDCall(v)).where_, row) <==>
            Selects(q.where_, row) && row.key.resourceID == v
  {
    EqMeaning(q, ColObjectID, v, row);
  }

  lemma RelationMeaning(schema: Schema, q: Query, v: string, row: Row)
    ensures Selects(ApplyCall(schema, q, RelationCall(v)).where_, row) <==>
            Selects(q.where_, row) && row.key.resourceRelation == v
  {
    EqMeaning(q, ColRelation, v, row);
  }

  lemma CaveatNameMeaning(schema: Schema, q: Query, v: string, row: Row)
    ensures Selects(ApplyCall(schema, q, CaveatNameCall(v)).where_, row) <==>
            Selects(q.where_, row) && row.caveat == Some(v)
  {
    EqMeaning(q, ColCaveatName, v, row);
  }

  lemma NoCaveatMeaning(schema: Schema, q: Query, row: Row)
    ensures Selects(ApplyCall(schema, q, NoCaveatCall).where_, row) <==>
            Selects(q.where_, row) && (row.caveat.None? || row.caveat == Some(""))
  {
    NoCaveatAgrees(row);
    SelectsAppend(q.where_, Or([IsNull(ColCaveatName), Eq(ColCaveatName, "")]), row);
  }

  lemma ResourceIDsMeaning(schema: Schema, q: Query, ids: seq<string>, row: Row)
    ensures CallAccepted(schema, ResourceIDsCall(ids)) <==> "" !in ids
    ensures "" !in ids ==>
              (Selects(ApplyCall(schema, q, ResourceIDsCall(ids)).where_, row) <==>
               Selects(q.where_, row) && row.key.resourceID in ids)
  {
    SelectsAppend(q.where_, In(ColObjectID, ids), row);
  }

  lemma PrefixMeaning(schema: Schema, q: Query, prefix: string, row: Row)
    ensures CallAccepted(schema, PrefixCall(prefix)) <==> prefix != "" && '%' !in prefix
    ensures prefix != "" && '%' !in prefix ==>
              (Selects(ApplyCall(schema, q, PrefixCall(prefix)).where_, row) <==>
               Selects(q.where_, row) &&
               |prefix| <= |row.key.resourceID| && row.key.resourceID[..|prefix|] == prefix)
  {
    LikePrefix.LikePrefixExact(prefix, row.key.resourceID);
    if prefix != "" && '%' !in prefix {
      SelectsAppend(q.where_, Clause.Like(ColObjectID, LikePrefix.BuildLikePrefix(prefix).value), row);
    }
  }

  lemma SelectorsMeaning(schema: Schema, q: Query, ss: seq<SubjectsSelector>, row: Row)
    ensures CallAccepted(schema, SelectorsCall(ss)) <==>
            forall i :: 0 <= i < |ss| ==> "" !in ss[i].subjectIds
    ensures CallAccepted(schema, SelectorsCall(ss)) ==>
              (Selects(ApplyCall(schema, q, SelectorsCall(ss)).where_, row) <==>
               Selects(q.where_, row) && exists i :: 0 <= i < |ss| && SubjectMatches(ss[i], row.key))
  {
    SelectorsAgree(ss, row);
    SelectsAppend(q.where_, Or(SelectorClauses(ss)), row);
  }

  lemma SubjectTypeStep(q: Query, subjectType: string, row: Row)
    ensures Selects(FilterEq(q, ColUsersetNamespace, subjectType).where_, row) <==>
            Selects(q.where_, row) && row.key.subjectType == subjectType
  {
    EqMeaning(q, ColUsersetNamespace, subjectType, row);
  }

  lemma SubjectIDStep(q: Query, subjectID: string, row: Row)
    ensures Selects((if subjectID != "" then FilterEq(q, ColUsersetObjectID, subjectID) else q).where_, row) <==>
            Selects(q.where_, row) && (subjectID != "" ==> row.key.subjectID == subjectID)
  {
    EqMeaning(q, ColUsersetObjectID, subjectID, row);
  }

  lemma SubjectRelationStep(where_: seq<Clause>, relation: string, row: Row)
    ensures Selects(where_ + [Eq(ColUsersetRelation, DatastoreRelation(relation))], row) <==>
            Selects(where_, row) && row.key.subjectRelation == (if relation == "" then "..." else relation)
  {
    SelectsAppend(where_, Eq(ColUsersetRelation, DatastoreRelation(relation)), row);
    assert CellOf(row, ColUsersetRelation) == Text(row.key.subjectRelation);
  }

  /** FilterToSubjectFilter keeps the rows with the requested subject: the type, the ID if one is
      given, and the relation if one is given, the empty relation standing for the ellipsis. */
  lemma SubjectFilterMeaning(q: Query, subjectType: string, subjectID: string, relation: Option<string>, row: Row)
    ensures Selects(FilterSubject(q, subjectType, subjectID, relation).where_, row) <==>
            && Selects(q.where_, row)
            && row.key.subjectType == subjectType
            && (subjectID != "" ==> row.key.subjectID == subjectID)
            && (relation.Some? ==>
                  row.key.subjectRelation == (if relation.value == "" then "..." else relation.value))
  {
    var q1 := FilterEq(q, ColUsersetNamespace, subjectType);
    var q2 := if subjectID != "" then FilterEq(q1, ColUsersetObjectID, subjectID) else q1;
    SubjectTypeStep(q, subjectType, row);
    SubjectIDStep(q1, subjectID, row);
    if relation.Some? {
      SubjectRelationStep(q2.where_, relation.value, row);
    }
  }

  /** It pins the subject type, the ID if one is given, and the ellipsis for any given relation. */
  lemma SubjectFilterPins(q: Query, subjectType: string, subjectID: string, relation: Option<string>,
                          c: Column, v: string)
    requires ColUsersetNamespace !in q.tracker && ColUsersetObjectID !in q.tracker && ColUsersetRelation !in q.tracker
    ensures Static(FilterSubject(q, subjectType, subjectID, relation).tracker, c, v) <==>
            || Static(q.tracker, c, v)
            || (c == ColUsersetNamespace && v == subjectType)
            || (c == ColUsersetObjectID && v == subjectID && v != "")
            || (c == ColUsersetRelation && v == "..." && relation.Some?)
  {
  }

  /** After is accepted for the two sorted orders over key columns, in particular for the defaults. */
  lemma AfterAcceptedMeaning(schema: Schema, order: SortOrder)
    ensures AfterAccepted(schema, order) <==>
            || (order == ByResource && forall c :: c in schema.resourceOrder ==> c in KEY_COLUMNS)
            || (order == BySubject && forall c :: c in schema.subjectOrder ==> c in KEY_COLUMNS)
  {
  }

  // ---- Which columns are pinned ----

  /** There is a value, and every value is v. */
  predicate AllAre(vs: seq<string>, v: string) {
    vs != [] && forall i :: 0 <= i < |vs| ==> vs[i] == v
  }

  /** The filter asks for the one subject relation v. */
  predicate OnlyRelation(f: RelationFilter, v: string) {
    && !f.onlyNonEllipsis && (f.includeEllipsis || f.nonEllipsis != "")
    && (f.includeEllipsis ==> v == "...") && (f.nonEllipsis != "" ==> v == f.nonEllipsis)
  }

  /** The selector asks for the one value v in a subject column. */
  predicate SelectorAsks(s: SubjectsSelector, c: Column, v: string) {
    || (c == ColUsersetNamespace && v == s.subjectType && v != "")
    || (c == ColUsersetObjectID && AllAre(s.subjectIds, v))
    || (c == ColUsersetRelation && OnlyRelation(s.relation, v))
  }

  /** The filter asks for the one value v in column c. */
  predicate FilterAsks(f: RelationshipsFilter, c: Column, v: string) {
    || (c == ColNamespace && v == f.resourceType && v != "")
    || (c == ColRelation && v == f.resourceRelation && v != "")
    || (c == ColObjectID && AllAre(f.resourceIds, v))
    || (c == ColCaveatName && f.caveat == HasMatchingCaveat && v == f.caveatName)
    || (|f.selectors| == 1 && SelectorAsks(f.selectors[0], c, v))
  }

  /** One more recorded value: the first pins the column, another one makes it vary. */
  lemma RecordAllSnoc(t: Tracker, c: Column, vs: seq<string>, v: string)
    ensures RecordAll(t, c, vs + [v]) == Record(RecordAll(t, c, vs), c, v)
  {
    assert (vs + [v])[..|vs|] == vs;
  }

  lemma AllAreSnoc(vs: seq<string>, last: string, v: string)
    ensures AllAre(vs + [last], v) <==> last == v && (vs == [] || AllAre(vs, v))
  {
    var all := vs + [last];
    assert all[|vs|] == last && forall i :: 0 <= i < |vs| ==> all[i] == vs[i];
  }

  /** One value recorded over and over is pinned; two different ones make the column vary. */
  lemma {:induction false} RecordMeaning(t: Tracker, c: Column, vs: seq<string>, v: string)
    requires c !in t
    ensures Static(RecordAll(t, c, vs), c, v) <==> AllAre(vs, v)
    ensures c in RecordAll(t, c, vs) <==> vs != []
  {
    if vs != [] {
      var front, last := vs[..|vs| - 1], vs[|vs| - 1];
      assert vs == front + [last];
      RecordMeaning(t, c, front, v);
      RecordMeaning(t, c, front, last);
      RecordAllSnoc(t, c, front, last);
      AllAreSnoc(front, last, v);
      if front != [] {
        assert AllAre(front, v) ==> front[0] == v;
        assert AllAre(front, last) ==> front[0] == last;
      }
    }
  }

  lemma {:induction false} RecordKeeps(t: Tracker, c: Column, vs: seq<string>, d: Column)
    requires d != c
    ensures d in RecordAll(t, c, vs) <==> d in t
    ensures d in t ==> RecordAll(t, c, vs)[d] == t[d]
  {
    if vs != [] {
      RecordKeeps(t, c, vs[..|vs| - 1], d);
    }
  }

  lemma RecordPins(t: Tracker, column: Column, vs: seq<string>, c: Column, v: string)
    requires column !in t
    ensures Static(RecordAll(t, column, vs), c, v) <==> Static(t, c, v) || (c == column && AllAre(vs, v))
    ensures c != column ==> (c in RecordAll(t, column, vs) <==> c in t)
  {
    RecordMeaning(t, column, vs, v);
    if c != column {
      RecordKeeps(t, column, vs, c);
    }
  }

  lemma ResourcePins(f: RelationshipsFilter, c: Column, v: string)
    requires FilterAccepted(f)
    ensures
      var t := ResourceStage(EMPTY_QUERY, f).tracker;
      && (c in t ==> c in {ColNamespace, ColRelation, ColObjectID})
      && (Static(t, c, v) <==>
            || (c == ColNamespace && v == f.resourceType && v != "")
            || (c == ColRelation && v == f.resourceRelation && v != "")
            || (c == ColObjectID && AllAre(f.resourceIds, v)))
  {
    var q1 := if f.resourceType != "" then FilterEq(EMPTY_QUERY, ColNamespace, f.resourceType) else EMPTY_QUERY;
    var q2 := if f.resourceRelation != "" then FilterEq(q1, ColRelation, f.resourceRelation) else q1;
    RecordPins(q2.tracker, ColObjectID, f.resourceIds, c, v);
  }

  lemma RelationPins(t: Tracker, f: RelationFilter, c: Column, v: string)
    requires ColUsersetRelation !in t
    ensures Static(RelationTracker(t, f), c, v) <==>
            Static(t, c, v) || (c == ColUsersetRelation && OnlyRelation(f, v))
  {
    if !f.onlyNonEllipsis {
      RecordPins(t, ColUsersetRelation, f.Relations(), c, v);
      AllRelations(f, v);
    }
  }

  /** The subject columns a single selector pins on a tracker that knows none of them. */
  lemma SelectorPins(t: Tracker, s: SubjectsSelector, c: Column, v: string)
    requires ColUsersetNamespace !in t && ColUsersetObjectID !in t && ColUsersetRelation !in t
    ensures Static(SelectorTracker(t, s), c, v) <==> Static(t, c, v) || SelectorAsks(s, c, v)
  {
    var t1 := if s.subjectType != "" then Record(t, ColUsersetNamespace, s.subjectType) else t;
    var t2 := RecordAll(t1, ColUsersetObjectID, s.subjectIds);
    assert Static(t1, c, v) <==> Static(t, c, v) || (c == ColUsersetNamespace && v == s.subjectType && v != "");
    RecordPins(t1, ColUsersetObjectID, s.subjectIds, c, v);
    RecordPins(t1, ColUsersetObjectID, s.subjectIds, ColUsersetRelation, v);
    RelationPins(t2, s.relation, c, v);
  }

  lemma AllRelations(f: RelationFilter, v: string)
    ensures AllAre(f.Relations(), v) <==>
            (f.includeEllipsis || f.nonEllipsis != "") &&
            (f.includeEllipsis ==> v == "...") && (f.nonEllipsis != "" ==> v == f.nonEllipsis)
  {
    RelationsMeaning(f, v);
    RelationsMeaning(f, "...");
    RelationsMeaning(f, f.nonEllipsis);
    forall i | 0 <= i < |f.Relations()|
      ensures f.Relations()[i] in f.Relations()
    {
      RelationsMeaning(f, f.Relations()[i]);
    }
  }

  /** With several selectors the subject columns vary and no other column changes. */
  lemma SeveralSelectorsPin(t: Tracker, ss: seq<SubjectsSelector>, c: Column, v: string)
    requires |ss| > 1
    requires ColUsersetNamespace !in t && ColUsersetObjectID !in t && ColUsersetRelation !in t
    ensures Static(SelectorTrackers(VarySubjects(t, ss), ss), c, v) <==> Static(t, c, v)
  {
    VaryingStays(VarySubjects(t, ss), ss);
  }

  /** The subject columns are pinned by the only selector, if there is exactly one. */
  lemma SubjectStagePins(q: Query, f: RelationshipsFilter, c: Column, v: string)
    requires ColUsersetNamespace !in q.tracker && ColUsersetObjectID !in q.tracker && ColUsersetRelation !in q.tracker
    ensures Static(SubjectStage(q, f).tracker, c, v) <==>
            Static(q.tracker, c, v) || (|f.selectors| == 1 && SelectorAsks(f.selectors[0], c, v))
  {
    var ss := f.selectors;
    if |ss| == 1 {
      assert ss == [ss[0]];
      OneTracker(q.tracker, ss[0]);
      SelectorPins(q.tracker, ss[0], c, v);
      assert SubjectStage(q, f).tracker == SelectorTracker(q.tracker, ss[0]);
    } else if |ss| > 1 {
      SeveralSelectorsPin(q.tracker, ss, c, v);
    }
  }

  lemma ResourceColumnsOnly(f: RelationshipsFilter)
    requires FilterAccepted(f)
    ensures
      var t := ResourceStage(EMPTY_QUERY, f).tracker;
      ColUsersetNamespace !in t && ColUsersetObjectID !in t && ColUsersetRelation !in t && ColCaveatName !in t
  {
    ResourcePins(f, ColUsersetNamespace, "");
    ResourcePins(f, ColUsersetObjectID, "");
    ResourcePins(f, ColUsersetRelation, "");
    ResourcePins(f, ColCaveatName, "");
  }

  /** Exactly what a relationships filter on a fresh query pins: the resource type and relation it
      asks for, the resource ID if all requested ones are the same, the subject columns likewise if
      there is exactly one selector, and the caveat name. */
  lemma FilterPins(f: RelationshipsFilter, c: Column, v: string)
    requires FilterAccepted(f)
    ensures Static(FilterRelationships(EMPTY_QUERY, f).tracker, c, v) <==> FilterAsks(f, c, v)
  {
    var q1 := ResourceStage(EMPTY_QUERY, f);
    ResourceColumnsOnly(f);
    SubjectStagePins(q1, f, c, v);
    CaveatNotRecorded(q1, f);
    CaveatPins(SubjectStage(q1, f), f, c, v);
    ResourcePins(f, c, v);
  }

  lemma CaveatPins(q: Query, f: RelationshipsFilter, c: Column, v: string)
    requires ColCaveatName !in q.tracker
    ensures Static(ExpirationStage(CaveatStage(q, f), f).tracker, c, v) <==>
            Static(q.tracker, c, v) || (c == ColCaveatName && f.caveat == HasMatchingCaveat && v == f.caveatName)
  {
  }

  lemma CaveatNotRecorded(q: Query, f: RelationshipsFilter)
    requires ColCaveatName !in q.tracker
    ensures ColCaveatName !in SubjectStage(q, f).tracker
  {
    OthersUntouched(VarySubjects(q.tracker, f.selectors), f.selectors, ColCaveatName);
  }

  lemma {:induction false} OthersUntouched(t: Tracker, ss: seq<SubjectsSelector>, c: Column)
    requires c !in {ColUsersetNamespace, ColUsersetObjectID, ColUsersetRelation}
    ensures c in SelectorTrackers(t, ss) <==> c in t
  {
    if ss != [] {
      var t1, s := SelectorTrackers(t, ss[..|ss| - 1]), ss[|ss| - 1];
      OthersUntouched(t, ss[..|ss| - 1], c);
      RecordKeeps(if s.subjectType != "" then Record(t1, ColUsersetNamespace, s.subjectType) else t1,
                  ColUsersetObjectID, s.subjectIds, c);
      var t2 := RecordAll(if s.subjectType != "" then Record(t1, ColUsersetNamespace, s.subjectType) else t1,
                          ColUsersetObjectID, s.subjectIds);
      RecordKeeps(t2, ColUsersetRelation, s.relation.Relations(), c);
    }
  }
}
