/** memdb's row-by-row interpretation of a relationships filter and cursor
    (internal/datastore/memdb/readonly.go:391-495,545-553), and the proof that the compiled
    WHERE tree selects the same rows. */
module MemdbFilter {
  import opened Wrappers
  import opened Strings
  import opened SqlClauses
  import opened QueryFilterer
  import LikePrefix
  import ColumnElision

  // ---- The interpreter ----

  predicate ApplySubjectSelector(s: SubjectsSelector, key: RelationshipKey) {
    if |s.subjectType| > 0 && s.subjectType != key.subjectType then false
    else if |s.subjectIds| > 0 && key.subjectID !in s.subjectIds then false
    else if s.relation.onlyNonEllipsis then key.subjectRelation != ELLIPSIS
    else |s.relation.Relations()| == 0 || key.subjectRelation in s.relation.Relations()
  }

  /** The filter function without its cursor: true means the row is dropped. */
  predicate Drops(f: RelationshipsFilter, row: Row) {
    if f.resourceType != "" && f.resourceType != row.key.resourceType then true
    else if |f.resourceIds| > 0 && row.key.resourceID !in f.resourceIds then true
    else if f.idPrefix != "" && !HasPrefix(row.key.resourceID, f.idPrefix) then true
    else if f.resourceRelation != "" && f.resourceRelation != row.key.resourceRelation then true
    else if f.caveat == HasMatchingCaveat && (row.caveat.None? || row.caveat.value != f.caveatName) then true
    else if f.caveat == NoCaveat && row.caveat.Some? && row.caveat.value != "" then true
    else if f.expiration == HasExpiration && row.expiration.None? then true
    else if f.expiration == NoExpiration && row.expiration.Some? then true
    else
      |f.selectors| > 0 &&
      !exists i :: 0 <= i < |f.selectors| && ApplySubjectSelector(f.selectors[i], row.key)
  }

  /** `less` and `eq` on one (type, id, relation) triple. */
  predicate LessTriple(aType: string, aID: string, aRelation: string, bType: string, bID: string, bRelation: string) {
    Less(aType, bType) || (aType == bType && Less(aID, bID)) ||
    (aType == bType && aID == bID && Less(aRelation, bRelation))
  }

  predicate LessResource(a: RelationshipKey, b: RelationshipKey) {
    LessTriple(a.resourceType, a.resourceID, a.resourceRelation, b.resourceType, b.resourceID, b.resourceRelation)
  }

  predicate LessSubject(a: RelationshipKey, b: RelationshipKey) {
    LessTriple(a.subjectType, a.subjectID, a.subjectRelation, b.subjectType, b.subjectID, b.subjectRelation)
  }

  predicate EqResource(a: RelationshipKey, b: RelationshipKey) {
    a.resourceType == b.resourceType && a.resourceID == b.resourceID && a.resourceRelation == b.resourceRelation
  }

  predicate EqSubject(a: RelationshipKey, b: RelationshipKey) {
    a.subjectType == b.subjectType && a.subjectID == b.subjectID && a.subjectRelation == b.subjectRelation
  }

  /** mustMakeCursorFilterFn: true means the row is at or before the cursor and is dropped. */
  predicate CursorDrops(after: Option<RelationshipKey>, order: SortOrder, key: RelationshipKey) {
    match after
    case None => false
    case Some(cursor) =>
      match order
      case Unsorted => false
      case BySubject =>
        LessSubject(key, cursor) ||
        (EqSubject(key, cursor) && (LessResource(key, cursor) || EqResource(key, cursor)))
      case _ =>
        LessResource(key, cursor) ||
        (EqResource(key, cursor) && (LessSubject(key, cursor) || EqSubject(key, cursor)))
  }

  // ---- Filters agree ----

  /** What a relation filter asks of a subject relation. */
  predicate RelationMatches(f: RelationFilter, relation: string) {
    && (f.onlyNonEllipsis ==> relation != "...")
    && (!f.onlyNonEllipsis && (f.includeEllipsis || f.nonEllipsis != "") ==>
          (f.includeEllipsis && relation == "...") || (f.nonEllipsis != "" && relation == f.nonEllipsis))
  }

  /** What a subject selector asks of a row. */
  predicate SubjectMatches(s: SubjectsSelector, key: RelationshipKey) {
    && (s.subjectType != "" ==> key.subjectType == s.subjectType)
    && (s.subjectIds != [] ==> key.subjectID in s.subjectIds)
    && RelationMatches(s.relation, key.subjectRelation)
  }

  predicate ResourceMatches(f: RelationshipsFilter, key: RelationshipKey) {
    && (f.resourceType != "" ==> key.resourceType == f.resourceType)
    && (f.resourceRelation != "" ==> key.resourceRelation == f.resourceRelation)
    && (f.resourceIds != [] ==> key.resourceID in f.resourceIds)
    && (f.idPrefix != "" ==> |f.idPrefix| <= |key.resourceID| && key.resourceID[..|f.idPrefix|] == f.idPrefix)
  }

  /** What a relationships filter asks of a row: the resource, one of the subject selectors, the
      caveat and the expiration, each as far as the filter sets it. */
  predicate FilterMatches(f: RelationshipsFilter, row: Row) {
    && ResourceMatches(f, row.key)
    && (f.selectors != [] ==> exists i :: 0 <= i < |f.selectors| && SubjectMatches(f.selectors[i], row.key))
    && (f.caveat == HasMatchingCaveat ==> row.caveat == Some(f.caveatName))
    && (f.caveat == NoCaveat ==> row.caveat.None? || row.caveat == Some(""))
    && (f.expiration == HasExpiration ==> row.expiration.Some?)
    && (f.expiration == NoExpiration ==> row.expiration.None?)
  }

  /** The relations a filter lists: the ellipsis and the named one, as far as they are set. */
  lemma RelationsMeaning(f: RelationFilter, relation: string)
    ensures relation in f.Relations() <==>
            (f.includeEllipsis && relation == "...") || (f.nonEllipsis != "" && relation == f.nonEllipsis)
    ensures f.Relations() == [] <==> !f.includeEllipsis && f.nonEllipsis == ""
  {
    var a: seq<string> := if f.includeEllipsis then ["..."] else [];
    var b := if f.nonEllipsis != "" then [f.nonEllipsis] else [];
    assert f.Relations() == a + b;
    assert relation in a + b <==> relation in a || relation in b;
  }

  lemma RelationAgrees(f: RelationFilter, row: Row)
    ensures RelationMatches(f, row.key.subjectRelation) <==>
            f.IsEmpty() || Eval(RelationClause(f), row) == True
    ensures RelationMatches(f, row.key.subjectRelation) <==>
            if f.onlyNonEllipsis then row.key.subjectRelation != ELLIPSIS
            else f.Relations() == [] || row.key.subjectRelation in f.Relations()
  {
    RelationsMeaning(f, row.key.subjectRelation);
    if !f.IsEmpty() {
      ColumnElision.EvalRelationClause(f, row);
    }
  }

  /** The conjuncts of one selector, and memdb's test, ask of a row what the selector's fields say. */
  lemma SelectorAgrees(s: SubjectsSelector, row: Row)
    ensures EvalAnd(SelectorParts(s), row) == True <==> SubjectMatches(s, row.key)
    ensures ApplySubjectSelector(s, row.key) <==> SubjectMatches(s, row.key)
  {
    ColumnElision.EvalSelectorParts(s, row);
    RelationAgrees(s.relation, row);
  }

  lemma SelectorsAgree(ss: seq<SubjectsSelector>, row: Row)
    ensures Eval(Or(SelectorClauses(ss)), row) == True <==>
            exists i :: 0 <= i < |ss| && SubjectMatches(ss[i], row.key)
  {
    var cs := SelectorClauses(ss);
    EvalOrTrue(cs, row);
    forall i | 0 <= i < |ss|
      ensures Eval(cs[i], row) == True <==> SubjectMatches(ss[i], row.key)
    {
      SelectorAgrees(ss[i], row);
    }
  }

  /** memdb's filter function keeps exactly the rows that match every field the filter sets. */
  lemma InterpreterAgrees(f: RelationshipsFilter, row: Row)
    ensures !Drops(f, row) <==> FilterMatches(f, row)
  {
    forall i | 0 <= i < |f.selectors|
      ensures ApplySubjectSelector(f.selectors[i], row.key) <==> SubjectMatches(f.selectors[i], row.key)
    {
      SelectorAgrees(f.selectors[i], row);
    }
  }

  lemma NoCaveatAgrees(row: Row)
    ensures Eval(Or([IsNull(ColCaveatName), Eq(ColCaveatName, "")]), row) == True <==>
            row.caveat.None? || row.caveat.value == ""
  {
    var cs := [IsNull(ColCaveatName), Eq(ColCaveatName, "")];
    EvalOrTrue(cs, row);
    assert Eval(cs[0], row) == True <==> row.caveat.None?;
    assert Eval(cs[1], row) == True <==> row.caveat == Some("");
  }

  lemma EqStageAgrees(q: Query, c: Column, value: string, row: Row)
    ensures
      Selects((if value != "" then FilterEq(q, c, value) else q).where_, row) <==>
        Selects(q.where_, row) && (value != "" ==> CellOf(row, c) == Text(value))
  {
    SelectsAppend(q.where_, Eq(c, value), row);
  }

  lemma IDStageAgrees(q: Query, f: RelationshipsFilter, row: Row)
    requires FilterAccepted(f)
    ensures
      var q3 := if f.resourceIds != [] then FilterIn(q, ColObjectID, f.resourceIds) else q;
      Selects((if f.idPrefix != "" then FilterPrefix(q3, f.idPrefix) else q3).where_, row) <==>
        && Selects(q.where_, row)
        && (f.resourceIds != [] ==> row.key.resourceID in f.resourceIds)
        && (f.idPrefix != "" ==> HasPrefix(row.key.resourceID, f.idPrefix))
  {
    SelectsAppend(q.where_, In(ColObjectID, f.resourceIds), row);
    var q3 := if f.resourceIds != [] then FilterIn(q, ColObjectID, f.resourceIds) else q;
    if f.idPrefix != "" {
      LikePrefix.LikePrefixExact(f.idPrefix, row.key.resourceID);
      SelectsAppend(q3.where_, Clause.Like(ColObjectID, LikePrefix.BuildLikePrefix(f.idPrefix).value), row);
    }
  }

  lemma ResourceStageAgrees(q: Query, f: RelationshipsFilter, row: Row)
    requires FilterAccepted(f)
    ensures
      Selects(ResourceStage(q, f).where_, row) <==> Selects(q.where_, row) && ResourceMatches(f, row.key)
  {
    EqStageAgrees(q, ColNamespace, f.resourceType, row);
    var q1 := if f.resourceType != "" then FilterEq(q, ColNamespace, f.resourceType) else q;
    EqStageAgrees(q1, ColRelation, f.resourceRelation, row);
    var q2 := if f.resourceRelation != "" then FilterEq(q1, ColRelation, f.resourceRelation) else q1;
    assert CellOf(row, ColNamespace) == Text(row.key.resourceType);
    assert CellOf(row, ColRelation) == Text(row.key.resourceRelation);
    IDStageAgrees(q2, f, row);
  }

  lemma SubjectStageAgrees(q: Query, f: RelationshipsFilter, row: Row)
    ensures Selects(SubjectStage(q, f).where_, row) <==>
            && Selects(q.where_, row)
            && (f.selectors == [] ||
                exists i :: 0 <= i < |f.selectors| && SubjectMatches(f.selectors[i], row.key))
  {
    SelectorsAgree(f.selectors, row);
    SelectsAppend(q.where_, Or(SelectorClauses(f.selectors)), row);
  }

  lemma CaveatStageAgrees(q: Query, f: RelationshipsFilter, row: Row)
    ensures Selects(CaveatStage(q, f).where_, row) <==>
            && Selects(q.where_, row)
            && (f.caveat == HasMatchingCaveat ==> row.caveat == Some(f.caveatName))
            && (f.caveat == NoCaveat ==> row.caveat.None? || row.caveat.value == "")
  {
    match f.caveat
    case HasMatchingCaveat =>
      SelectsAppend(q.where_, Eq(ColCaveatName, f.caveatName), row);
    case NoCaveat =>
      NoCaveatAgrees(row);
      SelectsAppend(q.where_, Or([IsNull(ColCaveatName), Eq(ColCaveatName, "")]), row);
    case _ =>
  }

  lemma ExpirationStageAgrees(q: Query, f: RelationshipsFilter, row: Row)
    ensures Selects(ExpirationStage(q, f).where_, row) <==>
            && Selects(q.where_, row)
            && (f.expiration == HasExpiration ==> row.expiration.Some?)
            && (f.expiration == NoExpiration ==> row.expiration.None?)
  {
    match f.expiration
    case HasExpiration => SelectsAppend(q.where_, IsNotNull(ColExpiration), row);
    case NoExpiration => SelectsAppend(q.where_, IsNull(ColExpiration), row);
    case _ =>
  }

  /** Filter compilation agrees across backends: for every filter the builder accepts, the WHERE
      tree is true on a row exactly when the earlier conjuncts are and the row matches every field
      the filter sets, and those are the rows memdb keeps. */
  lemma FilterCompilationAgrees(q: Query, f: RelationshipsFilter, row: Row)
    requires FilterAccepted(f)
    ensures Selects(FilterRelationships(q, f).where_, row) <==> Selects(q.where_, row) && FilterMatches(f, row)
    ensures !Drops(f, row) <==> FilterMatches(f, row)
  {
    ResourceStageAgrees(q, f, row);
    var q1 := ResourceStage(q, f);
    SubjectStageAgrees(q1, f, row);
    var q2 := SubjectStage(q1, f);
    CaveatStageAgrees(q2, f, row);
    ExpirationStageAgrees(CaveatStage(q2, f), f, row);
    InterpreterAgrees(f, row);
  }
}
