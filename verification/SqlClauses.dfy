/** Relationship rows, the WHERE trees the query builder produces, and their SQL meaning.
    Conditions are three-valued: comparing a NULL cell is unknown, and a row is returned only
    when the whole WHERE tree is true. */
module SqlClauses {
  import opened Wrappers
  import opened Strings
  import LikePrefix

  /** The columns of the relationship table (internal/datastore/common/schema.go:24-38). */
  datatype Column =
    | ColNamespace | ColObjectID | ColRelation
    | ColUsersetNamespace | ColUsersetObjectID | ColUsersetRelation
    | ColCaveatName | ColCaveatContext | ColExpiration
    | ColIntegrityKeyID | ColIntegrityHash | ColIntegrityTimestamp

  /** The six strings that identify a relationship; also what a cursor carries. */
  datatype RelationshipKey = RelationshipKey(
    resourceType: string, resourceID: string, resourceRelation: string,
    subjectType: string, subjectID: string, subjectRelation: string)

  /** A stored relationship. The caveat context and the integrity fields are opaque payloads, and
      `size` stands for its encoded size. */
  datatype Row = Row(
    key: RelationshipKey, caveat: Option<string>, expiration: Option<int>,
    context: int, integrityKeyID: string, integrityHash: int, integrityTimestamp: int, size: nat)

  datatype Cell = Null | Text(text: string) | Time(nanos: int) | Blob(blob: int)

  const KEY_COLUMNS: seq<Column> :=
    [ColNamespace, ColObjectID, ColRelation, ColUsersetNamespace, ColUsersetObjectID, ColUsersetRelation]

  predicate IsKeyColumn(c: Column) {
    c in KEY_COLUMNS
  }

  function KeyField(key: RelationshipKey, c: Column): string
    requires IsKeyColumn(c)
  {
    match c
    case ColNamespace => key.resourceType
    case ColObjectID => key.resourceID
    case ColRelation => key.resourceRelation
    case ColUsersetNamespace => key.subjectType
    case ColUsersetObjectID => key.subjectID
    case _ => key.subjectRelation
  }

  function CellOf(row: Row, c: Column): Cell {
    if IsKeyColumn(c) then Text(KeyField(row.key, c))
    else match c
      case ColCaveatName => if row.caveat.Some? then Text(row.caveat.value) else Null
      case ColExpiration => if row.expiration.Some? then Time(row.expiration.value) else Null
      case ColCaveatContext => Blob(row.context)
      case ColIntegrityKeyID => Text(row.integrityKeyID)
      case ColIntegrityHash => Blob(row.integrityHash)
      case _ => Time(row.integrityTimestamp)
  }

  datatype Clause =
    | And(clauses: seq<Clause>)
    | Or(clauses: seq<Clause>)
    | Eq(col: Column, value: string)
    | NotEq(col: Column, value: string)
    | Gt(col: Column, value: string)
    | In(col: Column, values: seq<string>)
    | Like(col: Column, pattern: string)
    | IsNull(col: Column)
    | IsNotNull(col: Column)
    | RowGreater(cols: seq<Column>, values: seq<string>)

  datatype Truth = True | False | Unknown

  function Known(b: bool): Truth {
    if b then True else False
  }

  function Eval(clause: Clause, row: Row): Truth
    decreases clause
  {
    match clause
    case And(cs) => EvalAnd(cs, row)
    case Or(cs) => EvalOr(cs, row)
    case Eq(c, v) => if CellOf(row, c).Text? then Known(CellOf(row, c).text == v) else Unknown
    case NotEq(c, v) => if CellOf(row, c).Text? then Known(CellOf(row, c).text != v) else Unknown
    case Gt(c, v) => if CellOf(row, c).Text? then Known(Less(v, CellOf(row, c).text)) else Unknown
    case In(c, vs) => if CellOf(row, c).Text? then Known(CellOf(row, c).text in vs) else Unknown
    case Like(c, p) => if CellOf(row, c).Text? then Known(LikePrefix.Like(p, CellOf(row, c).text)) else Unknown
    case IsNull(c) => Known(CellOf(row, c) == Null)
    case IsNotNull(c) => Known(CellOf(row, c) != Null)
    case RowGreater(cs, vs) => EvalRowGreater(cs, vs, row)
  }

  /** Conjunction; the empty one is true. */
  function EvalAnd(cs: seq<Clause>, row: Row): Truth
    decreases cs
  {
    if cs == [] then True
    else
      var last := Eval(cs[|cs| - 1], row);
      var rest := EvalAnd(cs[..|cs| - 1], row);
      if rest == False || last == False then False
      else if rest == True && last == True then True else Unknown
  }

  /** Disjunction; the empty one is false. */
  function EvalOr(cs: seq<Clause>, row: Row): Truth
    decreases cs
  {
    if cs == [] then False
    else
      var last := Eval(cs[|cs| - 1], row);
      var rest := EvalOr(cs[..|cs| - 1], row);
      if rest == True || last == True then True
      else if rest == False && last == False then False else Unknown
  }

  /** Row-value `>` of section 8.2 of ISO/IEC 9075:1992: decided by the first field that differs. */
  function EvalRowGreater(cs: seq<Column>, vs: seq<string>, row: Row): Truth {
    if cs == [] || vs == [] then False
    else
      match CellOf(row, cs[0])
      case Text(s) =>
        if s == vs[0] then EvalRowGreater(cs[1..], vs[1..], row) else Known(Less(vs[0], s))
      case _ => Unknown
  }

  lemma {:induction false} EvalAndTrue(cs: seq<Clause>, row: Row)
    ensures EvalAnd(cs, row) == True <==> forall i :: 0 <= i < |cs| ==> Eval(cs[i], row) == True
  {
    if cs != [] {
      EvalAndTrue(cs[..|cs| - 1], row);
    }
  }

  lemma {:induction false} EvalOrTrue(cs: seq<Clause>, row: Row)
    ensures EvalOr(cs, row) == True <==> exists i :: 0 <= i < |cs| && Eval(cs[i], row) == True
  {
    if cs != [] {
      EvalOrTrue(cs[..|cs| - 1], row);
    }
  }

  lemma {:induction false} EvalAndConcat(a: seq<Clause>, b: seq<Clause>, row: Row)
    ensures EvalAnd(a + b, row) == True <==> EvalAnd(a, row) == True && EvalAnd(b, row) == True
  {
    if b == [] {
      assert a + b == a;
    } else {
      EvalAndConcat(a, b[..|b| - 1], row);
      assert (a + b)[..|a + b| - 1] == a + b[..|b| - 1];
    }
  }

  /** The query returns the row: successive Where calls are joined by AND. */
  predicate Selects(where_: seq<Clause>, row: Row) {
    EvalAnd(where_, row) == True
  }

  lemma SelectsAppend(where_: seq<Clause>, clause: Clause, row: Row)
    ensures Selects(where_ + [clause], row) <==> Selects(where_, row) && Eval(clause, row) == True
  {
    assert (where_ + [clause])[..|where_|] == where_;
  }
}
