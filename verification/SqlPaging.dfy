/** Reading the compiled query page by page: order, cursor and limit as ExecuteQuery sets them
    (internal/datastore/common/sql.go:217-227, 299-365, 682-760). */
module SqlPaging {
  import opened Wrappers
  import opened SqlClauses
  import opened QueryFilterer
  import opened ColumnElision
  import opened Keyset
  import opened Pagination

  // ---- Pages of any query with a cursor ----

  /** A query's unlimited result for a cursor. */
  type Results = Option<RelationshipKey> -> seq<Row>

  /** Page n, each page after the first starting after the last row of the one before; reading stops
      at an empty page. */
  function PageOf(results: Results, n: nat, limit: nat): seq<Row> {
    if n == 0 then Take(results(None), Some(limit))
    else
      var prev := PageOf(results, n - 1, limit);
      if prev == [] then [] else Take(results(Some(prev[|prev| - 1].key)), Some(limit))
  }

  /** The first n pages together. */
  function ReadOf(results: Results, n: nat, limit: nat): seq<Row> {
    if n == 0 then [] else ReadOf(results, n - 1, limit) + PageOf(results, n - 1, limit)
  }

  /** Reading ends after n pages, with everything read. */
  predicate Completes(results: Results, n: nat, limit: nat) {
    PageOf(results, n, limit) == [] && ReadOf(results, n, limit) == results(None)
  }

  /** The cursor of row m - 1 continues with row m. */
  ghost predicate Continues(results: Results) {
    forall m: nat :: 0 < m <= |results(None)| ==> ContinuesAt(results, m)
  }

  predicate ContinuesAt(results: Results, m: nat)
    requires 0 < m <= |results(None)|
  {
    results(Some(results(None)[m - 1].key)) == results(None)[m..]
  }

  /** What the first n pages and the page after them are, as parts of the whole result. */
  predicate IsPrefix(rows: seq<Row>, read: seq<Row>, page: seq<Row>, n: nat, limit: nat) {
    && |read| <= |rows| && read == rows[..|read|]
    && (|read| >= n || read == rows)
    && page == Take(rows[|read|..], Some(limit))
  }

  lemma PagePrefix(rows: seq<Row>, before: seq<Row>, page: seq<Row>, limit: nat)
    requires |before| <= |rows| && before == rows[..|before|] && limit > 0
    requires page == Take(rows[|before|..], Some(limit))
    ensures |before + page| <= |rows| && before + page == rows[..|before + page|]
    ensures page == [] <==> before == rows
    ensures page == [] ==> rows[|before|..] == []
    ensures page != [] ==> page[|page| - 1] == rows[|before + page| - 1]
  {
    TakeSplits(rows[|before|..], limit);
    assert rows == rows[..|before|] + rows[|before|..];
  }

  lemma PrefixGrows(rows: seq<Row>, read: seq<Row>, page: seq<Row>, next: seq<Row>, n: nat, limit: nat)
    requires IsPrefix(rows, read, page, n, limit) && limit > 0
    requires page == [] ==> next == []
    requires page != [] && |read + page| <= |rows| ==> next == Take(rows[|read + page|..], Some(limit))
    ensures IsPrefix(rows, read + page, next, n + 1, limit)
  {
    PagePrefix(rows, read, page, limit);
    if page == [] {
      assert read + page == read;
    }
  }

  /** What has been read is a prefix that grows with every page until it is the whole result. */
  lemma {:induction false} ReadsPrefix(results: Results, n: nat, limit: nat)
    requires Continues(results) && limit > 0
    ensures IsPrefix(results(None), ReadOf(results, n, limit), PageOf(results, n, limit), n, limit)
  {
    var rows := results(None);
    if n == 0 {
      assert rows[0..] == rows;
    } else {
      var before, page := ReadOf(results, n - 1, limit), PageOf(results, n - 1, limit);
      ReadsPrefix(results, n - 1, limit);
      PagePrefix(rows, before, page, limit);
      if page != [] {
        assert ContinuesAt(results, |before + page|);
      }
      PrefixGrows(rows, before, page, PageOf(results, n, limit), n - 1, limit);
    }
  }

  /** A query that ignores its cursor returns its first page over and over. */
  lemma {:induction false} PagesRepeat(results: Results, n: nat, limit: nat)
    requires forall after :: results(after) == results(None)
    ensures PageOf(results, n, limit) == Take(results(None), Some(limit))
  {
    if n > 0 {
      PagesRepeat(results, n - 1, limit);
    }
  }

  lemma {:induction false} ReadNothing(results: Results, n: nat)
    ensures PageOf(results, n, 0) == [] && ReadOf(results, n, 0) == []
  {
    if n > 0 {
      ReadNothing(results, n - 1);
    }
  }

  // ---- The compiled query ----

  /** A filtered query over a relationship table, given in resource order. */
  datatype Paging = Paging(schema: Schema, table: seq<Row>, query: Query, order: SortOrder) {
    /** The default sort columns and a query whose pins follow from its conditions. */
    ghost predicate Valid() {
      && Ordered(ByResource, table) && Sound(query)
      && schema.resourceOrder == [] && schema.subjectOrder == []
      && (order.ByResource? || order.BySubject?)
    }

    /** The query with the cursor applied, if there is one and the order allows it. */
    function With(after: Option<RelationshipKey>): Query {
      if after.None? || !AfterAccepted(schema, order) then query else FilterAfter(query, schema, after.value, order)
    }

    function Returns(after: Option<RelationshipKey>): Row -> bool {
      row => Selects(With(after).where_, row)
    }

    /** The result without a limit: WHERE, then ORDER BY. */
    function Rows(after: Option<RelationshipKey>): seq<Row> {
      var rows := Select(table, Returns(after));
      if order == BySubject then SortedBySubject(rows) else rows
    }

    predicate SomeUnpinned() {
      Varying(query.tracker, DefaultColumns(order)) != []
    }
  }

  lemma DefaultsAccepted(d: Paging)
    requires d.Valid()
    ensures AfterAccepted(d.schema, d.order) && SortColumns(d.schema, d.order) == DefaultColumns(d.order)
  {
  }

  lemma RowsOrdered(d: Paging, after: Option<RelationshipKey>)
    requires Ordered(ByResource, d.table) && (d.order.ByResource? || d.order.BySubject?)
    ensures Ordered(d.order, d.Rows(after))
    ensures forall x :: x in d.Rows(after) <==> x in d.table && d.Returns(after)(x)
  {
    var rows := Select(d.table, d.Returns(after));
    SelectMembers(d.table, d.Returns(after));
    SelectOrdered(ByResource, d.table, d.Returns(after));
    OrderedDistinct(ByResource, rows);
    SortSorts(rows);
  }

  lemma AfterMember(d: Paging, cursor: Row, x: Row)
    requires d.Valid() && d.SomeUnpinned() && d.Returns(None)(cursor)
    ensures d.Returns(Some(cursor.key))(x) <==> d.Returns(None)(x) && Before(d.order, cursor, x)
  {
    DefaultsAccepted(d);
    ReturnedRowFits(d.query, DefaultColumns(d.order), cursor);
    if Selects(d.query.where_, x) {
      KeysetExact(d.query, d.schema, cursor.key, d.order, x);
    } else {
      AfterNarrows(d.query, d.schema, cursor.key, d.order, x);
    }
  }

  lemma RowsAfter(d: Paging, cursor: Row)
    requires d.Valid() && d.SomeUnpinned() && cursor in d.Rows(None)
    ensures d.Rows(Some(cursor.key)) == Select(d.Rows(None), Later(d.order, cursor))
  {
    var rows, later := d.Rows(None), Later(d.order, cursor);
    RowsOrdered(d, None);
    RowsOrdered(d, Some(cursor.key));
    SelectMembers(rows, later);
    SelectOrdered(d.order, rows, later);
    forall x
      ensures x in d.Rows(Some(cursor.key)) <==> x in Select(rows, later)
    {
      AfterMember(d, cursor, x);
    }
    SortIsUnique(d.order, d.Rows(Some(cursor.key)), Select(rows, later));
  }

  /** Where some sort column is unpinned, a cursor continues right after its row. */
  lemma CompiledContinues(d: Paging)
    requires d.Valid() && d.SomeUnpinned()
    ensures Continues(d.Rows)
  {
    forall m: nat | 0 < m <= |d.Rows(None)|
      ensures ContinuesAt(d.Rows, m)
    {
      RowsOrdered(d, None);
      RowsAfter(d, d.Rows(None)[m - 1]);
      LaterRows(d.order, d.Rows(None), m);
    }
  }

  /** Where all of them are pinned, the cursor changes nothing. */
  lemma PinnedIgnoresCursor(d: Paging, after: Option<RelationshipKey>)
    requires d.Valid() && !d.SomeUnpinned()
    ensures d.Rows(after) == d.Rows(None)
  {
    DefaultsAccepted(d);
    assert d.With(after) == d.With(None);
    SameSelection(d.table, d.Returns(after), d.Returns(None));
  }

  lemma {:induction false} SameSelection<T>(s: seq<T>, p: T -> bool, q: T -> bool)
    requires forall x :: p(x) == q(x)
    ensures Select(s, p) == Select(s, q)
  {
    if s != [] {
      SameSelection(s[..|s| - 1], p, q);
    }
  }

  /** Pagination of the compiled query is complete and duplicate-free, for both orders: reading page
      by page, each time with the last row as the cursor, ends with the whole ordered result if and
      only if there is nothing to return, or the limit is positive and some sort column is not
      pinned. With all of them pinned After adds no condition and the first page comes back for
      ever. */
  lemma CompiledPagesConcatenate(d: Paging, limit: nat)
    requires d.Valid()
    ensures (exists n :: Completes(d.Rows, n, limit)) <==> d.Rows(None) == [] || (limit > 0 && d.SomeUnpinned())
    ensures Ordered(d.order, d.Rows(None))
    ensures forall x :: x in d.Rows(None) <==> x in d.table && Selects(d.query.where_, x)
  {
    RowsOrdered(d, None);
    if d.Rows(None) == [] {
      assert Completes(d.Rows, 0, limit);
    } else if limit > 0 && d.SomeUnpinned() {
      CompiledContinues(d);
      ReadsPrefix(d.Rows, |d.Rows(None)|, limit);
      assert Completes(d.Rows, |d.Rows(None)|, limit);
    } else {
      forall n: nat
        ensures !Completes(d.Rows, n, limit)
      {
        NeverCompletes(d, n, limit);
      }
    }
  }

  lemma NeverCompletes(d: Paging, n: nat, limit: nat)
    requires d.Valid() && d.Rows(None) != [] && !(limit > 0 && d.SomeUnpinned())
    ensures !Completes(d.Rows, n, limit)
  {
    if limit == 0 {
      ReadNothing(d.Rows, n);
    } else {
      forall after
        ensures d.Rows(after) == d.Rows(None)
      {
        PinnedIgnoresCursor(d, after);
      }
      PagesRepeat(d.Rows, n, limit);
    }
  }
}
