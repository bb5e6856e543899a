/** memdb relationship queries and reading them page by page
    (internal/datastore/memdb/readonly.go:108-166,360-389,497-594). */
module Pagination {
  import opened Wrappers
  import opened Strings
  import opened SqlClauses
  import opened QueryFilterer
  import opened MemdbFilter
  import opened Keyset

  /** The elements that satisfy p, in order. */
  function Select<T>(s: seq<T>, p: T -> bool): seq<T> {
    if s == [] then []
    else Select(s[..|s| - 1], p) + (if p(s[|s| - 1]) then [s[|s| - 1]] else [])
  }

  function Take<T>(s: seq<T>, limit: Option<nat>): seq<T> {
    if limit.Some? && limit.value < |s| then s[..limit.value] else s
  }

  /** `a` sorts strictly before `b`. */
  predicate Before(order: SortOrder, a: Row, b: Row) {
    DefaultValues(order, a.key);
    IsAfter(a.key, DefaultColumns(order), b.key)
  }

  /** Strictly increasing in the sort order; in resource order this is how every memdb
      relationship index iterates. */
  ghost predicate Ordered(order: SortOrder, rows: seq<Row>) {
    forall i, j :: 0 <= i < j < |rows| ==> Before(order, rows[i], rows[j])
  }

  lemma BeforeTotal(order: SortOrder, a: Row, b: Row)
    ensures !(Before(order, a, b) && Before(order, b, a))
    ensures Before(order, a, b) || a.key == b.key || Before(order, b, a)
    ensures a.key == b.key ==> !Before(order, a, b)
  {
    DefaultValues(order, a.key);
    var x, y := CursorValues(a.key, DefaultColumns(order)), CursorValues(b.key, DefaultColumns(order));
    KeyLessTotal(x, y);
    if x == y {
      DefaultValuesInjective(order, a.key, b.key);
    }
  }

  lemma BeforeTransitive(order: SortOrder, a: Row, b: Row, c: Row)
    requires Before(order, a, b) && Before(order, b, c)
    ensures Before(order, a, c)
  {
    DefaultValues(order, a.key);
    var cs := DefaultColumns(order);
    KeyLessTransitive(CursorValues(a.key, cs), CursorValues(b.key, cs), CursorValues(c.key, cs));
  }

  // ---- The query ----

  /** One query against one snapshot with a fixed clock; `table` is the relationship table in
      primary-index order. */
  datatype Request = Request(
    table: seq<Row>, filter: RelationshipsFilter, order: SortOrder,
    now: int, skipCaveats: bool, skipExpiration: bool)
  {
    /** The rows iteratorForFilter visits: the index on the resource type, on type and relation,
        or the whole table. */
    predicate InIndex(row: Row) {
      (filter.resourceType != "" ==> row.key.resourceType == filter.resourceType) &&
      (filter.resourceType != "" && filter.resourceRelation != "" ==>
         row.key.resourceRelation == filter.resourceRelation)
    }

    predicate Keeps(after: Option<RelationshipKey>, row: Row) {
      !Drops(filter, row) && !CursorDrops(after, order, row.key)
    }

    predicate Visible(row: Row) {
      && !(row.expiration.Some? && row.expiration.value < now)
      && !(skipCaveats && row.caveat.Some?)
      && !(skipExpiration && row.expiration.Some?)
    }

    /** The rows the query returns when it is not limited. */
    function Returned(after: Option<RelationshipKey>): Row -> bool {
      row => Keeps(after, row) && Visible(row)
    }

    /** What the filtered iterator yields. */
    function Filtered(after: Option<RelationshipKey>): seq<Row> {
      Select(Select(table, r => InIndex(r)), r => Keeps(after, r))
    }

    function Unlimited(after: Option<RelationshipKey>): seq<Row> {
      var rows := Select(Filtered(after), r => Visible(r));
      if order == BySubject then SortedBySubject(rows) else rows
    }

    function Page(after: Option<RelationshipKey>, limit: Option<nat>): seq<Row> {
      Take(Unlimited(after), limit)
    }

    ghost predicate Valid() {
      Ordered(ByResource, table)
    }
  }

  /** The comparison newSubjectSortedIterator sorts with. */
  predicate SubjectLess(a: Row, b: Row) {
    LessSubject(a.key, b.key) || (EqSubject(a.key, b.key) && LessResource(a.key, b.key))
  }

  function InsertBySubject(row: Row, sorted: seq<Row>): seq<Row> {
    if sorted == [] then [row]
    else if SubjectLess(row, sorted[|sorted| - 1]) then
      InsertBySubject(row, sorted[..|sorted| - 1]) + [sorted[|sorted| - 1]]
    else sorted + [row]
  }

  /** sort.Slice with SubjectLess; SortIsUnique shows that the algorithm does not matter. */
  function SortedBySubject(rows: seq<Row>): seq<Row> {
    if rows == [] then [] else InsertBySubject(rows[|rows| - 1], SortedBySubject(rows[..|rows| - 1]))
  }

  datatype QueryError = CursorsWithoutSorting

  /** newMemdbTupleIterator, drained. */
  method TupleIterator(r: Request, it: seq<Row>, limit: Option<nat>) returns (out: seq<Row>)
    ensures out == Take(Select(it, row => r.Visible(row)), limit)
  {
    out := [];
    var i, count := 0, 0;
    while i < |it|
      invariant 0 <= i <= |it| && count == |out|
      invariant out == Select(it[..i], row => r.Visible(row))
      invariant limit.Some? ==> |out| <= limit.value
    {
      var found := it[i];
      i := i + 1;
      assert it[..i][..i - 1] == it[..i - 1];
      if limit.Some? && count >= limit.value {
        SelectPrefix(it, i - 1, row => r.Visible(row));
        return;
      }
      if r.skipCaveats && found.caveat.Some? {
        continue;
      }
      if r.skipExpiration && found.expiration.Some? {
        continue;
      }
      if found.expiration.Some? && found.expiration.value < r.now {
        continue;
      }
      out := out + [found];
      count := count + 1;
    }
    assert it[..|it|] == it;
  }

  /** newSubjectSortedIterator. */
  method SubjectSortedIterator(r: Request, it: seq<Row>, limit: Option<nat>) returns (out: seq<Row>)
    ensures out == Take(SortedBySubject(Select(it, row => r.Visible(row))), limit)
  {
    var results: seq<Row> := [];
    for i := 0 to |it|
      invariant results == Select(it[..i], row => r.Visible(row))
    {
      assert it[..i + 1][..i] == it[..i];
      if it[i].expiration.Some? && it[i].expiration.value < r.now {
        continue;
      }
      if r.skipCaveats && it[i].caveat.Some? {
        continue;
      }
      if r.skipExpiration && it[i].expiration.Some? {
        continue;
      }
      results := results + [it[i]];
    }
    assert it[..|it|] == it;
    results := SortedBySubject(results);
    if limit.Some? && |results| > limit.value {
      results := results[0..limit.value];
    }
    return results;
  }

  method QueryRelationships(r: Request, after: Option<RelationshipKey>, limit: Option<nat>)
    returns (out: Result<seq<Row>, QueryError>)
    ensures out == if after.Some? && r.order == Unsorted then Err(CursorsWithoutSorting) else Ok(r.Page(after, limit))
  {
    if after.Some? && r.order == Unsorted {
      return Err(CursorsWithoutSorting);
    }
    var rows: seq<Row>;
    if r.order == BySubject {
      rows := SubjectSortedIterator(r, r.Filtered(after), limit);
    } else {
      rows := TupleIterator(r, r.Filtered(after), limit);
    }
    return Ok(rows);
  }

  // ---- Selecting and sorting ----

  lemma {:induction false} SelectPrefix<T>(s: seq<T>, n: nat, p: T -> bool)
    requires n <= |s|
    ensures Select(s[..n], p) <= Select(s, p)
  {
    if n < |s| {
      SelectPrefix(s[..|s| - 1], n, p);
      assert s[..|s| - 1][..n] == s[..n];
    } else {
      assert s[..n] == s;
    }
  }

  lemma {:induction false} SelectMembers<T>(s: seq<T>, p: T -> bool)
    ensures forall x :: x in Select(s, p) <==> x in s && p(x)
  {
    if s != [] {
      SelectMembers(s[..|s| - 1], p);
      assert s == s[..|s| - 1] + [s[|s| - 1]];
    }
  }

  lemma {:induction false} SelectTwice<T>(s: seq<T>, p: T -> bool, q: T -> bool, both: T -> bool)
    requires forall x :: both(x) <==> p(x) && q(x)
    ensures Select(Select(s, p), q) == Select(s, both)
  {
    if s != [] {
      var front, last := s[..|s| - 1], s[|s| - 1];
      SelectTwice(front, p, q, both);
      var kept := Select(front, p);
      assert Select(s, p) == if p(last) then kept + [last] else kept;
      if p(last) {
        assert (kept + [last])[..|kept|] == kept;
        assert Select(kept + [last], q) == Select(kept, q) + (if q(last) then [last] else []);
      }
    }
  }

  lemma {:induction false} SelectOrdered(order: SortOrder, rows: seq<Row>, p: Row -> bool)
    requires Ordered(order, rows)
    ensures Ordered(order, Select(rows, p))
  {
    if rows != [] {
      var front, last := rows[..|rows| - 1], rows[|rows| - 1];
      SelectOrdered(order, front, p);
      SelectMembers(front, p);
      forall i | 0 <= i < |Select(front, p)|
        ensures Before(order, Select(front, p)[i], last)
      {
        assert Select(front, p)[i] in front;
      }
    }
  }

  ghost predicate DistinctKeys(rows: seq<Row>) {
    forall i, j :: 0 <= i < j < |rows| ==> rows[i].key != rows[j].key
  }

  lemma OrderedDistinct(order: SortOrder, rows: seq<Row>)
    requires Ordered(order, rows)
    ensures DistinctKeys(rows)
  {
    forall i, j | 0 <= i < j < |rows|
      ensures rows[i].key != rows[j].key
    {
      BeforeTotal(order, rows[i], rows[j]);
    }
  }

  lemma SubjectLessIsBefore(a: Row, b: Row)
    ensures SubjectLess(a, b) <==> Before(BySubject, a, b)
  {
    DefaultValues(BySubject, a.key);
    DefaultValues(BySubject, b.key);
    KeyLessSix(CursorValues(a.key, DEFAULT_SUBJECT_ORDER), CursorValues(b.key, DEFAULT_SUBJECT_ORDER));
  }

  lemma {:induction false} InsertMembers(row: Row, sorted: seq<Row>)
    ensures multiset(InsertBySubject(row, sorted)) == multiset(sorted) + multiset{row}
    ensures forall x :: x in InsertBySubject(row, sorted) <==> x in sorted || x == row
  {
    if sorted != [] {
      var front, last := sorted[..|sorted| - 1], sorted[|sorted| - 1];
      assert sorted == front + [last];
      InsertMembers(row, front);
    }
  }

  lemma OrderedSnoc(order: SortOrder, rows: seq<Row>, last: Row)
    requires Ordered(order, rows) && forall x :: x in rows ==> Before(order, x, last)
    ensures Ordered(order, rows + [last])
  {
    assert forall i :: 0 <= i < |rows| ==> rows[i] in rows;
  }

  lemma {:induction false} InsertSorts(row: Row, sorted: seq<Row>)
    requires Ordered(BySubject, sorted)
    requires forall i :: 0 <= i < |sorted| ==> sorted[i].key != row.key
    ensures Ordered(BySubject, InsertBySubject(row, sorted))
  {
    if sorted != [] {
      var front, last := sorted[..|sorted| - 1], sorted[|sorted| - 1];
      SubjectLessIsBefore(row, last);
      BeforeTotal(BySubject, row, last);
      assert forall x :: x in front ==> Before(BySubject, x, last);
      if SubjectLess(row, last) {
        InsertSorts(row, front);
        InsertMembers(row, front);
        OrderedSnoc(BySubject, InsertBySubject(row, front), last);
      } else {
        forall x | x in sorted
          ensures Before(BySubject, x, row)
        {
          if x != last {
            assert sorted == front + [last];
            BeforeTransitive(BySubject, x, last, row);
          }
        }
        OrderedSnoc(BySubject, sorted, row);
      }
    }
  }

  ghost predicate SameMembers(a: seq<Row>, b: seq<Row>) {
    forall x :: x in a <==> x in b
  }

  lemma {:induction false} SortMembers(rows: seq<Row>)
    ensures multiset(SortedBySubject(rows)) == multiset(rows) && SameMembers(SortedBySubject(rows), rows)
  {
    if rows != [] {
      var front, last := rows[..|rows| - 1], rows[|rows| - 1];
      SortMembers(front);
      InsertMembers(last, SortedBySubject(front));
      assert rows == front + [last];
    }
  }

  lemma {:induction false} SortSorts(rows: seq<Row>)
    requires DistinctKeys(rows)
    ensures Ordered(BySubject, SortedBySubject(rows))
    ensures multiset(SortedBySubject(rows)) == multiset(rows) && SameMembers(SortedBySubject(rows), rows)
  {
    SortMembers(rows);
    if rows != [] {
      var front, last := rows[..|rows| - 1], rows[|rows| - 1];
      SortSorts(front);
      var sorted := SortedBySubject(front);
      forall i | 0 <= i < |sorted|
        ensures sorted[i].key != last.key
      {
        assert sorted[i] in front;
      }
      InsertSorts(last, sorted);
    }
  }

  lemma EmptyTogether(a: seq<Row>, b: seq<Row>)
    requires SameMembers(a, b)
    ensures a == [] <==> b == []
  {
    assert a != [] ==> a[0] in b;
    assert b != [] ==> b[0] in a;
  }

  lemma SameLast(order: SortOrder, a: seq<Row>, b: seq<Row>)
    requires Ordered(order, a) && Ordered(order, b) && SameMembers(a, b) && a != [] && b != []
    ensures a[|a| - 1] == b[|b| - 1]
  {
    var x, y := a[|a| - 1], b[|b| - 1];
    assert x in b && y in a;
    var i :| 0 <= i < |a| && a[i] == y;
    var j :| 0 <= j < |b| && b[j] == x;
    if i < |a| - 1 && j < |b| - 1 {
      BeforeTotal(order, x, y);
    }
  }

  lemma FrontMembers(order: SortOrder, a: seq<Row>, x: Row)
    requires Ordered(order, a) && a != []
    ensures x in a[..|a| - 1] <==> x in a && x != a[|a| - 1]
  {
    OrderedDistinct(order, a);
    assert a == a[..|a| - 1] + [a[|a| - 1]];
  }

  /** Two strictly ordered lists of the same rows are the same list, so any correct sorting
      routine gives SortedBySubject. */
  lemma {:induction false} SortIsUnique(order: SortOrder, a: seq<Row>, b: seq<Row>)
    requires Ordered(order, a) && Ordered(order, b) && SameMembers(a, b)
    ensures a == b
  {
    EmptyTogether(a, b);
    if a != [] {
      SameLast(order, a, b);
      var frontA, frontB := a[..|a| - 1], b[..|b| - 1];
      forall x
        ensures x in frontA <==> x in frontB
      {
        FrontMembers(order, a, x);
        FrontMembers(order, b, x);
      }
      SortIsUnique(order, frontA, frontB);
      assert a == frontA + [a[|a| - 1]] && b == frontB + [b[|b| - 1]];
    }
  }

  // ---- Pages ----

  /** The index only saves work: reading through it yields the rows of the whole table that pass
      the filter and the cursor. */
  lemma IndexLosesNothing(r: Request, after: Option<RelationshipKey>)
    ensures r.Filtered(after) == Select(r.table, row => r.Keeps(after, row))
  {
    SelectTwice(r.table, row => r.InIndex(row), row => r.Keeps(after, row), row => r.Keeps(after, row));
  }

  lemma UnlimitedRows(r: Request, after: Option<RelationshipKey>)
    requires r.Valid()
    ensures Ordered(if r.order == BySubject then BySubject else ByResource, r.Unlimited(after))
    ensures SameMembers(r.Unlimited(after), Select(r.table, r.Returned(after)))
    ensures forall x :: x in r.Unlimited(after) <==> x in r.table && r.Keeps(after, x) && r.Visible(x)
  {
    IndexLosesNothing(r, after);
    SelectTwice(r.table, row => r.Keeps(after, row), row => r.Visible(row), r.Returned(after));
    var rows := Select(r.table, r.Returned(after));
    SelectOrdered(ByResource, r.table, r.Returned(after));
    SelectMembers(r.table, r.Returned(after));
    OrderedDistinct(ByResource, rows);
    if r.order == BySubject {
      SortSorts(rows);
    }
  }

  lemma UnlimitedOrdered(r: Request, after: Option<RelationshipKey>)
    requires r.Valid()
    ensures Ordered(r.order, r.Unlimited(after))
  {
    UnlimitedRows(r, after);
    assert forall a, b :: r.order != BySubject ==> (Before(ByResource, a, b) <==> Before(r.order, a, b));
  }

  lemma {:induction false} SelectSuffix(rows: seq<Row>, m: nat, p: Row -> bool)
    requires m <= |rows|
    requires forall i :: 0 <= i < m ==> !p(rows[i])
    requires forall i :: m <= i < |rows| ==> p(rows[i])
    ensures Select(rows, p) == rows[m..]
  {
    if |rows| > m {
      SelectSuffix(rows[..|rows| - 1], m, p);
      assert rows[m..] == rows[..|rows| - 1][m..] + [rows[|rows| - 1]];
    } else if m > 0 {
      SelectSuffix(rows[..m - 1], m - 1, p);
    }
  }

  function Later(order: SortOrder, cursor: Row): Row -> bool {
    row => Before(order, cursor, row)
  }

  /** A later cursor only drops more: what it leaves is what it keeps of an earlier result. */
  lemma CursorNarrows(r: Request, after: Option<RelationshipKey>, cursor: Row)
    requires r.Valid() && r.order != Unsorted
    requires cursor in r.Unlimited(after)
    ensures r.Unlimited(Some(cursor.key)) == Select(r.Unlimited(after), Later(r.order, cursor))
  {
    var old_, new_ := r.Unlimited(after), r.Unlimited(Some(cursor.key));
    var narrowed := Select(old_, Later(r.order, cursor));
    UnlimitedRows(r, after);
    UnlimitedRows(r, Some(cursor.key));
    SelectMembers(old_, Later(r.order, cursor));
    forall x
      ensures x in new_ <==> x in narrowed
    {
      KeepsAfter(r, after, cursor, x);
    }
    UnlimitedOrdered(r, after);
    UnlimitedOrdered(r, Some(cursor.key));
    SelectOrdered(r.order, old_, Later(r.order, cursor));
    SortIsUnique(r.order, new_, narrowed);
  }

  lemma KeepsAfter(r: Request, after: Option<RelationshipKey>, cursor: Row, row: Row)
    requires r.order != Unsorted && r.Keeps(after, cursor)
    ensures r.Keeps(Some(cursor.key), row) <==> r.Keeps(after, row) && Before(r.order, cursor, row)
  {
    MemdbCursorExact(cursor.key, r.order, row.key);
    if after.Some? {
      MemdbCursorExact(after.value, r.order, row.key);
      MemdbCursorExact(after.value, r.order, cursor.key);
      var start := cursor.(key := after.value);
      assert Before(r.order, start, cursor);
      if Before(r.order, cursor, row) {
        BeforeTransitive(r.order, start, cursor, row);
      }
    }
  }

  lemma LaterAt(order: SortOrder, rows: seq<Row>, m: nat, i: nat)
    requires Ordered(order, rows) && 0 < m <= |rows| && i < |rows|
    ensures Later(order, rows[m - 1])(rows[i]) <==> i >= m
  {
    BeforeTotal(order, rows[m - 1], rows[i]);
    if i < m - 1 {
      assert Before(order, rows[i], rows[m - 1]);
    } else if i >= m {
      assert Before(order, rows[m - 1], rows[i]);
    }
  }

  /** The rows after the one at m - 1 are those from m on. */
  lemma LaterRows(order: SortOrder, rows: seq<Row>, m: nat)
    requires Ordered(order, rows) && 0 < m <= |rows|
    ensures Select(rows, Later(order, rows[m - 1])) == rows[m..]
  {
    forall i | 0 <= i < |rows|
      ensures Later(order, rows[m - 1])(rows[i]) <==> i >= m
    {
      LaterAt(order, rows, m, i);
    }
    SelectSuffix(rows, m, Later(order, rows[m - 1]));
  }

  /** Using the last row of a page as the cursor continues right after that page. */
  lemma NextPage(r: Request, after: Option<RelationshipKey>, m: nat)
    requires r.Valid() && r.order != Unsorted
    requires 0 < m <= |r.Unlimited(after)|
    ensures r.Unlimited(Some(r.Unlimited(after)[m - 1].key)) == r.Unlimited(after)[m..]
  {
    var rows := r.Unlimited(after);
    var cursor := rows[m - 1];
    CursorNarrows(r, after, cursor);
    UnlimitedOrdered(r, after);
    LaterRows(r.order, rows, m);
  }

  /** Reading on until an empty page comes back, each time after the last row seen. */
  ghost function Pages(r: Request, after: Option<RelationshipKey>, limit: nat): seq<seq<Row>>
    requires r.Valid() && r.order != Unsorted
    decreases |r.Unlimited(after)|
  {
    var page := r.Page(after, Some(limit));
    if page == [] then []
    else
      NextPage(r, after, |page|);
      [page] + Pages(r, Some(page[|page| - 1].key), limit)
  }

  ghost function Concat(pages: seq<seq<Row>>): seq<Row> {
    if pages == [] then [] else pages[0] + Concat(pages[1..])
  }

  /** One page, and where the next one starts. */
  lemma PageStep(r: Request, after: Option<RelationshipKey>, limit: nat)
    requires r.Valid() && r.order != Unsorted && r.Page(after, Some(limit)) != []
    ensures
      var page := r.Page(after, Some(limit));
      var next := Some(page[|page| - 1].key);
      && Pages(r, after, limit) == [page] + Pages(r, next, limit)
      && r.Unlimited(after) == page + r.Unlimited(next) && |r.Unlimited(next)| < |r.Unlimited(after)|
  {
    var rows, page := r.Unlimited(after), r.Page(after, Some(limit));
    TakeSplits(rows, limit);
    NextPage(r, after, |page|);
  }

  lemma TakeSplits<T>(s: seq<T>, limit: nat)
    ensures
      var t := Take(s, Some(limit));
      |t| <= |s| && t == s[..|t|] && s == t + s[|t|..]
  {
  }

  lemma {:induction false} PagesAreUnlimited(r: Request, after: Option<RelationshipKey>, limit: nat)
    requires r.Valid() && r.order != Unsorted
    ensures Concat(Pages(r, after, limit)) == if limit > 0 then r.Unlimited(after) else []
    decreases |r.Unlimited(after)|
  {
    var page := r.Page(after, Some(limit));
    if page != [] {
      PageStep(r, after, limit);
      var next := Some(page[|page| - 1].key);
      PagesAreUnlimited(r, next, limit);
      ConcatFirst(page, Pages(r, next, limit));
    } else {
      assert Pages(r, after, limit) == [];
    }
  }

  lemma ConcatFirst(page: seq<Row>, rest: seq<seq<Row>>)
    ensures Concat([page] + rest) == page + Concat(rest)
  {
    assert ([page] + rest)[1..] == rest;
  }

  /** What a query asks of a row: every field of the filter, a place strictly after the cursor, an
      expiration that has not passed, and no caveat or expiration at all if those are skipped. */
  predicate Asked(r: Request, after: Option<RelationshipKey>, row: Row) {
    && FilterMatches(r.filter, row)
    && (after.Some? && r.order != Unsorted ==> Before(r.order, row.(key := after.value), row))
    && (row.expiration.Some? ==> row.expiration.value >= r.now)
    && (r.skipCaveats ==> row.caveat.None?)
    && (r.skipExpiration ==> row.expiration.None?)
  }

  lemma AskedMeaning(r: Request, after: Option<RelationshipKey>, row: Row)
    ensures r.Keeps(after, row) && r.Visible(row) <==> Asked(r, after, row)
  {
    InterpreterAgrees(r.filter, row);
    if after.Some? && r.order != Unsorted {
      MemdbCursorExact(after.value, r.order, row.key);
    }
  }

  /** The page of a request: the rows asked for, strictly ordered, cut after the first `limit`. */
  lemma PageMeaning(r: Request, after: Option<RelationshipKey>, limit: Option<nat>)
    requires r.Valid()
    ensures
      var all, page := r.Page(after, None), r.Page(after, limit);
      && Ordered(if r.order == BySubject then BySubject else ByResource, all)
      && (forall row :: row in all <==> row in r.table && Asked(r, after, row))
      && page == (if limit.Some? && limit.value < |all| then all[..limit.value] else all)
  {
    UnlimitedRows(r, after);
    forall row
      ensures r.Keeps(after, row) && r.Visible(row) <==> Asked(r, after, row)
    {
      AskedMeaning(r, after, row);
    }
  }

  /** Pagination is complete and duplicate-free: the pages concatenate to the whole filtered,
      sorted result exactly when the limit is positive or there is nothing to return, for every
      sort order that allows cursors. */
  lemma PagesConcatenate(r: Request, after: Option<RelationshipKey>, limit: nat)
    requires r.Valid() && r.order != Unsorted
    ensures Concat(Pages(r, after, limit)) == r.Page(after, None) <==> limit > 0 || r.Page(after, None) == []
    ensures Ordered(r.order, r.Page(after, None))
    ensures forall x :: x in r.Page(after, None) <==> x in r.table && Asked(r, after, x)
  {
    PagesAreUnlimited(r, after, limit);
    PageMeaning(r, after, None);
    UnlimitedOrdered(r, after);
  }
}
