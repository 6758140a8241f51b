/** Keyset pagination (app/core/pagination.py): the condition that seeks past a cursor, the split of a fetched page, and
    walks that follow `next_cursor` while the table changes. */
module Pagination {
  import opened Common

  /** A row as far as the ordering sees it: its sort value and its id. */
  datatype Row<V> = Row(value: V, id: int)

  /** A decoded cursor: the sort value and id of the last row returned. */
  datatype Cursor<V> = Cursor(value: V, id: int)

  ghost predicate StrictTotalOrder<V(!new)>(less: (V, V) -> bool) {
    && (forall a :: !less(a, a))
    && (forall a, b, c :: less(a, b) && less(b, c) ==> less(a, c))
    && (forall a, b :: a == b || less(a, b) || less(b, a))
  }

  /** `keyset_condition`: the rows strictly after the cursor. */
  predicate KeysetCondition<V(==)>(less: (V, V) -> bool, cursor: Cursor<V>, row: Row<V>, descending: bool) {
    if descending then less(row.value, cursor.value) || (row.value == cursor.value && row.id < cursor.id)
    else less(cursor.value, row.value) || (row.value == cursor.value && row.id > cursor.id)
  }

  /** ORDER BY sort key, id, with both in the same direction. */
  predicate Before<V(==)>(less: (V, V) -> bool, a: Row<V>, b: Row<V>, descending: bool) {
    var (x, y) := if descending then (b, a) else (a, b);
    less(x.value, y.value) || (x.value == y.value && x.id < y.id)
  }

  predicate Seeks<V(==)>(less: (V, V) -> bool, after: Option<Cursor<V>>, row: Row<V>, descending: bool) {
    after.None? || KeysetCondition(less, after.value, row, descending)
  }

  ghost predicate Sorted<V>(less: (V, V) -> bool, rows: seq<Row<V>>, descending: bool) {
    forall i, j :: 0 <= i < j < |rows| ==> Before(less, rows[i], rows[j], descending)
  }

  /** SELECT ... WHERE keyset ORDER BY ... LIMIT: the first `limit` matching rows of the table, in order. */
  ghost predicate IsFetch<V>(less: (V, V) -> bool, table: set<Row<V>>, after: Option<Cursor<V>>, descending: bool,
                             limit: nat, rows: seq<Row<V>>) {
    && Sorted(less, rows, descending) && |rows| <= limit
    && (forall r :: r in rows ==> r in table && Seeks(less, after, r, descending))
    && (forall r :: r in table && Seeks(less, after, r, descending) && r !in rows ==>
          |rows| == limit && forall x :: x in rows ==> Before(less, x, r, descending))
  }

  /** `cursor_page`: the rows fetched with LIMIT size + 1 split into the page and the position of the next one. */
  function CursorPage<V>(rows: seq<Row<V>>, size: nat): (r: (seq<Row<V>>, Option<Cursor<V>>))
    requires size >= 1
    ensures |r.0| <= size && r.0 <= rows
    ensures r.1.None? <==> r.0 == rows
    ensures r.1.Some? ==> |r.0| == size && r.1.value == Cursor(r.0[size - 1].value, r.0[size - 1].id)
  {
    if |rows| <= size then (rows, None)
    else
      var last := rows[size - 1];
      (rows[..size], Some(Cursor(last.value, last.id)))
  }

  // ----- Walks -----

  /** One request of a walk: the table at that moment and the rows fetched from it. */
  datatype Fetch<V(==)> = Fetch(table: set<Row<V>>, rows: seq<Row<V>>)

  /** Each request uses the `next_cursor` of the one before; `complete` when the last one returned null. */
  ghost predicate Walk<V>(less: (V, V) -> bool, after: Option<Cursor<V>>, descending: bool, size: nat,
                          steps: seq<Fetch<V>>, complete: bool)
    requires size >= 1
    decreases |steps|
  {
    |steps| > 0 && IsFetch(less, steps[0].table, after, descending, size + 1, steps[0].rows) &&
    var next := CursorPage(steps[0].rows, size).1;
    if |steps| == 1 then complete ==> next.None?
    else next.Some? && Walk(less, next, descending, size, steps[1..], complete)
  }

  /** Everything the walk returned, page after page. */
  function Listed<V(==)>(steps: seq<Fetch<V>>, size: nat): seq<Row<V>>
    requires size >= 1
  {
    if steps == [] then [] else CursorPage(steps[0].rows, size).0 + Listed(steps[1..], size)
  }

  // ----- The keyset condition and the ordering -----

  lemma KeysetIsBefore<V>(less: (V, V) -> bool, a: Row<V>, b: Row<V>, descending: bool)
    ensures KeysetCondition(less, Cursor(a.value, a.id), b, descending) <==> Before(less, a, b, descending)
  {
  }

  lemma BeforeIsStrictTotal<V(!new)>(less: (V, V) -> bool, a: Row<V>, b: Row<V>, c: Row<V>, descending: bool)
    requires StrictTotalOrder(less)
    ensures !Before(less, a, a, descending)
    ensures Before(less, a, b, descending) && Before(less, b, c, descending) ==> Before(less, a, c, descending)
    ensures a == b || Before(less, a, b, descending) || Before(less, b, a, descending)
    ensures !(Before(less, a, b, descending) && Before(less, b, a, descending))
  {
  }

  lemma SortedConcat<V>(less: (V, V) -> bool, a: seq<Row<V>>, b: seq<Row<V>>, descending: bool)
    requires Sorted(less, a, descending) && Sorted(less, b, descending)
    requires forall x, y :: x in a && y in b ==> Before(less, x, y, descending)
    ensures Sorted(less, a + b, descending)
  {
    var s := a + b;
    forall i, j | 0 <= i < j < |s| ensures Before(less, s[i], s[j], descending) {
      if i < |a| <= j {
        assert s[i] in a && s[j] in b;
      }
    }
  }

  /** The first page of a walk: everything on it precedes everything the next cursor seeks. */
  lemma PagePrecedesRest<V(!new)>(less: (V, V) -> bool, f: Fetch<V>, after: Option<Cursor<V>>, descending: bool,
                                  size: nat, r: Row<V>)
    requires StrictTotalOrder(less) && size >= 1
    requires IsFetch(less, f.table, after, descending, size + 1, f.rows) && CursorPage(f.rows, size).1.Some?
    requires Seeks(less, CursorPage(f.rows, size).1, r, descending)
    ensures forall x :: x in CursorPage(f.rows, size).0 ==> Before(less, x, r, descending)
    ensures Seeks(less, after, r, descending)
  {
    var page := f.rows[..size];
    var last := page[size - 1];
    KeysetIsBefore(less, last, r, descending);
    forall x | x in page ensures Before(less, x, r, descending) {
      var i :| 0 <= i < size && page[i] == x;
      BeforeIsStrictTotal(less, x, last, r, descending);
    }
    assert last in f.rows;
    if after.Some? {
      var c := Row(after.value.value, after.value.id);
      KeysetIsBefore(less, c, last, descending);
      KeysetIsBefore(less, c, r, descending);
      BeforeIsStrictTotal(less, c, last, r, descending);
    }
  }

  /** A row of the table that the walk still seeks is on the page or still sought by the next cursor. */
  lemma PageOrRest<V(!new)>(less: (V, V) -> bool, f: Fetch<V>, after: Option<Cursor<V>>, descending: bool, size: nat,
                            r: Row<V>)
    requires StrictTotalOrder(less) && size >= 1
    requires IsFetch(less, f.table, after, descending, size + 1, f.rows)
    requires r in f.table && Seeks(less, after, r, descending)
    ensures var (page, next) := CursorPage(f.rows, size);
            r in page || (next.Some? && Seeks(less, next, r, descending))
  {
    var (page, next) := CursorPage(f.rows, size);
    if next.Some? && r !in page {
      var last := page[size - 1];
      assert f.rows[size - 1] in f.rows;
      if r in f.rows {
        assert f.rows == page + f.rows[size..];
        var i :| 0 <= i < |f.rows[size..]| && f.rows[size..][i] == r;
        assert f.rows[size + i] == r;
      }
      assert Before(less, last, r, descending);
      KeysetIsBefore(less, last, r, descending);
    }
  }

  lemma {:induction false} WalkLists<V(!new)>(less: (V, V) -> bool, after: Option<Cursor<V>>, descending: bool,
                                              size: nat, steps: seq<Fetch<V>>, complete: bool)
    requires StrictTotalOrder(less) && size >= 1 && Walk(less, after, descending, size, steps, complete)
    ensures Sorted(less, Listed(steps, size), descending)
    ensures forall r :: r in Listed(steps, size) ==>
        Seeks(less, after, r, descending) && exists k :: 0 <= k < |steps| && r in steps[k].table
    ensures complete ==>
        forall r :: Seeks(less, after, r, descending) && (forall k :: 0 <= k < |steps| ==> r in steps[k].table) ==>
                           r in Listed(steps, size)
    decreases |steps|
  {
    var f := steps[0];
    var (page, next) := CursorPage(f.rows, size);
    var rest := Listed(steps[1..], size);
    assert forall r :: r in page ==> r in f.rows;
    if |steps| > 1 {
      WalkLists(less, next, descending, size, steps[1..], complete);
      forall x, y | x in page && y in rest ensures Before(less, x, y, descending) {
        PagePrecedesRest(less, f, after, descending, size, y);
      }
      SortedConcat(less, page, rest, descending);
      forall r | r in rest
        ensures Seeks(less, after, r, descending) && exists k :: 0 <= k < |steps| && r in steps[k].table
      {
        PagePrecedesRest(less, f, after, descending, size, r);
        var k :| 0 <= k < |steps[1..]| && r in steps[1..][k].table;
        assert r in steps[k + 1].table;
      }
    }
    if complete {
      forall r | Seeks(less, after, r, descending) && (forall k :: 0 <= k < |steps| ==> r in steps[k].table)
        ensures r in Listed(steps, size)
      {
        PageOrRest(less, f, after, descending, size, r);
        if r !in page {
          assert forall k :: 0 <= k < |steps[1..]| ==> steps[1..][k] == steps[k + 1];
        }
      }
    }
  }

  /** However the table changes between the requests, a complete walk lists rows in strict order, hence without
      duplicates, only rows that were in the table when listed, and every row that stayed there throughout. */
  lemma WalkIsStable<V(!new)>(less: (V, V) -> bool, descending: bool, size: nat, steps: seq<Fetch<V>>)
    requires StrictTotalOrder(less) && size >= 1 && Walk(less, None, descending, size, steps, true)
    ensures Sorted(less, Listed(steps, size), descending)
    ensures forall i, j :: 0 <= i < j < |Listed(steps, size)| ==> Listed(steps, size)[i] != Listed(steps, size)[j]
    ensures forall r :: r in Listed(steps, size) ==> exists k :: 0 <= k < |steps| && r in steps[k].table
    ensures forall r :: (forall k :: 0 <= k < |steps| ==> r in steps[k].table) ==> r in Listed(steps, size)
  {
    WalkLists(less, None, descending, size, steps, true);
    forall i, j | 0 <= i < j < |Listed(steps, size)| ensures Listed(steps, size)[i] != Listed(steps, size)[j] {
      BeforeIsStrictTotal(less, Listed(steps, size)[i], Listed(steps, size)[j], Listed(steps, size)[j], descending);
    }
  }

  // ----- A table that does not change -----

  lemma {:induction false} LeastRow<V(!new)>(less: (V, V) -> bool, s: set<Row<V>>, descending: bool) returns (m: Row<V>)
    requires StrictTotalOrder(less) && s != {}
    ensures m in s && forall r :: r in s && r != m ==> Before(less, m, r, descending)
    decreases |s|
  {
    var x :| x in s;
    m := x;
    if s != {x} {
      var rest := s - {x};
      assert s == {x} + rest;
      var l := LeastRow(less, rest, descending);
      BeforeIsStrictTotal(less, x, l, l, descending);
      m := if Before(less, x, l, descending) then x else l;
      forall r | r in s && r != m ensures Before(less, m, r, descending) {
        BeforeIsStrictTotal(less, x, l, r, descending);
      }
    }
  }

  /** The first `limit` rows of a set, in order. */
  lemma {:induction false} FirstRows<V(!new)>(less: (V, V) -> bool, s: set<Row<V>>, descending: bool, limit: nat)
    returns (rows: seq<Row<V>>)
    requires StrictTotalOrder(less)
    ensures Sorted(less, rows, descending) && |rows| <= limit && forall r :: r in rows ==> r in s
    ensures forall r :: r in s && r !in rows ==>
        |rows| == limit && forall x :: x in rows ==> Before(less, x, r, descending)
    decreases limit
  {
    rows := [];
    if limit > 0 && s != {} {
      var m := LeastRow(less, s, descending);
      var rest := FirstRows(less, s - {m}, descending, limit - 1);
      rows := [m] + rest;
      SortedConcat(less, [m], rest, descending);
    }
  }

  lemma FetchExists<V(!new)>(less: (V, V) -> bool, table: set<Row<V>>, after: Option<Cursor<V>>, descending: bool,
                             limit: nat)
    returns (rows: seq<Row<V>>)
    requires StrictTotalOrder(less)
    ensures IsFetch(less, table, after, descending, limit, rows)
  {
    var matching := set r | r in table && Seeks(less, after, r, descending);
    rows := FirstRows(less, matching, descending, limit);
  }

  /** On a fixed table the walk reaches a null cursor. */
  lemma {:induction false} WalkTerminates<V(!new)>(less: (V, V) -> bool, table: set<Row<V>>, after: Option<Cursor<V>>,
                                                  descending: bool, size: nat) returns (steps: seq<Fetch<V>>)
    requires StrictTotalOrder(less) && size >= 1
    ensures Walk(less, after, descending, size, steps, true)
    ensures forall k :: 0 <= k < |steps| ==> steps[k].table == table
    decreases |set r | r in table && Seeks(less, after, r, descending)|
  {
    var rows := FetchExists(less, table, after, descending, size + 1);
    var f := Fetch(table, rows);
    var (page, next) := CursorPage(rows, size);
    steps := [f];
    if next.Some? {
      var sought := set r | r in table && Seeks(less, after, r, descending);
      var left := set r | r in table && Seeks(less, next, r, descending);
      assert rows[size - 1] in rows;
      assert page[size - 1] in sought - left;
      forall r | r in left ensures r in sought {
        PagePrecedesRest(less, f, after, descending, size, r);
      }
      SubsetIsSmaller(left, sought, page[size - 1]);
      var rest := WalkTerminates(less, table, next, descending, size);
      steps := [f] + rest;
      assert steps[1..] == rest;
    }
  }

  lemma SubsetIsSmaller<T>(a: set<T>, b: set<T>, x: T)
    requires a <= b && x in b && x !in a
    ensures |a| < |b|
  {
    assert a <= b - {x};
    assert |a| <= |b - {x}| by {
      SubsetSize(a, b - {x});
    }
  }

  lemma {:induction false} SubsetSize<T>(a: set<T>, b: set<T>)
    requires a <= b
    ensures |a| <= |b|
    decreases |a|
  {
    if a != {} {
      var x :| x in a;
      SubsetSize(a - {x}, b - {x});
    }
  }

  lemma {:induction false} DistinctSize<T>(s: seq<T>)
    requires forall i, j :: 0 <= i < j < |s| ==> s[i] != s[j]
    ensures |set x | x in s| == |s|
  {
    if s != [] {
      var last, front := s[|s| - 1], s[..|s| - 1];
      DistinctSize(front);
      assert s == front + [last];
      assert (set x | x in s) == (set x | x in front) + {last};
      assert last !in front;
    }
  }

  lemma {:induction false} PagesAreFull<V(!new)>(less: (V, V) -> bool, after: Option<Cursor<V>>, descending: bool,
                                                 size: nat, steps: seq<Fetch<V>>)
    requires size >= 1 && Walk(less, after, descending, size, steps, true)
    requires forall k :: 0 <= k < |steps| ==> steps[k].table == steps[0].table
    ensures (|steps| - 1) * size <= |Listed(steps, size)| <= |steps| * size
    ensures |steps| > 1 ==> (|steps| - 1) * size < |Listed(steps, size)|
    ensures |steps| == 1 && (exists r :: r in steps[0].table && Seeks(less, after, r, descending)) ==>
        Listed(steps, size) != []
    decreases |steps|
  {
    var f := steps[0];
    var (page, next) := CursorPage(f.rows, size);
    assert Listed(steps, size) == page + Listed(steps[1..], size);
    if |steps| > 1 {
      forall k | 0 <= k < |steps[1..]| ensures steps[1..][k].table == f.table {
        assert steps[1..][k] == steps[k + 1];
      }
      PagesAreFull(less, next, descending, size, steps[1..]);
      var extra := f.rows[size];
      assert extra in f.rows && Before(less, f.rows[size - 1], extra, descending);
      KeysetIsBefore(less, f.rows[size - 1], extra, descending);
      assert steps[1..][0].table == f.table;
      assert (|steps| - 1) * size == size + (|steps[1..]| - 1) * size;
    } else {
      assert steps[1..] == [];
    }
  }

  /** On a fixed table a complete walk returns exactly the sorted table, on as few pages as the size allows. */
  lemma WalkOfFixedTable<V(!new)>(less: (V, V) -> bool, descending: bool, size: nat, table: set<Row<V>>,
                                  steps: seq<Fetch<V>>)
    requires StrictTotalOrder(less) && size >= 1 && Walk(less, None, descending, size, steps, true)
    requires forall k :: 0 <= k < |steps| ==> steps[k].table == table
    ensures Sorted(less, Listed(steps, size), descending)
    ensures (set r | r in Listed(steps, size)) == table && |Listed(steps, size)| == |table|
    ensures |table| <= |steps| * size && (|steps| > 1 ==> (|steps| - 1) * size < |table|)
  {
    WalkIsStable(less, descending, size, steps);
    PagesAreFull(less, None, descending, size, steps);
    DistinctSize(Listed(steps, size));
    assert forall r :: r in table ==> r in Listed(steps, size);
  }

  lemma HeadPrecedesTail<V(!new)>(less: (V, V) -> bool, a: seq<Row<V>>, descending: bool)
    requires StrictTotalOrder(less) && Sorted(less, a, descending) && a != []
    ensures forall r :: r in a[1..] <==> r in a && r != a[0]
  {
    BeforeIsStrictTotal(less, a[0], a[0], a[0], descending);
    assert a == [a[0]] + a[1..];
  }

  lemma EmptyTogether<T>(a: seq<T>, b: seq<T>)
    requires forall r :: r in a <==> r in b
    ensures a == [] <==> b == []
  {
    if a != [] {
      assert a[0] in a;
    }
    if b != [] {
      assert b[0] in b;
    }
  }

  /** There is only one sorted listing of a set of rows. */
  lemma {:induction false} SortedIsUnique<V(!new)>(less: (V, V) -> bool, a: seq<Row<V>>, b: seq<Row<V>>,
                                                   descending: bool)
    requires StrictTotalOrder(less) && Sorted(less, a, descending) && Sorted(less, b, descending)
    requires forall r :: r in a <==> r in b
    ensures a == b
    decreases |a|
  {
    EmptyTogether(a, b);
    if b != [] {
      assert b[0] in a && a[0] in b;
      BeforeIsStrictTotal(less, a[0], b[0], b[0], descending);
      assert a[0] == b[0];
      HeadPrecedesTail(less, a, descending);
      HeadPrecedesTail(less, b, descending);
      SortedIsUnique(less, a[1..], b[1..], descending);
    }
  }
}
