/** Walks as a client makes them: it can only send back the token it was given (app/core/pagination.py), and the server
    refuses tokens that are too long. */
module CursorWalk {
  import opened Common
  import opened Numerals
  import opened CursorToken
  import opened JsonText
  import opened Pagination

  // ----- Walks by token -----

  function Position<V>(o: Ordering<V>, token: Option<string>): Option<Cursor<V>> {
    if token.None? then None else DecodeCursor(o, token.value)
  }

  predicate Accepts<V>(o: Ordering<V>, token: Option<string>) {
    token.None? || DecodeCursor(o, token.value).Some?
  }

  /** The `next_cursor` of a response. */
  function NextCursor<V>(o: Ordering<V>, rows: seq<Row<V>>, size: nat): Option<string>
    requires size >= 1
  {
    match CursorPage(rows, size).1
    case None => None
    case Some(cursor) => Some(EncodeCursor(o, cursor))
  }

  /** A request without a token starts the walk; each further one presents the token of the response before it, and is
      answered only if the server can decode it. `complete` when the last response had none. */
  ghost predicate TokenWalk<V>(less: (V, V) -> bool, o: Ordering<V>, token: Option<string>, descending: bool, size: nat,
                               steps: seq<Fetch<V>>, complete: bool)
    requires size >= 1
    decreases |steps|
  {
    && |steps| > 0 && Accepts(o, token)
    && IsFetch(less, steps[0].table, Position(o, token), descending, size + 1, steps[0].rows)
    && var next := NextCursor(o, steps[0].rows, size);
       if |steps| == 1 then complete ==> next.None?
       else next.Some? && TokenWalk(less, o, next, descending, size, steps[1..], complete)
  }

  /** The server accepts the cursor of every page but the last. */
  ghost predicate CursorsFit<V>(o: Ordering<V>, steps: seq<Fetch<V>>, size: nat)
    requires size >= 1
  {
    forall k :: 0 <= k < |steps| - 1 && |steps[k].rows| > size ==> FitsRow(o, steps[k].rows[size - 1])
  }

  predicate FitsRow<V>(o: Ordering<V>, row: Row<V>) {
    Fits(o, Cursor(row.value, row.id))
  }

  function TokenOf<V>(o: Ordering<V>, after: Option<Cursor<V>>): Option<string> {
    if after.None? then None else Some(EncodeCursor(o, after.value))
  }

  /** The server takes its own cursor back exactly if it fits. */
  lemma Presented<V(!new)>(o: Ordering<V>, after: Option<Cursor<V>>)
    requires Inverts(o)
    ensures Accepts(o, TokenOf(o, after)) <==> after.None? || Fits(o, after.value)
    ensures Accepts(o, TokenOf(o, after)) ==> Position(o, TokenOf(o, after)) == after
  {
    if after.Some? {
      CursorRoundTrip(o, after.value, o.sort);
    }
  }

  lemma FirstStep<V(!new)>(less: (V, V) -> bool, o: Ordering<V>, after: Option<Cursor<V>>, descending: bool, size: nat,
                           steps: seq<Fetch<V>>, complete: bool)
    requires Inverts(o) && size >= 1 && (after.None? || Fits(o, after.value)) && |steps| > 0
    ensures TokenWalk(less, o, TokenOf(o, after), descending, size, steps, complete) <==>
      && IsFetch(less, steps[0].table, after, descending, size + 1, steps[0].rows)
      && var next := CursorPage(steps[0].rows, size).1;
         if |steps| == 1 then complete ==> next.None?
         else next.Some? && TokenWalk(less, o, TokenOf(o, next), descending, size, steps[1..], complete)
  {
    Presented(o, after);
    assert NextCursor(o, steps[0].rows, size) == TokenOf(o, CursorPage(steps[0].rows, size).1);
  }

  /** A walk by tokens is a walk by positions in which every cursor fits. */
  lemma {:induction false} TokenWalkIff<V(!new)>(less: (V, V) -> bool, o: Ordering<V>, after: Option<Cursor<V>>,
                                                descending: bool, size: nat, steps: seq<Fetch<V>>, complete: bool)
    requires Inverts(o) && size >= 1 && (after.None? || Fits(o, after.value))
    ensures TokenWalk(less, o, TokenOf(o, after), descending, size, steps, complete) <==>
            Walk(less, after, descending, size, steps, complete) && CursorsFit(o, steps, size)
    decreases |steps|
  {
    if |steps| > 0 {
      FirstStep(less, o, after, descending, size, steps, complete);
    }
    if |steps| > 1 {
      var next := CursorPage(steps[0].rows, size).1;
      if next.Some? {
        SplitFits(o, steps, size);
        if Fits(o, next.value) {
          TokenWalkIff(less, o, next, descending, size, steps[1..], complete);
        } else {
          Presented(o, next);
        }
      }
    }
  }

  lemma SplitFits<V>(o: Ordering<V>, steps: seq<Fetch<V>>, size: nat)
    requires size >= 1 && |steps| > 1 && |steps[0].rows| > size
    ensures CursorsFit(o, steps, size) <==> FitsRow(o, steps[0].rows[size - 1]) && CursorsFit(o, steps[1..], size)
  {
    if CursorsFit(o, steps[1..], size) && FitsRow(o, steps[0].rows[size - 1]) {
      forall k | 0 <= k < |steps| - 1 && |steps[k].rows| > size ensures FitsRow(o, steps[k].rows[size - 1]) {
        assert k > 0 ==> steps[1..][k - 1] == steps[k];
      }
    }
    if CursorsFit(o, steps, size) {
      forall k | 0 <= k < |steps[1..]| - 1 && |steps[1..][k].rows| > size
        ensures FitsRow(o, steps[1..][k].rows[size - 1])
      {
        assert steps[1..][k] == steps[k + 1];
      }
    }
  }

  /** However the table changes between the requests, a complete walk lists rows in strict order, hence without
      duplicates, only rows that were in the table when listed, and every row that stayed there throughout. */
  lemma TokenWalkIsStable<V(!new)>(less: (V, V) -> bool, o: Ordering<V>, descending: bool, size: nat,
                                   steps: seq<Fetch<V>>)
    requires StrictTotalOrder(less) && Inverts(o) && size >= 1
    requires TokenWalk(less, o, None, descending, size, steps, true)
    ensures Sorted(less, Listed(steps, size), descending)
    ensures forall i, j :: 0 <= i < j < |Listed(steps, size)| ==> Listed(steps, size)[i] != Listed(steps, size)[j]
    ensures forall r :: r in Listed(steps, size) ==> exists k :: 0 <= k < |steps| && r in steps[k].table
    ensures forall r :: (forall k :: 0 <= k < |steps| ==> r in steps[k].table) ==> r in Listed(steps, size)
  {
    TokenWalkIff(less, o, None, descending, size, steps, true);
    WalkIsStable(less, descending, size, steps);
  }

  // ----- A table that does not change -----

  ghost predicate Fixed<V>(steps: seq<Fetch<V>>, table: set<Row<V>>) {
    forall k :: 0 <= k < |steps| ==> steps[k].table == table
  }

  /** The pages of a walk cut its listing into pieces of `size`. */
  lemma {:induction false} PageEnds<V(!new)>(less: (V, V) -> bool, after: Option<Cursor<V>>, descending: bool,
                                             size: nat, steps: seq<Fetch<V>>, k: nat)
    requires size >= 1 && Walk(less, after, descending, size, steps, true) && k < |steps| - 1
    ensures |steps[k].rows| > size && 0 <= (k + 1) * size - 1 < |Listed(steps, size)|
    ensures steps[k].rows[size - 1] == Listed(steps, size)[(k + 1) * size - 1]
    decreases k
  {
    var (page, next) := CursorPage(steps[0].rows, size);
    assert Listed(steps, size) == page + Listed(steps[1..], size);
    if k > 0 {
      PageEnds(less, next, descending, size, steps[1..], k - 1);
      Multiply(k, size);
    } else {
      assert page[size - 1] == steps[0].rows[size - 1];
    }
  }

  lemma Multiply(k: nat, size: nat)
    ensures (k + 1) * size == k * size + size
  {
  }

  lemma LessTimes(a: nat, b: nat, size: nat)
    requires size >= 1
    ensures a * size < b * size ==> a < b
    ensures a <= b ==> a * size <= b * size
  {
    if b <= a {
      assert a * size == b * size + (a - b) * size;
    } else {
      assert b * size == a * size + (b - a) * size;
    }
  }

  /** The rows whose cursors a walk of the sorted table `rows` has to present: the last of every page but the last. */
  ghost predicate PageEndsFit<V>(o: Ordering<V>, rows: seq<Row<V>>, size: nat)
    requires size >= 1
  {
    forall k {:trigger EndOfPage(rows, size, k)} ::
      k >= 1 && k * size < |rows| ==> EndOfPage(rows, size, k).Some? && FitsRow(o, EndOfPage(rows, size, k).value)
  }

  function EndOfPage<V>(rows: seq<Row<V>>, size: nat, k: int): Option<Row<V>> {
    if 0 <= k * size - 1 < |rows| then Some(rows[k * size - 1]) else None
  }

  lemma ListsTable<V(!new)>(less: (V, V) -> bool, descending: bool, size: nat, steps: seq<Fetch<V>>,
                            table: set<Row<V>>, rows: seq<Row<V>>)
    requires StrictTotalOrder(less) && size >= 1 && Walk(less, None, descending, size, steps, true) &&
        Fixed(steps, table)
    requires Sorted(less, rows, descending) && (set r | r in rows) == table
    ensures Listed(steps, size) == rows && |rows| <= |steps| * size && (|steps| > 1 ==> (|steps| - 1) * size < |rows|)
  {
    WalkOfFixedTable(less, descending, size, table, steps);
    assert forall r :: r in Listed(steps, size) <==> r in table;
    assert forall r :: r in rows <==> r in table;
    SortedIsUnique(less, Listed(steps, size), rows, descending);
  }

  /** In a complete walk of a fixed table the cursors fit exactly if the ends of its pages do. */
  lemma FixedCursorsFit<V(!new)>(less: (V, V) -> bool, o: Ordering<V>, descending: bool, size: nat,
                                 steps: seq<Fetch<V>>, table: set<Row<V>>, rows: seq<Row<V>>)
    requires StrictTotalOrder(less) && size >= 1 && Walk(less, None, descending, size, steps, true) &&
        Fixed(steps, table)
    requires Sorted(less, rows, descending) && (set r | r in rows) == table
    ensures CursorsFit(o, steps, size) <==> PageEndsFit(o, rows, size)
  {
    ListsTable(less, descending, size, steps, table, rows);
    forall k | 0 <= k < |steps| - 1
      ensures |steps[k].rows| > size && EndOfPage(rows, size, k + 1) == Some(steps[k].rows[size - 1])
      ensures (k + 1) * size < |rows|
    {
      PageEnds(less, None, descending, size, steps, k);
      LessTimes(k + 1, |steps| - 1, size);
    }
    if CursorsFit(o, steps, size) {
      forall k | k >= 1 && k * size < |rows|
        ensures EndOfPage(rows, size, k).Some? && FitsRow(o, EndOfPage(rows, size, k).value)
      {
        LessTimes(k, |steps|, size);
        assert EndOfPage(rows, size, (k - 1) + 1) == Some(steps[k - 1].rows[size - 1]);
      }
    }
    if PageEndsFit(o, rows, size) {
      forall k | 0 <= k < |steps| - 1 && |steps[k].rows| > size ensures FitsRow(o, steps[k].rows[size - 1]) {
        assert EndOfPage(rows, size, k + 1) == Some(steps[k].rows[size - 1]);
      }
    }
  }

  ghost predicate CanWalk<V(!new)>(less: (V, V) -> bool, o: Ordering<V>, descending: bool, size: nat,
                                   table: set<Row<V>>)
    requires size >= 1
  {
    exists steps :: TokenWalk(less, o, None, descending, size, steps, true) && Fixed(steps, table)
  }

  /** A client can walk a fixed table to its end exactly if the server accepts the cursor of the last row of every page
      but the last. */
  lemma TokenWalkTerminatesIff<V(!new)>(less: (V, V) -> bool, o: Ordering<V>, descending: bool, size: nat,
                                        table: set<Row<V>>, rows: seq<Row<V>>)
    requires StrictTotalOrder(less) && Inverts(o) && size >= 1
    requires Sorted(less, rows, descending) && (set r | r in rows) == table
    ensures CanWalk(less, o, descending, size, table) <==> PageEndsFit(o, rows, size)
  {
    if CanWalk(less, o, descending, size, table) {
      var steps :| TokenWalk(less, o, None, descending, size, steps, true) && Fixed(steps, table);
      TokenWalkIff(less, o, None, descending, size, steps, true);
      FixedCursorsFit(less, o, descending, size, steps, table, rows);
    }
    if PageEndsFit(o, rows, size) {
      var steps := WalkTerminates(less, table, None, descending, size);
      FixedCursorsFit(less, o, descending, size, steps, table, rows);
      TokenWalkIff(less, o, None, descending, size, steps, true);
    }
  }

  /** And then it lists exactly the sorted table, on as few pages as the size allows. */
  lemma TokenWalkOfFixedTable<V(!new)>(less: (V, V) -> bool, o: Ordering<V>, descending: bool, size: nat,
                                       table: set<Row<V>>, rows: seq<Row<V>>, steps: seq<Fetch<V>>)
    requires StrictTotalOrder(less) && Inverts(o) && size >= 1
    requires Sorted(less, rows, descending) && (set r | r in rows) == table
    requires TokenWalk(less, o, None, descending, size, steps, true) && Fixed(steps, table)
    ensures Listed(steps, size) == rows && |rows| <= |steps| * size && (|steps| > 1 ==> (|steps| - 1) * size < |rows|)
  {
    TokenWalkIff(less, o, None, descending, size, steps, true);
    ListsTable(less, descending, size, steps, table, rows);
  }

  // ----- Listings by name -----

  /** The ordering of the character and spell listings: the name as it is, under the sort "name". */
  ghost predicate ByName(o: Ordering<string>) {
    Inverts(o) && o.sort == "name" && forall name :: o.show(name) == name
  }

  lemma NameFits(o: Ordering<string>, row: Row<string>)
    requires ByName(o)
    ensures FitsRow(o, row) <==> 24 + |Escaped(row.value)| + |IntText(row.id)| <= 384 && row.id > 0
  {
    assert forall i :: 0 <= i < 4 ==> Plain("name"[i]);
    PlainLength("name");
  }

  lemma LongNameDoesNotFit(o: Ordering<string>, row: Row<string>)
    requires ByName(o) && |row.value| >= 60 && forall i :: 0 <= i < |row.value| ==> Wide(row.value[i])
    ensures !FitsRow(o, row)
  {
    WideLength(row.value);
    NameFits(o, row);
  }

  /** The server's own `next_cursor` is refused: a name of 60 Cyrillic letters ends a page that is not the last. */
  lemma LongNameStopsWalk(less: (string, string) -> bool, o: Ordering<string>, a: Row<string>, b: Row<string>,
                          descending: bool)
    requires StrictTotalOrder(less) && ByName(o) && Before(less, a, b, descending)
    requires |a.value| >= 60 && forall i :: 0 <= i < |a.value| ==> Wide(a.value[i])
    ensures !CanWalk(less, o, descending, 1, {a, b})
  {
    var rows := [a, b];
    BeforeIsStrictTotal(less, a, a, a, descending);
    assert a != b && (set r | r in rows) == {a, b};
    LongNameDoesNotFit(o, a);
    TokenWalkTerminatesIff(less, o, descending, 1, {a, b}, rows);
    assert EndOfPage(rows, 1, 1) == Some(a);
  }

  /** Names of at most 350 plain ASCII characters never stop a walk, whatever the page size. */
  lemma PlainNamesCanWalk(less: (string, string) -> bool, o: Ordering<string>, descending: bool, size: nat,
                          table: set<Row<string>>)
    requires StrictTotalOrder(less) && ByName(o) && size >= 1
    requires forall r :: r in table ==> 0 < r.id < 0x8000_0000 && |r.value| <= 350
    requires forall r, i :: r in table && 0 <= i < |r.value| ==> Plain(r.value[i])
    ensures CanWalk(less, o, descending, size, table)
  {
    var steps := WalkTerminates(less, table, None, descending, size);
    WalkOfFixedTable(less, descending, size, table, steps);
    var rows := Listed(steps, size);
    forall r | r in table ensures FitsRow(o, r) {
      PlainLength(r.value);
      IdLength(r.id);
      NameFits(o, r);
    }
    forall k | k >= 1 && k * size < |rows|
      ensures EndOfPage(rows, size, k).Some? && FitsRow(o, EndOfPage(rows, size, k).value)
    {
      LessTimes(1, k, size);
      assert rows[k * size - 1] in table;
    }
    TokenWalkTerminatesIff(less, o, descending, size, table, rows);
  }
}
