/** The keyset scan over a table.

    Each round queries the matching rows above the cursor in cursor order, up to the batch size, hands
    them to the callback and moves the cursor to the last of them. */
module Scan {
  import opened Options

  datatype Row = Row(id: int, data: string)

  const MAX_INT := 0x7fff_ffff_ffff_ffff

  /** The cursor column is unique and the table is read in its order. */
  ghost predicate Sorted(rows: seq<Row>) { forall i, j :: 0 <= i < j < |rows| ==> rows[i].id < rows[j].id }

  /** The matching rows above a cursor, in order. */
  function Above(rows: seq<Row>, matches: Row -> bool, cursor: int): seq<Row> {
    if rows == [] then []
    else if matches(rows[0]) && rows[0].id > cursor then [rows[0]] + Above(rows[1..], matches, cursor)
    else Above(rows[1..], matches, cursor)
  }

  lemma {:induction false} AboveExactly(rows: seq<Row>, matches: Row -> bool, cursor: int)
    ensures forall row :: row in Above(rows, matches, cursor) <==> row in rows && matches(row) && row.id > cursor
    decreases |rows|
  {
    if rows != [] { AboveExactly(rows[1..], matches, cursor); }
  }

  /** A query: the first of the matching rows above the cursor. */
  method Query(rows: seq<Row>, matches: Row -> bool, cursor: int, batch: nat) returns (list: seq<Row>)
    ensures list <= Above(rows, matches, cursor) && |list| <= batch
    ensures |list| < batch ==> list == Above(rows, matches, cursor)
  {
    var all := Above(rows, matches, cursor);
    list := if |all| <= batch then all else all[..batch];
  }

  function Concat(batches: seq<seq<Row>>): seq<Row> {
    if batches == [] then [] else Concat(batches[..|batches| - 1]) + batches[|batches| - 1]
  }

  lemma {:induction false} AboveSorted(rows: seq<Row>, matches: Row -> bool, cursor: int)
    requires Sorted(rows)
    ensures Sorted(Above(rows, matches, cursor))
    decreases |rows|
  {
    if rows != [] {
      AboveSorted(rows[1..], matches, cursor);
      AboveExactly(rows[1..], matches, cursor);
      var rest := Above(rows[1..], matches, cursor);
      forall j | 0 <= j < |rest| ensures rows[0].id < rest[j].id {
        assert rest[j] in rest && rest[j] in rows[1..];
      }
    }
  }

  lemma {:induction false} AboveLater(rows: seq<Row>, matches: Row -> bool, cursor: int, later: int)
    requires cursor <= later
    ensures Above(rows, matches, later) == Above(Above(rows, matches, cursor), matches, later)
    decreases |rows|
  {
    if rows != [] {
      AboveLater(rows[1..], matches, cursor, later);
      var rest := Above(rows[1..], matches, cursor);
      assert ([rows[0]] + rest)[1..] == rest;
    }
  }

  lemma {:induction false} AboveSplit(s: seq<Row>, matches: Row -> bool, cursor: int, n: nat)
    requires n <= |s| && (forall j :: 0 <= j < |s| ==> matches(s[j]))
    requires (forall j :: 0 <= j < n ==> s[j].id <= cursor) && forall j :: n <= j < |s| ==> s[j].id > cursor
    ensures Above(s, matches, cursor) == s[n..]
    decreases |s|
  {
    if s != [] {
      AboveSplit(s[1..], matches, cursor, if n == 0 then 0 else n - 1);
      if n > 0 { assert s[1..][n - 1..] == s[n..]; }
    }
  }

  /** Moving the cursor to the n-th row leaves exactly the rows after it. */
  lemma NextCursor(rows: seq<Row>, matches: Row -> bool, cursor: int, n: nat)
    requires Sorted(rows) && 0 < n <= |Above(rows, matches, cursor)|
    ensures var s := Above(rows, matches, cursor); Above(rows, matches, s[n - 1].id) == s[n..]
  {
    var s := Above(rows, matches, cursor);
    AboveSorted(rows, matches, cursor);
    AllAbove(rows, matches, cursor, s);
    AboveLater(rows, matches, cursor, s[n - 1].id);
    AboveSplit(s, matches, s[n - 1].id, n);
  }

  lemma AllAbove(rows: seq<Row>, matches: Row -> bool, cursor: int, s: seq<Row>)
    requires s == Above(rows, matches, cursor)
    ensures forall j :: 0 <= j < |s| ==> matches(s[j]) && s[j].id > cursor
  {
    AboveExactly(rows, matches, cursor);
    forall j | 0 <= j < |s| ensures matches(s[j]) && s[j].id > cursor { assert s[j] in s; }
  }

  /** Why a scan ended. */
  datatype End = Complete | QueryError | Stopped | NoColumn | Reached

  /** The batches handed over so far were full and answered with true. */
  ghost predicate AllFull(batches: seq<seq<Row>>, batch: nat, cb: seq<seq<Row>> -> bool) {
    forall i :: 0 <= i < |batches| ==> |batches[i]| == batch && cb(batches[..i + 1])
  }

  /** The last one need not be; none is empty. */
  ghost predicate Batches(batches: seq<seq<Row>>, batch: nat, cb: seq<seq<Row>> -> bool) {
    batches == [] ||
    (0 < |batches[|batches| - 1]| <= batch && AllFull(batches[..|batches| - 1], batch, cb))
  }

  lemma FullMore(batches: seq<seq<Row>>, batch: nat, cb: seq<seq<Row>> -> bool, list: seq<Row>)
    requires AllFull(batches, batch, cb) && 0 < |list| <= batch
    ensures Batches(batches + [list], batch, cb)
    ensures cb(batches + [list]) && |list| == batch ==> AllFull(batches + [list], batch, cb)
  {
    var more := batches + [list];
    assert more[..|batches|] == batches && more[..|batches| + 1] == more;
    forall i | 0 <= i < |batches| ensures |more[i]| == batch && cb(more[..i + 1]) {
      assert more[..i + 1] == batches[..i + 1] && |batches[i]| == batch;
    }
  }

  lemma ConcatMore(batches: seq<seq<Row>>, b: seq<Row>)
    ensures Concat(batches + [b]) == Concat(batches) + b
  {
    assert (batches + [b])[..|batches|] == batches;
  }

  /** How a scan may end.  What it has handed over is a prefix of the matching rows above the starting cursor;
      a query fails only at the end, and then the scan fails; each other reason to stop holds, and stops it at
      the first batch it holds for. */
  ghost predicate Scanned(all: seq<Row>, batch: nat, limit: nat, fails: nat -> bool, cb: seq<seq<Row>> -> bool,
                          hasColumn: bool, batches: seq<seq<Row>>, end: End)
  {
    && Concat(batches) <= all && Batches(batches, batch, cb) && |Concat(batches)| < limit + batch
    && (forall q :: 0 <= q < |batches| ==> !fails(q))
    && (match end
        case Complete =>
          && Concat(batches) == all && |Concat(batches)| < limit && (batches == [] || (cb(batches) && hasColumn))
          && (AllFull(batches, batch, cb) ==> !fails(|batches|))
        case QueryError => fails(|batches|) && AllFull(batches, batch, cb) && |Concat(batches)| < limit
        case Stopped => batches != [] && !cb(batches)
        case NoColumn => !hasColumn && |batches| == 1 && cb(batches)
        case Reached => |Concat(batches)| >= limit && (batches == [] || (cb(batches) && hasColumn)))
  }

  /** Where a scan is before a query. */
  ghost predicate Scanning(rows: seq<Row>, matches: Row -> bool, from: int, all: seq<Row>, batch: nat, limit: nat,
                           fails: nat -> bool, cb: seq<seq<Row>> -> bool, hasColumn: bool, batches: seq<seq<Row>>)
  {
    && Split(rows, matches, from, batches, all) && AllFull(batches, batch, cb) && |Concat(batches)| < limit
    && (forall q :: 0 <= q < |batches| ==> !fails(q)) && (batches == [] || (hasColumn && cb(batches)))
    && (batches == [] || Batches(batches, batch, cb))
  }

  /** A scan of any table, callback and failing queries. */
  method ScanRows(rows: seq<Row>, matches: Row -> bool, cursor: Option<int>, batchOption: nat, limitOption: nat,
                  fails: nat -> bool, cb: seq<seq<Row>> -> bool, hasColumn: bool)
    returns (err: bool, batches: seq<seq<Row>>, end: End)
    requires Sorted(rows)
    ensures var all := Above(rows, matches, if cursor.None? then 0 else cursor.value);
            var batch, limit := if batchOption == 0 then 100 else batchOption,
                                if limitOption == 0 then MAX_INT else limitOption;
            Scanned(all, batch, limit, fails, cb, hasColumn, batches, end)
    ensures err <==> end == QueryError || end == NoColumn
  {
    var from := if cursor.None? then 0 else cursor.value;
    var batch := if batchOption == 0 then 100 else batchOption;
    var limit := if limitOption == 0 then MAX_INT else limitOption;
    ghost var all := Above(rows, matches, from);
    batches, end := [], Complete;
    var more, count := true, 0;
    while more
      invariant if more then Scanning(rows, matches, from, all, batch, limit, fails, cb, hasColumn, batches)
                else Scanned(all, batch, limit, fails, cb, hasColumn, batches, end)
      invariant more ==> count == |Concat(batches)|
      decreases more, |Above(rows, matches, from)|
    {
      more, batches, from, end, count :=
        OneQuery(rows, matches, from, batch, limit, count, fails, cb, hasColumn, batches, all);
    }
    err := end == QueryError || end == NoColumn;
  }

  /** One iteration; `more` is false where the loop is left. */
  method OneQuery(rows: seq<Row>, matches: Row -> bool, from: int, batch: nat, limit: nat, count: nat,
                  fails: nat -> bool, cb: seq<seq<Row>> -> bool, hasColumn: bool, batches: seq<seq<Row>>,
                  ghost all: seq<Row>)
    returns (more: bool, batches': seq<seq<Row>>, next: int, end: End, count': nat)
    requires Sorted(rows) && batch > 0 && count == |Concat(batches)|
    requires Scanning(rows, matches, from, all, batch, limit, fails, cb, hasColumn, batches)
    ensures if more then Scanning(rows, matches, next, all, batch, limit, fails, cb, hasColumn, batches')
            else Scanned(all, batch, limit, fails, cb, hasColumn, batches', end)
    ensures more ==> |Above(rows, matches, next)| < |Above(rows, matches, from)| && count' == |Concat(batches')|
  {
    if fails(|batches|) {
      FullPrefix(batches, all, rows, matches, from);
      return false, batches, from, QueryError, count;
    }
    var n;
    n, batches', next, end := Round(rows, matches, from, batch, cb, hasColumn, batches, all);
    if end != Complete {
      return false, batches', next, end, count;
    }
    count' := count + n;
    if count' >= limit {
      return false, batches', next, Reached, count';
    }
    more := n >= batch;
  }

  lemma FullPrefix(batches: seq<seq<Row>>, all: seq<Row>, rows: seq<Row>, matches: Row -> bool, from: int)
    requires Split(rows, matches, from, batches, all)
    ensures Concat(batches) <= all
  {
  }

  /** One round after a query that succeeds: `n` rows are handed over and the cursor moves on. */
  method Round(rows: seq<Row>, matches: Row -> bool, from: int, batch: nat, cb: seq<seq<Row>> -> bool, hasColumn: bool,
               batches: seq<seq<Row>>, ghost all: seq<Row>)
    returns (n: nat, more: seq<seq<Row>>, next: int, end: End)
    requires Sorted(rows) && batch > 0 && AllFull(batches, batch, cb) && Split(rows, matches, from, batches, all)
    ensures n <= batch && |Concat(more)| == |Concat(batches)| + n && Concat(more) <= all
    ensures n == 0 ==> more == batches && end == Complete
    ensures n > 0 ==> |more| == |batches| + 1 && Batches(more, batch, cb) && |more[|batches|]| == n
    ensures n > 0 && end == Complete ==> cb(more)
    ensures end == Complete ==> Split(rows, matches, next, more, all) && (n == 0 || hasColumn)
    ensures end == Complete && n == batch ==> AllFull(more, batch, cb)
    ensures end == Complete && n == batch ==> |Above(rows, matches, next)| < |Above(rows, matches, from)|
    ensures end == Complete && n < batch ==> Above(rows, matches, next) == []
    ensures end == Complete || (end == Stopped && !cb(more)) || (end == NoColumn && !hasColumn && cb(more))
  {
    more, next, end := batches, from, Complete;
    var list := Query(rows, matches, from, batch);
    n := |list|;
    if |list| > 0 {
      FullMore(batches, batch, cb, list);
      SplitMore(rows, matches, from, batches, all, list);
      more := batches + [list];
      if !cb(more) {
        end := Stopped;
      } else if !hasColumn {
        end := NoColumn;
      } else {
        next := list[|list| - 1].id;
      }
    }
  }

  /** All rows are those handed over and those above the cursor. */
  ghost predicate Split(rows: seq<Row>, matches: Row -> bool, from: int, batches: seq<seq<Row>>, all: seq<Row>) {
    Concat(batches) + Above(rows, matches, from) == all
  }

  lemma SplitMore(rows: seq<Row>, matches: Row -> bool, from: int, batches: seq<seq<Row>>, all: seq<Row>,
                  list: seq<Row>)
    requires Sorted(rows) && Split(rows, matches, from, batches, all)
    requires list != [] && list <= Above(rows, matches, from)
    ensures var next := list[|list| - 1].id;
            && Split(rows, matches, next, batches + [list], all)
            && |Above(rows, matches, next)| == |Above(rows, matches, from)| - |list|
    ensures Concat(batches + [list]) <= all && |Concat(batches + [list])| == |Concat(batches)| + |list|
  {
    var left := Above(rows, matches, from);
    NextCursor(rows, matches, from, |list|);
    ConcatMore(batches, list);
    assert left == list + left[|list|..];
    assert Concat(batches) + left == Concat(batches) + list + left[|list|..];
  }
}
