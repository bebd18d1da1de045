/** What a statement does to the tables of the database, row by row: the reference the sharded tables are
    compared with. */
module ShardingStatements {
  import opened Sql
  import opened Sharding
  import opened ShardingRefinement
  import opened Options

  /** A qualified reference reads the row only under the name of its own table; that is why conditions have to
      be renamed. */
  lemma ReferencesRead(d: Dialect, table: string, row: Row, args: seq<Val>, t: string, column: string)
    ensures EvalRow(d, table, row, args, Ref(t, column)) == if t == table then Get(row, column) else Undefined
    ensures EvalRow(d, table, row, args, Ident(column)) == Get(row, column)
  {
  }

  /** A statement touches no table but its own, and a query touches none. */
  lemma OnlyItsTable(d: Dialect, db: Database, s: Stmt, args: seq<Val>, name: string)
    requires s.Select? || name != s.table
    ensures Table(Exec(d, db, s, args).0, name) == Table(db, name)
  {
  }

  lemma {:induction false} NewRowsAt(d: Dialect, columns: seq<string>, values: seq<seq<Expr>>, args: seq<Val>)
    requires forall k :: 0 <= k < |values| ==> |values[k]| == |columns|
    ensures |NewRows(d, columns, values, args)| == |values|
    ensures forall k :: 0 <= k < |values| ==>
              NewRows(d, columns, values, args)[k] == NewRow(d, columns, values[k], args)
    decreases |values|
  {
    if values != [] { NewRowsAt(d, columns, values[1..], args); }
  }

  /** An INSERT appends one row for each list of values, with those values in its columns. */
  lemma InsertStores(d: Dialect, db: Database, s: Stmt, args: seq<Val>, k: nat, i: nat)
    requires s.Insert? && Distinct(s.columns) && k < |s.values| && i < |s.columns|
    requires forall j :: 0 <= j < |s.values| ==> |s.values[j]| == |s.columns|
    ensures var (db', out) := Exec(d, db, s, args);
            var was, rows := Table(db, s.table), Table(db', s.table);
            && |rows| == |was| + |s.values| && was <= rows && out == Affected(|s.values|)
            && Get(rows[|was| + k], s.columns[i]) == EvalRow(d, "", map[], args, s.values[k][i])
  {
    NewRowsAt(d, s.columns, s.values, args);
    NewRowAt(d, s.columns, s.values[k], args, i);
  }

  /** How many rows satisfy a condition. */
  function Count(d: Dialect, table: string, rows: seq<Row>, args: seq<Val>, cond: Option<Expr>): nat {
    if rows == [] then 0
    else (if Sat(d, table, rows[0], args, cond) then 1 else 0) + Count(d, table, rows[1..], args, cond)
  }

  lemma {:induction false} MatchingAre(d: Dialect, table: string, rows: seq<Row>, args: seq<Val>, cond: Option<Expr>,
                                       row: Row)
    ensures |Matching(d, table, rows, args, cond)| == Count(d, table, rows, args, cond)
    ensures multiset(Matching(d, table, rows, args, cond))[row]
            == if Sat(d, table, row, args, cond) then multiset(rows)[row] else 0
    decreases |rows|
  {
    if rows != [] {
      MatchingAre(d, table, rows[1..], args, cond, row);
      assert rows == [rows[0]] + rows[1..];
    }
  }

  lemma {:induction false} RemainingAre(d: Dialect, table: string, rows: seq<Row>, args: seq<Val>,
                                        cond: Option<Expr>, row: Row)
    ensures multiset(Remaining(d, table, rows, args, cond))[row]
            == if Sat(d, table, row, args, cond) then 0 else multiset(rows)[row]
    decreases |rows|
  {
    if rows != [] {
      RemainingAre(d, table, rows[1..], args, cond, row);
      assert rows == [rows[0]] + rows[1..];
    }
  }

  /** A DELETE removes the rows that satisfy its condition, and only those. */
  lemma DeleteRemoves(d: Dialect, db: Database, s: Stmt, args: seq<Val>, row: Row)
    requires s.Delete?
    ensures var (db', out) := Exec(d, db, s, args);
            && multiset(Table(db', s.table))[row]
               == (if Sat(d, s.table, row, args, s.cond) then 0 else multiset(Table(db, s.table))[row])
            && out == Affected(Count(d, s.table, Table(db, s.table), args, s.cond))
  {
    RemainingAre(d, s.table, Table(db, s.table), args, s.cond, row);
    MatchingAre(d, s.table, Table(db, s.table), args, s.cond, row);
  }

  lemma {:induction false} UpdatedAt(d: Dialect, table: string, rows: seq<Row>, args: seq<Val>,
                                     sets: seq<(string, Expr)>, cond: Option<Expr>, r: nat)
    requires r < |rows|
    ensures |Updated(d, table, rows, args, sets, cond)| == |rows|
    ensures Updated(d, table, rows, args, sets, cond)[r]
            == if Sat(d, table, rows[r], args, cond) then Assign(d, table, rows[r], args, sets) else rows[r]
    decreases |rows|
  {
    if |rows| > 1 { UpdatedAt(d, table, rows[1..], args, sets, cond, if r > 0 then r - 1 else 0); }
  }

  /** Set number n is the last one of the column. */
  predicate LastSet(sets: seq<(string, Expr)>, column: string, n: int) {
    0 <= n < |sets| && sets[n].0 == column && forall m :: n < m < |sets| ==> sets[m].0 != column
  }

  lemma {:induction false} AssignLast(d: Dialect, table: string, row: Row, args: seq<Val>, sets: seq<(string, Expr)>,
                                      column: string, n: nat)
    requires LastSet(sets, column, n)
    ensures Get(Assign(d, table, row, args, sets), column) == EvalRow(d, table, row, args, sets[n].1)
    decreases |sets|
  {
    var m := |sets| - 1;
    if n < m {
      AssignLast(d, table, row, args, sets[..m], column, n);
      GetOther(Assign(d, table, row, args, sets[..m]), sets[m].0, EvalRow(d, table, row, args, sets[m].1), column);
    }
  }

  lemma GetOther(row: Row, c: string, v: Val, column: string)
    requires c != column
    ensures Get(row[c := v], column) == Get(row, column)
  {
  }

  /** An UPDATE gives every row that satisfies its condition the values of its assignments, evaluated on the
      row as it was, and leaves the other rows and columns alone. */
  lemma UpdateChanges(d: Dialect, db: Database, s: Stmt, args: seq<Val>, r: nat, column: string)
    requires s.Update? && r < |Table(db, s.table)|
    ensures var (db', out) := Exec(d, db, s, args);
            var was, rows := Table(db, s.table), Table(db', s.table);
            && |rows| == |was| && out == Affected(Count(d, s.table, was, args, s.cond))
            && (!Sat(d, s.table, was[r], args, s.cond) ==> rows[r] == was[r])
            && (Sat(d, s.table, was[r], args, s.cond) ==>
                  && (forall n :: LastSet(s.sets, column, n) ==>
                        Get(rows[r], column) == EvalRow(d, s.table, was[r], args, s.sets[n].1))
                  && ((forall n :: 0 <= n < |s.sets| ==> s.sets[n].0 != column) ==>
                        Get(rows[r], column) == Get(was[r], column)))
  {
    var was := Table(db, s.table);
    UpdatedAt(d, s.table, was, args, s.sets, s.cond, r);
    forall n | LastSet(s.sets, column, n)
      ensures Get(Assign(d, s.table, was[r], args, s.sets), column) == EvalRow(d, s.table, was[r], args, s.sets[n].1)
    {
      AssignLast(d, s.table, was[r], args, s.sets, column, n);
    }
    if forall n :: 0 <= n < |s.sets| ==> s.sets[n].0 != column {
      AssignKeeps(d, s.table, was[r], args, s.sets, column);
    }
    MatchingAre(d, s.table, was, args, s.cond, was[r]);
  }

  lemma {:induction false} ProjectAt(d: Dialect, table: string, rows: seq<Row>, args: seq<Val>, items: seq<Expr>,
                                     r: nat, k: nat)
    requires r < |rows| && k < |items|
    ensures |Project(d, table, rows, args, items)| == |rows|
    ensures |Project(d, table, rows, args, items)[r]| == |items|
    ensures Project(d, table, rows, args, items)[r][k] == EvalRow(d, table, rows[r], args, items[k])
    decreases |rows|
  {
    if |rows| > 1 { ProjectAt(d, table, rows[1..], args, items, if r > 0 then r - 1 else 0, k); }
  }

  /** A SELECT answers with one line for each row that satisfies its condition, in the table's order, and in
      it the value of each item on that row. */
  lemma SelectAnswers(d: Dialect, db: Database, s: Stmt, args: seq<Val>, k: nat) returns (at: seq<nat>)
    requires s.Select? && k < |s.items|
    ensures var rows, out := Table(db, s.table), Exec(d, db, s, args).1;
            && out.Rows? && |out.rows| == |at| == Count(d, s.table, rows, args, s.cond)
            && (forall j :: 0 <= j < |at| ==> at[j] < |rows| && (j > 0 ==> at[j - 1] < at[j]))
            && (forall j :: 0 <= j < |at| ==>
                  && Sat(d, s.table, rows[at[j]], args, s.cond) && |out.rows[j]| == |s.items|
                  && out.rows[j][k] == EvalRow(d, s.table, rows[at[j]], args, s.items[k]))
  {
    var rows := Table(db, s.table);
    at := Places(d, s.table, rows, args, s.cond);
    var found := Matching(d, s.table, rows, args, s.cond);
    forall j | 0 <= j < |at|
      ensures var out := Project(d, s.table, found, args, s.items);
              |out| == |at| && |out[j]| == |s.items|
              && out[j][k] == EvalRow(d, s.table, rows[at[j]], args, s.items[k])
    {
      ProjectAt(d, s.table, found, args, s.items, j, k);
    }
  }

  /** Where in the table the rows are that satisfy a condition. */
  lemma {:induction false} Places(d: Dialect, table: string, rows: seq<Row>, args: seq<Val>, cond: Option<Expr>)
    returns (at: seq<nat>)
    ensures var found := Matching(d, table, rows, args, cond);
            && |at| == |found| == Count(d, table, rows, args, cond)
            && (forall j :: 0 <= j < |at| ==> at[j] < |rows| && (j > 0 ==> at[j - 1] < at[j]))
            && (forall j :: 0 <= j < |at| ==> found[j] == rows[at[j]] && Sat(d, table, found[j], args, cond))
    decreases |rows|
  {
    at := [];
    if rows != [] {
      var rest := Places(d, table, rows[1..], args, cond);
      var later := seq(|rest|, j requires 0 <= j < |rest| => rest[j] + 1);
      at := if Sat(d, table, rows[0], args, cond) then [0] + later else later;
    }
  }
}
