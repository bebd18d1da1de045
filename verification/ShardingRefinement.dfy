/** The sharded tables behave like one logical table, for every run of statements of a syntactic
    fragment: rows stay in the table their keys route to, and every statement reads and changes the
    rows the unsharded statement would. */
module ShardingRefinement {
  import opened Sql
  import opened Sharding
  import opened Options

  /** How the values of a sharding key column are written: a value v of column k is always routed as
      canon(k, v). */
  type Canon = (string, Val) -> Val

  /** A conjunction is true when both sides are, and values the database takes for equal, such as strings
      in different case, are written the same way. */
  ghost predicate SaneDialect(d: Dialect, canon: Canon) {
    && (forall a, b :: Truth(d.bin(And, a, b)) <==> Truth(a) && Truth(b))
    && (forall key, a, b {:trigger canon(key, a), canon(key, b)} ::
          Truth(d.bin(Eq, a, b)) ==> canon(key, a) == canon(key, b))
  }

  function KeysOf(keys: seq<string>, canon: Canon, row: Row): seq<Val> {
    if keys == [] then [] else [canon(keys[0], Get(row, keys[0]))] + KeysOf(keys[1..], canon, row)
  }

  function RouteOf(c: Config, canon: Canon, row: Row): string {
    c.shard(KeysOf(c.keys, canon, row))
  }

  function RowsIn(c: Config, canon: Canon, rows: seq<Row>, suffix: string): seq<Row> {
    if rows == [] then []
    else
      var rest := RowsIn(c, canon, rows[1..], suffix);
      if RouteOf(c, canon, rows[0]) == suffix then [rows[0]] + rest else rest
  }

  /** The suffixes of the plugin's own tables: the base table and the shards. */
  ghost predicate Own(c: Config, suffix: string) { suffix == "" || exists vs :: c.shard(vs) == suffix }

  /** Every shard table holds, in order, exactly the logical rows whose keys route to it; the base table,
      unless it is a shard itself, holds none. */
  ghost predicate Split(c: Config, canon: Canon, logical: Database, db: Database) {
    forall suffix | Own(c, suffix) ::
      Table(db, c.table + suffix) == RowsIn(c, canon, Table(logical, c.table), suffix)
  }

  /** A table the plugin has nothing to do with, even if its name starts with the name of the base table. */
  ghost predicate Foreign(c: Config, name: string) {
    forall suffix | Own(c, suffix) :: name != c.table + suffix
  }

  ghost predicate SameForeign(c: Config, logical: Database, db: Database) {
    forall name | Foreign(c, name) :: Table(db, name) == Table(logical, name)
  }

  ghost predicate GoodConfig(c: Config) {
    forall vs :: c.shard(vs) != ""
  }

  // ---------------------------------------------------------------------------------------------
  // Conditions: the walk finds the values every matching row has
  // ---------------------------------------------------------------------------------------------

  /** An equation of the key column with a constant written in the key's form. */
  predicate KeyEq(d: Dialect, canon: Canon, e: Expr, key: string, table: string, args: seq<Val>) {
    && e.Binary? && e.op == Eq && (e.x == Ident(key) || e.x == Ref(table, key))
    && IsConst(e.y) && RouteVal(e.y, args) == canon(key, ConstVal(d, e.y, args))
  }

  /** No node of the tree is taken for an equation on the key. */
  predicate NoMatch(e: Expr, key: string, table: string)
    decreases e
  {
    && !Matches(e, key, table)
    && match e
       case Paren(x) => NoMatch(x, key, table)
       case Unary(_, x) => NoMatch(x, key, table)
       case Binary(_, x, y) => NoMatch(x, key, table) && NoMatch(y, key, table)
       case Range(x, y) => NoMatch(x, key, table) && NoMatch(y, key, table)
       case List(xs) => forall k :: 0 <= k < |xs| ==> NoMatch(xs[k], key, table)
       case Call(_, xs) => forall k :: 0 <= k < |xs| ==> NoMatch(xs[k], key, table)
       case _ => true
  }

  /** A conjunction whose parts are equations on the key or do not mention it in an equation. */
  predicate Sound(d: Dialect, canon: Canon, e: Expr, key: string, table: string, args: seq<Val>)
    decreases e
  {
    if e.Binary? && e.op == And then Sound(d, canon, e.x, key, table, args) && Sound(d, canon, e.y, key, table, args)
    else if e.Paren? then Sound(d, canon, e.x, key, table, args)
    else KeyEq(d, canon, e, key, table, args) || NoMatch(e, key, table)
  }

  predicate HasKeyEq(d: Dialect, canon: Canon, e: Expr, key: string, table: string, args: seq<Val>)
    decreases e
  {
    if e.Binary? && e.op == And then
      HasKeyEq(d, canon, e.x, key, table, args) || HasKeyEq(d, canon, e.y, key, table, args)
    else if e.Paren? then HasKeyEq(d, canon, e.x, key, table, args)
    else KeyEq(d, canon, e, key, table, args)
  }

  lemma {:induction false} NoMatchWalk(e: Expr, key: string, table: string, args: seq<Val>, w: Walked)
    requires NoMatch(e, key, table)
    ensures Walk(e, key, table, args, w) == w
    decreases e, 1
  {
    match e
    case Paren(x) => NoMatchWalk(x, key, table, args, w);
    case Unary(_, x) => NoMatchWalk(x, key, table, args, w);
    case Binary(_, x, y) =>
      NoMatchWalk(x, key, table, args, w);
      NoMatchWalk(y, key, table, args, w);
    case Range(x, y) =>
      NoMatchWalk(x, key, table, args, w);
      NoMatchWalk(y, key, table, args, w);
    case List(xs) => NoMatchWalkAll(xs, key, table, args, w);
    case Call(_, xs) => NoMatchWalkAll(xs, key, table, args, w);
    case _ =>
  }

  lemma {:induction false} NoMatchWalkAll(xs: seq<Expr>, key: string, table: string, args: seq<Val>, w: Walked)
    requires forall k :: 0 <= k < |xs| ==> NoMatch(xs[k], key, table)
    ensures WalkAll(xs, key, table, args, w) == w
    decreases xs, 0
  {
    if xs != [] {
      NoMatchWalk(xs[0], key, table, args, w);
      NoMatchWalkAll(xs[1..], key, table, args, w);
    }
  }

  /** On a sound condition the walk does not fail, it finds a value if there is an equation, and the
      value it ends with, whichever equation it came from, is the one of every row that satisfies the
      condition. */
  lemma {:induction false} SoundWalk(d: Dialect, canon: Canon, e: Expr, key: string, table: string, args: seq<Val>,
                                     w: Walked, row: Row)
    requires SaneDialect(d, canon) && Sound(d, canon, e, key, table, args) && !w.failed
    ensures var w' := Walk(e, key, table, args, w);
            && !w'.failed
            && (w.found.Some? || HasKeyEq(d, canon, e, key, table, args) ==> w'.found.Some?)
            && (Truth(EvalRow(d, table, row, args, e)) ==>
                  (w.found.Some? ==> w.found.value == canon(key, Get(row, key))) ==>
                  (w'.found.Some? ==> w'.found.value == canon(key, Get(row, key))))
    decreases e
  {
    if e.Binary? && e.op == And {
      SoundWalk(d, canon, e.x, key, table, args, w, row);
      SoundWalk(d, canon, e.y, key, table, args, Walk(e.x, key, table, args, w), row);
    } else if e.Paren? {
      SoundWalk(d, canon, e.x, key, table, args, w, row);
    } else if KeyEq(d, canon, e, key, table, args) {
      var w1 := Visit(e, key, table, args, w);
      assert Walk(e.x, key, table, args, w1) == w1;
      assert Walk(e.y, key, table, args, w1) == w1;
      assert EvalRow(d, table, row, args, e.x) == Get(row, key);
      assert EvalRow(d, table, row, args, e.y) == ConstVal(d, e.y, args);
    } else {
      NoMatchWalk(e, key, table, args, w);
    }
  }

  /** The WHERE clauses the plugin routes correctly. */
  predicate CondOk(c: Config, d: Dialect, canon: Canon, cond: Option<Expr>, args: seq<Val>) {
    && cond.Some?
    && LeftOnly(cond.value, c.table)
    && (forall k :: 0 <= k < |c.keys| ==>
          && Sound(d, canon, cond.value, c.keys[k], c.table, args)
          && HasKeyEq(d, canon, cond.value, c.keys[k], c.table, args))
  }

  lemma {:induction false} KeyValuesRight(d: Dialect, canon: Canon, keys: seq<string>, cond: Expr, table: string,
                                          args: seq<Val>, row: Row)
    requires SaneDialect(d, canon)
    requires forall k :: 0 <= k < |keys| ==>
               Sound(d, canon, cond, keys[k], table, args) && HasKeyEq(d, canon, cond, keys[k], table, args)
    ensures KeyValues(keys, Some(cond), table, args).Ok?
    ensures Truth(EvalRow(d, table, row, args, cond)) ==>
              KeyValues(keys, Some(cond), table, args).value == KeysOf(keys, canon, row)
    decreases |keys|
  {
    if keys != [] {
      SoundWalk(d, canon, cond, keys[0], table, args, Walked(None, false), row);
      KeyValuesRight(d, canon, keys[1..], cond, table, args, row);
    }
  }

  /** A statement with such a condition is routed, to the table of every row that satisfies it. */
  lemma RoutedRight(c: Config, d: Dialect, canon: Canon, cond: Option<Expr>, args: seq<Val>, row: Row)
    requires SaneDialect(d, canon) && CondOk(c, d, canon, cond, args)
    ensures ShardName(c, cond, args).Ok?
    ensures Sat(d, c.table, row, args, cond) ==> ShardName(c, cond, args).value == c.table + RouteOf(c, canon, row)
  {
    KeyValuesRight(d, canon, c.keys, cond.value, c.table, args, row);
  }

  // ---------------------------------------------------------------------------------------------
  // Renamed expressions read the same
  // ---------------------------------------------------------------------------------------------

  lemma InterpRenames(d: Dialect, table: string, name: string, row: Row, args: seq<Val>)
    ensures Renames(RowInterp(d, table, row, args), RowInterp(d, name, row, args), table, name)
  {
  }

  lemma SatRenamed(c: Config, d: Dialect, name: string, row: Row, args: seq<Val>, cond: Option<Expr>)
    requires name != c.table && (cond.Some? ==> LeftOnly(cond.value, c.table) && NoRef(cond.value, name))
    ensures Sat(d, name, row, args, RenameCond(c, cond, name)) == Sat(d, c.table, row, args, cond)
  {
    if cond.Some? {
      RenameLeftExact(cond.value, c.table, name);
      InterpRenames(d, c.table, name, row, args);
      RenameAllMeaning(cond.value, c.table, name, RowInterp(d, c.table, row, args), RowInterp(d, name, row, args));
    }
  }

  lemma EvalUnqualified(d: Dialect, table: string, name: string, row: Row, args: seq<Val>, e: Expr)
    requires NoRef(e, table) && NoRef(e, name)
    ensures EvalRow(d, name, row, args, e) == EvalRow(d, table, row, args, e)
  {
    InterpRenames(d, table, name, row, args);
    RenameAllIdentity(e, table, name);
    RenameAllMeaning(e, table, name, RowInterp(d, table, row, args), RowInterp(d, name, row, args));
  }

  // ---------------------------------------------------------------------------------------------
  // Row by row: the statement on one shard against the statement on all rows
  // ---------------------------------------------------------------------------------------------

  /** What a statement with condition cond, sent to the shard `suffix` with condition cond', needs. */
  ghost predicate OnShard(c: Config, d: Dialect, canon: Canon, args: seq<Val>,
                          cond: Option<Expr>, cond': Option<Expr>, suffix: string)
  {
    && (forall row :: Sat(d, c.table + suffix, row, args, cond') == Sat(d, c.table, row, args, cond))
    && (forall row :: Sat(d, c.table, row, args, cond) ==> RouteOf(c, canon, row) == suffix)
  }

  lemma {:induction false} MatchingSplit(c: Config, d: Dialect, canon: Canon, args: seq<Val>,
                                         cond: Option<Expr>, cond': Option<Expr>, suffix: string, rows: seq<Row>)
    requires OnShard(c, d, canon, args, cond, cond', suffix)
    ensures Matching(d, c.table + suffix, RowsIn(c, canon, rows, suffix), args, cond')
            == Matching(d, c.table, rows, args, cond)
    decreases |rows|
  {
    if rows != [] {
      MatchingSplit(c, d, canon, args, cond, cond', suffix, rows[1..]);
      var rest := RowsIn(c, canon, rows[1..], suffix);
      assert ([rows[0]] + rest)[1..] == rest;
    }
  }

  lemma {:induction false} RemainingSplit(c: Config, d: Dialect, canon: Canon, args: seq<Val>,
                                          cond: Option<Expr>, cond': Option<Expr>, suffix: string, rows: seq<Row>,
                                          other: string)
    requires OnShard(c, d, canon, args, cond, cond', suffix)
    ensures RowsIn(c, canon, Remaining(d, c.table, rows, args, cond), other) ==
            if other == suffix then Remaining(d, c.table + suffix, RowsIn(c, canon, rows, suffix), args, cond')
            else RowsIn(c, canon, rows, other)
    decreases |rows|
  {
    if rows != [] {
      RemainingSplit(c, d, canon, args, cond, cond', suffix, rows[1..], other);
      var rest, left := RowsIn(c, canon, rows[1..], other), Remaining(d, c.table, rows[1..], args, cond);
      assert ([rows[0]] + rest)[1..] == rest && ([rows[0]] + left)[1..] == left;
    }
  }

  lemma {:induction false} AssignKeeps(d: Dialect, table: string, row: Row, args: seq<Val>, sets: seq<(string,
                                       Expr)>, key: string)
    requires forall k :: 0 <= k < |sets| ==> sets[k].0 != key
    ensures Get(Assign(d, table, row, args, sets), key) == Get(row, key)
    decreases |sets|
  {
    if sets != [] { AssignKeeps(d, table, row, args, sets[..|sets| - 1], key); }
  }

  lemma {:induction false} KeysKept(keys: seq<string>, canon: Canon, row: Row, row': Row)
    requires forall k :: 0 <= k < |keys| ==> Get(row', keys[k]) == Get(row, keys[k])
    ensures KeysOf(keys, canon, row') == KeysOf(keys, canon, row)
    decreases |keys|
  {
    if keys != [] { KeysKept(keys[1..], canon, row, row'); }
  }

  lemma {:induction false} AssignRenamed(d: Dialect, table: string, name: string, row: Row, args: seq<Val>,
                                         sets: seq<(string, Expr)>)
    requires forall k :: 0 <= k < |sets| ==> NoRef(sets[k].1, table) && NoRef(sets[k].1, name)
    ensures Assign(d, name, row, args, sets) == Assign(d, table, row, args, sets)
    decreases |sets|
  {
    if sets != [] {
      AssignRenamed(d, table, name, row, args, sets[..|sets| - 1]);
      EvalUnqualified(d, table, name, row, args, sets[|sets| - 1].1);
    }
  }

  /** Assignments that set no sharding key and do not qualify columns by the base table. */
  predicate SetsOk(c: Config, sets: seq<(string, Expr)>, name: string) {
    forall k :: 0 <= k < |sets| ==> sets[k].0 !in c.keys && NoRef(sets[k].1, c.table) && NoRef(sets[k].1, name)
  }

  lemma AssignOk(c: Config, d: Dialect, canon: Canon, name: string, row: Row, args: seq<Val>, sets: seq<(string, Expr)>)
    requires SetsOk(c, sets, name)
    ensures Assign(d, name, row, args, sets) == Assign(d, c.table, row, args, sets)
    ensures RouteOf(c, canon, Assign(d, c.table, row, args, sets)) == RouteOf(c, canon, row)
  {
    AssignRenamed(d, c.table, name, row, args, sets);
    var row' := Assign(d, c.table, row, args, sets);
    forall k | 0 <= k < |c.keys| ensures Get(row', c.keys[k]) == Get(row, c.keys[k]) {
      AssignKeeps(d, c.table, row, args, sets, c.keys[k]);
    }
    KeysKept(c.keys, canon, row, row');
  }

  lemma {:induction false} UpdatedSplit(c: Config, d: Dialect, canon: Canon, args: seq<Val>, sets: seq<(string, Expr)>,
                                        cond: Option<Expr>, cond': Option<Expr>, suffix: string, rows: seq<Row>,
                                        other: string)
    requires OnShard(c, d, canon, args, cond, cond', suffix) && SetsOk(c, sets, c.table + suffix)
    ensures RowsIn(c, canon, Updated(d, c.table, rows, args, sets, cond), other) ==
            if other == suffix then Updated(d, c.table + suffix, RowsIn(c, canon, rows, suffix), args, sets, cond')
            else RowsIn(c, canon, rows, other)
    decreases |rows|
  {
    if rows != [] {
      UpdatedSplit(c, d, canon, args, sets, cond, cond', suffix, rows[1..], other);
      AssignOk(c, d, canon, c.table + suffix, rows[0], args, sets);
      var rest := RowsIn(c, canon, rows[1..], other);
      assert ([rows[0]] + rest)[1..] == rest;
      var head := if Sat(d, c.table, rows[0], args, cond) then Assign(d, c.table, rows[0], args, sets) else rows[0];
      var tail := Updated(d, c.table, rows[1..], args, sets, cond);
      assert ([head] + tail)[1..] == tail;
    }
  }

  lemma {:induction false} RowsInConcat(c: Config, canon: Canon, a: seq<Row>, b: seq<Row>, suffix: string)
    ensures RowsIn(c, canon, a + b, suffix) == RowsIn(c, canon, a, suffix) + RowsIn(c, canon, b, suffix)
    decreases |a|
  {
    if a == [] {
      assert a + b == b;
    } else {
      assert (a + b)[1..] == a[1..] + b;
      RowsInConcat(c, canon, a[1..], b, suffix);
    }
  }

  lemma {:induction false} ProjectRenamed(d: Dialect, table: string, name: string, rows: seq<Row>, args: seq<Val>,
                                          items: seq<Expr>)
    requires forall k :: 0 <= k < |items| ==> NoRef(items[k], table) && NoRef(items[k], name)
    ensures Project(d, name, rows, args, items) == Project(d, table, rows, args, items)
    decreases |rows|
  {
    if rows != [] {
      ProjectRenamed(d, table, name, rows[1..], args, items);
      forall k | 0 <= k < |items|
        ensures EvalRow(d, name, rows[0], args, items[k]) == EvalRow(d, table, rows[0], args, items[k])
      {
        EvalUnqualified(d, table, name, rows[0], args, items[k]);
      }
      assert seq(|items|, k requires 0 <= k < |items| => EvalRow(d, name, rows[0], args, items[k]))
          == seq(|items|, k requires 0 <= k < |items| => EvalRow(d, table, rows[0], args, items[k]));
    }
  }

  // ---------------------------------------------------------------------------------------------
  // Inserts
  // ---------------------------------------------------------------------------------------------

  predicate Distinct(columns: seq<string>) {
    forall i, j :: 0 <= i < j < |columns| ==> columns[i] != columns[j]
  }

  /** The row supplies the key as a constant in the key's form, a primary key with a non-zero id. */
  predicate KeySupplied(c: Config, d: Dialect, canon: Canon, columns: seq<string>, exprs: seq<Expr>, args: seq<Val>,
                        key: string)
    requires |columns| == |exprs|
  {
    var i := Find(columns, key);
    && i < |columns| && IsConst(exprs[i])
    && RouteVal(exprs[i], args) == canon(key, ConstVal(d, exprs[i], args))
    && (c.pk == Some(key) ==>
          c.toId(RouteVal(exprs[i], args)).Some? && c.toId(RouteVal(exprs[i], args)).value != 0)
  }

  predicate RowOk(c: Config, d: Dialect, canon: Canon, columns: seq<string>, exprs: seq<Expr>, args: seq<Val>) {
    && |columns| == |exprs| && Distinct(columns)
    && forall k :: 0 <= k < |c.keys| ==> KeySupplied(c, d, canon, columns, exprs, args, c.keys[k])
  }

  lemma {:induction false} NewRowAt(d: Dialect, columns: seq<string>, exprs: seq<Expr>, args: seq<Val>, i: nat)
    requires |columns| == |exprs| && Distinct(columns) && i < |columns|
    ensures Get(NewRow(d, columns, exprs, args), columns[i]) == EvalRow(d, "", map[], args, exprs[i])
    decreases |columns|
  {
    var n := |columns| - 1;
    if i < n { NewRowAt(d, columns[..n], exprs[..n], args, i); }
  }

  lemma {:induction false} InsertValueRight(c: Config, d: Dialect, canon: Canon, keys: seq<string>,
                                            columns: seq<string>, exprs: seq<Expr>, args: seq<Val>)
    requires |columns| == |exprs| && Distinct(columns)
    requires forall k :: 0 <= k < |keys| ==> KeySupplied(c, d, canon, columns, exprs, args, keys[k])
    ensures InsertValue(c, keys, columns, exprs, args) == Ok(KeysOf(keys, canon, NewRow(d, columns, exprs, args)))
    ensures |KeysOf(keys, canon, NewRow(d, columns, exprs, args))| == |keys|
    decreases |keys|
  {
    if keys != [] {
      assert KeySupplied(c, d, canon, columns, exprs, args, keys[0]);
      var i := Find(columns, keys[0]);
      NewRowAt(d, columns, exprs, args, i);
      assert EvalRow(d, "", map[], args, exprs[i]) == ConstVal(d, exprs[i], args);
      InsertValueRight(c, d, canon, keys[1..], columns, exprs, args);
    }
  }

  function RowRoute(c: Config, d: Dialect, canon: Canon, columns: seq<string>, exprs: seq<Expr>,
                    args: seq<Val>): string {
    if |columns| == |exprs| then RouteOf(c, canon, NewRow(d, columns, exprs, args)) else ""
  }

  /** A multi-row INSERT is accepted exactly when all its rows route to one table, and goes there. */
  lemma {:induction false} InsertSuffixExact(c: Config, d: Dialect, canon: Canon, columns: seq<string>,
                                             values: seq<seq<Expr>>, args: seq<Val>, suffix: string)
    requires GoodConfig(c) && (forall k :: 0 <= k < |values| ==> RowOk(c, d, canon, columns, values[k], args))
    requires values != [] || suffix != ""
    ensures var r := InsertSuffix(c, columns, values, args, suffix);
            var s := if suffix != "" then suffix else RowRoute(c, d, canon, columns, values[0], args);
            if forall k :: 0 <= k < |values| ==> RowRoute(c, d, canon, columns, values[k], args) == s
            then r == Ok(s) else r == Err(DiffSuffix)
    decreases |values|
  {
    if values != [] {
      var s := if suffix != "" then suffix else RowRoute(c, d, canon, columns, values[0], args);
      InsertValueRight(c, d, canon, c.keys, columns, values[0], args);
      var sub := RowRoute(c, d, canon, columns, values[0], args);
      InsertSuffixExact(c, d, canon, columns, values[1..], args, sub);
      assert (forall k :: 0 <= k < |values| ==> RowRoute(c, d, canon, columns, values[k], args) == s)
          <==> sub == s && (forall k :: 0 <= k < |values[1..]| ==>
                              RowRoute(c, d, canon, columns, values[1..][k], args) == s) by {
        if sub == s && forall k :: 0 <= k < |values[1..]| ==>
                         RowRoute(c, d, canon, columns, values[1..][k], args) == s {
          forall k | 0 <= k < |values| ensures RowRoute(c, d, canon, columns, values[k], args) == s {
            if k > 0 { assert values[k] == values[1..][k - 1]; }
          }
        }
      }
    }
  }

  lemma {:induction false} NewRowsIn(c: Config, d: Dialect, canon: Canon, columns: seq<string>, values: seq<seq<Expr>>,
                                     args: seq<Val>, suffix: string, other: string)
    requires forall k :: 0 <= k < |values| ==>
               |columns| == |values[k]| && RowRoute(c, d, canon, columns, values[k], args) == suffix
    ensures RowsIn(c, canon, NewRows(d, columns, values, args), other) ==
            if other == suffix then NewRows(d, columns, values, args) else []
    decreases |values|
  {
    if values != [] {
      NewRowsIn(c, d, canon, columns, values[1..], args, suffix, other);
      var row, rest := NewRow(d, columns, values[0], args), NewRows(d, columns, values[1..], args);
      assert NewRows(d, columns, values, args) == [row] + rest;
      assert ([row] + rest)[1..] == rest;
    }
  }

  // ---------------------------------------------------------------------------------------------
  // Statements and runs
  // ---------------------------------------------------------------------------------------------

  /** Statements with a WHERE clause the plugin routes correctly; the shard's name is fresh. */
  predicate WhereOk(c: Config, d: Dialect, canon: Canon, cond: Option<Expr>, args: seq<Val>, name: string) {
    && CondOk(c, d, canon, cond, args)
    && ShardName(c, cond, args) == Ok(name) && NoRef(cond.value, name)
  }

  predicate InFragment(c: Config, d: Dialect, canon: Canon, s: Stmt, args: seq<Val>) {
    && s.table == c.table
    && match s
       case Insert(_, columns, values) =>
         && values != []
         && (forall k :: 0 <= k < |values| ==> RowOk(c, d, canon, columns, values[k], args))
         && (forall k :: 0 <= k < |values| ==>
               RowRoute(c, d, canon, columns, values[k], args) == RowRoute(c, d, canon, columns, values[0], args))
       case Select(_, items, cond) =>
         var name := ShardName(c, cond, args);
         name.Ok? && WhereOk(c, d, canon, cond, args, name.value) &&
         forall k :: 0 <= k < |items| ==> NoRef(items[k], c.table) && NoRef(items[k], name.value)
       case Update(_, sets, cond) =>
         var name := ShardName(c, cond, args);
         name.Ok? && WhereOk(c, d, canon, cond, args, name.value) && SetsOk(c, sets, name.value)
       case Delete(_, cond) =>
         var name := ShardName(c, cond, args);
         name.Ok? && WhereOk(c, d, canon, cond, args, name.value)
  }

  lemma WhereOnShard(c: Config, d: Dialect, canon: Canon, cond: Option<Expr>, args: seq<Val>,
                     name: string) returns (suffix: string)
    requires SaneDialect(d, canon) && GoodConfig(c) && WhereOk(c, d, canon, cond, args, name)
    ensures name == c.table + suffix && suffix != ""
    ensures OnShard(c, d, canon, args, cond, RenameCond(c, cond, name), suffix)
  {
    suffix := c.shard(KeyValues(c.keys, cond, c.table, args).value);
    assert |name| > |c.table|;
    forall row ensures Sat(d, name, row, args, RenameCond(c, cond, name)) == Sat(d, c.table, row, args, cond) {
      SatRenamed(c, d, name, row, args, cond);
    }
    forall row | Sat(d, c.table, row, args, cond) ensures RouteOf(c, canon, row) == suffix {
      RoutedRight(c, d, canon, cond, args, row);
      SuffixInjective(c.table, RouteOf(c, canon, row), suffix);
    }
  }

  lemma SuffixInjective(table: string, a: string, b: string)
    ensures table + a == table + b ==> a == b
  {
    assert (table + a)[|table|..] == a;
    assert (table + b)[|table|..] == b;
  }

  /** Replacing one shard and the logical rows keeps the split, if the other shards' rows stay. */
  lemma SplitUpdate(c: Config, canon: Canon, logical: Database, db: Database, rows: seq<Row>, suffix: string,
                    shard: seq<Row>)
    requires Split(c, canon, logical, db)
    requires forall other | Own(c, other) :: RowsIn(c, canon, rows, other) ==
               if other == suffix then shard else RowsIn(c, canon, Table(logical, c.table), other)
    ensures Split(c, canon, logical[c.table := rows], db[c.table + suffix := shard])
  {
    var logical', db' := logical[c.table := rows], db[c.table + suffix := shard];
    forall other | Own(c, other)
      ensures Table(db', c.table + other) == RowsIn(c, canon, Table(logical', c.table), other)
    {
      SuffixInjective(c.table, other, suffix);
      assert Table(db, c.table + other) == RowsIn(c, canon, Table(logical, c.table), other);
    }
  }

  ghost predicate Agrees(c: Config, d: Dialect, canon: Canon, logical: Database, db: Database, s: Stmt,
                         args: seq<Val>) {
    var (logical', out) := Exec(d, logical, s, args);
    var (db', out') := ExecSharded(c, d, db, s, args);
    out' == out && Split(c, canon, logical', db')
  }

  lemma InsertRefines(c: Config, d: Dialect, canon: Canon, logical: Database, db: Database, s: Stmt, args: seq<Val>)
    requires GoodConfig(c) && Split(c, canon, logical, db) && s.Insert? && InFragment(c, d, canon, s, args)
    ensures Agrees(c, d, canon, logical, db, s, args)
  {
    var rows, added := Table(logical, c.table), NewRows(d, s.columns, s.values, args);
    var suffix := RowRoute(c, d, canon, s.columns, s.values[0], args);
    InsertSuffixExact(c, d, canon, s.columns, s.values, args, "");
    forall other | Own(c, other)
      ensures RowsIn(c, canon, rows + added, other) ==
              if other == suffix then Table(db, c.table + suffix) + added else RowsIn(c, canon, rows, other)
    {
      RowsInConcat(c, canon, rows, added, other);
      NewRowsIn(c, d, canon, s.columns, s.values, args, suffix, other);
      assert Table(db, c.table + other) == RowsIn(c, canon, rows, other);
    }
    SplitUpdate(c, canon, logical, db, rows + added, suffix, Table(db, c.table + suffix) + added);
  }

  /** What a SELECT, UPDATE or DELETE of the base table needs to read the same in its shard. */
  ghost predicate Renamable(c: Config, s: Stmt, name: string) {
    && s.table == c.table && !s.Insert? && name != c.table
    && (s.cond.Some? ==> LeftOnly(s.cond.value, c.table) && NoRef(s.cond.value, name))
    && match s
       case Select(_, items, _) => forall k :: 0 <= k < |items| ==> NoRef(items[k], c.table) && NoRef(items[k], name)
       case Update(_, sets, _) => SetsOk(c, sets, name)
       case _ => true
  }

  lemma RenamedReads(c: Config, d: Dialect, s: Stmt, args: seq<Val>, name: string)
    requires Renamable(c, s, name)
    ensures forall row :: Sat(d, name, row, args, RenameCond(c, s.cond, name)) == Sat(d, c.table, row, args, s.cond)
  {
    forall row ensures Sat(d, name, row, args, RenameCond(c, s.cond, name)) == Sat(d, c.table, row, args, s.cond) {
      SatRenamed(c, d, name, row, args, s.cond);
    }
  }

  lemma ChosenIsOwn(c: Config, cond: Option<Expr>, args: seq<Val>, suffix: string)
    requires ShardName(c, cond, args) == Ok(c.table + suffix)
    ensures Own(c, suffix)
  {
    SuffixInjective(c.table, c.shard(KeyValues(c.keys, cond, c.table, args).value), suffix);
  }

  lemma SelectOnShard(c: Config, d: Dialect, canon: Canon, logical: Database, db: Database, s: Stmt, args: seq<Val>,
                      suffix: string)
    requires Split(c, canon, logical, db) && s.Select? && Renamable(c, s, c.table + suffix)
    requires ShardName(c, s.cond, args) == Ok(c.table + suffix)
    requires OnShard(c, d, canon, args, s.cond, RenameCond(c, s.cond, c.table + suffix), suffix)
    ensures Agrees(c, d, canon, logical, db, s, args)
  {
    var name := c.table + suffix;
    ChosenIsOwn(c, s.cond, args, suffix);
    assert Table(db, name) == RowsIn(c, canon, Table(logical, c.table), suffix);
    MatchingSplit(c, d, canon, args, s.cond, RenameCond(c, s.cond, name), suffix, Table(logical, c.table));
    ProjectRenamed(d, c.table, name, Matching(d, c.table, Table(logical, c.table), args, s.cond), args, s.items);
  }

  lemma UpdateOnShard(c: Config, d: Dialect, canon: Canon, logical: Database, db: Database, s: Stmt, args: seq<Val>,
                      suffix: string)
    requires Split(c, canon, logical, db) && s.Update? && Renamable(c, s, c.table + suffix)
    requires ShardName(c, s.cond, args) == Ok(c.table + suffix)
    requires OnShard(c, d, canon, args, s.cond, RenameCond(c, s.cond, c.table + suffix), suffix)
    ensures Agrees(c, d, canon, logical, db, s, args)
  {
    var name, rows := c.table + suffix, Table(logical, c.table);
    var cond' := RenameCond(c, s.cond, name);
    ChosenIsOwn(c, s.cond, args, suffix);
    assert Table(db, name) == RowsIn(c, canon, rows, suffix);
    MatchingSplit(c, d, canon, args, s.cond, cond', suffix, rows);
    forall other { UpdatedSplit(c, d, canon, args, s.sets, s.cond, cond', suffix, rows, other); }
    SplitUpdate(c, canon, logical, db, Updated(d, c.table, rows, args, s.sets, s.cond), suffix,
                Updated(d, name, Table(db, name), args, s.sets, cond'));
  }

  lemma DeleteOnShard(c: Config, d: Dialect, canon: Canon, logical: Database, db: Database, s: Stmt, args: seq<Val>,
                      suffix: string)
    requires Split(c, canon, logical, db) && s.Delete? && Renamable(c, s, c.table + suffix)
    requires ShardName(c, s.cond, args) == Ok(c.table + suffix)
    requires OnShard(c, d, canon, args, s.cond, RenameCond(c, s.cond, c.table + suffix), suffix)
    ensures Agrees(c, d, canon, logical, db, s, args)
  {
    var name, rows := c.table + suffix, Table(logical, c.table);
    var cond' := RenameCond(c, s.cond, name);
    ChosenIsOwn(c, s.cond, args, suffix);
    assert Table(db, name) == RowsIn(c, canon, rows, suffix);
    MatchingSplit(c, d, canon, args, s.cond, cond', suffix, rows);
    forall other { RemainingSplit(c, d, canon, args, s.cond, cond', suffix, rows, other); }
    SplitUpdate(c, canon, logical, db, Remaining(d, c.table, rows, args, s.cond), suffix,
                Remaining(d, name, Table(db, name), args, cond'));
  }

  /** A statement sent to a shard that holds every row it matches behaves as on the logical table. */
  lemma OnShardAgrees(c: Config, d: Dialect, canon: Canon, logical: Database, db: Database, s: Stmt, args: seq<Val>,
                      suffix: string)
    requires Split(c, canon, logical, db) && Renamable(c, s, c.table + suffix)
    requires ShardName(c, s.cond, args) == Ok(c.table + suffix)
    requires OnShard(c, d, canon, args, s.cond, RenameCond(c, s.cond, c.table + suffix), suffix)
    ensures Agrees(c, d, canon, logical, db, s, args)
  {
    match s
    case Select(_, _, _) => SelectOnShard(c, d, canon, logical, db, s, args, suffix);
    case Update(_, _, _) => UpdateOnShard(c, d, canon, logical, db, s, args, suffix);
    case Delete(_, _) => DeleteOnShard(c, d, canon, logical, db, s, args, suffix);
  }

  lemma StatementRefines(c: Config, d: Dialect, canon: Canon, logical: Database, db: Database, s: Stmt, args: seq<Val>)
    requires SaneDialect(d, canon) && GoodConfig(c) && Split(c, canon, logical, db) && InFragment(c, d, canon, s, args)
    ensures Agrees(c, d, canon, logical, db, s, args)
  {
    if s.Insert? {
      InsertRefines(c, d, canon, logical, db, s, args);
    } else {
      var suffix := WhereOnShard(c, d, canon, s.cond, args, ShardName(c, s.cond, args).value);
      OnShardAgrees(c, d, canon, logical, db, s, args, suffix);
    }
  }

  // Statements on other tables.

  /** Whatever the table, a statement that does not name the base table is executed as it is. */
  lemma OtherTablePasses(c: Config, d: Dialect, db: Database, s: Stmt, args: seq<Val>)
    requires s.table != c.table
    ensures ExecSharded(c, d, db, s, args) == Exec(d, db, s, args)
  {
  }

  /** A statement changes no table but its own, and reads no other. */
  lemma ExecFrame(d: Dialect, db: Database, db': Database, s: Stmt, args: seq<Val>, name: string)
    requires Table(db, s.table) == Table(db', s.table)
    ensures Exec(d, db, s, args).1 == Exec(d, db', s, args).1
    ensures Table(Exec(d, db, s, args).0, s.table) == Table(Exec(d, db', s, args).0, s.table)
    ensures name != s.table ==> Table(Exec(d, db, s, args).0, name) == Table(db, name)
  {
  }

  /** The statement sent to the database names one of the plugin's own tables. */
  lemma DispatchedIsOwn(c: Config, s: Stmt, args: seq<Val>) returns (suffix: string)
    requires s.table == c.table && Dispatch(c, s, args).Ok?
    ensures Own(c, suffix) && Dispatch(c, s, args).value.table == c.table + suffix
  {
    if s.Insert? {
      suffix := InsertSuffix(c, s.columns, s.values, args, "").value;
      InsertedIsOwn(c, s.columns, s.values, args, "");
    } else {
      suffix := c.shard(KeyValues(c.keys, s.cond, c.table, args).value);
    }
  }

  lemma {:induction false} InsertedIsOwn(c: Config, columns: seq<string>, values: seq<seq<Expr>>, args: seq<Val>,
                                         suffix: string)
    requires Own(c, suffix) && InsertSuffix(c, columns, values, args, suffix).Ok?
    ensures Own(c, InsertSuffix(c, columns, values, args, suffix).value)
    decreases |values|
  {
    if values != [] {
      InsertedIsOwn(c, columns, values[1..], args, c.shard(InsertValue(c, c.keys, columns, values[0], args).value));
    }
  }

  /** A statement on the base table, of the fragment or not, leaves the foreign tables alone on both sides. */
  lemma ForeignStays(c: Config, d: Dialect, logical: Database, db: Database, s: Stmt, args: seq<Val>)
    requires s.table == c.table && SameForeign(c, logical, db)
    ensures SameForeign(c, Exec(d, logical, s, args).0, ExecSharded(c, d, db, s, args).0)
  {
    forall name | Foreign(c, name)
      ensures Table(ExecSharded(c, d, db, s, args).0, name) == Table(Exec(d, logical, s, args).0, name)
    {
      assert Own(c, "") && c.table + "" == c.table;
      ExecFrame(d, logical, logical, s, args, name);
      if Dispatch(c, s, args).Ok? {
        var suffix := DispatchedIsOwn(c, s, args);
        ExecFrame(d, db, db, Dispatch(c, s, args).value, args, name);
      }
    }
  }

  /** A statement on a foreign table gives the same output on both sides and keeps both relations. */
  lemma ForeignRefines(c: Config, d: Dialect, canon: Canon, logical: Database, db: Database, s: Stmt, args: seq<Val>)
    requires Foreign(c, s.table) && Split(c, canon, logical, db) && SameForeign(c, logical, db)
    ensures Agrees(c, d, canon, logical, db, s, args)
    ensures SameForeign(c, Exec(d, logical, s, args).0, ExecSharded(c, d, db, s, args).0)
  {
    assert Own(c, "") && c.table + "" == c.table;
    OtherTablePasses(c, d, db, s, args);
    forall name ensures Table(Exec(d, db, s, args).0, name) ==
                        if name == s.table then Table(Exec(d, logical, s, args).0, name) else Table(db, name)
    {
      ExecFrame(d, db, logical, s, args, name);
    }
    forall name | name != s.table ensures Table(Exec(d, logical, s, args).0, name) == Table(logical, name) {
      ExecFrame(d, logical, logical, s, args, name);
    }
  }

  datatype Work = Work(stmt: Stmt, args: seq<Val>)

  function RunLogical(d: Dialect, db: Database, work: seq<Work>): (Database, seq<Output>)
    decreases |work|
  {
    if work == [] then (db, [])
    else
      var (db1, out) := Exec(d, db, work[0].stmt, work[0].args);
      var (db2, outs) := RunLogical(d, db1, work[1..]);
      (db2, [out] + outs)
  }

  function RunSharded(c: Config, d: Dialect, db: Database, work: seq<Work>): (Database, seq<Output>)
    decreases |work|
  {
    if work == [] then (db, [])
    else
      var (db1, out) := ExecSharded(c, d, db, work[0].stmt, work[0].args);
      var (db2, outs) := RunSharded(c, d, db1, work[1..]);
      (db2, [out] + outs)
  }

  /** A statement of the fragment, or any statement on a foreign table. */
  ghost predicate Admitted(c: Config, d: Dialect, canon: Canon, w: Work) {
    InFragment(c, d, canon, w.stmt, w.args) || Foreign(c, w.stmt.table)
  }

  /** Over every run that mixes statements of the fragment with any statements on foreign tables, the
      sharded tables refine one logical table: every statement gives the output it would give unsharded, and
      at the end (hence after every prefix) each row is in the table its keys route to and the foreign tables
      are what they would be. */
  lemma {:induction false} ShardingRefinesOneTable(c: Config, d: Dialect, canon: Canon, logical: Database,
                                                   db: Database, work: seq<Work>)
    requires SaneDialect(d, canon) && GoodConfig(c) && Split(c, canon, logical, db) && SameForeign(c, logical, db)
    requires forall k :: 0 <= k < |work| ==> Admitted(c, d, canon, work[k])
    ensures var (logical', outs) := RunLogical(d, logical, work);
            var (db', outs') := RunSharded(c, d, db, work);
            outs' == outs && Split(c, canon, logical', db') && SameForeign(c, logical', db')
    decreases |work|
  {
    if work != [] {
      var s, args := work[0].stmt, work[0].args;
      assert Admitted(c, d, canon, work[0]);
      if Foreign(c, s.table) {
        ForeignRefines(c, d, canon, logical, db, s, args);
      } else {
        StatementRefines(c, d, canon, logical, db, s, args);
        ForeignStays(c, d, logical, db, s, args);
      }
      ShardingRefinesOneTable(c, d, canon, Exec(d, logical, s, args).0, ExecSharded(c, d, db, s, args).0, work[1..]);
    }
  }

  // ---------------------------------------------------------------------------------------------
  // Outside the fragment
  // ---------------------------------------------------------------------------------------------

  /** A statement is answered right on every database. */
  ghost predicate AlwaysRight(c: Config, d: Dialect, canon: Canon, s: Stmt, args: seq<Val>) {
    forall logical, db :: Split(c, canon, logical, db) ==> Agrees(c, d, canon, logical, db, s, args)
  }

  lemma OneRowSplit(c: Config, canon: Canon, row: Row)
    ensures Split(c, canon, map[c.table := [row]], map[c.table + RouteOf(c, canon, row) := [row]])
  {
    var r := RouteOf(c, canon, row);
    var db: Database := map[c.table + r := [row]];
    forall suffix ensures Table(db, c.table + suffix) == RowsIn(c, canon, [row], suffix) {
      SuffixInjective(c.table, suffix, r);
    }
  }

  /** A matching row of another shard is missed: the output differs. */
  lemma MissedRow(c: Config, d: Dialect, canon: Canon, s: Stmt, args: seq<Val>, suffix: string, row: Row)
    requires s.table == c.table && !s.Insert? && ShardName(c, s.cond, args) == Ok(c.table + suffix)
    requires Sat(d, c.table, row, args, s.cond) && RouteOf(c, canon, row) != suffix
    ensures !Agrees(c, d, canon, map[c.table := [row]], map[c.table + RouteOf(c, canon, row) := [row]], s, args)
  {
    var logical: Database, db: Database := map[c.table := [row]], map[c.table + RouteOf(c, canon, row) := [row]];
    SuffixInjective(c.table, RouteOf(c, canon, row), suffix);
    assert Matching(d, c.table, [row], args, s.cond) == [row];
    assert Table(db, c.table + suffix) == [];
  }

  /** Every row that satisfies the condition routes to the shard. */
  ghost predicate AllRoute(c: Config, d: Dialect, canon: Canon, args: seq<Val>, cond: Option<Expr>, suffix: string) {
    forall row :: Sat(d, c.table, row, args, cond) ==> RouteOf(c, canon, row) == suffix
  }

  lemma RoutedAlwaysRight(c: Config, d: Dialect, canon: Canon, s: Stmt, args: seq<Val>, suffix: string)
    requires Renamable(c, s, c.table + suffix) && ShardName(c, s.cond, args) == Ok(c.table + suffix)
    requires AllRoute(c, d, canon, args, s.cond, suffix)
    ensures AlwaysRight(c, d, canon, s, args)
  {
    RenamedReads(c, d, s, args, c.table + suffix);
    forall logical, db | Split(c, canon, logical, db) ensures Agrees(c, d, canon, logical, db, s, args) {
      OnShardAgrees(c, d, canon, logical, db, s, args, suffix);
    }
  }

  /** For the shard the plugin itself chooses: a SELECT, UPDATE or DELETE with any condition is answered
      right on every database if and only if every row that satisfies the condition routes to it. */
  lemma AnswerExact(c: Config, d: Dialect, canon: Canon, s: Stmt, args: seq<Val>, suffix: string)
    requires Renamable(c, s, c.table + suffix) && ShardName(c, s.cond, args) == Ok(c.table + suffix)
    ensures AlwaysRight(c, d, canon, s, args) <==> AllRoute(c, d, canon, args, s.cond, suffix)
  {
    if AllRoute(c, d, canon, args, s.cond, suffix) {
      RoutedAlwaysRight(c, d, canon, s, args, suffix);
    } else {
      var row :| Sat(d, c.table, row, args, s.cond) && RouteOf(c, canon, row) != suffix;
      OneRowSplit(c, canon, row);
      MissedRow(c, d, canon, s, args, suffix, row);
    }
  }

  lemma {:induction false} OrKeyValues(d: Dialect, canon: Canon, keys: seq<string>, x: Expr, e: Expr, table: string,
                                       args: seq<Val>)
    requires SaneDialect(d, canon)
    requires forall k :: 0 <= k < |keys| ==>
               Sound(d, canon, x, keys[k], table, args) && HasKeyEq(d, canon, x, keys[k], table, args)
    requires forall k :: 0 <= k < |keys| ==> NoMatch(e, keys[k], table)
    ensures KeyValues(keys, Some(Binary(Or, x, e)), table, args) == KeyValues(keys, Some(x), table, args)
    decreases |keys|
  {
    if keys != [] {
      var w := Walk(x, keys[0], table, args, Walked(None, false));
      SoundWalk(d, canon, x, keys[0], table, args, Walked(None, false), map[]);
      NoMatchWalk(e, keys[0], table, args, w);
      assert Walk(Binary(Or, x, e), keys[0], table, args, Walked(None, false)) == w;
      OrKeyValues(d, canon, keys[1..], x, e, table, args);
    }
  }

  /** `x OR e` with the key equations in x: it is sent to the shard of x, and answered right on every
      database if and only if every row that satisfies e routes there too. */
  lemma OrExact(c: Config, d: Dialect, canon: Canon, s: Stmt, args: seq<Val>, x: Expr, e: Expr, suffix: string)
    requires SaneDialect(d, canon) && forall a, b :: Truth(d.bin(Or, a, b)) <==> Truth(a) || Truth(b)
    requires Renamable(c, s, c.table + suffix) && s.cond == Some(Binary(Or, x, e))
    requires CondOk(c, d, canon, Some(x), args) && ShardName(c, Some(x), args) == Ok(c.table + suffix)
    requires forall k :: 0 <= k < |c.keys| ==> NoMatch(e, c.keys[k], c.table)
    ensures ShardName(c, s.cond, args) == Ok(c.table + suffix)
    ensures AlwaysRight(c, d, canon, s, args)
            <==> forall row :: Truth(EvalRow(d, c.table, row, args, e)) ==> RouteOf(c, canon, row) == suffix
  {
    OrKeyValues(d, canon, c.keys, x, e, c.table, args);
    AnswerExact(c, d, canon, s, args, suffix);
    forall row
      ensures Sat(d, c.table, row, args, s.cond)
              <==> Sat(d, c.table, row, args, Some(x)) || Truth(EvalRow(d, c.table, row, args, e))
      ensures Sat(d, c.table, row, args, Some(x)) ==> RouteOf(c, canon, row) == suffix
    {
      RoutedRight(c, d, canon, Some(x), args, row);
      SuffixInjective(c.table, RouteOf(c, canon, row), suffix);
    }
  }

  const OrRow: Row := map["k" := IntV(2), "a" := IntV(2)]
  const OrLeft := Binary(Eq, Ident("k"), Bind(0))
  const OrRight := Binary(Eq, Ident("a"), Bind(1))
  const OrCond := Binary(Or, OrLeft, OrRight)
  const OrArgs: seq<Val> := [IntV(1), IntV(2)]

  lemma OrSplit(c: Config)
    requires c.keys == ["k"]
    ensures Split(c, (k, v) => v, map[c.table := [OrRow]], map[c.table + c.shard([IntV(2)]) := [OrRow]])
  {
    var db: Database := map[c.table + c.shard([IntV(2)]) := [OrRow]];
    var canon := (k, v) => v;
    assert c.keys[1..] == [];
    assert KeysOf(c.keys, canon, OrRow) == [IntV(2)];
    forall suffix ensures Table(db, c.table + suffix) == RowsIn(c, canon, [OrRow], suffix) {
      SuffixInjective(c.table, suffix, c.shard([IntV(2)]));
    }
  }

  lemma OrMatches(c: Config, d: Dialect)
    requires Truth(d.bin(Eq, IntV(2), IntV(2))) && forall a, b :: Truth(b) ==> Truth(d.bin(Or, a, b))
    ensures Sat(d, c.table, OrRow, OrArgs, Some(OrCond))
  {
    var left, right := EvalRow(d, c.table, OrRow, OrArgs, OrLeft), EvalRow(d, c.table, OrRow, OrArgs, OrRight);
    assert right == d.bin(Eq, IntV(2), IntV(2));
    assert EvalRow(d, c.table, OrRow, OrArgs, OrCond) == d.bin(Or, left, right);
  }

  lemma OrRoutes(c: Config)
    requires c.keys == ["k"]
    ensures ShardName(c, Some(OrCond), OrArgs) == Ok(c.table + c.shard([IntV(1)]))
  {
    var w0, w1 := Walked(None, false), Walked(Some(IntV(1)), false);
    assert Walk(OrLeft, "k", c.table, OrArgs, w0) == w1;
    assert Walk(OrRight, "k", c.table, OrArgs, w1) == w1;
    assert Walk(OrCond, "k", c.table, OrArgs, w0) == w1;
    assert c.keys[1..] == [];
    assert NonInsertValue(Some(OrCond), "k", c.table, OrArgs) == Ok(IntV(1));
    assert KeyValues(c.keys[1..], Some(OrCond), c.table, OrArgs) == Ok([]);
    assert [IntV(1)] + KeyValues(c.keys[1..], Some(OrCond), c.table, OrArgs).value == [IntV(1)];
    assert c.keys[0] == "k";
  }

  /** An equation under OR is taken for a routing condition, so the answer can be lost: with
      `k = 1 OR a = 2` the plugin asks only the shard of key 1 and misses a matching row of key 2. */
  lemma OrLosesRows(c: Config, d: Dialect)
    requires c.keys == ["k"] && c.shard([IntV(1)]) != c.shard([IntV(2)])
    requires Truth(d.bin(Eq, IntV(2), IntV(2))) && forall a, b :: Truth(b) ==> Truth(d.bin(Or, a, b))
    ensures var logical: Database := map[c.table := [OrRow]];
            var db: Database := map[c.table + c.shard([IntV(2)]) := [OrRow]];
            var s := Select(c.table, [Ident("a")], Some(OrCond));
            && Split(c, (k, v) => v, logical, db)
            && Exec(d, logical, s, OrArgs).1 == Rows([[IntV(2)]])
            && ExecSharded(c, d, db, s, OrArgs).1 == Rows([])
  {
    OrSplit(c);
    OrMatches(c, d);
    OrRoutes(c);
    SuffixInjective(c.table, c.shard([IntV(1)]), c.shard([IntV(2)]));
    assert Matching(d, c.table, [OrRow], OrArgs, Some(OrCond)) == [OrRow];
    var items := [Ident("a")];
    assert EvalRow(d, c.table, OrRow, OrArgs, items[0]) == IntV(2);
    assert seq(|items|, k requires 0 <= k < |items| => EvalRow(d, c.table, OrRow, OrArgs, items[k])) == [IntV(2)];
    assert Project(d, c.table, [OrRow][1..], OrArgs, items) == [];
  }
}
