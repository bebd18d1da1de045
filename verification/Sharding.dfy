/** Routing of statements by the table sharding plugin, and the database underneath.

    A database is a map from table names to their rows.  The logical database keeps all rows in the
    base table; the sharded one executes the statement dispatchTableBySQL rewrites. */
module Sharding {
  import opened Sql
  import opened Options

  datatype Error =
    MissingShardingKey | NotImplemented | ColumnMismatch | DiffSuffix | InvalidId | NeedsId | NotEncodable
  datatype Outcome<+T> = Ok(value: T) | Err(error: Error)

  /** Values of the database.  `Undefined` is what an unresolvable reference evaluates to. */
  datatype Val = NullV | IntV(n: int) | StrV(s: string) | BoolV(b: bool) | Undefined

  type Row = map<string, Val>
  type Database = map<string, seq<Row>>

  /** SQL of the database underneath: number literals, operators and functions are arbitrary. */
  datatype Dialect = Dialect(
    num: string -> Val,
    un: (string, Val) -> Val,
    bin: (Op, Val, Val) -> Val,
    range: (Val, Val) -> Val,
    list: seq<Val> -> Val,
    call: (string, seq<Val>) -> Val)

  predicate Truth(v: Val) { v == BoolV(true) }

  /** The plugin's configuration: base table, sharding keys, the primary key among them if any, how an
      id is read from a value, and the suffix function (an arbitrary function of the key values). */
  datatype Config = Config(
    table: string,
    keys: seq<string>,
    pk: Option<string>,
    toId: Val -> Option<nat>,
    shard: seq<Val> -> string)

  datatype Stmt =
    | Insert(table: string, columns: seq<string>, values: seq<seq<Expr>>)
    | Select(table: string, items: seq<Expr>, cond: Option<Expr>)
    | Update(table: string, sets: seq<(string, Expr)>, cond: Option<Expr>)
    | Delete(table: string, cond: Option<Expr>)

  function Get(row: Row, column: string): Val {
    if column in row then row[column] else NullV
  }

  function Arg(args: seq<Val>, pos: nat): Val {
    if pos < |args| then args[pos] else Undefined
  }

  /** Meaning of an expression over one row of one table. */
  function RowInterp(d: Dialect, table: string, row: Row, args: seq<Val>): Interp<Val> {
    Interp(c => Get(row, c),
           (t, c) => if t == table then Get(row, c) else Undefined,
           p => Arg(args, p), s => StrV(s), d.num, NullV, d.un, d.bin, d.range, d.list, d.call)
  }

  function EvalRow(d: Dialect, table: string, row: Row, args: seq<Val>, e: Expr): Val {
    Eval(e, RowInterp(d, table, row, args))
  }

  predicate Sat(d: Dialect, table: string, row: Row, args: seq<Val>, cond: Option<Expr>) {
    cond.None? || Truth(EvalRow(d, table, row, args, cond.value))
  }

  // ---------------------------------------------------------------------------------------------
  // Finding the sharding key values
  // ---------------------------------------------------------------------------------------------

  predicate IsConst(e: Expr) {
    e.Bind? || e.StrLit? || e.NumLit?
  }

  /** The value the plugin routes by: a number literal is routed as its text. */
  function RouteVal(e: Expr, args: seq<Val>): Val
    requires IsConst(e)
  {
    match e
    case Bind(p) => Arg(args, p)
    case StrLit(s) => StrV(s)
    case NumLit(s) => StrV(s)
  }

  /** The value the database stores or compares with. */
  function ConstVal(d: Dialect, e: Expr, args: seq<Val>): Val
    requires IsConst(e)
  {
    match e
    case Bind(p) => Arg(args, p)
    case StrLit(s) => StrV(s)
    case NumLit(s) => d.num(s)
  }

  /** The nodes nonInsertValue accepts for a key: an equation whose left side is the column, the
      column qualified by the table, or anything that is neither an identifier nor a reference. */
  predicate Matches(n: Expr, key: string, table: string) {
    && n.Binary? && n.op == Eq
    && match n.x
       case Ident(name) => name == key
       case Ref(t, c) => t == table && c == key
       case _ => true
  }

  datatype Walked = Walked(found: Option<Val>, failed: bool)

  function Visit(n: Expr, key: string, table: string, args: seq<Val>, w: Walked): Walked {
    if !Matches(n, key, table) then w
    else if IsConst(n.y) then Walked(Some(RouteVal(n.y, args)), false)
    else Walked(w.found, true)
  }

  /** The depth-first walk of nonInsertValue: later matches replace earlier ones, a failure stops it. */
  function Walk(e: Expr, key: string, table: string, args: seq<Val>, w: Walked): Walked
    decreases e, 1
  {
    var w1 := if w.failed then w else Visit(e, key, table, args, w);
    if w1.failed then w1
    else
      match e
      case Paren(x) => Walk(x, key, table, args, w1)
      case Unary(_, x) => Walk(x, key, table, args, w1)
      case Binary(_, x, y) => Walk(y, key, table, args, Walk(x, key, table, args, w1))
      case Range(x, y) => Walk(y, key, table, args, Walk(x, key, table, args, w1))
      case List(xs) => WalkAll(xs, key, table, args, w1)
      case Call(_, xs) => WalkAll(xs, key, table, args, w1)
      case _ => w1
  }

  function WalkAll(xs: seq<Expr>, key: string, table: string, args: seq<Val>, w: Walked): Walked
    decreases xs, 0
  {
    if xs == [] then w else WalkAll(xs[1..], key, table, args, Walk(xs[0], key, table, args, w))
  }

  function NonInsertValue(cond: Option<Expr>, key: string, table: string, args: seq<Val>): Outcome<Val> {
    if cond.None? then Err(MissingShardingKey)
    else
      var w := Walk(cond.value, key, table, args, Walked(None, false));
      if w.failed then Err(NotImplemented)
      else if w.found.None? then Err(MissingShardingKey)
      else Ok(w.found.value)
  }

  function KeyValues(keys: seq<string>, cond: Option<Expr>, table: string, args: seq<Val>): Outcome<seq<Val>> {
    if keys == [] then Ok([])
    else
      var v := NonInsertValue(cond, keys[0], table, args);
      if v.Err? then Err(v.error)
      else
        var rest := KeyValues(keys[1..], cond, table, args);
        if rest.Err? then rest else Ok([v.value] + rest.value)
  }

  /** Position of the first column with that name, |columns| if there is none. */
  function Find(columns: seq<string>, key: string): (i: nat)
    ensures i <= |columns|
    ensures i < |columns| ==> columns[i] == key
    ensures key !in columns[..i]
  {
    if columns == [] || columns[0] == key then 0
    else
      var i := Find(columns[1..], key);
      assert columns[..i + 1] == [columns[0]] + columns[1..][..i];
      i + 1
  }

  /** insertValue for one key: its routing value, or none for a primary key without a usable id. */
  function InsertKey(c: Config, key: string, columns: seq<string>, exprs: seq<Expr>, args: seq<Val>)
    : Outcome<seq<Val>>
    requires |columns| == |exprs|
  {
    var i := Find(columns, key);
    var isPk := c.pk == Some(key);
    if i == |columns| then (if isPk then Ok([]) else Err(MissingShardingKey))
    else if !IsConst(exprs[i]) then Err(NotImplemented)
    else
      var v := RouteVal(exprs[i], args);
      if !isPk then Ok([v])
      else if c.toId(v).None? then Err(InvalidId)
      else if c.toId(v).value == 0 then Ok([])
      else Ok([v])
  }

  /** insertValue: the routing values of one inserted row. */
  function InsertValue(c: Config, keys: seq<string>, columns: seq<string>, exprs: seq<Expr>, args: seq<Val>)
    : Outcome<seq<Val>>
    requires |columns| == |exprs|
  {
    if keys == [] then Ok([])
    else
      var here := InsertKey(c, keys[0], columns, exprs, args);
      if here.Err? then here
      else
        var rest := InsertValue(c, keys[1..], columns, exprs, args);
        if rest.Err? then rest else Ok(here.value + rest.value)
  }

  /** The suffix all rows of an INSERT agree on, starting from the suffix of the rows before. */
  function InsertSuffix(c: Config, columns: seq<string>, values: seq<seq<Expr>>, args: seq<Val>, suffix: string)
    : Outcome<string>
  {
    if values == [] then Ok(suffix)
    else if |columns| != |values[0]| then Err(ColumnMismatch)
    else
      var v := InsertValue(c, c.keys, columns, values[0], args);
      if v.Err? then Err(v.error)
      else if |v.value| < |c.keys| then Err(NeedsId)
      else
        var sub := c.shard(v.value);
        if suffix != "" && suffix != sub then Err(DiffSuffix)
        else InsertSuffix(c, columns, values[1..], args, sub)
  }

  function ShardName(c: Config, cond: Option<Expr>, args: seq<Val>): Outcome<string> {
    var values := KeyValues(c.keys, cond, c.table, args);
    if values.Err? then Err(values.error) else Ok(c.table + c.shard(values.value))
  }

  function RenameCond(c: Config, cond: Option<Expr>, name: string): Option<Expr> {
    if cond.None? then None else Some(RenameLeft(cond.value, c.table, name))
  }

  /** dispatchTableBySQL: the statement sent to the database, unchanged for another table. */
  function Dispatch(c: Config, s: Stmt, args: seq<Val>): Outcome<Stmt> {
    if s.table != c.table then Ok(s)
    else
      match s
      case Insert(_, columns, values) =>
        var suffix := InsertSuffix(c, columns, values, args, "");
        if suffix.Err? then Err(suffix.error) else Ok(Insert(c.table + suffix.value, columns, values))
      case Select(_, items, cond) =>
        var name := ShardName(c, cond, args);
        if name.Err? then Err(name.error) else Ok(Select(name.value, items, RenameCond(c, cond, name.value)))
      case Update(_, sets, cond) =>
        var name := ShardName(c, cond, args);
        if name.Err? then Err(name.error) else Ok(Update(name.value, sets, RenameCond(c, cond, name.value)))
      case Delete(_, cond) =>
        var name := ShardName(c, cond, args);
        if name.Err? then Err(name.error) else Ok(Delete(name.value, RenameCond(c, cond, name.value)))
  }

  // ---------------------------------------------------------------------------------------------
  // The database
  // ---------------------------------------------------------------------------------------------

  datatype Output = Rows(rows: seq<seq<Val>>) | Affected(count: nat) | Rejected(error: Error)

  function Table(db: Database, name: string): seq<Row> {
    if name in db then db[name] else []
  }

  function Matching(d: Dialect, table: string, rows: seq<Row>, args: seq<Val>, cond: Option<Expr>): seq<Row> {
    if rows == [] then []
    else
      var rest := Matching(d, table, rows[1..], args, cond);
      if Sat(d, table, rows[0], args, cond) then [rows[0]] + rest else rest
  }

  function Remaining(d: Dialect, table: string, rows: seq<Row>, args: seq<Val>, cond: Option<Expr>): seq<Row> {
    if rows == [] then []
    else
      var rest := Remaining(d, table, rows[1..], args, cond);
      if Sat(d, table, rows[0], args, cond) then rest else [rows[0]] + rest
  }

  function Assign(d: Dialect, table: string, row: Row, args: seq<Val>, sets: seq<(string, Expr)>): Row {
    if sets == [] then row
    else
      var n := |sets| - 1;
      Assign(d, table, row, args, sets[..n])[sets[n].0 := EvalRow(d, table, row, args, sets[n].1)]
  }

  function Updated(d: Dialect, table: string, rows: seq<Row>, args: seq<Val>, sets: seq<(string, Expr)>,
                   cond: Option<Expr>)
    : seq<Row>
  {
    if rows == [] then []
    else
      [if Sat(d, table, rows[0], args, cond) then Assign(d, table, rows[0], args, sets) else rows[0]]
      + Updated(d, table, rows[1..], args, sets, cond)
  }

  function Project(d: Dialect, table: string, rows: seq<Row>, args: seq<Val>, items: seq<Expr>): seq<seq<Val>> {
    if rows == [] then []
    else
      [seq(|items|, k requires 0 <= k < |items| => EvalRow(d, table, rows[0], args, items[k]))]
      + Project(d, table, rows[1..], args, items)
  }

  function NewRow(d: Dialect, columns: seq<string>, exprs: seq<Expr>, args: seq<Val>): Row
    requires |columns| == |exprs|
  {
    if columns == [] then map[]
    else
      var n := |columns| - 1;
      NewRow(d, columns[..n], exprs[..n], args)[columns[n] := EvalRow(d, "", map[], args, exprs[n])]
  }

  function NewRows(d: Dialect, columns: seq<string>, values: seq<seq<Expr>>, args: seq<Val>): seq<Row> {
    if values == [] then []
    else
      (if |columns| == |values[0]| then [NewRow(d, columns, values[0], args)] else [])
      + NewRows(d, columns, values[1..], args)
  }

  function Exec(d: Dialect, db: Database, s: Stmt, args: seq<Val>): (Database, Output) {
    var rows := Table(db, s.table);
    match s
    case Insert(t, columns, values) =>
      var added := NewRows(d, columns, values, args);
      (db[t := rows + added], Affected(|added|))
    case Select(t, items, cond) =>
      (db, Rows(Project(d, t, Matching(d, t, rows, args, cond), args, items)))
    case Update(t, sets, cond) =>
      (db[t := Updated(d, t, rows, args, sets, cond)], Affected(|Matching(d, t, rows, args, cond)|))
    case Delete(t, cond) =>
      (db[t := Remaining(d, t, rows, args, cond)], Affected(|Matching(d, t, rows, args, cond)|))
  }

  /** What a client of the sharded table sees. */
  function ExecSharded(c: Config, d: Dialect, db: Database, s: Stmt, args: seq<Val>): (Database, Output) {
    var routed := Dispatch(c, s, args);
    if routed.Err? then (db, Rejected(routed.error)) else Exec(d, db, routed.value, args)
  }
}
