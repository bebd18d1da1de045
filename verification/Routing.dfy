/** What the router reads from a statement and what it refuses, said of the statement's own nodes,
    columns and rows: which equation decides, which error wins, when a row still needs an id. */
module ShardingRouting {
  import opened Sql
  import opened Sharding
  import opened Options

  // ---------------------------------------------------------------------------------------------
  // Conditions
  // ---------------------------------------------------------------------------------------------

  /** The nodes of an expression: each before its operands, the operands from left to right. */
  function Nodes(e: Expr): seq<Expr>
    decreases e, 1
  {
    match e
    case Paren(x) => [e] + Nodes(x)
    case Unary(_, x) => [e] + Nodes(x)
    case Binary(_, x, y) => [e] + (Nodes(x) + Nodes(y))
    case Range(x, y) => [e] + (Nodes(x) + Nodes(y))
    case List(xs) => [e] + AllNodes(xs)
    case Call(_, xs) => [e] + AllNodes(xs)
    case _ => [e]
  }

  function AllNodes(xs: seq<Expr>): seq<Expr>
    decreases xs, 0
  {
    if xs == [] then [] else Nodes(xs[0]) + AllNodes(xs[1..])
  }

  function VisitAll(ns: seq<Expr>, key: string, table: string, args: seq<Val>, w: Walked): Walked {
    if ns == [] || w.failed then w else VisitAll(ns[1..], key, table, args, Visit(ns[0], key, table, args, w))
  }

  lemma {:induction false} VisitConcat(a: seq<Expr>, b: seq<Expr>, key: string, table: string, args: seq<Val>,
                                       w: Walked)
    ensures VisitAll(a + b, key, table, args, w)
            == VisitAll(b, key, table, args, VisitAll(a, key, table, args, w))
    decreases |a|
  {
    if a == [] {
      assert a + b == b;
    } else if !w.failed {
      assert (a + b)[1..] == a[1..] + b;
      VisitConcat(a[1..], b, key, table, args, Visit(a[0], key, table, args, w));
    }
  }

  lemma VisitHead(e: Expr, rest: seq<Expr>, key: string, table: string, args: seq<Val>, w: Walked)
    requires !w.failed
    ensures VisitAll([e] + rest, key, table, args, w)
            == VisitAll(rest, key, table, args, Visit(e, key, table, args, w))
  {
    assert ([e] + rest)[1..] == rest;
  }

  /** The walk sees the nodes in that order. */
  lemma {:induction false} WalkVisits(e: Expr, key: string, table: string, args: seq<Val>, w: Walked)
    ensures Walk(e, key, table, args, w) == VisitAll(Nodes(e), key, table, args, w)
    decreases e, 1
  {
    if !w.failed {
      var w1 := Visit(e, key, table, args, w);
      match e
      case Paren(x) =>
        WalkVisits(x, key, table, args, w1);
        VisitHead(e, Nodes(x), key, table, args, w);
      case Unary(_, x) =>
        WalkVisits(x, key, table, args, w1);
        VisitHead(e, Nodes(x), key, table, args, w);
      case Binary(_, x, y) => WalkPair(e, x, y, key, table, args, w);
      case Range(x, y) => WalkPair(e, x, y, key, table, args, w);
      case List(xs) =>
        WalkVisitsAll(xs, key, table, args, w1);
        VisitHead(e, AllNodes(xs), key, table, args, w);
      case Call(_, xs) =>
        WalkVisitsAll(xs, key, table, args, w1);
        VisitHead(e, AllNodes(xs), key, table, args, w);
      case _ =>
        VisitHead(e, [], key, table, args, w);
        assert [e] + [] == [e];
    }
  }

  lemma {:induction false} WalkPair(e: Expr, x: Expr, y: Expr, key: string, table: string, args: seq<Val>, w: Walked)
    requires !w.failed && x < e && y < e
    ensures var w1 := Visit(e, key, table, args, w);
            VisitAll([e] + (Nodes(x) + Nodes(y)), key, table, args, w)
            == if w1.failed then w1 else Walk(y, key, table, args, Walk(x, key, table, args, w1))
    decreases e, 0
  {
    var w1 := Visit(e, key, table, args, w);
    VisitHead(e, Nodes(x) + Nodes(y), key, table, args, w);
    if !w1.failed {
      VisitConcat(Nodes(x), Nodes(y), key, table, args, w1);
      WalkVisits(x, key, table, args, w1);
      WalkVisits(y, key, table, args, Walk(x, key, table, args, w1));
    }
  }

  lemma {:induction false} WalkVisitsAll(xs: seq<Expr>, key: string, table: string, args: seq<Val>, w: Walked)
    ensures WalkAll(xs, key, table, args, w) == VisitAll(AllNodes(xs), key, table, args, w)
    decreases xs, 0
  {
    if xs != [] {
      WalkVisits(xs[0], key, table, args, w);
      VisitConcat(Nodes(xs[0]), AllNodes(xs[1..]), key, table, args, w);
      WalkVisitsAll(xs[1..], key, table, args, Walk(xs[0], key, table, args, w));
    }
  }

  /** An equation counts for the key unless its left side is another column. */
  lemma MatchesExactly(n: Expr, key: string, table: string)
    ensures Matches(n, key, table) <==>
            && n.Binary? && n.op == Eq
            && (forall c :: n.x == Ident(c) ==> c == key)
            && (forall t, c :: n.x == Ref(t, c) ==> t == table && c == key)
  {
  }

  /** No node is taken for an equation on the key. */
  predicate Unmatched(ns: seq<Expr>, key: string, table: string) {
    forall i :: 0 <= i < |ns| ==> !Matches(ns[i], key, table)
  }

  /** Some equation on the key compares it with something that is not a constant. */
  predicate Inexact(ns: seq<Expr>, key: string, table: string) {
    exists i :: 0 <= i < |ns| && Matches(ns[i], key, table) && !IsConst(ns[i].y)
  }

  /** Node i is the last equation on the key. */
  predicate Last(ns: seq<Expr>, key: string, table: string, i: int) {
    && 0 <= i < |ns| && Matches(ns[i], key, table)
    && (forall j :: i < j < |ns| ==> !Matches(ns[j], key, table))
  }

  /** Visiting nodes fails exactly when an equation on the key has no constant, changes nothing where
      no node is one, and otherwise ends with the constant of the last one. */
  lemma {:induction false} VisitExact(ns: seq<Expr>, key: string, table: string, args: seq<Val>, w: Walked)
    requires !w.failed
    ensures VisitAll(ns, key, table, args, w).failed <==> Inexact(ns, key, table)
    ensures Unmatched(ns, key, table) ==> VisitAll(ns, key, table, args, w) == w
    ensures forall i :: !Inexact(ns, key, table) && Last(ns, key, table, i) ==>
              VisitAll(ns, key, table, args, w).found == Some(RouteVal(ns[i].y, args))
    decreases |ns|
  {
    if ns != [] {
      var w1 := Visit(ns[0], key, table, args, w);
      if w1.failed {
        assert Matches(ns[0], key, table) && !IsConst(ns[0].y);
      } else {
        VisitExact(ns[1..], key, table, args, w1);
        LaterNodes(ns, key, table);
      }
    }
  }

  lemma LaterNodes(ns: seq<Expr>, key: string, table: string)
    requires ns != []
    ensures Unmatched(ns, key, table) <==> !Matches(ns[0], key, table) && Unmatched(ns[1..], key, table)
    ensures Inexact(ns, key, table)
       <==> (Matches(ns[0], key, table) && !IsConst(ns[0].y)) || Inexact(ns[1..], key, table)
    ensures forall i :: Last(ns, key, table, i) ==>
              if i == 0 then Unmatched(ns[1..], key, table) else Last(ns[1..], key, table, i - 1)
  {
    assert forall i :: 0 < i < |ns| ==> ns[i] == ns[1..][i - 1];
    if Inexact(ns[1..], key, table) {
      var i :| 0 <= i < |ns[1..]| && Matches(ns[1..][i], key, table) && !IsConst(ns[1..][i].y);
      assert ns[i + 1] == ns[1..][i];
    }
    forall i | Last(ns, key, table, i)
      ensures if i == 0 then Unmatched(ns[1..], key, table) else Last(ns[1..], key, table, i - 1)
    {
      assert forall j :: 0 <= j < |ns[1..]| ==> ns[1..][j] == ns[j + 1];
    }
  }

  lemma {:induction false} LastOf(ns: seq<Expr>, key: string, table: string) returns (i: nat)
    requires !Unmatched(ns, key, table)
    ensures Last(ns, key, table, i)
    decreases |ns|
  {
    i := |ns| - 1;
    if !Matches(ns[i], key, table) {
      i := LastOf(ns[..i], key, table);
    }
  }

  /** What nonInsertValue answers, said of the condition's nodes. */
  ghost predicate ReadFrom(cond: Option<Expr>, key: string, table: string, args: seq<Val>, r: Outcome<Val>) {
    if cond.None? || Unmatched(Nodes(cond.value), key, table) then r == Err(MissingShardingKey)
    else if Inexact(Nodes(cond.value), key, table) then r == Err(NotImplemented)
    else forall i :: Last(Nodes(cond.value), key, table, i) ==> r == Ok(RouteVal(Nodes(cond.value)[i].y, args))
  }

  lemma ValueExact(cond: Option<Expr>, key: string, table: string, args: seq<Val>)
    ensures ReadFrom(cond, key, table, args, NonInsertValue(cond, key, table, args))
  {
    if cond.Some? {
      var ns, w := Nodes(cond.value), Walked(None, false);
      WalkVisits(cond.value, key, table, args, w);
      VisitExact(ns, key, table, args, w);
      if !Unmatched(ns, key, table) && !Inexact(ns, key, table) {
        var i := LastOf(ns, key, table);
      }
    }
  }

  /** The values of all keys in order, or the error of the first key that has none. */
  ghost predicate KeysRead(keys: seq<string>, cond: Option<Expr>, table: string, args: seq<Val>,
                           r: Outcome<seq<Val>>)
  {
    match r
    case Ok(vs) =>
      |vs| == |keys| && forall k :: 0 <= k < |keys| ==> NonInsertValue(cond, keys[k], table, args) == Ok(vs[k])
    case Err(e) =>
      exists k :: && 0 <= k < |keys| && NonInsertValue(cond, keys[k], table, args) == Err(e)
                  && AllRead(keys[..k], cond, table, args)
  }

  predicate AllRead(keys: seq<string>, cond: Option<Expr>, table: string, args: seq<Val>) {
    forall j :: 0 <= j < |keys| ==> NonInsertValue(cond, keys[j], table, args).Ok?
  }

  lemma KeysFailLater(keys: seq<string>, cond: Option<Expr>, table: string, args: seq<Val>, e: Error)
    requires keys != [] && NonInsertValue(cond, keys[0], table, args).Ok?
    requires KeysRead(keys[1..], cond, table, args, Err(e))
    ensures KeysRead(keys, cond, table, args, Err(e))
  {
    var k :| && 0 <= k < |keys[1..]| && NonInsertValue(cond, keys[1..][k], table, args) == Err(e)
             && AllRead(keys[1..][..k], cond, table, args);
    assert keys[1..][k] == keys[k + 1];
    assert keys[..k + 1] == [keys[0]] + keys[1..][..k];
  }

  lemma {:induction false} KeyValuesExact(keys: seq<string>, cond: Option<Expr>, table: string, args: seq<Val>)
    ensures KeysRead(keys, cond, table, args, KeyValues(keys, cond, table, args))
    decreases |keys|
  {
    if keys != [] {
      KeyValuesExact(keys[1..], cond, table, args);
      var v, rest := NonInsertValue(cond, keys[0], table, args), KeyValues(keys[1..], cond, table, args);
      if v.Err? {
        assert AllRead(keys[..0], cond, table, args);
      } else if rest.Err? {
        KeysFailLater(keys, cond, table, args, rest.error);
      }
    }
  }

  /** A constant is routed by the value it has where a number literal stands for its own text, and is
      stored as the value the database gives it. */
  lemma ConstantsEvaluate(d: Dialect, table: string, row: Row, args: seq<Val>, e: Expr)
    requires IsConst(e)
    ensures ConstVal(d, e, args) == EvalRow(d, table, row, args, e)
    ensures RouteVal(e, args) == EvalRow(d.(num := s => StrV(s)), table, row, args, e)
  {
  }

  // ---------------------------------------------------------------------------------------------
  // Inserted rows
  // ---------------------------------------------------------------------------------------------

  /** Column i is the first with that name. */
  predicate First(columns: seq<string>, key: string, i: int) {
    0 <= i < |columns| && columns[i] == key && key !in columns[..i]
  }

  /** The row's value for the key, from a constant; a primary key must be a non-zero id. */
  ghost predicate Supplies(c: Config, columns: seq<string>, exprs: seq<Expr>, args: seq<Val>, key: string, v: Val)
    requires |columns| == |exprs|
  {
    exists i :: && First(columns, key, i) && IsConst(exprs[i]) && v == RouteVal(exprs[i], args)
                && (c.pk == Some(key) ==> c.toId(v).Some? && c.toId(v).value != 0)
  }

  /** A primary key the row leaves out, or gives as zero: the id is still to be made. */
  ghost predicate Awaits(c: Config, columns: seq<string>, exprs: seq<Expr>, args: seq<Val>, key: string)
    requires |columns| == |exprs|
  {
    && c.pk == Some(key)
    && (key !in columns
        || exists i :: First(columns, key, i) && IsConst(exprs[i]) && c.toId(RouteVal(exprs[i], args)) == Some(0))
  }

  ghost predicate Refuses(c: Config, columns: seq<string>, exprs: seq<Expr>, args: seq<Val>, key: string, e: Error)
    requires |columns| == |exprs|
  {
    match e
    case MissingShardingKey => key !in columns && c.pk != Some(key)
    case NotImplemented => exists i :: First(columns, key, i) && !IsConst(exprs[i])
    case InvalidId =>
      && c.pk == Some(key)
      && exists i :: First(columns, key, i) && IsConst(exprs[i]) && c.toId(RouteVal(exprs[i], args)).None?
    case _ => false
  }

  /** The first refused key decides the error; without one every key supplies its value, in the keys'
      order, or awaits an id. */
  ghost predicate RowRead(c: Config, keys: seq<string>, columns: seq<string>, exprs: seq<Expr>, args: seq<Val>,
                          r: Outcome<seq<Val>>)
    requires |columns| == |exprs|
  {
    match r
    case Err(e) =>
      exists k :: && 0 <= k < |keys| && Refuses(c, columns, exprs, args, keys[k], e)
                  && forall j, e' :: 0 <= j < k ==> !Refuses(c, columns, exprs, args, keys[j], e')
    case Ok(vs) =>
      && (forall k, e :: 0 <= k < |keys| ==> !Refuses(c, columns, exprs, args, keys[k], e))
      && |vs| <= |keys|
      && (|vs| < |keys| <==> exists k :: 0 <= k < |keys| && Awaits(c, columns, exprs, args, keys[k]))
      && (|vs| == |keys| ==> forall k :: 0 <= k < |keys| ==> Supplies(c, columns, exprs, args, keys[k], vs[k]))
  }

  lemma FirstFound(columns: seq<string>, key: string)
    ensures Find(columns, key) == |columns| <==> key !in columns
    ensures Find(columns, key) < |columns| ==> First(columns, key, Find(columns, key))
    ensures forall i :: First(columns, key, i) ==> i == Find(columns, key)
  {
    var f := Find(columns, key);
    if f < |columns| { assert columns[f] in columns; }
  }

  lemma OneKey(c: Config, columns: seq<string>, exprs: seq<Expr>, args: seq<Val>, key: string)
    requires |columns| == |exprs|
    ensures RowRead(c, [key], columns, exprs, args, InsertKey(c, key, columns, exprs, args))
  {
    FirstFound(columns, key);
    var r := InsertKey(c, key, columns, exprs, args);
    assert [key][0] == key;
    if r.Err? {
      assert Refuses(c, columns, exprs, args, key, r.error);
    } else {
      assert forall e :: !Refuses(c, columns, exprs, args, key, e);
      assert r.value == [] <==> Awaits(c, columns, exprs, args, key);
    }
  }

  lemma {:induction false} RowExact(c: Config, keys: seq<string>, columns: seq<string>, exprs: seq<Expr>,
                                    args: seq<Val>)
    requires |columns| == |exprs|
    ensures RowRead(c, keys, columns, exprs, args, InsertValue(c, keys, columns, exprs, args))
    decreases |keys|
  {
    if keys != [] {
      OneKey(c, columns, exprs, args, keys[0]);
      RowExact(c, keys[1..], columns, exprs, args);
      RowCons(c, keys, columns, exprs, args, InsertKey(c, keys[0], columns, exprs, args),
              InsertValue(c, keys[1..], columns, exprs, args));
    }
  }

  function Both(r: Outcome<seq<Val>>, rest: Outcome<seq<Val>>): Outcome<seq<Val>> {
    if r.Err? then r else if rest.Err? then rest else Ok(r.value + rest.value)
  }

  lemma RowCons(c: Config, keys: seq<string>, columns: seq<string>, exprs: seq<Expr>, args: seq<Val>,
                r: Outcome<seq<Val>>, rest: Outcome<seq<Val>>)
    requires |columns| == |exprs| && keys != []
    requires RowRead(c, [keys[0]], columns, exprs, args, r) && RowRead(c, keys[1..], columns, exprs, args, rest)
    ensures RowRead(c, keys, columns, exprs, args, Both(r, rest))
  {
    assert forall k :: 0 < k < |keys| ==> keys[k] == keys[1..][k - 1];
    assert [keys[0]][0] == keys[0];
  }

  // ---------------------------------------------------------------------------------------------
  // Statements
  // ---------------------------------------------------------------------------------------------

  ghost predicate RowRoutes(c: Config, columns: seq<string>, exprs: seq<Expr>, args: seq<Val>, s: string) {
    && |columns| == |exprs|
    && exists vs :: |vs| == |c.keys| && RowRead(c, c.keys, columns, exprs, args, Ok(vs)) && s == c.shard(vs)
  }

  ghost predicate RowRefused(c: Config, columns: seq<string>, exprs: seq<Expr>, args: seq<Val>, e: Error) {
    if |columns| != |exprs| then e == ColumnMismatch
    else
      || RowRead(c, c.keys, columns, exprs, args, Err(e))
      || (e == NeedsId && exists vs :: |vs| < |c.keys| && RowRead(c, c.keys, columns, exprs, args, Ok(vs)))
  }

  /** A row may follow rows of its own suffix, or of a blank one. */
  predicate Follows(before: string, s: string) { before == "" || before == s }

  predicate Chained(suffix: string, ss: seq<string>) {
    && (ss != [] ==> Follows(suffix, ss[0]))
    && (forall r :: 0 < r < |ss| ==> Follows(ss[r - 1], ss[r]))
  }

  /** The suffix the rows before leave. */
  function After(suffix: string, ss: seq<string>): string {
    if ss == [] then suffix else ss[|ss| - 1]
  }

  /** One row of an INSERT: its own suffix, or why it is refused. */
  lemma RowDecides(c: Config, columns: seq<string>, exprs: seq<Expr>, args: seq<Val>)
    requires |columns| == |exprs|
    ensures var v := InsertValue(c, c.keys, columns, exprs, args);
            if v.Err? then RowRefused(c, columns, exprs, args, v.error)
            else if |v.value| < |c.keys| then RowRefused(c, columns, exprs, args, NeedsId)
            else RowRoutes(c, columns, exprs, args, c.shard(v.value))
  {
    RowExact(c, c.keys, columns, exprs, args);
  }

  /** Row r cannot follow the accepted rows: it has no suffix, or another one. */
  ghost predicate Stops(c: Config, columns: seq<string>, exprs: seq<Expr>, args: seq<Val>, before: string, e: Error) {
    || RowRefused(c, columns, exprs, args, e)
    || (e == DiffSuffix && exists s :: RowRoutes(c, columns, exprs, args, s) && !Follows(before, s))
  }

  /** `ss` are the suffixes of the rows read before the INSERT is decided as `r`. */
  ghost predicate Decides(c: Config, columns: seq<string>, values: seq<seq<Expr>>, args: seq<Val>, suffix: string,
                          ss: seq<string>, r: Outcome<string>)
  {
    && Routed(c, columns, values, args, ss) && Chained(suffix, ss)
    && if r.Ok? then |ss| == |values| && r.value == After(suffix, ss)
       else |ss| < |values| && Stops(c, columns, values[|ss|], args, After(suffix, ss), r.error)
  }

  ghost predicate Routed(c: Config, columns: seq<string>, values: seq<seq<Expr>>, args: seq<Val>, ss: seq<string>) {
    |ss| <= |values| && forall k :: 0 <= k < |ss| ==> RowRoutes(c, columns, values[k], args, ss[k])
  }

  lemma RoutedNext(c: Config, columns: seq<string>, values: seq<seq<Expr>>, args: seq<Val>, s: string,
                   rest: seq<string>)
    requires values != [] && RowRoutes(c, columns, values[0], args, s)
    requires Routed(c, columns, values[1..], args, rest)
    ensures Routed(c, columns, values, args, [s] + rest)
  {
    var ss := [s] + rest;
    forall k | 0 <= k < |ss| ensures RowRoutes(c, columns, values[k], args, ss[k]) {
      if k > 0 { assert RowRoutes(c, columns, values[1..][k - 1], args, rest[k - 1]); }
    }
  }

  lemma ChainedNext(suffix: string, s: string, rest: seq<string>)
    requires Follows(suffix, s) && Chained(s, rest)
    ensures Chained(suffix, [s] + rest) && After(suffix, [s] + rest) == After(s, rest)
  {
    var ss := [s] + rest;
    forall k | 0 < k < |ss| ensures Follows(ss[k - 1], ss[k]) {
      assert ss[k] == rest[k - 1];
      if k > 1 { assert Follows(rest[k - 2], rest[k - 1]); }
    }
  }

  lemma DecidesNext(c: Config, columns: seq<string>, values: seq<seq<Expr>>, args: seq<Val>, suffix: string,
                    s: string, rest: seq<string>, r: Outcome<string>)
    requires values != [] && RowRoutes(c, columns, values[0], args, s) && Follows(suffix, s)
    requires Decides(c, columns, values[1..], args, s, rest, r)
    ensures Decides(c, columns, values, args, suffix, [s] + rest, r)
  {
    RoutedNext(c, columns, values, args, s, rest);
    ChainedNext(suffix, s, rest);
    if |rest| < |values[1..]| { assert values[|[s] + rest|] == values[1..][|rest|]; }
  }

  /** The rows of an INSERT are read in order.  A blank suffix is the only one another may follow; the
      first row that cannot be routed, or follows rows of another suffix, decides the error; and the
      statement goes where its last row goes. */
  lemma {:induction false} InsertExact(c: Config, columns: seq<string>, values: seq<seq<Expr>>, args: seq<Val>,
                                       suffix: string)
    returns (ss: seq<string>)
    ensures Decides(c, columns, values, args, suffix, ss, InsertSuffix(c, columns, values, args, suffix))
    decreases |values|
  {
    ss := [];
    if values != [] && |columns| == |values[0]| {
      var v := InsertValue(c, c.keys, columns, values[0], args);
      RowDecides(c, columns, values[0], args);
      if v.Ok? && |v.value| >= |c.keys| && Follows(suffix, c.shard(v.value)) {
        var rest := InsertExact(c, columns, values[1..], args, c.shard(v.value));
        DecidesNext(c, columns, values, args, suffix, c.shard(v.value), rest,
                    InsertSuffix(c, columns, values, args, suffix));
        ss := [c.shard(v.value)] + rest;
      } else {
        FirstStops(c, columns, values, args, suffix);
      }
    } else if values != [] {
      FirstStops(c, columns, values, args, suffix);
    }
  }

  lemma FirstStops(c: Config, columns: seq<string>, values: seq<seq<Expr>>, args: seq<Val>, suffix: string)
    requires values != []
    requires |columns| == |values[0]| ==>
               var v := InsertValue(c, c.keys, columns, values[0], args);
               v.Err? || |v.value| < |c.keys| || !Follows(suffix, c.shard(v.value))
    ensures var r := InsertSuffix(c, columns, values, args, suffix);
            r.Err? && Stops(c, columns, values[0], args, suffix, r.error)
  {
    if |columns| == |values[0]| { RowDecides(c, columns, values[0], args); }
  }

  /** A refused statement reports the error of its condition or of its rows, and changes nothing; no
      other statement is refused. */
  lemma RefusedChangesNothing(c: Config, d: Dialect, db: Database, s: Stmt, args: seq<Val>)
    ensures var (db', out) := ExecSharded(c, d, db, s, args);
            && (out.Rejected? ==> db' == db && s.table == c.table)
            && (s.table == c.table ==>
                  var read := if s.Insert? then InsertError(c, s, args) else ConditionError(c, s, args);
                  if read.Some? then out == Rejected(read.value) else !out.Rejected?)
  {
  }

  function InsertError(c: Config, s: Stmt, args: seq<Val>): Option<Error>
    requires s.Insert?
  {
    var r := InsertSuffix(c, s.columns, s.values, args, "");
    if r.Err? then Some(r.error) else None
  }

  function ConditionError(c: Config, s: Stmt, args: seq<Val>): Option<Error>
    requires !s.Insert?
  {
    var r := KeyValues(c.keys, s.cond, c.table, args);
    if r.Err? then Some(r.error) else None
  }
}
