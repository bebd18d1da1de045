/** The SQL expression trees the sharding plugin walks and rewrites, and the two table renamings.

    Meaning is given by an arbitrary interpretation of names, literals and operators, so the
    results hold for any SQL dialect, three-valued logic included. */
module Sql {
  datatype Op = Eq | Ne | Lt | Le | Gt | Ge | And | Or | Other(name: string)

  datatype Expr =
    | Ident(name: string)
    | Ref(table: string, column: string)
    | Bind(pos: nat)
    | StrLit(text: string)
    | NumLit(text: string)
    | NullLit
    | Paren(x: Expr)
    | Unary(un: string, x: Expr)
    | Binary(op: Op, x: Expr, y: Expr)
    | Range(x: Expr, y: Expr)
    | List(items: seq<Expr>)
    | Call(fn: string, items: seq<Expr>)

  datatype Interp<!V> = Interp(
    ident: string -> V,
    ref: (string, string) -> V,
    bind: nat -> V,
    str: string -> V,
    num: string -> V,
    nul: V,
    un: (string, V) -> V,
    bin: (Op, V, V) -> V,
    range: (V, V) -> V,
    list: seq<V> -> V,
    call: (string, seq<V>) -> V)

  function Eval<V>(e: Expr, i: Interp<V>): V
    decreases e
  {
    match e
    case Ident(n) => i.ident(n)
    case Ref(t, c) => i.ref(t, c)
    case Bind(p) => i.bind(p)
    case StrLit(s) => i.str(s)
    case NumLit(s) => i.num(s)
    case NullLit => i.nul
    case Paren(x) => Eval(x, i)
    case Unary(un, x) => i.un(un, Eval(x, i))
    case Binary(op, x, y) => i.bin(op, Eval(x, i), Eval(y, i))
    case Range(x, y) => i.range(Eval(x, i), Eval(y, i))
    case List(xs) => i.list(seq(|xs|, k requires 0 <= k < |xs| => Eval(xs[k], i)))
    case Call(f, xs) => i.call(f, seq(|xs|, k requires 0 <= k < |xs| => Eval(xs[k], i)))
  }

  /** No qualified reference to the table anywhere in the tree. */
  predicate NoRef(e: Expr, table: string)
    decreases e
  {
    match e
    case Ref(t, _) => t != table
    case Paren(x) => NoRef(x, table)
    case Unary(_, x) => NoRef(x, table)
    case Binary(_, x, y) => NoRef(x, table) && NoRef(y, table)
    case Range(x, y) => NoRef(x, table) && NoRef(y, table)
    case List(xs) => forall k :: 0 <= k < |xs| ==> NoRef(xs[k], table)
    case Call(_, xs) => forall k :: 0 <= k < |xs| ==> NoRef(xs[k], table)
    case _ => true
  }

  /** replaceConstraint: every qualified reference to the old name gets the new one. */
  function RenameAll(e: Expr, from: string, to: string): Expr
    decreases e
  {
    match e
    case Ref(t, c) => if t == from then Ref(to, c) else e
    case Paren(x) => Paren(RenameAll(x, from, to))
    case Unary(un, x) => Unary(un, RenameAll(x, from, to))
    case Binary(op, x, y) => Binary(op, RenameAll(x, from, to), RenameAll(y, from, to))
    case Range(x, y) => Range(RenameAll(x, from, to), RenameAll(y, from, to))
    case List(xs) => List(seq(|xs|, k requires 0 <= k < |xs| => RenameAll(xs[k], from, to)))
    case Call(f, xs) => Call(f, seq(|xs|, k requires 0 <= k < |xs| => RenameAll(xs[k], from, to)))
    case _ => e
  }

  /** replaceCondition: the visitor looks at binary nodes only and renames their left operand. */
  function RenameLeft(e: Expr, from: string, to: string): Expr
    decreases e
  {
    match e
    case Paren(x) => Paren(RenameLeft(x, from, to))
    case Unary(un, x) => Unary(un, RenameLeft(x, from, to))
    case Binary(op, x, y) =>
      var left := if x.Ref? && x.table == from then Ref(to, x.column) else RenameLeft(x, from, to);
      Binary(op, left, RenameLeft(y, from, to))
    case Range(x, y) => Range(RenameLeft(x, from, to), RenameLeft(y, from, to))
    case List(xs) => List(seq(|xs|, k requires 0 <= k < |xs| => RenameLeft(xs[k], from, to)))
    case Call(f, xs) => Call(f, seq(|xs|, k requires 0 <= k < |xs| => RenameLeft(xs[k], from, to)))
    case _ => e
  }

  /** Every qualified reference to the table is the left operand of a binary node. */
  predicate LeftOnly(e: Expr, table: string)
    decreases e
  {
    match e
    case Ref(t, _) => t != table
    case Paren(x) => LeftOnly(x, table)
    case Unary(_, x) => LeftOnly(x, table)
    case Binary(_, x, y) => (x.Ref? || LeftOnly(x, table)) && LeftOnly(y, table)
    case Range(x, y) => LeftOnly(x, table) && LeftOnly(y, table)
    case List(xs) => forall k :: 0 <= k < |xs| ==> LeftOnly(xs[k], table)
    case Call(_, xs) => forall k :: 0 <= k < |xs| ==> LeftOnly(xs[k], table)
    case _ => true
  }

  /** j reads the renamed table where i read the old one and agrees with i on every other table;
      what j says about the old name is left open. */
  ghost predicate Renames<V(!new)>(i: Interp<V>, j: Interp<V>, from: string, to: string) {
    && j == i.(ref := j.ref)
    && (forall c :: j.ref(to, c) == i.ref(from, c))
    && (forall t, c :: t != from && t != to ==> j.ref(t, c) == i.ref(t, c))
  }

  /** Renaming preserves meaning when the new name is fresh. */
  lemma {:induction false} RenameAllMeaning<V(!new)>(e: Expr, from: string, to: string, i: Interp<V>, j: Interp<V>)
    requires NoRef(e, to) && Renames(i, j, from, to)
    ensures Eval(RenameAll(e, from, to), j) == Eval(e, i)
    decreases e
  {
    match e
    case Paren(x) => RenameAllMeaning(x, from, to, i, j);
    case Unary(_, x) => RenameAllMeaning(x, from, to, i, j);
    case Binary(_, x, y) =>
      RenameAllMeaning(x, from, to, i, j);
      RenameAllMeaning(y, from, to, i, j);
    case Range(x, y) =>
      RenameAllMeaning(x, from, to, i, j);
      RenameAllMeaning(y, from, to, i, j);
    case List(xs) =>
      forall k | 0 <= k < |xs| ensures Eval(RenameAll(xs[k], from, to), j) == Eval(xs[k], i) {
        RenameAllMeaning(xs[k], from, to, i, j);
      }
      EvalItems(xs, from, to, i, j);
    case Call(_, xs) =>
      forall k | 0 <= k < |xs| ensures Eval(RenameAll(xs[k], from, to), j) == Eval(xs[k], i) {
        RenameAllMeaning(xs[k], from, to, i, j);
      }
      EvalItems(xs, from, to, i, j);
    case _ =>
  }

  lemma EvalItems<V>(xs: seq<Expr>, from: string, to: string, i: Interp<V>, j: Interp<V>)
    requires forall k :: 0 <= k < |xs| ==> Eval(RenameAll(xs[k], from, to), j) == Eval(xs[k], i)
    ensures var ys := seq(|xs|, k requires 0 <= k < |xs| => RenameAll(xs[k], from, to));
            seq(|ys|, k requires 0 <= k < |ys| => Eval(ys[k], j))
            == seq(|xs|, k requires 0 <= k < |xs| => Eval(xs[k], i))
  {
  }

  /** No reference to the old name remains, and renaming back restores the tree. */
  lemma {:induction false} RenameAllComplete(e: Expr, from: string, to: string)
    requires from != to && NoRef(e, to)
    ensures NoRef(RenameAll(e, from, to), from)
    ensures RenameAll(RenameAll(e, from, to), to, from) == e
    decreases e
  {
    match e
    case Paren(x) => RenameAllComplete(x, from, to);
    case Unary(_, x) => RenameAllComplete(x, from, to);
    case Binary(_, x, y) =>
      RenameAllComplete(x, from, to);
      RenameAllComplete(y, from, to);
    case Range(x, y) =>
      RenameAllComplete(x, from, to);
      RenameAllComplete(y, from, to);
    case List(xs) =>
      forall k | 0 <= k < |xs|
        ensures NoRef(RenameAll(xs[k], from, to), from) && RenameAll(RenameAll(xs[k], from, to), to, from) == xs[k]
      {
        RenameAllComplete(xs[k], from, to);
      }
      assert RenameAll(RenameAll(e, from, to), to, from).items == xs;
    case Call(_, xs) =>
      forall k | 0 <= k < |xs|
        ensures NoRef(RenameAll(xs[k], from, to), from) && RenameAll(RenameAll(xs[k], from, to), to, from) == xs[k]
      {
        RenameAllComplete(xs[k], from, to);
      }
      assert RenameAll(RenameAll(e, from, to), to, from).items == xs;
    case _ =>
  }

  /** replaceCondition renames everything exactly when the references sit on the left of binary nodes;
      otherwise a reference to the old name survives. */
  lemma {:induction false} RenameLeftExact(e: Expr, from: string, to: string)
    requires from != to
    ensures LeftOnly(e, from) ==> RenameLeft(e, from, to) == RenameAll(e, from, to)
    ensures NoRef(RenameLeft(e, from, to), from) <==> LeftOnly(e, from)
    decreases e, 1
  {
    match e
    case Paren(x) => RenameLeftExact(x, from, to);
    case Unary(_, x) => RenameLeftExact(x, from, to);
    case Binary(_, x, y) =>
      RenameLeftExact(x, from, to);
      RenameLeftExact(y, from, to);
    case Range(x, y) =>
      RenameLeftExact(x, from, to);
      RenameLeftExact(y, from, to);
    case List(xs) => RenameLeftEach(xs, from, to);
    case Call(_, xs) => RenameLeftEach(xs, from, to);
    case _ =>
  }

  lemma RenameLeftEach(xs: seq<Expr>, from: string, to: string)
    requires from != to
    ensures var ys := seq(|xs|, k requires 0 <= k < |xs| => RenameLeft(xs[k], from, to));
            && ((forall k :: 0 <= k < |xs| ==> LeftOnly(xs[k], from)) ==>
                  ys == seq(|xs|, k requires 0 <= k < |xs| => RenameAll(xs[k], from, to)))
            && ((forall k :: 0 <= k < |ys| ==> NoRef(ys[k], from))
                <==> (forall k :: 0 <= k < |xs| ==> LeftOnly(xs[k], from)))
    decreases xs, 0
  {
    forall k | 0 <= k < |xs|
      ensures LeftOnly(xs[k], from) ==> RenameLeft(xs[k], from, to) == RenameAll(xs[k], from, to)
      ensures NoRef(RenameLeft(xs[k], from, to), from) <==> LeftOnly(xs[k], from)
    {
      RenameLeftExact(xs[k], from, to);
    }
    RenameLeftItems(xs, from, to);
  }

  /** A reference on the right survives: in `1 = t.k` the old name stays. */
  lemma RightSurvives(t: string, k: string, to: string)
    requires t != to
    ensures var e := Binary(Eq, NumLit("1"), Ref(t, k)); RenameLeft(e, t, to) == e && !NoRef(e, t)
  {
  }

  lemma RenameLeftItems(xs: seq<Expr>, from: string, to: string)
    requires forall k :: 0 <= k < |xs| ==>
               && (LeftOnly(xs[k], from) ==> RenameLeft(xs[k], from, to) == RenameAll(xs[k], from, to))
               && (NoRef(RenameLeft(xs[k], from, to), from) <==> LeftOnly(xs[k], from))
    ensures var ys := seq(|xs|, k requires 0 <= k < |xs| => RenameLeft(xs[k], from, to));
            var zs := seq(|xs|, k requires 0 <= k < |xs| => RenameAll(xs[k], from, to));
            && ((forall k :: 0 <= k < |xs| ==> LeftOnly(xs[k], from)) ==> ys == zs)
            && ((forall k :: 0 <= k < |ys| ==> NoRef(ys[k], from))
                <==> (forall k :: 0 <= k < |xs| ==> LeftOnly(xs[k], from)))
  {
    var ys := seq(|xs|, k requires 0 <= k < |xs| => RenameLeft(xs[k], from, to));
    if forall k :: 0 <= k < |ys| ==> NoRef(ys[k], from) {
      forall k | 0 <= k < |xs| ensures LeftOnly(xs[k], from) {
        assert NoRef(ys[k], from);
      }
    }
  }

  lemma {:induction false} RenameAllIdentity(e: Expr, from: string, to: string)
    requires NoRef(e, from)
    ensures RenameAll(e, from, to) == e
    decreases e
  {
    match e
    case Paren(x) => RenameAllIdentity(x, from, to);
    case Unary(_, x) => RenameAllIdentity(x, from, to);
    case Binary(_, x, y) =>
      RenameAllIdentity(x, from, to);
      RenameAllIdentity(y, from, to);
    case Range(x, y) =>
      RenameAllIdentity(x, from, to);
      RenameAllIdentity(y, from, to);
    case List(xs) =>
      forall k | 0 <= k < |xs| ensures RenameAll(xs[k], from, to) == xs[k] { RenameAllIdentity(xs[k], from, to); }
      assert RenameAll(e, from, to).items == xs;
    case Call(_, xs) =>
      forall k | 0 <= k < |xs| ensures RenameAll(xs[k], from, to) == xs[k] { RenameAllIdentity(xs[k], from, to); }
      assert RenameAll(e, from, to).items == xs;
    case _ =>
  }
}
