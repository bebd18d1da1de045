/** Batch writes through the data access layer of a sharded table.

    A model is routed by the checksum of its sharding key values.  A batch insert groups the models by
    the suffix of the table they go to, splits each group, and every statement is checked once more for
    rows that belong to different tables.  The migrator creates the tables by the same format. */
module Dal {
  import opened Options
  import opened Sharding
  import Sql

  type Column = string

  /** The fields of a model; an absent one has no such column. */
  datatype Model = Model(serial: nat, fields: map<Column, int>)

  /** The sharding keys, which of them is the primary key, the number of shards, and the checksum of
      key values, which values that cannot be encoded do not have. */
  datatype Config = Config(keys: seq<Column>, primary: Option<Column>, shards: nat, checksum: seq<int> -> Option<nat>)

  // ---------------------------------------------------------------------------------------------
  // Suffixes
  // ---------------------------------------------------------------------------------------------

  function Digit(d: nat): char
    requires d < 10
  {
    ['0', '1', '2', '3', '4', '5', '6', '7', '8', '9'][d]
  }

  function Decimal(n: nat): string { if n < 10 then [Digit(n)] else Decimal(n / 10) + [Digit(n % 10)] }

  function PadLeft(s: string, width: nat): string
    decreases width - |s|
  {
    if |s| >= width then s else PadLeft("0" + s, width)
  }

  function Join(keys: seq<Column>): string {
    if keys == [] then "" else if |keys| == 1 then keys[0] else keys[0] + "_" + Join(keys[1..])
  }

  /** The width of the number in a suffix; None where the format gets no place for it. */
  function Width(shards: nat): Option<nat> {
    if shards < 10 then Some(1)
    else if shards < 100 then Some(2)
    else if shards < 1000 then Some(3)
    else if shards < 10000 then Some(4)
    else None
  }

  function Base(cfg: Config): string { "_" + Join(cfg.keys) }

  /** The formatted suffix.  A number the format has no place for is reported with its type. */
  function Format(cfg: Config, kind: string, i: nat): string {
    match Width(cfg.shards)
    case Some(w) => Base(cfg) + "_" + PadLeft(Decimal(i), w)
    case None => Base(cfg) + "%!(EXTRA " + kind + "=" + Decimal(i) + ")"
  }

  /** The suffixes the migrator creates tables for. */
  method Suffixes(cfg: Config) returns (all: seq<string>)
    ensures |all| == cfg.shards && forall i :: 0 <= i < cfg.shards ==> all[i] == Format(cfg, "int", i)
  {
    all := [];
    var i := 0;
    while i < cfg.shards
      invariant i <= cfg.shards && |all| == i && forall j :: 0 <= j < i ==> all[j] == Format(cfg, "int", j)
    {
      all := all + [Format(cfg, "int", i)];
      i := i + 1;
    }
  }

  function Route(cfg: Config, values: seq<int>): Outcome<string>
    requires cfg.shards > 0
  {
    match cfg.checksum(values)
    case None => Err(NotEncodable)
    case Some(sum) => Ok(Format(cfg, "uint64", sum % cfg.shards))
  }

  function DigitValue(ch: char): nat { if '0' <= ch <= '9' then ch as nat - '0' as nat else 0 }

  /** The number a decimal text stands for. */
  function Value(s: string): nat {
    if s == "" then 0 else Value(s[..|s| - 1]) * 10 + DigitValue(s[|s| - 1])
  }

  lemma DigitRoundTrip(d: nat)
    requires d < 10
    ensures DigitValue(Digit(d)) == d
  {
  }

  lemma {:induction false} DecimalRoundTrip(n: nat)
    ensures Value(Decimal(n)) == n
    decreases n
  {
    if n < 10 {
      DigitRoundTrip(n);
      assert Decimal(n)[..0] == "";
    } else {
      DigitRoundTrip(n % 10);
      DecimalRoundTrip(n / 10);
      var s := Decimal(n);
      assert s[..|s| - 1] == Decimal(n / 10);
    }
  }

  lemma {:induction false} LeadingZero(s: string)
    ensures Value("0" + s) == Value(s)
    decreases |s|
  {
    var z := "0" + s;
    if s == "" {
      assert z == "0" && z[..0] == "";
    } else {
      assert z[..|z| - 1] == "0" + s[..|s| - 1];
      LeadingZero(s[..|s| - 1]);
    }
  }

  lemma {:induction false} PadValue(s: string, width: nat)
    ensures Value(PadLeft(s, width)) == Value(s)
    decreases width - |s|
  {
    if |s| < width {
      LeadingZero(s);
      PadValue("0" + s, width);
    }
  }

  lemma NumbersDistinct(i: nat, j: nat, w: nat)
    requires PadLeft(Decimal(i), w) == PadLeft(Decimal(j), w)
    ensures i == j
  {
    DecimalRoundTrip(i);
    DecimalRoundTrip(j);
    PadValue(Decimal(i), w);
    PadValue(Decimal(j), w);
  }

  lemma SameTail(a: string, s: string, t: string)
    requires a + s == a + t
    ensures s == t
  {
    assert s == (a + s)[|a|..] && t == (a + t)[|a|..];
  }

  /** Up to 9999 shards, the width of the number is that of the number of shards. */
  lemma WidthExact(shards: nat)
    ensures Width(shards) == if shards < 10000 then Some(|Decimal(shards)|) else None
  {
    if 10 <= shards < 10000 {
      assert |Decimal(shards / 10)| == |Decimal(shards)| - 1;
      if shards >= 100 {
        assert |Decimal(shards / 10 / 10)| == |Decimal(shards / 10)| - 1;
        if shards >= 1000 { assert |Decimal(shards / 10 / 10 / 10)| == |Decimal(shards / 10 / 10)| - 1; }
      }
    }
  }

  lemma {:induction false} DecimalGrows(i: nat, n: nat)
    requires i <= n
    ensures |Decimal(i)| <= |Decimal(n)|
    decreases n
  {
    if i >= 10 { DecimalGrows(i / 10, n / 10); }
  }

  lemma {:induction false} PadLength(s: string, width: nat)
    ensures |PadLeft(s, width)| == if |s| >= width then |s| else width
    decreases width - |s|
  {
    if |s| < width { PadLength("0" + s, width); }
  }

  /** So all suffixes of a table with up to 9999 shards have the same length. */
  lemma SameLength(cfg: Config, kind: string, i: nat)
    requires i < cfg.shards < 10000
    ensures |Format(cfg, kind, i)| == |Base(cfg)| + 1 + |Decimal(cfg.shards)|
  {
    WidthExact(cfg.shards);
    DecimalGrows(i, cfg.shards);
    PadLength(Decimal(i), |Decimal(cfg.shards)|);
  }

  /** The keys are joined by underscores. */
  lemma {:induction false} JoinConcat(a: seq<Column>, b: seq<Column>)
    requires a != [] && b != []
    ensures Join(a + b) == Join(a) + "_" + Join(b) && (|a| == 1 ==> Join(a) == a[0])
    decreases |a|
  {
    if |a| == 1 {
      assert (a + b)[1..] == b;
    } else {
      assert (a + b)[1..] == a[1..] + b;
      JoinConcat(a[1..], b);
    }
  }

  /** Different shards have different suffixes. */
  lemma FormatDistinct(cfg: Config, kind: string, i: nat, j: nat)
    requires Format(cfg, kind, i) == Format(cfg, kind, j)
    ensures i == j
  {
    match Width(cfg.shards)
    case Some(w) =>
      SameTail(Base(cfg) + "_", PadLeft(Decimal(i), w), PadLeft(Decimal(j), w));
      NumbersDistinct(i, j, w);
    case None =>
      var head := Base(cfg) + "%!(EXTRA " + kind + "=";
      assert Format(cfg, kind, i) == head + (Decimal(i) + ")") && Format(cfg, kind, j) == head + (Decimal(j) + ")");
      SameTail(head, Decimal(i) + ")", Decimal(j) + ")");
      assert Decimal(i) == (Decimal(i) + ")")[..|Decimal(i) + ")"| - 1];
      assert Decimal(j) == (Decimal(j) + ")")[..|Decimal(j) + ")"| - 1];
      DecimalRoundTrip(i);
      DecimalRoundTrip(j);
  }

  /** Without a place in the format, no suffix a row is routed to is one the migrator knows. */
  lemma KindsDiffer(cfg: Config, i: nat, j: nat)
    requires Width(cfg.shards).None?
    ensures Format(cfg, "uint64", i) != Format(cfg, "int", j)
  {
    var a, b := Format(cfg, "uint64", i), Format(cfg, "int", j);
    var at := |Base(cfg)| + |"%!(EXTRA "|;
    assert a[at] == 'u' && b[at] == 'i';
  }

  /** Routed suffixes are the migrator's, which are pairwise distinct, if and only if there are fewer
      than 10000 shards. */
  lemma RoutedAreMigrated(cfg: Config, values: seq<int>, migrated: seq<string>)
    requires cfg.shards > 0 && Route(cfg, values).Ok?
    requires |migrated| == cfg.shards && forall i :: 0 <= i < cfg.shards ==> migrated[i] == Format(cfg, "int", i)
    ensures Route(cfg, values).value in migrated <==> cfg.shards < 10000
    ensures forall i, j :: 0 <= i < j < cfg.shards ==> migrated[i] != migrated[j]
  {
    forall i, j | 0 <= i < j < cfg.shards ensures migrated[i] != migrated[j] {
      if migrated[i] == migrated[j] { FormatDistinct(cfg, "int", i, j); }
    }
    var shard := cfg.checksum(values).value % cfg.shards;
    if cfg.shards < 10000 {
      assert migrated[shard] == Route(cfg, values).value;
    } else {
      forall i | 0 <= i < cfg.shards ensures migrated[i] != Route(cfg, values).value { KindsDiffer(cfg, shard, i); }
    }
  }

  // ---------------------------------------------------------------------------------------------
  // The suffix of a model
  // ---------------------------------------------------------------------------------------------

  function Prefixed(vs: seq<int>, r: Outcome<seq<int>>): Outcome<seq<int>> {
    match r case Err(e) => Err(e) case Ok(ws) => Ok(vs + ws)
  }

  lemma PrefixedMore(vs: seq<int>, v: int, r: Outcome<seq<int>>)
    ensures Prefixed(vs, Prefixed([v], r)) == Prefixed(vs + [v], r)
    ensures Prefixed([], r) == r && Prefixed(vs, Ok([])) == Ok(vs)
  {
    assert vs + [] == vs;
    if r.Ok? { assert vs + ([v] + r.value) == vs + [v] + r.value && [] + r.value == r.value; }
  }

  /** The sharding key values of a model; a batch write also refuses a primary key of zero. */
  function KeyValues(cfg: Config, m: Model, keys: seq<Column>, strict: bool): Outcome<seq<int>> {
    if keys == [] then Ok([])
    else if keys[0] !in m.fields then Err(MissingShardingKey)
    else if strict && cfg.primary == Some(keys[0]) && m.fields[keys[0]] == 0 then Err(InvalidId)
    else Prefixed([m.fields[keys[0]]], KeyValues(cfg, m, keys[1..], strict))
  }

  function SuffixOf(cfg: Config, m: Model, strict: bool): Outcome<string>
    requires cfg.shards > 0
  {
    match KeyValues(cfg, m, cfg.keys, strict)
    case Err(e) => Err(e)
    case Ok(vs) => Route(cfg, vs)
  }

  /** A model without the key, or a batch write of a model whose primary key is zero, is refused. */
  predicate Refused(cfg: Config, m: Model, key: Column, strict: bool) {
    key !in m.fields || (strict && cfg.primary == Some(key) && m.fields[key] == 0)
  }

  /** The values of a model at the keys, in key order. */
  function FieldsAt(m: Model, keys: seq<Column>): seq<int>
    requires forall i :: 0 <= i < |keys| ==> keys[i] in m.fields
  {
    seq(|keys|, i requires 0 <= i < |keys| => m.fields[keys[i]])
  }

  lemma FieldsHead(m: Model, keys: seq<Column>)
    requires keys != [] && forall i :: 0 <= i < |keys| ==> keys[i] in m.fields
    ensures FieldsAt(m, keys) == [m.fields[keys[0]]] + FieldsAt(m, keys[1..])
  {
  }

  /** The first key that is refused decides the error.  Otherwise the model goes to the table named by the
      joined keys and the checksum of its values at the keys, in key order, modulo the number of shards. */
  ghost predicate RoutesTo(cfg: Config, m: Model, strict: bool, r: Outcome<string>)
    requires cfg.shards > 0
  {
    && (forall i | 0 <= i < |cfg.keys| && Refused(cfg, m, cfg.keys[i], strict) ::
          (forall j :: 0 <= j < i ==> !Refused(cfg, m, cfg.keys[j], strict)) ==>
            r == Err(if cfg.keys[i] in m.fields then InvalidId else MissingShardingKey))
    && ((forall i :: 0 <= i < |cfg.keys| ==> !Refused(cfg, m, cfg.keys[i], strict)) ==>
          match cfg.checksum(FieldsAt(m, cfg.keys))
          case None => r == Err(NotEncodable)
          case Some(sum) =>
            var n := Decimal(sum % cfg.shards);
            r == Ok(if cfg.shards < 10000 then "_" + Join(cfg.keys) + "_" + PadLeft(n, |Decimal(cfg.shards)|)
                    else "_" + Join(cfg.keys) + "%!(EXTRA " + "uint64" + "=" + n + ")"))
  }

  lemma {:induction false} KeyValuesExact(cfg: Config, m: Model, keys: seq<Column>, strict: bool)
    ensures var r := KeyValues(cfg, m, keys, strict);
            if forall i :: 0 <= i < |keys| ==> !Refused(cfg, m, keys[i], strict)
            then r == Ok(FieldsAt(m, keys))
            else exists i :: 0 <= i < |keys| && Refused(cfg, m, keys[i], strict)
                          && (forall j :: 0 <= j < i ==> !Refused(cfg, m, keys[j], strict))
                          && r == Err(if keys[i] in m.fields then InvalidId else MissingShardingKey)
    decreases |keys|
  {
    if keys == [] {
      assert FieldsAt(m, keys) == [];
    } else {
      KeyValuesExact(cfg, m, keys[1..], strict);
      var rest := keys[1..];
      if Refused(cfg, m, keys[0], strict) {
      } else if forall i :: 0 <= i < |rest| ==> !Refused(cfg, m, rest[i], strict) {
        forall i | 0 <= i < |keys| ensures keys[i] in m.fields && !Refused(cfg, m, keys[i], strict) {
          if i > 0 { assert keys[i] == rest[i - 1]; }
        }
        FieldsHead(m, keys);
      } else {
        var i :| 0 <= i < |rest| && Refused(cfg, m, rest[i], strict)
              && (forall j :: 0 <= j < i ==> !Refused(cfg, m, rest[j], strict))
              && KeyValues(cfg, m, rest, strict) == Err(if rest[i] in m.fields then InvalidId else MissingShardingKey);
        assert keys[i + 1] == rest[i] && forall j :: 0 < j < i + 1 ==> keys[j] == rest[j - 1];
      }
    }
  }

  /** The suffix of a model, in terms of its fields. */
  lemma SuffixExact(cfg: Config, m: Model, strict: bool)
    requires cfg.shards > 0
    ensures RoutesTo(cfg, m, strict, SuffixOf(cfg, m, strict))
  {
    KeyValuesExact(cfg, m, cfg.keys, strict);
    WidthExact(cfg.shards);
  }

  method ReadSuffix(cfg: Config, m: Model, strict: bool) returns (r: Outcome<string>)
    requires cfg.shards > 0
    ensures r == SuffixOf(cfg, m, strict)
  {
    var values: seq<int> := [];
    var i := 0;
    assert cfg.keys[0..] == cfg.keys;
    PrefixedMore([], 0, KeyValues(cfg, m, cfg.keys, strict));
    while i < |cfg.keys|
      invariant i <= |cfg.keys|
      invariant Prefixed(values, KeyValues(cfg, m, cfg.keys[i..], strict)) == KeyValues(cfg, m, cfg.keys, strict)
    {
      assert cfg.keys[i..][1..] == cfg.keys[i + 1..];
      if cfg.keys[i] !in m.fields {
        return Err(MissingShardingKey);
      }
      if strict && cfg.primary == Some(cfg.keys[i]) && m.fields[cfg.keys[i]] == 0 {
        return Err(InvalidId);
      }
      PrefixedMore(values, m.fields[cfg.keys[i]], KeyValues(cfg, m, cfg.keys[i + 1..], strict));
      values := values + [m.fields[cfg.keys[i]]];
      i := i + 1;
    }
    PrefixedMore(values, 0, Ok([]));
    r := Route(cfg, values);
  }

  function Ints(vs: seq<int>): seq<Val> { seq(|vs|, i requires 0 <= i < |vs| => IntV(vs[i])) }

  /** An INSERT of a model: a bind parameter for each column. */
  function Binds(n: nat): seq<Sql.Expr> { seq(n, i requires 0 <= i < n => Sql.Bind(i)) }

  /** The plugin that routes statements on the same table. */
  ghost predicate SameTable(cfg: Config, c: Sharding.Config)
    requires cfg.shards > 0
  {
    && c.keys == cfg.keys && c.pk == cfg.primary
    && (forall n :: n > 0 ==> c.toId(IntV(n)) == Some(n))
    && (forall vs: seq<int> :: Route(cfg, vs).Ok? ==> c.shard(Ints(vs)) == Route(cfg, vs).value)
  }

  /** The columns of an INSERT and the values of a model for them. */
  ghost predicate Inserts(m: Model, keys: seq<Column>, columns: seq<Column>, args: seq<Val>) {
    && |args| == |columns|
    && (forall i :: 0 <= i < |columns| ==> columns[i] in m.fields && args[i] == IntV(m.fields[columns[i]]))
    && (forall key :: key in keys ==> key in columns)
  }

  lemma {:induction false} InsertValues(cfg: Config, c: Sharding.Config, m: Model, keys: seq<Column>,
                                        columns: seq<Column>, args: seq<Val>)
    requires cfg.shards > 0 && SameTable(cfg, c) && Inserts(m, keys, columns, args)
    requires KeyValues(cfg, m, keys, true).Ok?
    requires cfg.primary.Some? && cfg.primary.value in keys ==>
               cfg.primary.value in m.fields && m.fields[cfg.primary.value] > 0
    ensures InsertValue(c, keys, columns, Binds(|columns|), args) == Ok(Ints(KeyValues(cfg, m, keys, true).value))
    decreases |keys|
  {
    if keys != [] {
      var i := Find(columns, keys[0]);
      assert keys[0] in keys && columns[..|columns|] == columns;
      InsertValues(cfg, c, m, keys[1..], columns, args);
      var rest := KeyValues(cfg, m, keys[1..], true).value;
      assert Ints([m.fields[keys[0]]] + rest) == [IntV(m.fields[keys[0]])] + Ints(rest);
    }
  }

  /** A model and an INSERT of its fields, in any order of the columns, are routed to the same table. */
  lemma ModelRoutesAsInserted(cfg: Config, c: Sharding.Config, m: Model, columns: seq<Column>, args: seq<Val>)
    requires cfg.shards > 0 && SameTable(cfg, c) && Inserts(m, cfg.keys, columns, args)
    requires SuffixOf(cfg, m, true).Ok?
    requires cfg.primary.Some? && cfg.primary.value in cfg.keys ==>
               cfg.primary.value in m.fields && m.fields[cfg.primary.value] > 0
    ensures InsertSuffix(c, columns, [Binds(|columns|)], args, "") == SuffixOf(cfg, m, true)
  {
    InsertValues(cfg, c, m, cfg.keys, columns, args);
    var values := [Binds(|columns|)];
    assert values[1..] == [];
    KeyValuesExact(cfg, m, cfg.keys, true);
  }

  /** A model that a batch write accepts is routed to the same table by the check. */
  lemma {:induction false} StrictSame(cfg: Config, m: Model, keys: seq<Column>)
    requires KeyValues(cfg, m, keys, true).Ok?
    ensures KeyValues(cfg, m, keys, false) == KeyValues(cfg, m, keys, true)
    decreases |keys|
  {
    if keys != [] { StrictSame(cfg, m, keys[1..]); }
  }

  // ---------------------------------------------------------------------------------------------
  // Grouping
  // ---------------------------------------------------------------------------------------------

  /** The models of a list that go to one suffix, in order. */
  function Going(cfg: Config, ms: seq<Model>, suffix: string): seq<Model>
    requires cfg.shards > 0
  {
    if ms == [] then []
    else
      var n := |ms| - 1;
      var rest := Going(cfg, ms[..n], suffix);
      if SuffixOf(cfg, ms[n], true) == Ok(suffix) then rest + [ms[n]] else rest
  }

  ghost predicate AllRouted(cfg: Config, ms: seq<Model>)
    requires cfg.shards > 0
  {
    forall i :: 0 <= i < |ms| ==> SuffixOf(cfg, ms[i], true).Ok?
  }

  /** dst groups ms: a group for each suffix that occurs, holding the models going there. */
  ghost predicate Grouped(cfg: Config, ms: seq<Model>, dst: map<string, seq<Model>>)
    requires cfg.shards > 0
  {
    forall s :: if s in dst then dst[s] == Going(cfg, ms, s) && dst[s] != [] else Going(cfg, ms, s) == []
  }

  lemma GroupOne(cfg: Config, ms: seq<Model>, dst: map<string, seq<Model>>, i: nat, s: string)
    requires cfg.shards > 0 && i < |ms| && Grouped(cfg, ms[..i], dst) && SuffixOf(cfg, ms[i], true) == Ok(s)
    ensures Grouped(cfg, ms[..i + 1], dst[s := (if s in dst then dst[s] else []) + [ms[i]]])
  {
    assert ms[..i + 1][..i] == ms[..i];
  }

  /** The groups of the models up to the first one that cannot be routed, whose error is returned. */
  method ShardingByModelList(cfg: Config, src: seq<Model>)
    returns (err: Option<Error>, dst: map<string, seq<Model>>, n: nat)
    requires cfg.shards > 0
    ensures n <= |src| && AllRouted(cfg, src[..n]) && Grouped(cfg, src[..n], dst)
    ensures if n == |src| then err == None
            else SuffixOf(cfg, src[n], true).Err? && err == Some(SuffixOf(cfg, src[n], true).error)
  {
    dst := map[];
    n := 0;
    while n < |src|
      invariant n <= |src| && AllRouted(cfg, src[..n]) && Grouped(cfg, src[..n], dst)
    {
      var r := ReadSuffix(cfg, src[n], true);
      if r.Err? {
        return Some(r.error), dst, n;
      }
      GroupOne(cfg, src, dst, n, r.value);
      dst := dst[r.value := (if r.value in dst then dst[r.value] else []) + [src[n]]];
      n := n + 1;
    }
    err := None;
  }

  ghost predicate Distinct(ss: seq<string>) { forall i, j :: 0 <= i < j < |ss| ==> ss[i] != ss[j] }

  /** The groups in some order: one for each suffix that occurs. */
  ghost predicate Partition(cfg: Config, src: seq<Model>, dst: seq<seq<Model>>, suffixes: seq<string>)
    requires cfg.shards > 0
  {
    && Groups(cfg, src, dst, suffixes)
    && (forall i :: 0 <= i < |dst| ==> dst[i] != [])
    && (forall s :: Going(cfg, src, s) != [] ==> s in suffixes)
  }

  ghost predicate Groups(cfg: Config, src: seq<Model>, dst: seq<seq<Model>>, suffixes: seq<string>)
    requires cfg.shards > 0
  {
    && |dst| == |suffixes| && Distinct(suffixes)
    && (forall i :: 0 <= i < |dst| ==> dst[i] == Going(cfg, src, suffixes[i]))
  }

  /** writeWithTableSharding: the groups to write one after the other. */
  method WriteWithTableSharding(cfg: Config, sharded: bool, src: seq<Model>)
    returns (err: Option<Error>, dst: seq<seq<Model>>, ghost suffixes: seq<string>)
    requires cfg.shards > 0
    ensures !sharded ==> err.None? && dst == if src == [] then [] else [src]
    ensures sharded ==> (err.None? <==> AllRouted(cfg, src))
    ensures sharded && err.None? ==> Partition(cfg, src, dst, suffixes)
  {
    err, dst, suffixes := None, [], [];
    if |src| == 0 {
      return;
    }
    if !sharded {
      return None, [src], [];
    }
    var groups, n;
    err, groups, n := ShardingByModelList(cfg, src);
    if err.Some? {
      assert SuffixOf(cfg, src[n], true).Err?;
      return;
    }
    assert src[..n] == src;
    var rest := groups.Keys;
    while rest != {}
      invariant rest <= groups.Keys && |dst| == |suffixes| && Distinct(suffixes)
      invariant forall i :: 0 <= i < |dst| ==>
                  suffixes[i] in groups && suffixes[i] !in rest && dst[i] == groups[suffixes[i]]
      invariant forall s :: s in groups && s !in rest ==> s in suffixes
      decreases rest
    {
      var s :| s in rest;
      dst := dst + [groups[s]];
      suffixes := suffixes + [s];
      rest := rest - {s};
    }
  }

  function Concat(groups: seq<seq<Model>>): seq<Model> {
    if groups == [] then [] else Concat(groups[..|groups| - 1]) + groups[|groups| - 1]
  }

  lemma ConcatMore(groups: seq<seq<Model>>, g: seq<Model>)
    ensures Concat(groups + [g]) == Concat(groups) + g
  {
    assert (groups + [g])[..|groups|] == groups;
  }

  lemma Associative(x: seq<Model>, y: seq<Model>, z: seq<Model>)
    ensures x + y + z == x + (y + z)
  {
  }

  lemma {:induction false} ConcatConcat(a: seq<seq<Model>>, b: seq<seq<Model>>)
    ensures Concat(a + b) == Concat(a) + Concat(b)
    decreases |b|
  {
    if b == [] {
      assert a + b == a && Concat(a) + [] == Concat(a);
    } else {
      var n := |b| - 1;
      var front, last := b[..n], b[n];
      ConcatConcat(a, front);
      assert b == front + [last] && a + b == (a + front) + [last];
      ConcatMore(a + front, last);
      ConcatMore(front, last);
      Associative(Concat(a), Concat(front), last);
    }
  }

  lemma {:induction false} GoingConcat(cfg: Config, a: seq<Model>, b: seq<Model>, s: string)
    requires cfg.shards > 0
    ensures Going(cfg, a + b, s) == Going(cfg, a, s) + Going(cfg, b, s)
    decreases |b|
  {
    if b == [] {
      assert a + b == a && Going(cfg, a, s) + [] == Going(cfg, a, s);
    } else {
      var n := |b| - 1;
      assert (a + b)[..|a + b| - 1] == a + b[..n];
      GoingConcat(cfg, a, b[..n], s);
    }
  }

  ghost predicate AllTo(cfg: Config, ms: seq<Model>, s: string)
    requires cfg.shards > 0
  {
    forall i :: 0 <= i < |ms| ==> SuffixOf(cfg, ms[i], true) == Ok(s)
  }

  lemma {:induction false} GoingAll(cfg: Config, ms: seq<Model>, s: string)
    requires cfg.shards > 0
    ensures AllTo(cfg, Going(cfg, ms, s), s)
    decreases |ms|
  {
    if ms != [] { GoingAll(cfg, ms[..|ms| - 1], s); }
  }

  lemma {:induction false} GoingGroup(cfg: Config, ms: seq<Model>, t: string, s: string)
    requires cfg.shards > 0 && AllTo(cfg, ms, t)
    ensures Going(cfg, ms, s) == if s == t then ms else []
    decreases |ms|
  {
    if ms != [] {
      var n := |ms| - 1;
      GoingGroup(cfg, ms[..n], t, s);
      assert ms == ms[..n] + [ms[n]];
    }
  }

  lemma NextGroup(cfg: Config, src: seq<Model>, before: seq<seq<Model>>, g: seq<Model>, t: string, s: string)
    requires cfg.shards > 0 && g == Going(cfg, src, t)
    ensures Going(cfg, Concat(before + [g]), s) == Going(cfg, Concat(before), s) + if s == t then g else []
  {
    ConcatMore(before, g);
    GoingConcat(cfg, Concat(before), g, s);
    GoingAll(cfg, src, t);
    GoingGroup(cfg, g, t, s);
  }

  lemma Prefixes(dst: seq<seq<Model>>, suffixes: seq<string>, k: nat, s: string)
    requires |dst| == |suffixes| && Distinct(suffixes) && 0 < k <= |dst|
    ensures dst[..k] == dst[..k - 1] + [dst[k - 1]]
    ensures s in suffixes[..k] <==> s in suffixes[..k - 1] || s == suffixes[k - 1]
    ensures suffixes[k - 1] !in suffixes[..k - 1]
  {
    assert suffixes[..k] == suffixes[..k - 1] + [suffixes[k - 1]];
  }

  lemma {:induction false} GroupsKeep(cfg: Config, src: seq<Model>, dst: seq<seq<Model>>, suffixes: seq<string>,
                                      k: nat, s: string)
    requires cfg.shards > 0 && Groups(cfg, src, dst, suffixes) && k <= |dst|
    ensures Going(cfg, Concat(dst[..k]), s) == if s in suffixes[..k] then Going(cfg, src, s) else []
    decreases k
  {
    if k > 0 {
      GroupsKeep(cfg, src, dst, suffixes, k - 1, s);
      Prefixes(dst, suffixes, k, s);
      GroupAfter(cfg, src, dst[..k - 1], dst[k - 1], suffixes[k - 1], s, s in suffixes[..k - 1]);
    }
  }

  lemma GroupAfter(cfg: Config, src: seq<Model>, before: seq<seq<Model>>, g: seq<Model>, t: string, s: string,
                   seen: bool)
    requires cfg.shards > 0 && g == Going(cfg, src, t) && (seen ==> s != t)
    requires Going(cfg, Concat(before), s) == if seen then Going(cfg, src, s) else []
    ensures Going(cfg, Concat(before + [g]), s) == if seen || s == t then Going(cfg, src, s) else []
  {
    NextGroup(cfg, src, before, g, t, s);
  }

  /** Grouping loses, adds and reorders nothing within a table: for every suffix, the groups written one
      after the other hold the models of the input going there, in their order. */
  lemma GroupingIsStable(cfg: Config, src: seq<Model>, dst: seq<seq<Model>>, suffixes: seq<string>, s: string)
    requires cfg.shards > 0 && Partition(cfg, src, dst, suffixes)
    ensures Going(cfg, Concat(dst), s) == Going(cfg, src, s)
  {
    GroupsKeep(cfg, src, dst, suffixes, |dst|, s);
    assert dst[..|dst|] == dst && suffixes[..|dst|] == suffixes;
  }

  // ---------------------------------------------------------------------------------------------
  // The check of each statement, and the batches
  // ---------------------------------------------------------------------------------------------

  ghost predicate OneSuffix(cfg: Config, ms: seq<Model>)
    requires cfg.shards > 0
  {
    forall i :: 0 <= i < |ms| ==>
      SuffixOf(cfg, ms[i], false).Ok? && SuffixOf(cfg, ms[i], false) == SuffixOf(cfg, ms[0], false)
  }

  lemma SuffixNotBlank(cfg: Config, m: Model, strict: bool)
    requires cfg.shards > 0 && SuffixOf(cfg, m, strict).Ok?
    ensures SuffixOf(cfg, m, strict).value != ""
  {
  }

  lemma OneMore(cfg: Config, ms: seq<Model>, i: nat)
    requires cfg.shards > 0 && i < |ms|
    ensures OneSuffix(cfg, ms[..i + 1]) <==>
              && OneSuffix(cfg, ms[..i]) && SuffixOf(cfg, ms[i], false).Ok?
              && SuffixOf(cfg, ms[i], false) == SuffixOf(cfg, ms[0], false)
  {
    var less, more := ms[..i], ms[..i + 1];
    assert more[i] == ms[i] && more[0] == ms[0] && forall j :: 0 <= j < i ==> less[j] == more[j];
  }

  lemma OnePrefix(cfg: Config, ms: seq<Model>, i: nat)
    requires cfg.shards > 0 && i <= |ms| && OneSuffix(cfg, ms)
    ensures OneSuffix(cfg, ms[..i])
  {
  }

  /** checkDiffSuffixesByModel passes exactly the lists whose models are all routed to one table. */
  method CheckDiffSuffixes(cfg: Config, ms: seq<Model>) returns (err: Option<Error>)
    requires cfg.shards > 0
    ensures err.None? <==> OneSuffix(cfg, ms)
  {
    var suffix := "";
    var i := 0;
    while i < |ms|
      invariant i <= |ms| && OneSuffix(cfg, ms[..i])
      invariant if i == 0 then suffix == "" else suffix != "" && SuffixOf(cfg, ms[0], false) == Ok(suffix)
    {
      var sub := ReadSuffix(cfg, ms[i], false);
      OneMore(cfg, ms, i);
      if OneSuffix(cfg, ms) { OnePrefix(cfg, ms, i + 1); }
      if sub.Err? {
        return Some(sub.error);
      }
      SuffixNotBlank(cfg, ms[i], false);
      if suffix != "" && suffix != sub.value {
        return Some(DiffSuffix);
      }
      suffix := sub.value;
      i := i + 1;
    }
    assert ms[..i] == ms;
    err := None;
  }

  lemma GroupPasses(cfg: Config, ms: seq<Model>, s: string)
    requires cfg.shards > 0 && AllTo(cfg, ms, s)
    ensures OneSuffix(cfg, ms)
  {
    forall i | 0 <= i < |ms| ensures SuffixOf(cfg, ms[i], false) == Ok(s) { StrictSame(cfg, ms[i], cfg.keys); }
  }

  /** The statements of one group: slices of at most `size` models, each checked. */
  method CreateInBatches(cfg: Config, group: seq<Model>, size: nat, ghost s: string)
    returns (err: Option<Error>, batches: seq<seq<Model>>)
    requires cfg.shards > 0 && size > 0 && AllTo(cfg, group, s)
    ensures err.None? && Concat(batches) == group
    ensures forall b :: b in batches ==> 0 < |b| <= size && OneSuffix(cfg, b)
  {
    batches := [];
    var i := 0;
    while i < |group|
      invariant i <= |group| && Concat(batches) == group[..i]
      invariant forall b :: b in batches ==> 0 < |b| <= size && OneSuffix(cfg, b)
    {
      var end := if i + size > |group| then |group| else i + size;
      var batch := group[i..end];
      GroupPasses(cfg, batch, s);
      err := CheckDiffSuffixes(cfg, batch);
      if err.Some? {
        return;
      }
      ConcatMore(batches, batch);
      assert group[..end] == group[..i] + batch;
      batches := batches + [batch];
      i := end;
    }
    assert group[..i] == group;
    err := None;
  }

  lemma WrittenMore(written: seq<seq<Model>>, batches: seq<seq<Model>>, dst: seq<seq<Model>>, i: nat)
    requires i < |dst| && Concat(written) == Concat(dst[..i]) && Concat(batches) == dst[i]
    ensures Concat(written + batches) == Concat(dst[..i + 1])
  {
    ConcatConcat(written, batches);
    ConcatMore(dst[..i], dst[i]);
    assert dst[..i + 1] == dst[..i] + [dst[i]];
  }

  /** InsertInBatches into a sharded table succeeds exactly when every model can be routed.  Its
      statements pass the check, hold at most `size` models of one table each, and bring every table the
      input's models in their order. */
  method InsertInBatches(cfg: Config, src: seq<Model>, size: nat) returns (err: Option<Error>, written: seq<seq<Model>>)
    requires cfg.shards > 0 && size > 0
    ensures err.None? <==> AllRouted(cfg, src)
    ensures forall b :: b in written ==> 0 < |b| <= size && OneSuffix(cfg, b)
    ensures forall s | err.None? :: Going(cfg, Concat(written), s) == Going(cfg, src, s)
  {
    written := [];
    var dst, groups;
    ghost var suffixes;
    err, dst, suffixes := WriteWithTableSharding(cfg, true, src);
    if err.Some? {
      return;
    }
    var i := 0;
    while i < |dst|
      invariant i <= |dst| && err.None? && Concat(written) == Concat(dst[..i])
      invariant forall b :: b in written ==> 0 < |b| <= size && OneSuffix(cfg, b)
    {
      GoingAll(cfg, src, suffixes[i]);
      err, groups := CreateInBatches(cfg, dst[i], size, suffixes[i]);
      if err.Some? {
        return;
      }
      WrittenMore(written, groups, dst, i);
      written := written + groups;
      i := i + 1;
    }
    assert dst[..i] == dst;
    forall s ensures Going(cfg, Concat(written), s) == Going(cfg, src, s) {
      GroupingIsStable(cfg, src, dst, suffixes, s);
    }
  }
}
