/** The read-through cache and the lossy provider behind it.

    The provider maps inner keys (application prefix, version, key) to sealed values and may lose
    entries and refuse writes at any time: every operation takes the keys this happens to.  The cache
    keeps the inner keys it has seen in `visited`, because a provider cannot be enumerated. */
module Cache {
  import opened Options

  type Blob = string
  type Loader<!T> = seq<string> -> map<string, T>

  /** What the callback reads from: a partial function of the keys. */
  type Source<!T> = string -> Option<T>

  /** The fixed configuration of a cache: seal may refuse a value, unseal may not recognise a blob. */
  datatype Config<!T> = Config(prefix: string, version: string, seal: T -> Option<Blob>, unseal: Blob -> Option<T>)

  /** The provider's entries and the visited inner keys. */
  datatype State = State(store: map<string, Blob>, visited: set<string>)

  // ---------------------------------------------------------------------------------------------
  // Keys and values
  // ---------------------------------------------------------------------------------------------

  function Head<T>(c: Config<T>): string { c.prefix + ":" + c.version + ":" }

  function Inner<T>(c: Config<T>, k: string): (i: string)
    ensures Outer(c, i) == k
  {
    Head(c) + k
  }

  /** A key without the prefix and version in front, if they are there. */
  function Outer<T>(c: Config<T>, i: string): string { if Head(c) <= i then i[|Head(c)|..] else i }

  predicate IsInner<T>(c: Config<T>, i: string) { i == Inner(c, Outer(c, i)) }

  function Inners<T>(c: Config<T>, keys: seq<string>): (r: seq<string>)
    ensures |r| == |keys| && forall j :: 0 <= j < |keys| ==> r[j] == Inner(c, keys[j])
  {
    seq(|keys|, j requires 0 <= j < |keys| => Inner(c, keys[j]))
  }

  function Outers<T>(c: Config<T>, keys: seq<string>): (r: seq<string>)
    ensures |r| == |keys| && forall j :: 0 <= j < |keys| ==> r[j] == Outer(c, keys[j])
  {
    seq(|keys|, j requires 0 <= j < |keys| => Outer(c, keys[j]))
  }

  predicate Own<T>(c: Config<T>, inner: set<string>) { forall i :: i in inner ==> IsInner(c, i) }

  /** The values that can be sealed, under their inner keys. */
  function Sealed<T>(c: Config<T>, kvs: map<string, T>): map<string, Blob> {
    map k | k in kvs && c.seal(kvs[k]).Some? :: Inner(c, k) := c.seal(kvs[k]).value
  }

  /** The values that can be unsealed, under their own keys. */
  function Unsealed<T>(c: Config<T>, m: map<string, Blob>): map<string, T> {
    map i | i in m && IsInner(c, i) && c.unseal(m[i]).Some? :: Outer(c, i) := c.unseal(m[i]).value
  }

  // ---------------------------------------------------------------------------------------------
  // The provider
  // ---------------------------------------------------------------------------------------------

  /** The keys lost before an operation, those the provider refuses to write, and those lost by its end. */
  datatype Luck = Luck(before: set<string>, refused: set<string>, during: set<string>)

  function Lost(store: map<string, Blob>, gone: set<string>): map<string, Blob> { store - gone }

  /** A refused write leaves the old entry. */
  function Written(store: map<string, Blob>, kvs: map<string, Blob>, luck: Luck): map<string, Blob> {
    Lost(store + (kvs - luck.refused), luck.during)
  }

  function Cached(store: map<string, Blob>, keys: seq<string>): map<string, Blob> {
    map k | k in keys && k in store :: store[k]
  }

  function Missed(store: map<string, Blob>, keys: seq<string>): seq<string> {
    if keys == [] then []
    else if keys[0] in store then Missed(store, keys[1..])
    else [keys[0]] + Missed(store, keys[1..])
  }

  lemma {:induction false} MissedExactly(store: map<string, Blob>, keys: seq<string>)
    ensures forall k :: k in Missed(store, keys) <==> k in keys && k !in store
    decreases |keys|
  {
    if keys != [] { MissedExactly(store, keys[1..]); }
  }

  function SetOf(keys: seq<string>): set<string> { set k | k in keys }

  class GCache {
    var instance: map<string, Blob>

    constructor ()
      ensures instance == map[]
    {
      instance := map[];
    }

    method Evict(gone: set<string>)
      modifies this
      ensures instance == Lost(old(instance), gone)
    {
      instance := instance - gone;
    }

    method Get(keys: seq<string>) returns (cached: map<string, Blob>, missed: seq<string>)
      ensures cached == Cached(instance, keys) && missed == Missed(instance, keys)
    {
      cached, missed := map[], [];
      var i := 0;
      while i < |keys|
        invariant i <= |keys|
        invariant cached == Cached(instance, keys[..i])
        invariant missed + Missed(instance, keys[i..]) == Missed(instance, keys)
      {
        assert keys[..i + 1] == keys[..i] + [keys[i]] && keys[i..][1..] == keys[i + 1..];
        if keys[i] in instance {
          cached := cached[keys[i] := instance[keys[i]]];
        } else {
          missed := missed + [keys[i]];
        }
        i := i + 1;
      }
      assert keys[..i] == keys;
    }

    /** Entries are written in any order; those refused are the failures, and what is lost by the end may
        be among the written. */
    method Set(kvs: map<string, Blob>, luck: Luck) returns (failure: seq<string>)
      modifies this
      ensures instance == Written(old(instance), kvs, luck)
      ensures forall k :: k in failure <==> k in kvs && k in luck.refused
    {
      failure := [];
      var rest := kvs.Keys;
      ghost var written: map<string, Blob> := map[];
      while rest != {}
        invariant rest <= kvs.Keys && PartOf(written, kvs - luck.refused, rest)
        invariant instance == old(instance) + written
        invariant forall k :: k in failure <==> k in kvs && k in luck.refused && k !in rest
        decreases rest
      {
        var k :| k in rest;
        if k in luck.refused {
          failure := failure + [k];
          PartSkip(written, kvs - luck.refused, rest, k);
        } else {
          PartMore(written, kvs - luck.refused, rest, k);
          MergeOne(old(instance), written, k, kvs[k]);
          instance := instance[k := kvs[k]];
          written := written[k := kvs[k]];
        }
        rest := rest - {k};
      }
      assert written == kvs - luck.refused;
      Evict(luck.during);
    }

    /** Removes the keys except those the provider fails to remove. */
    method Del(keys: seq<string>, stuck: set<string>) returns (failure: seq<string>)
      modifies this
      ensures instance == old(instance) - (SetOf(keys) - stuck)
      ensures forall k :: k in failure <==> k in keys && k in stuck && k in old(instance)
    {
      failure := [];
      var i := 0;
      while i < |keys|
        invariant i <= |keys|
        invariant instance == old(instance) - (SetOf(keys[..i]) - stuck)
        invariant forall k :: k in failure <==> k in keys[..i] && k in stuck && k in old(instance)
      {
        assert keys[..i + 1] == keys[..i] + [keys[i]];
        if keys[i] !in stuck {
          instance := instance - {keys[i]};
        } else if keys[i] in instance {
          failure := failure + [keys[i]];
        }
        i := i + 1;
      }
      assert keys[..i] == keys;
    }
  }

  // ---------------------------------------------------------------------------------------------
  // The cache
  // ---------------------------------------------------------------------------------------------

  /** What the callback adds: it is called only with keys missed. */
  function Loaded<T>(c: Config<T>, load: Option<Loader<T>>, missed: seq<string>): map<string, T> {
    if missed == [] || load.None? then map[] else load.value(Outers(c, missed))
  }

  /** The values of the keys that have one, in order. */
  function Pick<T>(kvs: map<string, T>, keys: seq<string>): seq<T> {
    if keys == [] then []
    else if keys[0] in kvs then [kvs[keys[0]]] + Pick(kvs, keys[1..])
    else Pick(kvs, keys[1..])
  }

  /** What a read of inner keys finds, and the store it leaves. */
  datatype Lookup<!T> = Lookup(kvs: map<string, T>, store: map<string, Blob>)

  function Find<T>(c: Config<T>, load: Option<Loader<T>>, store: map<string, Blob>, inner: seq<string>,
                   luck: Luck): Lookup<T>
  {
    var now := Lost(store, luck.before);
    var added := Loaded(c, load, Missed(now, inner));
    Lookup(Unsealed(c, Cached(now, inner)) + added, Written(now, Sealed(c, added), luck))
  }

  /** The keys a read left without a value. */
  function Unfound<T>(kvs: map<string, T>, keys: seq<string>): set<string> {
    set k | k in keys && k !in kvs
  }

  class Cache<T(==)> {
    const config: Config<T>
    const provider: GCache
    var visited: set<string>

    ghost function Abs(): State
      reads this, provider
    {
      State(provider.instance, visited)
    }

    constructor (config: Config<T>, provider: GCache)
      ensures this.config == config && this.provider == provider && visited == {}
    {
      this.config, this.provider, visited := config, provider, {};
    }

    method UnsealAll(cached: map<string, Blob>) returns (kvs: map<string, T>)
      requires Own(config, cached.Keys)
      ensures kvs == Unsealed(config, cached)
    {
      kvs := map[];
      var rest := cached.Keys;
      ghost var read: map<string, Blob> := map[];
      while rest != {}
        invariant rest <= cached.Keys && PartOf(read, cached, rest)
        invariant kvs == Unsealed(config, read)
        decreases rest
      {
        var i :| i in rest;
        PartMore(read, cached, rest, i);
        UnsealedMore(config, read, i, cached[i]);
        var v := config.unseal(cached[i]);
        if v.Some? {
          kvs := kvs[Outer(config, i) := v.value];
        }
        read := read[i := cached[i]];
        rest := rest - {i};
      }
      assert read == cached;
    }

    /** Also returns the inner keys of the values that cannot be sealed. */
    method SealAll(kvs: map<string, T>) returns (inner: map<string, Blob>, failure: seq<string>)
      ensures inner == Sealed(config, kvs)
      ensures forall i :: i in failure <==> i in InnerSet(config, Unsealable(config, kvs))
    {
      inner, failure := map[], [];
      var rest := kvs.Keys;
      ghost var read: map<string, T> := map[];
      while rest != {}
        invariant rest <= kvs.Keys && PartOf(read, kvs, rest)
        invariant inner == Sealed(config, read)
        invariant forall i :: i in failure <==> i in InnerSet(config, Unsealable(config, read))
        decreases rest
      {
        var k :| k in rest;
        PartMore(read, kvs, rest, k);
        SealedMore(config, read, k, kvs[k]);
        UnsealableMore(config, read, k, kvs[k]);
        var b := config.seal(kvs[k]);
        if b.Some? {
          inner := inner[Inner(config, k) := b.value];
        } else {
          failure := failure + [Inner(config, k)];
        }
        read := read[k := kvs[k]];
        rest := rest - {k};
      }
      assert read == kvs;
    }

    method PickAll(kvs: map<string, T>, keys: seq<string>) returns (ts: seq<T>, missed: set<string>)
      ensures ts == Pick(kvs, keys) && missed == Unfound(kvs, keys)
    {
      ts, missed := [], {};
      var i := 0;
      while i < |keys|
        invariant i <= |keys|
        invariant ts + Pick(kvs, keys[i..]) == Pick(kvs, keys)
        invariant missed == Unfound(kvs, keys[..i])
      {
        assert keys[..i + 1] == keys[..i] + [keys[i]] && keys[i..][1..] == keys[i + 1..];
        if keys[i] in kvs {
          ts := ts + [kvs[keys[i]]];
        } else {
          missed := missed + {keys[i]};
        }
        i := i + 1;
      }
      assert keys[..i] == keys;
    }

    method LookUp(inner: seq<string>, before: set<string>) returns (hits: map<string, T>, missed: seq<string>)
      requires Own(config, SetOf(inner))
      modifies provider
      ensures provider.instance == Lost(old(provider.instance), before)
      ensures hits == Unsealed(config, Cached(provider.instance, inner)) && missed == Missed(provider.instance, inner)
    {
      provider.Evict(before);
      var cached;
      cached, missed := provider.Get(inner);
      CachedOwn(config, provider.instance, inner);
      hits := UnsealAll(cached);
    }

    method Fill(hits: map<string, T>, missed: seq<string>, load: Option<Loader<T>>, luck: Luck)
      returns (kvs: map<string, T>)
      modifies provider
      ensures var added := Loaded(config, load, missed);
              kvs == hits + added && provider.instance == Written(old(provider.instance), Sealed(config, added), luck)
    {
      if |missed| > 0 && load.Some? {
        var added := load.value(Outers(config, missed));
        kvs := hits + added;
        var sealed, _ := SealAll(added);
        var _ := provider.Set(sealed, luck);
      } else {
        kvs := hits;
        provider.Evict(luck.during);
        NothingLoaded(config, hits, old(provider.instance), luck);
      }
    }

    /** The common part of Get and GetAll. */
    method Read(inner: seq<string>, load: Option<Loader<T>>, luck: Luck)
      returns (kvs: map<string, T>)
      requires Own(config, SetOf(inner))
      modifies provider
      ensures Lookup(kvs, provider.instance) == Find(config, load, old(provider.instance), inner, luck)
    {
      var hits, missed := LookUp(inner, luck.before);
      kvs := Fill(hits, missed, load, luck);
    }

    method Get(keys: seq<string>, load: Option<Loader<T>>, luck: Luck)
      returns (ts: seq<T>)
      modifies this, provider
      ensures var r := Find(config, load, old(provider.instance), Inners(config, keys), luck);
              && ts == Pick(r.kvs, keys)
              && Abs() == State(r.store, old(visited) + SetOf(Inners(config, keys)))
    {
      var inner := Inners(config, keys);
      InnersOwn(config, keys);
      var kvs := Read(inner, load, luck);
      var missed;
      ts, missed := PickAll(kvs, keys);
      visited := visited + SetOf(inner);
    }

    method Items() returns (items: seq<string>)
      ensures SetOf(items) == visited
    {
      items := [];
      var rest := visited;
      while rest != {}
        invariant rest <= visited && SetOf(items) == visited - rest
        decreases rest
      {
        var k :| k in rest;
        SetOfMore(items, k);
        items := items + [k];
        rest := rest - {k};
      }
    }

    method GetAll(load: Option<Loader<T>>, luck: Luck)
      returns (ts: seq<T>, ghost items: seq<string>)
      requires Own(config, visited)
      modifies this, provider
      ensures SetOf(items) == old(visited)
      ensures var r := Find(config, load, old(provider.instance), items, luck);
              && ts == Pick(r.kvs, Outers(config, items))
              && Abs() == State(r.store, old(visited) - InnerSet(config, Unfound(r.kvs, Outers(config, items))))
    {
      var all := Items();
      items := all;
      var kvs := Read(all, load, luck);
      var missed;
      ts, missed := PickAll(kvs, Outers(config, all));
      visited := visited - InnerSet(config, missed);
    }

    /** The failures are the keys whose values cannot be sealed or whose writes are refused. */
    method Set(kvs: map<string, T>, luck: Luck) returns (failure: seq<string>)
      modifies this, provider
      ensures Abs() == State(Written(old(provider.instance), Sealed(config, kvs), luck),
                             old(visited) + Sealed(config, kvs).Keys)
      ensures forall k :: k in failure <==> k in kvs && (config.seal(kvs[k]).None? || Inner(config, k) in luck.refused)
    {
      var inner, unsealed := SealAll(kvs);
      var refused := provider.Set(inner, luck);
      failure := Outers(config, unsealed + refused);
      SetFailures(config, kvs, luck, unsealed, refused);
      visited := visited + inner.Keys;
    }

    method Del(keys: seq<string>, stuck: set<string>) returns (failure: seq<string>)
      modifies this, provider
      ensures var gone := SetOf(Inners(config, keys));
              Abs() == State(old(provider.instance) - (gone - stuck), old(visited) - gone)
      ensures forall k :: k in failure <==>
                k in keys && Inner(config, k) in stuck && Inner(config, k) in old(provider.instance)
    {
      var inner := Inners(config, keys);
      var failed := provider.Del(inner, stuck);
      failure := Outers(config, failed);
      InnersOwn(config, keys);
      OuterFailures(config, inner, failed);
      forall k ensures k in keys <==> Inner(config, k) in inner { InInners(config, keys, k); }
      visited := visited - SetOf(inner);
    }

    method Clear(stuck: set<string>) returns (failure: seq<string>)
      modifies this, provider
      ensures Abs() == State(old(provider.instance) - (old(visited) - stuck), {})
      ensures Own(config, old(visited)) ==> forall k :: k in failure <==>
                && Inner(config, k) in old(visited)
                && Inner(config, k) in stuck && Inner(config, k) in old(provider.instance)
    {
      var inner := Items();
      var failed := provider.Del(inner, stuck);
      failure := Outers(config, failed);
      if Own(config, visited) {
        OuterFailures(config, inner, failed);
      }
      forall k ensures Inner(config, k) in inner <==> Inner(config, k) in visited { assert SetOf(inner) == visited; }
      visited := visited - SetOf(inner);
    }
  }

  function Unsealable<T>(c: Config<T>, kvs: map<string, T>): set<string> { set k | k in kvs && c.seal(kvs[k]).None? }

  lemma UnsealableMore<T>(c: Config<T>, m: map<string, T>, k: string, v: T)
    requires k !in m
    ensures InnerSet(c, Unsealable(c, m[k := v]))
            == if c.seal(v).Some? then InnerSet(c, Unsealable(c, m)) else InnerSet(c, Unsealable(c, m)) + {Inner(c, k)}
  {
    assert Unsealable(c, m[k := v]) == if c.seal(v).Some? then Unsealable(c, m) else Unsealable(c, m) + {k};
  }

  lemma InInners<T>(c: Config<T>, keys: seq<string>, k: string)
    ensures k in keys <==> Inner(c, k) in Inners(c, keys)
  {
    if k in keys {
      var j :| 0 <= j < |keys| && keys[j] == k;
      assert Inners(c, keys)[j] == Inner(c, k);
    }
    if Inner(c, k) in Inners(c, keys) {
      var j :| 0 <= j < |keys| && Inners(c, keys)[j] == Inner(c, k);
      assert Outer(c, Inner(c, keys[j])) == keys[j];
    }
  }

  /** Failed inner keys convert to the failed keys. */
  lemma OuterFailures<T>(c: Config<T>, inner: seq<string>, failed: seq<string>)
    requires Own(c, SetOf(inner)) && forall i :: i in failed ==> i in inner
    ensures forall k :: k in Outers(c, failed) <==> Inner(c, k) in failed
  {
    forall j | 0 <= j < |failed| ensures IsInner(c, failed[j]) {
      assert failed[j] in inner && failed[j] in SetOf(inner);
    }
    OutersInners(c, failed);
    forall k ensures k in Outers(c, failed) <==> Inner(c, k) in failed { InInners(c, Outers(c, failed), k); }
  }

  lemma SetFailures<T>(c: Config<T>, kvs: map<string, T>, luck: Luck, unsealed: seq<string>, refused: seq<string>)
    requires forall i :: i in unsealed <==> i in InnerSet(c, Unsealable(c, kvs))
    requires forall i :: i in refused <==> i in Sealed(c, kvs) && i in luck.refused
    ensures forall k :: k in Outers(c, unsealed + refused)
                        <==> k in kvs && (c.seal(kvs[k]).None? || Inner(c, k) in luck.refused)
  {
    var all := unsealed + refused;
    forall i | i in all ensures IsInner(c, i) {}
    OuterFailures(c, all, all);
    forall k ensures Inner(c, k) in all <==> k in kvs && (c.seal(kvs[k]).None? || Inner(c, k) in luck.refused) {
      SealedKey(c, kvs, k);
    }
  }

  lemma SealedKey<T>(c: Config<T>, kvs: map<string, T>, k: string)
    ensures Inner(c, k) in Sealed(c, kvs) <==> k in kvs && c.seal(kvs[k]).Some?
    ensures Inner(c, k) in InnerSet(c, Unsealable(c, kvs)) <==> k in kvs && c.seal(kvs[k]).None?
  {
    if Inner(c, k) in Sealed(c, kvs) {
      var k' :| k' in kvs && c.seal(kvs[k']).Some? && Inner(c, k') == Inner(c, k);
      assert Outer(c, Inner(c, k')) == k';
    }
    if Inner(c, k) in InnerSet(c, Unsealable(c, kvs)) {
      var k' :| k' in Unsealable(c, kvs) && Inner(c, k') == Inner(c, k);
      assert Outer(c, Inner(c, k')) == k';
    }
  }

  function InnerSet<T>(c: Config<T>, keys: set<string>): set<string> { set k | k in keys :: Inner(c, k) }

  /** `part` holds the entries of `whole` outside `rest`. */
  ghost predicate PartOf<V>(part: map<string, V>, whole: map<string, V>, rest: set<string>) {
    part.Keys == whole.Keys - rest && forall k :: k in part ==> part[k] == whole[k]
  }

  lemma PartMore<V>(part: map<string, V>, whole: map<string, V>, rest: set<string>, k: string)
    requires PartOf(part, whole, rest) && k in rest && k in whole
    ensures k !in part && PartOf(part[k := whole[k]], whole, rest - {k})
  {
  }

  lemma PartSkip<V>(part: map<string, V>, whole: map<string, V>, rest: set<string>, k: string)
    requires PartOf(part, whole, rest) && k !in whole
    ensures PartOf(part, whole, rest - {k})
  {
  }

  lemma MergeOne(m: map<string, Blob>, d: map<string, Blob>, k: string, b: Blob)
    ensures (m + d)[k := b] == m + d[k := b]
  {
  }

  lemma UnsealedMore<T>(c: Config<T>, m: map<string, Blob>, i: string, b: Blob)
    requires i !in m && IsInner(c, i)
    ensures Unsealed(c, m[i := b])
            == match c.unseal(b) case Some(v) => Unsealed(c, m)[Outer(c, i) := v] case None => Unsealed(c, m)
  {
  }

  lemma SealedMore<T>(c: Config<T>, m: map<string, T>, k: string, v: T)
    requires k !in m
    ensures Sealed(c, m[k := v])
            == match c.seal(v) case Some(b) => Sealed(c, m)[Inner(c, k) := b] case None => Sealed(c, m)
  {
  }

  lemma NothingLoaded<T>(c: Config<T>, hits: map<string, T>, store: map<string, Blob>, luck: Luck)
    ensures hits + map[] == hits && Written(store, Sealed<T>(c, map[]), luck) == Lost(store, luck.during)
  {
    assert Sealed<T>(c, map[]) == map[];
  }

  lemma CachedOwn<T>(c: Config<T>, store: map<string, Blob>, inner: seq<string>)
    requires Own(c, SetOf(inner))
    ensures Own(c, Cached(store, inner).Keys)
  {
    assert Cached(store, inner).Keys <= SetOf(inner);
  }

  lemma InnersOwn<T>(c: Config<T>, keys: seq<string>)
    ensures Own(c, SetOf(Inners(c, keys)))
  {
  }

  lemma SetOfMore(items: seq<string>, k: string)
    ensures SetOf(items + [k]) == SetOf(items) + {k}
  {
  }

  // ---------------------------------------------------------------------------------------------
  // Agreement with the source
  // ---------------------------------------------------------------------------------------------

  ghost predicate Inverse<T(!new)>(c: Config<T>) {
    forall v: T :: c.seal(v).Some? ==> c.unseal(c.seal(v).value) == Some(v)
  }

  function Restrict<T>(f: Source<T>, keys: seq<string>): map<string, T> {
    map k | k in keys && f(k).Some? :: f(k).value
  }

  /** The callback answers f on exactly the keys it is asked for. */
  ghost predicate Answers<T(!new)>(load: Loader<T>, f: Source<T>) {
    forall keys :: load(keys) == Restrict(f, keys)
  }

  /** f over the keys in order, leaving out those it does not define. */
  function Answer<T>(f: Source<T>, keys: seq<string>): seq<T> {
    if keys == [] then []
    else if f(keys[0]).Some? then [f(keys[0]).value] + Answer(f, keys[1..])
    else Answer(f, keys[1..])
  }

  ghost predicate Agrees<T>(c: Config<T>, f: Source<T>, store: map<string, Blob>) {
    forall i | i in store ::
      IsInner(c, i) && f(Outer(c, i)).Some? && c.seal(f(Outer(c, i)).value) == Some(store[i])
  }

  /** What every operation keeps: stored values are f's, and stored keys are visited. */
  ghost predicate Inv<T>(c: Config<T>, f: Source<T>, s: State) {
    Agrees(c, f, s.store) && s.store.Keys <= s.visited && Own(c, s.visited)
  }

  lemma HitsAgree<T(!new)>(c: Config<T>, f: Source<T>, now: map<string, Blob>, keys: seq<string>, k: string)
    requires Inverse(c) && Agrees(c, f, now) && k in keys
    ensures var hits := Unsealed(c, Cached(now, Inners(c, keys)));
            if Inner(c, k) in now then k in hits && f(k) == Some(hits[k]) else k !in hits
  {
    var m, i := Cached(now, Inners(c, keys)), Inner(c, k);
    var j :| 0 <= j < |keys| && keys[j] == k;
    assert Inners(c, keys)[j] == i;
    if i in now {
      assert i in m && IsInner(c, i) && Outer(c, i) == k;
    }
  }

  lemma MissedOuter<T>(c: Config<T>, now: map<string, Blob>, keys: seq<string>, k: string)
    requires k in keys
    ensures k in Outers(c, Missed(now, Inners(c, keys))) <==> Inner(c, k) !in now
  {
    var i, missed := Inner(c, k), Missed(now, Inners(c, keys));
    var j :| 0 <= j < |keys| && keys[j] == k;
    assert Inners(c, keys)[j] == i;
    MissedExactly(now, Inners(c, keys));
    if i !in now {
      var a :| 0 <= a < |missed| && missed[a] == i;
      assert Outers(c, missed)[a] == k;
    }
    if k in Outers(c, missed) {
      var a :| 0 <= a < |missed| && Outers(c, missed)[a] == k;
      assert missed[a] in missed;
      var b :| 0 <= b < |keys| && Inners(c, keys)[b] == missed[a];
      assert Inner(c, keys[b]) == missed[a] && Outer(c, missed[a]) == keys[b];
    }
  }

  lemma LoadedAgrees<T(!new)>(c: Config<T>, f: Source<T>, load: Loader<T>, missed: seq<string>)
    requires Answers(load, f)
    ensures Loaded(c, Some(load), missed) == Restrict(f, Outers(c, missed))
  {
    if missed == [] { assert Restrict(f, Outers(c, missed)) == map[]; }
  }

  /** A read finds f on the keys it asks for. */
  lemma FindAgrees<T(!new)>(c: Config<T>, f: Source<T>, load: Loader<T>, store: map<string, Blob>,
                            keys: seq<string>, luck: Luck, k: string)
    requires Inverse(c) && Answers(load, f) && Agrees(c, f, store) && k in keys
    ensures var kvs := Find(c, Some(load), store, Inners(c, keys), luck).kvs;
            if k in kvs then f(k) == Some(kvs[k]) else f(k).None?
  {
    var now := Lost(store, luck.before);
    HitsAgree(c, f, now, keys, k);
    MissedOuter(c, now, keys, k);
    LoadedAgrees(c, f, load, Missed(now, Inners(c, keys)));
    assert Inner(c, k) in now ==> f(k).Some?;
  }

  /** What a read stores is f's and was asked for. */
  lemma FindStores<T(!new)>(c: Config<T>, f: Source<T>, load: Loader<T>, store: map<string, Blob>,
                            inner: seq<string>, luck: Luck)
    requires Answers(load, f) && Agrees(c, f, store) && Own(c, SetOf(inner))
    ensures var r := Find(c, Some(load), store, inner, luck).store;
            Agrees(c, f, r) && r.Keys <= store.Keys + SetOf(inner)
  {
    var now := Lost(store, luck.before);
    var missed := Missed(now, inner);
    var added := Loaded(c, Some(load), missed);
    LoadedAgrees(c, f, load, missed);
    MissedExactly(now, inner);
    forall i | i in Sealed(c, added)
      ensures i in SetOf(inner) && IsInner(c, i) && f(Outer(c, i)) == Some(added[Outer(c, i)])
    {
      SealedAsked(c, inner, missed, added, i);
    }
  }

  lemma SealedAsked<T>(c: Config<T>, inner: seq<string>, missed: seq<string>, added: map<string, T>, i: string)
    requires Own(c, SetOf(inner)) && (forall k :: k in missed ==> k in inner)
    requires (forall k :: k in added ==> k in Outers(c, missed)) && i in Sealed(c, added)
    ensures i in SetOf(inner) && Outer(c, i) in added && IsInner(c, i)
  {
    var k :| k in added && Inner(c, k) == i;
    var a :| 0 <= a < |missed| && Outers(c, missed)[a] == k;
    assert missed[a] in inner && missed[a] in SetOf(inner);
    assert IsInner(c, missed[a]);
  }

  lemma {:induction false} PickAgrees<T>(f: Source<T>, kvs: map<string, T>, keys: seq<string>)
    requires forall k :: k in keys ==> if k in kvs then f(k) == Some(kvs[k]) else f(k).None?
    ensures Pick(kvs, keys) == Answer(f, keys)
    decreases |keys|
  {
    if keys != [] {
      assert keys[0] in keys;
      PickAgrees(f, kvs, keys[1..]);
    }
  }

  /** The operations on a cache, with what the provider loses and refuses in each. */
  datatype Op<T> =
    | Get(keys: seq<string>, luck: Luck)
    | GetAll(items: seq<string>, luck: Luck)
    | Set(kvs: map<string, T>, luck: Luck)
    | Del(keys: seq<string>, stuck: set<string>)
    | Clear(stuck: set<string>)
    | Lose(gone: set<string>)

  function Step<T>(c: Config<T>, load: Loader<T>, s: State, op: Op<T>): State {
    match op
    case Get(keys, luck) =>
      State(Find(c, Some(load), s.store, Inners(c, keys), luck).store, s.visited + SetOf(Inners(c, keys)))
    case GetAll(items, luck) =>
      var r := Find(c, Some(load), s.store, items, luck);
      State(r.store, s.visited - InnerSet(c, Unfound(r.kvs, Outers(c, items))))
    case Set(kvs, luck) => State(Written(s.store, Sealed(c, kvs), luck), s.visited + Sealed(c, kvs).Keys)
    case Del(keys, stuck) =>
      State(s.store - (SetOf(Inners(c, keys)) - stuck), s.visited - SetOf(Inners(c, keys)))
    case Clear(stuck) => State(s.store - (s.visited - stuck), {})
    case Lose(gone) => State(Lost(s.store, gone), s.visited)
  }

  function LoaderOf<T>(f: Source<T>): Loader<T> { keys => Restrict(f, keys) }

  /** The source after an operation: a Set goes with a change of the source at its keys. */
  function Changed<T>(f: Source<T>, op: Op<T>): Source<T> {
    match op
    case Set(kvs, _) => k => if k in kvs then Some(kvs[k]) else f(k)
    case _ => f
  }

  /** GetAll walks the visited keys in some order, a Set that changes the source at a key is stored there, and
      deletes succeed. */
  ghost predicate Legal<T>(c: Config<T>, f: Source<T>, s: State, op: Op<T>) {
    match op
    case GetAll(items, _) => SetOf(items) == s.visited
    case Set(kvs, luck) =>
      forall k :: k in kvs ==> f(k) == Some(kvs[k]) || (c.seal(kvs[k]).Some? && Inner(c, k) !in luck.refused)
    case Del(_, stuck) => stuck == {}
    case Clear(stuck) => stuck == {}
    case _ => true
  }

  lemma OutersInners<T>(c: Config<T>, items: seq<string>)
    requires Own(c, SetOf(items))
    ensures Inners(c, Outers(c, items)) == items
  {
    forall j | 0 <= j < |items| ensures Inners(c, Outers(c, items))[j] == items[j] {
      assert items[j] in SetOf(items);
    }
  }

  lemma GetKeeps<T(!new)>(c: Config<T>, f: Source<T>, load: Loader<T>, s: State, op: Op<T>)
    requires Inverse(c) && Answers(load, f) && Inv(c, f, s) && op.Get?
    ensures Inv(c, f, Step(c, load, s, op))
  {
    InnersOwn(c, op.keys);
    FindStores(c, f, load, s.store, Inners(c, op.keys), op.luck);
  }

  lemma GetAllKeeps<T(!new)>(c: Config<T>, f: Source<T>, load: Loader<T>, s: State, op: Op<T>)
    requires Inverse(c) && Answers(load, f) && Inv(c, f, s) && op.GetAll? && SetOf(op.items) == s.visited
    ensures Inv(c, f, Step(c, load, s, op))
  {
    var keys := Outers(c, op.items);
    OutersInners(c, op.items);
    FindStores(c, f, load, s.store, op.items, op.luck);
    var r := Find(c, Some(load), s.store, op.items, op.luck);
    forall k | k in keys ensures if k in r.kvs then f(k) == Some(r.kvs[k]) else f(k).None? {
      FindAgrees(c, f, load, s.store, keys, op.luck, k);
    }
    forall i | i in r.store ensures i !in InnerSet(c, Unfound(r.kvs, keys)) {
      assert f(Outer(c, i)).Some?;
    }
  }

  /** The visited keys after an operation: a Get and a Set add theirs, a GetAll drops those the source has no
      value for, a Del drops its own and a Clear all. */
  lemma VisitedExactly<T(!new)>(c: Config<T>, f: Source<T>, load: Loader<T>, s: State, op: Op<T>, k: string)
    requires Inverse(c) && Answers(load, f) && Inv(c, f, s) && (op.GetAll? ==> SetOf(op.items) == s.visited)
    ensures Inner(c, k) in Step(c, load, s, op).visited <==>
            var was := Inner(c, k) in s.visited;
            match op
            case Get(keys, _) => was || k in keys
            case GetAll(_, _) => was && f(k).Some?
            case Set(kvs, _) => was || (k in kvs && c.seal(kvs[k]).Some?)
            case Del(keys, _) => was && k !in keys
            case Clear(_) => false
            case Lose(_) => was
  {
    match op
    case Get(keys, _) => InInners(c, keys, k);
    case GetAll(items, luck) => GetAllVisited(c, f, load, s, op, k);
    case Set(kvs, _) => SealedKey(c, kvs, k);
    case Del(keys, _) => InInners(c, keys, k);
    case _ =>
  }

  /** What happens between operations loses entries and nothing else. */
  lemma LoseExactly<T>(c: Config<T>, load: Loader<T>, s: State, gone: set<string>)
    ensures var s' := Step(c, load, s, Lose(gone));
            && s'.visited == s.visited && s'.store.Keys == s.store.Keys - gone
            && forall i | i in s'.store :: s'.store[i] == s.store[i]
  {
  }

  lemma GetAllVisited<T(!new)>(c: Config<T>, f: Source<T>, load: Loader<T>, s: State, op: Op<T>, k: string)
    requires Inverse(c) && Answers(load, f) && Inv(c, f, s) && op.GetAll? && SetOf(op.items) == s.visited
    ensures Inner(c, k) in Step(c, load, s, op).visited <==> Inner(c, k) in s.visited && f(k).Some?
  {
    var keys := Outers(c, op.items);
    OutersInners(c, op.items);
    InInners(c, keys, k);
    var kvs := Find(c, Some(load), s.store, op.items, op.luck).kvs;
    if k in keys { FindAgrees(c, f, load, s.store, keys, op.luck, k); }
    assert Outer(c, Inner(c, k)) == k;
    assert Inner(c, k) in InnerSet(c, Unfound(kvs, keys)) <==> k in Unfound(kvs, keys) by {
      forall k' | k' in Unfound(kvs, keys) && Inner(c, k') == Inner(c, k) ensures k' == k {
        assert Outer(c, Inner(c, k')) == k';
      }
    }
  }

  /** The entry of a key after a Set. */
  lemma WrittenAt<T>(c: Config<T>, store: map<string, Blob>, kvs: map<string, T>, luck: Luck, k: string)
    ensures var w, i := Written(store, Sealed(c, kvs), luck), Inner(c, k);
            && (i in w ==> i !in luck.during)
            && (if k in kvs && c.seal(kvs[k]).Some? && i !in luck.refused
                then i !in luck.during ==> i in w && c.seal(kvs[k]) == Some(w[i])
                else (i in w <==> i in store && i !in luck.during) && (i in w ==> w[i] == store[i]))
  {
    SealedKey(c, kvs, k);
    SealedValue(c, kvs, k);
  }

  lemma SealedValue<T>(c: Config<T>, kvs: map<string, T>, k: string)
    ensures k in kvs && c.seal(kvs[k]).Some? ==>
              Inner(c, k) in Sealed(c, kvs) && c.seal(kvs[k]) == Some(Sealed(c, kvs)[Inner(c, k)])
  {
    SealedKey(c, kvs, k);
    if k in kvs && c.seal(kvs[k]).Some? {
      forall k' | k' in kvs && Inner(c, k') == Inner(c, k) ensures k' == k {
        assert Outer(c, Inner(c, k')) == k' && Outer(c, Inner(c, k)) == k;
      }
    }
  }

  lemma WrittenInner<T>(c: Config<T>, store: map<string, Blob>, kvs: map<string, T>, luck: Luck)
    requires forall i :: i in store ==> IsInner(c, i)
    ensures forall i :: i in Written(store, Sealed(c, kvs), luck) ==> IsInner(c, i)
  {
  }

  /** A Set keeps the store in agreement with the changed source if and only if every entry it fails to
      replace holds the new value already. */
  lemma SetExactly<T>(c: Config<T>, f: Source<T>, store: map<string, Blob>, kvs: map<string, T>, luck: Luck)
    requires Agrees(c, f, store)
    ensures Agrees(c, Changed(f, Set(kvs, luck)), Written(store, Sealed(c, kvs), luck))
            <==> forall k | k in kvs && (c.seal(kvs[k]).None? || Inner(c, k) in luck.refused) ::
                   Inner(c, k) in store && Inner(c, k) !in luck.during ==> c.seal(kvs[k]) == Some(store[Inner(c, k)])
  {
    var f', w := Changed(f, Set(kvs, luck)), Written(store, Sealed(c, kvs), luck);
    WrittenInner(c, store, kvs, luck);
    forall k ensures Inner(c, k) in w ==> Outer(c, Inner(c, k)) == k { WrittenAt(c, store, kvs, luck, k); }
    if Agrees(c, f', w) {
      forall k | k in kvs && (c.seal(kvs[k]).None? || Inner(c, k) in luck.refused)
        ensures Inner(c, k) in store && Inner(c, k) !in luck.during ==> c.seal(kvs[k]) == Some(store[Inner(c, k)])
      {
        WrittenAt(c, store, kvs, luck, k);
      }
    }
    if forall k | k in kvs && (c.seal(kvs[k]).None? || Inner(c, k) in luck.refused) ::
         Inner(c, k) in store && Inner(c, k) !in luck.during ==> c.seal(kvs[k]) == Some(store[Inner(c, k)])
    {
      forall i | i in w ensures f'(Outer(c, i)).Some? && c.seal(f'(Outer(c, i)).value) == Some(w[i]) {
        WrittenAt(c, store, kvs, luck, Outer(c, i));
      }
    }
  }

  lemma SetKeeps<T(!new)>(c: Config<T>, f: Source<T>, load: Loader<T>, s: State, op: Op<T>)
    requires Inv(c, f, s) && op.Set? && Legal(c, f, s, op)
    ensures Inv(c, Changed(f, op), Step(c, load, s, op))
  {
    forall k | k in op.kvs && (c.seal(op.kvs[k]).None? || Inner(c, k) in op.luck.refused)
      ensures Inner(c, k) in s.store ==> c.seal(op.kvs[k]) == Some(s.store[Inner(c, k)])
    {
      assert f(k) == Some(op.kvs[k]) && Outer(c, Inner(c, k)) == k;
    }
    SetExactly(c, f, s.store, op.kvs, op.luck);
    assert Sealed(c, op.kvs).Keys == set i | i in Sealed(c, op.kvs);
    assert Own(c, Sealed(c, op.kvs).Keys);
  }

  lemma StepKeeps<T(!new)>(c: Config<T>, f: Source<T>, load: Loader<T>, s: State, op: Op<T>)
    requires Inverse(c) && Answers(load, f) && Inv(c, f, s) && Legal(c, f, s, op)
    ensures Inv(c, Changed(f, op), Step(c, load, s, op))
  {
    match op
    case Get(_, _) => GetKeeps(c, f, load, s, op);
    case GetAll(_, _) => GetAllKeeps(c, f, load, s, op);
    case Set(_, _) => SetKeeps(c, f, load, s, op);
    case _ =>
  }

  /** A run with its source, which Sets change and the callback reads. */
  function Run<T>(c: Config<T>, f: Source<T>, s: State, ops: seq<Op<T>>): (State, Source<T>)
    decreases |ops|
  {
    if ops == [] then (s, f) else Run(c, Changed(f, ops[0]), Step(c, LoaderOf(f), s, ops[0]), ops[1..])
  }

  ghost predicate LegalRun<T>(c: Config<T>, f: Source<T>, s: State, ops: seq<Op<T>>)
    decreases |ops|
  {
    ops == [] ||
    (Legal(c, f, s, ops[0]) && LegalRun(c, Changed(f, ops[0]), Step(c, LoaderOf(f), s, ops[0]), ops[1..]))
  }

  lemma {:induction false} RunKeeps<T(!new)>(c: Config<T>, f: Source<T>, s: State, ops: seq<Op<T>>)
    requires Inverse(c) && Inv(c, f, s) && LegalRun(c, f, s, ops)
    ensures Inv(c, Run(c, f, s, ops).1, Run(c, f, s, ops).0)
    decreases |ops|
  {
    if ops != [] {
      StepKeeps(c, f, LoaderOf(f), s, ops[0]);
      RunKeeps(c, Changed(f, ops[0]), Step(c, LoaderOf(f), s, ops[0]), ops[1..]);
    }
  }

  /** After every run from an empty cache, with any losses and with a source that Sets change: Get returns
      the current source over the requested keys in order, GetAll over the visited keys, and Clear empties
      the store. */
  lemma CacheAgrees<T(!new)>(c: Config<T>, f0: Source<T>, ops: seq<Op<T>>, s: State, f: Source<T>, load: Loader<T>,
                             keys: seq<string>, items: seq<string>, luck: Luck)
    requires Inverse(c) && LegalRun(c, f0, State(map[], {}), ops)
    requires (s, f) == Run(c, f0, State(map[], {}), ops) && Answers(load, f)
    ensures Pick(Find(c, Some(load), s.store, Inners(c, keys), luck).kvs, keys) == Answer(f, keys)
    ensures SetOf(items) == s.visited ==>
              Pick(Find(c, Some(load), s.store, items, luck).kvs, Outers(c, items)) == Answer(f, Outers(c, items))
    ensures Step(c, load, s, Clear({})).store == map[]
  {
    RunKeeps(c, f0, State(map[], {}), ops);
    ReadAgrees(c, f, load, s.store, keys, luck);
    if SetOf(items) == s.visited {
      OutersInners(c, items);
      ReadAgrees(c, f, load, s.store, Outers(c, items), luck);
    }
    StuckExactly(c, f, load, s, [], {});
  }

  // ---------------------------------------------------------------------------------------------
  // What is cached is found, and only what is missed is loaded
  // ---------------------------------------------------------------------------------------------

  const NO_LOSS := Luck({}, {}, {})

  /** The value a read without a callback finds. */
  function Found<T>(c: Config<T>, store: map<string, Blob>, k: string): Option<T> {
    if Inner(c, k) in store then c.unseal(store[Inner(c, k)]) else None
  }

  lemma UnsealedAt<T>(c: Config<T>, store: map<string, Blob>, keys: seq<string>, k: string)
    requires k in keys
    ensures var hits := Unsealed(c, Cached(store, Inners(c, keys)));
            if k in hits then Found(c, store, k) == Some(hits[k]) else Found(c, store, k) == None
  {
    var m, i := Cached(store, Inners(c, keys)), Inner(c, k);
    InInners(c, keys, k);
    assert Outer(c, i) == k && IsInner(c, i);
    if k in Unsealed(c, m) {
      var i' :| i' in m && IsInner(c, i') && c.unseal(m[i']).Some? && Outer(c, i') == k;
      assert i' == i;
    }
  }

  /** The values of kvs that can be sealed, over those stored. */
  function UpdatedAt<T>(c: Config<T>, store: map<string, Blob>, kvs: map<string, T>, k: string): Option<T> {
    if k in kvs && c.seal(kvs[k]).Some? then Some(kvs[k]) else Found(c, store, k)
  }

  function Updated<T>(c: Config<T>, store: map<string, Blob>, kvs: map<string, T>): Source<T> {
    k => UpdatedAt(c, store, kvs, k)
  }

  function Sealable<T>(c: Config<T>, f: Source<T>): Source<T> {
    k => if f(k).Some? && c.seal(f(k).value).Some? then f(k) else None
  }

  lemma FindStored<T>(c: Config<T>, store: map<string, Blob>, inner: seq<string>)
    ensures Find<T>(c, None, store, inner, NO_LOSS).kvs == Unsealed(c, Cached(store, inner))
  {
    assert Lost(store, {}) == store;
  }

  /** Without a callback, Get returns what is stored and readable, in order. */
  lemma ReadStored<T>(c: Config<T>, store: map<string, Blob>, keys: seq<string>, g: Source<T>)
    requires forall k :: k in keys ==> g(k) == Found(c, store, k)
    ensures Pick(Find(c, None, store, Inners(c, keys), NO_LOSS).kvs, keys) == Answer(g, keys)
  {
    var kvs := Unsealed(c, Cached(store, Inners(c, keys)));
    FindStored(c, store, Inners(c, keys));
    forall k | k in keys ensures if k in kvs then g(k) == Some(kvs[k]) else g(k) == None {
      UnsealedAt(c, store, keys, k);
    }
    PickAgrees(g, kvs, keys);
  }

  lemma FoundAfterSet<T(!new)>(c: Config<T>, store: map<string, Blob>, kvs: map<string, T>, k: string)
    requires Inverse(c)
    ensures Found(c, Written(store, Sealed(c, kvs), NO_LOSS), k) == UpdatedAt(c, store, kvs, k)
  {
    var i, w := Inner(c, k), Written(store, Sealed(c, kvs), NO_LOSS);
    WrittenAt(c, store, kvs, NO_LOSS, k);
    assert i !in NO_LOSS.refused && i !in NO_LOSS.during;
    if k in kvs && c.seal(kvs[k]).Some? {
      assert i in w && c.unseal(w[i]) == Some(kvs[k]);
    }
  }

  lemma ReadAfterSet<T(!new)>(c: Config<T>, store: map<string, Blob>, kvs: map<string, T>, keys: seq<string>,
                              w: map<string, Blob>, g: Source<T>)
    requires Inverse(c) && w == Written(store, Sealed(c, kvs), NO_LOSS) && g == Updated(c, store, kvs)
    ensures Pick(Find(c, None, w, Inners(c, keys), NO_LOSS).kvs, keys) == Answer(g, keys)
  {
    forall k | k in keys ensures g(k) == Found(c, w, k) {
      FoundAfterSet(c, store, kvs, k);
      assert g(k) == UpdatedAt(c, store, kvs, k);
    }
    ReadStored(c, w, keys, g);
  }

  /** A Set that meets no loss replaces what was stored: a Get after it, with no callback, returns the new
      value of every key whose value can be sealed, and what it returned before for the others. */
  lemma SetThenGet<T(!new)>(c: Config<T>, load: Loader<T>, s: State, kvs: map<string, T>, keys: seq<string>, s': State)
    requires Inverse(c) && s' == Step(c, load, s, Set(kvs, NO_LOSS))
    ensures Pick(Find(c, None, s'.store, Inners(c, keys), NO_LOSS).kvs, keys) == Answer(Updated(c, s.store, kvs), keys)
  {
    ReadAfterSet(c, s.store, kvs, keys, s'.store, Updated(c, s.store, kvs));
  }

  lemma FoundAfterGet<T(!new)>(c: Config<T>, f: Source<T>, load: Loader<T>, store: map<string, Blob>,
                               keys: seq<string>, k: string)
    requires Inverse(c) && Answers(load, f) && Agrees(c, f, store) && k in keys
    ensures Found(c, Find(c, Some(load), store, Inners(c, keys), NO_LOSS).store, k) == Sealable(c, f)(k)
  {
    var missed := Missed(store, Inners(c, keys));
    assert Lost(store, {}) == store;
    LoadedAgrees(c, f, load, missed);
    WrittenAt(c, store, Loaded(c, Some(load), missed), NO_LOSS, k);
    MissedOuter(c, store, keys, k);
    assert Outer(c, Inner(c, k)) == k;
  }

  /** A Get that meets no loss stores what it loads: a Get of the same keys after it, with no callback,
      returns the source's values that can be sealed. */
  lemma GetThenGet<T(!new)>(c: Config<T>, f: Source<T>, load: Loader<T>, s: State, keys: seq<string>)
    requires Inverse(c) && Answers(load, f) && Inv(c, f, s)
    ensures var s' := Step(c, load, s, Get(keys, NO_LOSS));
            Pick(Find(c, None, s'.store, Inners(c, keys), NO_LOSS).kvs, keys) == Answer(Sealable(c, f), keys)
  {
    var w := Find(c, Some(load), s.store, Inners(c, keys), NO_LOSS).store;
    forall k | k in keys ensures Sealable(c, f)(k) == Found(c, w, k) { FoundAfterGet(c, f, load, s.store, keys, k); }
    ReadStored(c, w, keys, Sealable(c, f));
  }

  /** The callback is asked only for what the provider misses: two callbacks that agree on those keys, or
      any two when nothing is missed, give the same result and leave the same store. */
  lemma OnlyMissesLoaded<T>(c: Config<T>, load: Loader<T>, load': Loader<T>, store: map<string, Blob>,
                            inner: seq<string>, luck: Luck)
    requires var missed := Missed(Lost(store, luck.before), inner);
             missed == [] || load(Outers(c, missed)) == load'(Outers(c, missed))
    ensures Find(c, Some(load), store, inner, luck) == Find(c, Some(load'), store, inner, luck)
    ensures (forall i :: i in inner ==> i in Lost(store, luck.before)) ==>
              Find(c, Some(load), store, inner, luck) == Find(c, None, store, inner, luck)
  {
    MissedExactly(Lost(store, luck.before), inner);
    var missed := Missed(Lost(store, luck.before), inner);
    if missed != [] { assert missed[0] in missed; }
  }

  lemma ReadAgrees<T(!new)>(c: Config<T>, f: Source<T>, load: Loader<T>, store: map<string, Blob>,
                            keys: seq<string>, luck: Luck)
    requires Inverse(c) && Answers(load, f) && Agrees(c, f, store)
    ensures Pick(Find(c, Some(load), store, Inners(c, keys), luck).kvs, keys) == Answer(f, keys)
  {
    var kvs := Find(c, Some(load), store, Inners(c, keys), luck).kvs;
    forall k | k in keys ensures if k in kvs then f(k) == Some(kvs[k]) else f(k).None? {
      FindAgrees(c, f, load, store, keys, luck, k);
    }
    PickAgrees(f, kvs, keys);
  }

  /** Del and Clear drop their keys from `visited` even where the provider fails: stored keys stay
      visited, and Clear empties the store, if and only if no stored key is stuck. */
  lemma StuckExactly<T>(c: Config<T>, f: Source<T>, load: Loader<T>, s: State, keys: seq<string>,
                        stuck: set<string>)
    requires Inv(c, f, s)
    ensures var d, gone := Step(c, load, s, Del(keys, stuck)), SetOf(Inners(c, keys));
            d.store.Keys <= d.visited <==> gone * stuck * s.store.Keys == {}
    ensures Step(c, load, s, Clear(stuck)).store == map[] <==> stuck * s.store.Keys == {}
  {
    var d, gone, cl := Step(c, load, s, Del(keys, stuck)), SetOf(Inners(c, keys)), Step(c, load, s, Clear(stuck));
    forall i | i in gone * stuck * s.store.Keys ensures i in d.store && i !in d.visited {}
    forall i | i in stuck * s.store.Keys ensures i in cl.store {}
    if stuck * s.store.Keys == {} {
      assert cl.store.Keys == {} by {
        forall i | i in s.store ensures i !in cl.store { assert i !in stuck * s.store.Keys; }
      }
    }
    if gone * stuck * s.store.Keys == {} {
      forall i | i in d.store ensures i in d.visited { assert i !in gone * stuck * s.store.Keys; }
    }
  }

  lemma RunThree<T>(c: Config<T>, f: Source<T>, s: State, x: Op<T>, y: Op<T>, z: Op<T>)
    ensures var f1, s1 := Changed(f, x), Step(c, LoaderOf(f), s, x);
            var f2, s2 := Changed(f1, y), Step(c, LoaderOf(f1), s1, y);
            Run(c, f, s, [x, y, z]).0 == Step(c, LoaderOf(f2), s2, z)
  {
    var f1, s1 := Changed(f, x), Step(c, LoaderOf(f), s, x);
    var f2, s2 := Changed(f1, y), Step(c, LoaderOf(f1), s1, y);
    var f3, s3 := Changed(f2, z), Step(c, LoaderOf(f2), s2, z);
    assert [x, y, z][1..] == [y, z] && [y, z][1..] == [z] && [z][1..] == [];
    assert Run(c, f3, s3, []) == (s3, f3);
    assert Run(c, f2, s2, [z]) == Run(c, f3, s3, []);
    assert Run(c, f1, s1, [y, z]) == Run(c, f2, s2, [z]);
  }

  lemma SetOne<T>(c: Config<T>, load: Loader<T>, k: string, v: T, b: Blob)
    requires c.seal(v) == Some(b)
    ensures Step(c, load, State(map[], {}), Set(map[k := v], NO_LOSS))
            == State(map[Inner(c, k) := b], {Inner(c, k)})
  {
    var kvs: map<string, T>, stored: map<string, Blob> := map[k := v], map[Inner(c, k) := b];
    assert Sealed(c, kvs) == stored;
    assert Written(map[], stored, NO_LOSS) == stored;
  }

  lemma DelStuck<T>(c: Config<T>, load: Loader<T>, k: string, b: Blob)
    ensures Step(c, load, State(map[Inner(c, k) := b], {Inner(c, k)}), Del([k], {Inner(c, k)}))
            == State(map[Inner(c, k) := b], {})
  {
    assert Inners(c, [k]) == [Inner(c, k)] && SetOf([Inner(c, k)]) == {Inner(c, k)};
  }

  /** It happens: a Del of a stored key fails, and Clear does not find the key any more. */
  lemma StuckHappens<T>(c: Config<T>, f: Source<T>, k: string, v: T, b: Blob)
    requires c.seal(v) == Some(b)
    ensures var ops := [Set(map[k := v], NO_LOSS), Del([k], {Inner(c, k)}), Clear({})];
            Run(c, f, State(map[], {}), ops).0 == State(map[Inner(c, k) := b], {})
  {
    var x: Op<T>, y: Op<T>, z: Op<T> := Set(map[k := v], NO_LOSS), Del([k], {Inner(c, k)}), Clear({});
    SetOne(c, LoaderOf(f), k, v, b);
    DelStuck(c, LoaderOf(Changed(f, x)), k, b);
    RunThree(c, f, State(map[], {}), x, y, z);
  }
}
