/** Paging over an etcd prefix.

    etcd answers a range request with the stored keys from a start key up to an end key, in byte order
    and up to a limit, and says whether there are more.  The pagination starts the next page at the last
    key it delivered with a zero byte appended. */
module Etcd {
  import opened Options

  type Byte = b: int | 0 <= b < 256
  type Key = seq<Byte>

  datatype KeyValue = KeyValue(key: Key, value: string)

  // ---------------------------------------------------------------------------------------------
  // Byte order
  // ---------------------------------------------------------------------------------------------

  predicate Less(a: Key, b: Key) {
    b != [] && (a == [] || a[0] < b[0] || (a[0] == b[0] && Less(a[1..], b[1..])))
  }

  predicate AtLeast(k: Key, from: Key) { k == from || Less(from, k) }

  lemma {:induction false} LessTransitive(a: Key, b: Key, c: Key)
    requires Less(a, b) && Less(b, c)
    ensures Less(a, c)
    decreases |a|
  {
    if a != [] && a[0] == b[0] && b[0] == c[0] { LessTransitive(a[1..], b[1..], c[1..]); }
  }

  lemma {:induction false} LessIrreflexive(a: Key)
    ensures !Less(a, a)
    decreases |a|
  {
    if a != [] { LessIrreflexive(a[1..]); }
  }

  /** Appending a zero byte gives the successor: nothing lies between. */
  lemma {:induction false} Successor(a: Key, k: Key)
    ensures Less(a, k) <==> AtLeast(k, a + [0])
    decreases |a|
  {
    var s := a + [0];
    if a == [] {
      assert s == [0] && s[1..] == [];
      if k != [] && k[0] == 0 {
        assert k == [0] + k[1..];
        assert Less(s, k) <==> Less(s[1..], k[1..]);
        assert Less([], k[1..]) <==> k[1..] != [];
      }
    } else {
      assert s[0] == a[0] && s[1..] == a[1..] + [0];
      if k != [] && k[0] == a[0] {
        Successor(a[1..], k[1..]);
        assert k == [k[0]] + k[1..] && s == [s[0]] + s[1..];
      }
    }
  }

  // ---------------------------------------------------------------------------------------------
  // The prefix range
  // ---------------------------------------------------------------------------------------------

  /** The end of the range of a prefix: its last byte below 255 raised by one and the rest cut off.
      None stands for no upper end. */
  function PrefixEnd(prefix: Key): Option<Key> {
    if prefix == [] then None
    else
      var n := |prefix| - 1;
      if prefix[n] < 255 then Some(prefix[..n] + [prefix[n] + 1]) else PrefixEnd(prefix[..n])
  }

  predicate Before(k: Key, end: Option<Key>) { end.None? || Less(k, end.value) }

  predicate InRange(k: Key, from: Key, end: Option<Key>) { AtLeast(k, from) && Before(k, end) }

  lemma {:induction false} EndTail(x: Byte, p: Key)
    ensures PrefixEnd([x] + p) == match PrefixEnd(p)
                                  case Some(e) => Some([x] + e)
                                  case None => if x < 255 then Some([x + 1]) else None
    decreases |p|
  {
    if p != [] {
      var n := |p| - 1;
      assert ([x] + p)[..n + 1] == [x] + p[..n];
      EndTail(x, p[..n]);
      if p[n] < 255 { assert [x] + p[..n] + [p[n] + 1] == [x] + (p[..n] + [p[n] + 1]); }
    } else {
      assert [x] + p == [x] && [x][..0] == [] && [x][..0] + [x + 1] == [x + 1];
    }
  }

  /** The keys from a prefix up to its range end are exactly the keys with that prefix. */
  lemma {:induction false} RangeIsPrefix(prefix: Key, k: Key)
    ensures InRange(k, prefix, PrefixEnd(prefix)) <==> prefix <= k
    decreases |prefix|
  {
    if prefix != [] {
      var x, p := prefix[0], prefix[1..];
      assert prefix == [x] + p;
      EndTail(x, p);
      if k != [] && k[0] == x {
        RangeIsPrefix(p, k[1..]);
        assert k == [k[0]] + k[1..];
        RangeTail(x, p, k, PrefixEnd(p), PrefixEnd(prefix));
      } else if k != [] {
        RangeOtherHead(x, p, k, PrefixEnd(p), PrefixEnd(prefix));
      }
    }
  }

  lemma RangeTail(x: Byte, p: Key, k: Key, e: Option<Key>, end: Option<Key>)
    requires k != [] && k[0] == x
    requires end == match e case Some(t) => Some([x] + t) case None => if x < 255 then Some([x + 1]) else None
    ensures InRange(k, [x] + p, end) <==> InRange(k[1..], p, e)
  {
    assert ([x] + p)[1..] == p && k == [x] + k[1..];
    if e.Some? { assert ([x] + e.value)[1..] == e.value; }
  }

  lemma RangeOtherHead(x: Byte, p: Key, k: Key, e: Option<Key>, end: Option<Key>)
    requires k != [] && k[0] != x
    requires end == match e case Some(t) => Some([x] + t) case None => if x < 255 then Some([x + 1]) else None
    ensures !InRange(k, [x] + p, end)
  {
    if k[0] > x && end.Some? && e.None? { assert end.value == [x + 1] && !Less(k[1..], end.value[1..]); }
  }

  // ---------------------------------------------------------------------------------------------
  // The server
  // ---------------------------------------------------------------------------------------------

  ghost predicate Sorted(db: seq<KeyValue>) {
    forall i, j :: 0 <= i < j < |db| ==> Less(db[i].key, db[j].key)
  }

  /** The stored pairs from a key up to an end. */
  function Stored(db: seq<KeyValue>, from: Key, end: Option<Key>): seq<KeyValue> {
    if db == [] then []
    else if InRange(db[0].key, from, end) then [db[0]] + Stored(db[1..], from, end)
    else Stored(db[1..], from, end)
  }

  lemma {:induction false} StoredExactly(db: seq<KeyValue>, from: Key, end: Option<Key>)
    ensures forall kv :: kv in Stored(db, from, end) <==> kv in db && InRange(kv.key, from, end)
    decreases |db|
  {
    if db != [] { StoredExactly(db[1..], from, end); }
  }

  datatype Response = EmptyKey | Response(kvs: seq<KeyValue>, more: bool)

  /** A range request: an empty key is refused, and a limit of zero is none. */
  function Range(db: seq<KeyValue>, from: Key, end: Option<Key>, limit: nat): Response {
    if from == [] then EmptyKey
    else
      var all := Stored(db, from, end);
      if limit == 0 || |all| <= limit then Response(all, false) else Response(all[..limit], true)
  }

  class Pagination {
    const db: seq<KeyValue>
    const end: Option<Key>
    var limit: nat
    var more: bool
    var key: Key

    constructor (db: seq<KeyValue>, pattern: Key, pageSize: nat, cursor: Key)
      ensures this.db == db && end == PrefixEnd(pattern) && limit == pageSize && more
      ensures key == if cursor == [] then pattern else cursor + [0]
    {
      this.db, end, limit, more := db, PrefixEnd(pattern), pageSize, true;
      key := if cursor != [] then cursor + [0] else pattern;
    }

    method SetPageSize(pageSize: nat)
      modifies this`limit
      ensures limit == pageSize
    {
      limit := pageSize;
    }

    /** A page is the first `limit` of what is left, or all of it without a limit; the rest is left, and
        `more` says if there is any. */
    method Next() returns (ok: bool, kvs: seq<KeyValue>)
      requires Sorted(db)
      modifies this`more, this`key
      ensures ok <==> old(key) != []
      ensures !ok ==> more == old(more) && key == old(key) && kvs == []
      ensures ok ==> kvs == (if limit == 0 then Stored(db, old(key), end) else First(Stored(db, old(key), end), limit))
      ensures ok ==> Stored(db, key, end) == Stored(db, old(key), end)[|kvs|..]
      ensures ok ==> key != [] && (more <==> Stored(db, key, end) != [])
    {
      kvs := [];
      var result := Range(db, key, end, limit);
      if result.EmptyKey? {
        return false, kvs;
      }
      more := result.more;
      if |result.kvs| > 0 {
        NextStart(db, key, end, |result.kvs|);
        key := result.kvs[|result.kvs| - 1].key + [0];
        kvs := CopyAll(result.kvs);
      }
      return true, kvs;
    }

    function Cursor(): Key
      reads this
    {
      key
    }
  }

  method CopyAll(from: seq<KeyValue>) returns (kvs: seq<KeyValue>)
    ensures kvs == from
  {
    kvs := [];
    var i := 0;
    while i < |from|
      invariant i <= |from| && kvs == from[..i]
    {
      kvs := kvs + [KeyValue(from[i].key, from[i].value)];
      i := i + 1;
    }
  }

  function First(s: seq<KeyValue>, n: nat): seq<KeyValue> { if |s| <= n then s else s[..n] }

  // ---------------------------------------------------------------------------------------------
  // What is left
  // ---------------------------------------------------------------------------------------------

  lemma {:induction false} StoredSorted(db: seq<KeyValue>, from: Key, end: Option<Key>)
    requires Sorted(db)
    ensures Sorted(Stored(db, from, end))
    decreases |db|
  {
    if db != [] {
      StoredSorted(db[1..], from, end);
      StoredExactly(db[1..], from, end);
      var rest := Stored(db[1..], from, end);
      forall j | 0 <= j < |rest| ensures Less(db[0].key, rest[j].key) {
        assert rest[j] in rest && rest[j] in db[1..];
      }
    }
  }

  /** Starting later keeps the later part. */
  lemma {:induction false} StoredLater(db: seq<KeyValue>, from: Key, later: Key, end: Option<Key>)
    requires AtLeast(later, from)
    ensures Stored(db, later, end) == Stored(Stored(db, from, end), later, end)
    decreases |db|
  {
    if db != [] {
      StoredLater(db[1..], from, later, end);
      var k := db[0].key;
      if Less(from, later) && Less(later, k) { LessTransitive(from, later, k); }
      if InRange(k, from, end) {
        var rest := Stored(db[1..], from, end);
        assert ([db[0]] + rest)[1..] == rest;
      }
    }
  }

  lemma {:induction false} StoredAll(s: seq<KeyValue>, from: Key, end: Option<Key>)
    requires forall j :: 0 <= j < |s| ==> InRange(s[j].key, from, end)
    ensures Stored(s, from, end) == s
    decreases |s|
  {
    if s != [] {
      StoredAll(s[1..], from, end);
      assert s == [s[0]] + s[1..];
    }
  }

  lemma {:induction false} StoredSplit(s: seq<KeyValue>, from: Key, end: Option<Key>, n: nat)
    requires n <= |s| && (forall j :: 0 <= j < n ==> !InRange(s[j].key, from, end))
    requires forall j :: n <= j < |s| ==> InRange(s[j].key, from, end)
    ensures Stored(s, from, end) == s[n..]
    decreases n
  {
    if n == 0 {
      assert s[0..] == s;
      StoredAll(s, from, end);
    } else {
      assert s[1..][n - 1..] == s[n..];
      StoredSplit(s[1..], from, end, n - 1);
    }
  }

  lemma AllInRange(db: seq<KeyValue>, from: Key, end: Option<Key>, s: seq<KeyValue>)
    requires s == Stored(db, from, end)
    ensures forall j :: 0 <= j < |s| ==> InRange(s[j].key, from, end)
  {
    StoredExactly(db, from, end);
    forall j | 0 <= j < |s| ensures InRange(s[j].key, from, end) { assert s[j] in s; }
  }

  /** After n delivered pairs, the successor of the last one starts exactly at the rest. */
  lemma NextStart(db: seq<KeyValue>, from: Key, end: Option<Key>, n: nat)
    requires Sorted(db) && 0 < n <= |Stored(db, from, end)|
    ensures Stored(db, Stored(db, from, end)[n - 1].key + [0], end) == Stored(db, from, end)[n..]
  {
    var s := Stored(db, from, end);
    var last := s[n - 1].key;
    StoredSorted(db, from, end);
    AllInRange(db, from, end, s);
    Successor(last, last + [0]);
    if Less(from, last) { LessTransitive(from, last, last + [0]); }
    StoredLater(db, from, last + [0], end);
    forall j | 0 <= j < |s| ensures InRange(s[j].key, last + [0], end) <==> j >= n { AfterLast(s, end, n, j); }
    StoredSplit(s, last + [0], end, n);
  }

  /** In a sorted list the successor of the n-th key lies after it and at or before the next. */
  lemma AfterLast(s: seq<KeyValue>, end: Option<Key>, n: nat, j: nat)
    requires Sorted(s) && 0 < n <= |s| && j < |s| && Before(s[j].key, end)
    ensures InRange(s[j].key, s[n - 1].key + [0], end) <==> j >= n
  {
    var last := s[n - 1].key;
    Successor(last, s[j].key);
    LessIrreflexive(last);
    if j < n - 1 && Less(last, s[j].key) { LessTransitive(last, s[j].key, last); }
  }

  // ---------------------------------------------------------------------------------------------
  // Whole traversals
  // ---------------------------------------------------------------------------------------------

  /** The pages of the given sizes from a start key: what they deliver, the next start, and `more`. */
  datatype Traversal = Traversal(kvs: seq<KeyValue>, key: Key, more: bool)

  function Page(db: seq<KeyValue>, end: Option<Key>, t: Traversal, size: nat): Traversal {
    match Range(db, t.key, end, size)
    case EmptyKey => t
    case Response(kvs, more) => Traversal(t.kvs + kvs, if kvs == [] then t.key else kvs[|kvs| - 1].key + [0], more)
  }

  function Pages(db: seq<KeyValue>, end: Option<Key>, t: Traversal, sizes: seq<nat>): Traversal
    decreases |sizes|
  {
    if sizes == [] then t else Pages(db, end, Page(db, end, t, sizes[0]), sizes[1..])
  }

  function Sum(sizes: seq<nat>): nat { if sizes == [] then 0 else sizes[0] + Sum(sizes[1..]) }

  /** `all` is split into what has been delivered and what is stored from the next key on. */
  ghost predicate Splits(db: seq<KeyValue>, end: Option<Key>, t: Traversal, all: seq<KeyValue>) {
    t.key != [] && t.kvs <= all && Stored(db, t.key, end) == all[|t.kvs|..]
  }

  /** One page. */
  lemma PageSplit(db: seq<KeyValue>, end: Option<Key>, t: Traversal, size: nat, all: seq<KeyValue>, u: Traversal)
    requires Sorted(db) && Splits(db, end, t, all) && size > 0 && u == Page(db, end, t, size)
    ensures Splits(db, end, u, all) && (u.more <==> |u.kvs| < |all|)
    ensures |u.kvs| == if |t.kvs| + size <= |all| then |t.kvs| + size else |all|
  {
    var left := Stored(db, t.key, end);
    var n := if |left| <= size then |left| else size;
    if n > 0 { NextStart(db, t.key, end, n); }
    assert all[|t.kvs|..][n..] == all[|t.kvs| + n..];
    assert u.kvs == t.kvs + left[..n];
  }

  lemma {:induction false} PagesSplit(db: seq<KeyValue>, end: Option<Key>, t: Traversal, sizes: seq<nat>,
                                      all: seq<KeyValue>)
    requires Sorted(db) && Splits(db, end, t, all) && (forall i :: 0 <= i < |sizes| ==> sizes[i] > 0)
    ensures var u := Pages(db, end, t, sizes);
            && Splits(db, end, u, all)
            && |u.kvs| == (if |t.kvs| + Sum(sizes) <= |all| then |t.kvs| + Sum(sizes) else |all|)
            && (sizes != [] ==> (u.more <==> |u.kvs| < |all|))
    decreases |sizes|
  {
    if sizes != [] {
      var u := Page(db, end, t, sizes[0]);
      PageSplit(db, end, t, sizes[0], all, u);
      PagesSplit(db, end, u, sizes[1..], all);
    }
  }

  /** A traversal of a non-empty prefix in pages of any positive sizes delivers the pairs with that
      prefix in byte order, each once; it says there are more until all are delivered. */
  lemma PagesArePrefix(db: seq<KeyValue>, pattern: Key, sizes: seq<nat>)
    requires Sorted(db) && pattern != [] && (forall i :: 0 <= i < |sizes| ==> sizes[i] > 0)
    ensures var end := PrefixEnd(pattern);
            var all, u := Stored(db, pattern, end), Pages(db, end, Traversal([], pattern, true), sizes);
            && Sorted(all) && (forall kv :: kv in all <==> kv in db && pattern <= kv.key)
            && u.kvs == First(all, Sum(sizes))
            && (sizes != [] ==> (u.more <==> Sum(sizes) < |all|))
            && Stored(db, u.key, end) == all[|u.kvs|..]
  {
    var end := PrefixEnd(pattern);
    var all := Stored(db, pattern, end);
    StoredSorted(db, pattern, end);
    StoredExactly(db, pattern, end);
    forall kv | kv in db ensures InRange(kv.key, pattern, end) <==> pattern <= kv.key {
      RangeIsPrefix(pattern, kv.key);
    }
    assert all[0..] == all;
    PagesSplit(db, end, Traversal([], pattern, true), sizes, all);
  }

  /** A new pagination from the cursor c of another one starts one zero byte further: it delivers what
      was left if and only if c itself is not among it, and otherwise everything but c. */
  lemma ResumeExact(db: seq<KeyValue>, c: Key, end: Option<Key>)
    requires Sorted(db)
    ensures var left, resumed := Stored(db, c, end), Stored(db, c + [0], end);
            if exists kv :: kv in left && kv.key == c
            then left[0].key == c && resumed == left[1..]
            else resumed == left
  {
    var left := Stored(db, c, end);
    StoredSorted(db, c, end);
    AllInRange(db, c, end, left);
    Successor(c, c + [0]);
    StoredLater(db, c, c + [0], end);
    LessIrreflexive(c);
    forall j | 0 <= j < |left| ensures InRange(left[j].key, c + [0], end) <==> left[j].key != c {
      Successor(c, left[j].key);
    }
    if exists kv :: kv in left && kv.key == c {
      var j :| 0 <= j < |left| && left[j].key == c;
      FirstIsLeast(left, c, j);
      StoredSplit(left, c + [0], end, 1);
    } else {
      forall m | 0 <= m < |left| ensures left[m].key != c { assert left[m] in left; }
      StoredSplit(left, c + [0], end, 0);
      assert left[0..] == left;
    }
  }

  lemma FirstIsLeast(left: seq<KeyValue>, c: Key, j: nat)
    requires Sorted(left) && j < |left| && left[j].key == c
    requires forall m :: 0 <= m < |left| ==> AtLeast(left[m].key, c)
    ensures j == 0 && forall m :: 1 <= m < |left| ==> left[m].key != c
  {
    LessIrreflexive(c);
    if j > 0 && Less(c, left[0].key) { LessTransitive(c, left[0].key, c); }
    forall m | 1 <= m < |left| ensures left[m].key != c { assert Less(left[0].key, left[m].key); }
  }

  /** Such a key is dropped: with a and a followed by a zero byte stored, a page of one pair leaves one
      pair, and a new pagination from the cursor after that page finds nothing. */
  lemma ResumeDrops(a: Key, x: string, y: string)
    requires a != []
    ensures var db, end := [KeyValue(a, x), KeyValue(a + [0], y)], PrefixEnd(a);
            var cursor := Page(db, end, Traversal([], a, true), 1).key;
            Sorted(db) && Stored(db, cursor, end) == [db[1]] && Stored(db, cursor + [0], end) == []
  {
    var db, end := [KeyValue(a, x), KeyValue(a + [0], y)], PrefixEnd(a);
    Successor(a, a + [0]);
    assert Sorted(db);
    RangeIsPrefix(a, a);
    RangeIsPrefix(a, a + [0]);
    StoredAll(db, a, end);
    assert db[..1] == [db[0]] && db[1..] == [db[1]];
    NextStart(db, a, end, 1);
    ResumeExact(db, a + [0], end);
    assert db[1] in [db[1]];
  }
}
