/** Listing, paging and deleting a ZooKeeper subtree.

    A node maps to its data and the names of its children.  Get with a prefix, Del with a prefix and
    the pagination each grow a list of keys while walking it, so that a node's children join the end
    of the list when the node is reached. */
module Zk {
  import opened Options

  type Path = string
  type Name = n: string | n != "" && '/' !in n witness "a"

  datatype Node = Node(data: string, kids: seq<Name>)
  type Store = map<Path, Node>

  /** The key the code gives to child n of p. */
  function Join(p: Path, n: Name): Path { p + "/" + n }

  function Kids(st: Store, p: Path): seq<Path>
    requires p in st
  {
    seq(|st[p].kids|, i requires 0 <= i < |st[p].kids| => Join(p, st[p].kids[i]))
  }

  ghost predicate Distinct<T>(s: seq<T>) { forall i, j :: 0 <= i < j < |s| ==> s[i] != s[j] }

  /** ZooKeeper never returns a child twice. */
  ghost predicate StoreOk(st: Store) { forall p | p in st :: Distinct(st[p].kids) }

  // ---------------------------------------------------------------------------------------------
  // Keys
  // ---------------------------------------------------------------------------------------------

  /** Where the last '/' of a key is; 0 if there is none. */
  function LastSlash(p: Path): (i: nat)
    ensures i <= |p| && (i > 0 ==> i < |p| && p[i] == '/')
  {
    if p == "" then 0 else if p[|p| - 1] == '/' then |p| - 1 else LastSlash(p[..|p| - 1])
  }

  function Parent(p: Path): Path { p[..LastSlash(p)] }

  lemma {:induction false} LastSlashOf(p: Path, s: string)
    requires '/' !in s
    ensures LastSlash(p + "/" + s) == |p|
    decreases |s|
  {
    var k := p + "/" + s;
    if s != "" {
      assert k[|k| - 1] == s[|s| - 1] && k[|k| - 1] in s;
      assert k[..|k| - 1] == p + "/" + s[..|s| - 1];
      LastSlashOf(p, s[..|s| - 1]);
    }
  }

  lemma ParentOfJoin(p: Path, n: Name)
    ensures Parent(Join(p, n)) == p
  {
    LastSlashOf(p, n);
  }

  lemma KidsFacts(st: Store, p: Path)
    requires StoreOk(st) && p in st
    ensures Distinct(Kids(st, p))
    ensures forall i :: 0 <= i < |Kids(st, p)| ==> Parent(Kids(st, p)[i]) == p && |Kids(st, p)[i]| > |p|
  {
    var names, kids := st[p].kids, Kids(st, p);
    forall i | 0 <= i < |kids| ensures Parent(kids[i]) == p && kids[i][|p| + 1..] == names[i] {
      ParentOfJoin(p, names[i]);
    }
  }

  // ---------------------------------------------------------------------------------------------
  // The breadth-first list
  // ---------------------------------------------------------------------------------------------

  /** A state of the walk from root: the first i keys are expanded, each key is there once, and each
      key but the first was appended by an expanded parent. */
  ghost predicate Walking(st: Store, root: Path, keys: seq<Path>, i: nat) {
    && StoreOk(st) && i <= |keys| && keys != [] && keys[0] == root
    && Distinct(keys)
    && (forall j :: 0 <= j < i ==> keys[j] in st)
    && Grown(keys, i)
    && (forall j :: 0 <= j < |keys| ==> |keys[j]| >= |root|)
  }

  ghost predicate Grown(keys: seq<Path>, i: nat)
    requires i <= |keys|
  {
    forall j {:trigger Parent(keys[j])} :: 0 < j < |keys| ==>
      Parent(keys[j]) in keys[..i] && Parent(keys[j]) in keys[..j]
  }

  lemma GrowMore(keys: seq<Path>, i: nat, kids: seq<Path>)
    requires i < |keys| && Grown(keys, i) && forall c :: 0 <= c < |kids| ==> Parent(kids[c]) == keys[i]
    ensures Grown(keys + kids, i + 1)
  {
    var more := keys + kids;
    forall j | 0 < j < |more| ensures Parent(more[j]) in more[..i + 1] && Parent(more[j]) in more[..j] {
      GrowAt(keys, i, kids, j, Parent(more[j]));
    }
  }

  lemma GrowAt(keys: seq<Path>, i: nat, kids: seq<Path>, j: nat, p: Path)
    requires i < |keys| && 0 < j < |keys + kids|
    requires if j < |keys| then p in keys[..i] && p in keys[..j] else p == keys[i]
    ensures p in (keys + kids)[..i + 1] && p in (keys + kids)[..j]
  {
    var more := keys + kids;
    assert more[..i + 1] == keys[..i] + [keys[i]];
    if j < |keys| {
      assert more[..j] == keys[..j];
    } else {
      assert more[..j][i] == keys[i];
    }
  }

  /** A key that is not expanded yet has no child in the list. */
  lemma KidsFresh(st: Store, root: Path, keys: seq<Path>, i: nat, j: nat, c: nat)
    requires Walking(st, root, keys, i) && i <= j < |keys| && keys[j] in st && c < |Kids(st, keys[j])|
    ensures Kids(st, keys[j])[c] !in keys
  {
    KidsFacts(st, keys[j]);
    assert keys[j] !in keys[..i];
  }

  lemma DistinctConcat<T>(a: seq<T>, b: seq<T>)
    requires Distinct(a) && Distinct(b) && forall i :: 0 <= i < |b| ==> b[i] !in a
    ensures Distinct(a + b)
  {
    var s := a + b;
    forall i, j | 0 <= i < j < |s| ensures s[i] != s[j] {
      if i < |a| <= j { assert s[i] in a && s[j] == b[j - |a|]; }
    }
  }

  lemma Expand(st: Store, root: Path, keys: seq<Path>, i: nat)
    requires Walking(st, root, keys, i) && i < |keys| && keys[i] in st
    ensures Walking(st, root, keys + Kids(st, keys[i]), i + 1)
  {
    var kids := Kids(st, keys[i]);
    var more := keys + kids;
    KidsFacts(st, keys[i]);
    forall c | 0 <= c < |kids| ensures kids[c] !in keys { KidsFresh(st, root, keys, i, i, c); }
    DistinctConcat(keys, kids);
    GrowMore(keys, i, kids);
  }

  lemma {:induction false} Bounded(keys: seq<Path>, ps: set<Path>)
    requires Distinct(keys) && forall j :: 0 <= j < |keys| ==> keys[j] in ps
    ensures |keys| <= |ps|
    decreases |keys|
  {
    if keys != [] {
      var n := |keys| - 1;
      assert forall j :: 0 <= j < n ==> keys[j] != keys[n];
      Bounded(keys[..n], ps - {keys[n]});
    }
  }

  lemma WalkBounded(st: Store, root: Path, keys: seq<Path>, i: nat)
    requires Walking(st, root, keys, i)
    ensures i <= |st|
  {
    Bounded(keys[..i], st.Keys);
    assert |st.Keys| == |st|;
  }

  /** The list the walk ends with, or nothing if it meets a key that is not there. */
  ghost function Walk(st: Store, root: Path, keys: seq<Path>, i: nat): (r: Option<seq<Path>>)
    requires Walking(st, root, keys, i)
    ensures r.Some? ==> keys <= r.value && Walking(st, root, r.value, |r.value|)
    decreases |st| - i
  {
    WalkBounded(st, root, keys, i);
    if i == |keys| then Some(keys)
    else if keys[i] !in st then None
    else
      Expand(st, root, keys, i);
      WalkBounded(st, root, keys + Kids(st, keys[i]), i + 1);
      Walk(st, root, keys + Kids(st, keys[i]), i + 1)
  }

  lemma Start(st: Store, root: Path)
    requires StoreOk(st)
    ensures Walking(st, root, [root], 0)
  {
  }

  ghost function Listing(st: Store, root: Path): Option<seq<Path>>
    requires StoreOk(st)
  {
    Start(st, root);
    Walk(st, root, [root], 0)
  }

  /** The loop of prefix Get and of prefix Del: an error is a key that is not there. */
  method ListKeys(st: Store, root: Path) returns (ok: bool, keys: seq<Path>)
    requires StoreOk(st)
    ensures Listing(st, root) == if ok then Some(keys) else None
  {
    keys := [root];
    var i := 0;
    Start(st, root);
    while i < |keys|
      invariant Walking(st, root, keys, i)
      invariant Walk(st, root, keys, i) == Listing(st, root)
      decreases |st| - i
    {
      WalkBounded(st, root, keys, i);
      if keys[i] !in st {
        return false, keys;
      }
      Expand(st, root, keys, i);
      keys := AppendKids(st, keys, keys[i]);
      i := i + 1;
      WalkBounded(st, root, keys, i);
    }
    return true, keys;
  }

  method AppendKids(st: Store, keys: seq<Path>, parent: Path) returns (more: seq<Path>)
    requires parent in st
    ensures more == keys + Kids(st, parent)
  {
    more := keys;
    var c := 0;
    while c < |st[parent].kids|
      invariant c <= |st[parent].kids| && more == keys + Kids(st, parent)[..c]
    {
      more := more + [Join(parent, st[parent].kids[c])];
      c := c + 1;
    }
  }

  // ---------------------------------------------------------------------------------------------
  // The list is the subtree
  // ---------------------------------------------------------------------------------------------

  /** The real path of child n of p. */
  function RealJoin(p: Path, n: Name): Path { if p == "/" then "/" + n else p + "/" + n }

  lemma ParentOfRealJoin(p: Path, n: Name)
    ensures Parent(RealJoin(p, n)) == if p == "/" then "" else p
  {
    LastSlashOf(if p == "/" then "" else p, n);
    assert "" + "/" + n == "/" + n;
  }

  predicate IsPath(p: Path) {
    && p != "" && p[0] == '/'
    && (forall i :: 0 <= i < |p| - 1 ==> !(p[i] == '/' && p[i + 1] == '/'))
    && (|p| > 1 ==> p[|p| - 1] != '/')
  }

  ghost predicate HasParent(st: Store, p: Path) {
    exists q, n: Name :: q in st && n in st[q].kids && RealJoin(q, n) == p
  }

  /** The nodes form a tree of absolute paths: every child is there, and every node but the root is a
      child of its parent. */
  ghost predicate Tree(st: Store) {
    && StoreOk(st)
    && (forall p | p in st :: IsPath(p))
    && (forall p, n | p in st && n in st[p].kids :: RealJoin(p, n) in st)
    && (forall p | p in st && p != "/" :: HasParent(st, p))
  }

  predicate Under(root: Path, p: Path) { p == root || root + "/" <= p }

  lemma UnderParent(root: Path, p: Path)
    requires root != "" && p != root && Under(root, p)
    ensures |Parent(p)| < |p| && LastSlash(p) >= |root| && Under(root, Parent(p))
  {
    var s := p[|root| + 1..];
    assert p == root + "/" + s;
    LastSlashBeyond(root, s);
  }

  lemma {:induction false} LastSlashBeyond(root: Path, s: string)
    requires root != ""
    ensures var p := root + "/" + s; |root| <= LastSlash(p) < |p| && Under(root, Parent(p))
    decreases |s|
  {
    var p := root + "/" + s;
    if s != "" && s[|s| - 1] == '/' {
      assert p[|p| - 1] == '/';
      assert Parent(p) == root + "/" + s[..|s| - 1];
    } else if s != "" {
      assert p[|p| - 1] == s[|s| - 1];
      assert p[..|p| - 1] == root + "/" + s[..|s| - 1];
      LastSlashBeyond(root, s[..|s| - 1]);
      assert Parent(p) == Parent(p[..|p| - 1]);
    } else {
      assert p[|p| - 1] == '/' && Parent(p) == root;
    }
  }

  /** The first i keys exist and have all their children in the list. */
  ghost predicate ClosedTo(st: Store, keys: seq<Path>, i: nat) {
    && i <= |keys|
    && (forall j :: 0 <= j < i ==> keys[j] in st)
    && (forall j, k {:trigger k in Kids(st, keys[j])} :: 0 <= j < i && k in Kids(st, keys[j]) ==> k in keys)
  }

  lemma ClosedMore(st: Store, keys: seq<Path>, i: nat)
    requires ClosedTo(st, keys, i) && i < |keys| && keys[i] in st
    ensures ClosedTo(st, keys + Kids(st, keys[i]), i + 1)
  {
  }

  /** The state of a walk over a tree below a proper path: every key exists, lies below root, and
      expanded keys have all their children in the list. */
  ghost predicate Below(st: Store, root: Path, keys: seq<Path>, i: nat) {
    && i <= |keys|
    && (forall j :: 0 <= j < |keys| ==> keys[j] in st && Under(root, keys[j]))
    && ClosedTo(st, keys, i)
  }

  lemma ExpandBelow(st: Store, root: Path, keys: seq<Path>, i: nat)
    requires Tree(st) && root in st && root != "/" && Below(st, root, keys, i) && i < |keys|
    ensures Below(st, root, keys + Kids(st, keys[i]), i + 1)
  {
    var kids := Kids(st, keys[i]);
    ClosedMore(st, keys, i);
    assert keys[i] != "/" by { assert IsPath(root); }
    forall c | 0 <= c < |kids| ensures kids[c] in st && Under(root, kids[c]) {
      var n := st[keys[i]].kids[c];
      assert n in st[keys[i]].kids && RealJoin(keys[i], n) == kids[c];
      assert root + "/" <= kids[c];
    }
  }

  lemma {:induction false} WalkBelow(st: Store, root: Path, keys: seq<Path>, i: nat)
    requires Tree(st) && root in st && root != "/" && Walking(st, root, keys, i) && Below(st, root, keys, i)
    ensures Walk(st, root, keys, i).Some?
    ensures var l := Walk(st, root, keys, i).value; Below(st, root, l, |l|)
    decreases |st| - i
  {
    WalkBounded(st, root, keys, i);
    if i < |keys| {
      Expand(st, root, keys, i);
      WalkBounded(st, root, keys + Kids(st, keys[i]), i + 1);
      ExpandBelow(st, root, keys, i);
      WalkBelow(st, root, keys + Kids(st, keys[i]), i + 1);
    }
  }

  lemma {:induction false} Reached(st: Store, root: Path, l: seq<Path>, p: Path)
    requires Tree(st) && root in st && root != "/" && Below(st, root, l, |l|) && root in l
    requires p in st && Under(root, p)
    ensures p in l
    decreases |p|
  {
    if p != root {
      assert IsPath(root);
      UnderParent(root, p);
      var q, n: Name :| q in st && n in st[q].kids && RealJoin(q, n) == p;
      ParentOfRealJoin(q, n);
      Reached(st, root, l, q);
      var j :| 0 <= j < |l| && l[j] == q;
      var c :| 0 <= c < |st[q].kids| && st[q].kids[c] == n;
      assert Kids(st, l[j])[c] == p && p in Kids(st, l[j]);
    }
  }

  /** A prefix listing has every node of the subtree, each once, and nothing else. */
  lemma ListingIsSubtree(st: Store, root: Path)
    requires Tree(st) && root in st && root != "/"
    ensures Listing(st, root).Some?
    ensures var l := Listing(st, root).value; Distinct(l) && forall p :: p in l <==> p in st && Under(root, p)
  {
    Start(st, root);
    WalkBelow(st, root, [root], 0);
    var l := Listing(st, root).value;
    assert l[0] == root;
    forall p | p in st && Under(root, p) ensures p in l { Reached(st, root, l, p); }
  }

  /** On a tree, listing fails exactly on a missing node and on "/" with children: the key made for
      a child of "/" starts with two slashes. */
  lemma ListingFailsExactly(st: Store, root: Path)
    requires Tree(st)
    ensures Listing(st, root).Some? <==> root in st && (root != "/" || st["/"].kids == [])
  {
    Start(st, root);
    if root in st && root != "/" {
      ListingIsSubtree(st, root);
    } else if root in st {
      Expand(st, root, [root], 0);
      if st["/"].kids != [] { DoubleSlash(st, st["/"].kids[0]); }
      RootWalk(st, [root] + Kids(st, root));
    }
  }

  lemma DoubleSlash(st: Store, n: Name)
    requires Tree(st)
    ensures Join("/", n) !in st
  {
    var k := Join("/", n);
    assert k[0] == '/' && k[1] == '/' && !IsPath(k);
  }

  lemma RootWalk(st: Store, keys: seq<Path>)
    requires Walking(st, "/", keys, 1) && (|keys| > 1 ==> keys[1] !in st)
    ensures Walk(st, "/", keys, 1).Some? <==> |keys| == 1
  {
  }

  /** Prefix Get: the keys of the listing with their data. */
  method PrefixGet(st: Store, root: Path, keysOnly: bool)
    returns (ok: bool, keys: seq<Path>, multi: map<Path, Option<string>>)
    requires StoreOk(st)
    ensures Listing(st, root) == if ok then Some(keys) else None
    ensures ok ==> multi.Keys == (set k | k in keys)
    ensures forall k | ok && k in keys :: k in st && multi[k] == Entry(st, keysOnly, k).val
  {
    multi := map[];
    ok, keys := ListKeys(st, root);
    if ok {
      multi := GetEach(st, keys, keysOnly);
    }
  }

  method GetEach(st: Store, keys: seq<Path>, keysOnly: bool) returns (multi: map<Path, Option<string>>)
    requires forall j :: 0 <= j < |keys| ==> keys[j] in st
    ensures multi.Keys == set k | k in keys
    ensures forall k | k in keys :: multi[k] == Entry(st, keysOnly, k).val
  {
    multi := map[];
    var i := 0;
    while i < |keys|
      invariant i <= |keys|
      invariant multi.Keys == set k | k in keys[..i]
      invariant forall k | k in keys[..i] :: k in st && multi[k] == Entry(st, keysOnly, k).val
    {
      assert keys[..i + 1] == keys[..i] + [keys[i]];
      multi := multi[keys[i] := Entry(st, keysOnly, keys[i]).val];
      i := i + 1;
    }
    assert keys[..i] == keys;
  }

  // ---------------------------------------------------------------------------------------------
  // Pages
  // ---------------------------------------------------------------------------------------------

  datatype KeyValue = KeyValue(key: Path, val: Option<string>)

  function Entry(st: Store, keysOnly: bool, k: Path): KeyValue
    requires k in st
  {
    KeyValue(k, if keysOnly then None else Some(st[k].data))
  }

  function Entries(st: Store, keysOnly: bool, keys: seq<Path>): seq<KeyValue>
    requires forall j :: 0 <= j < |keys| ==> keys[j] in st
  {
    seq(|keys|, i requires 0 <= i < |keys| => Entry(st, keysOnly, keys[i]))
  }

  /** A page: what it delivers, and the key list and cursor it leaves. */
  datatype Page = Page(ok: bool, kvs: seq<KeyValue>, keys: seq<Path>, cursor: nat)

  function Turn(st: Store, keysOnly: bool, keys: seq<Path>, cursor: nat, n: nat): Page
    decreases n
  {
    if n == 0 || cursor >= |keys| then Page(true, [], keys, cursor)
    else if keys[cursor] !in st then
      if keysOnly then Page(false, [KeyValue(keys[cursor], None)], keys, cursor + 1) else Page(false, [], keys, cursor)
    else
      var rest := Turn(st, keysOnly, keys + Kids(st, keys[cursor]), cursor + 1, n - 1);
      rest.(kvs := [Entry(st, keysOnly, keys[cursor])] + rest.kvs)
  }

  /** A page that fails stops at the first key that does not exist, with what it has read before: a page of
      keys only has that key too, and is past it. */
  lemma {:induction false} PageFailsAt(st: Store, keysOnly: bool, keys: seq<Path>, cursor: nat, n: nat) returns (i: nat)
    requires cursor <= |keys| && !Turn(st, keysOnly, keys, cursor, n).ok
    ensures var p := Turn(st, keysOnly, keys, cursor, n);
            && cursor <= i < |p.keys| && keys <= p.keys && p.keys[i] !in st
            && (forall j :: cursor <= j < i ==> p.keys[j] in st)
            && p.kvs == Entries(st, keysOnly, p.keys[cursor..i])
                        + (if keysOnly then [KeyValue(p.keys[i], None)] else [])
            && p.cursor == if keysOnly then i + 1 else i
    decreases n
  {
    i := cursor;
    if keys[cursor] in st {
      var more := keys + Kids(st, keys[cursor]);
      i := PageFailsAt(st, keysOnly, more, cursor + 1, n - 1);
      var p := Turn(st, keysOnly, keys, cursor, n);
      assert p.keys[cursor] == more[cursor] == keys[cursor];
      assert p.keys[cursor..i] == [keys[cursor]] + p.keys[cursor + 1..i];
      EntriesFirst(st, keysOnly, keys[cursor], p.keys[cursor + 1..i]);
    }
  }

  lemma EntriesFirst(st: Store, keysOnly: bool, k: Path, keys: seq<Path>)
    requires k in st && forall j :: 0 <= j < |keys| ==> keys[j] in st
    ensures Entries(st, keysOnly, [k] + keys) == [Entry(st, keysOnly, k)] + Entries(st, keysOnly, keys)
  {
  }

  lemma TurnUnfold(st: Store, keysOnly: bool, keys: seq<Path>, cursor: nat, n: nat)
    requires n > 0 && cursor < |keys| && keys[cursor] in st
    ensures var rest := Turn(st, keysOnly, keys + Kids(st, keys[cursor]), cursor + 1, n - 1);
            Turn(st, keysOnly, keys, cursor, n) == rest.(kvs := [Entry(st, keysOnly, keys[cursor])] + rest.kvs)
  {
  }

  function After(kvs: seq<KeyValue>, p: Page): Page { p.(kvs := kvs + p.kvs) }

  lemma ReadOne(st: Store, keysOnly: bool, keys: seq<Path>, cursor: nat, n: nat, kvs: seq<KeyValue>)
    requires n > 0 && cursor < |keys| && keys[cursor] in st
    ensures After(kvs, Turn(st, keysOnly, keys, cursor, n))
            == After(kvs + [Entry(st, keysOnly, keys[cursor])],
                     Turn(st, keysOnly, keys + Kids(st, keys[cursor]), cursor + 1, n - 1))
  {
    TurnUnfold(st, keysOnly, keys, cursor, n);
  }

  /** The expansion that grows the key list past a given cursor: i parents have been expanded. */
  datatype Skipped = Skipped(ok: bool, keys: seq<Path>, i: nat)

  function Skip(st: Store, keys: seq<Path>, i: nat, cursor: nat): Skipped
    decreases if cursor > i then cursor - i else 0
  {
    if i >= |keys| || cursor < |keys| then Skipped(true, keys, i)
    else if keys[i] !in st then Skipped(false, keys, i)
    else Skip(st, keys + Kids(st, keys[i]), i + 1, cursor)
  }

  /** The expansion ends with a key past the cursor or with nothing left to expand; it fails exactly at a
      parent that does not exist, having found no key past the cursor. */
  lemma {:induction false} SkipExact(st: Store, keys: seq<Path>, i: nat, cursor: nat)
    requires i <= |keys|
    ensures var s := Skip(st, keys, i, cursor);
            && keys <= s.keys && i <= s.i <= |s.keys| && (forall j :: i <= j < s.i ==> s.keys[j] in st)
            && if s.ok then s.i == |s.keys| || cursor < |s.keys|
               else s.i < |s.keys| && s.keys[s.i] !in st && |s.keys| <= cursor
    decreases if cursor > i then cursor - i else 0
  {
    if i < |keys| <= cursor && keys[i] in st {
      SkipExact(st, keys + Kids(st, keys[i]), i + 1, cursor);
    }
  }

  predicate HasMore(first: bool, keys: seq<Path>, cursor: nat) { first || |keys| > cursor }

  class Pagination {
    const st: Store
    const keysOnly: bool
    var first: bool
    var keys: seq<Path>
    var cursor: nat

    constructor (st: Store, root: Path, keysOnly: bool, cursor: nat)
      ensures this.st == st && this.keysOnly == keysOnly
      ensures first && keys == [root] && this.cursor == cursor
    {
      this.st, this.keysOnly := st, keysOnly;
      first, keys, this.cursor := true, [root], cursor;
    }

    predicate More()
      reads this
    {
      HasMore(first, keys, cursor)
    }

    method MoveCursor() returns (ok: bool)
      modifies this
      ensures unchanged(`cursor) && unchanged(`first)
      ensures Skip(st, old(keys), 0, cursor).ok == ok && Skip(st, old(keys), 0, cursor).keys == keys
    {
      var i := 0;
      while i < |keys| && cursor >= |keys|
        invariant unchanged(`cursor) && unchanged(`first)
        invariant Skip(st, keys, i, cursor) == Skip(st, old(keys), 0, cursor)
        decreases cursor - i
      {
        if keys[i] !in st {
          return false;
        }
        keys := AppendKids(st, keys, keys[i]);
        i := i + 1;
      }
      return true;
    }

    method Next(count: nat) returns (ok: bool, kvs: seq<KeyValue>)
      modifies this
      ensures var s := if old(first) then Skip(st, old(keys), 0, old(cursor)) else Skipped(true, old(keys), 0);
              if !s.ok then !ok && kvs == [] && first && keys == s.keys && cursor == old(cursor)
              else !first && Turn(st, keysOnly, s.keys, old(cursor), count) == Page(ok, kvs, keys, cursor)
    {
      kvs := [];
      if first && cursor >= |keys| {
        ok := MoveCursor();
        if !ok {
          return;
        }
      }
      first := false;
      ok, kvs := Read(count);
    }

    method Read(count: nat) returns (ok: bool, kvs: seq<KeyValue>)
      modifies this`keys, this`cursor
      ensures Turn(st, keysOnly, old(keys), old(cursor), count) == Page(ok, kvs, keys, cursor)
    {
      kvs := [];
      ghost var page := Turn(st, keysOnly, keys, cursor, count);
      var cnt := 0;
      while cnt < count && cursor < |keys|
        invariant cnt <= count
        invariant page == After(kvs, Turn(st, keysOnly, keys, cursor, count - cnt))
      {
        var parent := keys[cursor];
        if keysOnly {
          kvs := kvs + [KeyValue(parent, None)];
        } else {
          if parent !in st {
            return false, kvs;
          }
          kvs := kvs + [KeyValue(parent, Some(st[parent].data))];
        }
        cursor := cursor + 1;
        if parent !in st {
          return false, kvs;
        }
        ReadOne(st, keysOnly, keys, cursor - 1, count - cnt, kvs[..|kvs| - 1]);
        keys := AppendKids(st, keys, parent);
        cnt := cnt + 1;
      }
      return true, kvs;
    }
  }

  /** The pages of the given sizes, as one. */
  function Pages(st: Store, keysOnly: bool, keys: seq<Path>, cursor: nat, sizes: seq<nat>): Page
    decreases |sizes|
  {
    if sizes == [] then Page(true, [], keys, cursor)
    else
      var p := Turn(st, keysOnly, keys, cursor, sizes[0]);
      if !p.ok then p
      else
        var rest := Pages(st, keysOnly, p.keys, p.cursor, sizes[1..]);
        rest.(kvs := p.kvs + rest.kvs)
  }

  function Sum(sizes: seq<nat>): nat { if sizes == [] then 0 else sizes[0] + Sum(sizes[1..]) }

  /** What any pages together keep: they are one page of their total size. */
  ghost predicate Traversed(st: Store, root: Path, keysOnly: bool, keys: seq<Path>, cursor: nat, n: nat, p: Page)
    requires Walking(st, root, keys, cursor)
  {
    if p.ok then
      && Walking(st, root, p.keys, p.cursor)
      && Walk(st, root, p.keys, p.cursor) == Walk(st, root, keys, cursor)
      && keys <= p.keys && cursor <= p.cursor <= cursor + n
      && (p.cursor == cursor + n || p.cursor == |p.keys|)
      && p.kvs == Entries(st, keysOnly, p.keys[cursor..p.cursor])
    else Walk(st, root, keys, cursor) == None
  }

  lemma OneNode(st: Store, root: Path, keysOnly: bool, keys: seq<Path>, cursor: nat, one: Page)
    requires Walking(st, root, keys, cursor) && cursor < |keys| && keys[cursor] in st
    requires one == Page(true, [Entry(st, keysOnly, keys[cursor])], keys + Kids(st, keys[cursor]), cursor + 1)
    ensures Traversed(st, root, keysOnly, keys, cursor, 1, one)
  {
    Expand(st, root, keys, cursor);
    assert one.keys[cursor..cursor + 1] == [keys[cursor]];
  }

  /** One page advances the walk it is part of, by n nodes or to the end. */
  lemma {:induction false} TurnKeeps(st: Store, root: Path, keysOnly: bool, keys: seq<Path>, cursor: nat, n: nat)
    requires Walking(st, root, keys, cursor)
    ensures Traversed(st, root, keysOnly, keys, cursor, n, Turn(st, keysOnly, keys, cursor, n))
    decreases n
  {
    if n > 0 && cursor < |keys| && keys[cursor] in st {
      var more := keys + Kids(st, keys[cursor]);
      var one := Page(true, [Entry(st, keysOnly, keys[cursor])], more, cursor + 1);
      OneNode(st, root, keysOnly, keys, cursor, one);
      TurnKeeps(st, root, keysOnly, more, cursor + 1, n - 1);
      TurnUnfold(st, keysOnly, keys, cursor, n);
      var rest := Turn(st, keysOnly, more, cursor + 1, n - 1);
      PagesJoin(st, root, keysOnly, keys, cursor, 1, n - 1, one, rest);
    } else {
      TurnStops(st, root, keysOnly, keys, cursor, n);
    }
  }

  lemma TurnStops(st: Store, root: Path, keysOnly: bool, keys: seq<Path>, cursor: nat, n: nat)
    requires Walking(st, root, keys, cursor) && (n == 0 || cursor >= |keys| || keys[cursor] !in st)
    ensures Traversed(st, root, keysOnly, keys, cursor, n, Turn(st, keysOnly, keys, cursor, n))
  {
  }

  lemma {:induction false} PagesKeep(st: Store, root: Path, keysOnly: bool, keys: seq<Path>, cursor: nat,
                                     sizes: seq<nat>)
    requires Walking(st, root, keys, cursor)
    ensures Traversed(st, root, keysOnly, keys, cursor, Sum(sizes), Pages(st, keysOnly, keys, cursor, sizes))
    decreases |sizes|
  {
    if sizes != [] {
      TurnKeeps(st, root, keysOnly, keys, cursor, sizes[0]);
      var p := Turn(st, keysOnly, keys, cursor, sizes[0]);
      if p.ok {
        PagesKeep(st, root, keysOnly, p.keys, p.cursor, sizes[1..]);
        PagesJoin(st, root, keysOnly, keys, cursor, sizes[0], Sum(sizes[1..]), p,
                  Pages(st, keysOnly, p.keys, p.cursor, sizes[1..]));
      }
    }
  }

  lemma PagesJoin(st: Store, root: Path, keysOnly: bool, keys: seq<Path>, cursor: nat, n: nat, m: nat, p: Page, q: Page)
    requires Walking(st, root, keys, cursor) && Traversed(st, root, keysOnly, keys, cursor, n, p) && p.ok
    requires Traversed(st, root, keysOnly, p.keys, p.cursor, m, q)
    ensures Traversed(st, root, keysOnly, keys, cursor, n + m, q.(kvs := p.kvs + q.kvs))
  {
    if q.ok {
      JoinEntries(st, keysOnly, p.keys, q.keys, cursor, p.cursor, q.cursor);
      if p.cursor == |p.keys| { WalkEnd(st, root, p.keys, q.keys, q.cursor); }
    }
  }

  lemma JoinEntries(st: Store, keysOnly: bool, p: seq<Path>, q: seq<Path>, a: nat, b: nat, c: nat)
    requires p <= q && a <= b <= |p| && b <= c <= |q| && forall j :: 0 <= j < c ==> q[j] in st
    ensures Entries(st, keysOnly, q[a..c]) == Entries(st, keysOnly, p[a..b]) + Entries(st, keysOnly, q[b..c])
  {
  }

  lemma WalkEnd(st: Store, root: Path, keys: seq<Path>, more: seq<Path>, i: nat)
    requires Walking(st, root, keys, |keys|) && Walking(st, root, more, i) && keys <= more
    requires Walk(st, root, more, i) == Walk(st, root, keys, |keys|)
    ensures more == keys
  {
  }

  /** A fresh traversal in pages of any sizes delivers the listing of prefix Get, each node once and in
      order; More is false exactly when all of it has been delivered. */
  lemma PagesAreListing(st: Store, root: Path, keysOnly: bool, sizes: seq<nat>, l: seq<Path>)
    requires StoreOk(st) && Listing(st, root) == Some(l)
    ensures Skip(st, [root], 0, 0) == Skipped(true, [root], 0)
    ensures forall j :: 0 <= j < |l| ==> l[j] in st
    ensures var p := Pages(st, keysOnly, [root], 0, sizes);
            && p.ok
            && p.cursor == (if Sum(sizes) < |l| then Sum(sizes) else |l|)
            && |p.kvs| == p.cursor
            && (forall j :: 0 <= j < p.cursor ==>
                  p.kvs[j] == KeyValue(l[j], if keysOnly then None else Some(st[l[j]].data)))
            && (HasMore(false, p.keys, p.cursor) <==> p.cursor < |l|)
  {
    Start(st, root);
    PagesKeep(st, root, keysOnly, [root], 0, sizes);
    var p := Pages(st, keysOnly, [root], 0, sizes);
    assert p.keys <= l;
    assert p.keys[0..p.cursor] == l[..p.cursor];
    if p.cursor == |p.keys| { assert Walk(st, root, p.keys, p.cursor) == Some(p.keys); }
  }

  /** A traversal of what cannot be listed fails, at the latest when the pages exceed the node count. */
  lemma PagesFail(st: Store, root: Path, keysOnly: bool, sizes: seq<nat>)
    requires StoreOk(st) && Listing(st, root) == None && Sum(sizes) > |st|
    ensures !Pages(st, keysOnly, [root], 0, sizes).ok
  {
    Start(st, root);
    PagesKeep(st, root, keysOnly, [root], 0, sizes);
    var p := Pages(st, keysOnly, [root], 0, sizes);
    if p.ok { WalkBounded(st, root, p.keys, p.cursor); }
  }

  // ---------------------------------------------------------------------------------------------
  // Resuming
  // ---------------------------------------------------------------------------------------------

  lemma {:induction false} WalkCloses(st: Store, root: Path, keys: seq<Path>, i: nat)
    requires Walking(st, root, keys, i) && ClosedTo(st, keys, i) && Walk(st, root, keys, i).Some?
    ensures var l := Walk(st, root, keys, i).value; ClosedTo(st, l, |l|)
    decreases |st| - i
  {
    WalkBounded(st, root, keys, i);
    if i < |keys| {
      Expand(st, root, keys, i);
      WalkBounded(st, root, keys + Kids(st, keys[i]), i + 1);
      ClosedMore(st, keys, i);
      WalkCloses(st, root, keys + Kids(st, keys[i]), i + 1);
    }
  }

  ghost predicate Among(keys: seq<Path>, l: seq<Path>) { forall j :: 0 <= j < |keys| ==> keys[j] in l }

  ghost predicate ParentsFrom(keys: seq<Path>, from: nat, c: nat)
    requires c <= |keys|
  {
    forall j :: from <= j < |keys| ==> Parent(keys[j]) in keys[c..]
  }

  /** A walk that stays within a closed list ends; what it appends has its parent at i or later. */
  lemma {:induction false} WalkWithin(st: Store, root: Path, keys: seq<Path>, i: nat, from: nat, c: nat, l: seq<Path>)
    requires Walking(st, root, keys, i) && ClosedTo(st, l, |l|) && Among(keys, l)
    requires c <= i && c <= from <= |keys| && ParentsFrom(keys, from, c)
    ensures Walk(st, root, keys, i).Some? && c <= |Walk(st, root, keys, i).value|
    ensures ParentsFrom(Walk(st, root, keys, i).value, from, c)
    decreases |st| - i
  {
    WalkBounded(st, root, keys, i);
    if i < |keys| {
      var kids := Kids(st, keys[i]);
      var more := keys + kids;
      Expand(st, root, keys, i);
      WalkBounded(st, root, more, i + 1);
      KidsFacts(st, keys[i]);
      WithinMore(st, keys, i, from, c, l, kids);
      WalkWithin(st, root, more, i + 1, from, c, l);
    }
  }

  lemma WithinMore(st: Store, keys: seq<Path>, i: nat, from: nat, c: nat, l: seq<Path>, kids: seq<Path>)
    requires c <= i < |keys| && from <= |keys| && ClosedTo(st, l, |l|) && Among(keys, l)
    requires keys[i] in st && kids == Kids(st, keys[i]) && forall j :: 0 <= j < |kids| ==> Parent(kids[j]) == keys[i]
    requires ParentsFrom(keys, from, c)
    ensures Among(keys + kids, l) && ParentsFrom(keys + kids, from, c)
  {
    var more := keys + kids;
    var a :| 0 <= a < |l| && l[a] == keys[i];
    forall j | 0 <= j < |kids| ensures kids[j] in l { assert kids[j] in Kids(st, l[a]); }
    assert more[c..] == keys[c..] + kids && keys[c..][i - c] == keys[i];
    forall j | from <= j < |more| ensures Parent(more[j]) in more[c..] {
      if j >= |keys| { assert more[j] == kids[j - |keys|]; }
    }
  }

  lemma {:induction false} SkipKeeps(st: Store, root: Path, keys: seq<Path>, i: nat, cursor: nat)
    requires Walking(st, root, keys, i) && Walk(st, root, keys, i).Some?
    ensures var s := Skip(st, keys, i, cursor);
            && s.ok && Walking(st, root, s.keys, s.i) && Walk(st, root, s.keys, s.i) == Walk(st, root, keys, i)
            && (s.i == |s.keys| || cursor < |s.keys|)
            && (i == 0 || i <= cursor ==> s.i <= cursor || s.i == 0)
    decreases |st| - i
  {
    WalkBounded(st, root, keys, i);
    if i < |keys| <= cursor {
      Expand(st, root, keys, i);
      WalkBounded(st, root, keys + Kids(st, keys[i]), i + 1);
      SkipKeeps(st, root, keys + Kids(st, keys[i]), i + 1, cursor);
    }
  }

  /** Nodes without children may be passed over. */
  lemma {:induction false} WalkPastLeaves(st: Store, root: Path, keys: seq<Path>, i: nat, c: nat)
    requires Walking(st, root, keys, i) && i <= c <= |keys|
    requires forall j :: i <= j < c ==> keys[j] in st && st[keys[j]].kids == []
    ensures Walking(st, root, keys, c) && Walk(st, root, keys, c) == Walk(st, root, keys, i)
    decreases c - i
  {
    if i < c {
      WalkBounded(st, root, keys, i);
      Expand(st, root, keys, i);
      assert keys + Kids(st, keys[i]) == keys;
      WalkPastLeaves(st, root, keys, i + 1, c);
    }
  }

  lemma InLonger(keys: seq<Path>, i: nat, c: nat, p: Path)
    requires i <= c <= |keys| && p in keys[..i]
    ensures p in keys[..c]
  {
    assert keys[..c] == keys[..i] + keys[i..c];
  }

  lemma WalkingLater(st: Store, root: Path, keys: seq<Path>, i: nat, c: nat)
    requires Walking(st, root, keys, i) && i <= c <= |keys| && forall j :: 0 <= j < c ==> keys[j] in st
    ensures Walking(st, root, keys, c)
  {
    forall j | 0 < j < |keys| ensures Parent(keys[j]) in keys[..c] {
      InLonger(keys, i, c, Parent(keys[j]));
    }
  }

  /** The walk of a traversal that starts at cursor c, inside the listing, ends with the rest of the listing
      if and only if no node between the last parent it expanded and the cursor has children. */
  lemma ResumeWalk(st: Store, root: Path, l: seq<Path>, c: nat)
    requires StoreOk(st) && Listing(st, root) == Some(l) && c < |l|
    ensures var s := Skip(st, [root], 0, c);
            && s.ok && s.i <= c < |s.keys| && (forall j :: 0 <= j < |s.keys| ==> s.keys[j] in st)
            && Walking(st, root, s.keys, c) && Walk(st, root, s.keys, c).Some?
            && (Walk(st, root, s.keys, c).value[c..] == l[c..]
                <==> forall j :: s.i <= j < c ==> st[s.keys[j]].kids == [])
  {
    Start(st, root);
    SkipKeeps(st, root, [root], 0, c);
    WalkCloses(st, root, [root], 0);
    var s := Skip(st, [root], 0, c);
    var keys := s.keys;
    assert keys <= l && (s.i == |keys| ==> keys == l);
    assert forall j :: 0 <= j < |keys| ==> keys[j] == l[j];
    WalkingLater(st, root, keys, s.i, c);
    WalkWithin(st, root, keys, c, |keys|, c, l);
    var rest := Walk(st, root, keys, c).value;
    if forall j :: s.i <= j < c ==> st[keys[j]].kids == [] {
      WalkPastLeaves(st, root, keys, s.i, c);
    } else {
      var j :| s.i <= j < c && st[keys[j]].kids != [];
      Dropped(st, root, keys, s.i, c, l, rest, j);
    }
  }

  lemma EntriesInjective(st: Store, keysOnly: bool, a: seq<Path>, b: seq<Path>)
    requires (forall j :: 0 <= j < |a| ==> a[j] in st) && (forall j :: 0 <= j < |b| ==> b[j] in st)
    ensures Entries(st, keysOnly, a) == Entries(st, keysOnly, b) <==> a == b
  {
    var x, y := Entries(st, keysOnly, a), Entries(st, keysOnly, b);
    if x == y {
      assert |a| == |x| == |b|;
      forall j | 0 <= j < |a| ensures a[j] == b[j] { assert x[j].key == a[j] && y[j].key == b[j]; }
    }
  }

  /** Pages that are large enough together deliver all the walk ends with. */
  lemma PagesToEnd(st: Store, root: Path, keysOnly: bool, keys: seq<Path>, c: nat, sizes: seq<nat>)
    requires Walking(st, root, keys, c) && Walk(st, root, keys, c).Some? && Sum(sizes) > |st|
    ensures var p, r := Pages(st, keysOnly, keys, c, sizes), Walk(st, root, keys, c).value;
            && p.ok && c <= |r| && (forall j :: 0 <= j < |r| ==> r[j] in st)
            && p.kvs == Entries(st, keysOnly, r[c..])
  {
    PagesKeep(st, root, keysOnly, keys, c, sizes);
    var p := Pages(st, keysOnly, keys, c, sizes);
    WalkBounded(st, root, p.keys, p.cursor);
    assert p.cursor == |p.keys|;
    assert Walk(st, root, p.keys, p.cursor) == Some(p.keys);
    assert p.keys[c..p.cursor] == p.keys[c..];
  }

  /** A new traversal from cursor c, inside the listing, in pages of any sizes that are large enough
      together: it delivers the rest of the listing if and only if no node between the last parent it
      expanded to find the cursor and the cursor has children. */
  lemma ResumeExact(st: Store, root: Path, keysOnly: bool, l: seq<Path>, c: nat, sizes: seq<nat>)
    requires StoreOk(st) && Listing(st, root) == Some(l) && c < |l| && Sum(sizes) > |st|
    ensures forall j :: 0 <= j < |l| ==> l[j] in st
    ensures var s := Skip(st, [root], 0, c);
            var p := Pages(st, keysOnly, s.keys, c, sizes);
            && s.ok && p.ok
            && (p.kvs == Entries(st, keysOnly, l[c..]) <==> forall j :: s.i <= j < c ==> st[l[j]].kids == [])
  {
    var s := Skip(st, [root], 0, c);
    ResumeWalk(st, root, l, c);
    Start(st, root);
    SkipKeeps(st, root, [root], 0, c);
    assert s.keys <= l;
    assert forall j :: 0 <= j < |s.keys| ==> s.keys[j] == l[j];
    PagesToEnd(st, root, keysOnly, s.keys, c, sizes);
    var r := Walk(st, root, s.keys, c).value;
    EntriesInjective(st, keysOnly, r[c..], l[c..]);
  }

  lemma Dropped(st: Store, root: Path, keys: seq<Path>, i: nat, c: nat, l: seq<Path>, rest: seq<Path>, j: nat)
    requires Walking(st, root, keys, i) && i <= j < c < |keys| && keys[j] in st && st[keys[j]].kids != []
    requires ClosedTo(st, l, |l|) && keys <= l && keys <= rest && Distinct(rest)
    requires forall m :: |keys| <= m < |rest| ==> Parent(rest[m]) in rest[c..]
    ensures rest[c..] != l[c..]
  {
    var x := Kids(st, keys[j])[0];
    KidsFacts(st, keys[j]);
    KidsFresh(st, root, keys, i, j, 0);
    assert x in Kids(st, l[j]) && x in l;
    var a :| 0 <= a < |l| && l[a] == x;
    assert a >= |keys|;
    assert l[c..][a - c] == x;
    assert rest[j] == keys[j] && keys[j] !in rest[c..];
    assert x !in rest[c..];
  }

  // A tree whose third node is reached without expanding the second.

  const TOP: Store := map["/r" := Node("", ["a", "b"]), "/r/a" := Node("", ["c"]), "/r/b" := Node("", []),
                          "/r/a/c" := Node("", [])]

  lemma WalkOne(st: Store, root: Path, keys: seq<Path>, i: nat, more: seq<Path>)
    requires Walking(st, root, keys, i) && i < |keys| && keys[i] in st && more == keys + Kids(st, keys[i])
    ensures Walking(st, root, more, i + 1) && Walk(st, root, keys, i) == Walk(st, root, more, i + 1)
  {
    WalkBounded(st, root, keys, i);
    Expand(st, root, keys, i);
  }

  lemma TopKids()
    ensures StoreOk(TOP) && Kids(TOP, "/r") == ["/r/a", "/r/b"] && Kids(TOP, "/r/a") == ["/r/a/c"]
    ensures Kids(TOP, "/r/b") == [] && Kids(TOP, "/r/a/c") == []
  {
    assert Join("/r", "a") == "/r/a" && Join("/r", "b") == "/r/b" && Join("/r/a", "c") == "/r/a/c";
    assert "a" != "b" by { assert "a"[0] != "b"[0]; }
    assert Distinct(TOP["/r"].kids);
  }

  lemma TopListing()
    ensures StoreOk(TOP) && Listing(TOP, "/r") == Some(["/r", "/r/a", "/r/b", "/r/a/c"])
  {
    TopKids();
    Start(TOP, "/r");
    var three, four := ["/r", "/r/a", "/r/b"], ["/r", "/r/a", "/r/b", "/r/a/c"];
    WalkOne(TOP, "/r", ["/r"], 0, three);
    WalkOne(TOP, "/r", three, 1, four);
    WalkOne(TOP, "/r", four, 2, four);
    WalkOne(TOP, "/r", four, 3, four);
  }

  /** A traversal of this tree from cursor 2 delivers its third node and never the fourth. */
  lemma ResumeDrops(keysOnly: bool, sizes: seq<nat>)
    requires Sum(sizes) > |TOP|
    ensures StoreOk(TOP) && Listing(TOP, "/r") == Some(["/r", "/r/a", "/r/b", "/r/a/c"])
    ensures Skip(TOP, ["/r"], 0, 2) == Skipped(true, ["/r", "/r/a", "/r/b"], 1)
    ensures var p := Pages(TOP, keysOnly, ["/r", "/r/a", "/r/b"], 2, sizes);
            p.ok && p.kvs == Entries(TOP, keysOnly, ["/r/b"])
  {
    TopKids();
    TopListing();
    var three := ["/r", "/r/a", "/r/b"];
    assert ["/r"] + Kids(TOP, "/r") == three;
    assert Skip(TOP, three, 1, 2) == Skipped(true, three, 1);
    ResumeWalk(TOP, "/r", ["/r", "/r/a", "/r/b", "/r/a/c"], 2);
    WalkOne(TOP, "/r", three, 2, three);
    PagesToEnd(TOP, "/r", keysOnly, three, 2, sizes);
    assert three[2..] == ["/r/b"];
  }

  // ---------------------------------------------------------------------------------------------
  // Deleting a subtree
  // ---------------------------------------------------------------------------------------------

  function Keep(p: Path, kids: seq<Name>, gone: set<Path>): (r: seq<Name>)
    ensures forall n :: n in r <==> n in kids && RealJoin(p, n) !in gone
  {
    if kids == [] then []
    else if RealJoin(p, kids[0]) in gone then Keep(p, kids[1..], gone)
    else [kids[0]] + Keep(p, kids[1..], gone)
  }

  /** The store without some nodes: their parents lose them as children. */
  function Without(st: Store, gone: set<Path>): Store {
    map p | p in st && p !in gone :: Node(st[p].data, Keep(p, st[p].kids, gone))
  }

  /** ZooKeeper deletes a node that exists and has no children. */
  function Delete(st: Store, p: Path): Option<Store> {
    if p == "/" || p !in st || st[p].kids != [] then None else Some(Without(st, {p}))
  }

  /** ZooKeeper creates a node that does not exist below one that does. */
  function Create(st: Store, p: Path, n: Name, data: string): Option<Store> {
    if p !in st || RealJoin(p, n) in st then None
    else Some(st[p := Node(st[p].data, st[p].kids + [n])][RealJoin(p, n) := Node(data, [])])
  }

  /** A create below an existing node succeeds exactly on a new name; the node is then there, without children
      and listed last under its parent, and nothing else has changed. */
  lemma CreateExactly(st: Store, p: Path, n: Name, data: string)
    ensures Create(st, p, n, data).Some? <==> p in st && RealJoin(p, n) !in st
    ensures Create(st, p, n, data).Some? ==>
              var st' := Create(st, p, n, data).value;
              && st'.Keys == st.Keys + {RealJoin(p, n)} && st'[RealJoin(p, n)] == Node(data, [])
              && st'[p] == Node(st[p].data, st[p].kids + [n]) && forall q | q in st && q != p :: st'[q] == st[q]
  {
  }

  lemma JoinIsPath(p: Path, n: Name)
    requires IsPath(p)
    ensures IsPath(RealJoin(p, n)) && |RealJoin(p, n)| > |p|
  {
    var q := RealJoin(p, n);
    assert q[|q| - 1] == n[|n| - 1] && n[|n| - 1] in n;
    var d := |q| - |n|;
    forall i | 0 <= i < |q| - 1 ensures !(q[i] == '/' && q[i + 1] == '/') {
      if i + 1 >= d { assert q[i + 1] == n[i + 1 - d] && n[i + 1 - d] in n; }
    }
  }

  lemma CreateKeeps(st: Store, p: Path, n: Name, data: string)
    requires Tree(st) && Create(st, p, n, data).Some?
    ensures Tree(Create(st, p, n, data).value)
  {
    var st' := Create(st, p, n, data).value;
    JoinIsPath(p, n);
    CreatedBelow(st, p, n, data, st');
    forall q | q in st' && q != "/" ensures HasParent(st', q) {
      CreatedParent(st, p, n, data, st', q);
    }
  }

  lemma CreatedBelow(st: Store, p: Path, n: Name, data: string, st': Store)
    requires Tree(st) && Create(st, p, n, data) == Some(st')
    ensures StoreOk(st') && forall q, m | q in st' && m in st'[q].kids :: RealJoin(q, m) in st'
  {
    assert n !in st[p].kids;
    forall q, m | q in st' && m in st'[q].kids ensures RealJoin(q, m) in st' {
      if q in st && m in st[q].kids { assert RealJoin(q, m) in st; }
    }
  }

  lemma CreatedParent(st: Store, p: Path, n: Name, data: string, st': Store, q: Path)
    requires Tree(st) && Create(st, p, n, data) == Some(st') && q in st' && q != "/" && RealJoin(p, n) != p
    ensures HasParent(st', q)
  {
    if q == RealJoin(p, n) {
      assert n in st'[p].kids;
    } else {
      var r, m: Name :| r in st && m in st[r].kids && RealJoin(r, m) == q;
      ChildStays(st, p, n, data, st', r, m);
    }
  }

  lemma ChildStays(st: Store, p: Path, n: Name, data: string, st': Store, r: Path, m: Name)
    requires Create(st, p, n, data) == Some(st') && r in st && m in st[r].kids && RealJoin(p, n) !in st
    ensures r in st' && m in st'[r].kids
  {
  }

  lemma DeleteKeeps(st: Store, p: Path)
    requires Tree(st) && Delete(st, p).Some?
    ensures Tree(Delete(st, p).value)
  {
    var st' := Delete(st, p).value;
    forall q | q in st' ensures Distinct(st'[q].kids) { KeepDistinct(q, st[q].kids, {p}); }
    forall q | q in st' && q != "/" ensures HasParent(st', q) {
      var r, m: Name :| r in st && m in st[r].kids && RealJoin(r, m) == q;
      assert r in st' && m in st'[r].kids;
    }
  }

  lemma {:induction false} KeepDistinct(p: Path, kids: seq<Name>, gone: set<Path>)
    requires Distinct(kids)
    ensures Distinct(Keep(p, kids, gone))
    decreases |kids|
  {
    if kids != [] {
      assert Distinct(kids[1..]);
      KeepDistinct(p, kids[1..], gone);
    }
  }

  datatype Change = Created(p: Path, n: Name, data: string) | Deleted(p: Path)

  /** The store after creates and deletes of any clients; those ZooKeeper refuses change nothing. */
  function Changes(st: Store, cs: seq<Change>): Store
    decreases |cs|
  {
    if cs == [] then st
    else
      var next := if cs[0].Created? then Create(st, cs[0].p, cs[0].n, cs[0].data) else Delete(st, cs[0].p);
      Changes(if next.Some? then next.value else st, cs[1..])
  }

  lemma {:induction false} ChangesKeep(st: Store, cs: seq<Change>)
    requires Tree(st)
    ensures Tree(Changes(st, cs))
    decreases |cs|
  {
    if cs != [] {
      var next := if cs[0].Created? then Create(st, cs[0].p, cs[0].n, cs[0].data) else Delete(st, cs[0].p);
      if next.Some? {
        if cs[0].Created? { CreateKeeps(st, cs[0].p, cs[0].n, cs[0].data); } else { DeleteKeeps(st, cs[0].p); }
      }
      ChangesKeep(if next.Some? then next.value else st, cs[1..]);
    }
  }

  /** Every store that creates and deletes can bring about is a tree, so what is said of trees is said of all
      of them. */
  lemma StoresAreTrees(data: string, cs: seq<Change>)
    ensures Tree(Changes(map["/" := Node(data, [])], cs))
  {
    ChangesKeep(map["/" := Node(data, [])], cs);
  }

  /** A multi request: all deletes in turn, or none of them. */
  function Multi(st: Store, ps: seq<Path>): Option<Store>
    decreases |ps|
  {
    if ps == [] then Some(st)
    else
      var next := Delete(st, ps[0]);
      if next.None? then None else Multi(next.value, ps[1..])
  }

  function Reversed(s: seq<Path>): (r: seq<Path>) {
    seq(|s|, i requires 0 <= i < |s| => s[|s| - 1 - i])
  }

  /** Prefix Del. */
  method PrefixDel(st: Store, root: Path) returns (ok: bool, keys: seq<Path>, after: Store)
    requires StoreOk(st)
    ensures if Listing(st, root).None? then !ok && after == st
            else
              && keys == Listing(st, root).value
              && ok == Multi(st, Reversed(keys)).Some?
              && after == (if ok then Multi(st, Reversed(keys)).value else st)
  {
    after := st;
    ok, keys := ListKeys(st, root);
    if !ok {
      return;
    }
    var requests := [];
    var i := |keys|;
    while i > 0
      invariant 0 <= i <= |keys| && requests == Reversed(keys[i..])
    {
      i := i - 1;
      requests := requests + [keys[i]];
    }
    assert keys[0..] == keys;
    var done := Multi(st, requests);
    ok := done.Some?;
    if ok {
      after := done.value;
    }
  }

  /** In the listing a node comes before everything below it; so it is last in the delete request. */
  lemma {:induction false} DescendantsFollow(st: Store, root: Path, l: seq<Path>, a: nat, b: nat)
    requires Walking(st, root, l, |l|) && root != "" && a < |l| && b < |l| && a != b && Under(l[a], l[b])
    ensures a < b
    decreases b
  {
    if b > 0 && l[a] != "" {
      UnderParent(l[a], l[b]);
      assert Parent(l[b]) in l[..b];
      var c :| 0 <= c < b && l[..b][c] == Parent(l[b]);
      if c != a { DescendantsFollow(st, root, l, a, c); }
    }
  }

  lemma {:induction false} KeepKeep(p: Path, kids: seq<Name>, gone: set<Path>, q: Path)
    ensures Keep(p, Keep(p, kids, gone), {q}) == Keep(p, kids, gone + {q})
    decreases |kids|
  {
    if kids != [] { KeepKeep(p, kids[1..], gone, q); }
  }

  lemma WithoutOne(st: Store, gone: set<Path>, q: Path)
    ensures Without(Without(st, gone), {q}) == Without(st, gone + {q})
  {
    forall p | p in st && p !in gone + {q} ensures Without(Without(st, gone), {q})[p] == Without(st, gone + {q})[p] {
      KeepKeep(p, st[p].kids, gone, q);
    }
  }

  lemma {:induction false} KeepAll(p: Path, kids: seq<Name>)
    ensures Keep(p, kids, {}) == kids
    decreases |kids|
  {
    if kids != [] { KeepAll(p, kids[1..]); }
  }

  lemma {:induction false} KeepNone(p: Path, kids: seq<Name>, gone: set<Path>)
    requires forall n :: n in kids ==> RealJoin(p, n) in gone
    ensures Keep(p, kids, gone) == []
    decreases |kids|
  {
    if kids != [] { KeepNone(p, kids[1..], gone); }
  }

  function SetOf(s: seq<Path>): set<Path> { set k | k in s }

  /** With everything listed after m gone, node m has no children left. */
  lemma LeafByThen(st: Store, root: Path, l: seq<Path>, m: nat)
    requires Walking(st, root, l, |l|) && Below(st, root, l, |l|) && root != "" && m < |l| && l[m] != "/"
    ensures l[m] !in SetOf(l[m + 1..]) && Keep(l[m], st[l[m]].kids, SetOf(l[m + 1..])) == []
  {
    forall n | n in st[l[m]].kids ensures RealJoin(l[m], n) in SetOf(l[m + 1..]) {
      var c :| 0 <= c < |st[l[m]].kids| && st[l[m]].kids[c] == n;
      var k := Kids(st, l[m])[c];
      assert k in Kids(st, l[m]) && k in l;
      var b :| 0 <= b < |l| && l[b] == k;
      assert Under(l[m], l[b]);
      DescendantsFollow(st, root, l, m, b);
      assert l[m + 1..][b - m - 1] == k;
    }
    KeepNone(l[m], st[l[m]].kids, SetOf(l[m + 1..]));
  }

  lemma DeleteOne(st: Store, root: Path, l: seq<Path>, m: nat)
    requires Walking(st, root, l, |l|) && Below(st, root, l, |l|) && root != "" && m < |l| && l[m] != "/"
    ensures Delete(Without(st, SetOf(l[m + 1..])), l[m]) == Some(Without(st, SetOf(l[m..])))
  {
    LeafByThen(st, root, l, m);
    assert l[m..] == [l[m]] + l[m + 1..];
    assert SetOf(l[m..]) == SetOf(l[m + 1..]) + {l[m]};
    WithoutOne(st, SetOf(l[m + 1..]), l[m]);
  }

  lemma MultiHead(st: Store, l: seq<Path>, m: nat, next: Store)
    requires m < |l| && Delete(st, l[m]) == Some(next)
    ensures Multi(st, Reversed(l[..m + 1])) == Multi(next, Reversed(l[..m]))
  {
    assert Reversed(l[..m + 1])[0] == l[m] && Reversed(l[..m + 1])[1..] == Reversed(l[..m]);
  }

  lemma {:induction false} DeleteBackwards(st: Store, root: Path, l: seq<Path>, m: nat)
    requires Walking(st, root, l, |l|) && Below(st, root, l, |l|) && root != "" && m <= |l|
    requires forall j :: 0 <= j < |l| ==> l[j] != "/"
    ensures Multi(Without(st, SetOf(l[m..])), Reversed(l[..m])) == Some(Without(st, SetOf(l)))
    decreases m
  {
    if m == 0 {
      assert l[0..] == l;
    } else {
      DeleteOne(st, root, l, m - 1);
      MultiHead(Without(st, SetOf(l[m..])), l, m - 1, Without(st, SetOf(l[m - 1..])));
      DeleteBackwards(st, root, l, m - 1);
    }
  }

  lemma WithoutNothing(st: Store)
    ensures Without(st, {}) == st
  {
    forall p | p in st ensures Without(st, {})[p] == st[p] { KeepAll(p, st[p].kids); }
  }

  /** Prefix Del of a node other than "/" never meets a node with children: it removes exactly the
      subtree. */
  lemma DelRemovesSubtree(st: Store, root: Path, l: seq<Path>)
    requires Tree(st) && root in st && root != "/" && Listing(st, root) == Some(l)
    ensures Multi(st, Reversed(l)) == Some(Without(st, set p | p in st && Under(root, p)))
  {
    Start(st, root);
    WalkBelow(st, root, [root], 0);
    ListingIsSubtree(st, root);
    assert IsPath(root);
    assert (set p | p in st && Under(root, p)) == SetOf(l);
    WithoutNothing(st);
    assert SetOf(l[|l|..]) == {} && l[..|l|] == l;
    DeleteBackwards(st, root, l, |l|);
  }
}
