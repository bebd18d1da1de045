/** Any number of overlapping registrations of one kind on a Future.

    Every successful compare-and-swap makes the published slice one cell longer.  A registration that
    loses may still overwrite cells, but never one beyond the length it will publish itself. */
module FutureMany {
  import opened Options
  import opened FutureProtocol
  import opened FutureOverlap
  import opened FutureCalls

  /** The registrations of kind k in the order in which they published. */
  function Publishers(s: State, actions: seq<Action>, k: Kind, own: seq<nat>): seq<nat>
    decreases |actions|
  {
    if actions == [] then own
    else Publishers(Step(s, actions[0]), actions[1..], k, Published(s, actions[0], k, own))
  }

  predicate PublishesReg(s: State, a: Action, k: Kind) {
    a.RegCas? && a.i < |s.regs| && s.regs[a.i].kind == k && s.regs[a.i].pc.Prepared? && s.cur == s.regs[a.i].pc.v
  }

  function Published(s: State, a: Action, k: Kind, own: seq<nat>): seq<nat> {
    if PublishesReg(s, a, k) then own + [a.i] else own
  }

  ghost predicate Distinct(own: seq<nat>) { forall m, n :: 0 <= m < n < |own| ==> own[m] != own[n] }

  /** All cells of a slice hold callbacks. */
  ghost predicate Filled(s: State, sl: Slice) {
    && sl.arr < |s.arrays| && sl.len <= |s.arrays[sl.arr]|
    && (forall q :: 0 <= q < sl.len ==> s.arrays[sl.arr][q].Some?)
  }

  /** What a registration has seen or prepared is at most as long as what is published, and filled. */
  ghost predicate RegMany(s: State, k: Kind, x: nat)
    requires SingleInv(s) && Homes(s) && x < |s.regs|
  {
    var pc := s.regs[x].pc;
    assert RegOk(s, x);
    && (pc.Seen? || pc.Prepared? ==>
          At(s.vals[pc.v], k).len <= At(s.vals[s.cur], k).len && Filled(s, At(s.vals[pc.v], k)))
    && (pc.Prepared? ==> At(s.vals[pc.copy], k).len == At(s.vals[pc.v], k).len + 1 && Filled(s, At(s.vals[pc.copy], k)))
  }

  /** A callback sits at or before the cell it published, or the one it may publish next. */
  ghost predicate CellsBelow(s: State, k: Kind, own: seq<nat>) {
    && |s.owner| == |s.arrays|
    && (forall a, q | 0 <= a < |s.arrays| && s.owner[a] == k && 0 <= q < |s.arrays[a]| && s.arrays[a][q].Some? ::
          Below(own, q, s.arrays[a][q].value))
  }

  ghost predicate Below(own: seq<nat>, q: nat, x: nat) {
    q <= |own| && forall r :: 0 <= r < |own| && own[r] == x ==> q <= r
  }

  ghost predicate OwnOk(s: State, k: Kind, own: seq<nat>) {
    Distinct(own) && forall x :: x in own <==> 0 <= x < |s.regs| && s.regs[x] == Reg(k, Stored)
  }

  ghost predicate ManyInv(s: State, k: Kind, own: seq<nat>) {
    && SingleInv(s) && Owned(s) && OwnOk(s, k, own) && CellsBelow(s, k, own)
    && At(s.vals[s.cur], k).len == |own| && Filled(s, At(s.vals[s.cur], k))
    && (forall x :: 0 <= x < |s.regs| && s.regs[x].kind == k ==> RegMany(s, k, x))
  }

  // ---------------------------------------------------------------------------------------------
  // Steps of others
  // ---------------------------------------------------------------------------------------------

  lemma RegManyFrame(s: State, s': State, k: Kind, x: nat)
    requires SingleInv(s) && Owned(s) && SingleInv(s') && Owned(s') && SameKind(s, s', k)
    requires SameReg(s, s', x) && RegMany(s, k, x)
    ensures RegMany(s', k, x)
  {
    var pc := s.regs[x].pc;
    assert RegOk(s, x) && RegOk(s', x);
    if pc.Seen? || pc.Prepared? { assert s.owner[At(s.vals[pc.v], k).arr] == k; }
    if pc.Prepared? { assert s.owner[At(s.vals[pc.copy], k).arr] == k; }
  }

  lemma CellsFrame(s: State, s': State, k: Kind, own: seq<nat>)
    requires Homes(s) && Homes(s') && s.cur < |s.vals| && s'.cur < |s'.vals| && SameKind(s, s', k)
    requires CellsBelow(s, k, own) && s.owner <= s'.owner
    requires forall a :: |s.owner| <= a < |s'.owner| ==> s'.owner[a] != k
    ensures CellsBelow(s', k, own)
  {
  }

  lemma NewOwner(s: State, a: Action, k: Kind)
    requires SingleInv(s) && Homes(s) && !OfKind(s, a, k)
    ensures forall n :: |s.owner| <= n < |Step(s, a).owner| ==> Step(s, a).owner[n] != k
  {
    if a.RegAppend? {
      if a.i < |s.regs| && s.regs[a.i].pc.Seen? && s.regs[a.i].pc.v < |s.vals| { AppendEffect(s, a.i, a.grow); }
    } else {
      OtherEffect(s, a);
    }
  }

  lemma OwnFrame(s: State, s': State, k: Kind, own: seq<nat>)
    requires OwnOk(s, k, own) && |s.regs| <= |s'.regs|
    requires forall x :: 0 <= x < |s.regs| ==> (s'.regs[x] == Reg(k, Stored) <==> s.regs[x] == Reg(k, Stored))
    requires forall x :: |s.regs| <= x < |s'.regs| ==> s'.regs[x] != Reg(k, Stored)
    ensures OwnOk(s', k, own)
  {
  }

  lemma OthersMany(s: State, a: Action, k: Kind, own: seq<nat>)
    requires ManyInv(s, k, own) && !OfKind(s, a, k) && a != Register(k)
    ensures ManyInv(Step(s, a), k, own) && Published(s, a, k, own) == own
  {
    var s' := Step(s, a);
    SingleStep(s, a);
    OwnedStep(s, a);
    OthersStep(s, a, k);
    OwnerGrows(s, a);
    NewOwner(s, a, k);
    RegsStay(s, a, k);
    OwnFrame(s, s', k, own);
    CellsFrame(s, s', k, own);
    assert s.owner[At(s.vals[s.cur], k).arr] == k;
    forall x | 0 <= x < |s'.regs| && s'.regs[x].kind == k ensures RegMany(s', k, x) {
      RegManyFrame(s, s', k, x);
    }
  }

  lemma RegisterMany(s: State, k: Kind, own: seq<nat>)
    requires ManyInv(s, k, own)
    ensures ManyInv(Step(s, Register(k)), k, own)
  {
    var s' := Step(s, Register(k));
    SingleStep(s, Register(k));
    OwnedStep(s, Register(k));
    OwnFrame(s, s', k, own);
    forall x | 0 <= x < |s'.regs| && s'.regs[x].kind == k ensures RegMany(s', k, x) {
      if x < |s.regs| { RegManyFrame(s, s', k, x); }
    }
  }

  // ---------------------------------------------------------------------------------------------
  // Steps of registrations of the kind
  // ---------------------------------------------------------------------------------------------

  /** A registration moves without appending or publishing. */
  lemma MoveMany(s: State, s': State, k: Kind, own: seq<nat>, i: nat, pc: RegPc)
    requires ManyInv(s, k, own) && SingleInv(s') && Owned(s') && i < |s.regs| && s.regs[i].kind == k
    requires s' == SetRegPc(s, i, pc).(ran := s'.ran) && !pc.Stored? && !s.regs[i].pc.Stored?
    requires RegMany(s', k, i)
    ensures ManyInv(s', k, own)
  {
    OwnFrame(s, s', k, own);
    forall x | 0 <= x < |s'.regs| && s'.regs[x].kind == k ensures RegMany(s', k, x) {
      if x != i { RegManyFrame(s, s', k, x); }
    }
  }

  lemma LoadMany(s: State, k: Kind, own: seq<nat>, i: nat)
    requires ManyInv(s, k, own) && i < |s.regs| && s.regs[i].kind == k
    ensures ManyInv(Step(s, RegLoad(i)), k, own)
  {
    var s' := Step(s, RegLoad(i));
    SingleStep(s, RegLoad(i));
    OwnedStep(s, RegLoad(i));
    if s.regs[i].pc.Retry? { MoveMany(s, s', k, own, i, s'.regs[i].pc); }
  }

  lemma CallMany(s: State, k: Kind, own: seq<nat>, i: nat)
    requires ManyInv(s, k, own) && i < |s.regs| && s.regs[i].kind == k
    ensures ManyInv(Step(s, RegCall(i)), k, own)
  {
    var s' := Step(s, RegCall(i));
    SingleStep(s, RegCall(i));
    OwnedStep(s, RegCall(i));
    if s.regs[i].pc.Calling? { MoveMany(s, s', k, own, i, Called); }
  }

  lemma BelowMore(own: seq<nat>, q: nat, x: nat, i: nat)
    requires Below(own, q, x)
    ensures Below(own + [i], q, x)
  {
  }

  lemma PublishMany(s: State, s': State, k: Kind, own: seq<nat>, i: nat)
    requires ManyInv(s, k, own) && SingleInv(s') && Owned(s') && i < |s.regs| && s.regs[i].kind == k
    requires s.regs[i].pc.Prepared? && s.regs[i].pc.v == s.cur && s.regs[i].pc.copy < |s.vals|
    requires s' == SetRegPc(s, i, Stored).(cur := s.regs[i].pc.copy)
    ensures ManyInv(s', k, own + [i])
  {
    assert RegMany(s, k, i);
    assert i !in own;
    forall a, q | 0 <= a < |s'.arrays| && s'.owner[a] == k && 0 <= q < |s'.arrays[a]| && s'.arrays[a][q].Some?
      ensures Below(own + [i], q, s'.arrays[a][q].value)
    {
      BelowMore(own, q, s.arrays[a][q].value, i);
    }
    forall x | 0 <= x < |s'.regs| && s'.regs[x].kind == k ensures RegMany(s', k, x) {
      if x != i { assert RegMany(s, k, x) && RegOk(s', x); }
    }
  }

  lemma CasMany(s: State, k: Kind, own: seq<nat>, i: nat)
    requires ManyInv(s, k, own) && i < |s.regs| && s.regs[i].kind == k
    ensures ManyInv(Step(s, RegCas(i)), k, Published(s, RegCas(i), k, own))
  {
    var s' := Step(s, RegCas(i));
    SingleStep(s, RegCas(i));
    OwnedStep(s, RegCas(i));
    if s.regs[i].pc.Prepared? {
      assert RegOk(s, i);
      if s.cur == s.regs[i].pc.v {
        PublishMany(s, s', k, own, i);
      } else {
        MoveMany(s, s', k, own, i, Retry);
      }
    }
  }

  /** An append keeps filled slices filled, and its own slice is filled if the one it extends is. */
  lemma AppendFilled(s: State, s': State, sl: Slice, i: nat, grow: nat)
    requires Filled(s, sl) && s'.arrays == Append(s.arrays, sl, i, grow).0
    ensures Filled(s', Append(s.arrays, sl, i, grow).1)
    ensures forall u :: Filled(s, u) ==> Filled(s', u)
  {
    AppendCells(s.arrays, sl, i, grow);
    var (arrays', slice) := Append(s.arrays, sl, i, grow);
    forall q | 0 <= q < slice.len ensures arrays'[slice.arr][q].Some? {
      assert arrays'[slice.arr][..slice.len][q] == (s.arrays[sl.arr][..sl.len] + [Some(i)])[q];
    }
  }

  lemma AppendBelow(s: State, s': State, k: Kind, own: seq<nat>, sl: Slice, i: nat, grow: nat)
    requires CellsBelow(s, k, own) && sl.arr < |s.arrays| && s.owner[sl.arr] == k && sl.len <= |s.arrays[sl.arr]|
    requires sl.len <= |own| && i !in own
    requires s'.arrays == Append(s.arrays, sl, i, grow).0 && s.owner <= s'.owner && |s'.owner| == |s'.arrays|
    ensures CellsBelow(s', k, own)
  {
    forall a, q | 0 <= a < |s'.arrays| && s'.owner[a] == k && 0 <= q < |s'.arrays[a]| && s'.arrays[a][q].Some?
      ensures Below(own, q, s'.arrays[a][q].value)
    {
      if a == |s.arrays| {
        if q < sl.len { assert s'.arrays[a][q] == s.arrays[sl.arr][q]; }
      } else if a == sl.arr && q == sl.len && sl.len < |s.arrays[sl.arr]| {
      } else {
        assert s'.arrays[a][q] == s.arrays[a][q];
      }
    }
  }

  lemma AppendMany(s: State, k: Kind, own: seq<nat>, i: nat, grow: nat)
    requires ManyInv(s, k, own) && i < |s.regs| && s.regs[i].kind == k
    ensures ManyInv(Step(s, RegAppend(i, grow)), k, own)
  {
    var s' := Step(s, RegAppend(i, grow));
    SingleStep(s, RegAppend(i, grow));
    OwnedStep(s, RegAppend(i, grow));
    if s.regs[i].pc.Seen? {
      assert RegMany(s, k, i) && RegOk(s, i) && i !in own;
      var v := s.regs[i].pc.v;
      var sl := At(s.vals[v], k);
      var slice := Append(s.arrays, sl, i, grow).1;
      AppendEffect(s, i, grow);
      AppendFilled(s, s', sl, i, grow);
      AppendBelow(s, s', k, own, sl, i, grow);
      AtWith(s.vals[v], k, slice, k);
      OwnFrame(s, s', k, own);
      forall x | 0 <= x < |s'.regs| && s'.regs[x].kind == k ensures RegMany(s', k, x) {
        assert RegMany(s, k, x) && RegOk(s, x) && RegOk(s', x);
      }
    }
  }

  lemma ManyStep(s: State, a: Action, k: Kind, own: seq<nat>)
    requires ManyInv(s, k, own)
    ensures ManyInv(Step(s, a), k, Published(s, a, k, own))
  {
    if a == Register(k) {
      RegisterMany(s, k, own);
    } else if !OfKind(s, a, k) {
      OthersMany(s, a, k, own);
    } else {
      match a
      case RegLoad(x) => LoadMany(s, k, own, x);
      case RegAppend(x, grow) => AppendMany(s, k, own, x, grow);
      case RegCas(x) => CasMany(s, k, own, x);
      case RegCall(x) => CallMany(s, k, own, x);
    }
  }

  lemma {:induction false} ManyRun(s: State, actions: seq<Action>, k: Kind, own: seq<nat>)
    requires ManyInv(s, k, own)
    ensures ManyInv(Run(s, actions), k, Publishers(s, actions, k, own))
    decreases |actions|
  {
    if actions != [] {
      ManyStep(s, actions[0], k, own);
      ManyRun(Step(s, actions[0]), actions[1..], k, Published(s, actions[0], k, own));
    }
  }

  lemma InitMany(k: Kind)
    ensures ManyInv(Init(), k, [])
  {
    InitSingle();
    InitOwned();
    assert At(Init().vals[0], k).len == 0;
  }

  // ---------------------------------------------------------------------------------------------
  // Exactly once
  // ---------------------------------------------------------------------------------------------

  /** Each publisher is in its own cell if each is there at all. */
  lemma {:induction false} InPlace(own: seq<nat>, cells: seq<Option<nat>>, n: nat)
    requires |cells| == |own| && Distinct(own) && n <= |own|
    requires forall q :: 0 <= q < |cells| && cells[q].Some? ==> Below(own, q, cells[q].value)
    requires forall x :: x in own ==> Some(x) in cells
    ensures forall q :: 0 <= q < n ==> cells[q] == Some(own[q])
    decreases n
  {
    if n > 0 {
      InPlace(own, cells, n - 1);
      assert own[n - 1] in own;
      var q :| 0 <= q < |cells| && cells[q] == Some(own[n - 1]);
      assert q <= n - 1;
    }
  }

  lemma {:induction false} CountOwn(own: seq<nat>, cells: seq<Option<nat>>, x: nat)
    requires |cells| == |own| && Distinct(own) && forall q :: 0 <= q < |own| ==> cells[q] == Some(own[q])
    ensures multiset(cells)[Some(x)] == One(x in own)
    decreases |own|
  {
    if own != [] {
      var n := |own| - 1;
      assert own == own[..n] + [own[n]] && cells == cells[..n] + [cells[n]];
      CountOwn(own[..n], cells[..n], x);
    }
  }

  /** In every schedule, with any number of registrations and completers: the published slice of a kind has
      one cell for every stored registration, and each of them is stored exactly once if and only if every
      cell holds the callback whose registration published it. */
  lemma ManyExactly(actions: seq<Action>, k: Kind, s: State, own: seq<nat>)
    requires s == Run(Init(), actions) && own == Publishers(Init(), actions, k, [])
    ensures SlicesOk(s) && |Contents(s, k)| == |own| && Distinct(own)
    ensures forall x :: x in own <==> 0 <= x < |s.regs| && s.regs[x] == Reg(k, Stored)
    ensures (forall x :: x in own ==> multiset(Contents(s, k))[Some(x)] == 1)
            <==> (forall q :: 0 <= q < |own| ==> Contents(s, k)[q] == Some(own[q]))
  {
    InitMany(k);
    ManyRun(Init(), actions, k, []);
    OwnedSlices(s);
    var cells, now := Contents(s, k), At(s.vals[s.cur], k);
    assert s.owner[now.arr] == k;
    forall q | 0 <= q < |cells| ensures cells[q].Some? && Below(own, q, cells[q].value) {
      assert cells[q] == s.arrays[now.arr][q];
    }
    if forall x :: x in own ==> multiset(cells)[Some(x)] == 1 {
      forall x | x in own ensures Some(x) in cells { assert Some(x) in multiset(cells); }
      InPlace(own, cells, |own|);
    }
    if forall q :: 0 <= q < |own| ==> cells[q] == Some(own[q]) {
      forall x | x in own ensures multiset(cells)[Some(x)] == 1 { CountOwn(own, cells, x); }
    }
  }
}
