/** Two callback registrations of the same kind that overlap on one Future.

    Both append to the slice that was published when they started.  With spare capacity they write the
    same cell of one array, before either has published: whoever writes last decides what the slice of
    the first to publish holds. */
module FutureOverlap {
  import opened Options
  import opened FutureProtocol

  /** Registrations i and j of kind k, the slice published when they start, what it holds, and whether
      its array has no room left. */
  datatype Pair = Pair(k: Kind, i: nat, j: nat, base: Slice, held: seq<Option<nat>>, full: bool)

  /** What a run does to a pair: who published first, and who last appended to the base slice. */
  datatype Trace = Trace(winner: Option<nat>, last: Option<nat>)

  predicate AppendsToBase(p: Pair, s: State, a: Action) {
    && a.RegAppend? && a.i < |s.regs| && s.regs[a.i].kind == p.k && s.regs[a.i].pc.Seen?
    && s.regs[a.i].pc.v < |s.vals| && At(s.vals[s.regs[a.i].pc.v], p.k) == p.base
  }

  predicate Stores(p: Pair, s: State, a: Action) {
    a.RegCas? && a.i < |s.regs| && s.regs[a.i].kind == p.k && s.regs[a.i].pc.Prepared? && s.cur == s.regs[a.i].pc.v
  }

  function Observe(p: Pair, s: State, a: Action, t: Trace): Trace {
    Trace(if t.winner.None? && Stores(p, s, a) then Some(a.i) else t.winner,
          if AppendsToBase(p, s, a) then Some(a.i) else t.last)
  }

  function Watch(p: Pair, s: State, actions: seq<Action>, t: Trace): Trace
    decreases |actions|
  {
    if actions == [] then t else Watch(p, Step(s, actions[0]), actions[1..], Observe(p, s, actions[0], t))
  }

  function Other(p: Pair, x: nat): nat { if x == p.i then p.j else p.i }

  // ---------------------------------------------------------------------------------------------
  // The invariant of a pair
  // ---------------------------------------------------------------------------------------------

  /** The two are the only registrations of their kind under way. */
  ghost predicate Alone(p: Pair, s: State) {
    && p.i != p.j && p.i < |s.regs| && p.j < |s.regs| && s.regs[p.i].kind == p.k && s.regs[p.j].kind == p.k
    && (forall x :: 0 <= x < |s.regs| && x != p.i && x != p.j && s.regs[x].kind == p.k ==> !InFlight(s.regs[x].pc))
  }

  ghost predicate BaseOk(p: Pair, s: State, t: Trace) {
    && |s.owner| == |s.arrays|
    && p.base.arr < |s.arrays| && s.owner[p.base.arr] == p.k && p.base.len <= |s.arrays[p.base.arr]|
    && (p.full <==> p.base.len == |s.arrays[p.base.arr]|)
    && Held(s, p.base) == p.held
    && (t.last.Some? ==> t.last.value == p.i || t.last.value == p.j)
    && (t.last.Some? && !p.full ==> s.arrays[p.base.arr][p.base.len] == t.last)
  }

  /** A slice one longer than the base, as an append of x to the base makes it. */
  ghost predicate Extends(p: Pair, s: State, t: Trace, sl: Slice, x: nat) {
    && t.last.Some? && sl.len == p.base.len + 1
    && sl.arr < |s.arrays| && sl.len <= |s.arrays[sl.arr]|
    && (if p.full then sl.arr != p.base.arr && Held(s, sl) == p.held + [Some(x)] else sl.arr == p.base.arr)
  }

  /** Before either has published. */
  ghost predicate Racing(p: Pair, s: State, t: Trace, x: nat)
    requires SingleInv(s) && x < |s.regs|
  {
    var pc := s.regs[x].pc;
    assert RegOk(s, x);
    && !pc.Stored?
    && (pc.Seen? || pc.Prepared? ==> At(s.vals[pc.v], p.k) == p.base)
    && (pc.Prepared? ==> Extends(p, s, t, At(s.vals[pc.copy], p.k), x))
  }

  /** After the other has published slice `now`. */
  ghost predicate Trailing(p: Pair, s: State, t: Trace, x: nat, now: Slice)
    requires SingleInv(s) && Homes(s) && x < |s.regs| && now.arr < |s.arrays| && now.len <= |s.arrays[now.arr]|
  {
    var pc := s.regs[x].pc;
    assert RegOk(s, x);
    && (pc.Seen? || pc.Prepared? ==> At(s.vals[pc.v], p.k) == p.base || At(s.vals[pc.v], p.k) == now)
    && (pc.Prepared? && At(s.vals[pc.v], p.k) == now ==>
          Held(s, At(s.vals[pc.copy], p.k)) == Held(s, now) + [Some(x)])
  }

  /** What the first to publish leaves in its place. */
  function FirstCell(p: Pair, t: Trace, w: nat): Option<nat> { if p.full then Some(w) else t.last }

  ghost predicate PairInv(p: Pair, s: State, t: Trace) {
    && SingleInv(s) && Owned(s) && Alone(p, s) && BaseOk(p, s, t)
    && var now := At(s.vals[s.cur], p.k);
       match t.winner
       case None => now == p.base && Racing(p, s, t, p.i) && Racing(p, s, t, p.j)
       case Some(w) =>
         var o := Other(p, w);
         && (w == p.i || w == p.j) && s.regs[w].pc.Stored? && t.last.Some?
         && (if s.regs[o].pc.Stored? then Held(s, now) == p.held + [FirstCell(p, t, w)] + [Some(o)]
             else Extends(p, s, t, now, w) && Trailing(p, s, t, o, now))
  }

  /** While the other has not stored, the published slice holds the base and the first cell. */
  lemma ExtendsHeld(p: Pair, s: State, t: Trace, sl: Slice, x: nat)
    requires BaseOk(p, s, t) && Extends(p, s, t, sl, x)
    ensures Held(s, sl) == p.held + [FirstCell(p, t, x)] && sl != p.base
  {
    if !p.full {
      var a := s.arrays[p.base.arr];
      assert a[..sl.len] == a[..p.base.len] + [a[p.base.len]];
    }
  }

  // ---------------------------------------------------------------------------------------------
  // Steps of others
  // ---------------------------------------------------------------------------------------------

  predicate IsRegStep(a: Action) { a.RegLoad? || a.RegAppend? || a.RegCas? || a.RegCall? }

  predicate OfKind(s: State, a: Action, k: Kind) { IsRegStep(a) && a.i < |s.regs| && s.regs[a.i].kind == k }

  lemma CurStays(s: State, a: Action, k: Kind)
    requires SingleInv(s) && Owned(s) && !OfKind(s, a, k)
    ensures Step(s, a).cur < |Step(s, a).vals| && At(Step(s, a).vals[Step(s, a).cur], k) == At(s.vals[s.cur], k)
  {
    RecordsStep(s, a);
    if a.RegCas? && a.i < |s.regs| { assert CopyOk(s, a.i) && RegOk(s, a.i); }
    if a.SetCas? && a.t < |s.setters| { assert SetterOk(s, a.t); }
  }

  lemma OthersStep(s: State, a: Action, k: Kind)
    requires SingleInv(s) && Owned(s) && !OfKind(s, a, k)
    ensures Step(s, a).cur < |Step(s, a).vals| && SameKind(s, Step(s, a), k)
  {
    CurStays(s, a, k);
    RecordsStep(s, a);
    if a.RegAppend? {
      if a.i < |s.regs| && s.regs[a.i].pc.Seen? {
        assert RegOk(s, a.i);
        AppendOtherKind(s, Step(s, a), a.i, a.grow, k);
      }
    } else {
      OtherEffect(s, a);
    }
  }

  lemma RegsStay(s: State, a: Action, k: Kind)
    requires !OfKind(s, a, k) && a != Register(k)
    ensures |s.regs| <= |Step(s, a).regs|
    ensures forall x :: 0 <= x < |s.regs| ==> Step(s, a).regs[x].kind == s.regs[x].kind
    ensures forall x :: 0 <= x < |s.regs| && s.regs[x].kind == k ==> Step(s, a).regs[x] == s.regs[x]
    ensures forall x :: |s.regs| <= x < |Step(s, a).regs| ==> Step(s, a).regs[x].kind != k
  {
  }

  lemma OwnerGrows(s: State, a: Action)
    requires SingleInv(s) && Homes(s)
    ensures s.owner <= Step(s, a).owner
  {
    if a.RegAppend? {
      if a.i < |s.regs| && s.regs[a.i].pc.Seen? && s.regs[a.i].pc.v < |s.vals| { AppendEffect(s, a.i, a.grow); }
    } else {
      OtherEffect(s, a);
    }
  }

  /** The arrays and the published slice of the pair's kind are as they were. */
  ghost predicate Untouched(p: Pair, s: State, s': State) {
    && SingleInv(s) && Owned(s) && SingleInv(s') && Owned(s') && SameKind(s, s', p.k) && s.owner <= s'.owner
  }

  ghost predicate SameReg(s: State, s': State, x: nat) {
    x < |s.regs| && x < |s'.regs| && s'.regs[x] == s.regs[x]
  }

  lemma SameHeld(p: Pair, s: State, s': State, sl: Slice)
    requires Untouched(p, s, s') && sl.arr < |s.arrays| && s.owner[sl.arr] == p.k && sl.len <= |s.arrays[sl.arr]|
    ensures sl.arr < |s'.arrays| && s'.arrays[sl.arr] == s.arrays[sl.arr] && Held(s', sl) == Held(s, sl)
  {
  }

  lemma RacingStays(p: Pair, s: State, s': State, t: Trace, x: nat)
    requires Untouched(p, s, s') && SameReg(s, s', x) && Racing(p, s, t, x)
    ensures Racing(p, s', t, x)
  {
    var pc := s.regs[x].pc;
    assert RegOk(s, x) && RegOk(s', x);
    if pc.Prepared? { SameHeld(p, s, s', At(s.vals[pc.copy], p.k)); }
  }

  lemma TrailingStays(p: Pair, s: State, s': State, t: Trace, x: nat)
    requires Untouched(p, s, s') && SameReg(s, s', x)
    requires Trailing(p, s, t, x, At(s.vals[s.cur], p.k))
    ensures Trailing(p, s', t, x, At(s'.vals[s'.cur], p.k))
  {
    var pc := s.regs[x].pc;
    assert RegOk(s, x) && RegOk(s', x);
    SameHeld(p, s, s', At(s.vals[s.cur], p.k));
    if pc.Prepared? { SameHeld(p, s, s', At(s.vals[pc.copy], p.k)); }
  }

  lemma OthersKeep(p: Pair, s: State, a: Action, t: Trace)
    requires PairInv(p, s, t) && !OfKind(s, a, p.k) && a != Register(p.k)
    ensures PairInv(p, Step(s, a), t) && Observe(p, s, a, t) == t
  {
    var s' := Step(s, a);
    SingleStep(s, a);
    OwnedStep(s, a);
    OthersStep(s, a, p.k);
    OwnerGrows(s, a);
    RegsStay(s, a, p.k);
    SameHeld(p, s, s', p.base);
    SameHeld(p, s, s', At(s.vals[s.cur], p.k));
    if t.winner.None? {
      RacingStays(p, s, s', t, p.i);
      RacingStays(p, s, s', t, p.j);
    } else if !s.regs[Other(p, t.winner.value)].pc.Stored? {
      TrailingStays(p, s, s', t, Other(p, t.winner.value));
    }
  }

  // ---------------------------------------------------------------------------------------------
  // Steps of the two
  // ---------------------------------------------------------------------------------------------

  lemma RestAlone(p: Pair, s: State, s': State, x: nat)
    requires Alone(p, s) && (x == p.i || x == p.j)
    requires |s'.regs| == |s.regs| && s'.regs == s.regs[x := s'.regs[x]] && s'.regs[x].kind == p.k
    ensures Alone(p, s')
  {
  }

  /** A step of x that stores nothing, on unchanged records and arrays. */
  lemma MoveKeeps(p: Pair, s: State, s': State, t: Trace, x: nat, pc: RegPc)
    requires PairInv(p, s, t) && SingleInv(s') && Owned(s') && (x == p.i || x == p.j) && !s.regs[x].pc.Stored?
    requires s' == SetRegPc(s, x, pc).(ran := s'.ran) && !pc.Stored?
    requires t.winner.None? ==> Racing(p, s', t, x)
    requires t.winner.Some? ==> Trailing(p, s', t, x, At(s'.vals[s'.cur], p.k))
    ensures PairInv(p, s', t)
  {
    RestAlone(p, s, s', x);
    if t.winner.None? { RacingStays(p, s, s', t, Other(p, x)); }
  }

  lemma LoadKeeps(p: Pair, s: State, x: nat, t: Trace)
    requires PairInv(p, s, t) && (x == p.i || x == p.j)
    ensures PairInv(p, Step(s, RegLoad(x)), t)
  {
    var s' := Step(s, RegLoad(x));
    SingleStep(s, RegLoad(x));
    OwnedStep(s, RegLoad(x));
    if s.regs[x].pc.Retry? { MoveKeeps(p, s, s', t, x, s'.regs[x].pc); }
  }

  lemma CallKeeps(p: Pair, s: State, x: nat, t: Trace)
    requires PairInv(p, s, t) && (x == p.i || x == p.j)
    ensures PairInv(p, Step(s, RegCall(x)), t)
  {
    var s' := Step(s, RegCall(x));
    SingleStep(s, RegCall(x));
    OwnedStep(s, RegCall(x));
    if s.regs[x].pc.Calling? { MoveKeeps(p, s, s', t, x, Called); }
  }

  lemma CasEffect(p: Pair, s: State, x: nat, t: Trace)
    requires x < |s.regs| && s.regs[x].kind == p.k && s.regs[x].pc.Prepared?
    ensures var s' := Step(s, RegCas(x));
            if s.cur != s.regs[x].pc.v then s' == SetRegPc(s, x, Retry) && Observe(p, s, RegCas(x), t) == t
            else
              && s' == SetRegPc(s, x, Stored).(cur := s.regs[x].pc.copy)
              && Observe(p, s, RegCas(x), t) == if t.winner.None? then t.(winner := Some(x)) else t
  {
  }

  lemma SwapKeeps(p: Pair, s: State, s': State, x: nat, t: Trace)
    requires PairInv(p, s, t) && SingleInv(s') && Owned(s') && (x == p.i || x == p.j)
    requires s.regs[x].pc.Prepared? && s.regs[x].pc.v == s.cur && s.regs[x].pc.copy < |s.vals|
    requires s' == SetRegPc(s, x, Stored).(cur := s.regs[x].pc.copy)
    ensures PairInv(p, s', if t.winner.None? then t.(winner := Some(x)) else t)
  {
    if t.winner.None? {
      WinKeeps(p, s, s', x, t);
    } else {
      SecondKeeps(p, s, s', x, t);
    }
  }

  lemma CasKeeps(p: Pair, s: State, x: nat, t: Trace)
    requires PairInv(p, s, t) && (x == p.i || x == p.j)
    ensures PairInv(p, Step(s, RegCas(x)), Observe(p, s, RegCas(x), t))
  {
    SingleStep(s, RegCas(x));
    OwnedStep(s, RegCas(x));
    if s.regs[x].pc.Prepared? {
      assert RegOk(s, x);
      CasEffect(p, s, x, t);
      if s.cur != s.regs[x].pc.v {
        LoseKeeps(p, s, Step(s, RegCas(x)), x, t);
      } else {
        SwapKeeps(p, s, Step(s, RegCas(x)), x, t);
      }
    }
  }

  lemma LoseKeeps(p: Pair, s: State, s': State, x: nat, t: Trace)
    requires PairInv(p, s, t) && SingleInv(s') && Owned(s') && (x == p.i || x == p.j)
    requires s.regs[x].pc.Prepared? && s' == SetRegPc(s, x, Retry)
    ensures PairInv(p, s', t)
  {
    MoveKeeps(p, s, s', t, x, Retry);
  }

  lemma WinKeeps(p: Pair, s: State, s': State, x: nat, t: Trace)
    requires PairInv(p, s, t) && SingleInv(s') && Owned(s') && (x == p.i || x == p.j) && t.winner.None?
    requires s.regs[x].pc.Prepared? && s.regs[x].pc.copy < |s.vals|
    requires s' == SetRegPc(s, x, Stored).(cur := s.regs[x].pc.copy)
    ensures PairInv(p, s', t.(winner := Some(x)))
  {
    var o, now := Other(p, x), At(s'.vals[s'.cur], p.k);
    assert RegOk(s, o) && RegOk(s', o);
    ExtendsHeld(p, s, t, now, x);
    RestAlone(p, s, s', x);
  }

  lemma SecondKeeps(p: Pair, s: State, s': State, x: nat, t: Trace)
    requires PairInv(p, s, t) && SingleInv(s') && Owned(s') && (x == p.i || x == p.j) && t.winner.Some?
    requires s.regs[x].pc.Prepared? && s.regs[x].pc.v == s.cur && s.regs[x].pc.copy < |s.vals|
    requires s' == SetRegPc(s, x, Stored).(cur := s.regs[x].pc.copy)
    ensures PairInv(p, s', t)
  {
    ExtendsHeld(p, s, t, At(s.vals[s.cur], p.k), t.winner.value);
    RestAlone(p, s, s', x);
  }

  /** An append changes no more than the cell after its slice, and gives the slice with x at its end. */
  lemma AppendCells(arrays: seq<seq<Option<nat>>>, sl: Slice, x: nat, grow: nat)
    requires sl.arr < |arrays| && sl.len <= |arrays[sl.arr]|
    ensures var (arrays', slice) := Append(arrays, sl, x, grow);
            && |arrays| <= |arrays'| && slice.len == sl.len + 1
            && slice.arr < |arrays'| && slice.len <= |arrays'[slice.arr]|
            && arrays'[slice.arr][..slice.len] == arrays[sl.arr][..sl.len] + [Some(x)]
            && (forall a :: 0 <= a < |arrays| && a != sl.arr ==> arrays'[a] == arrays[a])
            && |arrays'[sl.arr]| == |arrays[sl.arr]|
            && (forall q :: 0 <= q < |arrays[sl.arr]| && q != sl.len ==> arrays'[sl.arr][q] == arrays[sl.arr][q])
            && (if sl.len < |arrays[sl.arr]| then slice.arr == sl.arr && arrays'[sl.arr][sl.len] == Some(x)
                else slice.arr == |arrays| && arrays' == arrays + [arrays'[slice.arr]])
  {
  }

  /** x appends to the base. */
  lemma BaseAppend(p: Pair, s: State, s': State, x: nat, grow: nat, t: Trace)
    requires PairInv(p, s, t) && SingleInv(s') && Owned(s') && (x == p.i || x == p.j)
    requires s' == Step(s, RegAppend(x, grow)) && AppendsToBase(p, s, RegAppend(x, grow))
    ensures BaseOk(p, s', t.(last := Some(x)))
    ensures Extends(p, s', t.(last := Some(x)), At(s'.vals[|s.vals|], p.k), x)
    ensures forall sl, y :: Extends(p, s, t, sl, y) ==> Extends(p, s', t.(last := Some(x)), sl, y)
  {
    var v := s.regs[x].pc.v;
    AppendEffect(s, x, grow);
    AppendCells(s.arrays, p.base, x, grow);
    var (arrays', slice) := Append(s.arrays, p.base, x, grow);
    AtWith(s.vals[v], p.k, slice, p.k);
    assert s'.arrays[p.base.arr][..p.base.len] == s.arrays[p.base.arr][..p.base.len];
  }

  lemma BaseAppendKeeps(p: Pair, s: State, s': State, x: nat, grow: nat, t: Trace)
    requires PairInv(p, s, t) && SingleInv(s') && Owned(s') && (x == p.i || x == p.j)
    requires s' == Step(s, RegAppend(x, grow)) && AppendsToBase(p, s, RegAppend(x, grow))
    ensures PairInv(p, s', t.(last := Some(x)))
  {
    var y := Other(p, x);
    AppendEffect(s, x, grow);
    BaseAppend(p, s, s', x, grow, t);
    RestAlone(p, s, s', x);
    assert RegOk(s, y) && RegOk(s', y) && RegOk(s', x);
    assert s'.vals[s'.cur] == s.vals[s.cur];
    if t.winner.Some? {
      ExtendsHeld(p, s, t, At(s.vals[s.cur], p.k), t.winner.value);
    }
  }

  /** x appends to what the other has published. */
  lemma NowAppendKeeps(p: Pair, s: State, s': State, x: nat, grow: nat, t: Trace)
    requires PairInv(p, s, t) && SingleInv(s') && Owned(s') && t.winner.Some? && x == Other(p, t.winner.value)
    requires s.regs[x].pc.Seen? && s.regs[x].pc.v < |s.vals|
    requires At(s.vals[s.regs[x].pc.v], p.k) == At(s.vals[s.cur], p.k)
    requires s' == Step(s, RegAppend(x, grow))
    ensures PairInv(p, s', t) && !AppendsToBase(p, s, RegAppend(x, grow))
  {
    var v, now := s.regs[x].pc.v, At(s.vals[s.cur], p.k);
    var (arrays', slice) := Append(s.arrays, now, x, grow);
    AppendEffect(s, x, grow);
    AppendCells(s.arrays, now, x, grow);
    AtWith(s.vals[v], p.k, slice, p.k);
    ExtendsHeld(p, s, t, now, t.winner.value);
    RestAlone(p, s, s', x);
    assert s'.arrays[p.base.arr][..p.base.len] == s.arrays[p.base.arr][..p.base.len];
    assert s'.arrays[now.arr][..now.len] == s.arrays[now.arr][..now.len];
    assert s'.vals[s'.cur] == s.vals[s.cur];
  }

  lemma AppendKeepsPair(p: Pair, s: State, x: nat, grow: nat, t: Trace)
    requires PairInv(p, s, t) && (x == p.i || x == p.j)
    ensures PairInv(p, Step(s, RegAppend(x, grow)), Observe(p, s, RegAppend(x, grow), t))
  {
    var s' := Step(s, RegAppend(x, grow));
    SingleStep(s, RegAppend(x, grow));
    OwnedStep(s, RegAppend(x, grow));
    if s.regs[x].pc.Seen? {
      assert RegOk(s, x);
      if AppendsToBase(p, s, RegAppend(x, grow)) {
        BaseAppendKeeps(p, s, s', x, grow, t);
      } else {
        NowAppendKeeps(p, s, s', x, grow, t);
      }
    }
  }

  lemma IdleStep(s: State, a: Action)
    requires IsRegStep(a) && a.i < |s.regs| && !InFlight(s.regs[a.i].pc)
    ensures Step(s, a) == s
  {
  }

  lemma PairStep(p: Pair, s: State, a: Action, t: Trace)
    requires PairInv(p, s, t) && a != Register(p.k)
    ensures PairInv(p, Step(s, a), Observe(p, s, a, t))
  {
    if !OfKind(s, a, p.k) {
      OthersKeep(p, s, a, t);
    } else if a.i != p.i && a.i != p.j {
      IdleStep(s, a);
    } else {
      match a
      case RegLoad(x) => LoadKeeps(p, s, x, t);
      case RegAppend(x, grow) => AppendKeepsPair(p, s, x, grow, t);
      case RegCas(x) => CasKeeps(p, s, x, t);
      case RegCall(x) => CallKeeps(p, s, x, t);
    }
  }

  lemma {:induction false} PairRun(p: Pair, s: State, actions: seq<Action>, t: Trace)
    requires PairInv(p, s, t) && Register(p.k) !in actions
    ensures PairInv(p, Run(s, actions), Watch(p, s, actions, t))
    decreases |actions|
  {
    if actions != [] {
      PairStep(p, s, actions[0], t);
      PairRun(p, Step(s, actions[0]), actions[1..], Observe(p, s, actions[0], t));
    }
  }

  // ---------------------------------------------------------------------------------------------
  // What two overlapping registrations leave
  // ---------------------------------------------------------------------------------------------

  /** Two registrations of kind k have started on a Future without a result, and are the only ones of
      their kind under way. */
  ghost predicate Started(p: Pair, s: State) {
    && SingleInv(s) && Owned(s) && Alone(p, s) && SlicesOk(s) && StoredOk(s) && Outcome(s).None?
    && s.regs[p.i].pc.Retry? && s.regs[p.j].pc.Retry?
    && p.base == At(s.vals[s.cur], p.k) && p.held == Contents(s, p.k)
    && (p.full <==> p.base.len == |s.arrays[p.base.arr]|)
  }

  lemma CountPair(held: seq<Option<nat>>, w: nat, o: nat, first: nat)
    requires w != o && multiset(held)[Some(w)] == 0 && multiset(held)[Some(o)] == 0 && (first == w || first == o)
    ensures var d := held + [Some(first)] + [Some(o)];
            multiset(d)[Some(w)] == One(first == w) && multiset(d)[Some(o)] == 2 - One(first == w)
  {
  }

  lemma StartedInv(p: Pair, s: State)
    requires Started(p, s)
    ensures PairInv(p, s, Trace(None, None)) && multiset(p.held)[Some(p.i)] == 0 && multiset(p.held)[Some(p.j)] == 0
  {
  }

  lemma PairOutcome(p: Pair, f: State, t: Trace)
    requires PairInv(p, f, t) && f.regs[p.i].pc.Stored? && f.regs[p.j].pc.Stored?
    requires multiset(p.held)[Some(p.i)] == 0 && multiset(p.held)[Some(p.j)] == 0
    ensures SlicesOk(f) && t.winner.Some? && t.last.Some?
    ensures t.winner.value in [p.i, p.j] && t.last.value in [p.i, p.j]
    ensures Contents(f, p.k)
            == p.held + [if p.full then t.winner else t.last] + [Some(Other(p, t.winner.value))]
    ensures var n := multiset(Contents(f, p.k));
            && (n[Some(p.i)] == 1 && n[Some(p.j)] == 1 <==> p.full || t.last == t.winner)
            && (!p.full && t.last != t.winner ==> n[t.winner] == 0 && n[t.last] == 2)
  {
    OwnedSlices(f);
    var w := t.winner.value;
    CountPair(p.held, w, Other(p, w), if p.full then w else t.last.value);
  }

  /** In every interleaving of the two, of completers and of registrations of other kinds: once both are
      stored, each is stored exactly once if and only if the slice they started from was full or the one
      that published first was also the last to append to that slice.  Otherwise the first to publish is
      lost and the second is stored twice. */
  lemma OverlapExactly(p: Pair, s: State, actions: seq<Action>, f: State, t: Trace)
    requires Started(p, s) && Register(p.k) !in actions
    requires f == Run(s, actions) && t == Watch(p, s, actions, Trace(None, None))
    requires p.i < |f.regs| && p.j < |f.regs| && f.regs[p.i].pc.Stored? && f.regs[p.j].pc.Stored?
    ensures SlicesOk(f) && t.winner.Some? && t.last.Some?
    ensures t.winner.value in [p.i, p.j] && t.last.value in [p.i, p.j]
    ensures Contents(f, p.k)
            == p.held + [if p.full then t.winner else t.last] + [Some(Other(p, t.winner.value))]
    ensures var n := multiset(Contents(f, p.k));
            && (n[Some(p.i)] == 1 && n[Some(p.j)] == 1 <==> p.full || t.last == t.winner)
            && (!p.full && t.last != t.winner ==> n[t.winner] == 0 && n[t.last] == 2)
  {
    StartedInv(p, s);
    PairRun(p, s, actions, Trace(None, None));
    PairOutcome(p, f, t);
  }

  /** The same when only one of them is stored, the other not yet or called with the result. */
  lemma OneStored(p: Pair, s: State, actions: seq<Action>, f: State, t: Trace)
    requires Started(p, s) && Register(p.k) !in actions
    requires f == Run(s, actions) && t == Watch(p, s, actions, Trace(None, None)) && t.winner.Some?
    ensures SlicesOk(f) && t.last.Some? && t.winner.value in [p.i, p.j] && Other(p, t.winner.value) < |f.regs|
    ensures !f.regs[Other(p, t.winner.value)].pc.Stored? ==>
              Contents(f, p.k) == p.held + [if p.full then t.winner else t.last]
  {
    StartedInv(p, s);
    PairRun(p, s, actions, Trace(None, None));
    OwnedSlices(f);
    var w := t.winner.value;
    if !f.regs[Other(p, w)].pc.Stored? { ExtendsHeld(p, f, t, At(f.vals[f.cur], p.k), w); }
  }

  // Two runs on a new Future: the loser's append comes last, and the winner's does.

  function Dones(n: nat): Val { Val(Slice(0, n), Slice(1, 0), Slice(2, 0), Slice(3, 0), None) }

  /** A Future on which only Done callbacks have been registered. */
  function Small(cells: seq<Option<nat>>, vals: seq<Val>, cur: nat, regs: seq<RegPc>): State {
    State([cells, Blank(8), Blank(4), Blank(2)], vals, cur, 0, [],
          seq(|regs|, x requires 0 <= x < |regs| => Reg(Done, regs[x])), multiset{}, None, [Done, Fail, Always, Cancel])
  }

  lemma {:induction false} RunSnoc(s: State, actions: seq<Action>, a: Action)
    ensures Run(s, actions + [a]) == Step(Run(s, actions), a)
    decreases |actions|
  {
    if actions == [] {
      assert [] + [a] == [a] && [a][1..] == [];
    } else {
      assert (actions + [a])[1..] == actions[1..] + [a];
      RunSnoc(Step(s, actions[0]), actions[1..], a);
    }
  }

  /** A run on a new Future that ends in the given state. */
  predicate Ends(actions: seq<Action>, cells: seq<Option<nat>>, vals: seq<Val>, cur: nat, regs: seq<RegPc>) {
    Run(Init(), actions) == Small(cells, vals, cur, regs)
  }

  lemma DoRegister(before: seq<Action>, cells: seq<Option<nat>>, vals: seq<Val>, cur: nat, regs: seq<RegPc>)
    returns (actions: seq<Action>)
    requires Ends(before, cells, vals, cur, regs)
    ensures Ends(actions, cells, vals, cur, regs + [Retry])
  {
    actions := before + [Register(Done)];
    RunSnoc(Init(), before, Register(Done));
  }

  lemma DoLoad(before: seq<Action>, cells: seq<Option<nat>>, vals: seq<Val>, cur: nat, regs: seq<RegPc>, x: nat)
    returns (actions: seq<Action>)
    requires Ends(before, cells, vals, cur, regs)
    requires x < |regs| && regs[x].Retry? && cur < |vals| && vals[cur].r.None?
    ensures Ends(actions, cells, vals, cur, regs[x := Seen(cur)])
  {
    actions := before + [RegLoad(x)];
    RunSnoc(Init(), before, RegLoad(x));
  }

  lemma DoAppend(before: seq<Action>, cells: seq<Option<nat>>, vals: seq<Val>, cur: nat, regs: seq<RegPc>, x: nat,
                 n: nat)
    returns (actions: seq<Action>)
    requires Ends(before, cells, vals, cur, regs)
    requires x < |regs| && regs[x].Seen? && regs[x].v < |vals| && vals[regs[x].v] == Dones(n) && n < |cells|
    ensures Ends(actions, cells[n := Some(x)], vals + [Dones(n + 1)], cur, regs[x := Prepared(regs[x].v, |vals|)])
  {
    actions := before + [RegAppend(x, 0)];
    RunSnoc(Init(), before, RegAppend(x, 0));
  }

  lemma DoCas(before: seq<Action>, cells: seq<Option<nat>>, vals: seq<Val>, cur: nat, regs: seq<RegPc>, x: nat)
    returns (actions: seq<Action>)
    requires Ends(before, cells, vals, cur, regs) && x < |regs| && regs[x].Prepared?
    ensures cur == regs[x].v ==> Ends(actions, cells, vals, regs[x].copy, regs[x := Stored])
    ensures cur != regs[x].v ==> Ends(actions, cells, vals, cur, regs[x := Retry])
  {
    actions := before + [RegCas(x)];
    RunSnoc(Init(), before, RegCas(x));
  }

  /** Both registrations have loaded the first record. */
  lemma BothLoaded() returns (actions: seq<Action>)
    ensures Ends(actions, Blank(8), [Dones(0)], 0, [Seen(0), Seen(0)])
  {
    assert Ends([], Blank(8), [Dones(0)], 0, []);
    actions := DoRegister([], Blank(8), [Dones(0)], 0, []);
    actions := DoRegister(actions, Blank(8), [Dones(0)], 0, [] + [Retry]);
    assert [] + [Retry] + [Retry] == [Retry, Retry];
    actions := DoLoad(actions, Blank(8), [Dones(0)], 0, [Retry, Retry], 0);
    assert [Retry, Retry][0 := Seen(0)] == [Seen(0), Retry];
    actions := DoLoad(actions, Blank(8), [Dones(0)], 0, [Seen(0), Retry], 1);
    assert [Seen(0), Retry][1 := Seen(0)] == [Seen(0), Seen(0)];
  }

  /** The second registration retries alone, after the first has published. */
  lemma RetryAlone(before: seq<Action>, cells: seq<Option<nat>>, vals: seq<Val>, cur: nat)
    returns (actions: seq<Action>)
    requires Ends(before, cells, vals, cur, [Stored, Retry])
    requires |cells| == 8 && cur < |vals| && vals[cur] == Dones(1)
    ensures Ends(actions, cells[1 := Some(1)], vals + [Dones(2)], |vals|, [Stored, Stored])
  {
    actions := DoLoad(before, cells, vals, cur, [Stored, Retry], 1);
    assert [Stored, Retry][1 := Seen(cur)] == [Stored, Seen(cur)];
    actions := DoAppend(actions, cells, vals, cur, [Stored, Seen(cur)], 1, 1);
    assert [Stored, Seen(cur)][1 := Prepared(cur, |vals|)] == [Stored, Prepared(cur, |vals|)];
    actions := DoCas(actions, cells[1 := Some(1)], vals + [Dones(2)], cur, [Stored, Prepared(cur, |vals|)], 1);
    assert [Stored, Prepared(cur, |vals|)][1 := Stored] == [Stored, Stored];
  }

  /** What a Future holds after both registrations have returned. */
  predicate Leaves(f: State, first: nat, second: nat) {
    && f.regs == [Reg(Done, Stored), Reg(Done, Stored)] && SlicesOk(f)
    && Contents(f, Done) == [Some(first), Some(second)]
  }

  lemma SmallLeaves(cells: seq<Option<nat>>, vals: seq<Val>, cur: nat)
    requires |cells| == 8 && cells[0].Some? && cells[1].Some? && cur < |vals| && vals[cur] == Dones(2)
    ensures Leaves(Small(cells, vals, cur, [Stored, Stored]), cells[0].value, cells[1].value)
  {
    var f := Small(cells, vals, cur, [Stored, Stored]);
    forall k: Kind ensures At(f.vals[f.cur], k) == match k case Done => Slice(0, 2) case Fail => Slice(1, 0)
                                                          case Always => Slice(2, 0) case Cancel => Slice(3, 0) {}
  }

  /** Both have returned, and the first two cells hold the given callbacks. */
  predicate Pairs(actions: seq<Action>, cells: seq<Option<nat>>, vals: seq<Val>, first: nat, second: nat) {
    && Ends(actions, cells, vals, 3, [Stored, Stored]) && |vals| == 4 && vals[3] == Dones(2)
    && |cells| == 8 && cells[0] == Some(first) && cells[1] == Some(second)
  }

  /** The loser appends to the shared record after the winner. */
  lemma LoserLast() returns (actions: seq<Action>, cells: seq<Option<nat>>, vals: seq<Val>)
    ensures Pairs(actions, cells, vals, 1, 1)
  {
    var first, second := [Dones(0)] + [Dones(1)], [Dones(0)] + [Dones(1)] + [Dones(1)];
    cells := Blank(8)[0 := Some(0)];
    actions := BothLoaded();
    actions := DoAppend(actions, Blank(8), [Dones(0)], 0, [Seen(0), Seen(0)], 0, 0);
    assert [Seen(0), Seen(0)][0 := Prepared(0, 1)] == [Prepared(0, 1), Seen(0)];
    actions := DoCas(actions, cells, first, 0, [Prepared(0, 1), Seen(0)], 0);
    assert [Prepared(0, 1), Seen(0)][0 := Stored] == [Stored, Seen(0)];
    actions := DoAppend(actions, cells, first, 1, [Stored, Seen(0)], 1, 0);
    assert [Stored, Seen(0)][1 := Prepared(0, 2)] == [Stored, Prepared(0, 2)];
    actions := DoCas(actions, cells[0 := Some(1)], second, 1, [Stored, Prepared(0, 2)], 1);
    assert [Stored, Prepared(0, 2)][1 := Retry] == [Stored, Retry];
    actions := RetryAlone(actions, cells[0 := Some(1)], second, 1);
    cells, vals := cells[0 := Some(1)][1 := Some(1)], second + [Dones(2)];
  }

  /** The winner appends last. */
  lemma WinnerLast() returns (actions: seq<Action>, cells: seq<Option<nat>>, vals: seq<Val>)
    ensures Pairs(actions, cells, vals, 0, 1)
  {
    var first, second := [Dones(0)] + [Dones(1)], [Dones(0)] + [Dones(1)] + [Dones(1)];
    cells := Blank(8)[0 := Some(1)];
    actions := BothLoaded();
    actions := DoAppend(actions, Blank(8), [Dones(0)], 0, [Seen(0), Seen(0)], 1, 0);
    assert [Seen(0), Seen(0)][1 := Prepared(0, 1)] == [Seen(0), Prepared(0, 1)];
    actions := DoAppend(actions, cells, first, 0, [Seen(0), Prepared(0, 1)], 0, 0);
    assert [Seen(0), Prepared(0, 1)][0 := Prepared(0, 2)] == [Prepared(0, 2), Prepared(0, 1)];
    actions := DoCas(actions, cells[0 := Some(0)], second, 0, [Prepared(0, 2), Prepared(0, 1)], 0);
    assert [Prepared(0, 2), Prepared(0, 1)][0 := Stored] == [Stored, Prepared(0, 1)];
    actions := DoCas(actions, cells[0 := Some(0)], second, 2, [Stored, Prepared(0, 1)], 1);
    assert [Stored, Prepared(0, 1)][1 := Retry] == [Stored, Retry];
    actions := RetryAlone(actions, cells[0 := Some(0)], second, 2);
    cells, vals := cells[0 := Some(0)][1 := Some(1)], second + [Dones(2)];
  }

  /** The first callback to be published is lost when the loser appends last. */
  lemma LossHappens() returns (actions: seq<Action>)
    ensures Leaves(Run(Init(), actions), 1, 1)
  {
    var cells, vals;
    actions, cells, vals := LoserLast();
    SmallLeaves(cells, vals, 3);
  }

  /** Nothing is lost when the winner appends last, although both saw the same record with room to spare. */
  lemma LossAvoided() returns (actions: seq<Action>)
    ensures Leaves(Run(Init(), actions), 0, 1)
  {
    var cells, vals;
    actions, cells, vals := WinnerLast();
    SmallLeaves(cells, vals, 3);
  }
}
