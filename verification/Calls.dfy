/** Which callbacks run when two registrations of one kind overlap on a Future.

    The goroutine of the winning completer visits the cells of the published slices one by one, and an
    append that is never published may still overwrite a cell it has not visited yet. */
module FutureCalls {
  import opened Options
  import opened FutureProtocol
  import opened FutureOverlap

  // ---------------------------------------------------------------------------------------------
  // Cells, calls and visits: every schedule
  // ---------------------------------------------------------------------------------------------

  /** A cell of an array holds only callbacks of the kind the array was made for. */
  ghost predicate CellKinds(s: State) {
    && |s.owner| == |s.arrays|
    && (forall a, q | 0 <= a < |s.arrays| && 0 <= q < |s.arrays[a]| && s.arrays[a][q].Some? ::
          s.arrays[a][q].value < |s.regs| && s.regs[s.arrays[a][q].value].kind == s.owner[a])
  }

  /** Callbacks are called with the result and only when there is one. */
  ghost predicate CallsOk(s: State)
    requires s.cur < |s.vals|
  {
    forall c :: c in s.ran ==> Outcome(s) == Some(c.res)
  }

  ghost predicate DistinctSlots(todo: seq<Slot>) { forall m, n :: 0 <= m < n < |todo| ==> todo[m] != todo[n] }

  /** What is left to visit are different cells of the published slices. */
  ghost predicate TodoOk(s: State)
    requires s.cur < |s.vals|
  {
    DistinctSlots(Todo(s)) && forall slot :: slot in Todo(s) ==> InSlices(s.vals[s.cur], slot)
  }

  ghost predicate Sound(s: State) {
    SingleInv(s) && Owned(s) && CellKinds(s) && CallsOk(s) && TodoOk(s)
  }

  lemma KindsStay(s: State, a: Action)
    ensures |s.regs| <= |Step(s, a).regs|
    ensures forall x :: 0 <= x < |s.regs| ==> Step(s, a).regs[x].kind == s.regs[x].kind
  {
  }

  lemma AppendCellKinds(s: State, i: nat, grow: nat)
    requires Homes(s) && CellKinds(s) && i < |s.regs| && s.regs[i].pc.Seen? && s.regs[i].pc.v < |s.vals|
    ensures CellKinds(Step(s, RegAppend(i, grow)))
  {
    var s', k, v := Step(s, RegAppend(i, grow)), s.regs[i].kind, s.regs[i].pc.v;
    var sl := At(s.vals[v], k);
    AppendEffect(s, i, grow);
    KindsStay(s, RegAppend(i, grow));
    forall a, q | 0 <= a < |s'.arrays| && 0 <= q < |s'.arrays[a]| && s'.arrays[a][q].Some?
      ensures s'.arrays[a][q].value < |s'.regs| && s'.regs[s'.arrays[a][q].value].kind == s'.owner[a]
    {
      if a == |s.arrays| {
        if q < sl.len { assert s'.arrays[a][q] == s.arrays[sl.arr][q]; }
      } else if a == sl.arr && q == sl.len && sl.len < |s.arrays[sl.arr]| {
      } else {
        assert s'.arrays[a][q] == s.arrays[a][q];
      }
    }
  }

  lemma CellKindsStep(s: State, a: Action)
    requires SingleInv(s) && Homes(s) && CellKinds(s)
    ensures CellKinds(Step(s, a))
  {
    if a.RegAppend? {
      if a.i < |s.regs| && s.regs[a.i].pc.Seen? && s.regs[a.i].pc.v < |s.vals| { AppendCellKinds(s, a.i, a.grow); }
    } else {
      OtherEffect(s, a);
      KindsStay(s, a);
    }
  }

  lemma CallsOkStep(s: State, a: Action)
    requires SingleInv(s) && CallsOk(s)
    ensures Step(s, a).cur < |Step(s, a).vals| && CallsOk(Step(s, a))
  {
    RecordsStep(s, a);
    if a.RegCall? && a.i < |s.regs| { assert RegOk(s, a.i); }
    if a.RunNext? && a.t < |s.setters| { assert SetterOk(s, a.t); }
  }

  lemma FireListDistinct(v: Val, typ: ResultType)
    requires forall k, l :: k != l ==> At(v, k).arr != At(v, l).arr
    ensures DistinctSlots(FireList(v, typ))
  {
    assert At(v, Done).arr != At(v, Always).arr && At(v, Fail).arr != At(v, Always).arr;
  }

  /** A visit takes the first cell, a spawn lists the cells of the published record, and no other step
      changes what is left to visit. */
  lemma TodoEffect(s: State, a: Action)
    requires SingleInv(s)
    ensures var s' := Step(s, a);
            && s'.cur < |s'.vals|
            && (Todo(s') == Todo(s)
                || (a.RunNext? && Todo(s) != [] && Todo(s') == Todo(s)[1..])
                || (a.Spawn? && Outcome(s).Some? && Todo(s') == FireList(s.vals[s.cur], Outcome(s).value.typ)))
            && (Todo(s) != [] ==> s'.cur == s.cur)
            && |s.vals| <= |s'.vals| && (s'.cur == s.cur ==> s'.vals[s'.cur] == s.vals[s.cur])
  {
    RecordsStep(s, a);
    if s.lastWin.Some? { assert SetterOk(s, s.lastWin.value); }
    if (a.SetCas? || a.CloseFinal? || a.Spawn? || a.RunNext?) && a.t < |s.setters| { assert SetterOk(s, a.t); }
  }

  lemma TodoStep(s: State, a: Action)
    requires SingleInv(s) && Homes(s) && TodoOk(s)
    ensures Step(s, a).cur < |Step(s, a).vals| && TodoOk(Step(s, a))
  {
    TodoEffect(s, a);
    OwnedSlices(s);
    RecordsStep(s, a);
    if a.Spawn? && Outcome(s).Some? {
      FireListDistinct(s.vals[s.cur], Outcome(s).value.typ);
      FireListInSlices(s.vals[s.cur], Outcome(s).value.typ);
    }
    if Todo(s) != [] && Todo(Step(s, a)) == Todo(s)[1..] {
      forall slot | slot in Todo(s)[1..] ensures slot in Todo(s) {}
    }
  }

  lemma SoundStep(s: State, a: Action)
    requires Sound(s)
    ensures Sound(Step(s, a))
  {
    SingleStep(s, a);
    OwnedStep(s, a);
    CellKindsStep(s, a);
    CallsOkStep(s, a);
    TodoStep(s, a);
  }

  lemma {:induction false} SoundRun(s: State, actions: seq<Action>)
    requires Sound(s)
    ensures Sound(Run(s, actions))
    decreases |actions|
  {
    if actions != [] {
      SoundStep(s, actions[0]);
      SoundRun(Step(s, actions[0]), actions[1..]);
    }
  }

  lemma InitSound()
    ensures Sound(Init())
  {
    InitSingle();
    InitOwned();
  }

  // ---------------------------------------------------------------------------------------------
  // The calls of a pair
  // ---------------------------------------------------------------------------------------------

  /** The cell the first of the pair to publish has published. */
  function FirstSlot(p: Pair, s: State): Slot
    requires s.cur < |s.vals|
  {
    Slot(At(s.vals[s.cur], p.k).arr, p.base.len)
  }

  function SecondSlot(p: Pair, s: State): Slot
    requires s.cur < |s.vals|
  {
    Slot(At(s.vals[s.cur], p.k).arr, p.base.len + 1)
  }

  /** The goroutine visits that cell. */
  predicate Visits(p: Pair, s: State, a: Action) {
    && a.RunNext? && a.t < |s.setters| && s.setters[a.t].todo != []
    && s.cur < |s.vals| && s.setters[a.t].todo[0] == FirstSlot(p, s)
  }

  /** What it finds there. */
  function Look(p: Pair, s: State, a: Action, seen: Option<nat>): Option<nat> {
    if Visits(p, s, a) then Cell(s.arrays, FirstSlot(p, s)) else seen
  }

  function Seen(p: Pair, s: State, actions: seq<Action>, seen: Option<nat>): Option<nat>
    decreases |actions|
  {
    if actions == [] then seen else Seen(p, Step(s, actions[0]), actions[1..], Look(p, s, actions[0], seen))
  }

  function Ran(s: State, x: nat): nat
    requires s.cur < |s.vals| && Outcome(s).Some?
  {
    s.ran[Call(x, Outcome(s).value)]
  }

  ghost predicate Fired(p: Pair, s: State)
    requires s.cur < |s.vals|
  {
    Outcome(s).Some? && Fires(p.k, Outcome(s).value.typ)
  }

  predicate IsCalled(s: State, x: nat)
    requires x < |s.regs|
  {
    s.regs[x].pc.Called?
  }

  predicate IsStored(s: State, x: nat)
    requires x < |s.regs|
  {
    s.regs[x].pc.Stored?
  }

  /** After a result that fires, when w has published first. */
  ghost predicate Counted(p: Pair, s: State, seen: Option<nat>, w: nat, o: nat)
    requires s.cur < |s.vals| && Outcome(s).Some? && o < |s.regs|
  {
    if !Spawned(s) then seen.None? && Ran(s, w) == 0 && Ran(s, o) == One(IsCalled(s, o))
    else
      && (FirstSlot(p, s) in Todo(s) <==> seen.None?)
      && (seen.Some? ==> seen.value == w || (seen.value == o && !p.full))
      && Ran(s, w) == One(seen == Some(w))
      && Ran(s, o) == One(IsCalled(s, o)) + One(IsStored(s, o) && SecondSlot(p, s) !in Todo(s)) + One(seen == Some(o))
  }

  /** A registration is called or dropped with the result. */
  ghost predicate ExitOk(p: Pair, s: State, x: nat)
    requires s.cur < |s.vals| && x < |s.regs|
  {
    (s.regs[x].pc.Called? ==> Outcome(s).Some?) && (s.regs[x].pc.Dropped? ==> Outcome(s).Some? && !Fired(p, s))
  }

  ghost predicate CallInv(p: Pair, s: State, t: Trace, seen: Option<nat>) {
    && Sound(s) && PairInv(p, s, t) && Some(p.i) !in p.held && Some(p.j) !in p.held
    && ExitOk(p, s, p.i) && ExitOk(p, s, p.j)
    && (Outcome(s).None? ==> seen.None?)
    && Tally(p, s, t, seen)
  }

  // What the goroutine finds.

  /** The published slice of the pair's kind. */
  lemma NowHeld(p: Pair, s: State, t: Trace)
    requires PairInv(p, s, t)
    ensures var now := At(s.vals[s.cur], p.k);
            && now.arr < |s.arrays| && now.len <= |s.arrays[now.arr]| && s.owner[now.arr] == p.k
            && match t.winner
               case None => Held(s, now) == p.held && now.len == p.base.len
               case Some(w) =>
                 Held(s, now) == p.held + [FirstCell(p, t, w)]
                                 + if s.regs[Other(p, w)].pc.Stored? then [Some(Other(p, w))] else []
  {
    if t.winner.Some? && !s.regs[Other(p, t.winner.value)].pc.Stored? {
      ExtendsHeld(p, s, t, At(s.vals[s.cur], p.k), t.winner.value);
    }
  }

  lemma HeldLength(p: Pair, s: State, t: Trace)
    requires BaseOk(p, s, t)
    ensures |p.held| == p.base.len
  {
  }

  lemma InSlicesAt(v: Val, slot: Slot) returns (l: Kind)
    requires InSlices(v, slot)
    ensures slot.arr == At(v, l).arr && slot.idx < At(v, l).len
  {
    l := if slot.arr == v.dones.arr && slot.idx < v.dones.len then Done
         else if slot.arr == v.fails.arr && slot.idx < v.fails.len then Fail
         else if slot.arr == v.always.arr && slot.idx < v.always.len then Always
         else Cancel;
  }

  /** Any other cell of the published slices holds neither of the two. */
  lemma OtherCell(p: Pair, s: State, t: Trace, slot: Slot, x: nat)
    requires Sound(s) && PairInv(p, s, t) && Some(p.i) !in p.held && Some(p.j) !in p.held && (x == p.i || x == p.j)
    requires InSlices(s.vals[s.cur], slot)
    requires t.winner.Some? ==> slot != FirstSlot(p, s) && slot != SecondSlot(p, s)
    ensures Cell(s.arrays, slot) != Some(x)
  {
    var now := At(s.vals[s.cur], p.k);
    NowHeld(p, s, t);
    HeldLength(p, s, t);
    if slot.arr == now.arr {
      var l := InSlicesAt(s.vals[s.cur], slot);
      assert l == p.k by { assert s.owner[At(s.vals[s.cur], l).arr] == l; }
      assert slot.idx < p.base.len;
      assert Held(s, now)[slot.idx] == p.held[slot.idx];
    } else {
      OtherKindCell(p, s, slot, x);
    }
  }

  lemma OtherKindCell(p: Pair, s: State, slot: Slot, x: nat)
    requires Homes(s) && CellKinds(s) && s.cur < |s.vals| && x < |s.regs| && s.regs[x].kind == p.k
    requires InSlices(s.vals[s.cur], slot) && slot.arr != At(s.vals[s.cur], p.k).arr
    ensures Cell(s.arrays, slot) != Some(x)
  {
    var l := InSlicesAt(s.vals[s.cur], slot);
    assert l != p.k && s.owner[slot.arr] == l;
  }

  lemma FirstCellFound(p: Pair, s: State, t: Trace)
    requires PairInv(p, s, t) && t.winner.Some?
    ensures Cell(s.arrays, FirstSlot(p, s)) == FirstCell(p, t, t.winner.value)
    ensures FirstCell(p, t, t.winner.value).Some?
    ensures var v := FirstCell(p, t, t.winner.value).value;
            v == t.winner.value || (v == Other(p, t.winner.value) && !p.full)
  {
    var now := At(s.vals[s.cur], p.k);
    NowHeld(p, s, t);
    HeldLength(p, s, t);
    assert Held(s, now)[p.base.len] == FirstCell(p, t, t.winner.value);
  }

  lemma SecondCellFound(p: Pair, s: State, t: Trace)
    requires Sound(s) && PairInv(p, s, t) && t.winner.Some? && InSlices(s.vals[s.cur], SecondSlot(p, s))
    ensures IsStored(s, Other(p, t.winner.value)) && Cell(s.arrays, SecondSlot(p, s)) == Some(Other(p, t.winner.value))
  {
    var now := At(s.vals[s.cur], p.k);
    NowHeld(p, s, t);
    HeldLength(p, s, t);
    var l := InSlicesAt(s.vals[s.cur], SecondSlot(p, s));
    assert l == p.k by { assert s.owner[At(s.vals[s.cur], l).arr] == l; }
    assert Held(s, now)[p.base.len + 1] == Some(Other(p, t.winner.value));
  }

  // The steps.

  /** With a result there, publishing is over. */
  lemma Decided(p: Pair, s: State, a: Action, t: Trace)
    requires Sound(s) && Outcome(s).Some?
    ensures var s' := Step(s, a);
            && s'.cur == s.cur && s'.cur < |s'.vals| && s'.vals[s'.cur] == s.vals[s.cur]
            && Observe(p, s, a, t).winner == t.winner
  {
    RecordsStep(s, a);
    if a.RegCas? && a.i < |s.regs| { assert RegOk(s, a.i); }
  }

  /** Nothing that matters to the calls of the pair has changed. */
  ghost predicate SameCalls(p: Pair, s: State, s': State)
    requires p.i < |s.regs| && p.j < |s.regs| && p.i < |s'.regs| && p.j < |s'.regs|
  {
    && s'.cur == s.cur && s.cur < |s.vals| && s.cur < |s'.vals| && s'.vals[s.cur] == s.vals[s.cur]
    && s'.ran == s.ran && Todo(s') == Todo(s) && Spawned(s') == Spawned(s)
    && (forall x | x == p.i || x == p.j :: IsCalled(s', x) == IsCalled(s, x) && IsStored(s', x) == IsStored(s, x))
  }

  /** The steps that neither complete, spawn, visit nor call. */
  predicate Plain(a: Action) { !a.SetCas? && !a.Spawn? && !a.RunNext? && !a.RegCall? }

  lemma PlainRegs(s: State, a: Action, x: nat)
    requires SingleInv(s) && Outcome(s).Some? && x < |s.regs| && !a.RegCall?
    ensures x < |Step(s, a).regs|
    ensures IsCalled(Step(s, a), x) == IsCalled(s, x) && IsStored(Step(s, a), x) == IsStored(s, x)
  {
    assert RegOk(s, x);
  }

  lemma PlainSetters(s: State, a: Action)
    requires SingleInv(s) && Outcome(s).Some? && Plain(a)
    ensures Step(s, a).ran == s.ran && Todo(Step(s, a)) == Todo(s) && Spawned(Step(s, a)) == Spawned(s)
  {
    assert SetterOk(s, s.lastWin.value);
    if (a.CloseFinal? || a.SetLoad?) && a.t < |s.setters| { assert SetterOk(s, a.t); }
  }

  lemma LateCas(s: State, u: nat)
    requires SingleInv(s) && Outcome(s).Some?
    ensures var s' := Step(s, SetCas(u));
            && s'.ran == s.ran && s'.cur == s.cur && s'.vals == s.vals && s'.regs == s.regs
            && Todo(s') == Todo(s) && Spawned(s') == Spawned(s)
  {
    assert SetterOk(s, s.lastWin.value);
    if u < |s.setters| { assert SetterOk(s, u); }
  }

  lemma PlainSame(p: Pair, s: State, a: Action)
    requires Sound(s) && Outcome(s).Some? && p.i < |s.regs| && p.j < |s.regs|
    requires Plain(a) || a.SetCas? || Step(s, a) == s
    ensures p.i < |Step(s, a).regs| && p.j < |Step(s, a).regs| && SameCalls(p, s, Step(s, a))
  {
    if a.SetCas? {
      LateCas(s, a.t);
    } else if Plain(a) {
      RecordsStep(s, a);
      PlainSetters(s, a);
      PlainRegs(s, a, p.i);
      PlainRegs(s, a, p.j);
    }
  }

  /** The part of the invariant about calls. */
  ghost predicate Tally(p: Pair, s: State, t: Trace, seen: Option<nat>)
    requires s.cur < |s.vals| && p.i < |s.regs| && p.j < |s.regs|
  {
    Fired(p, s) ==>
      match t.winner
      case None => seen.None? && Ran(s, p.i) == One(IsCalled(s, p.i)) && Ran(s, p.j) == One(IsCalled(s, p.j))
      case Some(w) => Counted(p, s, seen, w, Other(p, w))
  }

  lemma SameTally(p: Pair, s: State, s': State, t: Trace, t': Trace, seen: Option<nat>)
    requires p.i < |s.regs| && p.j < |s.regs| && p.i < |s'.regs| && p.j < |s'.regs| && SameCalls(p, s, s')
    requires t'.winner == t.winner && (t.winner.Some? ==> t.winner.value == p.i || t.winner.value == p.j)
    requires Tally(p, s, t, seen)
    ensures Tally(p, s', t', seen)
  {
  }

  /** A result arrives: nothing has been called yet. */
  lemma PublishTally(p: Pair, s: State, a: Action, t: Trace)
    requires Sound(s) && PairInv(p, s, t) && Outcome(s).None? && Publishes(s, a)
    requires !IsCalled(s, p.i) && !IsCalled(s, p.j)
    ensures Step(s, a).cur < |Step(s, a).vals| && p.i < |Step(s, a).regs| && p.j < |Step(s, a).regs|
    ensures Tally(p, Step(s, a), t, None)
  {
    assert SetterOk(s, a.t);
    RecordsStep(s, a);
    assert forall c :: c !in s.ran;
  }

  lemma FireListHas(v: Val, typ: ResultType, k: Kind, n: nat)
    requires Fires(k, typ) && n < At(v, k).len
    ensures Slot(At(v, k).arr, n) in FireList(v, typ)
  {
    assert Slots(At(v, k))[n] == Slot(At(v, k).arr, n);
    assert Slots(At(v, k))[n] in Slots(At(v, k));
  }

  lemma SpawnTally(p: Pair, s: State, u: nat, t: Trace, seen: Option<nat>)
    requires Sound(s) && PairInv(p, s, t) && Outcome(s).Some? && Tally(p, s, t, seen)
    requires u < |s.setters| && s.setters[u].pc.Closed?
    ensures var s' := Step(s, Spawn(u));
            s'.cur == s.cur && s'.cur < |s'.vals| && s'.regs == s.regs && Tally(p, s', t, seen)
  {
    var s' := Step(s, Spawn(u));
    assert SetterOk(s, u);
    assert Todo(s') == FireList(s.vals[s.cur], Outcome(s).value.typ);
    if Fired(p, s) && t.winner.Some? {
      var now := At(s.vals[s.cur], p.k);
      NowHeld(p, s, t);
      HeldLength(p, s, t);
      FireListHas(s.vals[s.cur], Outcome(s).value.typ, p.k, p.base.len);
      if IsStored(s, Other(p, t.winner.value)) {
        FireListHas(s.vals[s.cur], Outcome(s).value.typ, p.k, p.base.len + 1);
      }
    }
  }

  lemma CallEffect(s: State, x: nat)
    requires SingleInv(s) && x < |s.regs| && s.regs[x].pc.Calling?
    ensures Outcome(s).Some?
    ensures Step(s, RegCall(x))
            == s.(regs := s.regs[x := Reg(s.regs[x].kind, Called)], ran := s.ran + multiset{Call(x, Outcome(s).value)})
  {
    assert RegOk(s, x);
  }

  lemma CallTally(p: Pair, s: State, s': State, x: nat, t: Trace, seen: Option<nat>)
    requires PairInv(p, s, t) && Outcome(s).Some? && Tally(p, s, t, seen)
    requires x < |s.regs| && s.regs[x].pc.Calling?
    requires s' == s.(regs := s.regs[x := Reg(s.regs[x].kind, Called)],
                      ran := s.ran + multiset{Call(x, Outcome(s).value)})
    ensures Tally(p, s', t, seen)
  {
    if Fired(p, s) && t.winner.Some? {
      CallCounted(p, s, s', x, seen, t.winner.value, Other(p, t.winner.value));
    }
  }

  lemma CallCounted(p: Pair, s: State, s': State, x: nat, seen: Option<nat>, w: nat, o: nat)
    requires s.cur < |s.vals| && Outcome(s).Some? && o < |s.regs| && Counted(p, s, seen, w, o)
    requires x < |s.regs| && s.regs[x].pc.Calling? && x != w
    requires s' == s.(regs := s.regs[x := Reg(s.regs[x].kind, Called)],
                      ran := s.ran + multiset{Call(x, Outcome(s).value)})
    ensures Counted(p, s', seen, w, o)
  {
    assert Todo(s') == Todo(s) && Spawned(s') == Spawned(s);
    assert Ran(s', w) == Ran(s, w) && Ran(s', o) == Ran(s, o) + One(x == o);
  }

  /** The effect of a visit. */
  lemma VisitEffect(s: State, u: nat)
    requires Sound(s) && u < |s.setters| && s.setters[u].todo != []
    ensures var s' := Step(s, RunNext(u));
            && Outcome(s).Some? && Todo(s) == s.setters[u].todo && Todo(s') == Todo(s)[1..]
            && s'.cur == s.cur && s'.vals == s.vals && s'.regs == s.regs && Spawned(s) && Spawned(s')
            && s'.ran == match Cell(s.arrays, Todo(s)[0])
                         case None => s.ran
                         case Some(x) => s.ran + multiset{Call(x, Outcome(s).value)}
  {
    assert SetterOk(s, u);
  }

  lemma VisitTally(p: Pair, s: State, u: nat, t: Trace, seen: Option<nat>)
    requires Sound(s) && PairInv(p, s, t) && Tally(p, s, t, seen)
    requires Some(p.i) !in p.held && Some(p.j) !in p.held
    requires u < |s.setters| && s.setters[u].todo != []
    ensures var s' := Step(s, RunNext(u));
            && s'.cur == s.cur && s'.cur < |s'.vals| && s'.regs == s.regs
            && Tally(p, s', t, Look(p, s, RunNext(u), seen))
  {
    var s', slot := Step(s, RunNext(u)), s.setters[u].todo[0];
    VisitEffect(s, u);
    assert slot in Todo(s) && slot !in Todo(s)[1..];
    if Fired(p, s) {
      if t.winner.None? {
        OtherCell(p, s, t, slot, p.i);
        OtherCell(p, s, t, slot, p.j);
        assert slot != FirstSlot(p, s) by { NotPublished(p, s, t, slot); }
      } else {
        VisitCounted(p, s, s', slot, t, seen, t.winner.value);
      }
    }
  }

  lemma NotPublished(p: Pair, s: State, t: Trace, slot: Slot)
    requires Sound(s) && PairInv(p, s, t) && t.winner.None? && InSlices(s.vals[s.cur], slot)
    ensures slot != FirstSlot(p, s)
  {
    var l := InSlicesAt(s.vals[s.cur], slot);
    assert s.owner[At(s.vals[s.cur], l).arr] == l && s.owner[At(s.vals[s.cur], p.k).arr] == p.k;
    NowHeld(p, s, t);
  }

  lemma VisitCounted(p: Pair, s: State, s': State, slot: Slot, t: Trace, seen: Option<nat>, w: nat)
    requires Sound(s) && PairInv(p, s, t) && t.winner == Some(w) && Fired(p, s) && Spawned(s) && Spawned(s')
    requires Some(p.i) !in p.held && Some(p.j) !in p.held && Counted(p, s, seen, w, Other(p, w))
    requires Todo(s) != [] && slot == Todo(s)[0] && Todo(s') == Todo(s)[1..] && slot !in Todo(s)[1..]
    requires s'.cur == s.cur && s'.vals == s.vals && s'.regs == s.regs
    requires s'.ran == match Cell(s.arrays, slot)
                       case None => s.ran
                       case Some(x) => s.ran + multiset{Call(x, Outcome(s).value)}
    ensures Counted(p, s', if slot == FirstSlot(p, s) then Cell(s.arrays, slot) else seen, w, Other(p, w))
  {
    assert slot in Todo(s);
    assert forall z :: z in Todo(s) <==> z == slot || z in Todo(s)[1..];
    if slot == FirstSlot(p, s) {
      FirstCellFound(p, s, t);
    } else if slot == SecondSlot(p, s) {
      SecondCellFound(p, s, t);
    } else {
      OtherCell(p, s, t, slot, w);
      OtherCell(p, s, t, slot, Other(p, w));
    }
  }

  lemma ExitStep(p: Pair, s: State, a: Action, x: nat)
    requires SingleInv(s) && x < |s.regs| && s.regs[x].kind == p.k && ExitOk(p, s, x)
    ensures Step(s, a).cur < |Step(s, a).vals| && x < |Step(s, a).regs| && ExitOk(p, Step(s, a), x)
  {
    RecordsStep(s, a);
    assert RegOk(s, x);
  }

  lemma NoVisitBefore(p: Pair, s: State, a: Action)
    requires SingleInv(s) && Outcome(s).None?
    ensures !Visits(p, s, a)
  {
    if a.RunNext? && a.t < |s.setters| { assert SetterOk(s, a.t); }
  }

  lemma TallyStep(p: Pair, s: State, a: Action, t: Trace, seen: Option<nat>)
    requires CallInv(p, s, t, seen) && a != Register(p.k)
    requires var s', t' := Step(s, a), Observe(p, s, a, t);
             Sound(s') && PairInv(p, s', t')
    ensures Tally(p, Step(s, a), Observe(p, s, a, t), Look(p, s, a, seen))
    ensures Outcome(Step(s, a)).None? ==> Look(p, s, a, seen).None?
  {
    var s', t' := Step(s, a), Observe(p, s, a, t);
    RecordsStep(s, a);
    if Outcome(s).None? {
      NoVisitBefore(p, s, a);
      if Publishes(s, a) { PublishTally(p, s, a, t); }
    } else {
      Decided(p, s, a, t);
      if a.Spawn? && a.t < |s.setters| && s.setters[a.t].pc.Closed? {
        SpawnTally(p, s, a.t, t, seen);
      } else if a.RunNext? && a.t < |s.setters| && s.setters[a.t].todo != [] {
        VisitTally(p, s, a.t, t, seen);
      } else if a.RegCall? && a.i < |s.regs| && s.regs[a.i].pc.Calling? {
        CallEffect(s, a.i);
        CallTally(p, s, s', a.i, t, seen);
      } else {
        PlainSame(p, s, a);
        SameTally(p, s, s', t, t', seen);
      }
    }
  }

  lemma CallStep(p: Pair, s: State, a: Action, t: Trace, seen: Option<nat>)
    requires CallInv(p, s, t, seen) && a != Register(p.k)
    ensures CallInv(p, Step(s, a), Observe(p, s, a, t), Look(p, s, a, seen))
  {
    SoundStep(s, a);
    PairStep(p, s, a, t);
    ExitStep(p, s, a, p.i);
    ExitStep(p, s, a, p.j);
    TallyStep(p, s, a, t, seen);
  }

  lemma {:induction false} CallRun(p: Pair, s: State, actions: seq<Action>, t: Trace, seen: Option<nat>)
    requires CallInv(p, s, t, seen) && Register(p.k) !in actions
    ensures CallInv(p, Run(s, actions), Watch(p, s, actions, t), Seen(p, s, actions, seen))
    decreases |actions|
  {
    if actions != [] {
      CallStep(p, s, actions[0], t, seen);
      CallRun(p, Step(s, actions[0]), actions[1..], Observe(p, s, actions[0], t), Look(p, s, actions[0], seen));
    }
  }

  lemma Uncalled(p: Pair, s: State)
    requires Started(p, s) && Sound(s)
    ensures CallInv(p, s, Trace(None, None), None)
  {
    StartedInv(p, s);
  }

  /** What a settled Future has called, of a pair that has returned and whose kind fires. */
  lemma SettledCalls(p: Pair, f: State, t: Trace, seen: Option<nat>)
    requires CallInv(p, f, t, seen) && Settled(f) && Fired(p, f)
    requires !InFlight(f.regs[p.i].pc) && !InFlight(f.regs[p.j].pc)
    ensures t.winner.None? ==> Ran(f, p.i) == 1 && Ran(f, p.j) == 1
    ensures t.winner.Some? ==>
              && seen.Some? && t.winner.value in [p.i, p.j] && seen.value in [p.i, p.j] && (p.full ==> seen == t.winner)
              && Ran(f, t.winner.value) == One(seen == t.winner)
              && Ran(f, Other(p, t.winner.value)) == 2 - One(seen == t.winner)
  {
    if t.winner.Some? {
      var w := t.winner.value;
      var o := Other(p, w);
      assert Counted(p, f, seen, w, o);
      assert IsStored(f, o) || IsCalled(f, o);
    }
  }

  /** In every interleaving of two overlapping registrations of one kind, of completers and of other
      registrations: once the Future has settled, both have returned and their kind fires, each of the two
      has run exactly once if and only if neither was stored, or the slice they started from was full, or the
      goroutine found the callback of the first to publish in the cell it published.  Otherwise that one has
      never run and the other has run twice. */
  lemma CallsExactly(p: Pair, s: State, actions: seq<Action>, f: State, t: Trace, seen: Option<nat>)
    requires Started(p, s) && Sound(s) && Register(p.k) !in actions && f == Run(s, actions)
    requires t == Watch(p, s, actions, Trace(None, None)) && seen == Seen(p, s, actions, None)
    requires Settled(f) && Fired(p, f) && p.i < |f.regs| && p.j < |f.regs|
    requires !InFlight(f.regs[p.i].pc) && !InFlight(f.regs[p.j].pc)
    ensures Ran(f, p.i) == 1 && Ran(f, p.j) == 1 <==> t.winner.None? || p.full || seen == t.winner
    ensures !(t.winner.None? || p.full || seen == t.winner) ==>
              && t.winner.value in [p.i, p.j]
              && Ran(f, t.winner.value) == 0 && Ran(f, Other(p, t.winner.value)) == 2
  {
    Uncalled(p, s);
    CallRun(p, s, actions, Trace(None, None), None);
    SettledCalls(p, f, t, seen);
  }

  // ---------------------------------------------------------------------------------------------
  // Runs on a new Future
  // ---------------------------------------------------------------------------------------------

  lemma Next(before: seq<Action>, s: State, a: Action, s': State) returns (actions: seq<Action>)
    requires Run(Init(), before) == s && Step(s, a) == s'
    ensures Run(Init(), actions) == s'
  {
    actions := before + [a];
    RunSnoc(Init(), before, a);
  }

  /** A completer publishes a success. */
  lemma ResultPublished(before: seq<Action>, f: State, res: Result, n: nat) returns (actions: seq<Action>, s: State)
    requires Run(Init(), before) == f && f.setters == [] && res.typ == Success
    requires f.cur < |f.vals| && f.vals[f.cur] == Dones(n)
    ensures Run(Init(), actions) == s
    ensures s == f.(vals := f.vals + [Dones(n).(r := Some(res))], cur := |f.vals|, lastWin := Some(0),
                    setters := [Setter(res, Won(f.cur), [])])
  {
    var s1 := f.(setters := [Setter(res, Looping, [])]);
    actions := Next(before, f, Complete(res), s1);
    var s2 := f.(setters := [Setter(res, Loaded(f.cur), [])]);
    actions := Next(actions, s1, SetLoad(0), s2);
    s := f.(vals := f.vals + [Dones(n).(r := Some(res))], cur := |f.vals|, lastWin := Some(0),
            setters := [Setter(res, Won(f.cur), [])]);
    actions := Next(actions, s2, SetCas(0), s);
  }

  /** It closes `final` and spawns the goroutine. */
  lemma GoroutineSpawned(before: seq<Action>, f: State, res: Result, v: nat, n: nat)
    returns (actions: seq<Action>, s: State)
    requires Run(Init(), before) == f && f.setters == [Setter(res, Won(v), [])] && f.closes == 0 && res.typ == Success
    requires v < |f.vals| && f.vals[v] == Dones(n)
    ensures Run(Init(), actions) == s
    ensures s == f.(closes := 1, setters := [Setter(res, Returned(true), FireList(Dones(n), Success))])
  {
    var s1 := f.(closes := 1, setters := [Setter(res, Closed(v), [])]);
    actions := Next(before, f, CloseFinal(0), s1);
    s := f.(closes := 1, setters := [Setter(res, Returned(true), FireList(Dones(n), Success))]);
    actions := Next(actions, s1, Spawn(0), s);
  }

  lemma Completed(before: seq<Action>, f: State, res: Result, n: nat) returns (actions: seq<Action>, s: State)
    requires Run(Init(), before) == f && f.setters == [] && f.closes == 0 && res.typ == Success
    requires f.cur < |f.vals| && f.vals[f.cur] == Dones(n)
    ensures Run(Init(), actions) == s
    ensures s == f.(vals := f.vals + [Dones(n).(r := Some(res))], cur := |f.vals|, closes := 1, lastWin := Some(0),
                    setters := [Setter(res, Returned(true), FireList(Dones(n), Success))])
  {
    actions, s := ResultPublished(before, f, res, n);
    actions, s := GoroutineSpawned(actions, s, res, f.cur, n);
  }

  /** The goroutine visits the two cells. */
  lemma Visited(before: seq<Action>, s: State, res: Result, a: nat, b: nat) returns (actions: seq<Action>)
    requires Run(Init(), before) == s && s.setters == [Setter(res, Returned(true), [Slot(0, 0), Slot(0, 1)])]
    requires |s.arrays| > 0 && |s.arrays[0]| >= 2 && s.arrays[0][0] == Some(a) && s.arrays[0][1] == Some(b)
    requires s.ran == multiset{}
    ensures Run(Init(), actions)
            == s.(setters := [Setter(res, Returned(true), [])], ran := multiset{Call(a, res), Call(b, res)})
  {
    var s1 := s.(setters := [Setter(res, Returned(true), [Slot(0, 1)])], ran := multiset{Call(a, res)});
    assert [Slot(0, 0), Slot(0, 1)][1..] == [Slot(0, 1)] && [Slot(0, 1)][1..] == [];
    actions := Next(before, s, RunNext(0), s1);
    var s2 := s.(setters := [Setter(res, Returned(true), [])], ran := multiset{Call(a, res), Call(b, res)});
    actions := Next(actions, s1, RunNext(0), s2);
  }

  /** What has run when a Future with two Done callbacks has settled with a success. */
  lemma PairRuns(before: seq<Action>, cells: seq<Option<nat>>, vals: seq<Val>, first: nat, second: nat, res: Result)
    returns (actions: seq<Action>)
    requires Pairs(before, cells, vals, first, second) && res.typ == Success
    ensures Settled(Run(Init(), actions)) && Run(Init(), actions).regs == [Reg(Done, Stored), Reg(Done, Stored)]
    ensures Run(Init(), actions).ran == multiset{Call(first, res), Call(second, res)}
  {
    var s;
    actions, s := Completed(before, Small(cells, vals, 3, [Stored, Stored]), res, 2);
    assert FireList(Dones(2), Success) == [Slot(0, 0), Slot(0, 1)];
    actions := Visited(actions, s, res, first, second);
  }

  /** Two callbacks are registered, the Future succeeds and settles: the first never runs, the second runs
      twice. */
  lemma NeverRuns(res: Result) returns (actions: seq<Action>)
    requires res.typ == Success
    ensures Settled(Run(Init(), actions)) && Run(Init(), actions).regs == [Reg(Done, Stored), Reg(Done, Stored)]
    ensures Run(Init(), actions).ran == multiset{Call(1, res), Call(1, res)}
  {
    var cells, vals;
    actions, cells, vals := LoserLast();
    actions := PairRuns(actions, cells, vals, 1, 1, res);
  }

  /** The first registration has published and run; the second still holds the first record. */
  lemma FirstHasRun(res: Result) returns (actions: seq<Action>, s: State)
    requires res.typ == Success
    ensures Run(Init(), actions) == s && s.regs == [Reg(Done, Stored), Reg(Done, FutureProtocol.Seen(0))]
    ensures s.vals == [Dones(0), Dones(1), Dones(1).(r := Some(res))] && s.cur == 2
    ensures |s.arrays| == 4 && |s.arrays[0]| == 8 && s.arrays[0][0] == Some(0)
    ensures s.setters == [Setter(res, Returned(true), [])] && s.lastWin == Some(0) && s.ran == multiset{Call(0, res)}
  {
    var seen0 := FutureProtocol.Seen(0);
    var cells := Blank(8)[0 := Some(0)];
    actions := BothLoaded();
    actions := DoAppend(actions, Blank(8), [Dones(0)], 0, [seen0, seen0], 0, 0);
    assert [seen0, seen0][0 := Prepared(0, 1)] == [Prepared(0, 1), seen0];
    actions := DoCas(actions, cells, [Dones(0)] + [Dones(1)], 0, [Prepared(0, 1), seen0], 0);
    assert [Prepared(0, 1), seen0][0 := Stored] == [Stored, seen0];
    var before;
    actions, before := Completed(actions, Small(cells, [Dones(0)] + [Dones(1)], 1, [Stored, seen0]), res, 1);
    assert FireList(Dones(1), Success) == [Slot(0, 0)] && [Slot(0, 0)][1..] == [];
    s := before.(setters := [Setter(res, Returned(true), [])], ran := multiset{Call(0, res)});
    actions := Next(actions, before, RunNext(0), s);
  }

  /** The second registration appends, loses its compare-and-swap and retries. */
  lemma LateAppend(before: seq<Action>, s: State) returns (actions: seq<Action>, f: State)
    requires Run(Init(), before) == s && s.regs == [Reg(Done, Stored), Reg(Done, FutureProtocol.Seen(0))]
    requires |s.vals| == 3 && s.vals[0] == Dones(0) && s.cur == 2 && |s.arrays| == 4 && |s.arrays[0]| == 8
    ensures Run(Init(), actions) == f
    ensures f == s.(arrays := s.arrays[0 := s.arrays[0][0 := Some(1)]], vals := s.vals + [Dones(1)],
                    regs := [Reg(Done, Stored), Reg(Done, Retry)])
  {
    var s1 := s.(arrays := s.arrays[0 := s.arrays[0][0 := Some(1)]], vals := s.vals + [Dones(1)],
                 regs := [Reg(Done, Stored), Reg(Done, Prepared(0, 3))]);
    actions := Next(before, s, RegAppend(1, 0), s1);
    f := s1.(regs := [Reg(Done, Stored), Reg(Done, Retry)]);
    actions := Next(actions, s1, RegCas(1), f);
  }

  /** It finds the result and calls its callback. */
  lemma LateCall(before: seq<Action>, s: State, res: Result) returns (actions: seq<Action>)
    requires Run(Init(), before) == s && s.regs == [Reg(Done, Stored), Reg(Done, Retry)] && res.typ == Success
    requires s.cur < |s.vals| && s.vals[s.cur].r == Some(res)
    ensures Run(Init(), actions)
            == s.(regs := [Reg(Done, Stored), Reg(Done, Called)], ran := s.ran + multiset{Call(1, res)})
  {
    var s1 := s.(regs := [Reg(Done, Stored), Reg(Done, Calling(res))]);
    actions := Next(before, s, RegLoad(1), s1);
    var s2 := s.(regs := [Reg(Done, Stored), Reg(Done, Called)], ran := s.ran + multiset{Call(1, res)});
    actions := Next(actions, s1, RegCall(1), s2);
  }

  /** An append that overwrites a cell the goroutine has visited already does no harm: both run once. */
  lemma OverwrittenLate(res: Result) returns (actions: seq<Action>)
    requires res.typ == Success
    ensures var f := Run(Init(), actions);
            && Settled(f) && f.regs == [Reg(Done, Stored), Reg(Done, Called)]
            && |f.arrays| == 4 && |f.arrays[0]| == 8 && f.arrays[0][0] == Some(1)
            && f.ran == multiset{Call(0, res), Call(1, res)}
  {
    var s;
    actions, s := FirstHasRun(res);
    actions, s := LateAppend(actions, s);
    actions := LateCall(actions, s, res);
  }
}
