/** The lock-free Future of the routine component as a step system.

    A Future is one atomic reference to an immutable record (`Val`).  Completers (Resolve, Reject, Cancel)
    and callback registrations copy the record, change the copy and publish it with a
    compare-and-swap, retrying when the reference moved.  Every load, append, compare-and-swap,
    close and callback call is one step; a schedule is any sequence of steps of any number of
    threads, and a step that is not possible in a state leaves it unchanged.

    Callback lists are Go slices: a header (backing array, length) over a shared array with spare
    capacity.  An append writes the array in place *before* the compare-and-swap. */
module FutureProtocol {
  import opened Options

  type Any = int

  datatype Kind = Done | Fail | Always | Cancel
  datatype ResultType = Success | Failure | Cancelled
  datatype Result = Result(value: Any, typ: ResultType)

  datatype Slice = Slice(arr: nat, len: nat)
  datatype Val = Val(dones: Slice, fails: Slice, always: Slice, cancels: Slice, r: Option<Result>)

  /** Control state of a call to setResult. */
  datatype SetPc = Looping | Loaded(v: nat) | Won(v: nat) | Closed(v: nat) | Returned(ok: bool)

  datatype Slot = Slot(arr: nat, idx: nat)

  /** A call to setResult with the goroutine it spawns; `todo` are the slots that goroutine still visits. */
  datatype Setter = Setter(res: Result, pc: SetPc, todo: seq<Slot>)

  /** Control state of a call to addCallback.  The last three are its exits. */
  datatype RegPc = Retry | Seen(v: nat) | Prepared(v: nat, copy: nat) | Calling(r: Result) | Stored | Called | Dropped

  datatype Reg = Reg(kind: Kind, pc: RegPc)
  datatype Call = Call(reg: nat, res: Result)

  /** `arrays` are the backing arrays (an array's length is its capacity), `vals` the records ever
      allocated and `cur` the published one.  `ran`, `lastWin` and `owner` record the callback calls
      made, the completer that last published a result and the kind each array was made for. */
  datatype State = State(
    arrays: seq<seq<Option<nat>>>,
    vals: seq<Val>,
    cur: nat,
    closes: nat,
    setters: seq<Setter>,
    regs: seq<Reg>,
    ran: multiset<Call>,
    lastWin: Option<nat>,
    owner: seq<Kind>)

  datatype Action =
    | Complete(res: Result)
    | SetLoad(t: nat)
    | SetCas(t: nat)
    | CloseFinal(t: nat)
    | Spawn(t: nat)
    | RunNext(t: nat)
    | Register(kind: Kind)
    | RegLoad(i: nat)
    | RegAppend(i: nat, grow: nat)
    | RegCas(i: nat)
    | RegCall(i: nat)

  function At(v: Val, k: Kind): Slice {
    match k
    case Done => v.dones
    case Fail => v.fails
    case Always => v.always
    case Cancel => v.cancels
  }

  function With(v: Val, k: Kind, s: Slice): Val {
    match k
    case Done => v.(dones := s)
    case Fail => v.(fails := s)
    case Always => v.(always := s)
    case Cancel => v.(cancels := s)
  }

  /** Which callback kinds a result triggers. */
  predicate Fires(k: Kind, typ: ResultType) {
    match k
    case Done => typ == Success
    case Fail => typ == Failure
    case Always => typ != Cancelled
    case Cancel => typ == Cancelled
  }

  function Slots(s: Slice): seq<Slot> {
    seq(s.len, (i: nat) => Slot(s.arr, i))
  }

  /** The slots execCallback visits, in its order. */
  function FireList(v: Val, typ: ResultType): seq<Slot> {
    match typ
    case Cancelled => Slots(v.cancels)
    case Success => Slots(v.dones) + Slots(v.always)
    case Failure => Slots(v.fails) + Slots(v.always)
  }

  function Blank(cap: nat): seq<Option<nat>> {
    seq(cap, _ => None)
  }

  /** NewPromise: four empty slices with capacities 8, 8, 4 and 2. */
  function Init(): State {
    State([Blank(8), Blank(8), Blank(4), Blank(2)],
          [Val(Slice(0, 0), Slice(1, 0), Slice(2, 0), Slice(3, 0), None)],
          0, 0, [], [], multiset{}, None, [Done, Fail, Always, Cancel])
  }

  /** Go's append of callback i: in place when there is spare capacity, else into a larger copy. */
  function Append(arrays: seq<seq<Option<nat>>>, s: Slice, i: nat, grow: nat): (seq<seq<Option<nat>>>, Slice)
    requires s.arr < |arrays| && s.len <= |arrays[s.arr]|
  {
    if s.len < |arrays[s.arr]| then
      (arrays[s.arr := arrays[s.arr][s.len := Some(i)]], Slice(s.arr, s.len + 1))
    else
      (arrays + [arrays[s.arr][..s.len] + [Some(i)] + Blank(grow)], Slice(|arrays|, s.len + 1))
  }

  function SetSetterPc(s: State, t: nat, pc: SetPc): State
    requires t < |s.setters|
  {
    s.(setters := s.setters[t := s.setters[t].(pc := pc)])
  }

  function SetRegPc(s: State, i: nat, pc: RegPc): State
    requires i < |s.regs|
  {
    s.(regs := s.regs[i := s.regs[i].(pc := pc)])
  }

  function Step(s: State, a: Action): State {
    match a
    case Complete(res) => s.(setters := s.setters + [Setter(res, Looping, [])])
    case SetLoad(t) =>
      if !(t < |s.setters| && s.setters[t].pc.Looping? && s.cur < |s.vals|) then s
      else if s.vals[s.cur].r.Some? then SetSetterPc(s, t, Returned(false))
      else SetSetterPc(s, t, Loaded(s.cur))
    case SetCas(t) =>
      if !(t < |s.setters| && s.setters[t].pc.Loaded? && s.setters[t].pc.v < |s.vals|) then s
      else if s.cur != s.setters[t].pc.v then SetSetterPc(s, t, Looping)
      else
        SetSetterPc(s, t, Won(s.cur)).(
          vals := s.vals + [s.vals[s.cur].(r := Some(s.setters[t].res))],
          cur := |s.vals|, lastWin := Some(t))
    case CloseFinal(t) =>
      if !(t < |s.setters| && s.setters[t].pc.Won?) then s
      else SetSetterPc(s, t, Closed(s.setters[t].pc.v)).(closes := s.closes + 1)
    case Spawn(t) =>
      if !(t < |s.setters| && s.setters[t].pc.Closed? && s.setters[t].pc.v < |s.vals|) then s
      else
        var w := s.setters[t];
        s.(setters := s.setters[t := Setter(w.res, Returned(true), FireList(s.vals[w.pc.v], w.res.typ))])
    case RunNext(t) =>
      if !(t < |s.setters| && s.setters[t].todo != []) then s
      else
        var w := s.setters[t];
        var slot := w.todo[0];
        var s' := s.(setters := s.setters[t := w.(todo := w.todo[1..])]);
        if slot.arr < |s.arrays| && slot.idx < |s.arrays[slot.arr]| && s.arrays[slot.arr][slot.idx].Some?
        then s'.(ran := s.ran + multiset{Call(s.arrays[slot.arr][slot.idx].value, w.res)})
        else s'
    case Register(kind) => s.(regs := s.regs + [Reg(kind, Retry)])
    case RegLoad(i) =>
      if !(i < |s.regs| && s.regs[i].pc.Retry? && s.cur < |s.vals|) then s
      else
        var r := s.vals[s.cur].r;
        SetRegPc(s, i,
                 if r.None? then Seen(s.cur)
                 else if Fires(s.regs[i].kind, r.value.typ) then Calling(r.value) else Dropped)
    case RegAppend(i, grow) =>
      if !(i < |s.regs| && s.regs[i].pc.Seen? && s.regs[i].pc.v < |s.vals|) then s
      else
        var v := s.regs[i].pc.v;
        var sl := At(s.vals[v], s.regs[i].kind);
        if !(sl.arr < |s.arrays| && sl.len <= |s.arrays[sl.arr]|) then s
        else
          var (arrays', slice) := Append(s.arrays, sl, i, grow);
          SetRegPc(s, i, Prepared(v, |s.vals|)).(
            arrays := arrays', vals := s.vals + [With(s.vals[v], s.regs[i].kind, slice)],
            owner := if |arrays'| == |s.arrays| then s.owner else s.owner + [s.regs[i].kind])
    case RegCas(i) =>
      if !(i < |s.regs| && s.regs[i].pc.Prepared?) then s
      else if s.cur != s.regs[i].pc.v then SetRegPc(s, i, Retry)
      else SetRegPc(s, i, Stored).(cur := s.regs[i].pc.copy)
    case RegCall(i) =>
      if !(i < |s.regs| && s.regs[i].pc.Calling?) then s
      else SetRegPc(s, i, Called).(ran := s.ran + multiset{Call(i, s.regs[i].pc.r)})
  }

  function Run(s: State, actions: seq<Action>): State
    decreases |actions|
  {
    if actions == [] then s else Run(Step(s, actions[0]), actions[1..])
  }

  // ---------------------------------------------------------------------------------------------
  // Single assignment: every schedule
  // ---------------------------------------------------------------------------------------------

  predicate SameSlices(a: Val, b: Val) {
    a == b.(r := a.r)
  }

  predicate Winning(pc: SetPc) {
    pc.Won? || pc.Closed? || pc == Returned(true)
  }

  ghost predicate SetterOk(s: State, t: nat)
    requires t < |s.setters| && s.cur < |s.vals|
  {
    var w := s.setters[t];
    && (w.pc.Loaded? ==> w.pc.v < |s.vals| && s.vals[w.pc.v].r.None?)
    && (w.pc.Won? || w.pc.Closed? ==> w.pc.v < |s.vals| && SameSlices(s.vals[w.pc.v], s.vals[s.cur]))
    && (w.pc == Returned(false) ==> s.vals[s.cur].r.Some?)
    && (Winning(w.pc) ==> s.lastWin == Some(t))
    && (w.todo != [] ==> w.pc == Returned(true))
  }

  ghost predicate RegOk(s: State, i: nat)
    requires i < |s.regs| && s.cur < |s.vals|
  {
    var pc := s.regs[i].pc;
    && (pc.Seen? ==> pc.v < |s.vals| && s.vals[pc.v].r.None?)
    && (pc.Prepared? ==> pc.v < |s.vals| && pc.copy < |s.vals| && s.vals[pc.v].r.None? && s.vals[pc.copy].r.None?)
    && (pc.Calling? ==> s.vals[s.cur].r == Some(pc.r))
  }

  /** What every step of every schedule keeps. */
  ghost predicate SingleInv(s: State) {
    && s.cur < |s.vals|
    && (forall t :: 0 <= t < |s.setters| ==> SetterOk(s, t))
    && (forall i :: 0 <= i < |s.regs| ==> RegOk(s, i))
    && (s.vals[s.cur].r.Some? <==> s.lastWin.Some?)
    && (s.lastWin.Some? ==>
          && s.lastWin.value < |s.setters|
          && Winning(s.setters[s.lastWin.value].pc)
          && s.vals[s.cur].r == Some(s.setters[s.lastWin.value].res))
    && s.closes == (if s.lastWin.Some? && !s.setters[s.lastWin.value].pc.Won? then 1 else 0)
  }

  function Outcome(s: State): Option<Result>
    requires s.cur < |s.vals|
  {
    s.vals[s.cur].r
  }

  /** The completer whose compare-and-swap publishes in this step. */
  predicate Publishes(s: State, a: Action) {
    && a.SetCas? && a.t < |s.setters| && s.setters[a.t].pc.Loaded?
    && s.setters[a.t].pc.v < |s.vals| && s.cur == s.setters[a.t].pc.v
  }

  /** Records are immutable, and a published result stays the published record. */
  lemma RecordsStep(s: State, a: Action)
    requires SingleInv(s)
    ensures |s.vals| <= |Step(s, a).vals| && forall v :: 0 <= v < |s.vals| ==> Step(s, a).vals[v] == s.vals[v]
    ensures Step(s, a).cur < |Step(s, a).vals|
    ensures Outcome(s).Some? ==> Step(s, a).cur == s.cur && !Publishes(s, a)
    ensures !Publishes(s, a) ==> Step(s, a).lastWin == s.lastWin && Outcome(Step(s, a)) == Outcome(s)
    ensures Publishes(s, a) ==> Outcome(Step(s, a)) == Some(s.setters[a.t].res) && Step(s, a).lastWin == Some(a.t)
  {
    assert a.SetCas? && a.t < |s.setters| ==> SetterOk(s, a.t);
    assert a.RegCas? && a.i < |s.regs| ==> RegOk(s, a.i);
  }

  predicate Acts(a: Action, t: nat) {
    (a.SetLoad? || a.SetCas? || a.CloseFinal? || a.Spawn? || a.RunNext?) && a.t == t
  }

  lemma ActingSetter(s: State, a: Action)
    requires SingleInv(s)
    requires a.SetLoad? || a.SetCas? || a.CloseFinal? || a.Spawn? || a.RunNext?
    requires a.t < |s.setters|
    ensures a.t < |Step(s, a).setters| && Step(s, a).cur < |Step(s, a).vals| && SetterOk(Step(s, a), a.t)
  {
    assert SetterOk(s, a.t);
  }

  lemma SetterStep(s: State, a: Action, t: nat)
    requires SingleInv(s) && t < |Step(s, a).setters| && Step(s, a).cur < |Step(s, a).vals|
    ensures SetterOk(Step(s, a), t)
  {
    RecordsStep(s, a);
    if t < |s.setters| {
      assert SetterOk(s, t);
      if Acts(a, t) {
        ActingSetter(s, a);
      } else {
        assert Step(s, a).setters[t] == s.setters[t];
      }
    }
  }

  lemma RegOkFrame(s: State, s': State, i: nat)
    requires s.cur < |s.vals| && s'.cur < |s'.vals| && i < |s.regs| && i < |s'.regs| && RegOk(s, i)
    requires s'.regs[i] == s.regs[i] && (Outcome(s).Some? ==> Outcome(s') == Outcome(s))
    requires |s.vals| <= |s'.vals| && forall v :: 0 <= v < |s.vals| ==> s'.vals[v] == s.vals[v]
    ensures RegOk(s', i)
  {
  }

  predicate ActsReg(a: Action, i: nat) {
    (a.RegLoad? || a.RegAppend? || a.RegCas? || a.RegCall?) && a.i == i
  }

  lemma ActingReg(s: State, a: Action)
    requires SingleInv(s) && (a.RegLoad? || a.RegAppend? || a.RegCas? || a.RegCall?) && a.i < |s.regs|
    ensures a.i < |Step(s, a).regs| && Step(s, a).cur < |Step(s, a).vals| && RegOk(Step(s, a), a.i)
  {
    assert RegOk(s, a.i);
  }

  lemma RegStep(s: State, a: Action, i: nat)
    requires SingleInv(s) && i < |Step(s, a).regs| && Step(s, a).cur < |Step(s, a).vals|
    ensures RegOk(Step(s, a), i)
  {
    if i < |s.regs| {
      if ActsReg(a, i) {
        ActingReg(s, a);
      } else {
        RecordsStep(s, a);
        RegOkFrame(s, Step(s, a), i);
      }
    }
  }

  lemma ClosesStep(s: State, a: Action)
    requires SingleInv(s)
    ensures var s' := Step(s, a);
            && s'.cur < |s'.vals|
            && (s'.lastWin.Some? ==>
                  && s'.lastWin.value < |s'.setters|
                  && Winning(s'.setters[s'.lastWin.value].pc)
                  && s'.vals[s'.cur].r == Some(s'.setters[s'.lastWin.value].res))
            && s'.closes == (if s'.lastWin.Some? && !s'.setters[s'.lastWin.value].pc.Won? then 1 else 0)
  {
    RecordsStep(s, a);
    assert (a.CloseFinal? || a.Spawn? || a.SetCas?) && a.t < |s.setters| ==> SetterOk(s, a.t);
  }

  lemma SingleStep(s: State, a: Action)
    requires SingleInv(s)
    ensures SingleInv(Step(s, a))
    ensures Outcome(s).Some? ==> Outcome(Step(s, a)) == Outcome(s) && Step(s, a).lastWin == s.lastWin
    ensures s.closes <= Step(s, a).closes
  {
    var s' := Step(s, a);
    RecordsStep(s, a);
    ClosesStep(s, a);
    forall t | 0 <= t < |s'.setters| ensures SetterOk(s', t) { SetterStep(s, a, t); }
    forall i | 0 <= i < |s'.regs| ensures RegOk(s', i) { RegStep(s, a, i); }
  }

  lemma {:induction false} SingleRun(s: State, actions: seq<Action>)
    requires SingleInv(s)
    ensures SingleInv(Run(s, actions))
    ensures Outcome(s).Some? ==>
              Outcome(Run(s, actions)) == Outcome(s) && Run(s, actions).lastWin == s.lastWin
    ensures s.closes <= Run(s, actions).closes
    decreases |actions|
  {
    if actions != [] {
      SingleStep(s, actions[0]);
      SingleRun(Step(s, actions[0]), actions[1..]);
    }
  }

  lemma InitSingle()
    ensures SingleInv(Init())
  {
  }

  /** In every schedule the result is assigned at most once and never changes, `final` is closed at
      most once and only after the result is there (so Get reads a result), at most one of the
      competing completers returns no error, and when all have returned exactly one has. */
  lemma SingleAssignment(before: seq<Action>, after: seq<Action>)
    ensures var s, s' := Run(Init(), before), Run(Run(Init(), before), after);
            && s.cur < |s.vals| && s'.cur < |s'.vals|
            && (Outcome(s).Some? ==> Outcome(s') == Outcome(s))
            && s.closes <= s'.closes <= 1
            && (s.closes == 1 ==> Outcome(s).Some?)
            && (forall t, u | 0 <= t < |s.setters| && 0 <= u < |s.setters| ::
                  s.setters[t].pc == Returned(true) && s.setters[u].pc == Returned(true) ==> t == u)
            && (forall t :: 0 <= t < |s.setters| && s.setters[t].pc == Returned(true) ==>
                  s.closes == 1 && Outcome(s) == Some(s.setters[t].res))
            && (|s.setters| > 0 && (forall t :: 0 <= t < |s.setters| ==> s.setters[t].pc.Returned?) ==>
                  exists t :: 0 <= t < |s.setters| && s.setters[t].pc == Returned(true))
  {
    var s := Run(Init(), before);
    InitSingle();
    SingleRun(Init(), before);
    SingleRun(s, after);
    forall t | 0 <= t < |s.setters| && s.setters[t].pc == Returned(true) ensures s.lastWin == Some(t) {
      assert SetterOk(s, t);
    }
    if |s.setters| > 0 && forall t :: 0 <= t < |s.setters| ==> s.setters[t].pc.Returned? {
      assert SetterOk(s, 0);
      assert s.setters[s.lastWin.value].pc == Returned(true);
    }
  }

  // ---------------------------------------------------------------------------------------------
  // Backing arrays belong to one kind: every schedule
  // ---------------------------------------------------------------------------------------------

  /** Every record's slice of a kind lies in an array of that kind. */
  ghost predicate Homes(s: State) {
    && |s.owner| == |s.arrays|
    && (forall v, k :: 0 <= v < |s.vals| ==>
          && At(s.vals[v], k).arr < |s.arrays| && s.owner[At(s.vals[v], k).arr] == k
          && At(s.vals[v], k).len <= |s.arrays[At(s.vals[v], k).arr]|)
  }

  /** A prepared copy differs from the record it was made from only in the slice of its kind. */
  ghost predicate CopyOk(s: State, i: nat)
    requires i < |s.regs|
  {
    var k, pc := s.regs[i].kind, s.regs[i].pc;
    pc.Prepared? ==>
      && pc.v < |s.vals| && pc.copy < |s.vals|
      && forall l :: l != k ==> At(s.vals[pc.copy], l) == At(s.vals[pc.v], l)
  }

  ghost predicate Owned(s: State) {
    Homes(s) && forall i :: 0 <= i < |s.regs| ==> CopyOk(s, i)
  }

  lemma AtWith(v: Val, k: Kind, sl: Slice, j: Kind)
    ensures At(With(v, k, sl), j) == if j == k then sl else At(v, j)
  {
  }

  /** The effect of an append step. */
  lemma AppendEffect(s: State, i: nat, grow: nat)
    requires Homes(s) && i < |s.regs| && s.regs[i].pc.Seen? && s.regs[i].pc.v < |s.vals|
    ensures var s', k, v := Step(s, RegAppend(i, grow)), s.regs[i].kind, s.regs[i].pc.v;
            var sl := At(s.vals[v], k);
            var (arrays', slice) := Append(s.arrays, sl, i, grow);
            && s' == s.(arrays := arrays', vals := s.vals + [With(s.vals[v], k, slice)],
                        regs := s.regs[i := Reg(k, Prepared(v, |s.vals|))], owner := s'.owner)
            && s.owner <= s'.owner && |s'.owner| == |arrays'| && s'.owner[slice.arr] == k
  {
  }

  lemma AppendHomes(s: State, i: nat, grow: nat)
    requires Homes(s) && i < |s.regs| && s.regs[i].pc.Seen? && s.regs[i].pc.v < |s.vals|
    ensures Homes(Step(s, RegAppend(i, grow)))
  {
    var s', k, v := Step(s, RegAppend(i, grow)), s.regs[i].kind, s.regs[i].pc.v;
    var (arrays', slice) := Append(s.arrays, At(s.vals[v], k), i, grow);
    AppendEffect(s, i, grow);
    forall w, l | 0 <= w < |s'.vals|
      ensures At(s'.vals[w], l).arr < |s'.arrays| && s'.owner[At(s'.vals[w], l).arr] == l
      ensures At(s'.vals[w], l).len <= |s'.arrays[At(s'.vals[w], l).arr]|
    {
      if w == |s.vals| { AtWith(s.vals[v], k, slice, l); }
    }
  }

  lemma AppendCopy(s: State, i: nat, grow: nat)
    requires Owned(s) && i < |s.regs| && s.regs[i].pc.Seen? && s.regs[i].pc.v < |s.vals|
    ensures forall j :: 0 <= j < |Step(s, RegAppend(i, grow)).regs| ==> CopyOk(Step(s, RegAppend(i, grow)), j)
  {
    var s', k, v := Step(s, RegAppend(i, grow)), s.regs[i].kind, s.regs[i].pc.v;
    var (arrays', slice) := Append(s.arrays, At(s.vals[v], k), i, grow);
    AppendEffect(s, i, grow);
    forall j | 0 <= j < |s'.regs| ensures CopyOk(s', j) {
      assert CopyOk(s, j);
      forall l ensures At(s'.vals[|s.vals|], l) == if l == k then slice else At(s.vals[v], l) {
        AtWith(s.vals[v], k, slice, l);
      }
    }
  }

  lemma CopyFrame(s: State, s': State, i: nat)
    requires i < |s.regs| && i < |s'.regs| && CopyOk(s, i) && s'.regs[i].kind == s.regs[i].kind
    requires s'.regs[i].pc.Prepared? ==> s'.regs[i].pc == s.regs[i].pc
    requires |s.vals| <= |s'.vals| && forall v :: 0 <= v < |s.vals| ==> s'.vals[v] == s.vals[v]
    ensures CopyOk(s', i)
  {
  }

  /** Any other step leaves the arrays alone, and a new record has the slices of the published one. */
  lemma OtherEffect(s: State, a: Action)
    requires SingleInv(s) && !a.RegAppend?
    ensures var s' := Step(s, a);
            && s'.arrays == s.arrays && s'.owner == s.owner
            && (s'.vals == s.vals || exists r :: s'.vals == s.vals + [s.vals[s.cur].(r := r)])
  {
    if a.SetCas? && a.t < |s.setters| { assert SetterOk(s, a.t); }
  }

  lemma HomesFrame(s: State, s': State)
    requires Homes(s) && s.cur < |s.vals| && s'.arrays == s.arrays && s'.owner == s.owner
    requires s'.vals == s.vals || exists r :: s'.vals == s.vals + [s.vals[s.cur].(r := r)]
    ensures Homes(s')
  {
    forall v, k | 0 <= v < |s'.vals| ensures At(s'.vals[v], k) == At(s.vals[if v < |s.vals| then v else s.cur], k) {}
  }

  lemma CopiesStep(s: State, a: Action, i: nat)
    requires SingleInv(s) && Owned(s) && !a.RegAppend? && i < |Step(s, a).regs|
    ensures CopyOk(Step(s, a), i)
  {
    RecordsStep(s, a);
    if i < |s.regs| {
      assert CopyOk(s, i);
      CopyFrame(s, Step(s, a), i);
    }
  }

  lemma OwnedStep(s: State, a: Action)
    requires SingleInv(s) && Owned(s)
    ensures Owned(Step(s, a))
  {
    if !a.RegAppend? {
      OtherEffect(s, a);
      HomesFrame(s, Step(s, a));
      forall i | 0 <= i < |Step(s, a).regs| ensures CopyOk(Step(s, a), i) { CopiesStep(s, a, i); }
    } else if a.i < |s.regs| && s.regs[a.i].pc.Seen? && s.regs[a.i].pc.v < |s.vals| {
      AppendHomes(s, a.i, a.grow);
      AppendCopy(s, a.i, a.grow);
    }
  }

  lemma {:induction false} OwnedRun(s: State, actions: seq<Action>)
    requires SingleInv(s) && Owned(s)
    ensures SingleInv(Run(s, actions)) && Owned(Run(s, actions))
    decreases |actions|
  {
    if actions != [] {
      SingleStep(s, actions[0]);
      OwnedStep(s, actions[0]);
      OwnedRun(Step(s, actions[0]), actions[1..]);
    }
  }

  lemma InitOwned()
    ensures Owned(Init())
  {
    forall k: Kind ensures At(Init().vals[0], k).len == 0 {}
  }

  // ---------------------------------------------------------------------------------------------
  // Exactly once: every schedule in which registrations of one kind do not overlap
  // ---------------------------------------------------------------------------------------------

  predicate InFlight(pc: RegPc) {
    pc.Retry? || pc.Seen? || pc.Prepared? || pc.Calling?
  }

  predicate NoneInFlight(s: State, kind: Kind) {
    forall i :: 0 <= i < |s.regs| && s.regs[i].kind == kind ==> !InFlight(s.regs[i].pc)
  }

  /** A registration starts only when no other one of its kind is between its start and its exit. */
  predicate Exclusive(s: State, actions: seq<Action>)
    decreases |actions|
  {
    actions == [] ||
    ((actions[0].Register? ==> NoneInFlight(s, actions[0].kind)) && Exclusive(Step(s, actions[0]), actions[1..]))
  }

  function Cell(arrays: seq<seq<Option<nat>>>, slot: Slot): Option<nat> {
    if slot.arr < |arrays| && slot.idx < |arrays[slot.arr]| then arrays[slot.arr][slot.idx] else None
  }

  function Read(arrays: seq<seq<Option<nat>>>, slots: seq<Slot>): (cells: seq<Option<nat>>)
    ensures |cells| == |slots| && forall j :: 0 <= j < |slots| ==> cells[j] == Cell(arrays, slots[j])
  {
    seq(|slots|, j requires 0 <= j < |slots| => Cell(arrays, slots[j]))
  }

  predicate SlicesOk(s: State) {
    && s.cur < |s.vals|
    && (forall k: Kind :: At(s.vals[s.cur], k).arr < |s.arrays|
                       && At(s.vals[s.cur], k).len <= |s.arrays[At(s.vals[s.cur], k).arr]|)
    && (forall k: Kind, j: Kind :: k != j ==> At(s.vals[s.cur], k).arr != At(s.vals[s.cur], j).arr)
  }

  /** The callbacks of kind k in the published record. */
  function Contents(s: State, k: Kind): seq<Option<nat>>
    requires SlicesOk(s)
  {
    s.arrays[At(s.vals[s.cur], k).arr][..At(s.vals[s.cur], k).len]
  }

  function One(b: bool): nat { if b then 1 else 0 }

  ghost predicate StoredOk(s: State)
    requires SlicesOk(s)
  {
    && (forall k :: None !in Contents(s, k))
    && (forall k, i: nat :: multiset(Contents(s, k))[Some(i)] == One(i < |s.regs| && s.regs[i] == Reg(k, Stored)))
  }

  /** What a registration of kind k has seen and prepared is still good for the published slice of k. */
  ghost predicate RegOnce(s: State, i: nat)
    requires SlicesOk(s) && SingleInv(s) && Homes(s) && i < |s.regs|
  {
    var k, pc := s.regs[i].kind, s.regs[i].pc;
    assert RegOk(s, i);
    && (pc.Seen? || pc.Prepared? ==> At(s.vals[pc.v], k) == At(s.vals[s.cur], k))
    && (pc.Prepared? ==> Held(s, At(s.vals[pc.copy], k)) == Contents(s, k) + [Some(i)])
    && (pc.Calling? ==> Fires(k, pc.r.typ))
    && (pc.Called? ==> Outcome(s).Some? && Fires(k, Outcome(s).value.typ))
    && (pc.Dropped? ==> Outcome(s).Some? && !Fires(k, Outcome(s).value.typ))
  }

  function Held(s: State, sl: Slice): seq<Option<nat>>
    requires sl.arr < |s.arrays| && sl.len <= |s.arrays[sl.arr]|
  {
    s.arrays[sl.arr][..sl.len]
  }

  function Todo(s: State): seq<Slot> {
    if s.lastWin.Some? && s.lastWin.value < |s.setters| then s.setters[s.lastWin.value].todo else []
  }

  predicate Spawned(s: State) {
    s.lastWin.Some? && s.lastWin.value < |s.setters| && s.setters[s.lastWin.value].pc == Returned(true)
  }

  predicate InSlices(v: Val, slot: Slot) {
    || (slot.arr == v.dones.arr && slot.idx < v.dones.len)
    || (slot.arr == v.fails.arr && slot.idx < v.fails.len)
    || (slot.arr == v.always.arr && slot.idx < v.always.len)
    || (slot.arr == v.cancels.arr && slot.idx < v.cancels.len)
  }

  /** How often callback i must have been called, or still be about to be called by the goroutine. */
  function Due(s: State, i: nat, typ: ResultType): nat {
    One(i < |s.regs| && s.regs[i].pc.Called?) +
    One(i < |s.regs| && s.regs[i].pc.Stored? && Spawned(s) && Fires(s.regs[i].kind, typ))
  }

  ghost predicate RanOk(s: State)
    requires s.cur < |s.vals|
  {
    && (Outcome(s).None? ==> s.ran == multiset{})
    && (forall c :: c in s.ran ==> Outcome(s) == Some(c.res))
    && (forall slot :: slot in Todo(s) ==> InSlices(s.vals[s.cur], slot))
    && (Outcome(s).Some? ==>
          forall i: nat ::
            s.ran[Call(i, Outcome(s).value)] + multiset(Read(s.arrays, Todo(s)))[Some(i)]
            == Due(s, i, Outcome(s).value.typ))
  }

  ghost predicate OnceInv(s: State) {
    && SingleInv(s)
    && Owned(s)
    && SlicesOk(s)
    && StoredOk(s)
    && (forall i :: 0 <= i < |s.regs| ==> RegOnce(s, i))
    && OnePerKind(s)
    && RanOk(s)
  }

  predicate OnePerKind(s: State) {
    forall i, j | 0 <= i < |s.regs| && 0 <= j < |s.regs| ::
      InFlight(s.regs[i].pc) && InFlight(s.regs[j].pc) && s.regs[i].kind == s.regs[j].kind ==> i == j
  }

  lemma OwnedSlices(s: State)
    requires Homes(s) && s.cur < |s.vals|
    ensures SlicesOk(s)
  {
  }

  /** From s to s' the records stay, and so do the published slice and the arrays of kind k. */
  ghost predicate SameKind(s: State, s': State, k: Kind)
    requires Homes(s) && s.cur < |s.vals| && s'.cur < |s'.vals|
  {
    && |s.vals| <= |s'.vals| && (forall v :: 0 <= v < |s.vals| ==> s'.vals[v] == s.vals[v])
    && |s.arrays| <= |s'.arrays|
    && At(s'.vals[s'.cur], k) == At(s.vals[s.cur], k)
    && (forall a :: 0 <= a < |s.arrays| && s.owner[a] == k ==> s'.arrays[a] == s.arrays[a])
  }

  lemma RegOnceFrame(s: State, s': State, i: nat)
    requires SingleInv(s) && SingleInv(s') && SlicesOk(s) && SlicesOk(s') && Homes(s) && Homes(s')
    requires i < |s.regs| && i < |s'.regs| && s'.regs[i] == s.regs[i]
    requires SameKind(s, s', s.regs[i].kind)
    requires Outcome(s).Some? ==> Outcome(s') == Outcome(s)
    requires RegOnce(s, i)
    ensures RegOnce(s', i)
  {
    assert RegOk(s, i) && RegOk(s', i);
    var k, pc := s.regs[i].kind, s.regs[i].pc;
    assert s.owner[At(s.vals[s.cur], k).arr] == k;
    if pc.Prepared? { assert s.owner[At(s.vals[pc.copy], k).arr] == k; }
  }

  // Steps that neither touch a backing array nor move a registration.

  /** s' differs from s at most in completers' progress and in having a result. */
  ghost predicate Quiet(s: State, s': State)
    requires s.cur < |s.vals| && s'.cur < |s'.vals|
  {
    && s'.arrays == s.arrays && s'.regs == s.regs && s'.ran == s.ran
    && |s.vals| <= |s'.vals| && (forall v :: 0 <= v < |s.vals| ==> s'.vals[v] == s.vals[v])
    && SameSlices(s'.vals[s'.cur], s.vals[s.cur])
    && (Outcome(s).Some? ==> Outcome(s') == Outcome(s))
    && Todo(s') == Todo(s) && Spawned(s') == Spawned(s)
    && (Outcome(s).None? ==> !Spawned(s) && Todo(s) == [])
  }

  lemma QuietAction(s: State, a: Action)
    requires SingleInv(s) && SingleInv(Step(s, a)) && (a.Complete? || a.SetLoad? || a.SetCas? || a.CloseFinal?)
    ensures Quiet(s, Step(s, a))
  {
    RecordsStep(s, a);
    if !a.Complete? && a.t < |s.setters| { assert SetterOk(s, a.t); }
    if s.lastWin.Some? { assert SetterOk(s, s.lastWin.value); }
  }

  lemma QuietRan(s: State, s': State)
    requires OnceInv(s) && SingleInv(s') && Quiet(s, s')
    ensures RanOk(s')
  {
    if Outcome(s).None? && Outcome(s').Some? {
      forall i: nat ensures Due(s', i, Outcome(s').value.typ) == 0 {
        if i < |s.regs| { assert RegOnce(s, i); }
      }
    }
  }

  lemma QuietKeeps(s: State, s': State)
    requires OnceInv(s) && SingleInv(s') && Owned(s') && Quiet(s, s')
    ensures OnceInv(s')
  {
    OwnedSlices(s');
    assert forall k: Kind :: At(s'.vals[s'.cur], k) == At(s.vals[s.cur], k);
    forall k ensures Contents(s', k) == Contents(s, k) {}
    forall i | 0 <= i < |s'.regs| ensures RegOnce(s', i) {
      assert RegOnce(s, i);
      RegOnceFrame(s, s', i);
    }
    QuietRan(s, s');
  }

  // The goroutine that runs the stored callbacks.

  lemma ReadSlots(s: State, k: Kind)
    requires SlicesOk(s)
    ensures Read(s.arrays, Slots(At(s.vals[s.cur], k))) == Contents(s, k)
  {
  }

  lemma ReadConcat(arrays: seq<seq<Option<nat>>>, a: seq<Slot>, b: seq<Slot>)
    ensures Read(arrays, a + b) == Read(arrays, a) + Read(arrays, b)
  {
  }

  lemma KindCount(s: State, k: Kind, i: nat)
    requires SlicesOk(s) && StoredOk(s)
    ensures multiset(Read(s.arrays, Slots(At(s.vals[s.cur], k))))[Some(i)]
            == One(i < |s.regs| && s.regs[i] == Reg(k, Stored))
  {
    ReadSlots(s, k);
    assert multiset(Contents(s, k))[Some(i)] == One(i < |s.regs| && s.regs[i] == Reg(k, Stored));
  }

  /** execCallback visits every stored callback whose kind fires once, and no other. */
  lemma FireListCounts(s: State, typ: ResultType, i: nat)
    requires SlicesOk(s) && StoredOk(s)
    ensures multiset(Read(s.arrays, FireList(s.vals[s.cur], typ)))[Some(i)]
            == One(i < |s.regs| && s.regs[i].pc.Stored? && Fires(s.regs[i].kind, typ))
  {
    var first := match typ case Success => Done case Failure => Fail case Cancelled => Cancel;
    KindCount(s, first, i);
    if typ != Cancelled {
      KindCount(s, Always, i);
      ReadConcat(s.arrays, Slots(At(s.vals[s.cur], first)), Slots(s.vals[s.cur].always));
    }
  }

  lemma FireListInSlices(v: Val, typ: ResultType)
    ensures forall slot :: slot in FireList(v, typ) ==> InSlices(v, slot)
  {
  }

  /** OnceInv of a state with the same records, arrays and registrations. */
  lemma StoreFrame(s: State, s': State)
    requires OnceInv(s) && SingleInv(s') && Owned(s') && RanOk(s')
    requires s'.arrays == s.arrays && s'.vals == s.vals && s'.cur == s.cur && s'.regs == s.regs
    ensures OnceInv(s')
  {
    forall k ensures Contents(s', k) == Contents(s, k) {}
    forall i | 0 <= i < |s'.regs| ensures RegOnce(s', i) {
      assert RegOnce(s, i);
      RegOnceFrame(s, s', i);
    }
  }

  lemma SpawnRan(s: State, t: nat)
    requires SingleInv(s) && SlicesOk(s) && StoredOk(s) && RanOk(s)
    requires t < |s.setters| && s.setters[t].pc.Closed? && s.setters[t].pc.v < |s.vals|
    ensures RanOk(Step(s, Spawn(t)))
  {
    var s', w := Step(s, Spawn(t)), s.setters[t];
    assert SetterOk(s, t);
    var typ := w.res.typ;
    assert FireList(s.vals[w.pc.v], typ) == FireList(s.vals[s.cur], typ);
    FireListInSlices(s.vals[s.cur], typ);
    assert Todo(s) == [] && Todo(s') == FireList(s.vals[s.cur], typ);
    forall i: nat ensures s'.ran[Call(i, w.res)] + multiset(Read(s'.arrays, Todo(s')))[Some(i)] == Due(s', i, typ) {
      FireListCounts(s, typ, i);
      assert s.ran[Call(i, w.res)] + multiset(Read(s.arrays, Todo(s)))[Some(i)] == Due(s, i, typ);
    }
  }

  lemma SpawnKeeps(s: State, t: nat)
    requires OnceInv(s) && SingleInv(Step(s, Spawn(t))) && Owned(Step(s, Spawn(t)))
    ensures OnceInv(Step(s, Spawn(t)))
  {
    if Step(s, Spawn(t)) != s {
      SpawnRan(s, t);
      StoreFrame(s, Step(s, Spawn(t)));
    }
  }

  /** A slot the goroutine still has to visit holds a callback. */
  lemma SlotFilled(s: State, slot: Slot)
    requires SlicesOk(s) && StoredOk(s) && InSlices(s.vals[s.cur], slot)
    ensures slot.arr < |s.arrays| && slot.idx < |s.arrays[slot.arr]| && s.arrays[slot.arr][slot.idx].Some?
  {
    var v := s.vals[s.cur];
    var k := if slot.arr == v.dones.arr && slot.idx < v.dones.len then Done
             else if slot.arr == v.fails.arr && slot.idx < v.fails.len then Fail
             else if slot.arr == v.always.arr && slot.idx < v.always.len then Always
             else Cancel;
    assert slot.arr == At(v, k).arr && slot.idx < At(v, k).len;
    assert s.arrays[slot.arr][slot.idx] == Contents(s, k)[slot.idx];
    assert None !in Contents(s, k);
  }

  lemma ReadHead(arrays: seq<seq<Option<nat>>>, slots: seq<Slot>)
    requires slots != []
    ensures multiset(Read(arrays, slots)) == multiset{Cell(arrays, slots[0])} + multiset(Read(arrays, slots[1..]))
  {
    assert Read(arrays, slots) == [Cell(arrays, slots[0])] + Read(arrays, slots[1..]);
  }

  /** Only the goroutine of the completer that published has cells to visit. */
  lemma RunNextWho(s: State, t: nat)
    requires SingleInv(s) && t < |s.setters| && s.setters[t].todo != []
    ensures s.lastWin == Some(t) && Spawned(s) && Todo(s) == s.setters[t].todo && Outcome(s) == Some(s.setters[t].res)
  {
    assert SetterOk(s, t);
  }

  lemma RunNextEffect(s: State, t: nat)
    requires SingleInv(s) && SlicesOk(s) && StoredOk(s) && RanOk(s)
    requires t < |s.setters| && s.setters[t].todo != []
    ensures var s', todo := Step(s, RunNext(t)), s.setters[t].todo;
            && s'.arrays == s.arrays && s'.vals == s.vals && s'.cur == s.cur && s'.regs == s.regs
            && Spawned(s) && Spawned(s') && Todo(s) == todo && Todo(s') == todo[1..]
            && Outcome(s) == Some(s.setters[t].res)
            && Cell(s.arrays, todo[0]).Some?
            && s'.ran == s.ran + multiset{Call(Cell(s.arrays, todo[0]).value, s.setters[t].res)}
  {
    RunNextWho(s, t);
    assert s.setters[t].todo[0] in Todo(s);
    SlotFilled(s, s.setters[t].todo[0]);
  }

  lemma RunNextRan(s: State, t: nat)
    requires SingleInv(s) && SlicesOk(s) && StoredOk(s) && RanOk(s)
    requires t < |s.setters| && s.setters[t].todo != []
    ensures RanOk(Step(s, RunNext(t)))
  {
    var s', todo, res := Step(s, RunNext(t)), s.setters[t].todo, s.setters[t].res;
    RunNextEffect(s, t);
    RanAfterRun(s, s', res);
  }

  lemma RanAfterRun(s: State, s': State, res: Result)
    requires s.cur < |s.vals| && RanOk(s) && Outcome(s) == Some(res)
    requires s'.arrays == s.arrays && s'.vals == s.vals && s'.cur == s.cur && s'.regs == s.regs
    requires Spawned(s) && Spawned(s') && Todo(s) != [] && Todo(s') == Todo(s)[1..]
    requires Cell(s.arrays, Todo(s)[0]).Some?
    requires s'.ran == s.ran + multiset{Call(Cell(s.arrays, Todo(s)[0]).value, res)}
    ensures RanOk(s')
  {
    ReadHead(s.arrays, Todo(s));
    forall i: nat ensures s'.ran[Call(i, res)] + multiset(Read(s'.arrays, Todo(s')))[Some(i)] == Due(s', i, res.typ) {
      assert s.ran[Call(i, res)] + multiset(Read(s.arrays, Todo(s)))[Some(i)] == Due(s, i, res.typ);
    }
  }

  lemma RunNextKeeps(s: State, t: nat)
    requires OnceInv(s) && SingleInv(Step(s, RunNext(t))) && Owned(Step(s, RunNext(t)))
    ensures OnceInv(Step(s, RunNext(t)))
  {
    if t < |s.setters| && s.setters[t].todo != [] {
      RunNextRan(s, t);
      RunNextEffect(s, t);
      StoreFrame(s, Step(s, RunNext(t)));
    }
  }

  // Registrations.

  lemma RegisterRan(s: State, s': State, kind: Kind)
    requires s.cur < |s.vals| && RanOk(s) && s' == s.(regs := s.regs + [Reg(kind, Retry)])
    ensures RanOk(s')
  {
    assert Todo(s') == Todo(s) && Spawned(s') == Spawned(s);
    forall i: nat, typ ensures Due(s', i, typ) == Due(s, i, typ) {}
  }

  lemma RegisterStored(s: State, s': State, kind: Kind)
    requires SlicesOk(s) && StoredOk(s) && s' == s.(regs := s.regs + [Reg(kind, Retry)])
    ensures SlicesOk(s') && StoredOk(s')
  {
    forall k ensures Contents(s', k) == Contents(s, k) {}
    forall k, j: nat ensures multiset(Contents(s', k))[Some(j)] == One(j < |s'.regs| && s'.regs[j] == Reg(k, Stored)) {
      assert multiset(Contents(s, k))[Some(j)] == One(j < |s.regs| && s.regs[j] == Reg(k, Stored));
    }
  }

  lemma RegisterKeeps(s: State, s': State, kind: Kind)
    requires OnceInv(s) && NoneInFlight(s, kind) && SingleInv(s') && Owned(s')
    requires s' == s.(regs := s.regs + [Reg(kind, Retry)])
    ensures OnceInv(s')
  {
    RegisterStored(s, s', kind);
    RegisterRan(s, s', kind);
    forall i | 0 <= i < |s'.regs| ensures RegOnce(s', i) {
      if i < |s.regs| {
        assert RegOnce(s, i);
        RegOnceFrame(s, s', i);
      }
    }
  }

  /** A registration's control moves without storing: the rest of the state stays. */
  lemma PcKeeps(s: State, s': State, i: nat, pc: RegPc)
    requires OnceInv(s) && SingleInv(s') && Owned(s') && RanOk(s')
    requires i < |s.regs| && InFlight(s.regs[i].pc) && !pc.Stored?
    requires s'.arrays == s.arrays && s'.vals == s.vals && s'.cur == s.cur
    requires s'.regs == s.regs[i := s.regs[i].(pc := pc)]
    requires SlicesOk(s') && RegOnce(s', i)
    ensures OnceInv(s')
  {
    forall k ensures Contents(s', k) == Contents(s, k) {}
    forall j | 0 <= j < |s'.regs| ensures RegOnce(s', j) {
      assert RegOnce(s, j);
      if j != i { RegOnceFrame(s, s', j); }
    }
    UnstoredMove(s, s', i);
  }

  /** Calls are counted: `called` says whether the move is the call of i. */
  lemma PcRan(s: State, s': State, i: nat, pc: RegPc)
    requires s.cur < |s.vals| && RanOk(s)
    requires i < |s.regs| && InFlight(s.regs[i].pc) && !pc.Stored?
    requires s'.arrays == s.arrays && s'.vals == s.vals && s'.cur == s.cur
    requires s'.regs == s.regs[i := s.regs[i].(pc := pc)]
    requires Todo(s') == Todo(s) && Spawned(s') == Spawned(s)
    requires pc.Called? ==> Outcome(s).Some? && s'.ran == s.ran + multiset{Call(i, Outcome(s).value)}
    requires !pc.Called? ==> s'.ran == s.ran
    ensures RanOk(s')
  {
    if Outcome(s).Some? {
      var res := Outcome(s).value;
      forall j: nat ensures s'.ran[Call(j, res)] + multiset(Read(s'.arrays, Todo(s')))[Some(j)] == Due(s', j, res.typ) {
        assert s.ran[Call(j, res)] + multiset(Read(s.arrays, Todo(s)))[Some(j)] == Due(s, j, res.typ);
      }
    }
  }

  lemma RegLoadKeeps(s: State, i: nat)
    requires OnceInv(s) && SingleInv(Step(s, RegLoad(i))) && Owned(Step(s, RegLoad(i)))
    ensures OnceInv(Step(s, RegLoad(i)))
  {
    var s' := Step(s, RegLoad(i));
    if i < |s.regs| && s.regs[i].pc.Retry? {
      PcRan(s, s', i, s'.regs[i].pc);
      PcKeeps(s, s', i, s'.regs[i].pc);
    }
  }

  lemma RegCallKeeps(s: State, i: nat)
    requires OnceInv(s) && SingleInv(Step(s, RegCall(i))) && Owned(Step(s, RegCall(i)))
    ensures OnceInv(Step(s, RegCall(i)))
  {
    var s' := Step(s, RegCall(i));
    if i < |s.regs| && s.regs[i].pc.Calling? {
      assert RegOnce(s, i) && RegOk(s, i);
      PcRan(s, s', i, Called);
      PcKeeps(s, s', i, Called);
    }
  }

  /** An append to the published slice of kind k disturbs nothing the published record can see. */
  lemma AppendFrame(s: State, k: Kind, i: nat, grow: nat)
    requires SlicesOk(s)
    ensures var (arrays', slice) := Append(s.arrays, At(s.vals[s.cur], k), i, grow);
            && |s.arrays| <= |arrays'|
            && (forall j: Kind ::
                  var sj := At(s.vals[s.cur], j);
                  sj.len <= |arrays'[sj.arr]| && arrays'[sj.arr][..sj.len] == s.arrays[sj.arr][..sj.len])
            && (forall j: Kind :: j != k ==> slice.arr != At(s.vals[s.cur], j).arr)
            && slice.arr < |arrays'| && slice.len <= |arrays'[slice.arr]|
            && arrays'[slice.arr][..slice.len] == Contents(s, k) + [Some(i)]
  {
  }

  lemma CellFrame(arrays: seq<seq<Option<nat>>>, arrays': seq<seq<Option<nat>>>, sl: Slice, slot: Slot)
    requires |arrays| <= |arrays'| && sl.arr < |arrays|
    requires sl.len <= |arrays[sl.arr]| && sl.len <= |arrays'[sl.arr]|
    requires arrays'[sl.arr][..sl.len] == arrays[sl.arr][..sl.len]
    requires slot.arr == sl.arr && slot.idx < sl.len
    ensures Cell(arrays', slot) == Cell(arrays, slot)
  {
    assert arrays'[sl.arr][..sl.len][slot.idx] == arrays[sl.arr][..sl.len][slot.idx];
  }

  lemma ReadFrame(s: State, arrays': seq<seq<Option<nat>>>, slots: seq<Slot>)
    requires SlicesOk(s) && |s.arrays| <= |arrays'|
    requires forall j: Kind ::
               var sj := At(s.vals[s.cur], j);
               sj.len <= |arrays'[sj.arr]| && arrays'[sj.arr][..sj.len] == s.arrays[sj.arr][..sj.len]
    requires forall slot :: slot in slots ==> InSlices(s.vals[s.cur], slot)
    ensures Read(arrays', slots) == Read(s.arrays, slots)
  {
    var v := s.vals[s.cur];
    forall n | 0 <= n < |slots| ensures Cell(arrays', slots[n]) == Cell(s.arrays, slots[n]) {
      var slot := slots[n];
      assert slot in slots;
      var k := if slot.arr == v.dones.arr && slot.idx < v.dones.len then Done
               else if slot.arr == v.fails.arr && slot.idx < v.fails.len then Fail
               else if slot.arr == v.always.arr && slot.idx < v.always.len then Always
               else Cancel;
      CellFrame(s.arrays, arrays', At(v, k), slot);
    }
  }

  /** An append of kind k leaves the arrays of the other kinds alone. */
  lemma AppendOtherKind(s: State, s': State, i: nat, grow: nat, k: Kind)
    requires SingleInv(s) && Homes(s) && i < |s.regs| && s.regs[i].pc.Seen? && s.regs[i].pc.v < |s.vals|
    requires s' == Step(s, RegAppend(i, grow)) && s.regs[i].kind != k
    ensures s'.cur < |s'.vals| && SameKind(s, s', k)
  {
    AppendEffect(s, i, grow);
    assert s.owner[At(s.vals[s.regs[i].pc.v], s.regs[i].kind).arr] == s.regs[i].kind;
  }

  /** The registrations that do not append. */
  lemma AppendOthers(s: State, s': State, i: nat, grow: nat, j: nat)
    requires OnceInv(s) && SingleInv(s') && Owned(s') && SlicesOk(s')
    requires i < |s.regs| && s.regs[i].pc.Seen? && s' == Step(s, RegAppend(i, grow))
    requires j < |s.regs| && j != i
    ensures j < |s'.regs| && RegOnce(s', j)
  {
    assert RegOk(s, i) && RegOnce(s, j);
    AppendEffect(s, i, grow);
    if s.regs[j].kind != s.regs[i].kind {
      AppendOtherKind(s, s', i, grow, s.regs[j].kind);
      RegOnceFrame(s, s', j);
    } else {
      assert !InFlight(s.regs[j].pc);
    }
  }

  lemma RegAppendKeeps(s: State, i: nat, grow: nat)
    requires OnceInv(s) && SingleInv(Step(s, RegAppend(i, grow))) && Owned(Step(s, RegAppend(i, grow)))
    ensures OnceInv(Step(s, RegAppend(i, grow)))
  {
    var s' := Step(s, RegAppend(i, grow));
    if i < |s.regs| && s.regs[i].pc.Seen? {
      assert RegOnce(s, i) && RegOk(s, i);
      AppendEffect(s, i, grow);
      OwnedSlices(s');
      forall j | 0 <= j < |s'.regs| && j != i ensures RegOnce(s', j) { AppendOthers(s, s', i, grow, j); }
      AppendFrame(s, s.regs[i].kind, i, grow);
      AppendKeeps(s, s', i, grow);
    }
  }

  lemma AppendKeeps(s: State, s': State, i: nat, grow: nat)
    requires OnceInv(s) && SingleInv(s') && Owned(s') && SlicesOk(s')
    requires i < |s.regs| && s.regs[i].pc.Seen? && s.regs[i].pc.v < |s.vals|
    requires At(s.vals[s.regs[i].pc.v], s.regs[i].kind) == At(s.vals[s.cur], s.regs[i].kind)
    requires var k := s.regs[i].kind;
             var (arrays', slice) := Append(s.arrays, At(s.vals[s.cur], k), i, grow);
             && s' == s.(arrays := arrays', vals := s.vals + [With(s.vals[s.regs[i].pc.v], k, slice)],
                         regs := s.regs[i := Reg(k, Prepared(s.regs[i].pc.v, |s.vals|))], owner := s'.owner)
    requires forall j :: 0 <= j < |s'.regs| && j != i ==> RegOnce(s', j)
    ensures OnceInv(s')
  {
    var k := s.regs[i].kind;
    var (arrays', slice) := Append(s.arrays, At(s.vals[s.cur], k), i, grow);
    AppendFrame(s, k, i, grow);
    forall j ensures Contents(s', j) == Contents(s, j) { assert At(s'.vals[s'.cur], j) == At(s.vals[s.cur], j); }
    AtWith(s.vals[s.regs[i].pc.v], k, slice, k);
    assert RegOnce(s', i);
    ReadFrame(s, arrays', Todo(s));
    UnstoredMove(s, s', i);
    AppendRan(s, s', i);
  }

  lemma UnstoredMove(s: State, s': State, i: nat)
    requires SlicesOk(s) && StoredOk(s) && SlicesOk(s') && (forall j :: Contents(s', j) == Contents(s, j))
    requires i < |s.regs| && InFlight(s.regs[i].pc)
    requires |s'.regs| == |s.regs| && s'.regs == s.regs[i := s'.regs[i]] && !s'.regs[i].pc.Stored?
    ensures StoredOk(s')
  {
    forall k, j: nat ensures multiset(Contents(s', k))[Some(j)] == One(j < |s'.regs| && s'.regs[j] == Reg(k, Stored)) {
      assert multiset(Contents(s, k))[Some(j)] == One(j < |s.regs| && s.regs[j] == Reg(k, Stored));
    }
  }

  lemma AppendRan(s: State, s': State, i: nat)
    requires s.cur < |s.vals| && RanOk(s) && s'.cur < |s'.vals|
    requires i < |s.regs| && InFlight(s.regs[i].pc)
    requires |s'.regs| == |s.regs| && s'.regs == s.regs[i := s'.regs[i]] && InFlight(s'.regs[i].pc)
    requires s'.ran == s.ran && s'.setters == s.setters && s'.lastWin == s.lastWin
    requires s'.vals[s'.cur] == s.vals[s.cur]
    requires Read(s'.arrays, Todo(s)) == Read(s.arrays, Todo(s))
    ensures RanOk(s')
  {
    assert Todo(s') == Todo(s);
    forall j: nat, typ ensures Due(s', j, typ) == Due(s, j, typ) { InFlightDue(s, s', i, j, typ); }
  }

  lemma InFlightDue(s: State, s': State, i: nat, j: nat, typ: ResultType)
    requires i < |s.regs| && InFlight(s.regs[i].pc) && s'.setters == s.setters && s'.lastWin == s.lastWin
    requires |s'.regs| == |s.regs| && s'.regs == s.regs[i := s'.regs[i]] && InFlight(s'.regs[i].pc)
    ensures Due(s', j, typ) == Due(s, j, typ)
  {
  }

  lemma RegCasKeeps(s: State, i: nat)
    requires OnceInv(s) && SingleInv(Step(s, RegCas(i))) && Owned(Step(s, RegCas(i)))
    ensures OnceInv(Step(s, RegCas(i)))
  {
    var s' := Step(s, RegCas(i));
    if i < |s.regs| && s.regs[i].pc.Prepared? {
      assert RegOnce(s, i) && RegOk(s, i);
      if s.cur != s.regs[i].pc.v {
        PcRan(s, s', i, Retry);
        PcKeeps(s, s', i, Retry);
      } else {
        assert CopyOk(s, i);
        PublishKeeps(s, s', i);
      }
    }
  }

  /** One kind and one callback: c are the contents before, c' after registration i is stored. */
  lemma StoredCount(c: seq<Option<nat>>, c': seq<Option<nat>>, regs: seq<Reg>, k: Kind, i: nat, j: nat)
    requires i < |regs| && !regs[i].pc.Stored? && c' == if k == regs[i].kind then c + [Some(i)] else c
    requires multiset(c)[Some(j)] == One(j < |regs| && regs[j] == Reg(k, Stored))
    ensures var regs' := regs[i := Reg(regs[i].kind, Stored)];
            multiset(c')[Some(j)] == One(j < |regs'| && regs'[j] == Reg(k, Stored))
  {
    AddOne(c, i);
  }

  lemma StoredMove(s: State, s': State, i: nat)
    requires SlicesOk(s) && StoredOk(s) && SlicesOk(s') && i < |s.regs| && !s.regs[i].pc.Stored?
    requires s'.regs == s.regs[i := Reg(s.regs[i].kind, Stored)]
    requires forall k :: Contents(s', k) == if k == s.regs[i].kind then Contents(s, k) + [Some(i)] else Contents(s, k)
    ensures StoredOk(s')
  {
    forall k ensures None !in Contents(s', k) { assert None !in Contents(s, k); }
    forall k, j: nat ensures multiset(Contents(s', k))[Some(j)] == One(j < |s'.regs| && s'.regs[j] == Reg(k, Stored)) {
      StoredCount(Contents(s, k), Contents(s', k), s.regs, k, i, j);
    }
  }

  lemma AddOne(c: seq<Option<nat>>, i: nat)
    ensures multiset(c + [Some(i)]) == multiset(c)[Some(i) := multiset(c)[Some(i)] + 1]
    ensures None !in c ==> None !in c + [Some(i)]
  {
  }

  lemma PublishContents(s: State, s': State, i: nat)
    requires OnceInv(s) && SlicesOk(s') && i < |s.regs| && s.regs[i].pc.Prepared?
    requires s.regs[i].pc.v == s.cur && s.regs[i].pc.copy < |s.vals|
    requires s' == SetRegPc(s, i, Stored).(cur := s.regs[i].pc.copy)
    ensures forall k :: Contents(s', k) == if k == s.regs[i].kind then Contents(s, k) + [Some(i)] else Contents(s, k)
    ensures forall k :: k != s.regs[i].kind ==> At(s'.vals[s'.cur], k) == At(s.vals[s.cur], k)
  {
    assert RegOnce(s, i) && CopyOk(s, i);
  }

  lemma PublishKeeps(s: State, s': State, i: nat)
    requires OnceInv(s) && SingleInv(s') && Owned(s')
    requires i < |s.regs| && s.regs[i].pc.Prepared? && s.regs[i].pc.v == s.cur && s.regs[i].pc.copy < |s.vals|
    requires Outcome(s).None? && s.vals[s.regs[i].pc.copy].r.None?
    requires s' == SetRegPc(s, i, Stored).(cur := s.regs[i].pc.copy)
    ensures OnceInv(s')
  {
    OwnedSlices(s');
    PublishContents(s, s', i);
    StoredMove(s, s', i);
    forall j | 0 <= j < |s'.regs| ensures RegOnce(s', j) {
      assert RegOnce(s, j) && RegOk(s, j);
      if j != i && InFlight(s.regs[j].pc) { RegOnceFrame(s, s', j); }
    }
    assert Todo(s') == Todo(s) == [] by {
      assert s.lastWin.None?;
    }
  }

  lemma OnceStep(s: State, a: Action)
    requires OnceInv(s) && (a.Register? ==> NoneInFlight(s, a.kind))
    ensures OnceInv(Step(s, a))
  {
    SingleStep(s, a);
    OwnedStep(s, a);
    match a
    case Spawn(t) => SpawnKeeps(s, t);
    case RunNext(t) => RunNextKeeps(s, t);
    case Register(kind) => RegisterKeeps(s, Step(s, a), kind);
    case RegLoad(i) => RegLoadKeeps(s, i);
    case RegAppend(i, grow) => RegAppendKeeps(s, i, grow);
    case RegCas(i) => RegCasKeeps(s, i);
    case RegCall(i) => RegCallKeeps(s, i);
    case _ =>
      QuietAction(s, a);
      QuietKeeps(s, Step(s, a));
  }

  lemma {:induction false} OnceRun(s: State, actions: seq<Action>)
    requires OnceInv(s) && Exclusive(s, actions)
    ensures OnceInv(Run(s, actions))
    decreases |actions|
  {
    if actions != [] {
      OnceStep(s, actions[0]);
      OnceRun(Step(s, actions[0]), actions[1..]);
    }
  }

  lemma InitOnce()
    ensures OnceInv(Init())
  {
    InitSingle();
    InitOwned();
    forall k: Kind ensures At(Init().vals[0], k).len == 0 {}
  }

  /** A completer has published, closed `final` and its goroutine has visited every stored callback. */
  predicate Settled(s: State) {
    s.cur < |s.vals| && Outcome(s).Some? && Spawned(s) && Todo(s) == []
  }

  lemma CallMeans(s: State, c: Call)
    requires OnceInv(s) && c in s.ran
    ensures s.ran[c] == 1 && Outcome(s) == Some(c.res)
    ensures c.reg < |s.regs| && Fires(s.regs[c.reg].kind, c.res.typ)
  {
    assert s.ran[Call(c.reg, c.res)] + multiset(Read(s.arrays, Todo(s)))[Some(c.reg)] == Due(s, c.reg, c.res.typ);
    if c.reg < |s.regs| { assert RegOnce(s, c.reg); }
  }

  lemma SettledMeans(s: State, i: nat)
    requires OnceInv(s) && Settled(s) && i < |s.regs| && !InFlight(s.regs[i].pc)
    ensures s.ran[Call(i, Outcome(s).value)] == One(Fires(s.regs[i].kind, Outcome(s).value.typ))
  {
    var res := Outcome(s).value;
    assert s.ran[Call(i, res)] + multiset(Read(s.arrays, Todo(s)))[Some(i)] == Due(s, i, res.typ);
    assert RegOnce(s, i);
  }

  /** With registrations of one kind one at a time, those of different kinds overlapping in any way,
      and any number of racing completers: no callback runs before
      there is a result, none runs twice or with another result or when its kind does not fire, and
      once the Future has settled every callback whose registration has returned has run exactly
      once if its kind fires and never otherwise. */
  lemma ExactlyOnce(actions: seq<Action>)
    requires Exclusive(Init(), actions)
    ensures var s := Run(Init(), actions);
            && s.cur < |s.vals|
            && (Outcome(s).None? ==> s.ran == multiset{})
            && (forall c :: c in s.ran ==>
                  && s.ran[c] == 1 && Outcome(s) == Some(c.res)
                  && c.reg < |s.regs| && Fires(s.regs[c.reg].kind, c.res.typ))
            && (Settled(s) ==> forall i :: 0 <= i < |s.regs| && !InFlight(s.regs[i].pc) ==>
                  s.ran[Call(i, Outcome(s).value)] == One(Fires(s.regs[i].kind, Outcome(s).value.typ)))
  {
    var s := Run(Init(), actions);
    InitOnce();
    OnceRun(Init(), actions);
    OnceMeans(s);
  }

  lemma OnceMeans(s: State)
    requires OnceInv(s)
    ensures Outcome(s).None? ==> s.ran == multiset{}
    ensures forall c :: c in s.ran ==>
              && s.ran[c] == 1 && Outcome(s) == Some(c.res)
              && c.reg < |s.regs| && Fires(s.regs[c.reg].kind, c.res.typ)
    ensures Settled(s) ==> forall i :: 0 <= i < |s.regs| && !InFlight(s.regs[i].pc) ==>
              s.ran[Call(i, Outcome(s).value)] == One(Fires(s.regs[i].kind, Outcome(s).value.typ))
  {
    forall c | c in s.ran
      ensures s.ran[c] == 1 && Outcome(s) == Some(c.res) && c.reg < |s.regs| && Fires(s.regs[c.reg].kind, c.res.typ)
    {
      CallMeans(s, c);
    }
    if Settled(s) {
      forall i | 0 <= i < |s.regs| && !InFlight(s.regs[i].pc)
        ensures s.ran[Call(i, Outcome(s).value)] == One(Fires(s.regs[i].kind, Outcome(s).value.typ))
      {
        SettledMeans(s, i);
      }
    }
  }

  /** GetChan registers one Always and one Cancel callback, each sending the result: once the Future
      has settled its channel has received exactly one message. */
  lemma GetChanDeliversOnce(actions: seq<Action>, i: nat, j: nat)
    requires Exclusive(Init(), actions) && Settled(Run(Init(), actions))
    requires var s := Run(Init(), actions);
             && i < |s.regs| && s.regs[i].kind == Always && !InFlight(s.regs[i].pc)
             && j < |s.regs| && s.regs[j].kind == Cancel && !InFlight(s.regs[j].pc)
    ensures var s := Run(Init(), actions);
            s.ran[Call(i, Outcome(s).value)] + s.ran[Call(j, Outcome(s).value)] == 1
  {
    ExactlyOnce(actions);
  }
}
