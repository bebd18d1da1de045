/** whenAllFuture: one combined Future over n Futures.

    Each Future completes once and then runs exactly one of the three callbacks registered on it (see
    FutureProtocol).  The callbacks share a countdown, a flag and the slice of results; their
    statements, the completions of the Futures and outside cancellation interleave freely. */
module WhenAll {
  import opened FutureProtocol
  import opened Options

  /** Where the callback of one Future is: the success callback has written its slot (Wrote) or has seen
      the countdown reach zero (Resolving); the failure and cancel callbacks have won the flag and go
      through the Futures cancelling the others (Sweeping). */
  datatype Pc = Idle | Wrote | Resolving | Sweeping(k: nat) | Over

  /** How the combined Future ended.  A resolved one carries the shared slice itself. */
  datatype Final = Resolved | Rejected(cause: Any) | CancelledAs(external: bool)

  datatype State = State(
    futs: seq<Option<Result>>,
    pcs: seq<Pc>,
    slots: seq<Option<Any>>,
    countdown: int,
    winner: Option<nat>,
    final: Option<Final>)

  datatype Action =
    | Finish(j: nat, res: Result)
    | Fire(j: nat)
    | CountDown(j: nat)
    | Resolve(j: nat)
    | CancelNext(j: nat)
    | Decide(j: nat)
    | CancelCombined

  function Init(n: nat): State {
    State.State(seq(n, _ => None), seq(n, _ => Idle), seq(n, _ => None), n, None,
                if n == 0 then Some(Resolved) else None)
  }

  function SetFinal(s: State, f: Final): State {
    if s.final.None? then s.(final := Some(f)) else s
  }

  predicate Index(s: State, j: nat) {
    j < |s.futs| && j < |s.pcs| && j < |s.slots|
  }

  function Step(s: State, a: Action): State {
    if a.CancelCombined? then SetFinal(s, CancelledAs(true))
    else if !Index(s, a.j) then s
    else
      var j, pc, fut := a.j, s.pcs[a.j], s.futs[a.j];
      match a
      case Finish(_, res) => if fut.Some? then s else s.(futs := s.futs[j := Some(res)])
      case Fire(_) =>
        if !(pc.Idle? && fut.Some?) then s
        else if fut.value.typ == Success then s.(slots := s.slots[j := Some(fut.value.value)], pcs := s.pcs[j := Wrote])
        else if s.winner.Some? then s.(pcs := s.pcs[j := Over])
        else s.(winner := Some(j), pcs := s.pcs[j := Sweeping(0)])
      case CountDown(_) =>
        if !pc.Wrote? then s
        else s.(countdown := s.countdown - 1, pcs := s.pcs[j := if s.countdown - 1 == 0 then Resolving else Over])
      case Resolve(_) =>
        if !pc.Resolving? then s else SetFinal(s, Resolved).(pcs := s.pcs[j := Over])
      case CancelNext(_) =>
        if !(pc.Sweeping? && pc.k < |s.futs|) then s
        else
          s.(pcs := s.pcs[j := Sweeping(pc.k + 1)],
             futs := if pc.k != j && s.futs[pc.k].None? then s.futs[pc.k := Some(Result(0, Cancelled))] else s.futs)
      case Decide(_) =>
        if !(pc.Sweeping? && pc.k >= |s.futs| && fut.Some?) then s
        else
          SetFinal(s, if fut.value.typ == Failure then Rejected(fut.value.value) else CancelledAs(false)).(
            pcs := s.pcs[j := Over])
      case CancelCombined => s
  }

  function Run(s: State, actions: seq<Action>): State
    decreases |actions|
  {
    if actions == [] then s else Run(Step(s, actions[0]), actions[1..])
  }

  predicate Succeeded(f: Option<Result>) { f.Some? && f.value.typ == Success }

  /** The success callback of this Future has decremented the countdown. */
  predicate Counted(f: Option<Result>, pc: Pc) {
    Succeeded(f) && (pc.Over? || pc.Resolving?)
  }

  function Uncounted(futs: seq<Option<Result>>, pcs: seq<Pc>): nat
    requires |futs| == |pcs|
  {
    if futs == [] then 0 else (if Counted(futs[0], pcs[0]) then 0 else 1) + Uncounted(futs[1..], pcs[1..])
  }

  lemma {:induction false} UncountedUpdate(futs: seq<Option<Result>>, pcs: seq<Pc>, j: nat, f: Option<Result>, pc: Pc)
    requires |futs| == |pcs| && j < |futs|
    ensures Uncounted(futs[j := f], pcs[j := pc])
            == Uncounted(futs, pcs) + (if Counted(futs[j], pcs[j]) then 1 else 0) - (if Counted(f, pc) then 1 else 0)
    decreases |futs|
  {
    if j == 0 {
      assert futs[j := f][1..] == futs[1..] && pcs[j := pc][1..] == pcs[1..];
    } else {
      UncountedUpdate(futs[1..], pcs[1..], j - 1, f, pc);
      assert futs[j := f][1..] == futs[1..][j - 1 := f] && pcs[j := pc][1..] == pcs[1..][j - 1 := pc];
    }
  }

  /** The countdown is zero exactly when every Future's success has been counted. */
  lemma {:induction false} UncountedZero(futs: seq<Option<Result>>, pcs: seq<Pc>)
    requires |futs| == |pcs|
    ensures Uncounted(futs, pcs) == 0 <==> forall j :: 0 <= j < |futs| ==> Counted(futs[j], pcs[j])
    decreases |futs|
  {
    if futs != [] {
      UncountedZero(futs[1..], pcs[1..]);
      if forall j :: 0 <= j < |futs[1..]| ==> Counted(futs[1..][j], pcs[1..][j]) {
        forall j | 1 <= j < |futs| ensures Counted(futs[j], pcs[j]) {
          assert Counted(futs[1..][j - 1], pcs[1..][j - 1]);
        }
      } else {
        var j :| 0 <= j < |futs[1..]| && !Counted(futs[1..][j], pcs[1..][j]);
        assert !Counted(futs[j + 1], pcs[j + 1]);
      }
    }
  }

  ghost predicate CallbackOk(s: State, j: nat)
    requires Index(s, j)
  {
    var f, pc := s.futs[j], s.pcs[j];
    && (!pc.Idle? ==> f.Some?)
    && (pc.Wrote? || pc.Resolving? ==> Succeeded(f))
    && (Succeeded(f) && !pc.Idle? ==> s.slots[j] == Some(f.value.value))
    && (pc.Sweeping? ==> s.winner == Some(j) && !Succeeded(f))
    && (pc.Over? && !Succeeded(f) ==> s.winner.Some?)
    && (pc.Resolving? ==> s.countdown == 0)
  }

  ghost predicate Inv(s: State) {
    && |s.pcs| == |s.futs| && |s.slots| == |s.futs|
    && (forall j :: 0 <= j < |s.futs| ==> CallbackOk(s, j))
    && s.countdown == Uncounted(s.futs, s.pcs)
    && (s.final == Some(Resolved) ==> s.countdown == 0)
    && (s.countdown == 0 ==> s.final.Some? || exists j :: 0 <= j < |s.pcs| && s.pcs[j].Resolving?)
    && (s.winner.Some? ==>
          var w := s.winner.value;
          w < |s.futs| && !Succeeded(s.futs[w]) && !s.pcs[w].Idle? && (s.pcs[w].Sweeping? || s.final.Some?))
    && (match s.final
        case Some(Rejected(e)) => s.winner.Some? && s.futs[s.winner.value] == Some(Result(e, Failure))
        case Some(CancelledAs(false)) =>
          s.winner.Some? && s.futs[s.winner.value].Some? && s.futs[s.winner.value].value.typ == Cancelled
        case _ => true)
  }

  lemma UncountedStep(s: State, a: Action)
    requires Inv(s)
    ensures var s' := Step(s, a);
            |s'.pcs| == |s'.futs| == |s.futs| && |s'.slots| == |s.futs| && s'.countdown == Uncounted(s'.futs, s'.pcs)
  {
    var s' := Step(s, a);
    if !a.CancelCombined? && Index(s, a.j) && s' != s {
      var j := a.j;
      assert CallbackOk(s, j);
      if a.CancelNext? {
        var k := s.pcs[j].k;
        UncountedUpdate(s.futs, s.pcs, j, s.futs[j], s'.pcs[j]);
        UncountedUpdate(s.futs, s'.pcs, k, s'.futs[k], s'.pcs[k]);
        assert s'.pcs[k := s'.pcs[k]] == s'.pcs && s.futs[j := s.futs[j]] == s.futs;
        assert CallbackOk(s, k);
      } else {
        UncountedUpdate(s.futs, s.pcs, j, s'.futs[j], s'.pcs[j]);
        assert s'.futs == s.futs[j := s'.futs[j]] && s'.pcs == s.pcs[j := s'.pcs[j]];
      }
    }
  }

  lemma CallbackStep(s: State, a: Action, j: nat)
    requires Inv(s) && Index(s, j) && Index(Step(s, a), j)
    requires s.countdown == 0 ==> Step(s, a).countdown == 0
    ensures CallbackOk(Step(s, a), j)
  {
    assert CallbackOk(s, j);
    if !a.CancelCombined? && Index(s, a.j) { assert CallbackOk(s, a.j); }
  }

  lemma StepKeeps(s: State, a: Action)
    requires Inv(s)
    ensures Inv(Step(s, a))
  {
    var s' := Step(s, a);
    UncountedStep(s, a);
    UncountedZero(s.futs, s.pcs);
    if !a.CancelCombined? && Index(s, a.j) { assert CallbackOk(s, a.j); }
    assert s.countdown == 0 ==> s'.countdown == 0;
    forall j | 0 <= j < |s'.futs| ensures CallbackOk(s', j) { CallbackStep(s, a, j); }
    if s.countdown == 0 && s.final.None? {
      var r :| 0 <= r < |s.pcs| && s.pcs[r].Resolving?;
      assert s'.final.Some? || s'.pcs[r].Resolving?;
    }
    assert s'.countdown == 0 && s.countdown != 0 ==> s'.pcs[a.j].Resolving?;
  }

  lemma InitInv(n: nat)
    ensures Inv(Init(n))
  {
    var s := Init(n);
    forall j | 0 <= j < n ensures CallbackOk(s, j) {}
    InitUncounted(n);
  }

  lemma {:induction false} InitUncounted(n: nat)
    ensures Uncounted(seq(n, _ => None), seq(n, _ => Idle)) == n
    decreases n
  {
    if n > 0 {
      InitUncounted(n - 1);
      var futs: seq<Option<Result>>, pcs := seq(n, _ => None), seq(n, _ => Idle);
      assert futs[1..] == seq(n - 1, _ => None) && pcs[1..] == seq(n - 1, _ => Idle);
    }
  }

  /** What later steps cannot undo: a completed Future, a decided combined Future, and the results once
      it is resolved. */
  ghost predicate Later(s: State, s': State) {
    && |s'.futs| == |s.futs| && |s'.slots| == |s.slots|
    && (forall j :: 0 <= j < |s.futs| && s.futs[j].Some? ==> s'.futs[j] == s.futs[j])
    && (s.final.Some? ==> s'.final == s.final)
    && (s.final == Some(Resolved) ==> s'.slots == s.slots)
  }

  lemma StepLater(s: State, a: Action)
    requires Inv(s)
    ensures Later(s, Step(s, a))
  {
    if s.final == Some(Resolved) {
      UncountedZero(s.futs, s.pcs);
      if !a.CancelCombined? && Index(s, a.j) { assert Counted(s.futs[a.j], s.pcs[a.j]); }
    }
  }

  lemma {:induction false} RunKeeps(s: State, actions: seq<Action>)
    requires Inv(s)
    ensures Inv(Run(s, actions)) && Later(s, Run(s, actions))
    decreases |actions|
  {
    if actions != [] {
      StepKeeps(s, actions[0]);
      StepLater(s, actions[0]);
      RunKeeps(Step(s, actions[0]), actions[1..]);
    }
  }

  // ---------------------------------------------------------------------------------------------
  // The sweep
  // ---------------------------------------------------------------------------------------------

  predicate AllDone(s: State, k: nat) { forall i :: 0 <= i < k && i < |s.futs| ==> s.futs[i].Some? }

  /** A sweep that has come to k has left no Future below k incomplete, and the callback that won the flag
      decides only after its sweep. */
  ghost predicate Swept(s: State) {
    && (forall j :: 0 <= j < |s.pcs| && s.pcs[j].Sweeping? ==> AllDone(s, s.pcs[j].k))
    && (s.winner.Some? && s.winner.value < |s.pcs| && !s.pcs[s.winner.value].Sweeping? ==> AllDone(s, |s.futs|))
    && (s.final.Some? && (s.final.value.Rejected? || s.final == Some(CancelledAs(false))) ==> AllDone(s, |s.futs|))
  }

  lemma SweepOne(s: State, a: Action, j: nat)
    requires Inv(s) && Swept(s) && Later(s, Step(s, a))
    requires j < |s.pcs| && j < |Step(s, a).pcs| && Step(s, a).pcs[j].Sweeping?
    ensures AllDone(Step(s, a), Step(s, a).pcs[j].k)
  {
    assert CallbackOk(s, j);
    if !a.CancelCombined? && Index(s, a.j) { assert CallbackOk(s, a.j); }
  }

  lemma SweepStep(s: State, a: Action)
    requires Inv(s) && Swept(s)
    ensures Swept(Step(s, a))
  {
    var s' := Step(s, a);
    StepLater(s, a);
    if !a.CancelCombined? && Index(s, a.j) { assert CallbackOk(s, a.j); }
    forall j | 0 <= j < |s'.pcs| && s'.pcs[j].Sweeping? ensures AllDone(s', s'.pcs[j].k) {
      SweepOne(s, a, j);
    }
  }

  /** Where the result of a Future comes from. */
  ghost predicate Source(s: State, actions: seq<Action>, i: nat)
    requires i < |s.futs|
  {
    s.futs[i].Some? ==>
      || Finish(i, s.futs[i].value) in actions
      || (s.futs[i] == Some(Result(0, Cancelled)) && s.winner.Some? && s.winner.value != i)
  }

  lemma SourceStep(s: State, a: Action, before: seq<Action>, i: nat)
    requires Inv(s) && i < |s.futs| && Source(s, before, i)
    ensures i < |Step(s, a).futs| && Source(Step(s, a), before + [a], i)
  {
    if !a.CancelCombined? && Index(s, a.j) { assert CallbackOk(s, a.j); }
  }

  lemma {:induction false} SweepRun(s: State, before: seq<Action>, actions: seq<Action>)
    requires Inv(s) && Swept(s) && (forall i :: 0 <= i < |s.futs| ==> Source(s, before, i))
    requires s.final == Some(CancelledAs(true)) ==> CancelCombined in before
    ensures var s' := Run(s, actions);
            && Swept(s') && (forall i :: 0 <= i < |s'.futs| ==> Source(s', before + actions, i))
            && (s'.final == Some(CancelledAs(true)) ==> CancelCombined in before + actions)
    decreases |actions|
  {
    if actions == [] {
      assert before + actions == before;
    } else {
      var s' := Step(s, actions[0]);
      StepKeeps(s, actions[0]);
      StepLater(s, actions[0]);
      SweepStep(s, actions[0]);
      forall i | 0 <= i < |s'.futs| ensures Source(s', before + [actions[0]], i) {
        SourceStep(s, actions[0], before, i);
      }
      SweepRun(s', before + [actions[0]], actions[1..]);
      assert before + [actions[0]] + actions[1..] == before + actions;
    }
  }

  /** In every run: when the combined Future is rejected, or cancelled by a callback, every Future has been
      completed.  A Future has the result somebody finished it with; one that nobody finished is complete
      only if the sweep cancelled it, on account of another one that failed. */
  lemma OthersCancelled(n: nat, actions: seq<Action>, i: nat)
    requires i < n
    ensures var s := Run(Init(n), actions);
            && |s.futs| == n
            && (s.final.Some? && (s.final.value.Rejected? || s.final == Some(CancelledAs(false))) ==> s.futs[i].Some?)
            && (s.futs[i].Some? && Finish(i, s.futs[i].value) !in actions ==>
                  && s.futs[i] == Some(Result(0, Cancelled))
                  && exists j :: 0 <= j < n && j != i && s.futs[j].Some? && !Succeeded(s.futs[j]))
  {
    InitInv(n);
    RunKeeps(Init(n), actions);
    SweepRun(Init(n), [], actions);
    var s := Run(Init(n), actions);
    assert [] + actions == actions && Source(s, actions, i);
    if s.winner.Some? { assert CallbackOk(s, s.winner.value); }
  }

  /** When all callbacks are over, the combined Future is resolved if every Future succeeded, unless it was
      cancelled from outside. */
  lemma AllSucceed(n: nat, actions: seq<Action>)
    requires var s := Run(Init(n), actions);
             |s.futs| == |s.pcs| == n && forall j :: 0 <= j < n ==> s.pcs[j].Over? && Succeeded(s.futs[j])
    ensures var s := Run(Init(n), actions);
            s.final == Some(Resolved) || (s.final == Some(CancelledAs(true)) && CancelCombined in actions)
  {
    WhenAllOutcome(n, actions, []);
    InitInv(n);
    SweepRun(Init(n), [], actions);
    assert [] + actions == actions;
  }

  /** For every number of Futures, every completion order and every interleaving of the callbacks: the
      combined Future resolves only if all succeeded, then slot j holds the value of the j-th; once any
      Future fails or is cancelled it never resolves; it completes at most once and its results do not
      change afterwards; it is rejected or cancelled with the cause of the first failing callback; and it
      is complete when all callbacks have run. */
  lemma WhenAllOutcome(n: nat, actions: seq<Action>, more: seq<Action>)
    ensures var s, s' := Run(Init(n), actions), Run(Run(Init(n), actions), more);
            && |s.futs| == |s.slots| == |s.pcs| == n && |s'.slots| == n
            && (s.final == Some(Resolved) ==> forall j :: 0 <= j < n ==>
                  Succeeded(s.futs[j]) && s'.slots[j] == s.slots[j] == Some(s.futs[j].value.value))
            && ((exists j :: 0 <= j < n && s.futs[j].Some? && !Succeeded(s.futs[j])) ==> s'.final != Some(Resolved))
            && (s.final.Some? ==> s'.final == s.final)
            && (s.final.Some? && s.final.value.Rejected? ==>
                  exists j :: 0 <= j < n && s.futs[j] == Some(Result(s.final.value.cause, Failure)))
            && (s.final == Some(CancelledAs(false)) ==>
                  exists j :: 0 <= j < n && s.futs[j].Some? && s.futs[j].value.typ == Cancelled)
            && ((forall j :: 0 <= j < n ==> s.pcs[j].Over?) ==> s.final.Some?)
  {
    var s := Run(Init(n), actions);
    InitInv(n);
    RunKeeps(Init(n), actions);
    RunKeeps(s, more);
    var s' := Run(s, more);
    UncountedZero(s.futs, s.pcs);
    UncountedZero(s'.futs, s'.pcs);
    if s.final == Some(Resolved) {
      forall j | 0 <= j < n ensures Succeeded(s.futs[j]) && s.slots[j] == Some(s.futs[j].value.value) {
        assert Counted(s.futs[j], s.pcs[j]) && CallbackOk(s, j);
      }
    }
    if j :| 0 <= j < n && s.futs[j].Some? && !Succeeded(s.futs[j]) {
      assert s'.futs[j] == s.futs[j] && !Counted(s'.futs[j], s'.pcs[j]);
    }
    if (forall j :: 0 <= j < n ==> s.pcs[j].Over?) && s.countdown != 0 {
      var j :| 0 <= j < n && !Counted(s.futs[j], s.pcs[j]);
      assert CallbackOk(s, j);
    }
  }

  // ---------------------------------------------------------------------------------------------
  // No callback gets stuck
  // ---------------------------------------------------------------------------------------------

  /** Statements a callback has still to make among n Futures, at most. */
  function Left(pc: Pc, n: nat): nat {
    match pc
    case Idle => n + 2
    case Wrote => 2
    case Resolving => 1
    case Sweeping(k) => if k < n then n - k + 1 else 1
    case Over => 0
  }

  function Next(s: State, j: nat): Action
    requires Index(s, j)
  {
    match s.pcs[j]
    case Idle => Fire(j)
    case Wrote => CountDown(j)
    case Resolving => Resolve(j)
    case Sweeping(k) => if k < |s.futs| then CancelNext(j) else Decide(j)
    case Over => Fire(j)
  }

  /** The next statement of the callback of a completed Future is always possible and brings it closer to
      its end, whatever the other callbacks have done. */
  lemma CallbackMoves(s: State, j: nat)
    requires Inv(s) && j < |s.futs| && s.futs[j].Some? && !s.pcs[j].Over?
    ensures var s' := Step(s, Next(s, j));
            && Inv(s') && Later(s, s')
            && s'.pcs == s.pcs[j := s'.pcs[j]] && Left(s'.pcs[j], |s.futs|) < Left(s.pcs[j], |s.futs|)
  {
    StepKeeps(s, Next(s, j));
    StepLater(s, Next(s, j));
    assert CallbackOk(s, j);
  }

  lemma {:induction false} RunConcat(s: State, a: seq<Action>, b: seq<Action>)
    ensures Run(s, a + b) == Run(Run(s, a), b)
    decreases |a|
  {
    if a == [] {
      assert a + b == b;
    } else {
      assert (a + b)[1..] == a[1..] + b;
      RunConcat(Step(s, a[0]), a[1..], b);
    }
  }

  ghost predicate Completed(s: State) {
    Inv(s) && forall j :: 0 <= j < |s.futs| ==> s.futs[j].Some?
  }

  /** The callback of one Future runs to its end. */
  lemma {:induction false} CallbackEnds(s: State, j: nat) returns (actions: seq<Action>)
    requires Completed(s) && j < |s.futs|
    ensures var s' := Run(s, actions);
            Completed(s') && s'.futs == s.futs && s'.pcs == s.pcs[j := Over]
    decreases Left(s.pcs[j], |s.futs|)
  {
    actions := [];
    if s.pcs[j].Over? {
      assert s.pcs[j := Over] == s.pcs;
    } else {
      CallbackMoves(s, j);
      var s1 := Step(s, Next(s, j));
      assert s1.futs == s.futs;
      var rest := CallbackEnds(s1, j);
      actions := [Next(s, j)] + rest;
      assert actions[1..] == rest;
    }
  }

  lemma {:induction false} CallbacksEnd(s: State, k: nat) returns (actions: seq<Action>)
    requires Completed(s) && k <= |s.futs|
    ensures var s' := Run(s, actions);
            Completed(s') && s'.futs == s.futs && forall j :: 0 <= j < k ==> s'.pcs[j].Over?
    decreases k
  {
    actions := [];
    if k > 0 {
      var first := CallbacksEnd(s, k - 1);
      var last := CallbackEnds(Run(s, first), k - 1);
      RunConcat(s, first, last);
      actions := first + last;
    }
  }

  /** The Futures that are not complete end with the results given for them. */
  lemma {:induction false} FuturesEnd(s: State, rs: seq<Result>, k: nat) returns (actions: seq<Action>)
    requires Inv(s) && |rs| == |s.futs| && k <= |s.futs|
    ensures var s' := Run(s, actions);
            && Inv(s') && |s'.futs| == |s.futs|
            && (forall j :: 0 <= j < |s.futs| ==>
                  s'.futs[j] == if s.futs[j].None? && j < k then Some(rs[j]) else s.futs[j])
    decreases k
  {
    actions := [];
    if k > 0 {
      var first := FuturesEnd(s, rs, k - 1);
      var s1 := Run(s, first);
      StepKeeps(s1, Finish(k - 1, rs[k - 1]));
      RunConcat(s, first, [Finish(k - 1, rs[k - 1])]);
      actions := first + [Finish(k - 1, rs[k - 1])];
      assert Run(s1, [Finish(k - 1, rs[k - 1])]) == Step(s1, Finish(k - 1, rs[k - 1]));
    }
  }

  /** From every reachable state, whatever results the Futures still running end with, there is a way on in
      which they end with them, all callbacks come to their end and the combined Future is complete. */
  lemma CanAlwaysComplete(n: nat, actions: seq<Action>, rs: seq<Result>) returns (more: seq<Action>)
    requires |rs| == n
    ensures var s, s' := Run(Init(n), actions), Run(Run(Init(n), actions), more);
            && |s.futs| == |s'.futs| == |s'.pcs| == n
            && (forall j :: 0 <= j < n ==> s'.pcs[j].Over?)
            && (forall j :: 0 <= j < n ==> s'.futs[j] == if s.futs[j].Some? then s.futs[j] else Some(rs[j]))
            && s'.final.Some?
  {
    InitInv(n);
    RunKeeps(Init(n), actions);
    var s := Run(Init(n), actions);
    var first := FuturesEnd(s, rs, n);
    var last := CallbacksEnd(Run(s, first), n);
    RunConcat(s, first, last);
    more := first + last;
    RunConcat(Init(n), actions, more);
    WhenAllOutcome(n, actions + more, []);
  }
}
