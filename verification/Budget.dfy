/** The goroutine budget of the routine component.

    `idles` and `ignored` are the two atomic counters.  Every task is a thread of the model: a Go (or
    Goc) routine, a Loop, or a pool of some size.  A thread runs the compare-and-swap loop of
    `allocate`, holds its share, and gives it back in `release`; each atomic operation is one step.
    The reader-writer lock is left out, which only adds interleavings. */
module Budget {
  datatype Kind = Go | Loop | Pool(size: int)

  /** Asking: in the allocation loop.  Loaded: has read `idles`.  Granted: the swap succeeded but, for a
      Loop, `ignored` is not yet incremented.  Live: running.  Returned: the Add of release is done but,
      for a Loop, the Sub is not.  Gone: released. */
  datatype Pc = Asking | Loaded(minuend: int) | Granted | Live | Returned | Gone

  datatype Thread = Thread(kind: Kind, pc: Pc)

  datatype State = State(idles: int, ignored: int, threads: seq<Thread>)

  datatype Action =
    | Start(kind: Kind)
    | Load(t: nat)
    | Swap(t: nat)
    | Ignore(t: nat)
    | Add(t: nat)
    | Sub(t: nat)

  function Init(max: int): State { State(max, 0, []) }

  function Demand(k: Kind): int { if k.Pool? then k.size else 1 }

  function SetPc(s: State, t: nat, pc: Pc): State
    requires t < |s.threads|
  {
    s.(threads := s.threads[t := s.threads[t].(pc := pc)])
  }

  function Step(s: State, a: Action): State {
    match a
    case Start(kind) => s.(threads := s.threads + [Thread(kind, Asking)])
    case Load(t) =>
      if !(t < |s.threads| && s.threads[t].pc.Asking?) then s
      else if s.idles - Demand(s.threads[t].kind) <= 0 then s
      else SetPc(s, t, Loaded(s.idles))
    case Swap(t) =>
      if !(t < |s.threads| && s.threads[t].pc.Loaded?) then s
      else if s.idles != s.threads[t].pc.minuend then SetPc(s, t, Asking)
      else
        SetPc(s, t, if s.threads[t].kind.Loop? then Granted else Live).(
          idles := s.threads[t].pc.minuend - Demand(s.threads[t].kind))
    case Ignore(t) =>
      if !(t < |s.threads| && s.threads[t].pc.Granted?) then s
      else SetPc(s, t, Live).(ignored := s.ignored + 1)
    case Add(t) =>
      if !(t < |s.threads| && s.threads[t].pc.Live?) then s
      else
        SetPc(s, t, if s.threads[t].kind.Loop? then Returned else Gone).(
          idles := s.idles + Demand(s.threads[t].kind))
    case Sub(t) =>
      if !(t < |s.threads| && s.threads[t].pc.Returned?) then s
      else SetPc(s, t, Gone).(idles := s.idles - 1)
  }

  function Run(s: State, actions: seq<Action>): State
    decreases |actions|
  {
    if actions == [] then s else Run(Step(s, actions[0]), actions[1..])
  }

  lemma {:induction false} RunConcat(s: State, a: seq<Action>, b: seq<Action>)
    ensures Run(s, a + b) == Run(Run(s, a), b)
    decreases |a|
  {
    if a == [] {
      assert a + b == b;
    } else {
      assert (a + b)[1..] == a[1..] + b;
      RunConcat(Step(s, a[0]), a[1..], b);
    }
  }

  lemma RunOne(s: State, trace: seq<Action>, a: Action)
    ensures Run(s, trace + [a]) == Step(Run(s, trace), a)
  {
    RunConcat(s, trace, [a]);
    assert [a][1..] == [];
  }

  /** Steps of other threads than t. */
  predicate Foreign(actions: seq<Action>, t: nat) {
    forall i :: 0 <= i < |actions| ==> actions[i].Start? || actions[i].t != t
  }

  lemma {:induction false} ForeignKeeps(s: State, actions: seq<Action>, t: nat)
    requires t < |s.threads| && Foreign(actions, t)
    ensures t < |Run(s, actions).threads| && Run(s, actions).threads[t] == s.threads[t]
    decreases |actions|
  {
    if actions != [] { ForeignKeeps(Step(s, actions[0]), actions[1..], t); }
  }

  /** The counters with the threads that use them; allocate and release as methods, whose effect together
      with that of other threads is a run of the step system. */
  class Counters {
    var idles: int
    var ignored: int
    var threads: seq<Thread>

    ghost function Abs(): State
      reads this
    {
      State(idles, ignored, threads)
    }

    constructor (max: int)
      ensures Abs() == Init(max)
    {
      idles, ignored, threads := max, 0, [];
    }

    method SetPcOf(t: nat, pc: Pc)
      requires t < |threads|
      modifies this`threads
      ensures Abs() == SetPc(old(Abs()), t, pc)
    {
      threads := threads[t := threads[t].(pc := pc)];
    }

    /** What other threads do in between. */
    method Interfere(others: seq<Action>)
      modifies this
      ensures Abs() == Run(old(Abs()), others)
    {
      var s := Run(State(idles, ignored, threads), others);
      idles, ignored, threads := s.idles, s.ignored, s.threads;
    }

    /** One attempt after a load that found enough: other threads act before the compare-and-swap, and for a
        Loop again before `ignored` is incremented. */
    method TrySwap(t: nat, minuend: int, others: seq<Action>, window: seq<Action>)
      returns (ok: bool, ghost trace: seq<Action>)
      requires t < |threads| && threads[t].pc == Loaded(minuend) && Foreign(others, t) && Foreign(window, t)
      modifies this
      ensures Abs() == Run(old(Abs()), trace)
      ensures t < |threads| && threads[t] == Thread(old(threads[t].kind), if ok then Live else Asking)
      ensures others == [] && old(idles) == minuend ==>
                ok && (window == [] ==> idles == minuend - Demand(old(threads[t].kind)))
    {
      ghost var s := Abs();
      ForeignKeeps(s, others, t);
      Interfere(others);
      trace := others + [Swap(t)];
      RunOne(s, others, Swap(t));
      ok := idles == minuend;
      if !ok {
        SetPcOf(t, Asking);
        return;
      }
      idles := minuend - Demand(threads[t].kind);
      if threads[t].kind.Loop? {
        SetPcOf(t, Granted);
        ForeignKeeps(Abs(), window, t);
        Interfere(window);
        RunConcat(s, trace, window);
        trace := trace + window;
        RunOne(s, trace, Ignore(t));
        trace := trace + [Ignore(t)];
        ignored := ignored + 1;
      }
      SetPcOf(t, Live);
    }

    /** The allocation loop of a new thread, with what other threads do in each attempt; it gives up when
        the attempts run out, or at once without a timeout if the demand exceeds what is idle. */
    method Allocate(kind: Kind, timeoutIsZero: bool, others: seq<seq<Action>>, window: seq<Action>)
      returns (ok: bool, ghost trace: seq<Action>)
      requires (forall n :: 0 <= n < |others| ==> Foreign(others[n], |threads|)) && Foreign(window, |threads|)
      modifies this
      ensures Abs() == Run(old(Abs()), trace)
      ensures |old(threads)| < |threads| && threads[|old(threads)|] == Thread(kind, if ok then Live else Asking)
      ensures (forall n :: 0 <= n < |others| ==> others[n] == []) ==>
                (ok <==> others != [] && old(idles) - Demand(kind) > 0)
    {
      ghost var s := Abs();
      var t, demand := |threads|, Demand(kind);
      ok, trace := false, [] + [Start(kind)];
      RunOne(s, [], Start(kind));
      threads := threads + [Thread(kind, Asking)];
      if idles - demand < 0 && timeoutIsZero {
        return;
      }
      var n := 0;
      while n < |others|
        invariant 0 <= n <= |others| && Abs() == Run(s, trace)
        invariant t < |threads| && threads[t] == Thread(kind, Asking)
        invariant (forall m :: 0 <= m < |others| ==> others[m] == []) ==>
                    idles == old(idles) && (n > 0 ==> old(idles) - demand <= 0)
      {
        ghost var before := Abs();
        RunOne(s, trace, Load(t));
        trace := trace + [Load(t)];
        var minuend := idles;
        ghost var more := others[n];
        if minuend - demand <= 0 {
          ForeignKeeps(Abs(), others[n], t);
          Interfere(others[n]);
        } else {
          SetPcOf(t, Loaded(minuend));
          ok, more := TrySwap(t, minuend, others[n], window);
        }
        RunConcat(s, trace, more);
        trace := trace + more;
        if ok {
          return;
        }
        n := n + 1;
      }
    }

    /** The two operations of release; other threads may act between them. */
    method Release(t: nat, others: seq<Action>) returns (ghost trace: seq<Action>)
      requires t < |threads| && threads[t].pc.Live? && Foreign(others, t)
      modifies this
      ensures Abs() == Run(old(Abs()), trace) && trace == [Add(t)] + others + [Sub(t)]
      ensures t < |threads| && threads[t] == Thread(old(threads[t].kind), Gone)
    {
      ghost var s := Abs();
      var kind := threads[t].kind;
      idles := idles + Demand(kind);
      SetPcOf(t, if kind.Loop? then Returned else Gone);
      RunOne(s, [], Add(t));
      assert [] + [Add(t)] == [Add(t)];
      ForeignKeeps(Abs(), others, t);
      Interfere(others);
      RunConcat(s, [Add(t)], others);
      trace := [Add(t)] + others + [Sub(t)];
      RunOne(s, [Add(t)] + others, Sub(t));
      if kind.Loop? {
        idles := idles - 1;
        SetPcOf(t, Gone);
      }
    }
  }

  // ---------------------------------------------------------------------------------------------
  // Conservation
  // ---------------------------------------------------------------------------------------------

  /** What a thread has taken from the budget and neither returned nor moved to `ignored`.  The two
      terms of a Loop, +1 before `ignored` is incremented and -1 between Add and Sub, are the
      non-atomic windows. */
  function Share(t: Thread): int {
    match t.kind
    case Loop => if t.pc.Granted? then 1 else if t.pc.Returned? then -1 else 0
    case _ => if t.pc.Live? then Demand(t.kind) else 0
  }

  function Shares(ts: seq<Thread>): int {
    if ts == [] then 0 else Share(ts[0]) + Shares(ts[1..])
  }

  lemma {:induction false} SharesUpdate(ts: seq<Thread>, i: nat, t: Thread)
    requires i < |ts|
    ensures Shares(ts[i := t]) == Shares(ts) - Share(ts[i]) + Share(t)
    decreases |ts|
  {
    if i == 0 {
      assert ts[i := t][1..] == ts[1..];
    } else {
      SharesUpdate(ts[1..], i - 1, t);
      assert ts[i := t][1..] == ts[1..][i - 1 := t];
    }
  }

  lemma {:induction false} SharesAppend(ts: seq<Thread>, t: Thread)
    ensures Shares(ts + [t]) == Shares(ts) + Share(t)
    decreases |ts|
  {
    if ts != [] {
      assert (ts + [t])[1..] == ts[1..] + [t];
      SharesAppend(ts[1..], t);
    }
  }

  /** Only Loops pass through the windows. */
  ghost predicate WindowsOk(s: State) {
    forall t :: 0 <= t < |s.threads| && (s.threads[t].pc.Granted? || s.threads[t].pc.Returned?) ==>
      s.threads[t].kind.Loop?
  }

  ghost predicate Inv(s: State, max: int) {
    && WindowsOk(s)
    && s.idles + s.ignored + Shares(s.threads) == max
  }

  lemma ThreadKeeps(s: State, max: int, a: Action, s': State)
    requires Inv(s, max) && s' == Step(s, a) && !a.Start? && a.t < |s.threads|
    ensures Inv(s', max)
  {
    SharesUpdate(s.threads, a.t, s'.threads[a.t]);
    assert s'.threads == s.threads[a.t := s'.threads[a.t]];
  }

  lemma StepKeeps(s: State, max: int, a: Action)
    requires Inv(s, max)
    ensures Inv(Step(s, a), max)
  {
    if a.Start? {
      SharesAppend(s.threads, Thread(a.kind, Asking));
    } else if a.t < |s.threads| {
      ThreadKeeps(s, max, a, Step(s, a));
    }
  }

  lemma {:induction false} RunKeeps(s: State, max: int, actions: seq<Action>)
    requires Inv(s, max)
    ensures Inv(Run(s, actions), max)
    decreases |actions|
  {
    if actions != [] {
      StepKeeps(s, max, actions[0]);
      RunKeeps(Step(s, actions[0]), max, actions[1..]);
    }
  }

  /** The Go routines that are running. */
  function Routines(ts: seq<Thread>): nat {
    if ts == [] then 0 else (if ts[0].kind.Go? && ts[0].pc.Live? then 1 else 0) + Routines(ts[1..])
  }

  /** The capacities of the pools that have not been released. */
  function Capacities(ts: seq<Thread>): int {
    if ts == [] then 0 else (if ts[0].kind.Pool? && ts[0].pc.Live? then ts[0].kind.size else 0) + Capacities(ts[1..])
  }

  /** The Loops inside one of the two windows. */
  function InWindow(ts: seq<Thread>, pc: Pc): (n: nat)
    ensures n <= |ts|
  {
    if ts == [] then 0 else (if ts[0].kind.Loop? && ts[0].pc == pc then 1 else 0) + InWindow(ts[1..], pc)
  }

  lemma {:induction false} SharesAre(ts: seq<Thread>)
    ensures Shares(ts) == Routines(ts) + Capacities(ts) + InWindow(ts, Granted) - InWindow(ts, Returned)
    decreases |ts|
  {
    if ts != [] { SharesAre(ts[1..]); }
  }

  /** The budget is conserved in every interleaving: what is idle, what is ignored, one for every running Go
      routine and the capacities of the pools add up to the maximum, but for one up or down for every Loop
      inside one of its windows. */
  lemma Conservation(max: int, actions: seq<Action>)
    ensures var s := Run(Init(max), actions);
            && s.idles + s.ignored + Shares(s.threads) == max
            && s.idles + s.ignored + Routines(s.threads) + Capacities(s.threads)
               == max - InWindow(s.threads, Granted) + InWindow(s.threads, Returned)
  {
    RunKeeps(Init(max), max, actions);
    SharesAre(Run(Init(max), actions).threads);
  }

  predicate AllExited(s: State, max: int) { s.idles == max - s.ignored }

  /** In every run the shutdown test says exactly that the shares add up to nothing. */
  lemma AllExitedMeans(max: int, actions: seq<Action>)
    ensures AllExited(Run(Init(max), actions), max) <==> Shares(Run(Init(max), actions).threads) == 0
  {
    Conservation(max, actions);
  }

  /** No thread is inside one of the non-atomic windows of a Loop. */
  predicate Quiescent(s: State) {
    forall t :: 0 <= t < |s.threads| ==> !s.threads[t].pc.Granted? && !s.threads[t].pc.Returned?
  }

  predicate Holding(t: Thread) { t.pc.Live? && !t.kind.Loop? }

  /** Pools of positive size, as NewPool needs. */
  predicate PositivePools(actions: seq<Action>) {
    forall i :: 0 <= i < |actions| && actions[i].Start? && actions[i].kind.Pool? ==> actions[i].kind.size > 0
  }

  lemma {:induction false} SharesOfQuiet(ts: seq<Thread>)
    requires forall t :: 0 <= t < |ts| ==> !ts[t].pc.Granted? && !ts[t].pc.Returned? && Demand(ts[t].kind) > 0
    ensures Shares(ts) >= 0
    ensures Shares(ts) == 0 <==> forall t :: 0 <= t < |ts| ==> !Holding(ts[t])
    decreases |ts|
  {
    if ts != [] {
      SharesOfQuiet(ts[1..]);
      if Shares(ts[1..]) == 0 {
        forall t | 1 <= t < |ts| ensures !Holding(ts[t]) { assert ts[t] == ts[1..][t - 1]; }
      } else {
        var t :| 0 <= t < |ts[1..]| && Holding(ts[1..][t]);
        assert Holding(ts[t + 1]);
      }
    }
  }

  lemma {:induction false} PositiveDemands(s: State, actions: seq<Action>)
    requires PositivePools(actions) && forall t :: 0 <= t < |s.threads| ==> Demand(s.threads[t].kind) > 0
    ensures forall t :: 0 <= t < |Run(s, actions).threads| ==> Demand(Run(s, actions).threads[t].kind) > 0
    decreases |actions|
  {
    if actions != [] {
      var s' := Step(s, actions[0]);
      assert actions[0].Start? && actions[0].kind.Pool? ==> actions[0].kind.size > 0;
      forall t | 0 <= t < |s'.threads| ensures Demand(s'.threads[t].kind) > 0 {}
      PositiveDemands(s', actions[1..]);
    }
  }

  /** The shutdown test is exact in quiescent states: it holds if and only if no Go routine runs and no
      pool is unreleased; Loops do not count. */
  lemma AllExitedExact(max: int, actions: seq<Action>)
    requires PositivePools(actions) && Quiescent(Run(Init(max), actions))
    ensures var s := Run(Init(max), actions);
            AllExited(s, max) <==> forall t :: 0 <= t < |s.threads| ==> !Holding(s.threads[t])
  {
    RunKeeps(Init(max), max, actions);
    PositiveDemands(Init(max), actions);
    SharesOfQuiet(Run(Init(max), actions).threads);
  }

  // ---------------------------------------------------------------------------------------------
  // The floor of the idle counter
  // ---------------------------------------------------------------------------------------------

  /** Loops that have done the Sub of their release. */
  function LoopsGone(ts: seq<Thread>): nat {
    if ts == [] then 0 else (if ts[0].kind.Loop? && ts[0].pc.Gone? then 1 else 0) + LoopsGone(ts[1..])
  }

  lemma {:induction false} LoopsGoneUpdate(ts: seq<Thread>, i: nat, t: Thread)
    requires i < |ts|
    ensures LoopsGone(ts[i := t]) == LoopsGone(ts) - (if ts[i].kind.Loop? && ts[i].pc.Gone? then 1 else 0)
                                     + (if t.kind.Loop? && t.pc.Gone? then 1 else 0)
    decreases |ts|
  {
    if i == 0 {
      assert ts[i := t][1..] == ts[1..];
    } else {
      LoopsGoneUpdate(ts[1..], i - 1, t);
      assert ts[i := t][1..] == ts[1..][i - 1 := t];
    }
  }

  lemma {:induction false} LoopsGoneAppend(ts: seq<Thread>, t: Thread)
    requires t.pc.Asking?
    ensures LoopsGone(ts + [t]) == LoopsGone(ts)
    decreases |ts|
  {
    if ts != [] {
      assert (ts + [t])[1..] == ts[1..] + [t];
      LoopsGoneAppend(ts[1..], t);
    }
  }

  ghost predicate Floor(s: State) {
    && WindowsOk(s)
    && (forall t :: 0 <= t < |s.threads| ==> Demand(s.threads[t].kind) > 0)
    && (forall t :: 0 <= t < |s.threads| && s.threads[t].pc.Loaded? ==>
          s.threads[t].pc.minuend - Demand(s.threads[t].kind) >= 1)
    && s.idles >= 1 - LoopsGone(s.threads)
  }

  lemma FloorStep(s: State, a: Action)
    requires Floor(s) && (a.Start? && a.kind.Pool? ==> a.kind.size > 0)
    ensures Floor(Step(s, a))
  {
    var s' := Step(s, a);
    if a.Start? {
      LoopsGoneAppend(s.threads, Thread(a.kind, Asking));
    } else if a.t < |s.threads| {
      LoopsGoneUpdate(s.threads, a.t, s'.threads[a.t]);
      assert s'.threads == s.threads[a.t := s'.threads[a.t]];
    }
  }

  lemma {:induction false} FloorRun(s: State, actions: seq<Action>)
    requires Floor(s) && PositivePools(actions)
    ensures Floor(Run(s, actions))
    decreases |actions|
  {
    if actions != [] {
      assert actions[0].Start? && actions[0].kind.Pool? ==> actions[0].kind.size > 0;
      FloorStep(s, actions[0]);
      FloorRun(Step(s, actions[0]), actions[1..]);
    }
  }

  /** The idle counter stays at least one, less one for every Loop that has ended; in runs without Loop it
      never falls below one, which is the main routine's. */
  lemma IdlesFloor(max: int, actions: seq<Action>)
    requires max >= 1 && PositivePools(actions)
    ensures var s := Run(Init(max), actions);
            && s.idles >= 1 - LoopsGone(s.threads)
            && ((forall i :: 0 <= i < |actions| && actions[i].Start? ==> !actions[i].kind.Loop?) ==> s.idles >= 1)
  {
    FloorRun(Init(max), actions);
    if forall i :: 0 <= i < |actions| && actions[i].Start? ==> !actions[i].kind.Loop? {
      NoLoops(Init(max), actions);
    }
  }

  lemma {:induction false} NoLoops(s: State, actions: seq<Action>)
    requires forall t :: 0 <= t < |s.threads| ==> !s.threads[t].kind.Loop?
    requires forall i :: 0 <= i < |actions| && actions[i].Start? ==> !actions[i].kind.Loop?
    ensures LoopsGone(Run(s, actions).threads) == 0
    decreases |actions|
  {
    if actions == [] {
      NoneGone(s.threads);
    } else {
      NoLoops(Step(s, actions[0]), actions[1..]);
    }
  }

  lemma {:induction false} NoneGone(ts: seq<Thread>)
    requires forall t :: 0 <= t < |ts| ==> !ts[t].kind.Loop?
    ensures LoopsGone(ts) == 0
    decreases |ts|
  {
    if ts != [] { NoneGone(ts[1..]); }
  }

  // ---------------------------------------------------------------------------------------------
  // Inside the windows
  // ---------------------------------------------------------------------------------------------

  /** The Add of an ending Loop can hide a running routine from the shutdown test. */
  lemma WindowHidesRoutine()
    ensures var s := Run(Init(10), [Start(Loop), Load(0), Swap(0), Ignore(0), Start(Go), Load(1), Swap(1), Add(0)]);
            AllExited(s, 10) && |s.threads| == 2 && Holding(s.threads[1])
  {
  }

  /** With a Loop the idle counter can reach zero: a routine takes the share the Loop's Add lends. */
  lemma LoopBreaksFloor()
    ensures var actions := [Start(Loop), Load(0), Swap(0), Ignore(0), Add(0), Start(Go), Load(1), Swap(1), Sub(0)];
            Run(Init(2), actions).idles == 0
  {
  }
}
