/** lock.Within: a worker goroutine that keeps trying to lock, and the caller that waits for it, for a
    timer or for its context, and then runs the body and unlocks.

    The two talk over the buffered channels `done` and `timeFault`; every channel operation, lock
    attempt and exit is one step, and a step that is not possible leaves the state unchanged. */
module WithinProtocol {
  datatype Verdict = TimedOut | ContextDone

  datatype Event = Acquired | Panicked | BodyBegins | BodyEnds | Unlocked | Returned | Failed(why: Verdict)

  /** Trying: inside a call of Lock.  Leaving: the deferred send on `done` is next. */
  datatype Worker = Polling | Trying | Leaving | Gone
  /** Signalling: the send on `timeFault` is next.  Entering: `done` was received. */
  datatype Waiter = Waiting | Signalling(why: Verdict) | Entering | InBody | Unlocking | Returning | Finished

  datatype State = State(worker: Worker, waiter: Waiter, done: nat, timeFault: nat, log: seq<Event>)

  datatype Action =
    | Poll
    | TryFails
    | TrySucceeds
    | TryPanics
    | SendDone
    | ReceiveDone
    | Expire(why: Verdict)
    | SendFault
    | Enter
    | Leave
    | Unlock
    | Return

  function Init(): State { State(Polling, Waiting, 0, 0, []) }

  function Step(s: State, a: Action): State {
    match a
    case Poll =>
      if !s.worker.Polling? then s
      else if s.timeFault > 0 then s.(timeFault := s.timeFault - 1, worker := Leaving)
      else s.(worker := Trying)
    case TryFails => if !s.worker.Trying? then s else s.(worker := Polling)
    case TrySucceeds => if !s.worker.Trying? then s else s.(worker := Leaving, log := s.log + [Acquired])
    case TryPanics => if !s.worker.Trying? then s else s.(worker := Leaving, log := s.log + [Panicked])
    case SendDone => if !(s.worker.Leaving? && s.done < 1) then s else s.(worker := Gone, done := s.done + 1)
    case ReceiveDone => if !(s.waiter.Waiting? && s.done > 0) then s else s.(waiter := Entering, done := s.done - 1)
    case Expire(why) => if !s.waiter.Waiting? then s else s.(waiter := Signalling(why))
    case SendFault =>
      if !(s.waiter.Signalling? && s.timeFault < 1) then s
      else s.(waiter := Finished, timeFault := s.timeFault + 1, log := s.log + [Failed(s.waiter.why)])
    case Enter => if !s.waiter.Entering? then s else s.(waiter := InBody, log := s.log + [BodyBegins])
    case Leave => if !s.waiter.InBody? then s else s.(waiter := Unlocking, log := s.log + [BodyEnds])
    case Unlock => if !s.waiter.Unlocking? then s else s.(waiter := Returning, log := s.log + [Unlocked])
    case Return => if !s.waiter.Returning? then s else s.(waiter := Finished, log := s.log + [Returned])
  }

  function Run(s: State, actions: seq<Action>): State
    decreases |actions|
  {
    if actions == [] then s else Run(Step(s, actions[0]), actions[1..])
  }

  /** The complete course of a call whose worker ended with the given event. */
  function Course(first: Event): seq<Event> {
    [first, BodyBegins, BodyEnds, Unlocked, Returned]
  }

  /** How far along its course a call is. */
  function Progress(w: Waiter): nat {
    match w
    case Waiting => 1
    case Entering => 1
    case InBody => 2
    case Unlocking => 3
    case Returning => 4
    case Finished => 5
    case Signalling(_) => 1
  }

  predicate Ended(e: Event) { e == Acquired || e == Panicked }

  /** The histories of a call that gave up: the lock attempt may still end, before or after. */
  predicate GaveUp(log: seq<Event>, why: Verdict) {
    || log == [Failed(why)]
    || (|log| == 2 && ((Ended(log[0]) && log[1] == Failed(why)) || (log[0] == Failed(why) && Ended(log[1]))))
  }

  ghost predicate Inv(s: State) {
    && s.done <= 1 && s.timeFault <= 1
    && (s.done == 1 ==> s.worker.Gone?)
    && (s.worker.Polling? || s.worker.Trying? ==>
          s.done == 0 && (s.waiter.Waiting? || s.waiter.Signalling? || s.waiter.Finished?))
    && (s.timeFault == 1 ==> s.waiter.Finished?)
    && match s.waiter
       case Waiting =>
         && s.timeFault == 0
         && (if s.worker.Polling? || s.worker.Trying? then s.log == [] else |s.log| == 1 && Ended(s.log[0]))
         && (s.worker.Gone? ==> s.done == 1)
       case Signalling(_) =>
         && s.timeFault == 0
         && (if s.worker.Polling? || s.worker.Trying? then s.log == [] else |s.log| == 1 && Ended(s.log[0]))
       case Finished =>
         || (s.worker.Gone? && exists first :: Ended(first) && s.log == Course(first))
         || (exists why :: GaveUp(s.log, why) &&
              (s.worker.Polling? || s.worker.Trying? ==> s.log == [Failed(why)]))
       case _ =>
         s.worker.Gone? && s.done == 0 && exists first :: Ended(first) && s.log == Course(first)[..Progress(s.waiter)]
  }

  lemma WaitingKeeps(s: State, a: Action)
    requires Inv(s) && s.waiter.Waiting?
    ensures Inv(Step(s, a))
  {
    if a == ReceiveDone && s.done > 0 { assert s.log == Course(s.log[0])[..1]; }
  }

  lemma SignallingKeeps(s: State, a: Action)
    requires Inv(s) && s.waiter.Signalling?
    ensures Inv(Step(s, a))
  {
    if a == SendFault { assert GaveUp(Step(s, a).log, s.waiter.why); }
  }

  lemma FinishedKeeps(s: State, a: Action)
    requires Inv(s) && s.waiter.Finished?
    ensures Inv(Step(s, a))
  {
    if !(s.worker.Gone? && exists first :: Ended(first) && s.log == Course(first)) {
      var why :| GaveUp(s.log, why) && (s.worker.Polling? || s.worker.Trying? ==> s.log == [Failed(why)]);
      assert GaveUp(Step(s, a).log, why);
    }
  }

  lemma StepKeeps(s: State, a: Action)
    requires Inv(s)
    ensures Inv(Step(s, a))
  {
    match s.waiter
    case Waiting => WaitingKeeps(s, a);
    case Signalling(_) => SignallingKeeps(s, a);
    case Finished => FinishedKeeps(s, a);
    case _ =>
      var first :| Ended(first) && s.log == Course(first)[..Progress(s.waiter)];
      assert Step(s, a).log == Course(first)[..Progress(Step(s, a).waiter)];
      assert Course(first)[..5] == Course(first);
  }

  lemma {:induction false} RunKeeps(s: State, actions: seq<Action>)
    requires Inv(s)
    ensures Inv(Run(s, actions))
    decreases |actions|
  {
    if actions != [] {
      StepKeeps(s, actions[0]);
      RunKeeps(Step(s, actions[0]), actions[1..]);
    }
  }

  /** A worker that is not inside an attempt when the caller has given up finds the signal. */
  ghost predicate Signalled(s: State) {
    s.waiter.Finished? && (s.worker.Polling? || s.worker.Trying?) ==> s.timeFault == 1
  }

  lemma SignalledStep(s: State, a: Action)
    requires Inv(s) && Signalled(s)
    ensures Signalled(Step(s, a))
  {
  }

  lemma {:induction false} SignalledRun(s: State, actions: seq<Action>)
    requires Inv(s) && Signalled(s)
    ensures Inv(Run(s, actions)) && Signalled(Run(s, actions))
    decreases |actions|
  {
    if actions != [] {
      StepKeeps(s, actions[0]);
      SignalledStep(s, actions[0]);
      SignalledRun(Step(s, actions[0]), actions[1..]);
    }
  }

  predicate Quits(s: State) {
    s.waiter.Finished? && ((s.worker.Polling? && s.timeFault == 1) || s.worker.Leaving? || s.worker.Gone?)
  }

  lemma {:induction false} NoMoreAttempts(s: State, actions: seq<Action>)
    requires Quits(s)
    ensures Quits(Run(s, actions)) && Run(s, actions).log == s.log
    decreases |actions|
  {
    if actions != [] { NoMoreAttempts(Step(s, actions[0]), actions[1..]); }
  }

  lemma {:induction false} LogGrows(s: State, actions: seq<Action>)
    ensures s.log <= Run(s, actions).log
    decreases |actions|
  {
    if actions != [] { LogGrows(Step(s, actions[0]), actions[1..]); }
  }

  /** In every schedule: once the call has failed and no attempt is under way, the worker makes no other one
      and the history is final: nothing is acquired any more. */
  lemma GivesUpForGood(before: seq<Action>, after: seq<Action>)
    requires Run(Init(), before).waiter.Finished?
    ensures var s, s' := Run(Init(), before), Run(Run(Init(), before), after);
            s.log <= s'.log && (!s.worker.Trying? ==> s'.log == s.log && !s'.worker.Trying?)
  {
    var s := Run(Init(), before);
    SignalledRun(Init(), before);
    LogGrows(s, after);
    if !s.worker.Trying? { NoMoreAttempts(s, after); }
  }

  lemma {:induction false} RunConcat(s: State, a: seq<Action>, b: seq<Action>)
    ensures Run(s, a + b) == Run(Run(s, a), b)
    decreases |a|
  {
    if a == [] {
      assert a + b == b;
    } else {
      assert (a + b)[1..] == a[1..] + b;
      RunConcat(Step(s, a[0]), a[1..], b);
    }
  }

  lemma RunThree(s: State, x: Action, y: Action, z: Action)
    ensures Run(s, [x, y, z]) == Step(Step(Step(s, x), y), z)
  {
    var s1, s2 := Step(s, x), Step(Step(s, x), y);
    assert [x, y, z][1..] == [y, z] && [y, z][1..] == [z] && [z][1..] == [];
    assert Run(s2, [z]) == Run(Step(s2, z), []);
    assert Run(s1, [y, z]) == Run(s2, [z]);
  }

  const SIGNAL := [ReceiveDone, Expire(TimedOut), SendFault]
  const BODY := [Enter, Leave, Unlock, Return]
  const LAST := [TryFails, Poll, SendDone]

  /** A caller that has received `done` has the body, the unlock and the return before it. */
  lemma CallerEnds(s: State)
    requires Inv(s) && !s.waiter.Waiting? && !s.waiter.Signalling?
    ensures var s' := Run(s, BODY);
            && Inv(s') && s'.waiter.Finished? && s'.worker == s.worker
            && (s.waiter.Finished? || exists first :: Ended(first) && s'.log == Course(first))
  {
    RunKeeps(s, BODY);
    RunConcat(s, [Enter, Leave, Unlock], [Return]);
    assert [Enter, Leave, Unlock] + [Return] == BODY;
    RunThree(s, Enter, Leave, Unlock);
    var s3 := Run(s, [Enter, Leave, Unlock]);
    assert Run(s3, [Return]) == Step(s3, Return);
  }

  lemma WaitEnds(s: State)
    requires Inv(s) && Signalled(s)
    ensures var s' := Run(s, SIGNAL);
            && Inv(s') && Signalled(s') && !s'.waiter.Waiting? && !s'.waiter.Signalling?
            && (s.done == 1 && s.waiter.Waiting? ==> s'.waiter.Entering?)
  {
    SignalledRun(s, SIGNAL);
    RunThree(s, ReceiveDone, Expire(TimedOut), SendFault);
  }

  lemma WorkerEnds(s: State)
    requires Inv(s) && Signalled(s) && s.waiter.Finished?
    ensures Run(s, LAST).waiter.Finished? && Run(s, LAST).worker.Gone?
  {
    RunThree(s, TryFails, Poll, SendDone);
  }

  /** Nobody gets stuck: from every reachable state the call can come to its end and its worker to its own,
      and a call that has received `done` runs the body, unlocks and returns. */
  lemma CallEnds(before: seq<Action>)
    ensures var s := Run(Init(), before);
            var s' := Run(Run(Run(s, SIGNAL), BODY), LAST);
            s'.waiter.Finished? && s'.worker.Gone? && (s.done == 1 && s.waiter.Waiting? ==> Returned in s'.log)
  {
    var s := Run(Init(), before);
    SignalledRun(Init(), before);
    WaitEnds(s);
    var s1 := Run(s, SIGNAL);
    CallerEnds(s1);
    SignalledRun(s1, BODY);
    var s2 := Run(s1, BODY);
    WorkerEnds(s2);
    if s.done == 1 && s.waiter.Waiting? {
      var first :| Ended(first) && s2.log == Course(first);
      assert Course(first)[4] == Returned;
      LogGrows(s2, LAST);
    }
  }

  /** Every history of a call, in every interleaving: either a prefix of one course (the worker's end,
      the body once, one unlock, the return), or the call fails and the body never runs. */
  lemma Histories(actions: seq<Action>)
    ensures var log := Run(Init(), actions).log;
            || (exists first :: Ended(first) && log <= Course(first))
            || (exists why :: GaveUp(log, why))
  {
    RunKeeps(Init(), actions);
    var s := Run(Init(), actions);
    if s.log == [] { assert Ended(Acquired) && s.log <= Course(Acquired); }
    else if s.waiter.Waiting? || s.waiter.Signalling? { assert s.log <= Course(s.log[0]); }
  }

  lemma {:induction false} NoPanic(s: State, actions: seq<Action>)
    requires Panicked !in s.log && TryPanics !in actions
    ensures Panicked !in Run(s, actions).log
    decreases |actions|
  {
    if actions != [] { NoPanic(Step(s, actions[0]), actions[1..]); }
  }

  lemma FirstEvent(log: seq<Event>, first: Event)
    requires Ended(first) && log <= Course(first) && log != []
    ensures log[0] == first && (first == Acquired <==> Panicked !in log)
    ensures forall i :: 0 <= i < |log| ==> log[i] == Course(first)[i]
  {
    assert Panicked !in Course(Acquired);
    forall i | 0 <= i < |log| ensures log[i] == Course(first)[i] && log[i] in Course(first) {}
  }

  /** The body runs at most once, right after the worker's end and before the single unlock, and never in a
      call that fails; it runs under the lock if and only if no attempt panicked. */
  ghost predicate BodyOk(log: seq<Event>) {
    && (forall i :: 0 <= i < |log| && log[i] == BodyBegins ==>
          i == 1 && Ended(log[0]) && (log[0] == Acquired <==> Panicked !in log))
    && (forall i :: 0 <= i < |log| && log[i] == Unlocked ==>
          i == 3 && log[2] == BodyEnds && (log[0] == Acquired <==> Panicked !in log))
    && (forall i :: 0 <= i < |log| && log[i].Failed? ==> BodyBegins !in log && Unlocked !in log)
    && (Returned in log ==> log == Course(if Panicked in log then Panicked else Acquired))
  }

  lemma CourseOk(log: seq<Event>, first: Event)
    requires Ended(first) && log <= Course(first)
    ensures BodyOk(log)
  {
    if log != [] { FirstEvent(log, first); }
  }

  lemma GaveUpOk(log: seq<Event>, why: Verdict)
    requires GaveUp(log, why)
    ensures BodyOk(log)
  {
  }

  /** So it is in every schedule, and without a panicking attempt the body runs only under this call's own
      lock. */
  lemma BodyOnlyUnderLock(actions: seq<Action>)
    ensures BodyOk(Run(Init(), actions).log)
    ensures TryPanics !in actions ==> Panicked !in Run(Init(), actions).log
  {
    Histories(actions);
    if TryPanics !in actions { NoPanic(Init(), actions); }
    var log := Run(Init(), actions).log;
    if first :| Ended(first) && log <= Course(first) {
      CourseOk(log, first);
    } else {
      var why :| GaveUp(log, why);
      GaveUpOk(log, why);
    }
  }

  /** A panicking lock attempt sends `done` too: the body then runs without the lock. */
  lemma PanicRunsBodyUnlocked()
    ensures Run(Init(), [Poll, TryPanics, SendDone, ReceiveDone, Enter]).log == [Panicked, BodyBegins]
  {
    var s1 := Step(Step(Init(), Poll), TryPanics);
    var s2 := Step(Step(s1, SendDone), ReceiveDone);
    assert Run(s2, [Enter]) == Run(Step(s2, Enter), []);
    assert Run(s1, [SendDone, ReceiveDone, Enter]) == Run(Step(s1, SendDone), [ReceiveDone, Enter]);
    assert Run(Step(s1, SendDone), [ReceiveDone, Enter]) == Run(s2, [Enter]);
    assert Run(Step(Init(), Poll), [TryPanics, SendDone, ReceiveDone, Enter])
        == Run(s1, [SendDone, ReceiveDone, Enter]);
  }

  /** Conservation: when both parties are done the lock is left held if and only if the call failed and
      its worker had acquired it, before or after the failure was reported. */
  lemma LeakExactly(actions: seq<Action>)
    requires Run(Init(), actions).worker.Gone? && Run(Init(), actions).waiter.Finished?
    ensures var log := Run(Init(), actions).log;
            && ((Acquired in log && Unlocked !in log) <==> (Acquired in log && exists why :: Failed(why) in log))
            && (Unlocked in log ==> (Acquired in log <==> Panicked !in log))
            && (forall i, j :: 0 <= i < j < |log| ==> log[i] != log[j])
  {
    RunKeeps(Init(), actions);
    var log := Run(Init(), actions).log;
    if first :| Ended(first) && log == Course(first) {
      FirstEvent(log, first);
      assert Acquired in log <==> first == Acquired;
    } else {
      var why :| GaveUp(log, why);
      if |log| == 2 {
        assert log == [log[0], log[1]];
        assert Failed(why) in log;
      } else {
        assert log == [Failed(why)];
      }
    }
  }

  /** The leak happens: the timer fires while a lock attempt is under way. */
  lemma LeakHappens()
    ensures var s := Run(Init(), [Poll, Expire(TimedOut), SendFault, TrySucceeds, SendDone]);
            s.worker.Gone? && s.waiter.Finished? && s.log == [Failed(TimedOut), Acquired]
  {
    var s1 := Step(Step(Init(), Poll), Expire(TimedOut));
    var s2 := Step(Step(s1, SendFault), TrySucceeds);
    assert Run(s2, [SendDone]) == Run(Step(s2, SendDone), []);
    assert Run(Step(s1, SendFault), [TrySucceeds, SendDone]) == Run(s2, [SendDone]);
    assert Run(s1, [SendFault, TrySucceeds, SendDone]) == Run(Step(s1, SendFault), [TrySucceeds, SendDone]);
    assert Run(Step(Init(), Poll), [Expire(TimedOut), SendFault, TrySucceeds, SendDone])
        == Run(s1, [SendFault, TrySucceeds, SendDone]);
  }
}
