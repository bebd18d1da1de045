/** The reentrant Redis lock: two Lua scripts over one hash with a time to live.

    `Redis` executes the commands the scripts call; its script methods are proved against the step
    functions, and the lock's promises are proved of every run of those steps by any clients. */
module RedisLock {
  import opened Options

  /** The hash under the lock key: its two fields and its absolute expiry in milliseconds. */
  datatype Rec = Rec(holder: string, count: int, expireAt: Option<int>)

  datatype State = State(now: int, rec: Option<Rec>)

  /** An expired key does not exist. */
  function Visible(s: State): Option<Rec> {
    if s.rec.Some? && s.rec.value.expireAt.Some? && s.rec.value.expireAt.value <= s.now then None else s.rec
  }

  // ---------------------------------------------------------------------------------------------
  // The scripts as steps
  // ---------------------------------------------------------------------------------------------

  /** PEXPIRE with a time to live that is not positive removes the key. */
  function Expiring(s: State, r: Rec, ttl: int): State {
    s.(rec := if ttl <= 0 then None else Some(r.(expireAt := Some(s.now + ttl))))
  }

  function LockStep(s: State, h: string, ttl: int): (State, bool) {
    match Visible(s)
    case None => (Expiring(s, Rec(h, 1, None), ttl), true)
    case Some(r) =>
      if r.holder != h then (s, false)
      else if r.expireAt.None? then (Expiring(s, Rec(h, 1, None), ttl), true)
      else (Expiring(s, r.(count := r.count + 1), ttl + (r.expireAt.value - s.now)), true)
  }

  function UnlockStep(s: State, h: string): (State, bool) {
    match Visible(s)
    case None => (s, false)
    case Some(r) =>
      if r.holder != h then (s, false)
      else if r.count - 1 <= 0 then (s.(rec := None), true)
      else (s.(rec := Some(r.(count := r.count - 1))), true)
  }

  /** A lock succeeds exactly on a key that is free or the caller's, an unlock exactly on one that is the
      caller's; a call that does not succeed changes nothing. */
  lemma RepliesExactly(s: State, h: string, ttl: int)
    ensures LockStep(s, h, ttl).1 <==> Visible(s).None? || Visible(s).value.holder == h
    ensures UnlockStep(s, h).1 <==> Visible(s).Some? && Visible(s).value.holder == h
    ensures !LockStep(s, h, ttl).1 ==> LockStep(s, h, ttl).0 == s
    ensures !UnlockStep(s, h).1 ==> UnlockStep(s, h).0 == s
  {
  }

  class Redis {
    var now: int
    var rec: Option<Rec>

    function Abs(): State
      reads this
    {
      State(now, rec)
    }

    constructor (now: int)
      ensures Abs() == State(now, None)
    {
      this.now := now;
      rec := None;
    }

    method Exists() returns (n: int)
      ensures n == if Visible(Abs()).Some? then 1 else 0
    {
      n := if Visible(Abs()).Some? then 1 else 0;
    }

    method HGetHolder() returns (h: Option<string>)
      ensures h == if Visible(Abs()).Some? then Some(Visible(Abs()).value.holder) else None
    {
      h := if Visible(Abs()).Some? then Some(Visible(Abs()).value.holder) else None;
    }

    /** -2 without a key, -1 without an expiry. */
    method PTtl() returns (ms: int)
      ensures ms == match Visible(Abs())
                    case None => -2
                    case Some(r) => if r.expireAt.None? then -1 else r.expireAt.value - now
    {
      var v := Visible(Abs());
      if v.None? { return -2; }
      if v.value.expireAt.None? { return -1; }
      return v.value.expireAt.value - now;
    }

    method HMSet(count: int, h: string)
      modifies this`rec
      ensures rec == Some(Rec(h, count, if old(Visible(Abs())).Some? then old(Visible(Abs())).value.expireAt else None))
    {
      var v := Visible(Abs());
      rec := Some(Rec(h, count, if v.Some? then v.value.expireAt else None));
    }

    method HIncrBy(delta: int) returns (n: int)
      requires Visible(Abs()).Some?
      modifies this`rec
      ensures n == old(rec).value.count + delta
      ensures rec == Some(old(rec).value.(count := n))
    {
      n := rec.value.count + delta;
      rec := Some(rec.value.(count := n));
    }

    method PExpire(ms: int)
      requires Visible(Abs()).Some?
      modifies this`rec
      ensures Abs() == Expiring(old(Abs()), old(rec).value, ms)
    {
      rec := if ms <= 0 then None else Some(rec.value.(expireAt := Some(now + ms)));
    }

    method Del()
      modifies this`rec
      ensures rec == None
    {
      rec := None;
    }

    /** redisLuaLockCommand: nil is `ok == false`. */
    method LockScript(h: string, ttl: int) returns (ok: bool)
      modifies this`rec
      ensures (Abs(), ok) == LockStep(old(Abs()), h, ttl)
    {
      var present := Exists();
      var holder := HGetHolder();
      if present == 0 || holder == Some(h) {
        var expired := PTtl();
        if expired == -1 || expired == -2 {
          HMSet(1, h);
          PExpire(ttl);
          return true;
        } else {
          var _ := HIncrBy(1);
          PExpire(ttl + expired);
          return true;
        }
      } else {
        return false;
      }
    }

    /** redisLuaUnlockCommand. */
    method UnlockScript(h: string) returns (ok: bool)
      modifies this`rec
      ensures (Abs(), ok) == UnlockStep(old(Abs()), h)
    {
      var holder := HGetHolder();
      if holder == Some(h) {
        var count := HIncrBy(-1);
        if count <= 0 {
          Del();
        }
        return true;
      } else {
        return false;
      }
    }
  }

  // ---------------------------------------------------------------------------------------------
  // Runs
  // ---------------------------------------------------------------------------------------------

  /** redisLuaLocker.Lock: the expiry option in nanoseconds, 2000 ms by default, sent in whole milliseconds. */
  function Millis(expired: int): (ms: nat)
    ensures expired > 0 ==> ms * 1000000 <= expired < (ms + 1) * 1000000
    ensures expired <= 0 ==> ms == 2000
    ensures ms >= 1 <==> expired <= 0 || expired >= 1000000
  {
    (if expired > 0 then expired else 2000 * 1000000) / 1000000
  }

  datatype Action = Tick(dt: nat) | Lock(h: string, expired: int) | Unlock(h: string)

  function Step(s: State, a: Action): (State, bool) {
    match a
    case Tick(dt) => (s.(now := s.now + dt), true)
    case Lock(h, expired) => LockStep(s, h, Millis(expired))
    case Unlock(h) => UnlockStep(s, h)
  }

  function Run(s: State, actions: seq<Action>): State
    decreases |actions|
  {
    if actions == [] then s else Run(Step(s, actions[0]).0, actions[1..])
  }

  /** Every existing key has a positive count and a finite expiry. */
  ghost predicate Sane(s: State) {
    s.rec.Some? ==> s.rec.value.count >= 1 && s.rec.value.expireAt.Some?
  }

  /** In every run of any clients an existing key has count at least 1 and an expiry, so the branch
      of the lock script that resets a key without expiry is never taken. */
  lemma {:induction false} AlwaysSane(s: State, actions: seq<Action>)
    requires Sane(s)
    ensures Sane(Run(s, actions))
    decreases |actions|
  {
    if actions != [] { AlwaysSane(Step(s, actions[0]).0, actions[1..]); }
  }

  // A tenure: what the lock promises, from the schedule alone.

  datatype Tenure = Active(count: int, deadline: int, now: int) | Ended

  /** Only the holder's calls and the clock move a tenure. */
  function TenureStep(t: Tenure, h: string, a: Action): Tenure {
    if t.Ended? then Ended
    else
      var t' := match a
                case Tick(dt) => t.(now := t.now + dt)
                case Lock(g, expired) =>
                  if g == h then t.(count := t.count + 1, deadline := t.deadline + Millis(expired)) else t
                case Unlock(g) => if g == h then t.(count := t.count - 1) else t;
      if t'.count <= 0 || t'.deadline <= t'.now then Ended else t'
  }

  function TenureRun(t: Tenure, h: string, actions: seq<Action>): Tenure
    decreases |actions|
  {
    if actions == [] then t else TenureRun(TenureStep(t, h, actions[0]), h, actions[1..])
  }

  /** The record is the tenure's. */
  predicate Records(s: State, h: string, t: Tenure) {
    match t
    case Active(count, deadline, now) =>
      s.now == now && count >= 1 && now < deadline && s.rec == Some(Rec(h, count, Some(deadline)))
    case Ended => Visible(s).None?
  }

  /** One step of a tenure: the holder's calls succeed, other holders' calls fail and change nothing,
      and the record is removed exactly when the tenure ends. */
  lemma TenureStepExact(s: State, h: string, t: Tenure, a: Action)
    requires t.Active? && Records(s, h, t)
    ensures Records(Step(s, a).0, h, TenureStep(t, h, a))
    ensures !a.Tick? && a.h == h ==> Step(s, a).1
    ensures !a.Tick? && a.h != h ==> Step(s, a) == (s, false)
  {
  }

  /** Mutual exclusion and the ledger over whole runs: as long as the holder's balance stays positive and
      the clock stays below the extended deadline, which only the schedule decides, the record is the
      holder's with that balance and deadline, and every call by another holder fails without effect;
      when the balance reaches zero or the clock the deadline, the key is gone. */
  lemma {:induction false} MutualExclusion(s: State, h: string, t: Tenure, before: seq<Action>, a: Action)
    requires t.Active? && Records(s, h, t) && TenureRun(t, h, before).Active?
    ensures Records(Run(s, before), h, TenureRun(t, h, before))
    ensures Records(Step(Run(s, before), a).0, h, TenureStep(TenureRun(t, h, before), h, a))
    ensures !a.Tick? && a.h != h ==> Step(Run(s, before), a) == (Run(s, before), false)
    decreases |before|
  {
    TenureStepExact(s, h, t, a);
    if before != [] {
      EndedStays(TenureStep(t, h, before[0]), h, before[1..]);
      TenureStepExact(s, h, t, before[0]);
      MutualExclusion(Step(s, before[0]).0, h, TenureStep(t, h, before[0]), before[1..], a);
    }
  }

  lemma {:induction false} EndedStays(t: Tenure, h: string, actions: seq<Action>)
    ensures t.Ended? ==> TenureRun(t, h, actions).Ended?
    decreases |actions|
  {
    if actions != [] { EndedStays(TenureStep(t, h, actions[0]), h, actions[1..]); }
  }

  function Locks(h: string, actions: seq<Action>): nat
    decreases |actions|
  {
    if actions == [] then 0
    else (if actions[0].Lock? && actions[0].h == h then 1 else 0) + Locks(h, actions[1..])
  }

  function Unlocks(h: string, actions: seq<Action>): nat
    decreases |actions|
  {
    if actions == [] then 0
    else (if actions[0].Unlock? && actions[0].h == h then 1 else 0) + Unlocks(h, actions[1..])
  }

  function Extended(h: string, actions: seq<Action>): nat
    decreases |actions|
  {
    if actions == [] then 0
    else (if actions[0].Lock? && actions[0].h == h then Millis(actions[0].expired) else 0) + Extended(h, actions[1..])
  }

  /** While a tenure lasts its count is acquisitions minus releases and its deadline the sum of all
      acquisition lengths, whenever the acquisitions happened. */
  lemma {:induction false} LedgerSums(t: Tenure, h: string, actions: seq<Action>)
    requires t.Active? && TenureRun(t, h, actions).Active?
    ensures TenureRun(t, h, actions).count == t.count + Locks(h, actions) - Unlocks(h, actions)
    ensures TenureRun(t, h, actions).deadline == t.deadline + Extended(h, actions)
    decreases |actions|
  {
    if actions != [] {
      EndedStays(TenureStep(t, h, actions[0]), h, actions[1..]);
      LedgerSums(TenureStep(t, h, actions[0]), h, actions[1..]);
    }
  }

  /** The time a client asks for, in nanoseconds: two seconds if it does not say. */
  function Asked(expired: int): nat { if expired > 0 then expired else 2_000_000_000 }

  function AskedInAll(h: string, actions: seq<Action>): nat
    decreases |actions|
  {
    if actions == [] then 0
    else (if actions[0].Lock? && actions[0].h == h then Asked(actions[0].expired) else 0) + AskedInAll(h, actions[1..])
  }

  /** The milliseconds granted fall short of the nanoseconds asked for by less than one for each
      acquisition. */
  lemma {:induction false} GrantedTime(h: string, actions: seq<Action>)
    ensures Extended(h, actions) * 1000000 <= AskedInAll(h, actions)
    ensures AskedInAll(h, actions) <= (Extended(h, actions) + Locks(h, actions)) * 1000000
    ensures Locks(h, actions) > 0 ==> AskedInAll(h, actions) < (Extended(h, actions) + Locks(h, actions)) * 1000000
    decreases |actions|
  {
    if actions != [] { GrantedTime(h, actions[1..]); }
  }

  /** From a free key: n acquisitions by h since t0 and m releases leave count n - m and expiry t0 plus
      the sum of the n lengths. */
  lemma Ledger(s: State, h: string, expired: int, actions: seq<Action>)
    requires Visible(s).None? && Millis(expired) >= 1
    requires TenureRun(Active(1, s.now + Millis(expired), s.now), h, actions).Active?
    ensures var s' := Run(s, [Lock(h, expired)] + actions);
            && s'.rec == Some(Rec(h, 1 + Locks(h, actions) - Unlocks(h, actions),
                                  Some(s.now + Millis(expired) + Extended(h, actions))))
            && s'.now < s.now + Millis(expired) + Extended(h, actions)
  {
    var t := Active(1, s.now + Millis(expired), s.now);
    var s1 := Step(s, Lock(h, expired)).0;
    assert ([Lock(h, expired)] + actions)[1..] == actions;
    assert Records(s1, h, t);
    MutualExclusion(s1, h, t, actions, Tick(0));
    LedgerSums(t, h, actions);
  }

  /** From a free key at t0, while the tenure lasts: the lock is held by h, with one count for every
      acquisition not released, until a time that falls short of t0 plus all the time asked for by less than
      one millisecond for each acquisition. */
  lemma HeldAsAsked(s: State, h: string, expired: int, actions: seq<Action>)
    requires Visible(s).None? && (expired <= 0 || expired >= 1000000)
    requires TenureRun(Active(1, s.now + Millis(expired), s.now), h, actions).Active?
    ensures var s', all := Run(s, [Lock(h, expired)] + actions), [Lock(h, expired)] + actions;
            && s'.rec.Some? && s'.rec.value.expireAt.Some? && s'.rec.value.holder == h
            && s'.rec.value.count == Locks(h, all) - Unlocks(h, all) && s'.now < s'.rec.value.expireAt.value
            && var held := (s'.rec.value.expireAt.value - s.now) * 1000000;
               AskedInAll(h, all) - Locks(h, all) * 1000000 < held <= AskedInAll(h, all)
  {
    var all := [Lock(h, expired)] + actions;
    assert all[1..] == actions;
    Ledger(s, h, expired, actions);
    GrantedTime(h, all);
  }

  /** A lock taken on a free key keeps another holder out if and only if its expiry is at least one
      millisecond (or left to the default): a shorter one is rounded to zero and removes the key at once. */
  lemma FreshLockExcludes(s: State, h: string, expired: int, g: string, expired': int)
    requires Visible(s).None? && g != h
    ensures Step(s, Lock(h, expired)).1
    ensures Step(Step(s, Lock(h, expired)).0, Lock(g, expired')).1 <==> (0 < expired < 1000000)
  {
    assert Millis(expired) >= 1 <==> !(0 < expired < 1000000);
  }
}
