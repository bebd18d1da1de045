/** The MongoDB lock: one document per lock key, taken by an upsert and released in two steps.

    Lock, the decrement of Unlock, the conditional delete of Unlock and the TTL monitor are atomic on
    the server and interleave freely.  Clients read their own clocks, so the times in the steps are
    arbitrary; nothing proved here depends on clocks agreeing. */
module MongoLock {
  import opened Options

  datatype Doc = Doc(holder: string, count: int, expiresAt: int)

  /** Locked: the caller holds the lock.  Busy: ErrTimeout, an expired document of somebody else was
      updated.  Duplicate: the unique index refused the upsert.  NotFound: no document matched. */
  datatype Reply = Locked | Busy | Duplicate | NotFound | Decremented(count: int)

  function Max(a: int, b: int): int { if a < b then b else a }

  // ---------------------------------------------------------------------------------------------
  // The operations as steps on the document of one lock key
  // ---------------------------------------------------------------------------------------------

  function LockStep(doc: Option<Doc>, c: string, now: int, expired: int): (Option<Doc>, Reply) {
    if doc.None? then (Some(Doc(c, 1, now + expired)), Locked)
    else if doc.value.expiresAt < now || doc.value.holder == c then
      (Some(doc.value.(count := doc.value.count + 1, expiresAt := Max(doc.value.expiresAt, now + expired))),
       if doc.value.holder == c then Locked else Busy)
    else (doc, Duplicate)
  }

  function DecrementStep(doc: Option<Doc>, c: string, until: int): (Option<Doc>, Reply) {
    if doc.Some? && doc.value.holder == c && doc.value.count > 0 then
      (Some(doc.value.(count := doc.value.count - 1, expiresAt := Max(doc.value.expiresAt, until))),
       Decremented(doc.value.count - 1))
    else (doc, NotFound)
  }

  function DeleteStep(doc: Option<Doc>, c: string): Option<Doc> {
    if doc.Some? && doc.value.holder == c && doc.value.count <= 0 then None else doc
  }

  function TtlStep(doc: Option<Doc>, now: int): Option<Doc> {
    if doc.Some? && doc.value.expiresAt <= now then None else doc
  }

  /** The collection, and the two calls of the locker as sequences of server operations. */
  class Collection {
    var docs: map<string, Doc>

    function At(key: string): Option<Doc>
      reads this
    {
      if key in docs then Some(docs[key]) else None
    }

    constructor ()
      ensures docs == map[]
    {
      docs := map[];
    }

    /** FindOneAndUpdate with upsert: the filter is the key and (expired or held by the caller). */
    method Lock(key: string, c: string, now: int, expired: int) returns (r: Reply)
      modifies this
      ensures (At(key), r) == LockStep(old(At(key)), c, now, expired)
      ensures forall k :: k != key ==> At(k) == old(At(k))
    {
      if key in docs && (docs[key].expiresAt < now || docs[key].holder == c) {
        var d := docs[key];
        d := d.(count := d.count + 1, expiresAt := Max(d.expiresAt, now + expired));
        docs := docs[key := d];
        r := if d.holder == c then Locked else Busy;
      } else if key in docs {
        r := Duplicate;
      } else {
        docs := docs[key := Doc(c, 1, now + expired)];
        r := Locked;
      }
    }

    method Decrement(key: string, c: string, until: int) returns (r: Reply)
      modifies this
      ensures (At(key), r) == DecrementStep(old(At(key)), c, until)
      ensures forall k :: k != key ==> At(k) == old(At(k))
    {
      if key in docs && docs[key].holder == c && docs[key].count > 0 {
        var d := docs[key];
        d := d.(count := d.count - 1, expiresAt := Max(d.expiresAt, until));
        docs := docs[key := d];
        r := Decremented(d.count);
      } else {
        r := NotFound;
      }
    }

    method DeleteReleased(key: string, c: string)
      modifies this
      ensures At(key) == DeleteStep(old(At(key)), c)
      ensures forall k :: k != key ==> At(k) == old(At(k))
    {
      if key in docs && docs[key].holder == c && docs[key].count <= 0 {
        docs := docs - {key};
      }
    }

    /** Unlock when nothing interleaves: the last release removes the document. */
    method Unlock(key: string, c: string, until: int) returns (r: Reply)
      modifies this
      ensures var (d, reply) := DecrementStep(old(At(key)), c, until);
              r == reply && At(key) == if r.Decremented? && r.count <= 0 then DeleteStep(d, c) else d
      ensures forall k :: k != key ==> At(k) == old(At(k))
    {
      r := Decrement(key, c, until);
      if r.Decremented? && r.count <= 0 {
        DeleteReleased(key, c);
      }
    }
  }

  // ---------------------------------------------------------------------------------------------
  // Runs: any interleaving of the steps by any clients
  // ---------------------------------------------------------------------------------------------

  /** The document of one key with the history of its current incarnation: successful acquisitions and
      releases by its holder, increments by others that found it expired; and the clients that are
      between the two steps of an Unlock. */
  datatype State = State(doc: Option<Doc>, acquired: nat, released: nat, foreign: nat, deleting: multiset<string>)

  datatype Action =
    | Lock(c: string, now: int, expired: int)
    | Decrement(c: string, until: int)
    | Delete(c: string)
    | Ttl(now: int)

  function Init(): State { State(None, 0, 0, 0, multiset{}) }

  function Step(s: State, a: Action): State {
    match a
    case Lock(c, now, expired) =>
      var (doc, r) := LockStep(s.doc, c, now, expired);
      if s.doc.None? then State(doc, 1, 0, 0, s.deleting)
      else s.(doc := doc,
              acquired := s.acquired + (if r == Locked then 1 else 0),
              foreign := s.foreign + (if r == Busy then 1 else 0))
    case Decrement(c, until) =>
      var (doc, r) := DecrementStep(s.doc, c, until);
      if !r.Decremented? then s
      else s.(doc := doc, released := s.released + 1,
              deleting := if r.count <= 0 then s.deleting + multiset{c} else s.deleting)
    case Delete(c) =>
      if c !in s.deleting then s
      else s.(doc := DeleteStep(s.doc, c), deleting := s.deleting - multiset{c})
    case Ttl(now) => s.(doc := TtlStep(s.doc, now))
  }

  function Run(s: State, actions: seq<Action>): State
    decreases |actions|
  {
    if actions == [] then s else Run(Step(s, actions[0]), actions[1..])
  }

  /** Acquisitions of the document's holder that have not been released. */
  function Outstanding(s: State): int { s.acquired - s.released }

  ghost predicate Inv(s: State) {
    s.doc.Some? ==>
      && s.doc.value.count == s.acquired + s.foreign - s.released
      && s.doc.value.count >= 0
  }

  lemma StepKeeps(s: State, a: Action)
    requires Inv(s)
    ensures Inv(Step(s, a))
  {
  }

  lemma {:induction false} RunKeeps(s: State, actions: seq<Action>)
    requires Inv(s)
    ensures Inv(Run(s, actions))
    decreases |actions|
  {
    if actions != [] {
      StepKeeps(s, actions[0]);
      RunKeeps(Step(s, actions[0]), actions[1..]);
    }
  }

  /** In every interleaving, and at every next step: the count is never negative nor below the holder's
      outstanding acquisitions; the holder of a document never changes while it exists; only its holder
      can lock it; the delete step removes it only when nothing is outstanding. */
  lemma LockSafety(actions: seq<Action>, a: Action)
    ensures var s, s' := Run(Init(), actions), Step(Run(Init(), actions), a);
            && (s.doc.Some? ==> s.doc.value.count >= 0 && s.doc.value.count >= Outstanding(s))
            && (s.doc.Some? && s'.doc.Some? ==> s'.doc.value.holder == s.doc.value.holder)
            && (s.doc.Some? && a.Lock? ==>
                  (LockStep(s.doc, a.c, a.now, a.expired).1 == Locked <==> a.c == s.doc.value.holder))
            && (s.doc.Some? && a.Delete? && s'.doc.None? ==> Outstanding(s) <= 0)
            && (s.doc.Some? && s'.doc.None? ==> (a.Delete? && a.c == s.doc.value.holder) || a.Ttl?)
            && (s.doc.Some? && a.Ttl? ==> (s'.doc.None? <==> s.doc.value.expiresAt <= a.now))
  {
    RunKeeps(Init(), actions);
  }

  function Locks(h: string, actions: seq<Action>): nat
    decreases |actions|
  {
    if actions == [] then 0
    else (if actions[0].Lock? && actions[0].c == h then 1 else 0) + Locks(h, actions[1..])
  }

  function Decrements(h: string, actions: seq<Action>): nat
    decreases |actions|
  {
    if actions == [] then 0
    else (if actions[0].Decrement? && actions[0].c == h then 1 else 0) + Decrements(h, actions[1..])
  }

  /** No prefix of the schedule releases as often as h has acquired, starting from n acquisitions. */
  predicate Unbalanced(n: int, h: string, actions: seq<Action>)
    decreases |actions|
  {
    n > 0 && (actions == [] ||
      Unbalanced(n + (if actions[0].Lock? && actions[0].c == h then 1 else 0)
                   - (if actions[0].Decrement? && actions[0].c == h then 1 else 0), h, actions[1..]))
  }

  /** The TTL monitor does not remove the document during the run. */
  predicate NotReaped(s: State, actions: seq<Action>)
    decreases |actions|
  {
    actions == [] ||
    ((actions[0].Ttl? && s.doc.Some? ==> s.doc.value.expiresAt > actions[0].now) &&
     NotReaped(Step(s, actions[0]), actions[1..]))
  }

  /** Mutual exclusion over whole runs: from a state in which h holds n acquisitions, until h has balanced
      them or the TTL monitor removes the document, the document stays h's, whatever others do and
      whatever stale deletes are pending, and h's outstanding acquisitions are those of the schedule. */
  lemma {:induction false} HeldUntilBalanced(s: State, h: string, n: int, actions: seq<Action>)
    requires Inv(s) && s.doc.Some? && s.doc.value.holder == h && Outstanding(s) == n
    requires Unbalanced(n, h, actions) && NotReaped(s, actions)
    ensures var s' := Run(s, actions);
            && s'.doc.Some? && s'.doc.value.holder == h
            && Outstanding(s') == n + Locks(h, actions) - Decrements(h, actions)
            && s'.doc.value.count >= Outstanding(s') > 0
    decreases |actions|
  {
    if actions != [] {
      var a := actions[0];
      StepKeeps(s, a);
      var n' := n + (if a.Lock? && a.c == h then 1 else 0) - (if a.Decrement? && a.c == h then 1 else 0);
      HeldUntilBalanced(Step(s, a), h, n', actions[1..]);
    }
  }

  /** A lock taken where there is no document keeps every other client out exactly until it expires, to the
      moment: until then the others' locks are refused by the index, later they only increment the count. */
  lemma FreshLockExpires(c: string, now: int, expired: int, g: string, later: int, more: int)
    requires g != c
    ensures var (doc, r) := LockStep(None, c, now, expired);
            && r == Locked
            && (LockStep(doc, g, later, more).1 == Duplicate <==> later <= now + expired)
            && LockStep(doc, g, later, more).1 != Locked
            && (TtlStep(doc, later).None? <==> later >= now + expired)
  {
  }

  /** While a document exists, a lock or a decrement that succeeds moves its expiry to the later of the old
      one and the one asked for, and no other step moves it. */
  lemma ExpiryStep(s: State, a: Action)
    requires s.doc.Some? && Step(s, a).doc.Some?
    ensures var t, t' := s.doc.value.expiresAt, Step(s, a).doc.value.expiresAt;
            match a
            case Lock(c, now, expired) =>
              t' == if s.doc.value.holder == c || t < now then Max(t, now + expired) else t
            case Decrement(c, until) =>
              t' == if s.doc.value.holder == c && s.doc.value.count > 0 then Max(t, until) else t
            case _ => t' == t
  {
  }

  /** Every decrement that brings the caller's document to zero, and no other, is followed by one delete: the
      pending ones grow by exactly those and shrink by exactly the deletes made. */
  lemma OneDeleteEach(s: State, a: Action, c: string)
    requires Inv(s)
    ensures Step(s, a).deleting[c] ==
            s.deleting[c]
            + (if a.Decrement? && a.c == c && s.doc.Some? && s.doc.value.holder == c && s.doc.value.count == 1 then 1
               else 0)
            - (if a == Delete(c) && c in s.deleting then 1 else 0)
  {
  }

  /** The delete step of an Unlock, whatever has happened since its first step: it removes the document of
      its caller if and only if the releases have caught up with the acquisitions of the holder and the
      increments of others. */
  lemma DeleteExactly(actions: seq<Action>, c: string)
    requires Run(Init(), actions).doc.Some?
    ensures var s := Run(Init(), actions);
            Step(s, Delete(c)).doc.None?
            <==> c in s.deleting && s.doc.value.holder == c && s.released == s.acquired + s.foreign
  {
    RunKeeps(Init(), actions);
  }

  /** When h releases its last acquisition in one go, the two-step unlock removes the document if and only
      if no other client has incremented it after it expired.  Such an increment keeps it until the TTL
      monitor removes it or h unlocks once more than it has locked. */
  lemma BalancedUnlockDeletes(s: State, h: string, until: int)
    requires Inv(s) && s.doc.Some? && s.doc.value.holder == h && Outstanding(s) == 1
    ensures var s' := Step(Step(s, Decrement(h, until)), Delete(h));
            && (s'.doc.None? <==> s.foreign == 0)
            && (s.foreign > 0 ==> s'.doc.Some? && s'.doc.value.count == s.foreign)
  {
  }

  /** It happens: g finds h's document expired, and h's only unlock leaves it. */
  lemma ForeignKeepsDocument()
    ensures Run(Init(), [Lock("h", 0, 10), Lock("g", 11, 10)]).foreign == 1
    ensures var actions := [Lock("h", 0, 10), Lock("g", 11, 10), Decrement("h", 12), Delete("h")];
            Run(Init(), actions).doc == Some(Doc("h", 1, 21))
  {
    var s := Step(Step(Init(), Lock("h", 0, 10)), Lock("g", 11, 10));
    assert s == State(Some(Doc("h", 2, 21)), 1, 0, 1, multiset{});
    assert Run(s, []) == s;
    assert Run(Step(s, Decrement("h", 12)), [Delete("h")]) == Run(Step(Step(s, Decrement("h", 12)), Delete("h")), []);
    assert Run(s, [Decrement("h", 12), Delete("h")]) == Run(Step(s, Decrement("h", 12)), [Delete("h")]);
    assert Run(Step(Init(), Lock("h", 0, 10)), [Lock("g", 11, 10)]) == Run(s, []);
    assert Run(Step(Init(), Lock("h", 0, 10)), [Lock("g", 11, 10), Decrement("h", 12), Delete("h")])
        == Run(s, [Decrement("h", 12), Delete("h")]);
  }
}
