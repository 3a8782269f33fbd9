/**
 The striped locks of the block store (store/striplock.go) and the calls that take them
 (store/store.go), as a transition system with any number of concurrent calls. A lock is a
 reader-writer lock that lets no reader pass a waiting writer.
 */
module StripeLocks {
  import opened Basics

  const Stripes: nat := 1024

  // Locks are numbered, the stripes for hashes before those for heights.

  function ByHeight(height: nat): nat { Stripes + height % Stripes }

  /** The last two bytes of the hash, the last one being the low byte. */
  function ByHash(datahash: seq<Byte>): nat
    requires |datahash| >= 2
  {
    (datahash[|datahash| - 1] + 256 * datahash[|datahash| - 2]) % Stripes
  }

  datatype Request = Request(lock: nat, write: bool)

  datatype Call =
    | PutEmpty(height: nat)
    | Put(datahash: seq<Byte>, height: nat)
    | GetByHash(datahash: seq<Byte>)
    | GetByHeight(height: nat)
    | HasByHash(datahash: seq<Byte>)
    | HasByHeight(height: nat)
    | HasQ4ByHash(datahash: seq<Byte>)
    | RemoveODSQ4(datahash: seq<Byte>, height: nat)
    | RemoveQ4(datahash: seq<Byte>, height: nat)
  {
    predicate Valid() { this.PutEmpty? || this.GetByHeight? || this.HasByHeight? || |this.datahash| >= 2 }

    /** The locks the call takes, one after the other; it holds all of them until it is done. */
    function Requests(): seq<Request>
      requires Valid()
    {
      match this
      case PutEmpty(height) => [Request(ByHeight(height), true)]
      case Put(datahash, height) => [Request(ByHash(datahash), true), Request(ByHeight(height), true)]
      case GetByHash(datahash) => [Request(ByHash(datahash), false)]
      case GetByHeight(height) => [Request(ByHeight(height), false)]
      case HasByHash(datahash) => [Request(ByHash(datahash), false)]
      case HasByHeight(height) => [Request(ByHeight(height), false)]
      case HasQ4ByHash(datahash) => [Request(ByHash(datahash), false)]
      case RemoveODSQ4(datahash, height) => [Request(ByHash(datahash), true), Request(ByHeight(height), true)]
      case RemoveQ4(datahash, height) => [Request(ByHash(datahash), true), Request(ByHeight(height), true)]
    }
  }

  /**
   A running call: `held` locks taken so far, `released` given back, in the order of the requests.
   `announced`: it waits to write, and readers that come later wait for it.
   */
  datatype Thread = Thread(requests: seq<Request>, held: nat, released: nat, announced: bool)

  ghost predicate Ascending(rs: seq<Request>) {
    forall i, j :: 0 <= i < j < |rs| ==> rs[i].lock < rs[j].lock
  }

  predicate Finished(t: Thread) { t.released == |t.requests| }

  predicate Waiting(t: Thread) { t.held < |t.requests| }

  /** The lock a thread waits for. */
  function NextLock(t: Thread): nat { if Waiting(t) then t.requests[t.held].lock else 0 }

  ghost predicate Holds(t: Thread, lock: nat) {
    exists k :: t.released <= k < t.held <= |t.requests| && t.requests[k].lock == lock
  }

  ghost predicate HoldsToWrite(t: Thread, lock: nat) {
    exists k :: t.released <= k < t.held <= |t.requests| && t.requests[k] == Request(lock, true)
  }

  ghost predicate WaitsToWrite(t: Thread, lock: nat) {
    Waiting(t) && t.announced && NextLock(t) == lock
  }

  type Sys = map<nat, Thread>

  datatype Step =
    | Call(id: nat, call: Call)
    | Announce(id: nat)
    | Lock(id: nat)
    | Unlock(id: nat)

  ghost predicate Free(s: Sys, lock: nat) {
    forall id :: id in s ==> !Holds(s[id], lock)
  }

  ghost predicate FreeToRead(s: Sys, lock: nat) {
    forall id :: id in s ==> !HoldsToWrite(s[id], lock) && !WaitsToWrite(s[id], lock)
  }

  ghost predicate Enabled(s: Sys, t: Step) {
    match t
    case Call(id, call) => (id !in s || Finished(s[id])) && call.Valid()
    case Announce(id) => id in s && Waiting(s[id]) && s[id].requests[s[id].held].write && !s[id].announced
    case Lock(id) =>
      && id in s && Waiting(s[id])
      && var r := s[id].requests[s[id].held];
         if r.write then s[id].announced && Free(s, r.lock) else FreeToRead(s, r.lock)
    case Unlock(id) => id in s && !Waiting(s[id]) && !Finished(s[id])
  }

  ghost function Apply(s: Sys, t: Step): Sys
    requires Enabled(s, t)
  {
    match t
    case Call(id, call) => s[id := Thread(call.Requests(), 0, 0, false)]
    case Announce(id) => s[id := s[id].(announced := true)]
    case Lock(id) => s[id := s[id].(held := s[id].held + 1, announced := false)]
    case Unlock(id) => s[id := s[id].(released := s[id].released + 1)]
  }

  ghost predicate IsRun(states: seq<Sys>, steps: seq<Step>) {
    && |states| == |steps| + 1
    && states[0] == map[]
    && forall i :: 0 <= i < |steps| ==> Enabled(states[i], steps[i]) && states[i + 1] == Apply(states[i], steps[i])
  }

  // ---------------------------------------------------------------- invariants

  /** Locks are taken in ascending order and given back only when all are held. */
  ghost predicate ThreadOk(t: Thread) {
    && Ascending(t.requests)
    && t.released <= t.held <= |t.requests|
    && (t.released > 0 ==> !Waiting(t))
    && (t.announced ==> Waiting(t) && t.requests[t.held].write)
  }

  ghost predicate Excluded(s: Sys, a: nat, b: nat, lock: nat) {
    a in s && b in s && HoldsToWrite(s[a], lock) && Holds(s[b], lock) ==> a == b
  }

  ghost predicate Exclusive(s: Sys) {
    forall a, b, lock :: Excluded(s, a, b, lock)
  }

  ghost predicate Inv(s: Sys) {
    (forall id :: id in s ==> ThreadOk(s[id])) && Exclusive(s)
  }

  /** Every call takes at most one hash stripe, then at most one height stripe. */
  lemma RequestsAscend(call: Call)
    requires call.Valid()
    ensures Ascending(call.Requests()) && 1 <= |call.Requests()| <= 2
  {
  }

  lemma ThreadsStayOk(s: Sys, t: Step)
    requires Inv(s) && Enabled(s, t)
    ensures forall id :: id in Apply(s, t) ==> ThreadOk(Apply(s, t)[id])
  {
    if t.Call? { RequestsAscend(t.call); }
  }

  /** What a thread holds after a step it held before, but for the lock just taken. */
  lemma HoldsBefore(s: Sys, t: Step, id: nat, lock: nat)
    requires Inv(s) && Enabled(s, t) && id in Apply(s, t) && Holds(Apply(s, t)[id], lock)
    ensures id in s
    ensures Holds(s[id], lock) || (t == Lock(id) && s[id].requests[s[id].held].lock == lock)
  {
    var u := Apply(s, t)[id];
    var k :| u.released <= k < u.held <= |u.requests| && u.requests[k].lock == lock;
    assert id in s && u.requests[k] == s[id].requests[k];
  }

  lemma HoldsToWriteBefore(s: Sys, t: Step, id: nat, lock: nat)
    requires Inv(s) && Enabled(s, t) && id in Apply(s, t) && HoldsToWrite(Apply(s, t)[id], lock)
    ensures id in s && Holds(Apply(s, t)[id], lock)
    ensures HoldsToWrite(s[id], lock) || (t == Lock(id) && s[id].requests[s[id].held] == Request(lock, true))
  {
    var u := Apply(s, t)[id];
    var k :| u.released <= k < u.held <= |u.requests| && u.requests[k] == Request(lock, true);
    assert id in s && u.requests[k] == s[id].requests[k];
  }

  lemma ExclusionKept(s: Sys, t: Step, a: nat, b: nat, lock: nat)
    requires Inv(s) && Enabled(s, t)
    ensures Excluded(Apply(s, t), a, b, lock)
  {
    var s' := Apply(s, t);
    assert Excluded(s, a, b, lock);
    if a in s' && b in s' && HoldsToWrite(s'[a], lock) && Holds(s'[b], lock) && a != b {
      HoldsToWriteBefore(s, t, a, lock);
      HoldsBefore(s, t, b, lock);
    }
  }

  lemma StepKeepsInv(s: Sys, t: Step)
    requires Inv(s) && Enabled(s, t)
    ensures Inv(Apply(s, t))
  {
    ThreadsStayOk(s, t);
    forall a, b, lock ensures Excluded(Apply(s, t), a, b, lock) {
      ExclusionKept(s, t, a, b, lock);
    }
  }

  lemma {:induction false} RunKeepsInv(states: seq<Sys>, steps: seq<Step>, i: nat)
    requires IsRun(states, steps) && i < |states|
    ensures Inv(states[i])
  {
    if i > 0 {
      RunKeepsInv(states, steps, i - 1);
      StepKeepsInv(states[i - 1], steps[i - 1]);
    }
  }

  /** Whoever holds a stripe to write is alone with it. */
  lemma WritersAreAlone(states: seq<Sys>, steps: seq<Step>, i: nat, a: nat, b: nat, lock: nat)
    requires IsRun(states, steps) && i < |states| && a in states[i] && b in states[i]
    requires HoldsToWrite(states[i][a], lock) && Holds(states[i][b], lock)
    ensures a == b
  {
    RunKeepsInv(states, steps, i);
    assert Excluded(states[i], a, b, lock);
  }

  // ---------------------------------------------------------------- no deadlock

  /** Some call can go on: it is none that would have to be started first. */
  ghost predicate CanMove(s: Sys) {
    exists t: Step :: !t.Call? && Enabled(s, t)
  }

  /** The waiting thread whose next lock comes last. */
  lemma {:induction false} LastWaiting(s: Sys, ids: set<nat>) returns (id: nat)
    requires ids <= s.Keys && ids != {}
    ensures id in ids && forall i :: i in ids ==> NextLock(s[i]) <= NextLock(s[id])
    decreases |ids|
  {
    var x :| x in ids;
    if ids == {x} {
      return x;
    }
    var y := LastWaiting(s, ids - {x});
    id := if NextLock(s[x]) <= NextLock(s[y]) then y else x;
  }

  lemma WaitsForLater(t: Thread, lock: nat)
    requires ThreadOk(t) && Holds(t, lock)
    ensures Waiting(t) ==> lock < NextLock(t)
  {
  }

  /** Nobody holds the lock that the last of the waiting threads waits for, unless someone can unlock. */
  lemma LastLockIsFree(s: Sys, id: nat)
    requires Inv(s) && id in s && Waiting(s[id])
    requires forall i :: i in s && Waiting(s[i]) ==> NextLock(s[i]) <= NextLock(s[id])
    ensures Free(s, NextLock(s[id])) || CanMove(s)
  {
    if i :| i in s && Holds(s[i], NextLock(s[id])) {
      WaitsForLater(s[i], NextLock(s[id]));
      assert Enabled(s, Unlock(i));
    }
  }

  lemma FreeLockIsTaken(s: Sys, id: nat)
    requires Inv(s) && id in s && Waiting(s[id]) && Free(s, NextLock(s[id]))
    ensures CanMove(s)
  {
    var r := s[id].requests[s[id].held];
    if r.write {
      assert if s[id].announced then Enabled(s, Lock(id)) else Enabled(s, Announce(id));
    } else if w :| w in s && WaitsToWrite(s[w], r.lock) {
      assert Enabled(s, Lock(w));
    } else {
      forall i | i in s ensures !HoldsToWrite(s[i], r.lock) {
        assert !Holds(s[i], r.lock);
      }
      assert Enabled(s, Lock(id));
    }
  }

  /** However the stripes collide: while a call is unfinished, some call can go on. */
  lemma NoDeadlock(states: seq<Sys>, steps: seq<Step>, i: nat)
    requires IsRun(states, steps) && i < |states|
    ensures CanMove(states[i]) || forall id :: id in states[i] ==> Finished(states[i][id])
  {
    RunKeepsInv(states, steps, i);
    var s := states[i];
    var waiting := set id | id in s && Waiting(s[id]);
    if waiting != {} {
      var id := LastWaiting(s, waiting);
      LastLockIsFree(s, id);
      if Free(s, NextLock(s[id])) { FreeLockIsTaken(s, id); }
    } else if id :| id in s && !Finished(s[id]) {
      assert id !in waiting;
      assert Enabled(s, Unlock(id));
    }
  }
}
