/**
 The pruner's checkpoint and the race between its cycles and the deletion of headers
 (pruner/checkpoint.go, pruner/service.go) as a transition system: a cycle holds the mutex
 from its beginning to its end, the deletion hook only at its two ends. The theorems hold
 in every state of every run, over any number of resets and restarts.
 */
module PrunerSystem {
  import opened PrunerFind

  // ---------------------------------------------------------------- the checkpoint

  datatype Checkpoint = Checkpoint(lastPruned: nat, failed: set<nat>)

  /** resetCheckpoint: the tail counts as pruned. */
  function FreshCheckpoint(tail: nat): Checkpoint { Checkpoint(tail, {}) }

  /** lastPruned: a tail at or above the last pruned height is adopted in its place. */
  function Adopt(cp: Checkpoint, tail: nat): Checkpoint {
    if tail < cp.lastPruned then cp else Checkpoint(tail, set h | h in cp.failed && h >= tail)
  }

  /** updateCheckpoint */
  function Record(cp: Checkpoint, last: nat, failed: set<nat>): Checkpoint {
    Checkpoint(last, cp.failed + failed)
  }

  function Unfail(cp: Checkpoint, h: nat): Checkpoint { cp.(failed := cp.failed - {h}) }

  /** The second half of the deletion hook. */
  function RaiseTo(cp: Checkpoint, h: nat): Checkpoint {
    if h <= cp.lastPruned then cp else cp.(lastPruned := h)
  }

  // ---------------------------------------------------------------- the system

  /** A prune cycle; in every phase but `Idle` it holds the mutex. */
  datatype Cycle =
    | Idle
    | Retrying(last: nat)
    | Finding(last: nat)
    | Pruning(prev: nat, pos: nat, end: nat, last: nat, batch: nat, failures: set<nat>)

  /** The deletion hook, while it does not hold the mutex. */
  datatype Deletion =
    | NoDeletion
    | Deleting(height: nat)
    | DataGone(height: nat)

  /**
   `next` is the lowest height whose deletion hook has not returned; the tail may lag behind it.
   `pruned`, `dropped` and `adopted` are history: the heights whose data was pruned, those
   taken out of the failed ones because their header went away, and the tails adopted
   although they were above the last pruned height.
   */
  datatype Sys = Sys(
    base: nat,
    tail: nat,
    next: nat,
    cp: Checkpoint,
    disk: Checkpoint,
    cycle: Cycle,
    deletion: Deletion,
    pruned: set<nat>,
    dropped: set<nat>,
    adopted: set<nat>)

  datatype Step =
    | Begin
    | Retried(h: nat)
    | RetriesDone
    | Found(n: nat)
    | PruneOk
    | PruneFailed
    | Commit(stored: bool)
    | CycleEnd
    | HookCheck
    | HookPruned
    | HookFailed
    | HookDone
    | MoveTail(tail: nat)
    | Reset(stored: bool)
    | Save
    | Restart

  predicate Enabled(s: Sys, t: Step) {
    match t
    case Begin => s.cycle.Idle?
    case Retried(h) => s.cycle.Retrying? && h in s.cp.failed
    case RetriesDone => s.cycle.Retrying?
    case Found(n) => s.cycle.Finding? && 1 <= n <= MaxHeadersPerLoop
    case PruneOk => s.cycle.Pruning? && s.cycle.pos < s.cycle.end
    case PruneFailed => s.cycle.Pruning? && s.cycle.pos < s.cycle.end
    case Commit(_) => s.cycle.Pruning? && s.cycle.pos == s.cycle.end
    case CycleEnd => s.cycle.Retrying? || s.cycle.Finding?
    case HookCheck => s.cycle.Idle? && s.deletion.NoDeletion?
    case HookPruned => s.deletion.Deleting?
    case HookFailed => s.deletion.Deleting?
    case HookDone => s.cycle.Idle? && s.deletion.DataGone?
    case MoveTail(tail) => s.tail < tail <= s.next
    case Reset(_) => s.cycle.Idle?
    case Save => s.cycle.Idle?
    case Restart => true
  }

  function If<T>(b: bool, x: T): set<T> { if b then {x} else {} }

  function Apply(s: Sys, t: Step): Sys
    requires Enabled(s, t)
  {
    match t
    case Begin =>
      if s.tail < s.cp.lastPruned then s.(cycle := Retrying(s.cp.lastPruned))
      else s.(cp := Adopt(s.cp, s.tail), cycle := Retrying(s.tail),
              dropped := s.dropped + (set h | h in s.cp.failed && h < s.tail),
              adopted := s.adopted + If(s.tail > s.cp.lastPruned, s.tail))
    case Retried(h) => s.(cp := Unfail(s.cp, h), pruned := s.pruned + {h})
    case RetriesDone => s.(cycle := Finding(s.cycle.last))
    case Found(n) =>
      var first := First(s.cycle.last);
      s.(cycle := Pruning(s.cycle.last, first, first + n, s.cycle.last, n, {}))
    case PruneOk =>
      var c := s.cycle;
      s.(cycle := c.(pos := c.pos + 1, last := c.pos), pruned := s.pruned + {c.pos})
    case PruneFailed =>
      var c := s.cycle;
      s.(cycle := c.(pos := c.pos + 1, failures := c.failures + {c.pos}))
    case Commit(stored) =>
      var c := s.cycle;
      var cp := Record(s.cp, c.last, c.failures);
      s.(cp := cp, disk := if stored then cp else s.disk,
         cycle := if stored && c.batch >= MaxHeadersPerLoop && c.last != c.prev then Finding(c.last) else Idle)
    case CycleEnd => s.(cycle := Idle)
    case HookCheck =>
      var h := s.next;
      var seen := h <= s.cp.lastPruned;
      s.(cp := Unfail(s.cp, h), dropped := s.dropped + If(seen && h in s.cp.failed, h),
         next := if seen then h + 1 else h, deletion := if seen then NoDeletion else Deleting(h))
    case HookPruned => s.(deletion := DataGone(s.deletion.height), pruned := s.pruned + {s.deletion.height})
    case HookFailed => s.(deletion := NoDeletion)
    case HookDone => s.(cp := RaiseTo(s.cp, s.deletion.height), next := s.deletion.height + 1, deletion := NoDeletion)
    case MoveTail(tail) => s.(tail := tail)
    case Reset(stored) =>
      var cp := FreshCheckpoint(s.tail);
      s.(cp := cp, disk := if stored then cp else s.disk, adopted := s.adopted + {s.tail})
    case Save => s.(disk := s.cp)
    case Restart => s.(cp := s.disk, cycle := Idle, deletion := NoDeletion, next := s.tail)
  }

  /** The first start: no checkpoint on disk, the tail becomes the baseline. Heights begin with one. */
  predicate Init(s: Sys) {
    && 1 <= s.base == s.tail == s.next
    && s.cp == s.disk == FreshCheckpoint(s.tail)
    && s.cycle.Idle? && s.deletion.NoDeletion?
    && s.pruned == {} && s.dropped == {} && s.adopted == {}
  }

  ghost predicate IsRun(states: seq<Sys>, steps: seq<Step>) {
    && |states| == |steps| + 1
    && Init(states[0])
    && forall i :: 0 <= i < |steps| ==> Enabled(states[i], steps[i]) && states[i + 1] == Apply(states[i], steps[i])
  }

  // ---------------------------------------------------------------- the invariant

  /** The data of the height is pruned, or it is known why not. */
  predicate Settled(s: Sys, h: nat) { h in s.pruned || h in s.dropped || h in s.adopted }

  /** Nothing above the baseline that the checkpoint passed over is forgotten. */
  ghost predicate CheckpointOk(s: Sys, cp: Checkpoint) {
    forall h :: s.base < h <= cp.lastPruned ==> Settled(s, h) || h in cp.failed
  }

  ghost predicate DeletedOk(s: Sys) {
    && s.base <= s.tail <= s.next
    && forall h :: s.base < h < s.next ==> Settled(s, h)
  }

  ghost predicate CycleOk(s: Sys) {
    match s.cycle
    case Idle => true
    case Retrying(last) => last == s.cp.lastPruned
    case Finding(last) => last == s.cp.lastPruned
    case Pruning(prev, pos, end, last, _, failures) =>
      && prev == s.cp.lastPruned <= last
      && prev <= pos <= end
      && (last == prev || last < pos)
      && forall h :: prev < h < pos ==> h in s.pruned || h in failures
  }

  ghost predicate DeletionOk(s: Sys) {
    && (!s.deletion.NoDeletion? ==> s.deletion.height == s.next)
    && (s.deletion.DataGone? ==> s.next in s.pruned)
  }

  ghost predicate Inv(s: Sys) {
    CheckpointOk(s, s.cp) && CheckpointOk(s, s.disk) && DeletedOk(s) && CycleOk(s) && DeletionOk(s)
  }

  /** History only grows. */
  lemma SettledStays(s: Sys, s': Sys)
    requires s.pruned <= s'.pruned && s.dropped <= s'.dropped && s.adopted <= s'.adopted
    ensures forall h :: Settled(s, h) ==> Settled(s', h)
  {
  }

  lemma BeginOk(s: Sys)
    requires Inv(s) && Enabled(s, Begin)
    ensures Inv(Apply(s, Begin))
  {
    SettledStays(s, Apply(s, Begin));
  }

  lemma HookCheckOk(s: Sys)
    requires Inv(s) && Enabled(s, HookCheck)
    ensures Inv(Apply(s, HookCheck))
  {
    SettledStays(s, Apply(s, HookCheck));
  }

  lemma HookDoneOk(s: Sys)
    requires Inv(s) && Enabled(s, HookDone)
    ensures Inv(Apply(s, HookDone))
  {
    SettledStays(s, Apply(s, HookDone));
  }

  lemma CommitOk(s: Sys, stored: bool)
    requires Inv(s) && Enabled(s, Commit(stored))
    ensures Inv(Apply(s, Commit(stored)))
  {
    SettledStays(s, Apply(s, Commit(stored)));
  }

  lemma RestOk(s: Sys, t: Step)
    requires Inv(s) && Enabled(s, t) && !t.Begin? && !t.HookCheck? && !t.HookDone? && !t.Commit?
    ensures Inv(Apply(s, t))
  {
    SettledStays(s, Apply(s, t));
  }

  /** One step of a cycle, the hook, the header store or the process keeps the invariant. */
  lemma StepKeepsInv(s: Sys, t: Step)
    requires Inv(s) && Enabled(s, t)
    ensures Inv(Apply(s, t))
  {
    match t
    case Begin => BeginOk(s);
    case HookCheck => HookCheckOk(s);
    case HookDone => HookDoneOk(s);
    case Commit(stored) => CommitOk(s, stored);
    case _ => RestOk(s, t);
  }

  lemma {:induction false} RunKeepsInv(states: seq<Sys>, steps: seq<Step>, i: nat)
    requires IsRun(states, steps) && i < |states|
    ensures Inv(states[i]) && states[i].base == states[0].base
  {
    if i > 0 {
      RunKeepsInv(states, steps, i - 1);
      StepKeepsInv(states[i - 1], steps[i - 1]);
    }
  }

  // ---------------------------------------------------------------- every run

  /**
   Whatever cycles, deletions, resets and restarts did: a height above the first baseline and
   not above the last pruned height has had its data pruned, is recorded as failed, was given up
   when its header went away, or was adopted as the tail.
   */
  lemma NothingPassedOver(states: seq<Sys>, steps: seq<Step>, i: nat, h: nat)
    requires IsRun(states, steps) && i < |states| && states[0].base < h <= states[i].cp.lastPruned
    ensures h in states[i].pruned || h in states[i].cp.failed || h in states[i].dropped || h in states[i].adopted
  {
    RunKeepsInv(states, steps, i);
    var s := states[i];
    assert Settled(s, h) || h in s.cp.failed;
  }

  /** The same for a height whose header is gone; being recorded as failed is no excuse there. */
  lemma DeletedHeightsSettled(states: seq<Sys>, steps: seq<Step>, i: nat, h: nat)
    requires IsRun(states, steps) && i < |states| && states[0].base < h < states[i].tail
    ensures h in states[i].pruned || h in states[i].dropped || h in states[i].adopted
  {
    RunKeepsInv(states, steps, i);
    assert Settled(states[i], h);
  }

  /** The last pruned height never goes down, but for a reset and for what a restart finds on disk. */
  lemma LastPrunedNeverDecreases(states: seq<Sys>, steps: seq<Step>, i: nat)
    requires IsRun(states, steps) && i < |steps| && !steps[i].Reset? && !steps[i].Restart?
    ensures states[i].cp.lastPruned <= states[i + 1].cp.lastPruned
  {
    RunKeepsInv(states, steps, i);
  }

  /** A height is adopted only as the tail: when a cycle begins below it or on a reset. */
  ghost predicate AdoptsTail(s: Sys, t: Step, h: nat) {
    h == s.tail && (t.Reset? || (t.Begin? && s.tail > s.cp.lastPruned))
  }

  lemma {:induction false} AdoptedWasTail(states: seq<Sys>, steps: seq<Step>, i: nat, h: nat)
    requires IsRun(states, steps) && i < |states| && h in states[i].adopted
    ensures exists k :: 0 <= k < i && AdoptsTail(states[k], steps[k], h)
  {
    if h in states[i - 1].adopted {
      AdoptedWasTail(states, steps, i - 1, h);
    } else {
      assert AdoptsTail(states[i - 1], steps[i - 1], h);
    }
  }

  /**
   Hence deleting a header always prunes its data, or gives up on a recorded failure, in every
   run in which no cycle begins while the tail is above the last pruned height and nothing is reset.
   */
  lemma DeletedHeightsPruned(states: seq<Sys>, steps: seq<Step>, i: nat, h: nat)
    requires IsRun(states, steps) && i < |states| && states[0].base < h < states[i].tail
    requires forall k :: 0 <= k < i ==> !AdoptsTail(states[k], steps[k], h)
    ensures h in states[i].pruned || h in states[i].dropped
  {
    DeletedHeightsSettled(states, steps, i, h);
    if h in states[i].adopted { AdoptedWasTail(states, steps, i, h); }
  }

  // ---------------------------------------------------------------- the adopted tail

  /**
   The proviso is needed, wherever the node starts. The hook deletes the first header, a cycle
   begins, and the hook deletes the second: the cycle has adopted the second as the new tail
   without pruning it, so the hook takes it for pruned.
   */
  lemma AdoptedTailIsNeverPruned(s: Sys) returns (states: seq<Sys>, steps: seq<Step>)
    requires Init(s)
    ensures IsRun(states, steps) && states[0] == s
    ensures var last, h := states[|states| - 1], s.base + 1;
      h < last.tail && h !in last.pruned && h !in last.dropped && h !in last.cp.failed
  {
    var h := s.base + 1;
    var s1 := Apply(s, HookCheck);
    assert s1.next == h && s1.cp.lastPruned == s.base && s1.cp.failed == {} && s1.deletion.NoDeletion?;
    var s2 := Apply(s1, MoveTail(h));
    var s3 := Apply(s2, Begin);
    assert s3.cp.lastPruned == h && s3.cp.failed == {} && s3.cycle.Retrying?;
    var s4 := Apply(s3, CycleEnd);
    var s5 := Apply(s4, HookCheck);
    assert s5.next == h + 1 && s5.tail == h && s5.cp.failed == {};
    var s6 := Apply(s5, MoveTail(h + 1));
    states := [s, s1, s2, s3, s4, s5, s6];
    steps := [HookCheck, MoveTail(h), Begin, CycleEnd, HookCheck, MoveTail(h + 1)];
  }

  /** The data of the height is neither pruned nor given up. */
  predicate Unsettled(s: Sys, h: nat) { h !in s.pruned && h !in s.dropped }

  /**
   The step passes the height over: a cycle adopts it as the tail without a failure of it on record, or a reset
   makes the tail, which is not below it, the last pruned height.
   */
  predicate Forgets(s: Sys, t: Step, h: nat) {
    Unsettled(s, h) && ((t.Reset? && h <= s.tail) || (t.Begin? && h == s.tail > s.cp.lastPruned && h !in s.cp.failed))
  }

  /** The hook, having found the height above the last pruned one, prunes it. */
  predicate HookPrunes(s: Sys, t: Step, h: nat) { t.HookPruned? && s.deletion.Deleting? && s.deletion.height == h }

  /** A restart brings back the failure of the height from disk. */
  predicate Recalls(s: Sys, t: Step, h: nat) { t.Restart? && h in s.disk.failed }

  /** The height is not pruned, no failure of it is on record, and a cycle under way is past it. */
  ghost predicate Forgotten(s: Sys, h: nat) {
    && h <= s.tail && Unsettled(s, h) && h !in s.cp.failed
    && (!s.cycle.Idle? ==> h <= s.cp.lastPruned)
    && (s.cycle.Pruning? ==> h < s.cycle.pos && h !in s.cycle.failures)
  }

  lemma ForgettingForgets(s: Sys, t: Step, h: nat)
    requires Inv(s) && Enabled(s, t) && Forgets(s, t, h)
    ensures Forgotten(Apply(s, t), h)
  {
  }

  lemma ForgottenStays(s: Sys, t: Step, h: nat)
    requires Inv(s) && Enabled(s, t) && h >= 2 && Forgotten(s, h) && !HookPrunes(s, t, h) && !Recalls(s, t, h)
    ensures Forgotten(Apply(s, t), h)
  {
  }

  /** Forgotten at `k`; up to `i` no hook under way has pruned the height and no restart has brought its failure back. */
  ghost predicate ForgottenSince(states: seq<Sys>, steps: seq<Step>, k: nat, i: nat, h: nat) {
    && k < i <= |steps| < |states| && Forgets(states[k], steps[k], h)
    && forall j :: k <= j < i ==> !HookPrunes(states[j], steps[j], h) && !Recalls(states[j], steps[j], h)
  }

  /**
   Once forgotten, a height stays unpruned for good, restarts included, unless a hook under way prunes it or
   a restart brings its failure back. Only the genesis block is found again.
   */
  lemma {:induction false} ForgottenForGood(states: seq<Sys>, steps: seq<Step>, k: nat, i: nat, h: nat)
    requires IsRun(states, steps) && ForgottenSince(states, steps, k, i, h) && h >= 2
    ensures Forgotten(states[i], h)
  {
    var j := i - 1;
    RunKeepsInv(states, steps, j);
    assert Enabled(states[j], steps[j]) && states[j + 1] == Apply(states[j], steps[j]);
    if j == k {
      ForgettingForgets(states[j], steps[j], h);
    } else {
      ForgottenForGood(states, steps, k, j, h);
      ForgottenStays(states[j], steps[j], h);
    }
  }

  /** The checkpoint has not passed the height over, or has its failure on record. */
  predicate Remembers(cp: Checkpoint, h: nat) { h <= cp.lastPruned ==> h in cp.failed }

  /** Why an unsettled height is not forgotten: both checkpoints remember it, and if its header is gone its failure is on record. */
  ghost predicate Remembered(s: Sys, h: nat) {
    && Remembers(s.cp, h) && Remembers(s.disk, h)
    && (h < s.next ==> h < s.tail && h in s.cp.failed && h in s.disk.failed)
  }

  lemma RememberedStays(s: Sys, t: Step, h: nat)
    requires Inv(s) && Enabled(s, t) && Remembered(s, h) && !Forgets(s, t, h) && Unsettled(Apply(s, t), h)
    ensures Remembered(Apply(s, t), h)
  {
  }

  lemma RecalledIsRemembered(s: Sys, t: Step, h: nat)
    requires Inv(s) && Enabled(s, t) && Recalls(s, t, h)
    ensures Remembered(Apply(s, t), h)
  {
  }

  lemma SettledForGood(s: Sys, t: Step, h: nat)
    requires Enabled(s, t) && Unsettled(Apply(s, t), h)
    ensures Unsettled(s, h) && !HookPrunes(s, t, h)
  {
  }

  /** Every unsettled height above the baseline is remembered or was forgotten. */
  lemma {:induction false} RememberedOrForgotten(states: seq<Sys>, steps: seq<Step>, i: nat, h: nat)
    requires IsRun(states, steps) && i < |states| && states[0].base < h && Unsettled(states[i], h)
    ensures Remembered(states[i], h) || exists k: nat :: ForgottenSince(states, steps, k, i, h)
  {
    if i > 0 {
      var j := i - 1;
      var s, t := states[j], steps[j];
      RunKeepsInv(states, steps, j);
      assert Enabled(s, t) && states[i] == Apply(s, t);
      SettledForGood(s, t, h);
      RememberedOrForgotten(states, steps, j, h);
      if Forgets(s, t, h) {
        assert ForgottenSince(states, steps, j, i, h);
      } else if Recalls(s, t, h) {
        RecalledIsRemembered(s, t, h);
      } else if Remembered(s, h) {
        RememberedStays(s, t, h);
      } else {
        var k: nat :| ForgottenSince(states, steps, k, j, h);
        assert ForgottenSince(states, steps, k, i, h);
      }
    }
  }

  /**
   Exactly when a deleted header leaves its data behind without a recorded failure, in every run: when a cycle
   adopted the height unpruned, or a reset passed it over, and since then no hook under way has pruned it and no
   restart has found its failure on disk.
   */
  lemma UnprunedExactly(states: seq<Sys>, steps: seq<Step>, i: nat, h: nat)
    requires IsRun(states, steps) && i < |states| && states[0].base < h < states[i].tail
    ensures h !in states[i].pruned && h !in states[i].dropped && h !in states[i].cp.failed <==>
            exists k: nat :: ForgottenSince(states, steps, k, i, h)
  {
    RunKeepsInv(states, steps, i);
    if k: nat :| ForgottenSince(states, steps, k, i, h) {
      ForgottenForGood(states, steps, k, i, h);
    }
    if Unsettled(states[i], h) && h !in states[i].cp.failed {
      RememberedOrForgotten(states, steps, i, h);
    }
  }
}
