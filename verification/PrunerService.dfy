/**
 The pruner service (pruner/service.go, pruner/checkpoint.go): the checkpoint updated in place
 and the prune cycle with its loops. The ghost field `sys` follows the transition system of
 PrunerSystem step by step, so every cycle is a part of one of its runs.
 */
module PrunerService {
  import opened Basics
  import opened PrunerFind
  import opened PrunerSystem

  /** Less than a block time is left before the cutoff, or the next header is newer than it. */
  ghost predicate CaughtUp(chain: Chain, last: nat, cutoff: int, blockTime: nat) {
    && chain.Has(last)
    && (NothingToFind(chain, chain.At(last), cutoff, blockTime) || !chain.Has(last + 1) || chain.At(last + 1).time > cutoff)
  }

  lemma PositiveWindow(chain: Chain, start: Header, window: int)
    requires chain.Valid()
    ensures chain.GetByHeight(chain.Head().height) == Some(chain.Head())
    ensures window > 0 ==> !AsksBeyondHead(chain, First(start.height), chain.Head().time - window)
  {
  }

  lemma RunHeights(chain: Chain, first: nat, cutoff: int, hs: seq<Header>)
    requires chain.Valid() && LongestRun(chain, first, cutoff, hs)
    ensures forall i :: 0 <= i < |hs| ==> hs[i].height == first + i && StandsAt(chain, hs[i].height, hs[i])
  {
    forall i | 0 <= i < |hs| ensures hs[i].height == first + i && StandsAt(chain, hs[i].height, hs[i]) {
      assert StandsAt(chain, first + i, hs[i]);
    }
  }

  /** The next headers to prune, none if there are none or the search fails. */
  method FindNext(chain: Chain, window: int, blockTime: nat, start: Header) returns (hs: seq<Header>)
    requires chain.Valid() && blockTime > 0 && StandsAt(chain, start.height, start)
    ensures |hs| <= MaxHeadersPerLoop
    ensures forall i :: 0 <= i < |hs| ==> hs[i].height == First(start.height) + i && StandsAt(chain, hs[i].height, hs[i])
    ensures hs != [] && start.height == 1 ==> hs[0] == start
    ensures |hs| == MaxHeadersPerLoop ==> hs[|hs| - 1] != start
    ensures window > 0 && hs == [] ==> CaughtUp(chain, start.height, chain.Head().time - window, blockTime)
    ensures window > 0 && 0 < |hs| < MaxHeadersPerLoop ==> CaughtUp(chain, hs[|hs| - 1].height, chain.Head().time - window, blockTime)
  {
    var r := FindPruneableHeaders(chain, chain.Head(), start, window, blockTime);
    PositiveWindow(chain, start, window);
    if r.None? {
      return [];
    }
    hs := r.value;
    if hs != [] {
      RunHeights(chain, First(start.height), chain.Head().time - window, hs);
    }
  }

  /** The header store during a cycle: it keeps its tail and only grows at its head, up to some height. */
  ghost predicate StoreGrows(chains: nat -> Chain, tail: nat, bound: nat) {
    && (forall n: nat :: chains(n).Valid() && chains(n).Tail().height == tail && chains(n).Head().height <= bound)
    && (forall m: nat, n: nat :: m <= n ==> chains(m).headers <= chains(n).headers)
  }

  lemma StillStands(chains: nat -> Chain, tail: nat, bound: nat, m: nat, n: nat, h: nat, x: Header)
    requires StoreGrows(chains, tail, bound) && m <= n && StandsAt(chains(m), h, x)
    ensures StandsAt(chains(n), h, x) && h <= bound
  {
    assert chains(m).headers <= chains(n).headers;
    assert chains(m).Tail().height == tail && chains(n).Tail().height == tail && chains(m).Head().height <= bound;
  }

  lemma OneLessFailed(pruned: set<nat>, failed: set<nat>, left: set<nat>, h: nat)
    requires h in left && left <= failed
    ensures pruned + (failed - left) + {h} == pruned + (failed - (left - {h}))
  {
  }

  class Service {
    var lastPrunedHeight: nat
    var failedHeaders: set<nat>
    ghost var sys: Sys

    /** How often pruning a block, writing the checkpoint or the context has failed. */
    ghost var faults: nat

    ghost predicate Valid()
      reads this
    {
      sys.cp == Checkpoint(lastPrunedHeight, failedHeaders) && Inv(sys)
    }

    method ResetCheckpoint(tail: nat, stored: bool)
      requires Valid() && sys.tail == tail && sys.cycle.Idle?
      modifies this
      ensures Valid() && sys == Apply(old(sys), Reset(stored))
    {
      StepKeepsInv(sys, Reset(stored));
      sys := Apply(sys, Reset(stored));
      lastPrunedHeight, failedHeaders := tail, {};
    }

    /** lastPruned: the header to go on from, or the tail in its place. */
    method LastPruned(chain: Chain) returns (r: Option<Header>)
      requires Valid() && sys.cycle.Idle? && chain.Valid() && chain.Tail().height == sys.tail
      modifies this
      ensures Valid() && faults == old(faults)
      ensures r.None? ==> sys == old(sys) && lastPrunedHeight == old(lastPrunedHeight)
      ensures r.None? <==> chain.Tail().height < old(lastPrunedHeight) && !chain.Has(old(lastPrunedHeight))
      ensures r.Some? ==> StandsAt(chain, lastPrunedHeight, r.value) && sys == Apply(old(sys), Begin)
    {
      var tail := chain.Tail();
      if tail.height < lastPrunedHeight {
        r := chain.GetByHeight(lastPrunedHeight);
        if r.Some? {
          StepKeepsInv(sys, Begin);
          sys := Apply(sys, Begin);
        }
        return;
      }
      StepKeepsInv(sys, Begin);
      sys := Apply(sys, Begin);
      lastPrunedHeight := tail.height;
      failedHeaders := DropBelow(failedHeaders, tail.height);
      r := Some(tail);
    }

    /** The pruner removes the data of a height, or fails. */
    method PruneData(h: nat) returns (ok: bool)
      modifies this`faults
      ensures faults >= old(faults) && (!ok ==> faults > old(faults))
    {
      if * {
        faults := faults + 1;
        return false;
      }
      ok := true;
    }

    /** A failed height whose header is there: taken out if its data goes. */
    method RetryOne(h: nat)
      requires Valid() && Enabled(sys, Retried(h))
      modifies this
      ensures Valid() && lastPrunedHeight == old(lastPrunedHeight) && faults >= old(faults)
      ensures (sys == old(sys) && failedHeaders == old(failedHeaders) && faults > old(faults))
        || (sys == Apply(old(sys), Retried(h)) && failedHeaders == old(failedHeaders) - {h})
    {
      var ok := PruneData(h);
      if ok {
        StepKeepsInv(sys, Retried(h));
        sys := Apply(sys, Retried(h));
        failedHeaders := failedHeaders - {h};
      }
    }

    /** Retries the failed heights one by one; those whose header is there and whose data goes are taken out. */
    method RetryFailed(chain: Chain)
      requires Valid() && sys.cycle.Retrying?
      modifies this
      ensures Valid() && sys.cycle == old(sys.cycle) && lastPrunedHeight == old(lastPrunedHeight) && faults >= old(faults)
      ensures failedHeaders <= old(failedHeaders) && forall h :: h in old(failedHeaders) - failedHeaders ==> chain.Has(h)
      ensures faults == old(faults) ==> failedHeaders == set h | h in old(failedHeaders) && !chain.Has(h)
      ensures sys == old(sys).(cp := sys.cp, pruned := old(sys).pruned + (old(failedHeaders) - failedHeaders))
    {
      var todo := failedHeaders;
      ghost var start := sys;
      while todo != {}
        invariant Valid() && todo <= failedHeaders <= start.cp.failed && lastPrunedHeight == start.cp.lastPruned && faults >= old(faults)
        invariant forall h :: h in start.cp.failed && h !in failedHeaders ==> chain.Has(h)
        invariant faults == old(faults) ==> forall h :: h in failedHeaders && h !in todo ==> !chain.Has(h)
        invariant sys == start.(cp := sys.cp, pruned := start.pruned + (start.cp.failed - failedHeaders))
        decreases |todo|
      {
        var h :| h in todo;
        todo := todo - {h};
        if chain.Has(h) {
          OneLessFailed(start.pruned, start.cp.failed, failedHeaders, h);
          RetryOne(h);
        }
      }
    }

    /** updateCheckpoint */
    method UpdateCheckpoint(last: nat, failed: set<nat>, stored: bool)
      requires Valid() && Enabled(sys, Commit(stored)) && last == sys.cycle.last && failed == sys.cycle.failures
      modifies this
      ensures Valid() && sys == Apply(old(sys), Commit(stored)) && faults == old(faults)
    {
      StepKeepsInv(sys, Commit(stored));
      sys := Apply(sys, Commit(stored));
      failedHeaders := AddEach(failedHeaders, failed);
      lastPrunedHeight := last;
    }

    /** One height of the batch, pruned or noted as failed. */
    method PruneOne(eh: Header, last: Header, failed: set<nat>) returns (last': Header, failed': set<nat>)
      requires Valid() && Enabled(sys, PruneOk) && sys.cycle.pos == eh.height
      requires sys.cycle.last == last.height && sys.cycle.failures == failed
      modifies this`sys, this`faults
      ensures Valid() && faults >= old(faults) && (sys == Apply(old(sys), PruneOk) || sys == Apply(old(sys), PruneFailed))
      ensures sys.cycle.last == last'.height && sys.cycle.failures == failed'
      ensures last' == last || last' == eh
      ensures faults == old(faults) ==> last' == eh && failed' == failed
    {
      last', failed' := last, failed;
      var ok := PruneData(eh.height);
      if ok {
        StepKeepsInv(sys, PruneOk);
        sys := Apply(sys, PruneOk);
        last' := eh;
      } else {
        StepKeepsInv(sys, PruneFailed);
        sys := Apply(sys, PruneFailed);
        failed' := failed + {eh.height};
      }
    }

    /** The batch: each height pruned or noted as failed; the last one pruned is where to go on. */
    method PruneBatch(hs: seq<Header>, start: Header) returns (last: Header, failed: set<nat>)
      requires Valid() && sys.cycle == Finding(start.height) && 0 < |hs| <= MaxHeadersPerLoop
      requires forall i :: 0 <= i < |hs| ==> hs[i].height == First(start.height) + i
      modifies this`sys, this`faults
      ensures Valid() && Enabled(sys, Commit(true)) && sys.cycle.last == last.height && sys.cycle.failures == failed
      ensures sys.cycle.prev == start.height && sys.cycle.batch == |hs| && faults >= old(faults)
      ensures last == start || last in hs
      ensures faults == old(faults) ==> last == hs[|hs| - 1] && failed == {}
    {
      StepKeepsInv(sys, Found(|hs|));
      sys := Apply(sys, Found(|hs|));
      last, failed := start, {};
      for i := 0 to |hs|
        invariant Valid() && faults >= old(faults) && sys.cycle.Pruning?
        invariant sys.cycle.pos == First(start.height) + i && sys.cycle.end == First(start.height) + |hs|
        invariant sys.cycle.last == last.height && sys.cycle.failures == failed
        invariant sys.cycle.prev == start.height && sys.cycle.batch == |hs|
        invariant last == start || last in hs
        invariant faults == old(faults) ==> failed == {} && (i > 0 ==> last == hs[i - 1])
      {
        last, failed := PruneOne(hs[i], last, failed);
      }
    }

    /** Whether the checkpoint can be written. */
    method CanStore() returns (stored: bool)
      modifies this`faults
      ensures faults >= old(faults) && (!stored ==> faults > old(faults))
    {
      if * {
        faults := faults + 1;
        return false;
      }
      stored := true;
    }

    /** A batch pruned and recorded; is there another one to look for? */
    method PruneFound(hs: seq<Header>, start: Header) returns (last: Header, again: bool)
      requires Valid() && sys.cycle == Finding(start.height) && 0 < |hs| <= MaxHeadersPerLoop
      requires forall i :: 0 <= i < |hs| ==> hs[i].height == First(start.height) + i
      requires start.height == 1 ==> hs[0] == start
      modifies this
      ensures Valid() && lastPrunedHeight == last.height && (last == start || last in hs) && faults >= old(faults)
      ensures sys.cycle == if again then Finding(last.height) else Idle
      ensures again ==> last.height > start.height
      ensures faults == old(faults) ==> last == hs[|hs| - 1] && (again <==> |hs| == MaxHeadersPerLoop && last != start)
    {
      var failed;
      last, failed := PruneBatch(hs, start);
      assert last == start <==> last.height == start.height;
      var stored := CanStore();
      UpdateCheckpoint(last.height, failed, stored);
      again := stored && |hs| >= MaxHeadersPerLoop && last != start;
    }

    method EndCycle()
      requires Valid() && sys.cycle.Finding?
      modifies this`sys
      ensures Valid() && sys == Apply(old(sys), CycleEnd)
    {
      StepKeepsInv(sys, CycleEnd);
      sys := Apply(sys, CycleEnd);
    }

    /** One turn of the loop: the headers found and pruned, unless the context has ended. */
    method PruneRound(chain: Chain, window: int, blockTime: nat, start: Header)
      returns (last: Header, again: bool)
      requires Valid() && chain.Valid() && blockTime > 0
      requires sys.cycle == Finding(start.height) && StandsAt(chain, start.height, start)
      modifies this
      ensures Valid() && lastPrunedHeight == last.height >= start.height && StandsAt(chain, last.height, last) && faults >= old(faults)
      ensures sys.cycle == if again then Finding(last.height) else Idle
      ensures again ==> last.height > start.height
      ensures faults == old(faults) && window > 0 && !again ==>
        CaughtUp(chain, last.height, chain.Head().time - window, blockTime)
    {
      if * {
        faults := faults + 1;
        EndCycle();
        return start, false;
      }
      var hs := FindNext(chain, window, blockTime, start);
      if hs == [] {
        EndCycle();
        return start, false;
      }
      last, again := PruneFound(hs, start);
    }

    /**
     One cycle, while headers keep arriving. It ends, it never lowers the last pruned height, and if nothing
     fails it leaves nothing to do, be it that it goes on from the last pruned height or adopts the tail. Only if
     the last pruned height is above the head it does nothing. `chains(n)` is the header store in turn `n` of the loop.
     */
    method Prune(chains: nat -> Chain, window: int, blockTime: nat, ghost bound: nat) returns (n: nat)
      requires Valid() && sys.cycle.Idle? && StoreGrows(chains, sys.tail, bound) && blockTime > 0
      modifies this
      ensures Valid() && sys.cycle.Idle? && old(lastPrunedHeight) <= lastPrunedHeight && faults >= old(faults)
      ensures faults == old(faults) && window > 0 && old(lastPrunedHeight) <= chains(0).Head().height ==>
        CaughtUp(chains(n), lastPrunedHeight, chains(n).Head().time - window, blockTime)
    {
      n := 0;
      ghost var tail := sys.tail;
      var found := LastPruned(chains(0));
      if found.None? {
        return;
      }
      RetryFailed(chains(0));
      StepKeepsInv(sys, RetriesDone);
      sys := Apply(sys, RetriesDone);
      var last, again := found.value, true;
      while again
        invariant Valid() && StandsAt(chains(n), last.height, last) && faults >= old(faults)
        invariant sys.cycle == if again then Finding(last.height) else Idle
        invariant old(lastPrunedHeight) <= lastPrunedHeight == last.height
        invariant faults == old(faults) && window > 0 && !again ==>
          CaughtUp(chains(n), last.height, chains(n).Head().time - window, blockTime)
        decreases again, bound - last.height
      {
        StillStands(chains, tail, bound, n, n + 1, last.height, last);
        n := n + 1;
        last, again := PruneRound(chains(n), window, blockTime, last);
        StillStands(chains, tail, bound, n, n, last.height, last);
      }
    }

    /** The deletion hook up to where it lets go of the mutex: is there nothing more to do? */
    method HookBegin(height: nat) returns (done: bool)
      requires Valid() && Enabled(sys, HookCheck) && height == sys.next
      modifies this
      ensures Valid() && sys == Apply(old(sys), HookCheck) && done == sys.deletion.NoDeletion?
    {
      StepKeepsInv(sys, HookCheck);
      sys := Apply(sys, HookCheck);
      if height in failedHeaders {
        failedHeaders := failedHeaders - {height};
      }
      done := height <= lastPrunedHeight;
    }

    /** The deletion hook from where it takes the mutex again, the data being gone. */
    method HookEnd(height: nat)
      requires Valid() && Enabled(sys, HookDone) && height == sys.deletion.height
      modifies this
      ensures Valid() && sys == Apply(old(sys), HookDone)
    {
      StepKeepsInv(sys, HookDone);
      sys := Apply(sys, HookDone);
      if height <= lastPrunedHeight {
        return;
      }
      lastPrunedHeight := height;
    }
  }

  /** Deleting from the map while ranging over it. */
  method DropBelow(failed: set<nat>, tail: nat) returns (r: set<nat>)
    ensures r == set h | h in failed && h >= tail
  {
    r := failed;
    var todo := failed;
    while todo != {}
      invariant todo <= r <= failed
      invariant r == set h | h in failed && (h in todo || h >= tail)
      decreases |todo|
    {
      var h :| h in todo;
      todo := todo - {h};
      if h < tail {
        r := r - {h};
      }
    }
  }

  method AddEach(failed: set<nat>, more: set<nat>) returns (r: set<nat>)
    ensures r == failed + more
  {
    r := failed;
    var todo := more;
    while todo != {}
      invariant todo <= more && r == failed + (more - todo)
      decreases |todo|
    {
      var h :| h in todo;
      todo, r := todo - {h}, r + {h};
    }
  }
}
