/**
 The imperative form of das/: the worker's loop, the coordinator state that is updated in
 place, and the checkpoint conversions. Each method is proved against the function of
 DasState that the transition system of DasSystem is built from.
 */
module DasCoordinator {
  import opened Basics
  import opened DasState

  // ---------------------------------------------------------------- worker.go

  /** What sampling a height returns; `Canceled` makes the worker return without a result. */
  datatype SampleError = NoError | OutsideSamplingWindow | OtherError | Canceled

  class SamplingWorker {
    var state: Worker

    constructor (j: Job)
      ensures state == NewWorker(j)
    {
      state := NewWorker(j);
    }

    method SetResult(h: nat, failing: bool)
      modifies this
      ensures state == DasState.SetResult(old(state), h, !failing)
    {
      if failing {
        state := state.(failed := state.failed[h := CountOf(state.failed, h) + 1]);
      }
      state := state.(curr := h);
    }

    /**
     Runs the job. The result is sent if every height of the job was gone through, unless the context ends
     before the coordinator takes it: `received` says which comes first.
     */
    method Run(sample: nat -> SampleError, received: bool) returns (sent: bool)
      requires state == NewWorker(state.job)
      modifies this
      ensures state.job == old(state.job)
      ensures Finished(state) <==> forall h :: state.job.from <= h <= state.job.to ==> sample(h) != Canceled
      ensures !Finished(state) ==> sample(state.pos) == Canceled
      ensures sent <==> Finished(state) && received
      ensures state.live <==> sent
      ensures forall h :: h in state.failed <==> state.job.from <= h < state.pos && sample(h) == OtherError
      ensures state.curr == if state.pos == state.job.from then state.pos else state.pos - 1
    {
      var curr := state.job.from;
      while curr <= state.job.to
        invariant state.job == old(state.job) && state.pos == curr >= state.job.from && state.live
        invariant curr <= state.job.to + 1 || curr == state.job.from
        invariant forall h :: state.job.from <= h < curr ==> sample(h) != Canceled
        invariant forall h :: h in state.failed <==> state.job.from <= h < curr && sample(h) == OtherError
        invariant state.curr == if curr == state.job.from then curr else curr - 1
        decreases state.job.to + 1 - curr
      {
        var err := sample(curr);
        if err == Canceled {
          state := state.(live := false);
          return false;
        }
        SetResult(curr, err == OtherError);
        curr := curr + 1;
        state := state.(pos := curr);
      }
      if !received {
        state := state.(live := false);
      }
      return received;
    }
  }

  // ---------------------------------------------------------------- backoff.go

  function Power(b: nat, e: nat): nat {
    if e == 0 then 1 else b * Power(b, e - 1)
  }

  lemma PowerStep(a: nat, b: nat, e: nat)
    ensures a * Power(b, e) * b == a * Power(b, e + 1)
  {
    var p := Power(b, e);
    assert Power(b, e + 1) == b * p;
    assert a * p * b == a * (b * p);
  }

  method ExponentialBackoff(baseInterval: nat, multiplier: nat, amount: nat) returns (backoff: seq<nat>)
    ensures |backoff| == amount
    ensures forall k :: 0 <= k < amount ==> backoff[k] == baseInterval * Power(multiplier, k)
  {
    backoff := [];
    var next := baseInterval;
    for i := 0 to amount
      invariant |backoff| == i && next == baseInterval * Power(multiplier, i)
      invariant forall k :: 0 <= k < i ==> backoff[k] == baseInterval * Power(multiplier, k)
    {
      backoff := backoff + [next];
      PowerStep(baseInterval, multiplier, i);
      next := next * multiplier;
    }
  }

  // ---------------------------------------------------------------- loops over maps

  /** Go visits the keys of a map in no particular order. */
  method PutEach(m: map<nat, Attempt>, keys: set<nat>, f: nat -> Attempt) returns (r: map<nat, Attempt>)
    ensures r == m + map h | h in keys :: f(h)
  {
    r := m;
    var rest := keys;
    while rest != {}
      invariant rest <= keys
      invariant forall h :: h in r <==> h in m || (h in keys && h !in rest)
      invariant forall h :: h in r ==> r[h] == if h in keys && h !in rest then f(h) else m[h]
      decreases |rest|
    {
      var h :| h in rest;
      rest := rest - {h};
      r := r[h := f(h)];
    }
  }

  method DropWhere<V>(m: map<nat, V>, drop: nat -> bool) returns (r: map<nat, V>)
    ensures r == map h | h in m && !drop(h) :: m[h]
  {
    r := m;
    var rest := m.Keys;
    while rest != {}
      invariant rest <= m.Keys
      invariant forall h :: h in r <==> h in m && (h in rest || !drop(h))
      invariant forall h :: h in r ==> r[h] == m[h]
      decreases |rest|
    {
      var h :| h in rest;
      rest := rest - {h};
      if drop(h) {
        r := r - {h};
      }
    }
  }

  method DropRange(m: map<nat, Attempt>, from: nat, to: nat) returns (r: map<nat, Attempt>)
    ensures r == map h | h in m && !(from <= h <= to) :: m[h]
  {
    r := m;
    var h := from;
    while h <= to
      invariant from <= h && (h <= to + 1 || h == from)
      invariant forall k :: k in r <==> k in m && !(from <= k < h)
      invariant forall k :: k in r ==> r[k] == m[k]
      decreases 1 + to - h
    {
      r := r - {h};
      h := h + 1;
    }
  }

  // ---------------------------------------------------------------- state.go

  /** A channel that is only ever closed; closing it twice panics. */
  class Signal {
    var closed: bool

    constructor ()
      ensures !closed
    {
      closed := false;
    }

    method Close()
      requires !closed
      modifies this
      ensures closed
    {
      closed := true;
    }
  }

  class CoordinatorState {
    const samplingRange: nat
    const intervals: seq<nat>
    var inProgress: map<nat, SamplingWorker>
    var failed: map<nat, Attempt>
    var inRetry: map<nat, Attempt>
    var nextJobID: nat
    var next: nat
    var networkHead: nat
    var catchUpDone: bool
    var catchUpDoneCh: Signal

    /** The current channel is closed exactly when the flag is set. */
    ghost predicate Valid()
      reads this, catchUpDoneCh
    {
      catchUpDone <==> catchUpDoneCh.closed
    }

    ghost function Abs(): Coord
      reads this, inProgress.Values
    {
      Coord(samplingRange, intervals, map id | id in inProgress :: inProgress[id].state,
            failed, inRetry, nextJobID, next, networkHead, catchUpDone)
    }

    constructor (samplingRange: nat, intervals: seq<nat>)
      ensures Valid() && fresh(catchUpDoneCh)
      ensures Abs() == NewCoord(samplingRange, intervals)
    {
      this.samplingRange, this.intervals := samplingRange, intervals;
      inProgress, failed, inRetry := map[], map[], map[];
      nextJobID, next, networkHead, catchUpDone := 0, 0, 0, false;
      catchUpDoneCh := new Signal();
    }

    method ResumeFromCheckpoint(c: Checkpoint, now: nat)
      requires Valid()
      modifies this
      ensures Valid() && Abs() == DasState.ResumeFromCheckpoint(old(Abs()), c, now)
      ensures inProgress == old(inProgress) && catchUpDoneCh == old(catchUpDoneCh)
    {
      next, networkHead := c.sampleFrom, c.networkHead;
      failed := PutEach(failed, c.failed.Keys, h => if h in c.failed then Attempt(c.failed[h], now) else Attempt(0, now));
      assert failed == old(failed) + map h | h in c.failed :: Attempt(c.failed[h], now);
    }

    /** Sets the flag to the exact condition; the channel in use is closed at most once. */
    method CheckDone()
      requires Valid()
      modifies this, catchUpDoneCh
      ensures Valid() && Abs() == DasState.CheckDone(old(Abs()))
      ensures inProgress == old(inProgress)
      ensures catchUpDoneCh == old(catchUpDoneCh) || fresh(catchUpDoneCh)
      ensures old(catchUpDone) == catchUpDone ==> catchUpDoneCh == old(catchUpDoneCh)
    {
      ghost var before := Abs();
      assert before.inProgress.Keys == inProgress.Keys;
      if |inProgress| == 0 && |failed| == 0 && next > networkHead {
        if !catchUpDone {
          catchUpDone := true;
          catchUpDoneCh.Close();
        }
        return;
      }
      if catchUpDone {
        catchUpDoneCh := new Signal();
        catchUpDone := false;
      }
    }

    method HandleRecentOrCatchupResult(res: Result, now: nat)
      modifies this`failed
      ensures failed == FailedAfterRecentOrCatchup(old(failed), intervals, res, now)
    {
      failed := DropWhere(failed, (h: nat) => Resolved(res, h));
      failed := PutEach(failed, res.failed.Keys, (h: nat) => NextRetry(intervals, Attempt(0, 0), now).0);
    }

    method HandleRetryResult(res: Result, now: nat)
      modifies this`failed, this`inRetry
      ensures failed == FailedAfterRetry(old(failed), old(inRetry), intervals, res, now)
      ensures inRetry == map h | h in old(inRetry) && !(res.job.from <= h <= res.job.to) :: old(inRetry)[h]
    {
      var last := inRetry;
      failed := PutEach(failed, res.failed.Keys, (h: nat) => NextRetry(intervals, AttemptOf(last, h), now).0);
      inRetry := DropRange(inRetry, res.job.from, res.job.to);
    }

    method RemoveWorker(id: nat)
      modifies this`inProgress
      ensures inProgress == old(inProgress) - {id}
      ensures Abs() == old(Abs()).(inProgress := old(Abs()).inProgress - {id})
    {
      inProgress := inProgress - {id};
    }

    method ApplyResult(res: Result, now: nat)
      modifies this`failed, this`inRetry
      ensures Abs() == if res.job.kind.RetryJob? then DasState.HandleRetryResult(old(Abs()), res, now)
                       else DasState.HandleRecentOrCatchupResult(old(Abs()), res, now)
    {
      if res.job.kind == JobType.RetryJob {
        HandleRetryResult(res, now);
      } else {
        HandleRecentOrCatchupResult(res, now);
      }
    }

    method HandleResult(res: Result, now: nat)
      requires Valid()
      modifies this, catchUpDoneCh
      ensures Valid() && Abs() == DasState.HandleResult(old(Abs()), res, now)
      ensures inProgress == old(inProgress) - {res.job.id}
      ensures catchUpDoneCh == old(catchUpDoneCh) || fresh(catchUpDoneCh)
    {
      RemoveWorker(res.job.id);
      ApplyResult(res, now);
      CheckDone();
    }

    method IsNewHead(newHead: nat) returns (isNew: bool)
      ensures isNew <==> newHead > networkHead
    {
      isNew := newHead > networkHead;
    }

    method UpdateHead(newHead: nat)
      requires Valid()
      modifies this, catchUpDoneCh
      ensures Valid() && Abs() == DasState.UpdateHead(old(Abs()), newHead)
      ensures inProgress == old(inProgress)
      ensures catchUpDoneCh == old(catchUpDoneCh) || fresh(catchUpDoneCh)
    {
      networkHead := newHead;
      CheckDone();
    }

    method NewJob(kind: JobType, from: nat, to: nat) returns (j: Job)
      modifies this`nextJobID
      ensures nextJobID == old(nextJobID) + 1 && j == Job(nextJobID, kind, from, to)
    {
      nextJobID := nextJobID + 1;
      j := Job(nextJobID, kind, from, to);
    }

    /** Starts the goroutine of a new job. */
    method RunWorker(j: Job) returns (w: SamplingWorker)
      modifies this`inProgress
      ensures fresh(w) && w.state == NewWorker(j) && inProgress == old(inProgress)[j.id := w]
      ensures Abs() == old(Abs()).(inProgress := old(Abs()).inProgress[j.id := NewWorker(j)])
    {
      ghost var before := Abs();
      w := new SamplingWorker(j);
      assert w !in old(inProgress.Values);
      inProgress := inProgress[j.id := w];
      assert Abs().inProgress == before.inProgress[j.id := NewWorker(j)];
    }

    method StartRecentJob(h: nat)
      requires Valid()
      modifies this
      ensures Valid() && Abs() == RunRecentJob(old(Abs()), h)
      ensures catchUpDoneCh == old(catchUpDoneCh)
    {
      if next == h {
        next := next + 1;
      }
      var j := NewJob(RecentJob, h, h);
      var _ := RunWorker(j);
    }

    /** The main loop's reaction to a head from the subscription. */
    method OnNewHead(h: nat, limit: nat)
      requires Valid()
      modifies this, catchUpDoneCh
      ensures Valid() && Abs() == HandleNewHead(old(Abs()), h, limit)
    {
      assert Abs().inProgress.Keys == inProgress.Keys;
      var isNew := IsNewHead(h);
      if isNew {
        if |inProgress| < 2 * limit {
          StartRecentJob(h);
        }
        UpdateHead(h);
      }
    }

    method ResumeWorker(w: WorkerCheckpoint)
      requires Valid()
      modifies this`nextJobID, this`inProgress
      ensures Valid() && Abs() == RunJob(old(Abs()), w.kind, w.from, w.to)
    {
      var j := NewJob(w.kind, w.from, w.to);
      var _ := RunWorker(j);
    }

    method ResumeWorkers(workers: seq<WorkerCheckpoint>)
      requires Valid()
      modifies this`nextJobID, this`inProgress
      ensures Valid() && Abs() == DasState.ResumeWorkers(old(Abs()), workers)
    {
      ghost var before := Abs();
      for i := 0 to |workers|
        invariant Valid() && Abs() == DasState.ResumeWorkers(before, workers[..i])
      {
        assert workers[..i + 1][..i] == workers[..i];
        ResumeWorker(workers[i]);
      }
      assert workers[..|workers|] == workers;
    }

    /** What the coordinator does before it enters its main loop. */
    method StartRun(cp: Checkpoint, now: nat)
      requires Valid() && Abs() == NewCoord(samplingRange, intervals)
      modifies this, catchUpDoneCh
      ensures Valid() && Abs() == DasState.StartRun(samplingRange, intervals, cp, now)
    {
      ResumeFromCheckpoint(cp, now);
      ResumeWorkers(cp.workers);
      CheckDone();
    }

    method CatchupJob() returns (j: Job, found: bool)
      requires Valid() && 1 <= samplingRange < U64 && next < U64 && networkHead < U64
      modifies this`nextJobID, this`next
      ensures found <==> old(next) <= networkHead
      ensures !found ==> unchanged(this)
      ensures found ==> nextJobID == old(nextJobID) + 1 && next == CatchupTo(old(Abs())) + 1
      ensures found ==> j == Job(nextJobID, JobType.CatchupJob, old(next), CatchupTo(old(Abs())))
    {
      if next > networkHead {
        return Job(0, JobType.CatchupJob, 0, 0), false;
      }
      var to := Min((next + samplingRange - 1) % U64, networkHead);
      j := NewJob(JobType.CatchupJob, next, to);
      next := to + 1;
      found := true;
    }

    method RetryJob(now: nat) returns (j: Job, found: bool)
      requires Valid()
      modifies this`nextJobID, this`failed, this`inRetry
      ensures found <==> exists h :: h in old(failed) && CanRetry(old(failed)[h], now)
      ensures !found ==> unchanged(this)
      ensures found ==>
        && nextJobID == old(nextJobID) + 1
        && j == Job(nextJobID, JobType.RetryJob, j.from, j.from)
        && j.from in old(failed) && CanRetry(old(failed)[j.from], now)
        && failed == old(failed) - {j.from}
        && inRetry == old(inRetry)[j.from := old(failed)[j.from]]
    {
      var keys := failed.Keys;
      while keys != {}
        invariant unchanged(this) && keys <= failed.Keys
        invariant forall h :: h in failed && h !in keys ==> !CanRetry(failed[h], now)
        decreases |keys|
      {
        var h :| h in keys;
        keys := keys - {h};
        if CanRetry(failed[h], now) {
          var attempt := failed[h];
          failed := failed - {h};
          inRetry := inRetry[h := attempt];
          j := NewJob(JobType.RetryJob, h, h);
          return j, true;
        }
      }
      j, found := Job(0, JobType.RetryJob, 0, 0), false;
    }

    method StartRetryJob(now: nat) returns (found: bool)
      requires Valid()
      modifies this
      ensures Valid() && catchUpDoneCh == old(catchUpDoneCh)
      ensures !found ==> unchanged(this) && forall h :: h in failed ==> !CanRetry(failed[h], now)
      ensures found ==> exists h ::
        h in old(failed) && CanRetry(old(failed)[h], now) && Abs() == RunRetryJob(old(Abs()), h)
    {
      ghost var before := Abs();
      var j;
      j, found := RetryJob(now);
      if found {
        var _ := RunWorker(j);
        assert Abs() == RunRetryJob(before, j.from);
      }
    }

    method StartCatchupJob() returns (found: bool)
      requires Valid() && 1 <= samplingRange < U64 && next < U64 && networkHead < U64
      modifies this
      ensures Valid() && catchUpDoneCh == old(catchUpDoneCh)
      ensures found <==> old(next) <= old(networkHead)
      ensures !found ==> unchanged(this)
      ensures found ==> Abs() == RunCatchupJob(old(Abs()))
    {
      ghost var before := Abs();
      var j;
      j, found := CatchupJob();
      if found {
        var _ := RunWorker(j);
        assert Abs() == RunCatchupJob(before);
      }
    }

    /** Retries come before catch-up; whichever job is found is started. */
    method StartNextJob(now: nat) returns (found: bool)
      requires Valid() && 1 <= samplingRange < U64 && next < U64 && networkHead < U64
      modifies this
      ensures Valid()
      ensures !found ==> unchanged(this) && next > networkHead && forall h :: h in failed ==> !CanRetry(failed[h], now)
      ensures found ==>
        || (exists h :: h in old(failed) && CanRetry(old(failed)[h], now) && Abs() == RunRetryJob(old(Abs()), h))
        || ((forall h :: h in old(failed) ==> !CanRetry(old(failed)[h], now)) && Abs() == RunCatchupJob(old(Abs())))
    {
      found := StartRetryJob(now);
      if !found {
        found := StartCatchupJob();
      }
    }

    /** Reads every worker in progress, in some order. */
    method TallyWorkers() returns (t: Tally, order: seq<nat>)
      ensures Permutes(order, inProgress.Keys)
      ensures t == CollectAll(StartTally(Abs()), Abs(), order)
    {
      order := KeyOrder(inProgress.Keys);
      t := TallyInOrder(order);
    }

    method TallyInOrder(order: seq<nat>) returns (t: Tally)
      requires forall id :: id in order ==> id in inProgress
      ensures t == CollectAll(StartTally(Abs()), Abs(), order)
    {
      ghost var c := Abs();
      t := Tally(next, map[], []);
      for i := 0 to |order|
        invariant t == CollectAll(StartTally(c), c, order[..i])
      {
        assert order[..i + 1][..i] == order[..i];
        t := CollectWorker(t, inProgress[order[i]].state);
      }
      assert order[..|order|] == order;
    }

    method FinishStats(t: Tally) returns (stats: Stats)
      ensures stats == FinishTally(t, Abs())
    {
      var lowest := LowestOf(failed.Keys, t.lowest);
      var failing := AddCounts(t.failed, Counts(failed));
      failing := AddCounts(failing, Counts(inRetry));
      stats := Stats(Dec64(lowest), Dec64(next), networkHead, failing, t.workers, |t.workers|, catchUpDone, |t.workers| > 0 || catchUpDone);
    }

    /** Statistics over the workers in some order; nothing else runs while they are taken. */
    method UnsafeStats() returns (stats: Stats, order: seq<nat>)
      ensures Permutes(order, inProgress.Keys)
      ensures stats == FinishTally(CollectAll(StartTally(Abs()), Abs(), order), Abs())
    {
      var t;
      t, order := TallyWorkers();
      stats := FinishStats(t);
    }
  }

  method LowestOf(hs: set<nat>, start: nat) returns (r: nat)
    ensures r == Lowest(hs, start)
  {
    r := start;
    var rest := hs;
    while rest != {}
      invariant rest <= hs
      invariant r <= start && forall h :: h in hs && h !in rest ==> r <= h
      invariant r == start || r in hs
      decreases |rest|
    {
      var h :| h in rest;
      rest := rest - {h};
      if h < r {
        r := h;
      }
    }
  }

  ghost predicate Permutes(order: seq<nat>, ids: set<nat>) {
    && (forall i, j :: 0 <= i < j < |order| ==> order[i] != order[j])
    && (forall id :: id in order <==> id in ids)
  }

  lemma PermutesSnoc(order: seq<nat>, ids: set<nat>, id: nat)
    requires Permutes(order, ids) && id !in ids
    ensures Permutes(order + [id], ids + {id})
  {
  }

  method KeyOrder(ids: set<nat>) returns (order: seq<nat>)
    ensures Permutes(order, ids)
  {
    order := [];
    var rest := ids;
    while rest != {}
      invariant rest <= ids && Permutes(order, ids - rest)
      decreases |rest|
    {
      var id :| id in rest;
      PermutesSnoc(order, ids - rest, id);
      assert ids - (rest - {id}) == ids - rest + {id};
      order, rest := order + [id], rest - {id};
    }
    assert ids - rest == ids;
  }

  ghost function CollectAll(t: Tally, c: Coord, order: seq<nat>): Tally
    requires forall id :: id in order ==> id in c.inProgress
  {
    if order == [] then t
    else Collect(CollectAll(t, c, order[..|order| - 1]), c.inProgress[order[|order| - 1]])
  }

  /** Each failed height that has been visited, which are those not in `rest`, is counted once more. */
  ghost predicate CountedTo(r: map<nat, nat>, failing: map<nat, nat>, failed: map<nat, nat>, rest: set<nat>) {
    forall h: nat :: CountedAt(r, failing, failed, rest, h)
  }

  ghost predicate CountedAt(r: map<nat, nat>, failing: map<nat, nat>, failed: map<nat, nat>, rest: set<nat>, h: nat) {
    && (h in r <==> h in failing || (h in failed && h !in rest))
    && (h in r ==> r[h] == CountOf(failing, h) + if h in failed && h !in rest then 1 else 0)
  }

  lemma CountOneMore(r: map<nat, nat>, failing: map<nat, nat>, failed: map<nat, nat>, rest: set<nat>, h: nat)
    requires CountedTo(r, failing, failed, rest) && h in rest && h in failed
    ensures CountedTo(r[h := CountOf(r, h) + 1], failing, failed, rest - {h})
  {
    var r', rest' := r[h := CountOf(r, h) + 1], rest - {h};
    forall k: nat ensures CountedAt(r', failing, failed, rest', k) {
      assert CountedAt(r, failing, failed, rest, k);
    }
  }

  lemma CountedAll(r: map<nat, nat>, failing: map<nat, nat>, failed: map<nat, nat>)
    requires CountedTo(r, failing, failed, {})
    ensures r == AddCounts(failing, map h | h in failed :: 1)
  {
    var sum := AddCounts(failing, map h | h in failed :: 1);
    forall h: nat ensures h in r <==> h in sum {
      assert CountedAt(r, failing, failed, {}, h);
    }
    forall h | h in r ensures r[h] == sum[h] {
      assert CountedAt(r, failing, failed, {}, h);
    }
  }

  method CountFailed(failing: map<nat, nat>, failed: map<nat, nat>) returns (r: map<nat, nat>)
    ensures r == AddCounts(failing, map h | h in failed :: 1)
  {
    r := failing;
    var rest := failed.Keys;
    while rest != {}
      invariant rest <= failed.Keys && CountedTo(r, failing, failed, rest)
      decreases |rest|
    {
      var h :| h in rest;
      CountOneMore(r, failing, failed, rest, h);
      rest := rest - {h};
      r := r[h := CountOf(r, h) + 1];
    }
    CountedAll(r, failing, failed);
  }

  /** One worker's contribution to the statistics. */
  method CollectWorker(t: Tally, w: Worker) returns (r: Tally)
    ensures r == Collect(t, w)
  {
    var failing := CountFailed(t.failed, w.failed);
    var lowest := LowestOf(w.failed.Keys + {w.curr}, t.lowest);
    r := Tally(lowest, failing, t.workers + [WorkerStats(w.job.kind, w.curr, w.job.from, w.job.to)]);
  }

  // ---------------------------------------------------------------- checkpoint.go and daser.go

  method MakeCheckpoint(stats: Stats) returns (cp: Checkpoint)
    ensures cp == NewCheckpoint(stats)
  {
    var workers: seq<WorkerCheckpoint> := [];
    for i := 0 to |stats.workers|
      invariant workers == KeepWorkers(stats.workers[..i], stats.catchupHead)
    {
      var w := stats.workers[i];
      assert stats.workers[..i + 1][..i] == stats.workers[..i];
      if w.kind == CatchupJob || (w.kind == RecentJob && w.curr <= stats.catchupHead) {
        workers := workers + [WorkerCheckpoint(w.curr, w.to, CatchupJob)];
      }
    }
    assert stats.workers[..|stats.workers|] == stats.workers;
    cp := Checkpoint(Add64(stats.catchupHead, 1), stats.networkHead, stats.failed, workers);
  }

  method TrimCheckpoint(stored: Option<Checkpoint>, tail: nat, head: nat) returns (cp: Checkpoint)
    ensures cp == LoadCheckpoint(stored, tail, head)
  {
    if stored.None? {
      return Checkpoint(tail, head, map[], []);
    }
    cp := stored.value;
    if cp.sampleFrom < tail {
      cp := cp.(sampleFrom := tail);
    }
    if cp.networkHead < head {
      cp := cp.(networkHead := head);
    }
    var failed := DropWhere(cp.failed, h => h < tail);
    var workers: seq<WorkerCheckpoint> := [];
    for i := 0 to |cp.workers|
      invariant workers == TrimWorkers(cp.workers[..i], tail)
    {
      var w := cp.workers[i];
      assert cp.workers[..i + 1][..i] == cp.workers[..i];
      if w.to >= tail {
        if w.from < tail {
          w := w.(from := tail);
        }
        workers := workers + [w];
      }
    }
    assert cp.workers[..|cp.workers|] == cp.workers;
    cp := cp.(failed := failed, workers := workers);
  }
}
