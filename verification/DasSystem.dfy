/**
 The sampling system as a transition system: the coordinator's loop, its workers,
 statistics gathered while workers keep running, checkpoints persisted at any later
 time, crashes, orderly stops and restarts. The theorems at the end hold in every
 state of every run.
 */
module DasSystem {
  import opened Basics
  import opened DasState

  // ---------------------------------------------------------------- the system

  /** Heights are int64 in the header, so far from wrapping a uint64. */
  const MaxHeight: nat := 0x8000_0000_0000_0000

  /**
   Where the coordinator is. `Filling` starts jobs up to the limit, `Selecting` waits for
   an event, `Paused` is blocked while statistics are gathered worker by worker,
   `Draining` waits for cancelled workers and `Stopped` has returned. `Down`: no process.
   */
  datatype Phase =
    | Down
    | Filling
    | Selecting
    | Paused(final: bool, rest: set<nat>, tally: Tally)
    | Draining
    | Stopped

  /**
   `sampled` records which heights were sampled (or found outside the window) since the
   beginning, `base` the largest tail a start has used, `peak` the largest concurrency
   limit. `snapshots` are checkpoints taken but not yet written to disk.
   */
  datatype Sys = Sys(
    phase: Phase,
    coord: Coord,
    limit: nat,
    stored: Option<Checkpoint>,
    snapshots: set<Checkpoint>,
    sampled: set<nat>,
    base: nat,
    peak: nat)

  datatype Step =
    | Start(tail: nat, head: nat, range: nat, intervals: seq<nat>, newLimit: nat, at: nat)
    | FillRetry(h: nat, at: nat)
    | FillCatchup(at: nat)
    | FillDone(at: nat)
    | NewHead(h: nat)
    | Deliver(id: nat, at: nat)
    | WorkerSample(id: nat, o: Outcome)
    | WorkerQuit(id: nat)
    | StatsBegin
    | StatsCollect(id: nat)
    | StatsEnd
    | Persist(cp: Checkpoint)
    | PersistEmpty
    | Cancel
    | Drained
    | Crash

  predicate WorkersRun(p: Phase) {
    p.Filling? || p.Selecting? || (p.Paused? && !p.final) || p.Draining?
  }

  predicate NoneCanRetry(c: Coord, now: nat) {
    forall h :: h in c.failed ==> !CanRetry(c.failed[h], now)
  }

  predicate LimitReached(s: Sys) { |s.coord.inProgress| >= s.limit }

  ghost predicate Enabled(s: Sys, t: Step) {
    match t
    case Start(tail, head, range, _, newLimit, _) =>
      s.phase.Down? && 1 <= tail <= head < MaxHeight && 1 <= range < U64 && 1 <= newLimit
    case FillRetry(h, at) =>
      s.phase.Filling? && !LimitReached(s) && h in s.coord.failed && CanRetry(s.coord.failed[h], at)
    case FillCatchup(at) =>
      s.phase.Filling? && !LimitReached(s) && NoneCanRetry(s.coord, at) && s.coord.next <= s.coord.networkHead
    case FillDone(at) =>
      s.phase.Filling? && (LimitReached(s) || (NoneCanRetry(s.coord, at) && s.coord.next > s.coord.networkHead))
    case NewHead(h) => s.phase.Selecting? && h < MaxHeight
    case Deliver(id, _) =>
      s.phase.Selecting? && id in s.coord.inProgress && s.coord.inProgress[id].live && Finished(s.coord.inProgress[id])
    case WorkerSample(id, _) =>
      WorkersRun(s.phase) && id in s.coord.inProgress && s.coord.inProgress[id].live && !Finished(s.coord.inProgress[id])
    case WorkerQuit(id) =>
      WorkersRun(s.phase) && id in s.coord.inProgress && s.coord.inProgress[id].live
    case StatsBegin => s.phase.Selecting? || s.phase.Stopped?
    case StatsCollect(id) => s.phase.Paused? && id in s.phase.rest && id in s.coord.inProgress
    case StatsEnd => s.phase.Paused? && s.phase.rest == {}
    case Persist(cp) => !s.phase.Down? && cp in s.snapshots
    case PersistEmpty => !s.phase.Down?
    case Cancel => s.phase.Selecting?
    case Drained => s.phase.Draining? && forall id :: id in s.coord.inProgress ==> !s.coord.inProgress[id].live
    case Crash => !s.phase.Down?
  }

  function SetWorker(c: Coord, id: nat, w: Worker): Coord {
    c.(inProgress := c.inProgress[id := w])
  }

  ghost function Apply(s: Sys, t: Step): Sys
    requires Enabled(s, t)
  {
    match t
    case Start(tail, head, range, intervals, newLimit, at) =>
      s.(phase := Filling, coord := StartRun(range, intervals, LoadCheckpoint(s.stored, tail, head), at),
         limit := newLimit, snapshots := {}, base := Max(s.base, tail), peak := Max(s.peak, newLimit))
    case FillRetry(h, _) => s.(coord := RunRetryJob(s.coord, h))
    case FillCatchup(_) => s.(coord := RunCatchupJob(s.coord))
    case FillDone(_) => s.(phase := Selecting)
    case NewHead(h) => s.(phase := Filling, coord := HandleNewHead(s.coord, h, s.limit))
    case Deliver(id, at) =>
      var w := s.coord.inProgress[id];
      s.(phase := Filling, coord := HandleResult(s.coord, Result(w.job, w.failed), at))
    case WorkerSample(id, o) =>
      var w := s.coord.inProgress[id];
      s.(coord := SetWorker(s.coord, id, StepWorker(w, o)),
         sampled := if o.SampleFailed? then s.sampled else s.sampled + {w.pos})
    case WorkerQuit(id) => s.(coord := SetWorker(s.coord, id, s.coord.inProgress[id].(live := false)))
    case StatsBegin => s.(phase := Paused(s.phase.Stopped?, s.coord.inProgress.Keys, StartTally(s.coord)))
    case StatsCollect(id) =>
      s.(phase := Paused(s.phase.final, s.phase.rest - {id}, Collect(s.phase.tally, s.coord.inProgress[id])))
    case StatsEnd =>
      s.(phase := if s.phase.final then Stopped else Filling,
         snapshots := s.snapshots + {NewCheckpoint(FinishTally(s.phase.tally, s.coord))})
    case Persist(cp) => s.(stored := Some(cp))
    case PersistEmpty => s.(stored := Some(EmptyCheckpoint))
    case Cancel => s.(phase := Draining)
    case Drained => s.(phase := Stopped)
    case Crash => s.(phase := Down, snapshots := {})
  }

  predicate Init(s: Sys) {
    s.phase.Down? && s.stored.None? && s.snapshots == {} && s.sampled == {} && s.base == 0 && s.peak == 0
  }

  /** A run: each state follows from the one before by some enabled step. */
  ghost predicate IsRun(states: seq<Sys>, steps: seq<Step>) {
    && |states| == |steps| + 1
    && Init(states[0])
    && forall i :: 0 <= i < |steps| ==> Enabled(states[i], steps[i]) && states[i + 1] == Apply(states[i], steps[i])
  }

  // ---------------------------------------------------------------- the invariant

  /** A worker's own bookkeeping, against what has really been sampled. */
  ghost predicate WorkerOk(w: Worker, sampled: set<nat>) {
    && 1 <= w.job.from <= w.pos
    && (w.pos <= w.job.to + 1 || w.pos == w.job.from)
    && w.curr == (if w.pos == w.job.from then w.pos else w.pos - 1)
    && forall h: nat {:trigger h in w.failed} ::
         && (h in w.failed ==> w.job.from <= h < w.pos && w.failed[h] >= 1)
         && (w.job.from <= h < w.pos ==> h in w.failed || h in sampled)
  }

  ghost predicate WorkersOk(ws: map<nat, Worker>, sampled: set<nat>, lastID: nat) {
    forall id :: id in ws ==> ws[id].job.id == id <= lastID && WorkerOk(ws[id], sampled)
  }

  /** Some worker in progress answers for the height. */
  ghost predicate Covered(ws: map<nat, Worker>, h: nat) {
    exists id :: id in ws && Covers(ws[id], h)
  }

  /** No height below `next` is forgotten. */
  ghost predicate Tracked(c: Coord, sampled: set<nat>, base: nat) {
    forall h :: base <= h < c.next && h !in sampled ==> h in c.failed || Covered(c.inProgress, h)
  }

  ghost predicate IsRetryOf(w: Worker, h: nat) {
    w.job.kind.RetryJob? && w.job.from <= h <= w.job.to
  }

  /** A height being retried is still recorded, although retries of one height may overlap. */
  ghost predicate RetriesRecorded(c: Coord, sampled: set<nat>) {
    forall id, h: nat :: id in c.inProgress && IsRetryOf(c.inProgress[id], h) && h !in sampled ==> h in c.failed || h in c.inRetry
  }

  ghost predicate RetryKeysOwned(c: Coord) {
    forall h :: h in c.inRetry ==> exists id :: id in c.inProgress && IsRetryOf(c.inProgress[id], h)
  }

  /** What every single update keeps, even between the updates of one handler. */
  ghost predicate CoreOk(c: Coord, sampled: set<nat>, base: nat) {
    && WorkersOk(c.inProgress, sampled, c.nextJobID)
    && c.next >= 1
    && 1 <= c.samplingRange < U64
    && (forall h :: h in c.failed ==> h >= 1)
    && Tracked(c, sampled, base)
    && RetriesRecorded(c, sampled)
    && RetryKeysOwned(c)
  }

  ghost predicate CoordOk(c: Coord, sampled: set<nat>, base: nat) {
    && CoreOk(c, sampled, base)
    && c.next <= c.networkHead + 1 <= MaxHeight
    && c.catchUpDone == NothingLeft(c)
  }

  /** Resuming from the checkpoint would sample the height again. */
  ghost predicate Reaches(cp: Checkpoint, h: nat) {
    || h >= cp.sampleFrom
    || h in cp.failed
    || exists w :: w in cp.workers && w.from <= h <= w.to
  }

  ghost predicate CheckpointOk(cp: Checkpoint, sampled: set<nat>, base: nat, peak: nat) {
    && (forall h :: h >= base && h !in sampled ==> Reaches(cp, h))
    && cp.sampleFrom <= cp.networkHead + 1 <= MaxHeight
    && (forall h :: h in cp.failed ==> h >= 1)
    && (forall w :: w in cp.workers ==> w.kind.CatchupJob? && w.from >= 1)
    && |cp.workers| <= 2 * peak
  }

  /** The statistics gathered so far already account for a height of the given worker. */
  ghost predicate Reported(t: Tally, w: Worker, h: nat) {
    t.lowest <= h &&
    (h in t.failed || exists ws :: ws in t.workers && ws.kind == w.job.kind && ws.curr <= h <= ws.to)
  }

  /**
   Statistics are not an atomic picture: a worker goes on after it was read. Whatever it
   still answers for was already reported when it was read.
   */
  ghost predicate TallyOk(t: Tally, rest: set<nat>, c: Coord, sampled: set<nat>) {
    && rest <= c.inProgress.Keys
    && 1 <= t.lowest <= c.next
    && (forall h :: h in t.failed ==> h >= 1)
    && (forall ws :: ws in t.workers ==> ws.curr >= 1)
    && |t.workers| + |rest| <= |c.inProgress|
    && forall id, h: nat :: id in c.inProgress && id !in rest && h !in sampled && Covers(c.inProgress[id], h)
         ==> Reported(t, c.inProgress[id], h)
  }

  ghost predicate Inv(s: Sys) {
    && (s.stored.Some? ==> CheckpointOk(s.stored.value, s.sampled, s.base, s.peak))
    && (forall cp :: cp in s.snapshots ==> CheckpointOk(cp, s.sampled, s.base, s.peak))
    && (!s.phase.Down? ==>
          && CoordOk(s.coord, s.sampled, s.base)
          && |s.coord.inProgress| <= 2 * s.peak
          && s.limit <= s.peak)
    && (s.phase.Paused? ==> TallyOk(s.phase.tally, s.phase.rest, s.coord, s.sampled))
  }

  // ---------------------------------------------------------------- starting jobs

  /** From `c`, a job on [from, to] was started: what the three kinds of jobs have in common. */
  ghost predicate Launched(c: Coord, c': Coord, kind: JobType, from: nat, to: nat) {
    && c'.nextJobID == c.nextJobID + 1
    && c'.inProgress == c.inProgress[c.nextJobID + 1 := NewWorker(Job(c.nextJobID + 1, kind, from, to))]
    && c'.samplingRange == c.samplingRange
    && from >= 1 && c'.next >= 1
    && (c'.next <= c.next || (c.next == from && c'.next == to + 1))
    && (kind.RetryJob? ==> from == to && c'.inRetry.Keys == c.inRetry.Keys + {from} && c'.failed.Keys == c.failed.Keys - {from})
    && (!kind.RetryJob? ==> c'.inRetry == c.inRetry && c'.failed == c.failed)
  }

  /** A new job gets a fresh id, so no running worker is displaced. */
  lemma LaunchedWorkers(c: Coord, c': Coord, kind: JobType, from: nat, to: nat, sampled: set<nat>)
    requires Launched(c, c', kind, from, to)
    requires WorkersOk(c.inProgress, sampled, c.nextJobID)
    ensures WorkersOk(c'.inProgress, sampled, c'.nextJobID)
  {
  }

  lemma LaunchedCount(c: Coord, c': Coord, kind: JobType, from: nat, to: nat)
    requires Launched(c, c', kind, from, to)
    requires forall id :: id in c.inProgress ==> id <= c.nextJobID
    ensures |c'.inProgress| == |c.inProgress| + 1
  {
    assert c'.inProgress.Keys == c.inProgress.Keys + {c'.nextJobID};
  }

  lemma LaunchedTracked(c: Coord, c': Coord, kind: JobType, from: nat, to: nat, sampled: set<nat>, base: nat)
    requires Launched(c, c', kind, from, to)
    requires forall id :: id in c.inProgress ==> id <= c.nextJobID
    requires Tracked(c, sampled, base)
    ensures Tracked(c', sampled, base)
  {
    forall h | base <= h < c'.next && h !in sampled
      ensures h in c'.failed || Covered(c'.inProgress, h)
    {
      if from <= h <= to {
        assert Covers(c'.inProgress[c'.nextJobID], h);
      } else if h !in c.failed {
        var id :| id in c.inProgress && Covers(c.inProgress[id], h);
        assert id in c'.inProgress && Covers(c'.inProgress[id], h);
      }
    }
  }

  lemma LaunchedRetries(c: Coord, c': Coord, kind: JobType, from: nat, to: nat, sampled: set<nat>)
    requires Launched(c, c', kind, from, to)
    requires forall id :: id in c.inProgress ==> id <= c.nextJobID
    requires RetriesRecorded(c, sampled) && RetryKeysOwned(c)
    ensures RetriesRecorded(c', sampled) && RetryKeysOwned(c')
  {
    var newID := c'.nextJobID;
    forall id, h: nat | id in c'.inProgress && IsRetryOf(c'.inProgress[id], h) && h !in sampled
      ensures h in c'.failed || h in c'.inRetry
    {
      if id != newID { assert IsRetryOf(c.inProgress[id], h); }
    }
    forall h | h in c'.inRetry
      ensures exists id :: id in c'.inProgress && IsRetryOf(c'.inProgress[id], h)
    {
      if h in c.inRetry {
        var id :| id in c.inProgress && IsRetryOf(c.inProgress[id], h);
        assert IsRetryOf(c'.inProgress[id], h);
      } else {
        assert IsRetryOf(c'.inProgress[newID], h);
      }
    }
  }

  lemma LaunchedOk(c: Coord, c': Coord, kind: JobType, from: nat, to: nat, sampled: set<nat>, base: nat)
    requires Launched(c, c', kind, from, to)
    requires CoreOk(c, sampled, base)
    ensures CoreOk(c', sampled, base)
    ensures |c'.inProgress| == |c.inProgress| + 1
  {
    LaunchedWorkers(c, c', kind, from, to, sampled);
    LaunchedCount(c, c', kind, from, to);
    LaunchedTracked(c, c', kind, from, to, sampled, base);
    LaunchedRetries(c, c', kind, from, to, sampled);
  }

  lemma NewHeadOk(c: Coord, h: nat, limit: nat, sampled: set<nat>, base: nat)
    requires CoordOk(c, sampled, base) && h < MaxHeight
    ensures CoordOk(HandleNewHead(c, h, limit), sampled, base)
    ensures |HandleNewHead(c, h, limit).inProgress| <= Max(|c.inProgress|, 2 * limit)
  {
    if h > c.networkHead && |c.inProgress| < 2 * limit {
      LaunchedOk(c, RunRecentJob(c, h), RecentJob, h, h, sampled, base);
    }
  }

  /** Also when `next + samplingRange - 1` wraps around: the job is then empty and `next` only moves back. */
  lemma CatchupOk(c: Coord, sampled: set<nat>, base: nat)
    requires CoordOk(c, sampled, base) && c.next <= c.networkHead
    ensures CoordOk(RunCatchupJob(c), sampled, base)
    ensures |RunCatchupJob(c).inProgress| == |c.inProgress| + 1
  {
    LaunchedOk(c, RunCatchupJob(c), CatchupJob, c.next, CatchupTo(c), sampled, base);
  }

  lemma RetryLaunched(c: Coord, h: nat)
    requires h in c.failed && h >= 1 && c.next >= 1
    ensures Launched(c, RunRetryJob(c, h), RetryJob, h, h)
  {
  }

  lemma RetryOk(c: Coord, h: nat, sampled: set<nat>, base: nat)
    requires CoordOk(c, sampled, base) && h in c.failed
    ensures CoordOk(RunRetryJob(c, h), sampled, base)
    ensures |RunRetryJob(c, h).inProgress| == |c.inProgress| + 1
  {
    var c' := RunRetryJob(c, h);
    RetryLaunched(c, h);
    LaunchedOk(c, c', RetryJob, h, h, sampled, base);
    assert !NothingLeft(c) && !NothingLeft(c');
  }

  // ---------------------------------------------------------------- delivering results

  /** The keys both result handlers leave behind; the attempts recorded under them do not matter here. */
  ghost predicate ResultKeys(c: Coord, c': Coord, w: Worker) {
    && (forall h :: h in c'.failed ==> h in c.failed || h in w.failed)
    && (forall h :: h in w.failed ==> h in c'.failed)
    && (forall h :: h in c.failed ==> h in c'.failed || w.job.from <= h <= w.job.to)
    && (forall h :: h in c'.inRetry ==> h in c.inRetry && !IsRetryOf(w, h))
    && (forall h :: h in c.inRetry ==> h in c'.inRetry || w.job.from <= h <= w.job.to)
  }

  lemma RetryResultKeys(c: Coord, w: Worker, at: nat)
    requires w.job.kind.RetryJob?
    ensures ResultKeys(c, HandleRetryResult(c, Result(w.job, w.failed), at), w)
  {
  }

  lemma RecentOrCatchupResultKeys(c: Coord, w: Worker, at: nat)
    requires !w.job.kind.RetryJob?
    requires forall h :: h in w.failed ==> w.failed[h] >= 1
    ensures ResultKeys(c, HandleRecentOrCatchupResult(c, Result(w.job, w.failed), at), w)
  {
  }

  /** What handling the result of worker `id` does to the state, for every kind of job. */
  ghost predicate Delivered(c: Coord, c': Coord, id: nat)
    requires id in c.inProgress
  {
    && c'.inProgress == c.inProgress - {id}
    && (c'.nextJobID, c'.samplingRange, c'.next, c'.networkHead) == (c.nextJobID, c.samplingRange, c.next, c.networkHead)
    && c'.catchUpDone == NothingLeft(c')
    && ResultKeys(c, c', c.inProgress[id])
  }

  lemma CheckDoneDelivers(c: Coord, c1: Coord, c2: Coord, id: nat)
    requires id in c.inProgress
    requires c1 == c.(inProgress := c.inProgress - {id})
    requires c2 == c1.(failed := c2.failed, inRetry := c2.inRetry)
    requires ResultKeys(c1, c2, c.inProgress[id])
    ensures Delivered(c, CheckDone(c2), id)
  {
  }

  lemma HandleResultDelivers(c: Coord, id: nat, at: nat)
    requires id in c.inProgress && c.inProgress[id].job.id == id
    requires forall h :: h in c.inProgress[id].failed ==> c.inProgress[id].failed[h] >= 1
    ensures var w := c.inProgress[id]; Delivered(c, HandleResult(c, Result(w.job, w.failed), at), id)
  {
    var w := c.inProgress[id];
    var res := Result(w.job, w.failed);
    var c1 := c.(inProgress := c.inProgress - {id});
    if w.job.kind.RetryJob? {
      RetryResultKeys(c1, w, at);
      CheckDoneDelivers(c, c1, HandleRetryResult(c1, res, at), id);
    } else {
      RecentOrCatchupResultKeys(c1, w, at);
      CheckDoneDelivers(c, c1, HandleRecentOrCatchupResult(c1, res, at), id);
    }
  }

  ghost predicate NamesOwnHeights(res: Result) {
    forall k :: k in res.failed ==> res.job.from <= k <= res.job.to && res.failed[k] >= 1
  }

  /**
   What a result settles: the heights of a recent or catch-up job are failed afterwards exactly if the job
   failed them, those of a retry also if they had failed meanwhile; no other height changes. A height
   that failed again has one attempt more than it had when its retry began.
   */
  ghost predicate Settles(res: Result, failed: map<nat, Attempt>, inRetry: map<nat, Attempt>, failed': map<nat, Attempt>, h: nat) {
    && (h in failed' <==> h in res.failed || (h in failed && (res.job.kind.RetryJob? || !(res.job.from <= h <= res.job.to))))
    && (h in failed' && h !in res.failed ==> failed'[h] == failed[h])
    && (h in res.failed ==> failed'[h].count == 1 + if res.job.kind.RetryJob? then AttemptOf(inRetry, h).count else 0)
  }

  lemma RetrySettles(res: Result, failed: map<nat, Attempt>, inRetry: map<nat, Attempt>, intervals: seq<nat>, at: nat, h: nat)
    requires NamesOwnHeights(res) && res.job.kind.RetryJob?
    ensures Settles(res, failed, inRetry, FailedAfterRetry(failed, inRetry, intervals, res, at), h)
  {
  }

  lemma RecentOrCatchupSettles(res: Result, failed: map<nat, Attempt>, inRetry: map<nat, Attempt>, intervals: seq<nat>, at: nat, h: nat)
    requires NamesOwnHeights(res) && !res.job.kind.RetryJob?
    ensures Settles(res, failed, inRetry, FailedAfterRecentOrCatchup(failed, intervals, res, at), h)
  {
  }

  lemma ResultSettlesJob(c: Coord, res: Result, at: nat, h: nat)
    requires NamesOwnHeights(res)
    ensures Settles(res, c.failed, c.inRetry, HandleResult(c, res, at).failed, h)
  {
    if res.job.kind.RetryJob? {
      RetrySettles(res, c.failed, c.inRetry, c.intervals, at, h);
    } else {
      RecentOrCatchupSettles(res, c.failed, c.inRetry, c.intervals, at, h);
    }
  }

  /** The attempt recorded after `k` failures in a row, at the given times. */
  function FailedTimes(intervals: seq<nat>, times: nat -> nat, k: nat): Attempt {
    if k == 0 then Attempt(0, 0) else NextRetry(intervals, FailedTimes(intervals, times, k - 1), times(k)).0
  }

  /** After the k-th failure the next attempt waits for the k-th interval, later ones for the last; they are counted throughout. */
  lemma {:induction false} BackoffSchedule(intervals: seq<nat>, times: nat -> nat, k: nat)
    requires k >= 1 && intervals != []
    ensures FailedTimes(intervals, times, k) == Attempt(k, times(k) + intervals[Min(k, |intervals|) - 1])
    ensures NextRetry(intervals, FailedTimes(intervals, times, k - 1), times(k)).1 <==> k > |intervals|
  {
    if k > 1 { BackoffSchedule(intervals, times, k - 1); }
  }

  /** A finished worker has sampled or failed each of its heights: an unsampled one is in the failed map now. */
  lemma DeliveredKeepsFailed(c: Coord, c': Coord, id: nat, sampled: set<nat>, h: nat)
    requires id in c.inProgress && Finished(c.inProgress[id]) && WorkerOk(c.inProgress[id], sampled)
    requires Delivered(c, c', id) && h !in sampled
    requires var w := c.inProgress[id]; h in c.failed || Covers(w, h) || w.job.from <= h <= w.job.to
    ensures h in c'.failed
  {
    var w := c.inProgress[id];
    if w.job.from <= h <= w.job.to { assert h in w.failed; }
  }

  lemma DeliveredTracked(c: Coord, c': Coord, id: nat, sampled: set<nat>, base: nat)
    requires id in c.inProgress && Finished(c.inProgress[id]) && WorkerOk(c.inProgress[id], sampled)
    requires Delivered(c, c', id) && Tracked(c, sampled, base)
    ensures Tracked(c', sampled, base)
  {
    forall h | base <= h < c'.next && h !in sampled
      ensures h in c'.failed || Covered(c'.inProgress, h)
    {
      if h in c.failed || Covers(c.inProgress[id], h) {
        DeliveredKeepsFailed(c, c', id, sampled, h);
      } else {
        var k :| k in c.inProgress && Covers(c.inProgress[k], h);
        assert k in c'.inProgress && Covers(c'.inProgress[k], h);
      }
    }
  }

  lemma DeliveredRetries(c: Coord, c': Coord, id: nat, sampled: set<nat>)
    requires id in c.inProgress && Finished(c.inProgress[id]) && WorkerOk(c.inProgress[id], sampled)
    requires Delivered(c, c', id) && RetriesRecorded(c, sampled) && RetryKeysOwned(c)
    ensures RetriesRecorded(c', sampled) && RetryKeysOwned(c')
  {
    var w := c.inProgress[id];
    forall k, h: nat | k in c'.inProgress && IsRetryOf(c'.inProgress[k], h) && h !in sampled
      ensures h in c'.failed || h in c'.inRetry
    {
      assert IsRetryOf(c.inProgress[k], h);
      if h in c.failed || w.job.from <= h <= w.job.to {
        DeliveredKeepsFailed(c, c', id, sampled, h);
      }
    }
    forall h | h in c'.inRetry
      ensures exists k :: k in c'.inProgress && IsRetryOf(c'.inProgress[k], h)
    {
      var k :| k in c.inProgress && IsRetryOf(c.inProgress[k], h);
      assert k in c'.inProgress && IsRetryOf(c'.inProgress[k], h);
    }
  }

  lemma ResultOk(c: Coord, id: nat, at: nat, sampled: set<nat>, base: nat)
    requires CoordOk(c, sampled, base)
    requires id in c.inProgress && Finished(c.inProgress[id])
    ensures var w := c.inProgress[id]; var c' := HandleResult(c, Result(w.job, w.failed), at);
            CoordOk(c', sampled, base) && |c'.inProgress| <= |c.inProgress|
  {
    assert WorkerOk(c.inProgress[id], sampled);
    HandleResultDelivers(c, id, at);
    var w := c.inProgress[id];
    DeliveredOk(c, HandleResult(c, Result(w.job, w.failed), at), id, sampled, base);
  }

  lemma DeliveredOk(c: Coord, c': Coord, id: nat, sampled: set<nat>, base: nat)
    requires CoordOk(c, sampled, base)
    requires id in c.inProgress && Finished(c.inProgress[id]) && Delivered(c, c', id)
    ensures CoordOk(c', sampled, base) && |c'.inProgress| <= |c.inProgress|
  {
    assert WorkerOk(c.inProgress[id], sampled);
    assert c'.inProgress.Keys == c.inProgress.Keys - {id};
    DeliveredTracked(c, c', id, sampled, base);
    DeliveredRetries(c, c', id, sampled);
  }

  // ---------------------------------------------------------------- workers moving

  /** Worker `id` moved on to `w`; every height it answers for and that is still unsampled stays its own. */
  ghost predicate Moved(c: Coord, id: nat, w: Worker, sampled: set<nat>, sampled': set<nat>) {
    && id in c.inProgress
    && w.job == c.inProgress[id].job
    && WorkerOk(w, sampled')
    && sampled <= sampled'
    && forall h: nat :: h !in sampled' ==> (Covers(w, h) <==> Covers(c.inProgress[id], h))
  }

  lemma SampleMoves(c: Coord, id: nat, o: Outcome, sampled: set<nat>)
    requires id in c.inProgress && WorkerOk(c.inProgress[id], sampled) && !Finished(c.inProgress[id])
    ensures var w := c.inProgress[id];
            Moved(c, id, StepWorker(w, o), sampled, if o.SampleFailed? then sampled else sampled + {w.pos})
  {
    var w := c.inProgress[id];
    var w' := StepWorker(w, o);
    var sampled' := if o.SampleFailed? then sampled else sampled + {w.pos};
    forall h: nat | h !in sampled'
      ensures Covers(w', h) <==> Covers(w, h)
    {
      if w.curr <= h < w.pos { assert h in w.failed; }
    }
  }

  lemma MovedWorkers(c: Coord, id: nat, w: Worker, sampled: set<nat>, sampled': set<nat>)
    requires Moved(c, id, w, sampled, sampled')
    requires WorkersOk(c.inProgress, sampled, c.nextJobID)
    ensures WorkersOk(SetWorker(c, id, w).inProgress, sampled', c.nextJobID)
    ensures SetWorker(c, id, w).inProgress.Keys == c.inProgress.Keys
  {
  }

  lemma MovedTracked(c: Coord, id: nat, w: Worker, sampled: set<nat>, sampled': set<nat>, base: nat)
    requires Moved(c, id, w, sampled, sampled') && Tracked(c, sampled, base)
    ensures Tracked(SetWorker(c, id, w), sampled', base)
  {
    var c' := SetWorker(c, id, w);
    forall h | base <= h < c'.next && h !in sampled'
      ensures h in c'.failed || Covered(c'.inProgress, h)
    {
      if h !in c.failed {
        var k :| k in c.inProgress && Covers(c.inProgress[k], h);
        assert Covers(c'.inProgress[k], h);
      }
    }
  }

  lemma MovedRetries(c: Coord, id: nat, w: Worker, sampled: set<nat>, sampled': set<nat>)
    requires Moved(c, id, w, sampled, sampled') && RetriesRecorded(c, sampled) && RetryKeysOwned(c)
    ensures RetriesRecorded(SetWorker(c, id, w), sampled') && RetryKeysOwned(SetWorker(c, id, w))
  {
    var c' := SetWorker(c, id, w);
    forall k, h: nat | k in c'.inProgress && IsRetryOf(c'.inProgress[k], h) && h !in sampled'
      ensures h in c'.failed || h in c'.inRetry
    {
      assert IsRetryOf(c.inProgress[k], h);
    }
    forall h | h in c'.inRetry
      ensures exists k :: k in c'.inProgress && IsRetryOf(c'.inProgress[k], h)
    {
      var k :| k in c.inProgress && IsRetryOf(c.inProgress[k], h);
      assert IsRetryOf(c'.inProgress[k], h);
    }
  }

  lemma MovedOk(c: Coord, id: nat, w: Worker, sampled: set<nat>, sampled': set<nat>, base: nat)
    requires Moved(c, id, w, sampled, sampled') && CoordOk(c, sampled, base)
    ensures CoordOk(SetWorker(c, id, w), sampled', base)
    ensures |SetWorker(c, id, w).inProgress| == |c.inProgress|
  {
    MovedWorkers(c, id, w, sampled, sampled');
    MovedTracked(c, id, w, sampled, sampled', base);
    MovedRetries(c, id, w, sampled, sampled');
    assert SetWorker(c, id, w).inProgress.Keys == c.inProgress.Keys;
  }

  /** Workers may run while statistics are gathered. */
  lemma MovedTally(c: Coord, id: nat, w: Worker, sampled: set<nat>, sampled': set<nat>, t: Tally, rest: set<nat>)
    requires Moved(c, id, w, sampled, sampled') && TallyOk(t, rest, c, sampled)
    ensures TallyOk(t, rest, SetWorker(c, id, w), sampled')
  {
    var c' := SetWorker(c, id, w);
    assert c'.inProgress.Keys == c.inProgress.Keys;
    forall k, h: nat | k in c'.inProgress && k !in rest && h !in sampled' && Covers(c'.inProgress[k], h)
      ensures Reported(t, c'.inProgress[k], h)
    {
      assert Covers(c.inProgress[k], h);
      assert Reported(t, c.inProgress[k], h);
    }
  }

  /** A checkpoint never goes stale: sampling more, a higher tail or a higher limit keep it good. */
  lemma CheckpointStable(cp: Checkpoint, sampled: set<nat>, sampled': set<nat>, base: nat, base': nat, peak: nat, peak': nat)
    requires CheckpointOk(cp, sampled, base, peak)
    requires sampled <= sampled' && base <= base' && peak <= peak'
    ensures CheckpointOk(cp, sampled', base', peak')
  {
  }

  // ---------------------------------------------------------------- statistics and checkpoints

  lemma CollectOk(t: Tally, rest: set<nat>, c: Coord, id: nat, sampled: set<nat>)
    requires TallyOk(t, rest, c, sampled) && id in rest && WorkerOk(c.inProgress[id], sampled)
    ensures TallyOk(Collect(t, c.inProgress[id]), rest - {id}, c, sampled)
  {
    var w := c.inProgress[id];
    var t' := Collect(t, w);
    var mine := WorkerStats(w.job.kind, w.curr, w.job.from, w.job.to);
    assert mine in t'.workers;
    assert forall ws :: ws in t.workers ==> ws in t'.workers;
    assert t'.failed.Keys == t.failed.Keys + w.failed.Keys;
    forall k, h: nat | k in c.inProgress && k !in rest - {id} && h !in sampled && Covers(c.inProgress[k], h)
      ensures Reported(t', c.inProgress[k], h)
    {
      if k == id {
        assert mine.kind == w.job.kind;
      } else {
        assert Reported(t, c.inProgress[k], h);
      }
    }
  }

  lemma {:induction false} KeepWorkersKeeps(ws: seq<WorkerStats>, catchupHead: nat, w: WorkerStats)
    requires w in ws && KeepsWorker(w, catchupHead)
    ensures WorkerCheckpoint(w.curr, w.to, CatchupJob) in KeepWorkers(ws, catchupHead)
  {
    var last := ws[|ws| - 1];
    if w != last {
      assert w in ws[..|ws| - 1];
      KeepWorkersKeeps(ws[..|ws| - 1], catchupHead, w);
    }
  }

  lemma {:induction false} KeepWorkersShape(ws: seq<WorkerStats>, catchupHead: nat)
    requires forall w :: w in ws ==> w.curr >= 1
    ensures |KeepWorkers(ws, catchupHead)| <= |ws|
    ensures forall w :: w in KeepWorkers(ws, catchupHead) ==> w.kind.CatchupJob? && w.from >= 1
  {
    if ws != [] {
      KeepWorkersShape(ws[..|ws| - 1], catchupHead);
      assert ws[|ws| - 1] in ws;
    }
  }

  /** The checkpoint made of finished statistics, with the wrap-around arithmetic resolved. */
  ghost predicate Snapshot(cp: Checkpoint, t: Tally, c: Coord) {
    && cp.sampleFrom == c.next >= 1
    && cp.networkHead == c.networkHead
    && cp.failed.Keys == t.failed.Keys + c.failed.Keys + c.inRetry.Keys
    && cp.workers == KeepWorkers(t.workers, c.next - 1)
  }

  lemma FinishIsSnapshot(t: Tally, c: Coord)
    requires 1 <= c.next <= MaxHeight
    ensures Snapshot(NewCheckpoint(FinishTally(t, c)), t, c)
  {
    assert Dec64(c.next) == c.next - 1;
    assert Add64(c.next - 1, 1) == c.next;
  }

  /** One unsampled height of one worker is found again through the checkpoint. */
  lemma SnapshotReaches(cp: Checkpoint, t: Tally, c: Coord, id: nat, sampled: set<nat>, h: nat)
    requires Snapshot(cp, t, c) && RetriesRecorded(c, sampled)
    requires id in c.inProgress && WorkerOk(c.inProgress[id], sampled)
    requires h !in sampled && Covers(c.inProgress[id], h) && Reported(t, c.inProgress[id], h)
    ensures Reaches(cp, h)
  {
    var w := c.inProgress[id];
    if h !in t.failed {
      var ws :| ws in t.workers && ws.kind == w.job.kind && ws.curr <= h <= ws.to;
      if w.job.kind.RetryJob? {
        assert IsRetryOf(w, h);
      } else if KeepsWorker(ws, c.next - 1) {
        KeepWorkersKeeps(t.workers, c.next - 1, ws);
      }
    }
  }

  lemma SnapshotReachesAll(cp: Checkpoint, t: Tally, c: Coord, sampled: set<nat>, base: nat)
    requires Snapshot(cp, t, c)
    requires CoreOk(c, sampled, base) && TallyOk(t, {}, c, sampled)
    ensures forall h: nat :: h >= base && h !in sampled ==> Reaches(cp, h)
  {
    forall h: nat | h >= base && h !in sampled
      ensures Reaches(cp, h)
    {
      if h < c.next && h !in c.failed {
        var id :| id in c.inProgress && Covers(c.inProgress[id], h);
        SnapshotReaches(cp, t, c, id, sampled, h);
      }
    }
  }

  lemma RetryKeysPositive(c: Coord, sampled: set<nat>, h: nat)
    requires RetryKeysOwned(c) && WorkersOk(c.inProgress, sampled, c.nextJobID) && h in c.inRetry
    ensures h >= 1
  {
    var id :| id in c.inProgress && IsRetryOf(c.inProgress[id], h);
    assert WorkerOk(c.inProgress[id], sampled);
  }

  lemma SnapshotFailedPositive(cp: Checkpoint, t: Tally, c: Coord, sampled: set<nat>, base: nat)
    requires Snapshot(cp, t, c) && CoreOk(c, sampled, base) && TallyOk(t, {}, c, sampled)
    ensures forall h :: h in cp.failed ==> h >= 1
  {
    forall h: nat | h in c.inRetry ensures h >= 1 { RetryKeysPositive(c, sampled, h); }
  }

  lemma SnapshotWorkersOk(cp: Checkpoint, t: Tally, c: Coord, sampled: set<nat>, peak: nat)
    requires Snapshot(cp, t, c) && TallyOk(t, {}, c, sampled) && |c.inProgress| <= 2 * peak
    ensures forall w :: w in cp.workers ==> w.kind.CatchupJob? && w.from >= 1
    ensures |cp.workers| <= 2 * peak
  {
    KeepWorkersShape(t.workers, c.next - 1);
  }

  lemma SnapshotOk(cp: Checkpoint, t: Tally, c: Coord, sampled: set<nat>, base: nat, peak: nat)
    requires Snapshot(cp, t, c)
    requires CoordOk(c, sampled, base) && TallyOk(t, {}, c, sampled) && |c.inProgress| <= 2 * peak
    ensures CheckpointOk(cp, sampled, base, peak)
  {
    SnapshotReachesAll(cp, t, c, sampled, base);
    SnapshotFailedPositive(cp, t, c, sampled, base);
    SnapshotWorkersOk(cp, t, c, sampled, peak);
  }

  // ---------------------------------------------------------------- starting from a checkpoint

  lemma {:induction false} TrimWorkersShape(ws: seq<WorkerCheckpoint>, tail: nat)
    requires tail >= 1 && forall w :: w in ws ==> w.kind.CatchupJob?
    ensures |TrimWorkers(ws, tail)| <= |ws|
    ensures forall w :: w in TrimWorkers(ws, tail) ==> w.kind.CatchupJob? && w.from >= 1
  {
    if ws != [] {
      TrimWorkersShape(ws[..|ws| - 1], tail);
      assert ws[|ws| - 1] in ws;
    }
  }

  lemma {:induction false} TrimWorkersKeeps(ws: seq<WorkerCheckpoint>, tail: nat, w: WorkerCheckpoint)
    requires w in ws && w.to >= tail
    ensures w.(from := Max(w.from, tail)) in TrimWorkers(ws, tail)
  {
    var last := ws[|ws| - 1];
    if w != last {
      assert w in ws[..|ws| - 1];
      TrimWorkersKeeps(ws[..|ws| - 1], tail, w);
    }
  }

  /** Trimming to the tail gives up only heights below the tail. */
  lemma LoadReaches(stored: Option<Checkpoint>, tail: nat, head: nat, h: nat)
    requires h >= tail
    requires stored.Some? ==> Reaches(stored.value, h)
    ensures Reaches(LoadCheckpoint(stored, tail, head), h)
  {
    if stored.Some? {
      var cp := stored.value;
      if h < cp.sampleFrom && h !in cp.failed {
        var w :| w in cp.workers && w.from <= h <= w.to;
        TrimWorkersKeeps(cp.workers, tail, w);
      }
    }
  }

  lemma {:induction false} TrimWorkersOnly(ws: seq<WorkerCheckpoint>, tail: nat, w: WorkerCheckpoint) returns (whole: WorkerCheckpoint)
    requires w in TrimWorkers(ws, tail)
    ensures whole in ws && whole.to >= tail && w == whole.(from := Max(whole.from, tail))
  {
    var last := ws[|ws| - 1];
    if w in TrimWorkers(ws[..|ws| - 1], tail) {
      whole := TrimWorkersOnly(ws[..|ws| - 1], tail, w);
    } else {
      whole := last;
    }
  }

  /** A checkpoint trimmed to the tail leads back to exactly the heights it led back to and that are still there. */
  lemma LoadReachesExactly(stored: Option<Checkpoint>, tail: nat, head: nat, h: nat)
    ensures Reaches(LoadCheckpoint(stored, tail, head), h) <==> h >= tail && (stored.Some? ==> Reaches(stored.value, h))
    ensures LoadCheckpoint(stored, tail, head).networkHead >= head
  {
    if h >= tail && (stored.Some? ==> Reaches(stored.value, h)) {
      LoadReaches(stored, tail, head, h);
    }
    if Reaches(LoadCheckpoint(stored, tail, head), h) && stored.Some? {
      var cp := LoadCheckpoint(stored, tail, head);
      if h < cp.sampleFrom && h !in cp.failed {
        var w :| w in cp.workers && w.from <= h <= w.to;
        var whole := TrimWorkersOnly(stored.value.workers, tail, w);
        assert whole.from <= h <= whole.to;
      }
    }
  }

  lemma LoadOk(stored: Option<Checkpoint>, tail: nat, head: nat, sampled: set<nat>, base: nat, peak: nat)
    requires stored.Some? ==> CheckpointOk(stored.value, sampled, base, peak)
    requires 1 <= tail <= head < MaxHeight
    ensures CheckpointOk(LoadCheckpoint(stored, tail, head), sampled, Max(base, tail), peak)
    ensures LoadCheckpoint(stored, tail, head).sampleFrom >= 1
  {
    forall h: nat | h >= Max(base, tail) && h !in sampled
      ensures Reaches(LoadCheckpoint(stored, tail, head), h)
    {
      LoadReaches(stored, tail, head, h);
    }
    if stored.Some? { TrimWorkersShape(stored.value.workers, tail); }
  }

  /** Every worker of the checkpoint runs again, under its own id. */
  lemma {:induction false} ResumeWorkersOk(c: Coord, ws: seq<WorkerCheckpoint>, sampled: set<nat>)
    requires c.inProgress == map[]
    requires forall w :: w in ws ==> w.kind.CatchupJob? && w.from >= 1
    ensures var c' := ResumeWorkers(c, ws);
            && WorkersOk(c'.inProgress, sampled, c'.nextJobID)
            && |c'.inProgress| == |ws|
            && (forall id :: id in c'.inProgress ==> c'.inProgress[id].job.kind.CatchupJob?)
            && c' == c.(inProgress := c'.inProgress, nextJobID := c'.nextJobID)
  {
    if ws != [] {
      var last := ws[|ws| - 1];
      assert last in ws;
      var before := ws[..|ws| - 1];
      ResumeWorkersOk(c, before, sampled);
      var c1 := ResumeWorkers(c, before);
      var c' := ResumeWorkers(c, ws);
      assert Launched(c1.(next := 1), c'.(next := 1), CatchupJob, last.from, last.to);
      LaunchedWorkers(c1.(next := 1), c'.(next := 1), CatchupJob, last.from, last.to, sampled);
      LaunchedCount(c1.(next := 1), c'.(next := 1), CatchupJob, last.from, last.to);
    }
  }

  lemma {:induction false} ResumeWorkersCovers(c: Coord, ws: seq<WorkerCheckpoint>, w: WorkerCheckpoint, h: nat)
    requires c.inProgress == map[] && forall w :: w in ws ==> w.kind.CatchupJob? && w.from >= 1
    requires w in ws && w.from <= h <= w.to
    ensures Covered(ResumeWorkers(c, ws).inProgress, h)
  {
    var before := ws[..|ws| - 1];
    var c1 := ResumeWorkers(c, before);
    var c' := ResumeWorkers(c, ws);
    if w == ws[|ws| - 1] {
      assert Covers(c'.inProgress[c'.nextJobID], h);
    } else {
      assert w in before;
      ResumeWorkersCovers(c, before, w, h);
      ResumeWorkersOk(c, before, {});
      var id :| id in c1.inProgress && Covers(c1.inProgress[id], h);
      assert id in c'.inProgress && c'.inProgress[id] == c1.inProgress[id];
    }
  }

  lemma StartOk(cp: Checkpoint, range: nat, intervals: seq<nat>, at: nat, sampled: set<nat>, base: nat, peak: nat)
    requires CheckpointOk(cp, sampled, base, peak) && cp.sampleFrom >= 1 && 1 <= range < U64
    ensures var c := StartRun(range, intervals, cp, at);
            CoordOk(c, sampled, base) && |c.inProgress| <= 2 * peak
  {
    var c0 := ResumeFromCheckpoint(NewCoord(range, intervals), cp, at);
    var c := StartRun(range, intervals, cp, at);
    ResumeWorkersOk(c0, cp.workers, sampled);
    forall h | base <= h < c.next && h !in sampled
      ensures h in c.failed || Covered(c.inProgress, h)
    {
      assert Reaches(cp, h);
      if h !in cp.failed {
        var w :| w in cp.workers && w.from <= h <= w.to;
        ResumeWorkersCovers(c0, cp.workers, w, h);
      }
    }
  }

  // ---------------------------------------------------------------- every step keeps the invariant

  lemma MoveStepOk(s: Sys, s': Sys, id: nat, w: Worker)
    requires Inv(s) && WorkersRun(s.phase)
    requires Moved(s.coord, id, w, s.sampled, s'.sampled)
    requires s' == s.(coord := SetWorker(s.coord, id, w), sampled := s'.sampled)
    ensures Inv(s')
  {
    MovedOk(s.coord, id, w, s.sampled, s'.sampled, s.base);
    if s.phase.Paused? {
      MovedTally(s.coord, id, w, s.sampled, s'.sampled, s.phase.tally, s.phase.rest);
    }
    StoresStable(s, s');
  }

  /** Whatever is or may be on disk stays good. */
  lemma StoresStable(s: Sys, s': Sys)
    requires Inv(s)
    requires s.sampled <= s'.sampled && s.base <= s'.base && s.peak <= s'.peak
    ensures s.stored.Some? ==> CheckpointOk(s.stored.value, s'.sampled, s'.base, s'.peak)
    ensures forall cp :: cp in s.snapshots ==> CheckpointOk(cp, s'.sampled, s'.base, s'.peak)
  {
    if s.stored.Some? {
      CheckpointStable(s.stored.value, s.sampled, s'.sampled, s.base, s'.base, s.peak, s'.peak);
    }
    forall cp | cp in s.snapshots
      ensures CheckpointOk(cp, s'.sampled, s'.base, s'.peak)
    {
      CheckpointStable(cp, s.sampled, s'.sampled, s.base, s'.base, s.peak, s'.peak);
    }
  }

  lemma StartStepOk(s: Sys, t: Step)
    requires Inv(s) && t.Start? && Enabled(s, t)
    ensures Inv(Apply(s, t))
  {
    var s' := Apply(s, t);
    StoresStable(s, s');
    LoadOk(s.stored, t.tail, t.head, s.sampled, s.base, s'.peak);
    StartOk(LoadCheckpoint(s.stored, t.tail, t.head), t.range, t.intervals, t.at, s.sampled, s'.base, s'.peak);
  }

  lemma WorkerStepOk(s: Sys, t: Step)
    requires Inv(s) && (t.WorkerSample? || t.WorkerQuit?) && Enabled(s, t)
    ensures Inv(Apply(s, t))
  {
    var w := s.coord.inProgress[t.id];
    assert WorkerOk(w, s.sampled);
    if t.WorkerSample? {
      SampleMoves(s.coord, t.id, t.o, s.sampled);
      MoveStepOk(s, Apply(s, t), t.id, StepWorker(w, t.o));
    } else {
      MoveStepOk(s, Apply(s, t), t.id, w.(live := false));
    }
  }

  lemma StatsStepOk(s: Sys, t: Step)
    requires Inv(s) && (t.StatsBegin? || t.StatsCollect? || t.StatsEnd?) && Enabled(s, t)
    ensures Inv(Apply(s, t))
  {
    if t.StatsCollect? {
      assert WorkerOk(s.coord.inProgress[t.id], s.sampled);
      CollectOk(s.phase.tally, s.phase.rest, s.coord, t.id, s.sampled);
    } else if t.StatsEnd? {
      FinishIsSnapshot(s.phase.tally, s.coord);
      SnapshotOk(NewCheckpoint(FinishTally(s.phase.tally, s.coord)), s.phase.tally, s.coord, s.sampled, s.base, s.peak);
    }
  }

  lemma CoordStepOk(s: Sys, t: Step)
    requires Inv(s) && Enabled(s, t)
    requires t.FillRetry? || t.FillCatchup? || t.NewHead? || t.Deliver?
    ensures Inv(Apply(s, t))
  {
    match t
    case FillRetry(h, _) => RetryOk(s.coord, h, s.sampled, s.base);
    case FillCatchup(_) => CatchupOk(s.coord, s.sampled, s.base);
    case NewHead(h) => NewHeadOk(s.coord, h, s.limit, s.sampled, s.base);
    case Deliver(id, at) => ResultOk(s.coord, id, at, s.sampled, s.base);
  }

  lemma StepKeepsInv(s: Sys, t: Step)
    requires Inv(s) && Enabled(s, t)
    ensures Inv(Apply(s, t))
    ensures s.sampled <= Apply(s, t).sampled && s.base <= Apply(s, t).base
  {
    if t.Start? {
      StartStepOk(s, t);
    } else if t.WorkerSample? || t.WorkerQuit? {
      WorkerStepOk(s, t);
    } else if t.StatsBegin? || t.StatsCollect? || t.StatsEnd? {
      StatsStepOk(s, t);
    } else if t.FillRetry? || t.FillCatchup? || t.NewHead? || t.Deliver? {
      CoordStepOk(s, t);
    }
  }

  // ---------------------------------------------------------------- theorems about runs

  lemma {:induction false} RunKeepsInv(states: seq<Sys>, steps: seq<Step>, i: nat)
    requires IsRun(states, steps) && i < |states|
    ensures Inv(states[i])
  {
    if i > 0 {
      RunKeepsInv(states, steps, i - 1);
      StepKeepsInv(states[i - 1], steps[i - 1]);
    }
  }

  /** No start so far used a tail above `tail`. */
  ghost predicate TailsWithin(steps: seq<Step>, i: nat, tail: nat)
    requires i <= |steps|
  {
    forall j :: 0 <= j < i && steps[j].Start? ==> steps[j].tail <= tail
  }

  /** No start so far used a concurrency limit above `limit`. */
  ghost predicate LimitsWithin(steps: seq<Step>, i: nat, limit: nat)
    requires i <= |steps|
  {
    forall j :: 0 <= j < i && steps[j].Start? ==> steps[j].newLimit <= limit
  }

  lemma {:induction false} BaseBound(states: seq<Sys>, steps: seq<Step>, i: nat, tail: nat)
    requires IsRun(states, steps) && i < |states| && TailsWithin(steps, i, tail)
    ensures states[i].base <= tail
  {
    if i > 0 {
      BaseBound(states, steps, i - 1, tail);
      assert Enabled(states[i - 1], steps[i - 1]) && states[i] == Apply(states[i - 1], steps[i - 1]);
    }
  }

  lemma {:induction false} PeakBound(states: seq<Sys>, steps: seq<Step>, i: nat, limit: nat)
    requires IsRun(states, steps) && i < |states| && LimitsWithin(steps, i, limit)
    ensures states[i].peak <= limit
  {
    if i > 0 {
      PeakBound(states, steps, i - 1, limit);
      assert Enabled(states[i - 1], steps[i - 1]) && states[i] == Apply(states[i - 1], steps[i - 1]);
    }
  }

  /**
   No height is ever lost. While a process runs, each height at or above every tail a start
   has used is sampled, still ahead of `next`, failed, or answered for by a worker in progress.
   */
  lemma NoHeightLost(states: seq<Sys>, steps: seq<Step>, i: nat, h: nat)
    requires IsRun(states, steps) && i < |states| && !states[i].phase.Down?
    requires TailsWithin(steps, i, h)
    ensures var s := states[i];
            h in s.sampled || h >= s.coord.next || h in s.coord.failed || Covered(s.coord.inProgress, h)
  {
    RunKeepsInv(states, steps, i);
    BaseBound(states, steps, i, h);
  }

  /**
   At any moment of any run, with any number of restarts behind it: the checkpoint on disk,
   and each snapshot that may still be written, lead back to every unsampled height.
   */
  lemma CheckpointsLoseNothing(states: seq<Sys>, steps: seq<Step>, i: nat, cp: Checkpoint, tail: nat, head: nat, h: nat)
    requires IsRun(states, steps) && i < |states|
    requires cp in states[i].snapshots || states[i].stored == Some(cp)
    requires h >= states[i].base && h >= tail && h !in states[i].sampled
    ensures Reaches(cp, h) && Reaches(LoadCheckpoint(Some(cp), tail, head), h)
  {
    RunKeepsInv(states, steps, i);
    LoadReaches(Some(cp), tail, head, h);
  }

  /** At most twice the configured limit of jobs is in progress, also right after resuming. */
  lemma ConcurrencyBounded(states: seq<Sys>, steps: seq<Step>, i: nat, limit: nat)
    requires IsRun(states, steps) && i < |states| && !states[i].phase.Down?
    requires LimitsWithin(steps, i, limit)
    ensures |states[i].coord.inProgress| <= 2 * limit
  {
    RunKeepsInv(states, steps, i);
    PeakBound(states, steps, i, limit);
  }

  lemma UnsampledBoundsChainHead(t: Tally, c: Coord, sampled: set<nat>, base: nat, h: nat)
    requires CoreOk(c, sampled, base) && TallyOk(t, {}, c, sampled)
    requires h >= base && h !in sampled
    ensures Lowest(c.failed.Keys, t.lowest) <= h
  {
    if h < c.next && h !in c.failed {
      var id :| id in c.inProgress && Covers(c.inProgress[id], h);
      assert Reported(t, c.inProgress[id], h);
    }
  }

  lemma ChainHeadValue(t: Tally, c: Coord)
    requires 1 <= t.lowest <= MaxHeight && forall h :: h in c.failed ==> h >= 1
    ensures FinishTally(t, c).sampledChainHead == Lowest(c.failed.Keys, t.lowest) - 1
  {
    var lowest := Lowest(c.failed.Keys, t.lowest);
    assert 1 <= lowest < U64;
  }

  lemma ChainHeadSound(t: Tally, c: Coord, sampled: set<nat>, base: nat, h: nat)
    requires CoordOk(c, sampled, base) && TallyOk(t, {}, c, sampled)
    requires base <= h <= FinishTally(t, c).sampledChainHead
    ensures h in sampled
  {
    ChainHeadValue(t, c);
    if h !in sampled {
      UnsampledBoundsChainHead(t, c, sampled, base, h);
    }
  }

  /** The reported chain head is sound although workers went on while it was computed and `inRetry` is ignored. */
  lemma SampledChainHeadSound(states: seq<Sys>, steps: seq<Step>, i: nat, h: nat)
    requires IsRun(states, steps) && i < |states|
    requires states[i].phase.Paused? && states[i].phase.rest == {}
    requires states[i].base <= h <= FinishTally(states[i].phase.tally, states[i].coord).sampledChainHead
    ensures h in states[i].sampled
  {
    RunKeepsInv(states, steps, i);
    var s := states[i];
    ChainHeadSound(s.phase.tally, s.coord, s.sampled, s.base, h);
  }

  /** The catch-up flag is exact at every point of a run, and catch-up means every known height was sampled. */
  lemma CatchUpDoneExact(states: seq<Sys>, steps: seq<Step>, i: nat)
    requires IsRun(states, steps) && i < |states| && !states[i].phase.Down?
    ensures var c := states[i].coord;
            && c.next <= c.networkHead + 1
            && (c.catchUpDone <==> c.inProgress == map[] && c.failed == map[] && c.next > c.networkHead)
            && (c.catchUpDone ==> forall h: nat :: states[i].base <= h <= c.networkHead ==> h in states[i].sampled)
  {
    RunKeepsInv(states, steps, i);
  }

  /** Retry bookkeeping does not leak: a height marked as being retried belongs to a retry job in progress. */
  lemma RetryMarksOwned(states: seq<Sys>, steps: seq<Step>, i: nat, h: nat)
    requires IsRun(states, steps) && i < |states| && !states[i].phase.Down?
    requires h in states[i].coord.inRetry
    ensures exists id :: id in states[i].coord.inProgress && IsRetryOf(states[i].coord.inProgress[id], h)
  {
    RunKeepsInv(states, steps, i);
  }

  // ---------------------------------------------------------------- what changes the catch-up condition, and progress

  /** The handlers, after which checkDone runs: a start, a new head, a result. */
  predicate IsHandler(t: Step) { t.Start? || t.NewHead? || t.Deliver? }

  lemma FillKeepsCondition(s: Sys, t: Step)
    requires Enabled(s, t) && (t.FillRetry? || t.FillCatchup?)
    ensures !NothingLeft(s.coord) && !NothingLeft(Apply(s, t).coord)
  {
    var id := s.coord.nextJobID + 1;
    assert id in Apply(s, t).coord.inProgress;
    if t.FillRetry? { assert t.h in s.coord.failed; }
  }

  lemma WorkerKeepsCondition(s: Sys, t: Step)
    requires Enabled(s, t) && (t.WorkerSample? || t.WorkerQuit?)
    ensures NothingLeft(s.coord) <==> NothingLeft(Apply(s, t).coord)
  {
    assert t.id in s.coord.inProgress && t.id in Apply(s, t).coord.inProgress;
  }

  /** Only handlers can make catch-up done or undo it: starting jobs, workers, statistics and the store do not. */
  lemma OnlyHandlersChangeCondition(s: Sys, t: Step)
    requires Enabled(s, t) && !IsHandler(t)
    ensures NothingLeft(s.coord) <==> NothingLeft(Apply(s, t).coord)
  {
    if t.FillRetry? || t.FillCatchup? {
      FillKeepsCondition(s, t);
    } else if t.WorkerSample? || t.WorkerQuit? {
      WorkerKeepsCondition(s, t);
    }
  }

  /** When the coordinator waits, it has started all the jobs it may: the limit is reached or every height handed out. */
  ghost predicate FilledUp(s: Sys) {
    s.limit >= 1 && (s.phase.Selecting? ==> LimitReached(s) || s.coord.next > s.coord.networkHead)
  }

  lemma StepKeepsFilledUp(s: Sys, t: Step)
    requires Enabled(s, t) && (!s.phase.Down? ==> FilledUp(s)) && !Apply(s, t).phase.Down?
    ensures FilledUp(Apply(s, t))
  {
    if t.WorkerSample? || t.WorkerQuit? {
      assert Apply(s, t).coord.inProgress.Keys == s.coord.inProgress.Keys;
    }
  }

  lemma {:induction false} RunFilledUp(states: seq<Sys>, steps: seq<Step>, i: nat)
    requires IsRun(states, steps) && i < |states| && !states[i].phase.Down?
    ensures FilledUp(states[i])
  {
    if !states[i - 1].phase.Down? { RunFilledUp(states, steps, i - 1); }
    StepKeepsFilledUp(states[i - 1], steps[i - 1]);
  }

  /** The worker can sample on, however that ends, or its result can be taken, at whatever time. */
  ghost predicate CanMove(s: Sys, id: nat) {
    Enabled(s, WorkerSample(id, Sampled)) || Enabled(s, Deliver(id, 0))
  }

  ghost predicate WorkerCanMove(s: Sys) {
    exists id :: CanMove(s, id)
  }

  ghost predicate HasLiveWorker(s: Sys) {
    exists id :: id in s.coord.inProgress && s.coord.inProgress[id].live
  }

  lemma LiveWorkerMoves(s: Sys)
    requires s.phase.Selecting?
    ensures WorkerCanMove(s) <==> HasLiveWorker(s)
  {
    if id :| id in s.coord.inProgress && s.coord.inProgress[id].live {
      assert CanMove(s, id);
    }
  }

  /**
   Where a coordinator that waits and is not caught up stands: a worker can go on exactly if one is live. If
   none is, either cancelled workers still hold their jobs, or nothing is in progress, every known height has
   been handed out, and what is left are failed heights that wait for their next attempt.
   */
  lemma WaitingCoordinator(states: seq<Sys>, steps: seq<Step>, i: nat)
    requires IsRun(states, steps) && i < |states| && states[i].phase.Selecting? && !states[i].coord.catchUpDone
    ensures var s := states[i];
      && (WorkerCanMove(s) <==> HasLiveWorker(s))
      && (s.coord.inProgress == map[] ==> s.coord.failed != map[] && s.coord.next > s.coord.networkHead)
  {
    LiveWorkerMoves(states[i]);
    CatchUpDoneExact(states, steps, i);
    RunFilledUp(states, steps, i);
  }

  /** No worker was cancelled since the last start. */
  ghost predicate NoneQuit(states: seq<Sys>, steps: seq<Step>, b: nat, i: nat) {
    b < i <= |steps| && steps[b].Start? && forall j :: b < j < i ==> !steps[j].WorkerQuit? && !steps[j].Start?
  }

  ghost predicate AllLive(c: Coord) { forall id :: id in c.inProgress ==> c.inProgress[id].live }

  lemma {:induction false} ResumedAreLive(c: Coord, ws: seq<WorkerCheckpoint>)
    requires AllLive(c)
    ensures AllLive(ResumeWorkers(c, ws))
  {
    if ws != [] { ResumedAreLive(c, ws[..|ws| - 1]); }
  }

  lemma StartedAreLive(range: nat, intervals: seq<nat>, cp: Checkpoint, at: nat)
    ensures AllLive(StartRun(range, intervals, cp, at))
  {
    ResumedAreLive(ResumeFromCheckpoint(NewCoord(range, intervals), cp, at), cp.workers);
  }

  lemma StartStepLive(s: Sys, t: Step)
    requires Enabled(s, t) && t.Start?
    ensures AllLive(Apply(s, t).coord)
  {
    StartedAreLive(t.range, t.intervals, LoadCheckpoint(s.stored, t.tail, t.head), t.at);
  }

  lemma StepKeepsLive(s: Sys, t: Step)
    requires Enabled(s, t) && !t.WorkerQuit? && !t.Start? && AllLive(s.coord)
    ensures AllLive(Apply(s, t).coord)
  {
  }

  lemma {:induction false} WorkersStayLive(states: seq<Sys>, steps: seq<Step>, b: nat, i: nat)
    requires IsRun(states, steps) && NoneQuit(states, steps, b, i)
    ensures AllLive(states[i].coord)
  {
    var k := i - 1;
    assert Enabled(states[k], steps[k]) && states[k + 1] == Apply(states[k], steps[k]);
    if k == b {
      StartStepLive(states[k], steps[k]);
    } else {
      WorkersStayLive(states, steps, b, k);
      StepKeepsLive(states[k], steps[k]);
    }
  }

  /** So as long as no worker is cancelled, sampling goes on: a worker can move, or only failed heights wait for their next attempt. */
  lemma SamplingGoesOn(states: seq<Sys>, steps: seq<Step>, b: nat, i: nat)
    requires IsRun(states, steps) && NoneQuit(states, steps, b, i)
    requires states[i].phase.Selecting? && !states[i].coord.catchUpDone
    ensures WorkerCanMove(states[i]) ||
            (states[i].coord.inProgress == map[] && states[i].coord.failed != map[] && states[i].coord.next > states[i].coord.networkHead)
  {
    WaitingCoordinator(states, steps, i);
    WorkersStayLive(states, steps, b, i);
    if states[i].coord.inProgress != map[] {
      var id :| id in states[i].coord.inProgress;
    }
  }

  // ---------------------------------------------------------------- failed heights are retried

  /** The step takes the height out of waiting: it starts the retry, or settles a job that covers the height. */
  ghost predicate Takes(s: Sys, t: Step, h: nat) {
    || (t.FillRetry? && t.h == h)
    || (t.Deliver? && t.id in s.coord.inProgress && s.coord.inProgress[t.id].job.from <= h <= s.coord.inProgress[t.id].job.to)
  }

  /** The height waits for its next attempt, as recorded. */
  ghost predicate StillWaits(c: Coord, h: nat, a: Attempt) { h in c.failed && c.failed[h] == a }

  lemma OthersWaitOn(s: Sys, t: Step, h: nat, a: Attempt)
    requires Inv(s) && Enabled(s, t) && !t.Start? && !Takes(s, t, h) && StillWaits(s.coord, h, a)
    ensures StillWaits(Apply(s, t).coord, h, a)
  {
    if t.Deliver? {
      var w := s.coord.inProgress[t.id];
      assert WorkerOk(w, s.sampled);
      ResultSettlesJob(s.coord, Result(w.job, w.failed), t.at, h);
    }
  }

  lemma {:induction false} WaitsUntilTaken(states: seq<Sys>, steps: seq<Step>, i: nat, k: nat, h: nat)
    requires IsRun(states, steps) && i <= k <= |steps| && h in states[i].coord.failed && Running(states, i, k)
    requires forall j :: i <= j < k ==> !Takes(states[j], steps[j], h)
    ensures StillWaits(states[k].coord, h, states[i].coord.failed[h])
  {
    if i < k {
      var s, a := states[k - 1], states[i].coord.failed[h];
      WaitsUntilTaken(states, steps, i, k - 1, h);
      assert StillWaits(s.coord, h, a);
      RunKeepsInv(states, steps, k - 1);
      OthersWaitOn(s, steps[k - 1], h, a);
    }
  }

  /** The process is up from `i` to `k`. */
  ghost predicate Running(states: seq<Sys>, i: nat, k: nat) {
    k < |states| && forall j :: i <= j <= k ==> !states[j].phase.Down?
  }

  /**
   No failed height is passed over. Whenever the coordinator goes to wait, after whatever handlers, a height that
   had failed and whose backoff is over has been retried or settled by a job that covers it since, unless the
   concurrency limit is reached.
   */
  lemma FailedHeightsRetried(states: seq<Sys>, steps: seq<Step>, i: nat, k: nat, h: nat)
    requires IsRun(states, steps) && i <= k < |steps| && h in states[i].coord.failed && Running(states, i, k)
    requires steps[k].FillDone? && CanRetry(states[i].coord.failed[h], steps[k].at)
    ensures LimitReached(states[k]) || exists j :: i <= j < k && Takes(states[j], steps[j], h)
  {
    if forall j :: i <= j < k ==> !Takes(states[j], steps[j], h) {
      WaitsUntilTaken(states, steps, i, k, h);
      assert Enabled(states[k], steps[k]);
    }
  }

  ghost predicate Busy(c: Coord) { exists id :: id in c.inProgress }

  /** Between two waits of the coordinator: nothing has been started and the height waits on, or a job is in progress. */
  ghost predicate IdleOrBusy(s: Sys, h: nat, a: Attempt) {
    if Busy(s.coord) then s.phase.Filling? else StillWaits(s.coord, h, a)
  }

  lemma StepKeepsIdleOrBusy(s: Sys, t: Step, s': Sys, h: nat, a: Attempt)
    requires Enabled(s, t) && s' == Apply(s, t) && !t.FillDone? && !s.phase.Down? && !s'.phase.Down? && IdleOrBusy(s, h, a)
    ensures IdleOrBusy(s', h, a)
  {
    if t.FillRetry? || t.FillCatchup? {
      assert s.coord.nextJobID + 1 in s'.coord.inProgress;
    } else if t.WorkerSample? || t.WorkerQuit? {
      assert t.id in s'.coord.inProgress;
    }
  }

  lemma {:induction false} RunIdleOrBusy(states: seq<Sys>, steps: seq<Step>, i: nat, k: nat, h: nat, a: Attempt)
    requires IsRun(states, steps) && i <= k <= |steps| && Running(states, i, k) && IdleOrBusy(states[i], h, a)
    requires forall j :: i <= j < k ==> !steps[j].FillDone?
    ensures IdleOrBusy(states[k], h, a)
  {
    if i < k {
      var s := states[k - 1];
      RunIdleOrBusy(states, steps, i, k - 1, h, a);
      assert IdleOrBusy(s, h, a);
      StepKeepsIdleOrBusy(s, steps[k - 1], states[k], h, a);
    }
  }

  /**
   Hence a coordinator that is left with failed heights only takes up work again: if the backoff of one of them is
   over when it next goes to wait, after whatever head or statistics woke it, a job is in progress.
   */
  lemma WorkIsTakenUpAgain(states: seq<Sys>, steps: seq<Step>, i: nat, k: nat, h: nat)
    requires IsRun(states, steps) && i <= k < |steps| && h in states[i].coord.failed && Running(states, i, k)
    requires states[i].coord.inProgress == map[] && forall j :: i <= j < k ==> !steps[j].FillDone?
    requires steps[k].FillDone? && CanRetry(states[i].coord.failed[h], steps[k].at)
    ensures states[k + 1].coord.inProgress != map[]
  {
    RunIdleOrBusy(states, steps, i, k, h, states[i].coord.failed[h]);
    RunFilledUp(states, steps, k);
    assert Enabled(states[k], steps[k]) && states[k + 1] == Apply(states[k], steps[k]);
  }
}
