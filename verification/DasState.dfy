/**
 The sampling coordinator of das/ on values: jobs, workers, the coordinator's state and
 each of its single operations, statistics and checkpoints. DasCoordinator.dfy proves
 the imperative form against these functions; DasSystem.dfy reasons about whole runs.
 */
module DasState {
  import opened Basics

  function Add64(x: nat, y: nat): nat { (x + y) % U64 }

  function Dec64(x: nat): nat { (x + (U64 - 1)) % U64 }

  function Min(x: nat, y: nat): nat { if x <= y then x else y }

  function Max(x: nat, y: nat): nat { if x <= y then y else x }

  /** Reading an absent key of a Go map gives the zero value. */
  function CountOf(m: map<nat, nat>, h: nat): nat { if h in m then m[h] else 0 }

  // ---------------------------------------------------------------- jobs and workers

  datatype JobType = CatchupJob | RecentJob | RetryJob

  datatype Job = Job(id: nat, kind: JobType, from: nat, to: nat)

  /**
   A worker goroutine. `job`, `failed` and `curr` are its shared state; `pos` is the
   loop variable (the next height to sample) and `live` is false once it has returned.
   */
  datatype Worker = Worker(job: Job, failed: map<nat, nat>, curr: nat, pos: nat, live: bool)

  datatype Result = Result(job: Job, failed: map<nat, nat>)

  /** How sampling one height ended. A height outside the sampling window counts as done. */
  datatype Outcome = Sampled | OutsideWindow | SampleFailed

  function NewWorker(j: Job): Worker {
    Worker(j, map[], j.from, j.from, true)
  }

  function SetResult(w: Worker, h: nat, ok: bool): Worker {
    w.(failed := if ok then w.failed else w.failed[h := CountOf(w.failed, h) + 1], curr := h)
  }

  /** One iteration of the worker's loop. `curr` trails `pos`: it names a height already sampled. */
  function StepWorker(w: Worker, o: Outcome): Worker {
    SetResult(w, w.pos, !o.SampleFailed?).(pos := w.pos + 1)
  }

  predicate Finished(w: Worker) { w.pos > w.job.to }

  /** The heights a worker still answers for: from `curr` on, and those it failed. */
  predicate Covers(w: Worker, h: nat) {
    w.curr <= h <= w.job.to || h in w.failed
  }

  // ---------------------------------------------------------------- retry backoff

  datatype Attempt = Attempt(count: nat, after: nat)

  /** The delayed next attempt, and whether the number of attempts exceeds the backoff table. */
  function NextRetry(intervals: seq<nat>, last: Attempt, now: nat): (Attempt, bool) {
    var count := last.count + 1;
    if |intervals| == 0 then (Attempt(count, last.after), false)
    else if count > |intervals| then (Attempt(count, now + intervals[|intervals| - 1]), true)
    else (Attempt(count, now + intervals[count - 1]), false)
  }

  // ---------------------------------------------------------------- coordinator state

  datatype Coord = Coord(
    samplingRange: nat,
    intervals: seq<nat>,
    inProgress: map<nat, Worker>,
    failed: map<nat, Attempt>,
    inRetry: map<nat, Attempt>,
    nextJobID: nat,
    next: nat,
    networkHead: nat,
    catchUpDone: bool)

  function NewCoord(samplingRange: nat, intervals: seq<nat>): Coord {
    Coord(samplingRange, intervals, map[], map[], map[], 0, 0, 0, false)
  }

  predicate NothingLeft(c: Coord) {
    |c.inProgress| == 0 && |c.failed| == 0 && c.next > c.networkHead
  }

  function CheckDone(c: Coord): Coord { c.(catchUpDone := NothingLeft(c)) }

  function AttemptOf(m: map<nat, Attempt>, h: nat): Attempt {
    if h in m then m[h] else Attempt(0, 0)
  }

  /** The finished job covered the height and did not fail it. */
  predicate Resolved(res: Result, h: nat) {
    res.job.from <= h <= res.job.to && CountOf(res.failed, h) == 0
  }

  /** Heights the job sampled leave the failed map; heights it failed enter it as a first attempt. */
  function FailedAfterRecentOrCatchup(failed: map<nat, Attempt>, intervals: seq<nat>, res: Result, now: nat): map<nat, Attempt> {
    (map h | h in failed && !Resolved(res, h) :: failed[h]) +
    (map h | h in res.failed :: NextRetry(intervals, Attempt(0, 0), now).0)
  }

  function HandleRecentOrCatchupResult(c: Coord, res: Result, now: nat): Coord {
    c.(failed := FailedAfterRecentOrCatchup(c.failed, c.intervals, res, now))
  }

  /** Heights that failed again go back to the failed map with one more attempt counted. */
  function FailedAfterRetry(failed: map<nat, Attempt>, inRetry: map<nat, Attempt>, intervals: seq<nat>, res: Result, now: nat): map<nat, Attempt> {
    failed + map h | h in res.failed :: NextRetry(intervals, AttemptOf(inRetry, h), now).0
  }

  function HandleRetryResult(c: Coord, res: Result, now: nat): Coord {
    c.(failed := FailedAfterRetry(c.failed, c.inRetry, c.intervals, res, now),
       inRetry := map h | h in c.inRetry && !(res.job.from <= h <= res.job.to) :: c.inRetry[h])
  }

  function HandleResult(c: Coord, res: Result, now: nat): Coord {
    var c1 := c.(inProgress := c.inProgress - {res.job.id});
    CheckDone(if res.job.kind.RetryJob? then HandleRetryResult(c1, res, now) else HandleRecentOrCatchupResult(c1, res, now))
  }

  /** A fresh job with its worker put in progress. */
  function RunJob(c: Coord, kind: JobType, from: nat, to: nat): Coord {
    var id := c.nextJobID + 1;
    c.(nextJobID := id, inProgress := c.inProgress[id := NewWorker(Job(id, kind, from, to))])
  }

  function RunRecentJob(c: Coord, h: nat): Coord {
    RunJob(if c.next == h then c.(next := h + 1) else c, RecentJob, h, h)
  }

  function UpdateHead(c: Coord, h: nat): Coord { CheckDone(c.(networkHead := h)) }

  function HandleNewHead(c: Coord, h: nat, limit: nat): Coord {
    if h <= c.networkHead then c
    else UpdateHead(if |c.inProgress| >= 2 * limit then c else RunRecentJob(c, h), h)
  }

  function CatchupTo(c: Coord): nat {
    Min(Add64(c.next, Dec64(c.samplingRange)), c.networkHead)
  }

  function RunCatchupJob(c: Coord): Coord {
    RunJob(c, CatchupJob, c.next, CatchupTo(c)).(next := CatchupTo(c) + 1)
  }

  predicate CanRetry(a: Attempt, now: nat) { a.after < now }

  function RunRetryJob(c: Coord, h: nat): Coord
    requires h in c.failed
  {
    RunJob(c.(failed := c.failed - {h}, inRetry := c.inRetry[h := c.failed[h]]), RetryJob, h, h)
  }

  // ---------------------------------------------------------------- statistics

  datatype WorkerStats = WorkerStats(kind: JobType, curr: nat, from: nat, to: nat)

  datatype Stats = Stats(
    sampledChainHead: nat,
    catchupHead: nat,
    networkHead: nat,
    failed: map<nat, nat>,
    workers: seq<WorkerStats>,
    concurrency: nat,
    catchUpDone: bool,
    isRunning: bool)

  /** Statistics under construction: what has been gathered from the workers read so far. */
  datatype Tally = Tally(lowest: nat, failed: map<nat, nat>, workers: seq<WorkerStats>)

  /** The least of `start` and the given heights. */
  ghost function Lowest(hs: set<nat>, start: nat): (r: nat)
    ensures r <= start && forall h :: h in hs ==> r <= h
    ensures r == start || r in hs
  {
    if hs == {} then start else
      var h :| h in hs;
      assert forall k :: k in hs ==> k == h || k in hs - {h};
      Min(h, Lowest(hs - {h}, start))
  }

  function AddCounts(m: map<nat, nat>, d: map<nat, nat>): map<nat, nat> {
    map h | h in m.Keys + d.Keys :: CountOf(m, h) + CountOf(d, h)
  }

  function Counts(m: map<nat, Attempt>): map<nat, nat> {
    map h | h in m :: m[h].count
  }

  function StartTally(c: Coord): Tally { Tally(c.next, map[], []) }

  ghost function Collect(t: Tally, w: Worker): Tally {
    Tally(Lowest(w.failed.Keys + {w.curr}, t.lowest),
          AddCounts(t.failed, map h | h in w.failed :: 1),
          t.workers + [WorkerStats(w.job.kind, w.curr, w.job.from, w.job.to)])
  }

  ghost function FinishTally(t: Tally, c: Coord): Stats {
    Stats(Dec64(Lowest(c.failed.Keys, t.lowest)),
          Dec64(c.next),
          c.networkHead,
          AddCounts(AddCounts(t.failed, Counts(c.failed)), Counts(c.inRetry)),
          t.workers,
          |t.workers|,
          c.catchUpDone,
          |t.workers| > 0 || c.catchUpDone)
  }

  // ---------------------------------------------------------------- checkpoints

  datatype WorkerCheckpoint = WorkerCheckpoint(from: nat, to: nat, kind: JobType)

  datatype Checkpoint = Checkpoint(
    sampleFrom: nat,
    networkHead: nat,
    failed: map<nat, nat>,
    workers: seq<WorkerCheckpoint>)

  /** Go's zero value, which Stop stores when no snapshot could be taken. */
  const EmptyCheckpoint := Checkpoint(0, 0, map[], [])

  predicate KeepsWorker(w: WorkerStats, catchupHead: nat) {
    w.kind.CatchupJob? || (w.kind.RecentJob? && w.curr <= catchupHead)
  }

  function KeepWorkers(ws: seq<WorkerStats>, catchupHead: nat): seq<WorkerCheckpoint> {
    if ws == [] then [] else
      var last := ws[|ws| - 1];
      KeepWorkers(ws[..|ws| - 1], catchupHead) +
      if KeepsWorker(last, catchupHead) then [WorkerCheckpoint(last.curr, last.to, CatchupJob)] else []
  }

  function NewCheckpoint(s: Stats): Checkpoint {
    Checkpoint(Add64(s.catchupHead, 1), s.networkHead, s.failed, KeepWorkers(s.workers, s.catchupHead))
  }

  function TrimWorkers(ws: seq<WorkerCheckpoint>, tail: nat): seq<WorkerCheckpoint> {
    if ws == [] then [] else
      var last := ws[|ws| - 1];
      TrimWorkers(ws[..|ws| - 1], tail) +
      if last.to >= tail then [last.(from := Max(last.from, tail))] else []
  }

  /** The checkpoint a start resumes from, given the header store's tail and head. */
  function LoadCheckpoint(stored: Option<Checkpoint>, tail: nat, head: nat): Checkpoint {
    match stored
    case None => Checkpoint(tail, head, map[], [])
    case Some(cp) =>
      Checkpoint(Max(cp.sampleFrom, tail), Max(cp.networkHead, head),
                 map h | h in cp.failed && h >= tail :: cp.failed[h],
                 TrimWorkers(cp.workers, tail))
  }

  function ResumeFromCheckpoint(c: Coord, cp: Checkpoint, now: nat): Coord {
    c.(next := cp.sampleFrom, networkHead := cp.networkHead,
       failed := c.failed + map h | h in cp.failed :: Attempt(cp.failed[h], now))
  }

  function ResumeWorkers(c: Coord, ws: seq<WorkerCheckpoint>): Coord {
    if ws == [] then c else
      var last := ws[|ws| - 1];
      RunJob(ResumeWorkers(c, ws[..|ws| - 1]), last.kind, last.from, last.to)
  }

  /** The coordinator's state when its main loop is first entered. */
  function StartRun(samplingRange: nat, intervals: seq<nat>, cp: Checkpoint, now: nat): Coord {
    CheckDone(ResumeWorkers(ResumeFromCheckpoint(NewCoord(samplingRange, intervals), cp, now), cp.workers))
  }
}
