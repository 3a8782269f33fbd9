/**
 Puts, removals and cached reads of the block store (store/store.go, store/store_cache.go) running at the same
 time, one operation of the file system or a cache per step. A put loads the cache before it takes its locks; the
 rest of it, and all of a removal, runs under a stripe of the hash and a stripe of the height
 (store/striplock.go), whichever these are. A cached read fills the second cache, if the store was given one,
 under that cache's own lock only.
 */
module StoreRace {
  import opened Basics
  import opened BlockStore

  /** The data of each height, and the stripes that hashes and heights are locked by. */
  datatype Config = Config(hashOf: nat -> Hash, heightStripe: nat -> nat, hashStripe: Hash -> nat)

  /** What a call does: it stores the original square, or the fourth quadrant as well, or removes both, or the latter. */
  datatype Work = PutODS | PutODSQ4 | RemoveODSQ4 | RemoveQ4 {
    predicate Put() { PutODS? || PutODSQ4? }
  }

  /** Why files are being removed: to write them anew, to undo a put, or on request. */
  datatype Purpose = Recover | Undo | Removal

  /** Where a call is. All but `Called`, `Waiting` and `Finished` are under the locks. */
  datatype Pc =
    | Called
    | Waiting
    | CreatingQ4
    | Creating(q4: Outcome)
    | Validating
    | Dropping(why: Purpose, again: bool)
    | Looking(why: Purpose, again: bool)
    | Closing(why: Purpose, again: bool, wasOpen: bool)
    | Unlinking(why: Purpose)
    | Deleting(why: Purpose)
    | DeletingQ4(why: Purpose)
    | RecreatingQ4
    | Recreating(q4: Outcome)
    | Linking
    | Finished(ok: bool)

  datatype Thread = Thread(height: nat, work: Work, pc: Pc)

  /**
   `recent` is the store's own cache, which holds squares in memory. `second` is the cache added by WithCache, which
   holds opened files; an entry that is being removed, or whose file could not be closed, is there but not open.
   `loading` are the heights whose file a cached read has opened and not yet added, holding the cache's lock.
   */
  datatype Sys = Sys(disk: Disk, recent: set<nat>, second: map<nat, bool>, loading: set<nat>, threads: map<nat, Thread>)

  /** How writing a file ends. */
  datatype Written = Whole | Part | Nothing

  /**
   `Create`, `CreateQ4` and `Delete` stand for writing a file the first time or anew, and for removing either file.
   A height is dropped from the own cache, whose squares close without error, then looked up in the second one and,
   if found, closed and taken out there. Cached reads, having missed the own cache, `Open` a link and `Add` its file.
   */
  datatype Step =
    | Call(id: nat, height: nat, work: Work)
    | Load(id: nat, ok: bool)
    | Enter(id: nat)
    | CreateQ4(id: nat, w: Written)
    | Create(id: nat, w: Written)
    | Validate(id: nat, ok: bool)
    | Drop(id: nat)
    | Look(id: nat)
    | TakeOut(id: nat, ok: bool)
    | Unlink(id: nat, ok: bool)
    | Delete(id: nat, ok: bool)
    | Link(id: nat, ok: bool)
    | Open(height: nat)
    | Add(height: nat)
    | GiveUp(height: nat)
    | Evict(height: nat)
    | EvictSecond(height: nat)

  /** A step of a cached read or of a cache, not of a put or removal. */
  predicate OfNoCall(t: Step) { t.Open? || t.Add? || t.GiveUp? || t.Evict? || t.EvictSecond? }

  predicate Inside(t: Thread) { !t.pc.Called? && !t.pc.Waiting? && !t.pc.Finished? }

  /** A put of the empty block takes no stripe for its hash. */
  predicate TakesHash(cfg: Config, t: Thread) { !t.work.Put() || cfg.hashOf(t.height) != EmptyHash }

  predicate Conflict(cfg: Config, t: Thread, u: Thread) {
    || cfg.heightStripe(t.height) == cfg.heightStripe(u.height)
    || (TakesHash(cfg, t) && TakesHash(cfg, u) && cfg.hashStripe(cfg.hashOf(t.height)) == cfg.hashStripe(cfg.hashOf(u.height)))
  }

  /** The files that a put of this kind wants are there, all of them. */
  predicate HasFiles(d: Disk, hash: Hash, work: Work) {
    && hash in d.ods && d.ods[hash] in d.inodes && d.inodes[d.ods[hash]].complete
    && (work.PutODSQ4? && hash != EmptyHash ==> hash in d.q4 && d.q4[hash])
  }

  predicate At(s: Sys, id: nat, pc: Pc) { id in s.threads && s.threads[id].pc == pc }

  predicate Free(s: Sys, cfg: Config, id: nat)
    requires id in s.threads
  {
    forall i :: i in s.threads && i != id && Inside(s.threads[i]) ==> !Conflict(cfg, s.threads[i], s.threads[id])
  }

  /** The second cache has the height and answers with it. */
  predicate IsOpen(s: Sys, h: nat) { h in s.second && s.second[h] }

  predicate Enabled(s: Sys, t: Step, cfg: Config) {
    match t
    case Call(id, _, _) => id in s.threads ==> s.threads[id].pc.Finished?
    case Load(id, _) => At(s, id, Called)
    case Enter(id) => At(s, id, Waiting) && Free(s, cfg, id)
    case CreateQ4(id, _) => id in s.threads && (s.threads[id].pc.CreatingQ4? || s.threads[id].pc.RecreatingQ4?)
    case Create(id, _) => id in s.threads && (s.threads[id].pc.Creating? || s.threads[id].pc.Recreating?)
    case Validate(id, ok) =>
      At(s, id, Validating) && (ok ==> HasFiles(s.disk, cfg.hashOf(s.threads[id].height), s.threads[id].work))
    case Drop(id) => id in s.threads && s.threads[id].pc.Dropping?
    case Look(id) => id in s.threads && s.threads[id].pc.Looking? && s.threads[id].height !in s.loading
    case TakeOut(id, ok) => id in s.threads && s.threads[id].pc.Closing? && (!ok ==> s.threads[id].pc.wasOpen)
    case Unlink(id, _) => id in s.threads && s.threads[id].pc.Unlinking?
    case Delete(id, _) => id in s.threads && (s.threads[id].pc.Deleting? || s.threads[id].pc.DeletingQ4?)
    case Link(id, _) => At(s, id, Linking)
    case Open(h) => h !in s.loading && !IsOpen(s, h) && h in s.disk.links
    case Add(h) => h in s.loading
    case GiveUp(h) => h in s.loading
    case Evict(_) => true
    case EvictSecond(_) => true
  }

  /** Writing the file of the original square; one that exists is not written. */
  function WriteODS(d: Disk, hash: Hash, w: Written): Disk {
    if hash in d.ods || w.Nothing? then d else WithODS(d, hash, w.Whole?)
  }

  function WriteQ4(d: Disk, hash: Hash, w: Written): Disk {
    if hash in d.q4 || w.Nothing? then d else d.(q4 := d.q4[hash := w.Whole?])
  }

  function Ended(present: bool, w: Written): Outcome { if present then Exists else if w.Whole? then Done else Failed }

  /** That one of the files exists outweighs any other error. */
  function Both(a: Outcome, b: Outcome): Outcome {
    if a.Exists? || b.Exists? then Exists else if a.Failed? || b.Failed? then Failed else Done
  }

  function NewLink(d: Disk, hash: Hash, height: nat): Disk {
    if hash == EmptyHash then d.(links := d.links[height := Symbolic])
    else if hash in d.ods then d.(links := d.links[height := Hard(d.ods[hash])])
    else d
  }

  /** Where a put begins to write, for the first time or anew. */
  function Begin(work: Work, anew: bool): Pc {
    if work.PutODSQ4? then if anew then RecreatingQ4 else CreatingQ4
    else if anew then Recreating(Done) else Creating(Done)
  }

  /** Under the locks. */
  function Entered(work: Work, hash: Hash): Pc {
    match work
    case RemoveODSQ4 => Dropping(Removal, false)
    case RemoveQ4 => if hash == EmptyHash then Finished(true) else Dropping(Removal, true)
    case _ => if hash == EmptyHash then Linking else Begin(work, false)
  }

  function Created(pc: Pc, r: Outcome): Pc
    requires pc.Creating? || pc.Recreating?
  {
    if r.Done? then Linking
    else if pc.Recreating? then Finished(false)
    else if r.Exists? then Validating else Dropping(Undo, false)
  }

  /** After the caches: with the link, or the second time with the fourth quadrant. */
  function Uncached(why: Purpose, again: bool): Pc { if again then DeletingQ4(why) else Unlinking(why) }

  /** After the last file to be removed is gone. */
  function Removed(work: Work, why: Purpose): Pc {
    if why.Recover? then Begin(work, true) else Finished(why.Removal?)
  }

  /** Where the call is after its step. */
  function PcAfter(s: Sys, t: Step, cfg: Config): Pc
    requires Enabled(s, t, cfg) && !t.Call? && !OfNoCall(t)
  {
    var u := s.threads[t.id];
    var hash := cfg.hashOf(u.height);
    match t
    case Load(_, _) => Waiting
    case Enter(_) => Entered(u.work, hash)
    case CreateQ4(_, w) => var r := Ended(hash in s.disk.q4, w); if u.pc.CreatingQ4? then Creating(r) else Recreating(r)
    case Create(_, w) => Created(u.pc, Both(u.pc.q4, Ended(hash in s.disk.ods, w)))
    case Validate(_, ok) => if ok then Linking else Dropping(Recover, false)
    case Drop(_) => Looking(u.pc.why, u.pc.again)
    case Look(_) =>
      if u.height in s.second then Closing(u.pc.why, u.pc.again, s.second[u.height]) else Uncached(u.pc.why, u.pc.again)
    case TakeOut(_, ok) => if ok then Uncached(u.pc.why, u.pc.again) else Finished(false)
    case Unlink(_, ok) => if !ok then Finished(false) else if hash == EmptyHash then Finished(true) else Deleting(u.pc.why)
    case Delete(_, ok) =>
      if !ok then Finished(false)
      else if u.pc.Deleting? && !u.work.PutODS? then Dropping(u.pc.why, true)
      else Removed(u.work, u.pc.why)
    case Link(_, ok) =>
      if ok || u.height in s.disk.links then Finished(true)
      else if hash == EmptyHash then Finished(false) else Dropping(Undo, false)
  }

  function DiskAfter(d: Disk, t: Step, u: Thread, hash: Hash): Disk {
    match t
    case CreateQ4(_, w) => WriteQ4(d, hash, w)
    case Create(_, w) => WriteODS(d, hash, w)
    case Unlink(_, ok) => if ok then d.(links := d.links - {u.height}) else d
    case Delete(_, ok) => if !ok then d else if u.pc.DeletingQ4? then d.(q4 := d.q4 - {hash}) else d.(ods := d.ods - {hash})
    case Link(_, ok) => if ok && u.height !in d.links then NewLink(d, hash, u.height) else d
    case _ => d
  }

  /** A put does not load what the second cache answers with. */
  function RecentAfter(s: Sys, t: Step, h: nat): set<nat> {
    match t
    case Load(_, ok) => if ok && !IsOpen(s, h) then s.recent + {h} else s.recent
    case Drop(_) => s.recent - {h}
    case _ => s.recent
  }

  function SecondAfter(s: Sys, t: Step, h: nat): map<nat, bool> {
    match t
    case Look(_) => if h in s.second then s.second[h := false] else s.second
    case TakeOut(_, ok) => if ok then s.second - {h} else s.second
    case _ => s.second
  }

  /** A step of a cached read or of a cache. */
  function CacheStep(s: Sys, t: Step): Sys {
    match t
    case Open(h) => s.(loading := s.loading + {h})
    case Add(h) => s.(loading := s.loading - {h}, second := s.second[h := true])
    case GiveUp(h) => s.(loading := s.loading - {h})
    case Evict(h) => s.(recent := s.recent - {h})
    case EvictSecond(h) => s.(second := s.second - {h})
    case _ => s
  }

  function Apply(s: Sys, t: Step, cfg: Config): Sys
    requires Enabled(s, t, cfg)
  {
    if t.Call? then
      s.(threads := s.threads[t.id := Thread(t.height, t.work, if t.work.Put() && cfg.hashOf(t.height) != EmptyHash then Called else Waiting)])
    else if OfNoCall(t) then CacheStep(s, t)
    else
      var u := s.threads[t.id];
      var hash := cfg.hashOf(u.height);
      Sys(DiskAfter(s.disk, t, u, hash), RecentAfter(s, t, u.height), SecondAfter(s, t, u.height), s.loading,
          s.threads[t.id := u.(pc := PcAfter(s, t, cfg))])
  }

  /** A store has just been opened on a valid disk. */
  ghost predicate Init(s: Sys, cfg: Config) {
    DiskOk(s.disk, cfg.hashOf) && s.recent == {} && s.second == map[] && s.loading == {} && s.threads == map[]
  }

  ghost predicate IsRun(states: seq<Sys>, steps: seq<Step>, cfg: Config) {
    && |states| == |steps| + 1
    && Init(states[0], cfg)
    && forall i :: 0 <= i < |steps| ==> Enabled(states[i], steps[i], cfg) && states[i + 1] == Apply(states[i], steps[i], cfg)
  }

  // ---------------------------------------------------------------- exclusion

  ghost predicate Apart(s: Sys, cfg: Config, i: nat, j: nat) {
    i != j && i in s.threads && j in s.threads && Inside(s.threads[i]) && Inside(s.threads[j]) ==>
      !Conflict(cfg, s.threads[i], s.threads[j])
  }

  ghost predicate Exclusive(s: Sys, cfg: Config) { forall i, j :: Apart(s, cfg, i, j) }

  lemma StillApart(s: Sys, t: Step, cfg: Config, i: nat, j: nat)
    requires Exclusive(s, cfg) && Enabled(s, t, cfg)
    ensures Apart(Apply(s, t, cfg), cfg, i, j)
  {
    assert Apart(s, cfg, i, j) && Apart(s, cfg, j, i);
  }

  // ---------------------------------------------------------------- the disk

  /** The purpose fits the call. */
  predicate Fits(work: Work, why: Purpose) { work.Put() <==> !why.Removal? }

  /** Neither link nor file of the original square is left. */
  predicate Cleared(d: Disk, cfg: Config, h: nat) { h !in d.links && cfg.hashOf(h) !in d.ods }

  /** The caches are cleared once, and a second time for the fourth quadrant. */
  predicate DroppingOk(d: Disk, cfg: Config, t: Thread, why: Purpose, again: bool) {
    Fits(t.work, why) &&
    if again then !t.work.PutODS? && cfg.hashOf(t.height) != EmptyHash && (!t.work.RemoveQ4? ==> Cleared(d, cfg, t.height))
    else !t.work.RemoveQ4? && (t.work.Put() ==> cfg.hashOf(t.height) != EmptyHash)
  }

  /** What a call under the locks may rely on, and which calls get where. */
  ghost predicate ThreadOk(d: Disk, cfg: Config, t: Thread) {
    var hash, work := cfg.hashOf(t.height), t.work;
    match t.pc
    case Waiting => true
    case Finished(_) => true
    case Dropping(why, again) => DroppingOk(d, cfg, t, why, again)
    case Looking(why, again) => DroppingOk(d, cfg, t, why, again)
    case Closing(why, again, _) => DroppingOk(d, cfg, t, why, again)
    case Unlinking(why) => Fits(work, why) && !work.RemoveQ4? && (work.Put() ==> hash != EmptyHash)
    case Deleting(why) => Fits(work, why) && !work.RemoveQ4? && hash != EmptyHash && t.height !in d.links
    case DeletingQ4(why) => DroppingOk(d, cfg, t, why, true)
    case CreatingQ4 => work.PutODSQ4? && hash != EmptyHash
    case RecreatingQ4 => work.PutODSQ4? && hash != EmptyHash && Cleared(d, cfg, t.height)
    case Creating(q4) => work.Put() && hash != EmptyHash && (work.PutODSQ4? && q4.Done? ==> HasQ4(d, hash))
    case Recreating(q4) => work.Put() && hash != EmptyHash && Cleared(d, cfg, t.height) && (work.PutODSQ4? && q4.Done? ==> HasQ4(d, hash))
    case Linking => work.Put() && HasFiles(d, hash, work)
    case _ => work.Put() && hash != EmptyHash
  }

  ghost predicate ThreadsOk(s: Sys, cfg: Config) { forall id :: id in s.threads ==> ThreadOk(s.disk, cfg, s.threads[id]) }

  /** The step is one of this call's, under the locks. */
  predicate ActsInside(s: Sys, t: Step, id: nat) {
    !t.Call? && !OfNoCall(t) && t.id == id && id in s.threads && Inside(s.threads[id])
  }

  /** The disk stays valid, and nothing is touched but the height's own link and the files of its own data. */
  ghost predicate DiskKept(d: Disk, d': Disk, h: nat, hashOf: nat -> Hash) {
    DiskOk(d', hashOf) && OnlyTouches(d, d', h) && KeepsOtherFiles(d, d', hashOf(h))
  }

  lemma WrittenOk(d: Disk, w: Written, h: nat, hashOf: nat -> Hash)
    requires DiskOk(d, hashOf) && hashOf(h) != EmptyHash
    ensures var d' := WriteODS(d, hashOf(h), w);
      DiskKept(d, d', h, hashOf) && (hashOf(h) !in d.ods && w.Whole? ==> HasFiles(d', hashOf(h), PutODS))
  {
    if hashOf(h) !in d.ods && !w.Nothing? { NewFileOk(d, hashOf(h), w.Whole?, hashOf); }
  }

  lemma WrittenQ4Ok(d: Disk, w: Written, h: nat, hashOf: nat -> Hash)
    requires DiskOk(d, hashOf)
    ensures DiskKept(d, WriteQ4(d, hashOf(h), w), h, hashOf)
  {
    PathsDoNotMatter(d, WriteQ4(d, hashOf(h), w), hashOf);
  }

  lemma DeletedQ4Ok(d: Disk, h: nat, hashOf: nat -> Hash)
    requires DiskOk(d, hashOf)
    ensures DiskKept(d, d.(q4 := d.q4 - {hashOf(h)}), h, hashOf)
  {
    PathsDoNotMatter(d, d.(q4 := d.q4 - {hashOf(h)}), hashOf);
  }

  lemma DeletedOk(d: Disk, h: nat, hashOf: nat -> Hash)
    requires DiskOk(d, hashOf) && hashOf(h) != EmptyHash
    ensures DiskKept(d, d.(ods := d.ods - {hashOf(h)}), h, hashOf)
  {
    RemovedFileOk(d, hashOf(h), hashOf);
  }

  lemma LinkGoneOk(d: Disk, h: nat, hashOf: nat -> Hash)
    requires DiskOk(d, hashOf)
    ensures DiskKept(d, d.(links := d.links - {h}), h, hashOf)
  {
    UnlinkedOk(d, h, hashOf);
  }

  lemma NewLinkOk(d: Disk, h: nat, hashOf: nat -> Hash)
    requires DiskOk(d, hashOf) && HasFiles(d, hashOf(h), PutODS)
    ensures DiskKept(d, NewLink(d, hashOf(h), h), h, hashOf) && h in NewLink(d, hashOf(h), h).links
  {
    LinkedOk(d, h, if hashOf(h) == EmptyHash then Symbolic else Hard(d.ods[hashOf(h)]), hashOf);
  }

  lemma UntouchedOk(d: Disk, h: nat, hashOf: nat -> Hash)
    requires DiskOk(d, hashOf)
    ensures DiskKept(d, d, h, hashOf)
  {
  }

  lemma DeleteStepOk(d: Disk, t: Step, u: Thread, cfg: Config)
    requires DiskOk(d, cfg.hashOf) && t.Delete? && cfg.hashOf(u.height) != EmptyHash
    ensures DiskKept(d, DiskAfter(d, t, u, cfg.hashOf(u.height)), u.height, cfg.hashOf)
  {
    if !t.ok { UntouchedOk(d, u.height, cfg.hashOf); }
    else if u.pc.DeletingQ4? { DeletedQ4Ok(d, u.height, cfg.hashOf); }
    else { DeletedOk(d, u.height, cfg.hashOf); }
  }

  lemma LinkStepOk(d: Disk, t: Step, u: Thread, cfg: Config)
    requires DiskOk(d, cfg.hashOf) && (t.Unlink? || (t.Link? && HasFiles(d, cfg.hashOf(u.height), PutODS)))
    ensures DiskKept(d, DiskAfter(d, t, u, cfg.hashOf(u.height)), u.height, cfg.hashOf)
  {
    if t.Unlink? && t.ok { LinkGoneOk(d, u.height, cfg.hashOf); }
    else if t.Link? && t.ok && u.height !in d.links { NewLinkOk(d, u.height, cfg.hashOf); }
    else { UntouchedOk(d, u.height, cfg.hashOf); }
  }

  /** A call under its locks touches nothing but its own link and the files of its own data, and keeps the disk valid. */
  lemma DiskStepOk(d: Disk, t: Step, u: Thread, cfg: Config)
    requires DiskOk(d, cfg.hashOf)
    requires t.Create? || t.CreateQ4? || t.Delete? ==> cfg.hashOf(u.height) != EmptyHash
    requires t.Link? ==> HasFiles(d, cfg.hashOf(u.height), PutODS)
    ensures DiskKept(d, DiskAfter(d, t, u, cfg.hashOf(u.height)), u.height, cfg.hashOf)
  {
    match t
    case Create(_, w) => WrittenOk(d, w, u.height, cfg.hashOf);
    case CreateQ4(_, w) => WrittenQ4Ok(d, w, u.height, cfg.hashOf);
    case Unlink(_, _) => LinkStepOk(d, t, u, cfg);
    case Delete(_, _) => DeleteStepOk(d, t, u, cfg);
    case Link(_, _) => LinkStepOk(d, t, u, cfg);
    case _ => UntouchedOk(d, u.height, cfg.hashOf);
  }

  lemma StepOnDisk(s: Sys, t: Step, cfg: Config, id: nat)
    requires DiskOk(s.disk, cfg.hashOf) && ThreadsOk(s, cfg) && Enabled(s, t, cfg) && ActsInside(s, t, id)
    ensures DiskKept(s.disk, Apply(s, t, cfg).disk, s.threads[id].height, cfg.hashOf)
  {
    assert ThreadOk(s.disk, cfg, s.threads[id]);
    DiskStepOk(s.disk, t, s.threads[id], cfg);
  }

  lemma OtherThreadOk(d: Disk, d': Disk, cfg: Config, t: Thread, u: Thread)
    requires DiskOk(d, cfg.hashOf) && OnlyTouches(d, d', t.height) && KeepsOtherFiles(d, d', cfg.hashOf(t.height))
    requires Inside(t) && ThreadOk(d, cfg, u) && (Inside(u) ==> !Conflict(cfg, t, u)) && EmptyOk(d')
    ensures ThreadOk(d', cfg, u)
  {
    var hash := cfg.hashOf(u.height);
    if Inside(u) && hash != EmptyHash {
      assert hash != cfg.hashOf(t.height);
      assert SameFiles(d, d', hash);
    }
  }

  lemma WriterOk(s: Sys, t: Step, cfg: Config, id: nat)
    requires DiskOk(s.disk, cfg.hashOf) && ThreadsOk(s, cfg) && Enabled(s, t, cfg) && (t.Create? || t.CreateQ4?) && t.id == id
    ensures ThreadOk(DiskAfter(s.disk, t, s.threads[id], cfg.hashOf(s.threads[id].height)), cfg, s.threads[id].(pc := PcAfter(s, t, cfg)))
  {
    var u := s.threads[id];
    assert ThreadOk(s.disk, cfg, u);
    if t.Create? { WrittenOk(s.disk, t.w, u.height, cfg.hashOf); }
  }

  lemma OwnThreadOk(s: Sys, t: Step, cfg: Config, id: nat)
    requires DiskOk(s.disk, cfg.hashOf) && ThreadsOk(s, cfg) && Enabled(s, t, cfg) && ActsInside(s, t, id)
    ensures ThreadOk(DiskAfter(s.disk, t, s.threads[id], cfg.hashOf(s.threads[id].height)), cfg, s.threads[id].(pc := PcAfter(s, t, cfg)))
  {
    assert ThreadOk(s.disk, cfg, s.threads[id]);
    if t.Create? || t.CreateQ4? { WriterOk(s, t, cfg, id); }
  }

  /** Steps that are not under the locks leave the disk alone. */
  lemma OutsideThreadsOk(s: Sys, t: Step, cfg: Config, i: nat)
    requires DiskOk(s.disk, cfg.hashOf) && ThreadsOk(s, cfg) && Enabled(s, t, cfg) && (t.Call? || t.Load? || t.Enter? || OfNoCall(t))
    requires i in Apply(s, t, cfg).threads
    ensures ThreadOk(Apply(s, t, cfg).disk, cfg, Apply(s, t, cfg).threads[i])
  {
    if i in s.threads { assert ThreadOk(s.disk, cfg, s.threads[i]); }
  }

  lemma InsideThreadsOk(s: Sys, t: Step, cfg: Config, id: nat, i: nat)
    requires DiskOk(s.disk, cfg.hashOf) && ThreadsOk(s, cfg) && Exclusive(s, cfg) && Enabled(s, t, cfg) && ActsInside(s, t, id)
    requires i in Apply(s, t, cfg).threads
    ensures ThreadOk(Apply(s, t, cfg).disk, cfg, Apply(s, t, cfg).threads[i])
  {
    if i == id {
      OwnThreadOk(s, t, cfg, id);
    } else {
      StepOnDisk(s, t, cfg, id);
      assert Apart(s, cfg, id, i) && ThreadOk(s.disk, cfg, s.threads[i]);
      OtherThreadOk(s.disk, Apply(s, t, cfg).disk, cfg, s.threads[id], s.threads[i]);
    }
  }

  // ---------------------------------------------------------------- the cache

  /** A put of the height has loaded the cache and waits for its locks. */
  ghost predicate WaitedFor(s: Sys, h: nat) { exists id :: Waits(s, id, h) }

  ghost predicate Waits(s: Sys, id: nat, h: nat) { id in s.threads && s.threads[id].work.Put() && s.threads[id].height == h && s.threads[id].pc.Waiting? }

  /** A put of the height has passed the cache and is not back yet. */
  ghost predicate UnderWay(s: Sys, h: nat) { exists id :: Puts(s, id, h) }

  ghost predicate Puts(s: Sys, id: nat, h: nat) {
    id in s.threads && s.threads[id].work.Put() && s.threads[id].height == h && !s.threads[id].pc.Called? && !s.threads[id].pc.Finished?
  }

  /** A height in the store's own cache is stored or being put. */
  ghost predicate CachedOk(s: Sys, cfg: Config, h: nat) {
    h in s.recent ==> cfg.hashOf(h) != EmptyHash && (h in s.disk.links || UnderWay(s, h))
  }

  /** The call has removed the cache entry, and not stored the height since. */
  predicate HasDropped(t: Thread) {
    || t.pc.Looking? || t.pc.Closing? || t.pc.Unlinking? || t.pc.Deleting? || t.pc.DeletingQ4? || t.pc.RecreatingQ4? || t.pc.Recreating?
    || (t.pc.Dropping? && t.pc.again && !t.work.RemoveQ4?)
  }

  /** Once a call has removed the cache entry, only a put that waits for it can have loaded it again. */
  ghost predicate DroppedOk(s: Sys, id: nat) {
    id in s.threads && HasDropped(s.threads[id]) && s.threads[id].height in s.recent ==> WaitedFor(s, s.threads[id].height)
  }

  ghost predicate Inv(s: Sys, cfg: Config) {
    && Exclusive(s, cfg) && DiskOk(s.disk, cfg.hashOf) && ThreadsOk(s, cfg)
    && (forall h :: CachedOk(s, cfg, h))
    && (forall id :: DroppedOk(s, id) && TakenOut(s, id))
  }

  /** A put that waits for its locks goes on waiting while another call of its height is under them. */
  lemma WaiterStays(s: Sys, t: Step, cfg: Config, h: nat, id: nat)
    requires Enabled(s, t, cfg) && WaitedFor(s, h) && id in s.threads && Inside(s.threads[id]) && s.threads[id].height == h
    ensures WaitedFor(Apply(s, t, cfg), h)
  {
    var w :| Waits(s, w, h);
    assert t != Enter(w);
    assert Waits(Apply(s, t, cfg), w, h);
  }

  /** Before the step the call was under its locks too, and the cache entry was loaded by another or was there. */
  lemma DroppedBefore(s: Sys, t: Step, cfg: Config, id: nat)
    requires Enabled(s, t, cfg)
    requires var s' := Apply(s, t, cfg); id in s'.threads && HasDropped(s'.threads[id]) && s'.threads[id].height in s'.recent
    ensures id in s.threads && Inside(s.threads[id]) && s.threads[id].height == Apply(s, t, cfg).threads[id].height
    ensures s.threads[id].height in s.recent ==> HasDropped(s.threads[id])
    ensures s.threads[id].height !in s.recent ==> t.Load? && s.threads[t.id].height == s.threads[id].height
  {
    assert !OfNoCall(t) && t.id == id && !t.Call? ==> Apply(s, t, cfg).threads[id].pc == PcAfter(s, t, cfg);
  }

  lemma DroppedKept(s: Sys, t: Step, cfg: Config, id: nat)
    requires Inv(s, cfg) && Enabled(s, t, cfg)
    ensures DroppedOk(Apply(s, t, cfg), id)
  {
    var s' := Apply(s, t, cfg);
    if id in s'.threads && HasDropped(s'.threads[id]) && s'.threads[id].height in s'.recent {
      DroppedBefore(s, t, cfg, id);
      var h := s.threads[id].height;
      assert DroppedOk(s, id);
      if h in s.recent {
        WaiterStays(s, t, cfg, h, id);
      } else {
        assert ThreadOk(s.disk, cfg, s.threads[t.id]);
        assert Waits(s', t.id, h);
      }
    }
  }

  /** A call that has removed the link and cleared the caches again leaves nothing in the second one: no read can open the height. */
  ghost predicate TakenOut(s: Sys, id: nat) {
    id in s.threads && !s.threads[id].work.RemoveQ4? ==>
      && (s.threads[id].pc.Closing? && s.threads[id].pc.again ==> s.threads[id].height !in s.loading)
      && (s.threads[id].pc.DeletingQ4? ==> s.threads[id].height !in s.loading && s.threads[id].height !in s.second)
  }

  lemma TakenOutKept(s: Sys, t: Step, cfg: Config, id: nat)
    requires ThreadsOk(s, cfg) && Enabled(s, t, cfg) && TakenOut(s, id)
    ensures TakenOut(Apply(s, t, cfg), id)
  {
    if id in s.threads { assert ThreadOk(s.disk, cfg, s.threads[id]); }
  }

  /** Unless a put of the height comes to its end, it stays under way. */
  lemma UnderWayKept(s: Sys, t: Step, cfg: Config, h: nat)
    requires Enabled(s, t, cfg) && UnderWay(s, h)
    ensures UnderWay(Apply(s, t, cfg), h) || Ends(s, t, cfg, h)
  {
    var w :| Puts(s, w, h);
    if !Puts(Apply(s, t, cfg), w, h) { assert Ends(s, t, cfg, h); }
  }

  /** The step ends a put of the height. */
  ghost predicate Ends(s: Sys, t: Step, cfg: Config, h: nat)
    requires Enabled(s, t, cfg)
  {
    !t.Call? && !OfNoCall(t) && Puts(s, t.id, h) && Apply(s, t, cfg).threads[t.id].pc.Finished?
  }

  lemma EndedOk(s: Sys, t: Step, cfg: Config, h: nat)
    requires Inv(s, cfg) && Enabled(s, t, cfg) && Ends(s, t, cfg, h)
    ensures CachedOk(Apply(s, t, cfg), cfg, h)
  {
    var s', u := Apply(s, t, cfg), s.threads[t.id];
    assert CachedOk(s, cfg, h) && DroppedOk(s, t.id) && ThreadOk(s.disk, cfg, u);
    if h in s'.recent && !t.Link? {
      WaiterStays(s, t, cfg, h, t.id);
      var w :| Waits(s', w, h);
      assert Puts(s', w, h);
    }
  }

  lemma CachedKept(s: Sys, t: Step, cfg: Config, h: nat)
    requires Inv(s, cfg) && Enabled(s, t, cfg)
    ensures CachedOk(Apply(s, t, cfg), cfg, h)
  {
    var s' := Apply(s, t, cfg);
    assert CachedOk(s, cfg, h);
    if h in s'.recent {
      if Ends(s, t, cfg, h) {
        EndedOk(s, t, cfg, h);
      } else if h !in s.recent {
        assert ThreadOk(s.disk, cfg, s.threads[t.id]);
        assert Puts(s', t.id, h);
      } else if UnderWay(s, h) {
        UnderWayKept(s, t, cfg, h);
      } else if t.Unlink? && s.threads[t.id].height == h {
        UnlinkedWhileCached(s, t, cfg, h);
      }
    }
  }

  lemma UnlinkedWhileCached(s: Sys, t: Step, cfg: Config, h: nat)
    requires Inv(s, cfg) && Enabled(s, t, cfg) && h in s.recent && t.Unlink? && s.threads[t.id].height == h
    ensures UnderWay(Apply(s, t, cfg), h)
  {
    assert DroppedOk(s, t.id);
    WaiterStays(s, t, cfg, h, t.id);
    var w :| Waits(Apply(s, t, cfg), w, h);
    assert Puts(Apply(s, t, cfg), w, h);
  }

  // ---------------------------------------------------------------- every run

  lemma StepKeepsDisk(s: Sys, t: Step, cfg: Config)
    requires Inv(s, cfg) && Enabled(s, t, cfg)
    ensures DiskOk(Apply(s, t, cfg).disk, cfg.hashOf) && ThreadsOk(Apply(s, t, cfg), cfg)
  {
    if t.Call? || t.Load? || t.Enter? || OfNoCall(t) {
      forall i | i in Apply(s, t, cfg).threads ensures ThreadOk(Apply(s, t, cfg).disk, cfg, Apply(s, t, cfg).threads[i]) {
        OutsideThreadsOk(s, t, cfg, i);
      }
    } else {
      StepOnDisk(s, t, cfg, t.id);
      forall i | i in Apply(s, t, cfg).threads ensures ThreadOk(Apply(s, t, cfg).disk, cfg, Apply(s, t, cfg).threads[i]) {
        InsideThreadsOk(s, t, cfg, t.id, i);
      }
    }
  }

  lemma StepKeepsInv(s: Sys, t: Step, cfg: Config)
    requires Inv(s, cfg) && Enabled(s, t, cfg)
    ensures Inv(Apply(s, t, cfg), cfg)
  {
    StepKeepsDisk(s, t, cfg);
    forall i, j ensures Apart(Apply(s, t, cfg), cfg, i, j) { StillApart(s, t, cfg, i, j); }
    forall h ensures CachedOk(Apply(s, t, cfg), cfg, h) { CachedKept(s, t, cfg, h); }
    forall id ensures DroppedOk(Apply(s, t, cfg), id) { DroppedKept(s, t, cfg, id); }
    forall id ensures TakenOut(Apply(s, t, cfg), id) { TakenOutKept(s, t, cfg, id); }
  }

  lemma {:induction false} RunKeepsInv(states: seq<Sys>, steps: seq<Step>, cfg: Config, i: nat)
    requires IsRun(states, steps, cfg) && i < |states|
    ensures Inv(states[i], cfg)
  {
    if i > 0 {
      RunKeepsInv(states, steps, cfg, i - 1);
      StepKeepsInv(states[i - 1], steps[i - 1], cfg);
    }
  }

  /** Whatever runs at the same time: reading a height through its link gives all of that height's own data. */
  lemma ReadsAreWhole(states: seq<Sys>, steps: seq<Step>, cfg: Config, i: nat, h: nat)
    requires IsRun(states, steps, cfg) && i < |states|
    ensures Read(states[i].disk, h) == if h in states[i].disk.links then Some(File(cfg.hashOf(h), true)) else None
  {
    RunKeepsInv(states, steps, cfg, i);
    LinksResolve(states[i].disk, cfg.hashOf, h);
  }

  /** The file a put is about to link is there and complete: no call for other heights with the same data has removed it meanwhile. */
  lemma FileIsThereToLink(states: seq<Sys>, steps: seq<Step>, cfg: Config, i: nat, id: nat)
    requires IsRun(states, steps, cfg) && i < |states| && At(states[i], id, Linking)
    ensures HasFiles(states[i].disk, cfg.hashOf(states[i].threads[id].height), states[i].threads[id].work)
  {
    RunKeepsInv(states, steps, cfg, i);
    assert ThreadOk(states[i].disk, cfg, states[i].threads[id]);
  }

  /** The call returns at step `b`. */
  ghost predicate Returns(states: seq<Sys>, steps: seq<Step>, b: nat, id: nat, ok: bool) {
    && b < |steps| < |states| && id in states[b].threads && !states[b].threads[id].pc.Finished?
    && At(states[b + 1], id, Finished(ok))
  }

  /** The height is stored and no call concerning it is under its locks. */
  ghost predicate AtRest(s: Sys, h: nat) {
    h in s.disk.links && forall i :: i in s.threads && s.threads[i].height == h ==> !Inside(s.threads[i])
  }

  /** Whoever is under the locks of a height, or of some data, is alone there. */
  lemma AloneInside(s: Sys, cfg: Config, id: nat, i: nat)
    requires Exclusive(s, cfg) && id in s.threads && Inside(s.threads[id]) && i in s.threads && Inside(s.threads[i])
    requires s.threads[i].height == s.threads[id].height ||
             (cfg.hashOf(s.threads[i].height) == cfg.hashOf(s.threads[id].height) != EmptyHash)
    ensures i == id
  {
    assert Apart(s, cfg, id, i);
  }

  /** A put without error ends by linking the height, its files complete. */
  lemma PutEnds(s: Sys, t: Step, cfg: Config, id: nat)
    requires Inv(s, cfg) && Enabled(s, t, cfg) && id in s.threads && s.threads[id].work.Put() && !s.threads[id].pc.Finished?
    requires At(Apply(s, t, cfg), id, Finished(true))
    ensures t.Link? && t.id == id && HasFiles(s.disk, cfg.hashOf(s.threads[id].height), s.threads[id].work)
  {
    assert !OfNoCall(t) && !t.Call? && t.id == id && PcAfter(s, t, cfg) == Finished(true);
    assert ThreadOk(s.disk, cfg, s.threads[id]);
  }

  lemma PutReturns(s: Sys, t: Step, cfg: Config, id: nat)
    requires Inv(s, cfg) && Enabled(s, t, cfg) && t.Link? && t.id == id && HasFiles(s.disk, cfg.hashOf(s.threads[id].height), s.threads[id].work)
    requires At(Apply(s, t, cfg), id, Finished(true))
    ensures AtRest(Apply(s, t, cfg), s.threads[id].height)
  {
    var s', h := Apply(s, t, cfg), s.threads[id].height;
    forall i | i in s'.threads && s'.threads[i].height == h ensures !Inside(s'.threads[i]) {
      if i != id && Inside(s'.threads[i]) { AloneInside(s, cfg, id, i); }
    }
  }

  lemma InsideBefore(s: Sys, t: Step, cfg: Config, i: nat)
    requires Enabled(s, t, cfg) && i in Apply(s, t, cfg).threads && Inside(Apply(s, t, cfg).threads[i])
    ensures i in s.threads && s.threads[i].height == Apply(s, t, cfg).threads[i].height && (Inside(s.threads[i]) || t == Enter(i))
  {
  }

  lemma RestIsKept(s: Sys, t: Step, cfg: Config, h: nat)
    requires Enabled(s, t, cfg) && AtRest(s, h) && !EntersFor(s, t, h)
    ensures AtRest(Apply(s, t, cfg), h)
  {
    var s' := Apply(s, t, cfg);
    forall i | i in s'.threads && s'.threads[i].height == h ensures !Inside(s'.threads[i]) {
      if Inside(s'.threads[i]) { InsideBefore(s, t, cfg, i); }
    }
    if h !in s'.disk.links { LinkedBefore(s, t, cfg, h); }
  }

  /** A call concerning the height gets its locks. */
  ghost predicate EntersFor(s: Sys, t: Step, h: nat) { t.Enter? && t.id in s.threads && s.threads[t.id].height == h }

  lemma {:induction false} RestLasts(states: seq<Sys>, steps: seq<Step>, cfg: Config, c: nat, i: nat, h: nat)
    requires IsRun(states, steps, cfg) && c <= i < |states| && AtRest(states[c], h)
    requires forall j :: c <= j < i ==> !EntersFor(states[j], steps[j], h)
    ensures AtRest(states[i], h)
  {
    if c < i {
      var s := states[i - 1];
      RestLasts(states, steps, cfg, c, i - 1, h);
      assert AtRest(s, h);
      RestIsKept(s, steps[i - 1], cfg, h);
    }
  }

  /** A put that has returned without error has stored its height, and it stays stored until the next call for it gets the locks. */
  lemma AcknowledgedStays(states: seq<Sys>, steps: seq<Step>, cfg: Config, b: nat, i: nat, id: nat)
    requires IsRun(states, steps, cfg) && Returns(states, steps, b, id, true) && states[b].threads[id].work.Put() && b < i < |states|
    requires forall j :: b < j < i ==> !EntersFor(states[j], steps[j], states[b].threads[id].height)
    ensures states[b].threads[id].height in states[i].disk.links
  {
    RunKeepsInv(states, steps, cfg, b);
    assert Enabled(states[b], steps[b], cfg) && states[b + 1] == Apply(states[b], steps[b], cfg);
    PutEnds(states[b], steps[b], cfg, id);
    PutReturns(states[b], steps[b], cfg, id);
    RestLasts(states, steps, cfg, b + 1, i, states[b].threads[id].height);
  }

  /** The fourth quadrant is stored and no call concerning the same data is under its locks. */
  ghost predicate Q4AtRest(s: Sys, cfg: Config, hash: Hash) {
    HasQ4(s.disk, hash) && forall i :: i in s.threads && cfg.hashOf(s.threads[i].height) == hash ==> !Inside(s.threads[i])
  }

  lemma Q4PutReturns(s: Sys, t: Step, cfg: Config, id: nat)
    requires Inv(s, cfg) && Enabled(s, t, cfg) && t.Link? && t.id == id && HasFiles(s.disk, cfg.hashOf(s.threads[id].height), PutODSQ4)
    requires At(Apply(s, t, cfg), id, Finished(true)) && cfg.hashOf(s.threads[id].height) != EmptyHash
    ensures Q4AtRest(Apply(s, t, cfg), cfg, cfg.hashOf(s.threads[id].height))
  {
    var s', hash := Apply(s, t, cfg), cfg.hashOf(s.threads[id].height);
    forall i | i in s'.threads && cfg.hashOf(s'.threads[i].height) == hash ensures !Inside(s'.threads[i]) {
      if i != id && Inside(s'.threads[i]) { AloneInside(s, cfg, id, i); }
    }
  }

  lemma Q4Before(s: Sys, t: Step, cfg: Config, hash: Hash)
    requires Enabled(s, t, cfg) && HasQ4(s.disk, hash) && !HasQ4(Apply(s, t, cfg).disk, hash)
    ensures t.Delete? && cfg.hashOf(s.threads[t.id].height) == hash
  {
  }

  lemma Q4RestIsKept(s: Sys, t: Step, cfg: Config, hash: Hash)
    requires Enabled(s, t, cfg) && Q4AtRest(s, cfg, hash) && !EntersForData(s, t, cfg, hash)
    ensures Q4AtRest(Apply(s, t, cfg), cfg, hash)
  {
    var s' := Apply(s, t, cfg);
    forall i | i in s'.threads && cfg.hashOf(s'.threads[i].height) == hash ensures !Inside(s'.threads[i]) {
      if Inside(s'.threads[i]) { InsideBefore(s, t, cfg, i); }
    }
    if !HasQ4(s'.disk, hash) { Q4Before(s, t, cfg, hash); }
  }

  /** A call concerning this data gets its locks. */
  ghost predicate EntersForData(s: Sys, t: Step, cfg: Config, hash: Hash) {
    t.Enter? && t.id in s.threads && cfg.hashOf(s.threads[t.id].height) == hash
  }

  lemma {:induction false} Q4RestLasts(states: seq<Sys>, steps: seq<Step>, cfg: Config, c: nat, i: nat, hash: Hash)
    requires IsRun(states, steps, cfg) && c <= i < |states| && Q4AtRest(states[c], cfg, hash)
    requires forall j :: c <= j < i ==> !EntersForData(states[j], steps[j], cfg, hash)
    ensures Q4AtRest(states[i], cfg, hash)
  {
    if c < i {
      var s := states[i - 1];
      Q4RestLasts(states, steps, cfg, c, i - 1, hash);
      assert Q4AtRest(s, cfg, hash);
      Q4RestIsKept(s, steps[i - 1], cfg, hash);
    }
  }

  /** The same for the fourth quadrant, until the next call for the same data, of whatever height, gets the locks. */
  lemma AcknowledgedQ4Stays(states: seq<Sys>, steps: seq<Step>, cfg: Config, b: nat, i: nat, id: nat)
    requires IsRun(states, steps, cfg) && Returns(states, steps, b, id, true) && states[b].threads[id].work.PutODSQ4? && b < i < |states|
    requires cfg.hashOf(states[b].threads[id].height) != EmptyHash
    requires forall j :: b < j < i ==> !EntersForData(states[j], steps[j], cfg, cfg.hashOf(states[b].threads[id].height))
    ensures HasQ4(states[i].disk, cfg.hashOf(states[b].threads[id].height))
  {
    RunKeepsInv(states, steps, cfg, b);
    assert Enabled(states[b], steps[b], cfg) && states[b + 1] == Apply(states[b], steps[b], cfg);
    PutEnds(states[b], steps[b], cfg, id);
    Q4PutReturns(states[b], steps[b], cfg, id);
    Q4RestLasts(states, steps, cfg, b + 1, i, cfg.hashOf(states[b].threads[id].height));
  }

  /** A removal without error ends by removing the last file, or the link of an empty block. */
  lemma RemovalEnds(s: Sys, t: Step, cfg: Config, id: nat)
    requires Inv(s, cfg) && Enabled(s, t, cfg) && id in s.threads && !s.threads[id].work.Put() && !s.threads[id].pc.Finished?
    requires At(Apply(s, t, cfg), id, Finished(true)) && (s.threads[id].work.RemoveODSQ4? || cfg.hashOf(s.threads[id].height) != EmptyHash)
    ensures !t.Call? && !OfNoCall(t) && t.id == id
    ensures if cfg.hashOf(s.threads[id].height) == EmptyHash then t.Unlink? && t.ok else t.Delete? && t.ok && s.threads[id].pc.DeletingQ4?
  {
    assert ThreadOk(s.disk, cfg, s.threads[id]);
  }

  lemma RemovalReturns(s: Sys, t: Step, cfg: Config, id: nat)
    requires Inv(s, cfg) && Enabled(s, t, cfg) && (t.Unlink? || t.Delete?) && t.id == id && t.ok
    requires if cfg.hashOf(s.threads[id].height) == EmptyHash then t.Unlink? else t.Delete? && s.threads[id].pc.DeletingQ4?
    ensures var s', h := Apply(s, t, cfg), s.threads[id].height;
      && (h in s'.recent ==> WaitedFor(s', h))
      && (cfg.hashOf(h) != EmptyHash ==> cfg.hashOf(h) !in s'.disk.q4)
      && (s.threads[id].work.RemoveODSQ4? ==> h !in s'.disk.links)
      && (s.threads[id].work.RemoveODSQ4? && cfg.hashOf(h) != EmptyHash ==> cfg.hashOf(h) !in s'.disk.ods && h !in s'.second && h !in s'.loading)
  {
    assert ThreadOk(s.disk, cfg, s.threads[id]) && DroppedOk(s, id) && TakenOut(s, id);
    if s.threads[id].height in s.recent { WaiterStays(s, t, cfg, s.threads[id].height, id); }
  }

  /**
   When a removal has returned without error the height is gone, but for the cache entry of a put that waits to
   store it again. Unless the block is empty, so are the files of its data and what cached reads had opened.
   Removing the fourth quadrant only takes that file and the entry.
   */
  lemma RemovedIsGone(states: seq<Sys>, steps: seq<Step>, cfg: Config, b: nat, id: nat)
    requires IsRun(states, steps, cfg) && Returns(states, steps, b, id, true) && !states[b].threads[id].work.Put()
    ensures var s, h, hash := states[b + 1], states[b].threads[id].height, cfg.hashOf(states[b].threads[id].height);
      && (states[b].threads[id].work.RemoveODSQ4? ==> h !in s.disk.links)
      && (states[b].threads[id].work.RemoveODSQ4? && hash != EmptyHash ==> hash !in s.disk.ods && h !in s.second && h !in s.loading)
      && (hash != EmptyHash ==> hash !in s.disk.q4)
      && (states[b].threads[id].work.RemoveODSQ4? || hash != EmptyHash ==> (h in s.recent ==> WaitedFor(s, h)))
  {
    RunKeepsInv(states, steps, cfg, b);
    assert Enabled(states[b], steps[b], cfg) && states[b + 1] == Apply(states[b], steps[b], cfg);
    if states[b].threads[id].work.RemoveODSQ4? || cfg.hashOf(states[b].threads[id].height) != EmptyHash {
      RemovalEnds(states[b], steps[b], cfg, id);
      RemovalReturns(states[b], steps[b], cfg, id);
    }
  }

  // ---------------------------------------------------------------- found though not stored

  /** HasByHeight finds the height in a cache, GetByHeight only where it is open. */
  predicate InCaches(s: Sys, h: nat) { h in s.recent || h in s.second }

  predicate Served(s: Sys, h: nat) { h in s.recent || IsOpen(s, h) }

  /** The call has cleared the second cache of its height, or is about to, and has not removed the link yet. */
  predicate InGap(t: Thread) { t.pc.Unlinking? || (t.pc.Closing? && !t.pc.again) }

  ghost predicate CallInGap(s: Sys, h: nat) { exists id :: id in s.threads && s.threads[id].height == h && InGap(s.threads[id]) }

  /** A call is about to remove the link. */
  ghost predicate CallAtUnlink(s: Sys, h: nat) { exists id :: id in s.threads && s.threads[id].height == h && s.threads[id].pc.Unlinking? }

  /** At `o` a cached read opened the link while a call that removes it was in that gap, and up to `i` has not ended. */
  ghost predicate OpenedInGap(states: seq<Sys>, steps: seq<Step>, o: nat, i: nat, h: nat) {
    && o < i <= |steps| < |states| && steps[o] == Open(h) && CallInGap(states[o], h)
    && forall j :: o < j < i ==> steps[j] != Add(h) && steps[j] != GiveUp(h)
  }

  /** The height is taken out of the second cache. */
  predicate Uncaches(s: Sys, t: Step, h: nat) {
    t == EvictSecond(h) || (t.TakeOut? && t.ok && t.id in s.threads && s.threads[t.id].height == h)
  }

  /** A call begins to take it out, whereupon it is no longer open. */
  predicate Closes(s: Sys, t: Step, h: nat) { t.Look? && t.id in s.threads && s.threads[t.id].height == h }

  /** What such a read opened it added at `a`, and up to `i` nothing has taken it out. */
  ghost predicate LeftBehind(states: seq<Sys>, steps: seq<Step>, o: nat, a: nat, i: nat, h: nat) {
    && a < i <= |steps| < |states| && OpenedInGap(states, steps, o, a, h) && steps[a] == Add(h)
    && forall j :: a < j < i ==> !Uncaches(states[j], steps[j], h)
  }

  ghost predicate LeftOpen(states: seq<Sys>, steps: seq<Step>, o: nat, a: nat, i: nat, h: nat) {
    LeftBehind(states, steps, o, a, i, h) && forall j :: a < j < i ==> !Closes(states[j], steps[j], h)
  }

  lemma {:induction false} LeftBehindStays(states: seq<Sys>, steps: seq<Step>, cfg: Config, o: nat, a: nat, i: nat, h: nat)
    requires IsRun(states, steps, cfg) && LeftBehind(states, steps, o, a, i, h)
    ensures h in states[i].second && (LeftOpen(states, steps, o, a, i, h) ==> states[i].second[h])
  {
    assert Enabled(states[i - 1], steps[i - 1], cfg) && states[i] == Apply(states[i - 1], steps[i - 1], cfg);
    if a < i - 1 { LeftBehindStays(states, steps, cfg, o, a, i - 1, h); }
  }

  /** Only a call for the height removes its link. */
  lemma LinkedBefore(s: Sys, t: Step, cfg: Config, h: nat)
    requires Enabled(s, t, cfg) && h in s.disk.links && h !in Apply(s, t, cfg).disk.links
    ensures CallAtUnlink(s, h) && CallInGap(s, h)
  {
    assert t.Unlink? && s.threads[t.id].height == h;
    assert s.threads[t.id].pc.Unlinking? && InGap(s.threads[t.id]);
  }

  /** No call enters the gap while the height is being loaded, since it has to wait for the cache's lock. */
  lemma GapBefore(s: Sys, t: Step, cfg: Config, h: nat)
    requires Enabled(s, t, cfg) && h in s.loading && CallInGap(Apply(s, t, cfg), h)
    ensures CallInGap(s, h)
  {
    var s' := Apply(s, t, cfg);
    var id :| id in s'.threads && s'.threads[id].height == h && InGap(s'.threads[id]);
    assert id in s.threads && s.threads[id].height == h && InGap(s.threads[id]);
  }

  /** A call that comes to unlink its height leaves the second cache without it. */
  lemma UnlinkBefore(s: Sys, t: Step, cfg: Config, h: nat)
    requires Enabled(s, t, cfg) && h in Apply(s, t, cfg).second && CallAtUnlink(Apply(s, t, cfg), h)
    ensures CallAtUnlink(s, h)
  {
    var s' := Apply(s, t, cfg);
    var id :| id in s'.threads && s'.threads[id].height == h && s'.threads[id].pc.Unlinking?;
    assert id in s.threads && s.threads[id].height == h;
    assert s.threads[id].pc.Unlinking?;
  }

  /** The link is gone, or a call is in the gap before that. */
  ghost predicate Going(s: Sys, h: nat) { h !in s.disk.links || CallInGap(s, h) }

  /** The link is gone, or a call is about to remove it. */
  ghost predicate Unlinked(s: Sys, h: nat) { h !in s.disk.links || CallAtUnlink(s, h) }

  lemma GoingBefore(s: Sys, t: Step, cfg: Config, h: nat)
    requires Enabled(s, t, cfg) && h in s.loading && Going(Apply(s, t, cfg), h)
    ensures Going(s, h)
  {
    if h in Apply(s, t, cfg).disk.links {
      GapBefore(s, t, cfg, h);
    } else if h in s.disk.links {
      LinkedBefore(s, t, cfg, h);
    }
  }

  lemma UnlinkingBefore(s: Sys, t: Step, cfg: Config, h: nat)
    requires Enabled(s, t, cfg) && h in Apply(s, t, cfg).second && Unlinked(Apply(s, t, cfg), h)
    ensures Unlinked(s, h)
  {
    if h in Apply(s, t, cfg).disk.links {
      UnlinkBefore(s, t, cfg, h);
    } else if h in s.disk.links {
      LinkedBefore(s, t, cfg, h);
    }
  }

  lemma LoadingBefore(s: Sys, t: Step, cfg: Config, h: nat)
    requires Enabled(s, t, cfg) && h in Apply(s, t, cfg).loading
    ensures t != Add(h) && t != GiveUp(h)
    ensures if t == Open(h) then h in s.disk.links && Apply(s, t, cfg).disk == s.disk && Apply(s, t, cfg).threads == s.threads else h in s.loading
  {
  }

  /** A height is being loaded though its link is gone or about to go: the read opened it in the gap. */
  lemma {:induction false} LoadingFromGap(states: seq<Sys>, steps: seq<Step>, cfg: Config, i: nat, h: nat) returns (o: nat)
    requires IsRun(states, steps, cfg) && i < |states| && h in states[i].loading && Going(states[i], h)
    ensures OpenedInGap(states, steps, o, i, h)
  {
    assert i > 0;
    var s, t := states[i - 1], steps[i - 1];
    assert Enabled(s, t, cfg) && states[i] == Apply(s, t, cfg);
    LoadingBefore(s, t, cfg, h);
    if t == Open(h) {
      o := i - 1;
    } else {
      GoingBefore(s, t, cfg, h);
      o := LoadingFromGap(states, steps, cfg, i - 1, h);
    }
  }

  lemma CachedBefore(s: Sys, t: Step, cfg: Config, h: nat)
    requires Enabled(s, t, cfg) && t != Add(h) && h in Apply(s, t, cfg).second
    ensures h in s.second && !Uncaches(s, t, h)
    ensures Apply(s, t, cfg).second[h] ==> s.second[h] && !Closes(s, t, h)
  {
  }

  lemma LeftBehindLonger(states: seq<Sys>, steps: seq<Step>, o: nat, a: nat, i: nat, h: nat)
    requires LeftBehind(states, steps, o, a, i, h) && i < |steps| && !Uncaches(states[i], steps[i], h)
    ensures LeftBehind(states, steps, o, a, i + 1, h)
    ensures LeftOpen(states, steps, o, a, i, h) && !Closes(states[i], steps[i], h) ==> LeftOpen(states, steps, o, a, i + 1, h)
  {
  }

  /** Hence what the second cache has of a height that is not stored was opened in the gap. */
  lemma {:induction false} CachedFromGap(states: seq<Sys>, steps: seq<Step>, cfg: Config, i: nat, h: nat) returns (o: nat, a: nat)
    requires IsRun(states, steps, cfg) && i < |states| && h in states[i].second && Unlinked(states[i], h)
    ensures LeftBehind(states, steps, o, a, i, h) && (states[i].second[h] ==> LeftOpen(states, steps, o, a, i, h))
  {
    var s, t := states[i - 1], steps[i - 1];
    assert Enabled(s, t, cfg) && states[i] == Apply(s, t, cfg);
    UnlinkingBefore(s, t, cfg, h);
    if t == Add(h) {
      UnlinkIsGap(s, h);
      a := i - 1;
      o := LoadingFromGap(states, steps, cfg, a, h);
    } else {
      CachedBefore(s, t, cfg, h);
      o, a := CachedFromGap(states, steps, cfg, i - 1, h);
      LeftBehindLonger(states, steps, o, a, i - 1, h);
    }
  }

  lemma UnlinkIsGap(s: Sys, h: nat)
    requires Unlinked(s, h)
    ensures Going(s, h)
  {
    if id :| id in s.threads && s.threads[id].height == h && s.threads[id].pc.Unlinking? {
      assert InGap(s.threads[id]);
    }
  }

  /**
   A height that is not stored and that no put is storing should not be found. Exactly when it is: when a cached
   read opened its link after a call had begun to clear the second cache of it and before that call unlinked it, and
   nothing has taken that file out since; and it is served as long as no other call begins to.
   */
  lemma FoundUnstoredExactly(states: seq<Sys>, steps: seq<Step>, cfg: Config, i: nat, h: nat)
    requires IsRun(states, steps, cfg) && i < |states| && h !in states[i].disk.links && !UnderWay(states[i], h)
    ensures InCaches(states[i], h) <==> exists o: nat, a: nat :: LeftBehind(states, steps, o, a, i, h)
    ensures Served(states[i], h) <==> exists o: nat, a: nat :: LeftOpen(states, steps, o, a, i, h)
  {
    RunKeepsInv(states, steps, cfg, i);
    assert CachedOk(states[i], cfg, h);
    if h in states[i].second {
      var o, a := CachedFromGap(states, steps, cfg, i, h);
    }
    if o: nat, a: nat :| LeftOpen(states, steps, o, a, i, h) {
      LeftBehindStays(states, steps, cfg, o, a, i, h);
    }
    if o: nat, a: nat :| LeftBehind(states, steps, o, a, i, h) {
      LeftBehindStays(states, steps, cfg, o, a, i, h);
    }
  }

  /** So in a store without a second cache it is never found. */
  lemma NeverFoundUnstored(states: seq<Sys>, steps: seq<Step>, cfg: Config, i: nat, h: nat)
    requires IsRun(states, steps, cfg) && i < |states| && h !in states[i].disk.links && !UnderWay(states[i], h)
    requires forall j :: 0 <= j < i ==> !steps[j].Open?
    ensures !InCaches(states[i], h)
  {
    FoundUnstoredExactly(states, steps, cfg, i, h);
  }

  lemma OneMoreStep(states: seq<Sys>, steps: seq<Step>, cfg: Config, t: Step)
    requires IsRun(states, steps, cfg) && Enabled(states[|steps|], t, cfg)
    ensures IsRun(states + [Apply(states[|steps|], t, cfg)], steps + [t], cfg)
  {
  }

  /** A store with one empty block. */
  function OneBlock(h: nat): Disk {
    Disk(map[0 := File(EmptyHash, true)], 1, map[EmptyHash := 0], map[], map[h := Symbolic])
  }

  function Removing(h: nat, pc: Pc): Sys { Sys(OneBlock(h), {}, map[], {}, map[0 := Thread(h, RemoveODSQ4, pc)]) }

  lemma RemovalBegins(cfg: Config, h: nat) returns (states: seq<Sys>, steps: seq<Step>)
    requires cfg.hashOf(h) == EmptyHash
    ensures IsRun(states, steps, cfg) && |steps| == 1 && states[1] == Removing(h, Waiting)
  {
    var s0 := Sys(OneBlock(h), {}, map[], {}, map[]);
    assert Apply(s0, Call(0, h, RemoveODSQ4), cfg) == Removing(h, Waiting);
    states, steps := [s0, Removing(h, Waiting)], [Call(0, h, RemoveODSQ4)];
  }

  lemma RemovalEnters(cfg: Config, h: nat)
    requires cfg.hashOf(h) == EmptyHash
    ensures Enabled(Removing(h, Waiting), Enter(0), cfg)
    ensures Apply(Removing(h, Waiting), Enter(0), cfg) == Removing(h, Dropping(Removal, false))
  {
  }

  lemma RemovalUncaches(cfg: Config, h: nat)
    ensures Apply(Removing(h, Dropping(Removal, false)), Drop(0), cfg) == Removing(h, Looking(Removal, false))
    ensures Apply(Removing(h, Looking(Removal, false)), Look(0), cfg) == Removing(h, Unlinking(Removal))
  {
  }

  /** The removal of an empty block comes to unlink it. */
  lemma RemovalExample(cfg: Config, h: nat) returns (states: seq<Sys>, steps: seq<Step>)
    requires cfg.hashOf(h) == EmptyHash
    ensures IsRun(states, steps, cfg) && |steps| == 4 && states[4] == Removing(h, Unlinking(Removal))
  {
    states, steps := RemovalBegins(cfg, h);
    RemovalEnters(cfg, h);
    RemovalUncaches(cfg, h);
    OneMoreStep(states, steps, cfg, Enter(0));
    states, steps := states + [Removing(h, Dropping(Removal, false))], steps + [Enter(0)];
    OneMoreStep(states, steps, cfg, Drop(0));
    states, steps := states + [Removing(h, Looking(Removal, false))], steps + [Drop(0)];
    OneMoreStep(states, steps, cfg, Look(0));
    states, steps := states + [Removing(h, Unlinking(Removal))], steps + [Look(0)];
  }

  /** Meanwhile a cached read opens the link and adds the file. */
  lemma ReadExample(cfg: Config, h: nat) returns (states: seq<Sys>, steps: seq<Step>)
    requires cfg.hashOf(h) == EmptyHash
    ensures IsRun(states, steps, cfg) && |steps| == 6 && states[6] == Removing(h, Unlinking(Removal)).(second := map[h := true])
  {
    states, steps := RemovalExample(cfg, h);
    var s5 := Removing(h, Unlinking(Removal)).(loading := {h});
    assert Apply(states[4], Open(h), cfg) == s5;
    OneMoreStep(states, steps, cfg, Open(h));
    states, steps := states + [s5], steps + [Open(h)];
    assert Apply(s5, Add(h), cfg) == Removing(h, Unlinking(Removal)).(second := map[h := true]);
    OneMoreStep(states, steps, cfg, Add(h));
    states, steps := states + [Apply(s5, Add(h), cfg)], steps + [Add(h)];
  }

  /** With one it does happen: an empty block is removed, and a cached read opens its link in the gap. */
  lemma FoundUnstoredExample(cfg: Config, h: nat) returns (states: seq<Sys>, steps: seq<Step>)
    requires cfg.hashOf(h) == EmptyHash
    ensures IsRun(states, steps, cfg) && |steps| == 7 && At(states[7], 0, Finished(true))
    ensures Served(states[7], h) && h !in states[7].disk.links && !UnderWay(states[7], h)
  {
    states, steps := ReadExample(cfg, h);
    OneMoreStep(states, steps, cfg, Unlink(0, true));
    states, steps := states + [Apply(states[6], Unlink(0, true), cfg)], steps + [Unlink(0, true)];
  }
}
