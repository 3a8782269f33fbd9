/**
 The cache of share/eds/proofs_cache.go under concurrent calls: each looks its axis up, computes what is
 missing and stores the result, and other calls may do the same in between.
 */
module ProofsCacheRace {
  import opened Basics
  import opened ProofsCache

  datatype Key = Key(axis: Axis, i: nat)

  /** What a call is after: AxisHalf, axisShares or axisWithProofs. */
  datatype Goal = WantHalf | WantShares | WantProofs

  /** A call: what it found in the cache, and what it has come to know of the axis. */
  datatype Call = Call(goal: Goal, key: Key, seen: Option<Entry>, known: Option<Entry>, stored: bool)

  datatype Sys = Sys(cache: map<Key, Entry>, calls: map<nat, Call>)

  datatype Step =
    | Begin(id: nat, goal: Goal, key: Key)
    | ReadHalf(id: nat, half: Half)
    | Extend(id: nat)
    | Build(id: nat)
    | Store(id: nat)
    | Evict(key: Key)

  /** The call has what it is after. */
  predicate Reached(goal: Goal, e: Entry) {
    match goal
    case WantHalf => true
    case WantShares => e.shares != []
    case WantProofs => e.proofs.Some?
  }

  function Found(s: Sys, key: Key): Option<Entry> { if key in s.cache then Some(s.cache[key]) else None }

  ghost predicate Enabled(s: Sys, t: Step, lib: Library, sq: Square) {
    match t
    case Begin(id, _, _) => id !in s.calls
    case ReadHalf(id, half) =>
      id in s.calls && s.calls[id].known.None? && HalfOf(lib, sq, s.calls[id].key.axis, s.calls[id].key.i, half)
    case Extend(id) =>
      && id in s.calls && s.calls[id].known.Some? && s.calls[id].known.value.shares == []
      && lib.extend(s.calls[id].known.value.half).Some? && !s.calls[id].goal.WantHalf?
    case Build(id) =>
      && id in s.calls && s.calls[id].known.Some? && s.calls[id].known.value.shares != []
      && s.calls[id].known.value.proofs.None? && s.calls[id].goal.WantProofs?
      && lib.build(s.calls[id].key.i, s.calls[id].known.value.shares).Some?
    case Store(id) =>
      && id in s.calls && s.calls[id].known.Some? && s.calls[id].known != s.calls[id].seen && !s.calls[id].stored
      && Reached(s.calls[id].goal, s.calls[id].known.value)
    case Evict(key) => true
  }

  ghost function Apply(s: Sys, t: Step, lib: Library, sq: Square): Sys
    requires Enabled(s, t, lib, sq)
  {
    match t
    case Begin(id, goal, key) => s.(calls := s.calls[id := Call(goal, key, Found(s, key), Found(s, key), false)])
    case ReadHalf(id, half) => s.(calls := s.calls[id := s.calls[id].(known := Some(Entry(half, [], None)))])
    case Extend(id) =>
      var c := s.calls[id];
      s.(calls := s.calls[id := c.(known := Some(c.known.value.(shares := lib.extend(c.known.value.half).value)))])
    case Build(id) =>
      var c := s.calls[id];
      s.(calls := s.calls[id := c.(known := Some(c.known.value.(proofs := lib.build(c.key.i, c.known.value.shares))))])
    case Store(id) =>
      var c := s.calls[id];
      s.(cache := s.cache[c.key := c.known.value], calls := s.calls[id := c.(stored := true)])
    case Evict(key) => s.(cache := s.cache - {key})
  }

  ghost predicate IsRun(states: seq<Sys>, steps: seq<Step>, lib: Library, sq: Square) {
    && |states| == |steps| + 1
    && states[0] == Sys(map[], map[])
    && forall i :: 0 <= i < |steps| ==> Enabled(states[i], steps[i], lib, sq) && states[i + 1] == Apply(states[i], steps[i], lib, sq)
  }

  // ---------------------------------------------------------------- answers stay right

  ghost predicate CallOk(c: Call, lib: Library, sq: Square) {
    && (c.known.Some? ==> EntryOk(lib, sq, c.key.axis, c.key.i, c.known.value))
    && (c.seen.Some? ==> c.known.Some? && Upgrades(c.seen.value, c.known.value))
  }

  ghost predicate Inv(s: Sys, lib: Library, sq: Square) {
    && (forall k :: k in s.cache ==> EntryOk(lib, sq, k.axis, k.i, s.cache[k]))
    && (forall id :: id in s.calls ==> CallOk(s.calls[id], lib, sq))
  }

  lemma CallStepOk(c: Call, c': Call, lib: Library, sq: Square)
    requires SquareOk(sq) && CallOk(c, lib, sq) && c'.key == c.key && c'.seen == c.seen && c.known.Some?
    requires
      || (c.known.value.shares == [] && lib.extend(c.known.value.half).Some?
          && c'.known == Some(c.known.value.(shares := lib.extend(c.known.value.half).value)))
      || (c.known.value.shares != [] && c.known.value.proofs.None? && lib.build(c.key.i, c.known.value.shares).Some?
          && c'.known == Some(c.known.value.(proofs := lib.build(c.key.i, c.known.value.shares))))
    ensures CallOk(c', lib, sq)
  {
  }

  lemma StepKeepsInv(s: Sys, t: Step, lib: Library, sq: Square)
    requires SquareOk(sq) && Inv(s, lib, sq) && Enabled(s, t, lib, sq)
    ensures Inv(Apply(s, t, lib, sq), lib, sq)
  {
    if t.Extend? || t.Build? {
      CallStepOk(s.calls[t.id], Apply(s, t, lib, sq).calls[t.id], lib, sq);
    }
  }

  lemma {:induction false} RunKeepsInv(states: seq<Sys>, steps: seq<Step>, lib: Library, sq: Square, i: nat)
    requires SquareOk(sq) && IsRun(states, steps, lib, sq) && i < |states|
    ensures Inv(states[i], lib, sq)
  {
    if i > 0 {
      RunKeepsInv(states, steps, lib, sq, i - 1);
      StepKeepsInv(states[i - 1], steps[i - 1], lib, sq);
    }
  }

  /** However calls interleave: what is cached of an axis, and what a call knows of it, is that axis's own data. */
  lemma RacesKeepAnswersRight(states: seq<Sys>, steps: seq<Step>, lib: Library, sq: Square, i: nat, id: nat)
    requires SquareOk(sq) && IsRun(states, steps, lib, sq) && i < |states|
    requires id in states[i].calls && states[i].calls[id].known.Some?
    ensures var c := states[i].calls[id];
      && EntryOk(lib, sq, c.key.axis, c.key.i, c.known.value)
      && (c.key in states[i].cache ==> EntryOk(lib, sq, c.key.axis, c.key.i, states[i].cache[c.key]))
  {
    RunKeepsInv(states, steps, lib, sq, i);
    assert CallOk(states[i].calls[id], lib, sq);
  }

  // ---------------------------------------------------------------- lost upgrades

  /** Storing replaces an entry that had something the new one has not. */
  ghost predicate Discards(s: Sys, id: nat)
    requires id in s.calls && s.calls[id].known.Some?
  {
    var c := s.calls[id];
    c.key in s.cache && !Upgrades(s.cache[c.key], c.known.value)
  }

  /** The step stores this entry under this key. */
  ghost predicate StoresAt(s: Sys, t: Step, key: Key, e: Entry) {
    t.Store? && t.id in s.calls && s.calls[t.id].key == key && s.calls[t.id].known == Some(e)
  }

  /** The step changes what is cached under the key. */
  ghost predicate Touches(s: Sys, t: Step, key: Key) {
    t == Evict(key) || (t.Store? && t.id in s.calls && s.calls[t.id].key == key)
  }

  lemma UntouchedStays(s: Sys, t: Step, lib: Library, sq: Square, key: Key)
    requires Enabled(s, t, lib, sq) && !Touches(s, t, key)
    ensures Found(Apply(s, t, lib, sq), key) == Found(s, key)
  {
  }

  /** Since state `b` the entry now cached was already there, or some step stored it and none touched it after. */
  lemma {:induction false} WhereFrom(states: seq<Sys>, steps: seq<Step>, lib: Library, sq: Square, b: nat, j: nat, key: Key) returns (m: nat)
    requires IsRun(states, steps, lib, sq) && b <= j < |states| && key in states[j].cache
    ensures b <= m <= j
    ensures m == b ==> Found(states[b], key) == Found(states[j], key)
    ensures m > b ==> StoresAt(states[m - 1], steps[m - 1], key, states[j].cache[key])
    ensures forall n :: m <= n < j ==> !Touches(states[n], steps[n], key)
    decreases j
  {
    if j == b {
      m := b;
    } else {
      var s, t := states[j - 1], steps[j - 1];
      assert Enabled(s, t, lib, sq) && states[j] == Apply(s, t, lib, sq);
      if Touches(s, t, key) {
        m := j;
      } else {
        UntouchedStays(s, t, lib, sq, key);
        m := WhereFrom(states, steps, lib, sq, b, j - 1, key);
      }
    }
  }

  lemma {:induction false} StoredStays(states: seq<Sys>, steps: seq<Step>, lib: Library, sq: Square, m: nat, j: nat, key: Key, e: Entry)
    requires IsRun(states, steps, lib, sq) && 0 < m <= j < |states| && StoresAt(states[m - 1], steps[m - 1], key, e)
    requires forall n :: m <= n < j ==> !Touches(states[n], steps[n], key)
    ensures Found(states[j], key) == Some(e)
    decreases j
  {
    var s, t := states[j - 1], steps[j - 1];
    assert Enabled(s, t, lib, sq) && states[j] == Apply(s, t, lib, sq);
    if m < j {
      StoredStays(states, steps, lib, sq, m, j - 1, key, e);
      UntouchedStays(s, t, lib, sq, key);
    }
  }

  /** The call `id`, which is running at `j`, began at `b`. */
  ghost predicate BeganAt(states: seq<Sys>, steps: seq<Step>, b: nat, j: nat, id: nat) {
    b < j <= |steps| && j < |states| && steps[b].Begin? && steps[b].id == id && id in states[j].calls
  }

  lemma {:induction false} SeenAtBegin(states: seq<Sys>, steps: seq<Step>, lib: Library, sq: Square, b: nat, j: nat, id: nat)
    requires IsRun(states, steps, lib, sq) && BeganAt(states, steps, b, j, id)
    ensures states[j].calls[id].seen == Found(states[b], states[j].calls[id].key)
    decreases j
  {
    var s, t := states[j - 1], steps[j - 1];
    assert Enabled(s, t, lib, sq) && states[j] == Apply(s, t, lib, sq);
    if b < j - 1 {
      StillRunning(states, steps, lib, sq, b, j - 1, id);
      SeenAtBegin(states, steps, lib, sq, b, j - 1, id);
    }
  }

  lemma {:induction false} StillRunning(states: seq<Sys>, steps: seq<Step>, lib: Library, sq: Square, b: nat, j: nat, id: nat)
    requires IsRun(states, steps, lib, sq) && b < j < |states| && b < |steps| && steps[b].Begin? && steps[b].id == id
    ensures id in states[j].calls
    decreases j
  {
    assert Enabled(states[j - 1], steps[j - 1], lib, sq) && states[j] == Apply(states[j - 1], steps[j - 1], lib, sq);
    if b < j - 1 { StillRunning(states, steps, lib, sq, b, j - 1, id); }
  }

  // What a call stores follows from what it is after.

  function Rank(goal: Goal): nat {
    match goal
    case WantHalf => 0
    case WantShares => 1
    case WantProofs => 2
  }

  /** A call computes no more than it is after: beyond what it found there is nothing else. */
  ghost predicate GoalOk(c: Call) {
    c.known.Some? && c.known != c.seen ==>
      && (c.goal.WantHalf? ==> c.known.value.shares == [])
      && (!c.goal.WantProofs? ==> c.known.value.proofs.None?)
  }

  ghost predicate GoalsOk(s: Sys) { forall id :: id in s.calls ==> GoalOk(s.calls[id]) }

  lemma StepKeepsGoals(s: Sys, t: Step, lib: Library, sq: Square)
    requires Inv(s, lib, sq) && GoalsOk(s) && Enabled(s, t, lib, sq)
    ensures GoalsOk(Apply(s, t, lib, sq))
  {
    if t.Extend? {
      assert CallOk(s.calls[t.id], lib, sq);
    }
  }

  lemma {:induction false} RunKeepsGoals(states: seq<Sys>, steps: seq<Step>, lib: Library, sq: Square, i: nat)
    requires SquareOk(sq) && IsRun(states, steps, lib, sq) && i < |states|
    ensures GoalsOk(states[i])
  {
    if i > 0 {
      RunKeepsGoals(states, steps, lib, sq, i - 1);
      RunKeepsInv(states, steps, lib, sq, i - 1);
      StepKeepsGoals(states[i - 1], steps[i - 1], lib, sq);
    }
  }

  /** An entry of this rank: a bare half, the shares as well, or the tree as well. */
  ghost predicate HasRank(e: Entry, rank: nat) {
    (e.shares != [] <==> rank >= 1) && (e.proofs.Some? <==> rank >= 2)
  }

  lemma StoredHasRank(states: seq<Sys>, steps: seq<Step>, lib: Library, sq: Square, m: nat)
    requires SquareOk(sq) && IsRun(states, steps, lib, sq) && m < |steps| && steps[m].Store?
    ensures steps[m].id in states[m].calls
    ensures var d := states[m].calls[steps[m].id];
      d.known.Some? && EntryOk(lib, sq, d.key.axis, d.key.i, d.known.value) && HasRank(d.known.value, Rank(d.goal))
  {
    RunKeepsInv(states, steps, lib, sq, m);
    RunKeepsGoals(states, steps, lib, sq, m);
    assert Enabled(states[m], steps[m], lib, sq);
    var d := states[m].calls[steps[m].id];
    assert CallOk(d, lib, sq) && GoalOk(d);
  }

  lemma UpgradesByRank(lib: Library, sq: Square, axis: Axis, i: nat, e: Entry, e': Entry, rank: nat, rank': nat)
    requires EntryOk(lib, sq, axis, i, e) && EntryOk(lib, sq, axis, i, e') && HasRank(e, rank) && HasRank(e', rank')
    requires rank <= 2 && rank' <= 2
    ensures Upgrades(e, e') <==> e'.half == e.half && rank <= rank'
  {
  }

  /** Since the call began, step `m` stored an entry of the same axis, and nothing has touched that axis in the cache after it. */
  ghost predicate Overtaken(states: seq<Sys>, steps: seq<Step>, b: nat, j: nat, m: nat, key: Key) {
    && b < m < j <= |steps| && |steps| < |states|
    && steps[m].Store? && steps[m].id in states[m].calls && states[m].calls[steps[m].id].key == key
    && forall n :: m < n < j ==> !Touches(states[n], steps[n], key)
  }

  /** It was stored by a call that was after more, or that has read another half. */
  ghost predicate OvertakenByMore(states: seq<Sys>, steps: seq<Step>, b: nat, j: nat, m: nat, c: Call) {
    && Overtaken(states, steps, b, j, m, c.key) && c.known.Some?
    && var d := states[m].calls[steps[m].id];
       d.known.Some? && (Rank(d.goal) > Rank(c.goal) || d.known.value.half != c.known.value.half)
  }

  /** The entry that a call meets when it stores is the one it found, or was stored since by another call. */
  lemma MetWhenStoring(states: seq<Sys>, steps: seq<Step>, lib: Library, sq: Square, b: nat, j: nat, id: nat) returns (m: nat)
    requires SquareOk(sq) && IsRun(states, steps, lib, sq) && BeganAt(states, steps, b, j, id)
    requires states[j].calls[id].known.Some? && Discards(states[j], id)
    ensures Overtaken(states, steps, b, j, m, states[j].calls[id].key)
    ensures states[m].calls[steps[m].id].known == Some(states[j].cache[states[j].calls[id].key])
  {
    var c := states[j].calls[id];
    RunKeepsInv(states, steps, lib, sq, j);
    assert CallOk(c, lib, sq);
    SeenAtBegin(states, steps, lib, sq, b, j, id);
    m := WhereFrom(states, steps, lib, sq, b, j, c.key);
    m := m - 1;
  }

  /**
   Exactly when storing discards something that was cached: when since the call began another one has stored
   its entry of the same axis, which is still there, and was after more than this call or has read another half.
   */
  lemma LostUpgradeExactly(states: seq<Sys>, steps: seq<Step>, lib: Library, sq: Square, b: nat, j: nat, id: nat)
    requires SquareOk(sq) && IsRun(states, steps, lib, sq) && BeganAt(states, steps, b, j, id)
    requires j < |steps| && steps[j] == Store(id)
    ensures states[j].calls[id].known.Some?
    ensures Discards(states[j], id) <==> exists m: nat :: OvertakenByMore(states, steps, b, j, m, states[j].calls[id])
  {
    var c := states[j].calls[id];
    StoredHasRank(states, steps, lib, sq, j);
    if Discards(states[j], id) {
      var m := MetWhenStoring(states, steps, lib, sq, b, j, id);
      var d := states[m].calls[steps[m].id];
      StoredHasRank(states, steps, lib, sq, m);
      UpgradesByRank(lib, sq, c.key.axis, c.key.i, d.known.value, c.known.value, Rank(d.goal), Rank(c.goal));
      assert OvertakenByMore(states, steps, b, j, m, c);
    }
    if m: nat :| OvertakenByMore(states, steps, b, j, m, c) {
      var d := states[m].calls[steps[m].id];
      StoredHasRank(states, steps, lib, sq, m);
      StoredStays(states, steps, lib, sq, m + 1, j, c.key, d.known.value);
      UpgradesByRank(lib, sq, c.key.axis, c.key.i, d.known.value, c.known.value, Rank(d.goal), Rank(c.goal));
    }
  }

  /** So far the axis has always been read as the same half. */
  ghost predicate OneHalf(states: seq<Sys>, steps: seq<Step>, j: nat, key: Key, half: Half)
    requires j <= |steps| <= |states|
  {
    forall n :: 0 <= n < j && steps[n].ReadHalf? && steps[n].id in states[n].calls && states[n].calls[steps[n].id].key == key ==>
      steps[n].half == half
  }

  ghost predicate KnowsHalf(e: Option<Entry>, half: Half) { e.Some? ==> e.value.half == half }

  ghost predicate AllKnowHalf(s: Sys, key: Key, half: Half) {
    && KnowsHalf(Found(s, key), half)
    && forall id :: id in s.calls && s.calls[id].key == key ==> KnowsHalf(s.calls[id].known, half)
  }

  lemma {:induction false} OneHalfKnown(states: seq<Sys>, steps: seq<Step>, lib: Library, sq: Square, j: nat, key: Key, half: Half)
    requires IsRun(states, steps, lib, sq) && j <= |steps| && OneHalf(states, steps, j, key, half)
    ensures AllKnowHalf(states[j], key, half)
  {
    if j > 0 {
      OneHalfKnown(states, steps, lib, sq, j - 1, key, half);
      var s, t := states[j - 1], steps[j - 1];
      assert Enabled(s, t, lib, sq) && states[j] == Apply(s, t, lib, sq);
    }
  }

  /**
   If an axis is always read as the same half, only a call that is after less discards anything: one after the
   proofs never does.
   */
  lemma LostUpgradeByRank(states: seq<Sys>, steps: seq<Step>, lib: Library, sq: Square, b: nat, j: nat, id: nat, half: Half)
    requires SquareOk(sq) && IsRun(states, steps, lib, sq) && BeganAt(states, steps, b, j, id)
    requires j < |steps| && steps[j] == Store(id) && OneHalf(states, steps, j, states[j].calls[id].key, half)
    ensures states[j].calls[id].known.Some?
    ensures var c := states[j].calls[id];
      && (Discards(states[j], id) <==> exists m: nat :: Overtaken(states, steps, b, j, m, c.key) && Rank(states[m].calls[steps[m].id].goal) > Rank(c.goal))
      && (c.goal.WantProofs? ==> !Discards(states[j], id))
  {
    var c := states[j].calls[id];
    LostUpgradeExactly(states, steps, lib, sq, b, j, id);
    OneHalfKnown(states, steps, lib, sq, j, c.key, half);
    forall m: nat | Overtaken(states, steps, b, j, m, c.key)
      ensures OvertakenByMore(states, steps, b, j, m, c) <==> Rank(states[m].calls[steps[m].id].goal) > Rank(c.goal)
    {
      StoredHasRank(states, steps, lib, sq, m);
      OneHalfKnown(states, steps, lib, sq, m, c.key, half);
    }
  }

  /** It does happen: a call that missed stores its bare half over the shares that another has computed meanwhile. */
  lemma LostUpgradeExample() returns (sq: Square, states: seq<Sys>, steps: seq<Step>)
    ensures SquareOk(sq) && IsRun(states, steps, Successor(), sq) && |steps| == 7 && steps[6] == Store(0)
    ensures var key := Key(Row, 0);
      states[6].cache == map[key := Entry(Half([5], false), [5, 6], None)] && states[7].cache == map[key := Entry(Half([5], false), [], None)]
  {
    var lib, key, h := Successor(), Key(Row, 0), Half([5], false);
    sq := Square(2, (axis: Axis, i: nat) => [5, 6]);
    var bare, whole := Entry(h, [], None), Entry(h, [5, 6], None);
    var c0 := Call(WantHalf, key, None, None, false);
    states, steps := SharesStoredExample(sq);
    var s5 := states[5];
    var s6 := s5.(calls := s5.calls[0 := c0.(known := Some(bare))]);
    var s7 := Sys(map[key := bare], s6.calls[0 := c0.(known := Some(bare), stored := true)]);
    OneMoreStep(states, steps, lib, sq, ReadHalf(0, h), s6);
    states, steps := states + [s6], steps + [ReadHalf(0, h)];
    assert Enabled(s6, Store(0), lib, sq) && s7 == Apply(s6, Store(0), lib, sq);
    OneMoreStep(states, steps, lib, sq, Store(0), s7);
    states, steps := states + [s7], steps + [Store(0)];
  }

  /** Both calls miss, and the one for the shares reads. */
  lemma SharesReadExample(sq: Square) returns (states: seq<Sys>, steps: seq<Step>)
    requires sq.width == 2 && forall axis: Axis, i: nat :: sq.line(axis, i) == [5, 6]
    ensures IsRun(states, steps, Successor(), sq) && |steps| == 3
    ensures var key := Key(Row, 0);
      states[3] == Sys(map[], map[0 := Call(WantHalf, key, None, None, false),
                                  1 := Call(WantShares, key, None, Some(Entry(Half([5], false), [], None)), false)])
  {
    var lib, key, h := Successor(), Key(Row, 0), Half([5], false);
    var c0, c1 := Call(WantHalf, key, None, None, false), Call(WantShares, key, None, None, false);
    var s0 := Sys(map[], map[]);
    var s1 := Sys(map[], map[0 := c0]);
    var s2 := Sys(map[], map[0 := c0, 1 := c1]);
    var s3 := Sys(map[], map[0 := c0, 1 := c1.(known := Some(Entry(h, [], None)))]);
    assert s1 == Apply(s0, Begin(0, WantHalf, key), lib, sq);
    assert s2 == Apply(s1, Begin(1, WantShares, key), lib, sq);
    assert s3 == Apply(s2, ReadHalf(1, h), lib, sq);
    states, steps := [s0, s1, s2, s3], [Begin(0, WantHalf, key), Begin(1, WantShares, key), ReadHalf(1, h)];
  }

  /** Then it extends and stores. */
  lemma SharesStoredExample(sq: Square) returns (states: seq<Sys>, steps: seq<Step>)
    requires sq.width == 2 && forall axis: Axis, i: nat :: sq.line(axis, i) == [5, 6]
    ensures IsRun(states, steps, Successor(), sq) && |steps| == 5
    ensures var key, whole := Key(Row, 0), Entry(Half([5], false), [5, 6], None);
      && states[5].cache == map[key := whole] && 0 in states[5].calls && states[5].calls[0] == Call(WantHalf, key, None, None, false)
  {
    var lib, key, h := Successor(), Key(Row, 0), Half([5], false);
    var bare, whole := Entry(h, [], None), Entry(h, [5, 6], None);
    var c0, c1 := Call(WantHalf, key, None, None, false), Call(WantShares, key, None, None, false);
    states, steps := SharesReadExample(sq);
    var s3 := states[3];
    var s4 := Sys(map[], map[0 := c0, 1 := c1.(known := Some(whole))]);
    var s5 := Sys(map[key := whole], map[0 := c0, 1 := c1.(known := Some(whole), stored := true)]);
    assert s4 == Apply(s3, Extend(1), lib, sq);
    assert s5 == Apply(s4, Store(1), lib, sq);
    OneMoreStep(states, steps, lib, sq, Extend(1), s4);
    states, steps := states + [s4], steps + [Extend(1)];
    OneMoreStep(states, steps, lib, sq, Store(1), s5);
    states, steps := states + [s5], steps + [Store(1)];
  }

  lemma OneMoreStep(states: seq<Sys>, steps: seq<Step>, lib: Library, sq: Square, t: Step, s: Sys)
    requires IsRun(states, steps, lib, sq) && Enabled(states[|steps|], t, lib, sq) && s == Apply(states[|steps|], t, lib, sq)
    ensures IsRun(states + [s], steps + [t], lib, sq)
  {
  }
}
