/**
 The retrieval session of share/eds/retriever.go: any number of goroutines deliver shares
 into the square under per-cell try-locks and a read lock, and one loop waits for a
 one-slot signal and repairs the square under the write lock.
 */
module SquareRetrieval {

  // ---------------------------------------------------------------- quadrants

  datatype Axis = Row | Col

  datatype Cell = Cell(x: nat, y: nat)

  type Root = int

  /** One of the four quadrants of a square, as fetched from the roots of the rows or of the columns that cross it. */
  datatype Quadrant = Quadrant(roots: seq<Root>, x: nat, y: nat, source: Axis) {
    function Pos(rootIdx: nat, cellIdx: nat): Cell {
      var c := cellIdx + |roots| * x;
      var r := rootIdx + |roots| * y;
      match source
      case Row => Cell(r, c)
      case Col => Cell(c, r)
    }
  }

  function QuadrantOf(roots: seq<Root>, x: nat, y: nat, source: Axis): Quadrant
    requires y < 2
  {
    var qsize := |roots| / 2;
    Quadrant(roots[qsize * y..qsize * (y + 1)], x, y, source)
  }

  /** The four quadrants of one source. */
  method SourceQuadrants(roots: seq<Root>, source: Axis) returns (qs: seq<Quadrant>)
    ensures qs == [QuadrantOf(roots, 0, 0, source), QuadrantOf(roots, 1, 0, source), QuadrantOf(roots, 0, 1, source), QuadrantOf(roots, 1, 1, source)]
  {
    qs := [];
    for i := 0 to 4
      invariant |qs| == i && forall k :: 0 <= k < i ==> qs[k] == QuadrantOf(roots, k % 2, k / 2, source)
    {
      var qsize, x, y := |roots| / 2, i % 2, i / 2;
      qs := qs + [Quadrant(roots[qsize * y..qsize * (y + 1)], x, y, source)];
    }
  }

  lemma SwapKeeps(s: seq<Quadrant>, i: nat, j: nat)
    requires i < |s| && j < |s|
    ensures multiset(s[i := s[j]][j := s[i]]) == multiset(s)
  {
  }

  /** rand.Shuffle: swaps with randomly chosen positions. */
  method Shuffle(s: seq<Quadrant>) returns (r: seq<Quadrant>)
    ensures multiset(r) == multiset(s)
  {
    r := s;
    var i := |s|;
    while i > 1
      invariant |r| == |s| && i <= |s| && multiset(r) == multiset(s)
    {
      i := i - 1;
      var j: nat :| j <= i;
      SwapKeeps(r, i, j);
      r := r[i := r[j]][j := r[i]];
    }
  }

  /** Four quadrants of each source, in any order. */
  method NewQuadrants(rowRoots: seq<Root>, colRoots: seq<Root>) returns (qs: seq<Quadrant>)
    ensures multiset(qs) == multiset{
      QuadrantOf(rowRoots, 0, 0, Row), QuadrantOf(rowRoots, 1, 0, Row), QuadrantOf(rowRoots, 0, 1, Row), QuadrantOf(rowRoots, 1, 1, Row),
      QuadrantOf(colRoots, 0, 0, Col), QuadrantOf(colRoots, 1, 0, Col), QuadrantOf(colRoots, 0, 1, Col), QuadrantOf(colRoots, 1, 1, Col)}
  {
    var rows := SourceQuadrants(rowRoots, Row);
    var cols := SourceQuadrants(colRoots, Col);
    qs := Shuffle(rows + cols);
  }

  lemma QuadrantSize(roots: seq<Root>, x: nat, y: nat, source: Axis)
    requires y < 2
    ensures |QuadrantOf(roots, x, y, source).roots| == |roots| / 2
  {
    assert y == 0 || y == 1;
  }

  lemma Digits(n: nat, a: nat, b: nat, a': nat, b': nat)
    requires a < n && a' < n && b < 2 && b' < 2 && a + n * b == a' + n * b'
    ensures a == a' && b == b'
  {
    assert (b == 0 || b == 1) && (b' == 0 || b' == 1);
  }

  /** The share that a quadrant puts into a cell is fetched from the root of that cell's own row or column. */
  lemma RootOfCell(roots: seq<Root>, x: nat, y: nat, source: Axis, i: nat, j: nat)
    requires y < 2 && i < |QuadrantOf(roots, x, y, source).roots|
    ensures var q := QuadrantOf(roots, x, y, source); var cell := q.Pos(i, j);
      var k := if source.Row? then cell.x else cell.y;
      k < |roots| && q.roots[i] == roots[k]
  {
  }

  /** Every cell of the square is requested from each source ... */
  lemma QuadrantsCoverSquare(roots: seq<Root>, source: Axis, cell: Cell) returns (q: Quadrant, i: nat, j: nat)
    requires |roots| % 2 == 0 && cell.x < |roots| && cell.y < |roots|
    ensures q.x < 2 && q.y < 2 && q == QuadrantOf(roots, q.x, q.y, source)
    ensures i < |q.roots| && j < |q.roots| && q.Pos(i, j) == cell
  {
    var size := |roots| / 2;
    var (r, c) := match source case Row => (cell.x, cell.y) case Col => (cell.y, cell.x);
    var y, x := if r < size then 0 else 1, if c < size then 0 else 1;
    q, i, j := QuadrantOf(roots, x, y, source), r - size * y, c - size * x;
  }

  /** ... exactly once: different shares of different quadrants of one source go to different cells. */
  lemma QuadrantsDisjoint(roots: seq<Root>, source: Axis, q: Quadrant, i: nat, j: nat, q': Quadrant, i': nat, j': nat)
    requires q.x < 2 && q.y < 2 && q == QuadrantOf(roots, q.x, q.y, source)
    requires q'.x < 2 && q'.y < 2 && q' == QuadrantOf(roots, q'.x, q'.y, source)
    requires i < |q.roots| && j < |q.roots| && i' < |q'.roots| && j' < |q'.roots|
    requires q.Pos(i, j) == q'.Pos(i', j')
    ensures q == q' && i == i' && j == j'
  {
    var n := |roots| / 2;
    QuadrantSize(roots, q.x, q.y, source);
    QuadrantSize(roots, q'.x, q'.y, source);
    Digits(n, j, q.x, j', q'.x);
    Digits(n, i, q.y, i', q'.y);
  }

  // ---------------------------------------------------------------- the session

  /**
   How far a goroutine with a share for `cell` has got. From `Reading` on it holds the read
   lock; `Written` has set the cell and not yet counted it; `Signalling` must signal.
   */
  datatype Stage = Arrived | Locked | Reading | Checked | Written | Signalling | Leaving

  datatype Writer = Writer(cell: Cell, stage: Stage)

  /** The loop of Retrieve: waiting, about to take the write lock, holding it, back. */
  datatype Loop = Waiting | Woken | Holding | Succeeded | Failed

  /**
   `quarter` is the number of shares of a quadrant. `derived` are cells a failed repair
   filled in, `tried` the cells written when Repair last ran.
   */
  datatype Session = Session(
    quarter: nat,
    locked: set<Cell>,
    written: set<Cell>,
    derived: set<Cell>,
    tried: set<Cell>,
    count: nat,
    signal: bool,
    reconstructed: bool,
    writers: map<nat, Writer>,
    loop: Loop)

  datatype Step =
    | Arrive(id: nat, cell: Cell)
    | TryLock(id: nat)
    | RLock(id: nat)
    | CheckReconstructed(id: nat)
    | SetCell(id: nat, ok: bool)
    | AddCount(id: nat)
    | Signal(id: nat)
    | RUnlock(id: nat)
    | Receive
    | Lock
    | Repair(ok: bool, byzantine: bool, filled: set<Cell>)
    | Cancel

  predicate HoldsReadLock(s: Stage) {
    s.Reading? || s.Checked? || s.Written? || s.Signalling? || s.Leaving?
  }

  ghost predicate At(s: Session, id: nat, stage: Stage) {
    id in s.writers && s.writers[id].stage == stage
  }

  ghost predicate NoReaders(s: Session) {
    forall id :: id in s.writers ==> !HoldsReadLock(s.writers[id].stage)
  }

  /** Repair's outcome is decided by the written cells alone. */
  ghost predicate Enabled(s: Session, t: Step, repairable: set<Cell> -> bool) {
    match t
    case Arrive(id, _) => id !in s.writers
    case TryLock(id) => At(s, id, Arrived)
    case RLock(id) => At(s, id, Locked) && !s.loop.Holding?
    case CheckReconstructed(id) => At(s, id, Reading)
    case SetCell(id, ok) => At(s, id, Checked) && (ok ==> s.writers[id].cell !in s.written + s.derived)
    case AddCount(id) => At(s, id, Written)
    case Signal(id) => At(s, id, Signalling)
    case RUnlock(id) => At(s, id, Leaving)
    case Receive => s.loop.Waiting? && s.signal
    case Lock => s.loop.Woken? && NoReaders(s)
    case Repair(ok, byzantine, _) => s.loop.Holding? && ok == repairable(s.written) && !(ok && byzantine)
    case Cancel => s.loop.Waiting?
  }

  function Move(s: Session, id: nat, stage: Stage): Session
    requires id in s.writers
  {
    s.(writers := s.writers[id := s.writers[id].(stage := stage)])
  }

  ghost function Apply(s: Session, t: Step, repairable: set<Cell> -> bool): Session
    requires Enabled(s, t, repairable)
  {
    match t
    case Arrive(id, cell) => s.(writers := s.writers[id := Writer(cell, Arrived)])
    case TryLock(id) =>
      if s.writers[id].cell in s.locked then s.(writers := s.writers - {id})
      else Move(s, id, Locked).(locked := s.locked + {s.writers[id].cell})
    case RLock(id) => Move(s, id, Reading)
    case CheckReconstructed(id) => Move(s, id, if s.reconstructed then Leaving else Checked)
    case SetCell(id, ok) =>
      if ok then Move(s, id, Written).(written := s.written + {s.writers[id].cell}) else Move(s, id, Leaving)
    case AddCount(id) =>
      Move(s, id, if s.count + 1 >= s.quarter then Signalling else Leaving).(count := s.count + 1)
    case Signal(id) => Move(s, id, Leaving).(signal := true)
    case RUnlock(id) => s.(writers := s.writers - {id})
    case Receive => s.(signal := false, loop := Woken)
    case Lock => s.(loop := Holding)
    case Repair(ok, byzantine, filled) =>
      if ok then s.(tried := s.written, reconstructed := true, loop := Succeeded)
      else s.(tried := s.written, derived := s.derived + filled, loop := if byzantine then Failed else Waiting)
    case Cancel => s.(loop := Failed)
  }

  ghost predicate Init(s: Session) {
    s == Session(s.quarter, {}, {}, {}, {}, 0, false, false, map[], Waiting)
  }

  ghost predicate IsRun(states: seq<Session>, steps: seq<Step>, repairable: set<Cell> -> bool) {
    && |states| == |steps| + 1
    && Init(states[0])
    && forall i :: 0 <= i < |steps| ==>
         Enabled(states[i], steps[i], repairable) && states[i + 1] == Apply(states[i], steps[i], repairable)
  }

  // ---------------------------------------------------------------- the invariant

  /** Goroutines past the try-lock own their cell; until it is set the cell is not written. */
  ghost predicate Owns(s: Session, id: nat)
    requires id in s.writers
  {
    var w := s.writers[id];
    !w.stage.Arrived? ==>
      && w.cell in s.locked
      && (w.stage.Locked? || w.stage.Reading? || w.stage.Checked? ==> w.cell !in s.written)
      && (w.stage.Written? ==> w.cell in s.written)
  }

  ghost predicate SameCellOwned(s: Session, i: nat, j: nat)
    requires i in s.writers && j in s.writers
  {
    !s.writers[i].stage.Arrived? && !s.writers[j].stage.Arrived? && s.writers[i].cell == s.writers[j].cell
  }

  ghost predicate OwnershipOk(s: Session) {
    && s.written <= s.locked
    && (forall id :: id in s.writers ==> Owns(s, id))
    && (forall i, j :: i in s.writers && j in s.writers && i != j ==> !SameCellOwned(s, i, j))
  }

  /** A writer that has set its cell and will still bring the loop to act on it. */
  ghost predicate WillSignal(s: Session, id: nat) {
    At(s, id, Written) || At(s, id, Signalling)
  }

  ghost predicate WakeupOk(s: Session) {
    s.count >= s.quarter && s.written != s.tried && !s.reconstructed && !s.loop.Failed? ==>
      s.signal || s.loop.Woken? || s.loop.Holding? || exists id :: WillSignal(s, id)
  }

  /** The written cells not yet counted. */
  ghost function Uncounted(s: Session): set<nat> {
    set id | id in s.writers && s.writers[id].stage.Written?
  }

  /** Only a count of at least a quarter of the cells wakes the loop. */
  ghost predicate SignalsOk(s: Session) {
    && (s.signal || s.loop.Woken? || s.loop.Holding? ==> s.count >= s.quarter)
    && (forall id :: At(s, id, Signalling) ==> s.count >= s.quarter)
  }

  /** Signals, locks and the loop fit together. */
  ghost predicate PhasesOk(s: Session) {
    && SignalsOk(s)
    && (s.loop.Holding? ==> NoReaders(s))
    && (s.loop.Succeeded? <==> s.reconstructed)
    && (s.reconstructed ==> forall id :: id in s.writers ==>
          !s.writers[id].stage.Checked? && !s.writers[id].stage.Written? && !s.writers[id].stage.Signalling?)
  }

  ghost predicate Inv(s: Session) {
    OwnershipOk(s) && WakeupOk(s) && s.count + |Uncounted(s)| == |s.written| && PhasesOk(s)
  }

  lemma OwnsKept(s: Session, t: Step, repairable: set<Cell> -> bool, id: nat)
    requires OwnershipOk(s) && Enabled(s, t, repairable) && id in Apply(s, t, repairable).writers
    ensures Owns(Apply(s, t, repairable), id)
  {
    if id in s.writers { assert Owns(s, id); }
    if t.SetCell? && t.ok && id != t.id && id in s.writers { assert !SameCellOwned(s, id, t.id); }
  }

  lemma DistinctKept(s: Session, t: Step, repairable: set<Cell> -> bool, i: nat, j: nat)
    requires OwnershipOk(s) && Enabled(s, t, repairable) && i != j
    requires i in Apply(s, t, repairable).writers && j in Apply(s, t, repairable).writers
    ensures !SameCellOwned(Apply(s, t, repairable), i, j)
  {
    if i in s.writers && j in s.writers {
      assert !SameCellOwned(s, i, j) && Owns(s, i) && Owns(s, j);
    }
  }

  lemma WrittenAreLocked(s: Session, t: Step, repairable: set<Cell> -> bool)
    requires OwnershipOk(s) && Enabled(s, t, repairable)
    ensures Apply(s, t, repairable).written <= Apply(s, t, repairable).locked
  {
    if t.SetCell? { assert Owns(s, t.id); }
  }

  lemma OwnershipStep(s: Session, t: Step, repairable: set<Cell> -> bool)
    requires OwnershipOk(s) && Enabled(s, t, repairable)
    ensures OwnershipOk(Apply(s, t, repairable))
  {
    WrittenAreLocked(s, t, repairable);
    forall id | id in Apply(s, t, repairable).writers ensures Owns(Apply(s, t, repairable), id) {
      OwnsKept(s, t, repairable, id);
    }
    forall i, j | i in Apply(s, t, repairable).writers && j in Apply(s, t, repairable).writers && i != j
      ensures !SameCellOwned(Apply(s, t, repairable), i, j)
    {
      DistinctKept(s, t, repairable, i, j);
    }
  }

  lemma WakeupStep(s: Session, t: Step, repairable: set<Cell> -> bool)
    requires WakeupOk(s) && PhasesOk(s) && Enabled(s, t, repairable)
    ensures WakeupOk(Apply(s, t, repairable))
  {
    var s' := Apply(s, t, repairable);
    if t.SetCell? || t.AddCount? {
      if WillSignal(s', t.id) {
      } else if exists id :: WillSignal(s, id) {
        var id :| WillSignal(s, id);
        assert id != t.id ==> WillSignal(s', id);
      }
    } else if exists id :: WillSignal(s, id) {
      var id :| WillSignal(s, id);
      assert t.Signal? || WillSignal(s', id);
    }
  }

  lemma UncountedStep(s: Session, t: Step, repairable: set<Cell> -> bool)
    requires Enabled(s, t, repairable)
    ensures Uncounted(Apply(s, t, repairable)) ==
            if t.SetCell? && t.ok then Uncounted(s) + {t.id}
            else if t.AddCount? then Uncounted(s) - {t.id}
            else Uncounted(s)
  {
  }

  lemma CountStep(s: Session, t: Step, repairable: set<Cell> -> bool)
    requires s.count + |Uncounted(s)| == |s.written| && Enabled(s, t, repairable)
    ensures var s' := Apply(s, t, repairable); s'.count + |Uncounted(s')| == |s'.written|
  {
    UncountedStep(s, t, repairable);
    assert t.AddCount? ==> t.id in Uncounted(s);
    assert t.SetCell? ==> t.id !in Uncounted(s);
  }

  lemma SignalsStep(s: Session, t: Step, repairable: set<Cell> -> bool)
    requires SignalsOk(s) && Enabled(s, t, repairable)
    ensures SignalsOk(Apply(s, t, repairable))
  {
    var s' := Apply(s, t, repairable);
    forall id | At(s', id, Signalling) ensures s'.count >= s'.quarter {
      assert At(s, id, Signalling) || t == AddCount(id);
    }
  }

  lemma PhasesStep(s: Session, t: Step, repairable: set<Cell> -> bool)
    requires PhasesOk(s) && Enabled(s, t, repairable)
    ensures PhasesOk(Apply(s, t, repairable))
  {
    SignalsStep(s, t, repairable);
  }

  lemma StepKeepsInv(s: Session, t: Step, repairable: set<Cell> -> bool)
    requires Inv(s) && Enabled(s, t, repairable)
    ensures Inv(Apply(s, t, repairable))
  {
    OwnershipStep(s, t, repairable);
    WakeupStep(s, t, repairable);
    CountStep(s, t, repairable);
    PhasesStep(s, t, repairable);
  }

  lemma {:induction false} RunKeepsInv(states: seq<Session>, steps: seq<Step>, repairable: set<Cell> -> bool, i: nat)
    requires IsRun(states, steps, repairable) && i < |states|
    ensures Inv(states[i])
  {
    if i > 0 {
      RunKeepsInv(states, steps, repairable, i - 1);
      StepKeepsInv(states[i - 1], steps[i - 1], repairable);
    } else {
      assert Uncounted(states[0]) == {};
    }
  }

  // ---------------------------------------------------------------- theorems about runs

  /**
   No lost wakeup: with at least a quarter of the square written, a cell the last Repair has
   not seen and no goroutine inside its read-locked section, a signal is pending or the loop
   is on its way to Repair.
   */
  lemma NoLostWakeup(states: seq<Session>, steps: seq<Step>, repairable: set<Cell> -> bool, i: nat)
    requires IsRun(states, steps, repairable) && i < |states|
    requires var s := states[i];
      && NoReaders(s) && !s.reconstructed && !s.loop.Failed?
      && |s.written| >= s.quarter && s.written != s.tried
    ensures states[i].signal || states[i].loop.Woken? || states[i].loop.Holding?
  {
    RunKeepsInv(states, steps, repairable, i);
    var s := states[i];
    assert Uncounted(s) == {};
    assert forall id :: !WillSignal(s, id);
  }

  /**
   The loop never sleeps on a square it could repair: if all deliveries have come to rest and
   nothing will wake the loop, the written cells are too few or Repair has failed on exactly them.
   */
  lemma NeverStuckRepairable(states: seq<Session>, steps: seq<Step>, repairable: set<Cell> -> bool, i: nat)
    requires IsRun(states, steps, repairable) && i < |states|
    requires var s := states[i]; s.writers == map[] && s.loop.Waiting? && !s.signal
    ensures var s := states[i]; |s.written| < s.quarter || s.written == {} || !repairable(s.written)
  {
    RunKeepsInv(states, steps, repairable, i);
    var s := states[i];
    if |s.written| >= s.quarter && s.written != {} {
      if s.written != s.tried { NoLostWakeup(states, steps, repairable, i); }
      TriedNotRepairable(states, steps, repairable, i);
    }
  }

  lemma {:induction false} TriedNotRepairable(states: seq<Session>, steps: seq<Step>, repairable: set<Cell> -> bool, i: nat)
    requires IsRun(states, steps, repairable) && i < |states| && !states[i].reconstructed && states[i].tried != {}
    ensures !repairable(states[i].tried)
  {
    var s := states[i - 1];
    assert states[i] == Apply(s, steps[i - 1], repairable);
    if !steps[i - 1].Repair? {
      TriedNotRepairable(states, steps, repairable, i - 1);
    }
  }

  /** A cell is set at most once by the network, never while Repair runs and never after reconstruction. */
  lemma CellWrittenOnce(states: seq<Session>, steps: seq<Step>, repairable: set<Cell> -> bool, i: nat)
    requires IsRun(states, steps, repairable) && i < |steps| && steps[i].SetCell?
    ensures var s := states[i];
      && s.writers[steps[i].id].cell !in s.written
      && !s.reconstructed
      && !s.loop.Holding?
  {
    RunKeepsInv(states, steps, repairable, i);
    assert Owns(states[i], steps[i].id);
  }

  /** Repair sees a square nobody is writing to, and at least a quarter of it. */
  lemma RepairIsExclusive(states: seq<Session>, steps: seq<Step>, repairable: set<Cell> -> bool, i: nat)
    requires IsRun(states, steps, repairable) && i < |steps| && steps[i].Repair?
    ensures NoReaders(states[i]) && |states[i].written| >= states[i].quarter
  {
    RunKeepsInv(states, steps, repairable, i);
  }
}
