/**
 The catch-up flag and channel of das/state.go under interleaving. The coordinator changes
 its fields and then runs checkDone, whose atomic operations may each be separated by
 operations of a caller inside waitCatchUp.
 */
module DasDone {

  /** Where the coordinator is: between handlers, before the check, before `close`, before the flag is cleared. */
  datatype CoordPc = Idle | Checking | Closing | Reopened

  /** A caller of waitCatchUp: before the flag is read, before the channel is read, blocked on a channel, back. */
  datatype WaiterPc = Outside | Entered | SawNotDone | Blocked(c: nat) | ReturnedNil | ReturnedErr

  /**
   `done` is the condition the check evaluates; only handlers change it, as DasSystem proves. Channels are numbered as they are made.
   `sawFlag` records whether the flag was set at some instant since the call began.
   */
  datatype State = State(
    done: bool,
    flag: bool,
    ch: nat,
    closed: set<nat>,
    made: nat,
    coord: CoordPc,
    waiter: WaiterPc,
    sawFlag: bool)

  datatype Step =
    | Handle(done: bool)
    | Check
    | CloseChannel
    | ClearFlag
    | Call
    | LoadFlag
    | ReadChannel
    | Wake
    | ContextDone

  predicate Enabled(s: State, t: Step) {
    match t
    case Handle(_) => s.coord.Idle?
    case Check => s.coord.Checking?
    case CloseChannel => s.coord.Closing?
    case ClearFlag => s.coord.Reopened?
    case Call => s.waiter.Outside? || s.waiter.ReturnedNil? || s.waiter.ReturnedErr?
    case LoadFlag => s.waiter.Entered?
    case ReadChannel => s.waiter.SawNotDone?
    case Wake => s.waiter.Blocked? && s.waiter.c in s.closed
    case ContextDone => s.waiter.Blocked?
  }

  function Update(s: State, t: Step): State {
    match t
    case Handle(done) => s.(done := done, coord := Checking)
    case Check =>
      if s.done then
        if s.flag then s.(coord := Idle) else s.(flag := true, coord := Closing)
      else
        if s.flag then s.(ch := s.made, made := s.made + 1, coord := Reopened) else s.(coord := Idle)
    case CloseChannel => s.(closed := s.closed + {s.ch}, coord := Idle)
    case ClearFlag => s.(flag := false, coord := Idle)
    case Call => s.(waiter := Entered, sawFlag := false)
    case LoadFlag => s.(waiter := if s.flag then ReturnedNil else SawNotDone)
    case ReadChannel => s.(waiter := Blocked(s.ch))
    case Wake => s.(waiter := ReturnedNil)
    case ContextDone => s.(waiter := ReturnedErr)
  }

  function Next(s: State, t: Step): State {
    var s' := Update(s, t);
    s'.(sawFlag := s'.sawFlag || s'.flag)
  }

  predicate Init(s: State) {
    s == State(false, false, 0, {}, 1, Idle, Outside, false)
  }

  ghost predicate IsRun(states: seq<State>, steps: seq<Step>) {
    && |states| == |steps| + 1
    && Init(states[0])
    && forall i :: 0 <= i < |steps| ==> Enabled(states[i], steps[i]) && states[i + 1] == Next(states[i], steps[i])
  }

  ghost predicate Inv(s: State) {
    && s.ch < s.made
    && (forall c :: c in s.closed ==> c < s.made)
    && (s.flag ==> s.sawFlag)
    && (s.coord.Idle? ==> s.flag == s.done)
    && (s.coord.Closing? ==> s.done) && (s.coord.Reopened? ==> !s.done)
    && (s.coord.Closing? || s.coord.Reopened? ==> s.flag && s.ch !in s.closed)
    && (s.coord.Idle? || s.coord.Checking? ==> (s.flag <==> s.ch in s.closed))
    && (s.waiter.ReturnedNil? ==> s.sawFlag)
    && (s.waiter.SawNotDone? && !s.sawFlag ==> !s.flag)
    && (s.waiter.Blocked? ==> s.waiter.c < s.made && (s.waiter.c in s.closed ==> s.sawFlag))
    && (s.waiter.Blocked? && !s.sawFlag ==> s.waiter.c == s.ch)
  }

  lemma CoordStepKeepsInv(s: State, t: Step)
    requires Inv(s) && Enabled(s, t) && (t.Handle? || t.Check? || t.CloseChannel? || t.ClearFlag?)
    ensures Inv(Next(s, t))
  {
  }

  lemma CallerStepKeepsInv(s: State, t: Step)
    requires Inv(s) && Enabled(s, t) && (t.Call? || t.LoadFlag? || t.ReadChannel? || t.Wake? || t.ContextDone?)
    ensures Inv(Next(s, t))
  {
  }

  lemma StepKeepsInv(s: State, t: Step)
    requires Inv(s) && Enabled(s, t)
    ensures Inv(Next(s, t))
  {
    if t.Handle? || t.Check? || t.CloseChannel? || t.ClearFlag? {
      CoordStepKeepsInv(s, t);
    } else {
      CallerStepKeepsInv(s, t);
    }
  }

  lemma {:induction false} RunKeepsInv(states: seq<State>, steps: seq<Step>, i: nat)
    requires IsRun(states, steps) && i < |states|
    ensures Inv(states[i])
  {
    if i > 0 {
      RunKeepsInv(states, steps, i - 1);
      StepKeepsInv(states[i - 1], steps[i - 1]);
    }
  }

  /** Between handlers the flag is exact and the channel in use is closed exactly when the flag is set. */
  lemma ChannelFollowsFlag(states: seq<State>, steps: seq<Step>, i: nat)
    requires IsRun(states, steps) && i < |states| && states[i].coord.Idle?
    ensures var s := states[i]; s.flag == s.done && (s.ch in s.closed <==> s.flag)
  {
    RunKeepsInv(states, steps, i);
  }

  /** No channel is closed twice, which would panic. */
  lemma NeverClosedTwice(states: seq<State>, steps: seq<Step>, i: nat)
    requires IsRun(states, steps) && i < |steps| && steps[i].CloseChannel?
    ensures states[i].ch !in states[i].closed
  {
    RunKeepsInv(states, steps, i);
  }

  /** The call that is running or has returned at `i` began at `b`. */
  ghost predicate CallBegan(steps: seq<Step>, b: nat, i: nat)
    requires b < i <= |steps|
  {
    steps[b].Call? && forall j :: b < j < i ==> !steps[j].Call?
  }

  lemma {:induction false} SawFlagDuringCall(states: seq<State>, steps: seq<Step>, b: nat, i: nat) returns (j: nat)
    requires IsRun(states, steps) && b < i <= |steps| && CallBegan(steps, b, i)
    requires states[i].sawFlag
    ensures b < j <= i && states[j].flag
  {
    assert states[i] == Next(states[i - 1], steps[i - 1]);
    if states[i].flag {
      j := i;
    } else {
      j := SawFlagDuringCall(states, steps, b, i - 1);
    }
  }

  /** The flag is not stale. Inside a handler it may be, until checkDone has run. */
  predicate FlagIsFresh(s: State) { s.flag ==> s.done }

  /** A flag that was not stale at `b` and is set at `j` was right at some instant in between. */
  lemma {:induction false} FlagWasRight(states: seq<State>, steps: seq<Step>, b: nat, j: nat) returns (k: nat)
    requires IsRun(states, steps) && b <= j < |states| && FlagIsFresh(states[b]) && states[j].flag
    ensures b <= k <= j && states[k].done
    decreases j
  {
    if states[j].done {
      k := j;
    } else {
      assert states[j] == Next(states[j - 1], steps[j - 1]);
      k := FlagWasRight(states, steps, b, j - 1);
    }
  }

  /** A nil return of waitCatchUp means that catch-up held at some instant of that very call, if the flag was not stale when it was made. */
  lemma NilMeansCaughtUpDuringCall(states: seq<State>, steps: seq<Step>, b: nat, i: nat) returns (k: nat)
    requires IsRun(states, steps) && b < i <= |steps| && CallBegan(steps, b, i)
    requires states[i].waiter.ReturnedNil? && FlagIsFresh(states[b])
    ensures b <= k <= i && states[k].done
  {
    RunKeepsInv(states, steps, i);
    var j := SawFlagDuringCall(states, steps, b, i);
    k := FlagWasRight(states, steps, b, j);
  }

  lemma RunGrows(states: seq<State>, steps: seq<Step>, t: Step)
    requires IsRun(states, steps) && Enabled(states[|steps|], t)
    ensures IsRun(states + [Next(states[|steps|], t)], steps + [t])
  {
  }

  /** Any call made while the flag is stale can return nil at once, and catch-up does not hold at any instant of it. */
  lemma StaleCallReturnsNil(states: seq<State>, steps: seq<Step>) returns (states': seq<State>, steps': seq<Step>)
    requires IsRun(states, steps) && Enabled(states[|steps|], Call) && !FlagIsFresh(states[|steps|])
    ensures NilCall(states, steps, states', steps') && !CaughtUpSince(states', |steps|)
  {
    var s := states[|steps|];
    RunGrows(states, steps, Call);
    var s1 := Next(s, Call);
    RunGrows(states + [s1], steps + [Call], LoadFlag);
    states' := states + [s1] + [Next(s1, LoadFlag)];
    steps' := steps + [Call] + [LoadFlag];
  }

  /** The run goes on with a call of waitCatchUp and ends when that call has returned nil. */
  ghost predicate NilCall(states: seq<State>, steps: seq<Step>, states': seq<State>, steps': seq<Step>) {
    && IsRun(states', steps') && states <= states' && steps <= steps'
    && |steps| < |steps'| && CallBegan(steps', |steps|, |steps'|)
    && states'[|steps'|].waiter.ReturnedNil?
  }

  /** Catch-up held at some instant from state `b` on. */
  ghost predicate CaughtUpSince(states: seq<State>, b: nat) {
    exists k :: b <= k < |states| && states[k].done
  }

  /**
   Exactly when waitCatchUp keeps its promise: after whatever run, a call made now can return nil only if
   catch-up holds during it, if and only if the flag is not stale now.
   */
  lemma NilIsRightExactly(states: seq<State>, steps: seq<Step>)
    requires IsRun(states, steps) && Enabled(states[|steps|], Call)
    ensures FlagIsFresh(states[|steps|]) <==>
      forall states', steps' :: NilCall(states, steps, states', steps') ==> CaughtUpSince(states', |steps|)
  {
    if FlagIsFresh(states[|steps|]) {
      forall states', steps' | NilCall(states, steps, states', steps') ensures CaughtUpSince(states', |steps|) {
        assert states'[|steps|] == states[|steps|];
        var k := NilMeansCaughtUpDuringCall(states', steps', |steps|, |steps'|);
      }
    } else {
      var states', steps' := StaleCallReturnsNil(states, steps);
      assert NilCall(states, steps, states', steps');
    }
  }

  /** A stale flag does occur: a call made inside the handler of a new head still sees the old one. */
  lemma StaleFlagInsideHandler() returns (states: seq<State>, steps: seq<Step>)
    ensures IsRun(states, steps) && |steps| == 6 && CallBegan(steps, 4, 6)
    ensures states[6].waiter.ReturnedNil? && forall j :: 4 <= j <= 6 ==> !states[j].done
  {
    steps := [Handle(true), Check, CloseChannel, Handle(false), Call, LoadFlag];
    var s0 := State(false, false, 0, {}, 1, Idle, Outside, false);
    var s1 := Next(s0, steps[0]);
    var s2 := Next(s1, steps[1]);
    var s3 := Next(s2, steps[2]);
    var s4 := Next(s3, steps[3]);
    var s5 := Next(s4, steps[4]);
    var s6 := Next(s5, steps[5]);
    states := [s0, s1, s2, s3, s4, s5, s6];
  }
}
