/**
 The one-time construction guard of libstdc++_standalone/__cxa_guard.cpp, as a step relation
 over one shared word and any number of threads.

 Every atomic operation is one step, steps of different threads interleave freely, weak
 compare-exchange may fail spuriously, and the futex behaves as the kernel documents it: waiting
 compares and sleeps atomically, may return early, and waking wakes every sleeper.
 */
module Guard {

  const NOT_YET_STARTED := 0
  const COMPLETE := 1
  const UNDERWAY := 0x100
  const UNDERWAY_WITH_WAITER := 0x200

  /** Where a thread is. `seen` is the possibly stale local `old_value`. */
  datatype Pc =
    | Outside
    | Loading
    | Testing(seen: int)
    | Waiting
    | Sleeping
    | Owner
    | OwesWake

  datatype State = State(word: int, pc: seq<Pc>)

  /** `lucky` resolves the choice a weak compare-exchange or a futex wait leaves open. */
  datatype Step =
    | Enter
    | Load
    | ReturnZero
    | Claim(lucky: bool)
    | Announce(lucky: bool)
    | GoWait
    | FutexWait(lucky: bool)
    | WakeUp
    | Release
    | Abort
    | WakeAll

  datatype Action = Action(t: nat, step: Step)

  predicate InsideAcquire(p: Pc) {
    p.Loading? || p.Testing? || p.Waiting? || p.Sleeping?
  }

  /** The code allows thread `a.t` to take step `a.step` next. */
  predicate Enabled(s: State, a: Action) {
    && a.t < |s.pc|
    && var p := s.pc[a.t];
       match a.step
       case Enter => p == Outside
       case Load => p == Loading
       case ReturnZero => p == Testing(COMPLETE)
       case Claim(_) => p == Testing(NOT_YET_STARTED)
       case Announce(_) => p == Testing(UNDERWAY)
       case GoWait => p.Testing? && p.seen !in {COMPLETE, NOT_YET_STARTED, UNDERWAY}
       case FutexWait(_) => p == Waiting
       case WakeUp => p == Sleeping
       case Release => p == Owner
       case Abort => p == Owner
       case WakeAll => p == OwesWake
  }

  function Woken(pc: seq<Pc>): (r: seq<Pc>)
    ensures |r| == |pc|
    ensures forall i :: 0 <= i < |pc| ==> r[i] == if pc[i] == Sleeping then Loading else pc[i]
  {
    seq(|pc|, i requires 0 <= i < |pc| => if pc[i] == Sleeping then Loading else pc[i])
  }

  function Next(s: State, a: Action): State
    requires Enabled(s, a)
  {
    var t := a.t;
    match a.step
    case Enter => s.(pc := s.pc[t := Loading])
    case Load => s.(pc := s.pc[t := Testing(s.word)])
    case ReturnZero => s.(pc := s.pc[t := Outside])
    case Claim(lucky) =>
      if s.word == NOT_YET_STARTED && lucky
      then State(UNDERWAY, s.pc[t := Owner])
      else s.(pc := s.pc[t := Testing(s.word)])
    case Announce(lucky) =>
      if s.word == UNDERWAY && lucky
      then State(UNDERWAY_WITH_WAITER, s.pc[t := Waiting])
      else s.(pc := s.pc[t := Testing(s.word)])
    case GoWait => s.(pc := s.pc[t := Waiting])
    case FutexWait(lucky) =>
      if s.word == UNDERWAY_WITH_WAITER && lucky
      then s.(pc := s.pc[t := Sleeping])
      else s.(pc := s.pc[t := Loading])
    case WakeUp => s.(pc := s.pc[t := Loading])
    case Release =>
      State(COMPLETE, s.pc[t := if s.word == UNDERWAY_WITH_WAITER then OwesWake else Outside])
    case Abort =>
      State(NOT_YET_STARTED, s.pc[t := if s.word == UNDERWAY_WITH_WAITER then OwesWake else Outside])
    case WakeAll => s.(pc := Woken(s.pc)[t := Outside])
  }

  function Init(threads: nat): State {
    State(NOT_YET_STARTED, seq(threads, _ => Outside))
  }

  predicate IsRun(s: State, run: seq<Action>)
    decreases |run|
  {
    run == [] || (Enabled(s, run[0]) && IsRun(Next(s, run[0]), run[1..]))
  }

  function After(s: State, run: seq<Action>): State
    requires IsRun(s, run)
    decreases |run|
  {
    if run == [] then s else After(Next(s, run[0]), run[1..])
  }

  // ---------------------------------------------------------------- invariant

  ghost predicate Owns(s: State, t: nat) {
    t < |s.pc| && s.pc[t] == Owner
  }

  ghost predicate WakeOwed(s: State) {
    exists t :: 0 <= t < |s.pc| && s.pc[t] == OwesWake
  }

  predicate Busy(word: int) {
    word == UNDERWAY || word == UNDERWAY_WITH_WAITER
  }

  ghost predicate Inv(s: State) {
    && s.word in {NOT_YET_STARTED, COMPLETE, UNDERWAY, UNDERWAY_WITH_WAITER}
    && (Busy(s.word) <==> exists t :: Owns(s, t))
    && (forall t, u :: Owns(s, t) && Owns(s, u) ==> t == u)
    && (forall t :: 0 <= t < |s.pc| && s.pc[t] == Testing(COMPLETE) ==> s.word == COMPLETE)
    && (forall t :: 0 <= t < |s.pc| && s.pc[t] == Sleeping
          ==> s.word == UNDERWAY_WITH_WAITER || WakeOwed(s))
  }

  // ---------------------------------------------------------------- abstract machine

  datatype Abstract = Idle | Running(owner: nat) | Done

  datatype Label = Tau | Acquired(t: nat) | Released(t: nat) | Aborted(t: nat) | Passed(t: nat)

  ghost predicate AbstractStep(x: Abstract, l: Label, y: Abstract) {
    match l
    case Tau => x == y
    case Acquired(t) => x == Idle && y == Running(t)
    case Released(t) => x == Running(t) && y == Done
    case Aborted(t) => x == Running(t) && y == Idle
    case Passed(_) => x == Done && y == Done
  }

  ghost predicate AbstractRun(x: Abstract, ls: seq<Label>, y: Abstract)
    decreases |ls|
  {
    if ls == [] then x == y
    else exists m :: AbstractStep(x, ls[0], m) && AbstractRun(m, ls[1..], y)
  }

  ghost function Abs(s: State): (x: Abstract)
    requires Inv(s)
    ensures x == Done <==> s.word == COMPLETE
    ensures x == Idle <==> s.word == NOT_YET_STARTED
    ensures forall t :: x == Running(t) <==> Owns(s, t)
  {
    if s.word == COMPLETE then Done
    else if s.word == NOT_YET_STARTED then Idle
    else var t :| Owns(s, t); Running(t)
  }

  /** What a caller of the guard observes of a step. */
  function Observed(s: State, a: Action): Label
    requires Enabled(s, a)
  {
    match a.step
    case Claim(lucky) => if s.word == NOT_YET_STARTED && lucky then Acquired(a.t) else Tau
    case ReturnZero => Passed(a.t)
    case Release => Released(a.t)
    case Abort => Aborted(a.t)
    case _ => Tau
  }

  function Labels(s: State, run: seq<Action>): (ls: seq<Label>)
    requires IsRun(s, run)
    ensures |ls| == |run|
    decreases |run|
  {
    if run == [] then [] else [Observed(s, run[0])] + Labels(Next(s, run[0]), run[1..])
  }

  // ---------------------------------------------------------------- steps

  lemma {:induction false} NextOwners(s: State, a: Action)
    requires Inv(s) && Enabled(s, a)
    ensures var s' := Next(s, a);
      forall u :: Owns(s', u) <==>
        (if u == a.t then Observed(s, a).Acquired? else Owns(s, u))
  {
  }

  lemma {:induction false} StepKeepsSleepersCovered(s: State, a: Action)
    requires Inv(s) && Enabled(s, a)
    ensures var s' := Next(s, a);
      forall u :: 0 <= u < |s'.pc| && s'.pc[u] == Sleeping
        ==> s'.word == UNDERWAY_WITH_WAITER || WakeOwed(s')
  {
    var s' := Next(s, a);
    forall u | 0 <= u < |s'.pc| && s'.pc[u] == Sleeping
      ensures s'.word == UNDERWAY_WITH_WAITER || WakeOwed(s')
    {
      if s'.word != UNDERWAY_WITH_WAITER {
        assert s.pc[u] == Sleeping;
        if s.word == UNDERWAY_WITH_WAITER {
          assert s'.pc[a.t] == OwesWake;
        } else {
          var w :| 0 <= w < |s.pc| && s.pc[w] == OwesWake;
          assert s'.pc[w] == OwesWake;
        }
      }
    }
  }

  /** Every step of every thread keeps the invariant and is a step of the abstract machine. */
  lemma {:induction false} StepRefines(s: State, a: Action)
    requires Inv(s) && Enabled(s, a)
    ensures Inv(Next(s, a))
    ensures AbstractStep(Abs(s), Observed(s, a), Abs(Next(s, a)))
  {
    var s' := Next(s, a);
    NextOwners(s, a);
    StepKeepsSleepersCovered(s, a);
    if a.step.Release? || a.step.Abort? {
      assert Owns(s, a.t);
    } else if Observed(s, a).Acquired? {
      assert Owns(s', a.t);
    } else if Busy(s.word) {
      var t :| Owns(s, t);
      assert Owns(s', t);
    }
  }

  lemma {:induction false} InitHolds(threads: nat)
    ensures Inv(Init(threads)) && Abs(Init(threads)) == Idle
  {
    assert forall t :: 0 <= t < threads ==> Init(threads).pc[t] == Outside;
  }

  /** Over any run, any number of threads and any interleaving, the guard refines
      Idle / Running(owner) / Done. */
  lemma {:induction false} RunRefines(s: State, run: seq<Action>)
    requires Inv(s) && IsRun(s, run)
    ensures Inv(After(s, run))
    ensures AbstractRun(Abs(s), Labels(s, run), Abs(After(s, run)))
    decreases |run|
  {
    if run != [] {
      StepRefines(s, run[0]);
      var s' := Next(s, run[0]);
      RunRefines(s', run[1..]);
      assert Labels(s, run)[1..] == Labels(s', run[1..]);
      assert AbstractStep(Abs(s), Labels(s, run)[0], Abs(s'));
    }
  }

  // ---------------------------------------------------------------- what runs show

  /** Done is permanent, and no run from Done lets anyone construct again. */
  lemma {:induction false} DoneIsPermanent(s: State, run: seq<Action>)
    requires Inv(s) && s.word == COMPLETE && IsRun(s, run)
    ensures After(s, run).word == COMPLETE
    ensures forall k :: 0 <= k < |run| ==> Labels(s, run)[k].Tau? || Labels(s, run)[k].Passed?
    decreases |run|
  {
    if run != [] {
      StepRefines(s, run[0]);
      DoneIsPermanent(Next(s, run[0]), run[1..]);
    }
  }

  /** Acquire returns 0 only after somebody's release. */
  lemma {:induction false} PassedOnlyAfterRelease(s: State, run: seq<Action>, k: nat) returns (j: nat)
    requires Inv(s) && s.word != COMPLETE && IsRun(s, run)
    requires k < |run| && Labels(s, run)[k].Passed?
    ensures j < k && Labels(s, run)[j].Released?
    decreases |run|
  {
    StepRefines(s, run[0]);
    var s' := Next(s, run[0]);
    if Labels(s, run)[0].Released? {
      j := 0;
    } else {
      j := PassedOnlyAfterRelease(s', run[1..], k - 1);
      j := j + 1;
    }
  }

  /** Mutual exclusion over time: while `t` is between acquire-returns-1 and its abort, nobody
      else is told to construct; so before any later acquisition `t` aborted. */
  lemma {:induction false} ReacquiredOnlyAfterAbort(s: State, run: seq<Action>, t: nat, k: nat) returns (j: nat)
    requires Inv(s) && Owns(s, t) && IsRun(s, run)
    requires k < |run| && Labels(s, run)[k].Acquired?
    ensures j < k && Labels(s, run)[j] == Aborted(t)
    decreases |run|
  {
    assert Abs(s) == Running(t);
    StepRefines(s, run[0]);
    var s' := Next(s, run[0]);
    if Labels(s, run)[0] == Aborted(t) {
      j := 0;
    } else {
      if Labels(s, run)[0] == Released(t) {
        DoneIsPermanent(s', run[1..]);
        assert false;
      }
      assert Abs(s') == Running(t);
      j := ReacquiredOnlyAfterAbort(s', run[1..], t, k - 1);
      j := j + 1;
    }
  }

  lemma {:induction false} SplitRun(s: State, run: seq<Action>, i: nat)
    requires IsRun(s, run) && i <= |run|
    ensures IsRun(s, run[..i]) && IsRun(After(s, run[..i]), run[i..])
    ensures Labels(s, run)[i..] == Labels(After(s, run[..i]), run[i..])
    ensures After(s, run) == After(After(s, run[..i]), run[i..])
    decreases i
  {
    if i == 0 {
      assert run[0..] == run;
    } else {
      SplitRun(Next(s, run[0]), run[1..], i - 1);
      assert run[1..][..i - 1] == run[..i][1..];
      assert run[1..][i - 1..] == run[i..];
    }
  }

  /** In the trace of any run, between two moments at which acquire returns 1 the first constructing
      thread has aborted: construction is never handed out twice at once. */
  lemma {:induction false} OneConstructorAtATime(threads: nat, run: seq<Action>, i: nat, k: nat) returns (j: nat)
    requires IsRun(Init(threads), run) && i < k < |run|
    requires Labels(Init(threads), run)[i].Acquired? && Labels(Init(threads), run)[k].Acquired?
    ensures i < j < k && Labels(Init(threads), run)[j] == Aborted(Labels(Init(threads), run)[i].t)
  {
    var s0 := Init(threads);
    InitHolds(threads);
    SplitRun(s0, run, i);
    RunRefines(s0, run[..i]);
    var s, rest := After(s0, run[..i]), run[i..];
    var t := Labels(s0, run)[i].t;
    assert Labels(s, rest)[0] == Labels(s0, run)[i];
    StepRefines(s, rest[0]);
    var s' := Next(s, rest[0]);
    assert Labels(s, rest)[1..] == Labels(s', rest[1..]);
    assert Labels(s', rest[1..])[k - i - 1] == Labels(s0, run)[k];
    var m := ReacquiredOnlyAfterAbort(s', rest[1..], t, k - i - 1);
    j := i + 1 + m;
    assert Labels(s', rest[1..])[m] == Labels(s0, run)[j];
  }

  /** The byte that compiled code tests is non-zero exactly when construction is complete, and its two
      low bits are clear otherwise. */
  lemma {:induction false} LowByteMeansDone(threads: nat, run: seq<Action>)
    requires IsRun(Init(threads), run)
    ensures var s := After(Init(threads), run);
      && Inv(s) && s.word in {0, 1, 0x100, 0x200}
      && (s.word % 256 != 0 <==> Abs(s) == Done)
      && (Abs(s) == Done ==> s.word % 2 == 1)
      && (Abs(s) != Done ==> s.word % 4 == 0)
  {
    InitHolds(threads);
    RunRefines(Init(threads), run);
  }

  /** Only a release changes that byte. */
  lemma {:induction false} OnlyReleaseChangesLowByte(threads: nat, run: seq<Action>, a: Action)
    requires IsRun(Init(threads), run) && Enabled(After(Init(threads), run), a)
    ensures var s := After(Init(threads), run);
      Next(s, a).word % 256 != s.word % 256 <==> a.step == Release
  {
    LowByteMeansDone(threads, run);
    StepRefines(After(Init(threads), run), a);
  }

  /** No wake-up is lost: with no constructor running and no wake owed, nobody sleeps. */
  lemma {:induction false} NoLostWakeup(threads: nat, run: seq<Action>)
    requires IsRun(Init(threads), run)
    ensures var s := After(Init(threads), run);
      (exists t :: 0 <= t < |s.pc| && s.pc[t] == Sleeping)
        ==> s.word == UNDERWAY_WITH_WAITER || WakeOwed(s)
    ensures var s := After(Init(threads), run);
      (forall t :: !Owns(s, t)) && !WakeOwed(s) ==> forall t :: 0 <= t < |s.pc| ==> s.pc[t] != Sleeping
  {
    InitHolds(threads);
    RunRefines(Init(threads), run);
  }

  // ---------------------------------------------------------------- draining after Done

  ghost predicate Settled(s: State) {
    Inv(s) && s.word == COMPLETE && !WakeOwed(s)
  }

  /** Steps a thread still takes inside acquire once the word is COMPLETE. */
  function StepsLeft(p: Pc): nat {
    match p
    case Loading => 2
    case Testing(seen) => if seen == COMPLETE then 1 else if seen == NOT_YET_STARTED || seen == UNDERWAY then 2 else 4
    case Waiting => 3
    case _ => 0
  }

  function OwnSteps(run: seq<Action>, t: nat): nat {
    if run == [] then 0 else (if run[0].t == t then 1 else 0) + OwnSteps(run[1..], t)
  }

  lemma {:induction false} SettledStep(s: State, a: Action, t: nat)
    requires Settled(s) && Enabled(s, a) && t < |s.pc|
    ensures Settled(Next(s, a))
    ensures a.t != t ==> Next(s, a).pc[t] == s.pc[t]
    ensures a.t == t && InsideAcquire(s.pc[t]) && !a.step.ReturnZero? ==>
              && InsideAcquire(Next(s, a).pc[t])
              && StepsLeft(Next(s, a).pc[t]) < StepsLeft(s.pc[t])
  {
    StepRefines(s, a);
    var s' := Next(s, a);
    assert s.pc[a.t] != Owner by {
      if Owns(s, a.t) { assert false; }
    }
    assert !WakeOwed(s') by {
      if u :| 0 <= u < |s'.pc| && s'.pc[u] == OwesWake { assert s.pc[u] == OwesWake; }
    }
  }

  /** Once construction is complete and no wake is owed, a thread inside acquire is never asleep,
      can always step, and returns 0 within `StepsLeft` (at most four) of its own steps, whatever
      stale value it holds and whatever the others do. */
  lemma {:induction false} DoneDrains(s: State, run: seq<Action>, t: nat) returns (k: nat)
    requires Settled(s) && IsRun(s, run)
    requires t < |s.pc| && InsideAcquire(s.pc[t])
    requires OwnSteps(run, t) >= StepsLeft(s.pc[t])
    ensures 1 <= StepsLeft(s.pc[t]) <= 4
    ensures k < |run| && run[k] == Action(t, ReturnZero)
    ensures OwnSteps(run[..k + 1], t) <= StepsLeft(s.pc[t])
    decreases |run|
  {
    assert s.pc[t] != Sleeping;
    SettledStep(s, run[0], t);
    if run[0] == Action(t, ReturnZero) {
      k := 0;
      assert run[..1][1..] == [];
    } else {
      var i := DoneDrains(Next(s, run[0]), run[1..], t);
      k := i + 1;
      assert run[..k + 1][1..] == run[1..][..i + 1];
    }
  }

  /** A thread inside acquire that is not asleep always has a step to take. */
  lemma {:induction false} AwakeThreadsCanStep(s: State, t: nat) returns (a: Action)
    requires t < |s.pc| && InsideAcquire(s.pc[t]) && s.pc[t] != Sleeping
    ensures a.t == t && Enabled(s, a)
  {
    match s.pc[t]
    case Loading => a := Action(t, Load);
    case Waiting => a := Action(t, FutexWait(true));
    case Testing(seen) =>
      a := Action(t,
        if seen == COMPLETE then ReturnZero
        else if seen == NOT_YET_STARTED then Claim(true)
        else if seen == UNDERWAY then Announce(true)
        else GoWait);
  }

  // ---------------------------------------------------------------- getting through

  predicate Awake(p: Pc) {
    p == Outside || (InsideAcquire(p) && p != Sleeping)
  }

  /** All steps are taken by `t`. */
  predicate Own(run: seq<Action>, t: nat) {
    forall k :: 0 <= k < |run| ==> run[k].t == t
  }

  /** The step that a thread takes next when it wants to get through acquire, with every chance in its favour. */
  function Forward(p: Pc): Step
    requires Awake(p)
  {
    match p
    case Outside => Enter
    case Loading => Load
    case Waiting => FutexWait(true)
    case Testing(seen) =>
      if seen == 1 then ReturnZero
      else if seen == 0 then Claim(true)
      else if seen == 0x100 then Announce(true)
      else GoWait
  }

  /** Steps from there to owning an idle guard. */
  function StepsToOwn(p: Pc): nat {
    match p
    case Outside => 3
    case Loading => 2
    case Testing(seen) => if seen == 0 then 1 else if seen == 0x100 then 2 else 4
    case Waiting => 3
    case _ => 0
  }

  lemma {:induction false} Prefixed(s: State, a: Action, rest: seq<Action>)
    requires Enabled(s, a) && IsRun(Next(s, a), rest)
    ensures IsRun(s, [a] + rest) && After(s, [a] + rest) == After(Next(s, a), rest)
    ensures Labels(s, [a] + rest) == [Observed(s, a)] + Labels(Next(s, a), rest)
  {
    assert ([a] + rest)[1..] == rest;
  }

  lemma {:induction false} OneStep(s: State, a: Action)
    requires Enabled(s, a)
    ensures IsRun(s, [a]) && After(s, [a]) == Next(s, a) && Labels(s, [a]) == [Observed(s, a)]
  {
    assert [a] == [a] + [];
    Prefixed(s, a, []);
  }

  /** Acquire returns 1: from every idle state every thread that is not asleep, whatever stale value it holds,
      comes to own the guard within four steps of its own, and nobody else is affected. */
  lemma {:induction false} AcquireSucceeds(s: State, t: nat) returns (run: seq<Action>)
    requires Inv(s) && s.word == 0 && t < |s.pc| && Awake(s.pc[t])
    ensures 1 <= |run| <= StepsToOwn(s.pc[t]) <= 4 && Own(run, t) && IsRun(s, run)
    ensures Labels(s, run)[|run| - 1] == Acquired(t) && forall k :: 0 <= k < |run| - 1 ==> Labels(s, run)[k].Tau?
    ensures After(s, run) == State(0x100, s.pc[t := Owner])
    decreases StepsToOwn(s.pc[t])
  {
    var a := Action(t, Forward(s.pc[t]));
    if s.pc[t] == Testing(0) {
      run := [a];
      OneStep(s, a);
    } else {
      var s' := Next(s, a);
      StepRefines(s, a);
      assert s' == s.(pc := s.pc[t := s'.pc[t]]);
      var rest := AcquireSucceeds(s', t);
      run := [a] + rest;
      Prefixed(s, a, rest);
      assert s'.pc[t := Owner] == s.pc[t := Owner];
    }
  }

  /** Steps from there to sleeping while somebody else constructs. */
  function StepsToSleep(word: int, p: Pc): nat {
    match p
    case Outside => 4
    case Loading => 3
    case Waiting => if word == 0x200 then 1 else 4
    case Testing(seen) =>
      if seen == 0 then 3
      else if seen == 0x100 then if word == 0x200 then 3 else 2
      else if word == 0x200 then 2 else 5
    case _ => 0
  }

  /** A thread that finds a constructor running goes to sleep within five steps of its own, and by then the
      word says that somebody waits. */
  lemma {:induction false} WaiterSleeps(s: State, t: nat) returns (run: seq<Action>)
    requires Inv(s) && Busy(s.word) && t < |s.pc| && Awake(s.pc[t])
    ensures 1 <= |run| <= StepsToSleep(s.word, s.pc[t]) <= 5 && Own(run, t) && IsRun(s, run)
    ensures forall k :: 0 <= k < |run| ==> Labels(s, run)[k].Tau?
    ensures After(s, run) == State(0x200, s.pc[t := Sleeping])
    decreases StepsToSleep(s.word, s.pc[t])
  {
    var a := Action(t, Forward(s.pc[t]));
    var s' := Next(s, a);
    StepRefines(s, a);
    if s.pc[t] == Waiting && s.word == 0x200 {
      run := [a];
      OneStep(s, a);
    } else {
      assert s'.pc == s.pc[t := s'.pc[t]];
      var rest := WaiterSleeps(s', t);
      run := [a] + rest;
      Prefixed(s, a, rest);
      assert s'.pc[t := Sleeping] == s.pc[t := Sleeping];
    }
  }

  /** An owner can always finish: release completes the guard and abort makes it idle again, and either way
      a wake-up is owed exactly if the word said that somebody waits. */
  lemma {:induction false} OwnerFinishes(s: State, t: nat)
    requires Owns(s, t)
    ensures Enabled(s, Action(t, Release)) && Enabled(s, Action(t, Abort))
    ensures Next(s, Action(t, Release)) == State(1, s.pc[t := if s.word == 0x200 then OwesWake else Outside])
    ensures Next(s, Action(t, Abort)) == State(0, s.pc[t := if s.word == 0x200 then OwesWake else Outside])
  {
  }

  /** A thread that owes a wake-up can always give it; it is then done, and every sleeper is awake. */
  lemma {:induction false} WakeUpsAreGiven(s: State, t: nat)
    requires t < |s.pc| && s.pc[t] == OwesWake
    ensures Enabled(s, Action(t, WakeAll))
    ensures var s' := Next(s, Action(t, WakeAll));
      && s'.word == s.word && |s'.pc| == |s.pc| && s'.pc[t] == Outside
      && forall u :: 0 <= u < |s.pc| && u != t ==> s'.pc[u] == if s.pc[u] == Sleeping then Loading else s.pc[u]
  {
  }

  /** What chance can do: a compare-exchange may fail although the word is the expected one, and a thread may
      leave the futex without a wake-up. */
  lemma {:induction false} ChanceMayFail(s: State, t: nat)
    requires t < |s.pc|
    ensures s.pc[t] == Testing(0) ==>
      Enabled(s, Action(t, Claim(false))) && Next(s, Action(t, Claim(false))) == s.(pc := s.pc[t := Testing(s.word)])
    ensures s.pc[t] == Testing(0x100) ==>
      && Enabled(s, Action(t, Announce(false)))
      && Next(s, Action(t, Announce(false))) == s.(pc := s.pc[t := Testing(s.word)])
    ensures s.pc[t] == Waiting ==>
      Enabled(s, Action(t, FutexWait(false))) && Next(s, Action(t, FutexWait(false))) == s.(pc := s.pc[t := Loading])
    ensures s.pc[t] == Sleeping ==>
      Enabled(s, Action(t, WakeUp)) && Next(s, Action(t, WakeUp)) == s.(pc := s.pc[t := Loading])
  {
  }

  lemma {:induction false} Joined(s: State, a: seq<Action>, b: seq<Action>)
    requires IsRun(s, a) && IsRun(After(s, a), b)
    ensures IsRun(s, a + b) && After(s, a + b) == After(After(s, a), b)
    decreases |a|
  {
    if a == [] {
      assert a + b == b;
    } else {
      Joined(Next(s, a[0]), a[1..], b);
      assert (a + b)[1..] == a[1..] + b;
    }
  }

  /** From every reachable state some run leads to Done. */
  lemma {:induction false} DoneIsReachable(s: State) returns (run: seq<Action>)
    requires Inv(s) && |s.pc| > 0
    ensures |run| <= 6 && IsRun(s, run) && After(s, run).word == 1
  {
    if s.word == 1 {
      run := [];
    } else if Busy(s.word) {
      var t :| Owns(s, t);
      OwnerFinishes(s, t);
      run := [Action(t, Release)];
      OneStep(s, Action(t, Release));
    } else if t :| 0 <= t < |s.pc| && Awake(s.pc[t]) {
      run := ReleaseFromIdle(s, t);
    } else {
      assert s.pc[0] != Owner by {
        if Owns(s, 0) { assert false; }
      }
      var t :| 0 <= t < |s.pc| && s.pc[t] == OwesWake;
      var a := Action(t, WakeAll);
      WakeUpsAreGiven(s, t);
      StepRefines(s, a);
      var rest := ReleaseFromIdle(Next(s, a), t);
      run := [a] + rest;
      Prefixed(s, a, rest);
    }
  }

  lemma {:induction false} ReleaseFromIdle(s: State, t: nat) returns (run: seq<Action>)
    requires Inv(s) && s.word == 0 && t < |s.pc| && Awake(s.pc[t])
    ensures |run| <= 5 && IsRun(s, run) && After(s, run).word == 1
  {
    var first := AcquireSucceeds(s, t);
    var s' := After(s, first);
    OwnerFinishes(s', t);
    OneStep(s', Action(t, Release));
    run := first + [Action(t, Release)];
    Joined(s, first, [Action(t, Release)]);
  }
}
