// The life of one delivery in any run: which steps it takes, in which order, and what each of them found.
module Deliveries {
  import opened Wrappers
  import opened Commands
  import opened Database
  import opened Processors
  import opened Protocol
  import opened ProtocolInvariant
  import opened Guarantees

  // ----- What a guard read finds -----

  predicate FindsResolved(s: System, id: CommandId) {
    id in s.db.commands && (Terminal(s.db.commands[id].status) || s.db.commands[id].status.Delivered?)
  }

  predicate FindsAmbiguous(s: System, id: CommandId) {
    id in s.db.commands && !FindsResolved(s, id) && s.db.commands[id].startedAt.Some?
  }

  function CommandOf(s: System, d: nat): CommandId
    requires d < |s.deliveries|
  {
    s.deliveries[d].claim.command
  }

  function WorkerOf(s: System, d: nat): WorkerId
    requires d < |s.deliveries|
  {
    s.deliveries[d].claim.worker
  }

  /** The step by which a delivery gets to a phase, and what the step must have found for that. */
  predicate Reaches(s: System, step: Step, d: nat, phase: Phase)
    requires d < |s.deliveries|
  {
    match phase
    case Waiting => false
    case Guarding => step == TakeLock(d) && !Draining(s, WorkerOf(s, d))
    case Ambiguous => step == ReadGuard(d, true) && FindsAmbiguous(s, CommandOf(s, d))
    case Ready =>
      || step == ReadGuard(d, false)
      || (step == ReadGuard(d, true) && !FindsResolved(s, CommandOf(s, d)) && !FindsAmbiguous(s, CommandOf(s, d)))
    case Started => step.WriteStarted? && step.d == d && WriteAccepted(s, d)
    case Calling => step == TestDraining(d) && !Draining(s, WorkerOf(s, d))
    case Called => step == CallAdapter(d)
    case Done => Moves(s, step, d) && Ends(s, step, d)
  }

  /** When a step of a delivery is its last one. */
  predicate Ends(s: System, step: Step, d: nat)
    requires d < |s.deliveries|
  {
    || ((step == TakeLock(d) || step == TestDraining(d)) && Draining(s, WorkerOf(s, d)))
    || (step == ReadGuard(d, true) && FindsResolved(s, CommandOf(s, d)))
    || (step.WriteStarted? && !WriteAccepted(s, d))
    || step.WriteAmbiguous? || step.DeferSwitch? || step.SteerFallback? || step.Finish?
  }

  predicate Looks(step: Step) {
    step.TakeLock? || step.ReadGuard? || step.TestDraining? || step.CallAdapter? || step.Finish?
  }

  lemma LookLandsExactlyWhen(s: System, step: Step, d: nat, phase: Phase)
    requires Enabled(s, step) && d < |s.deliveries| && Moves(s, step, d) && Looks(step)
    ensures d < |Apply(s, step).deliveries|
    ensures Apply(s, step).deliveries[d].phase == phase <==> Reaches(s, step, d, phase)
  {
  }

  lemma WriteLandsExactlyWhen(s: System, step: Step, d: nat, phase: Phase)
    requires Enabled(s, step) && d < |s.deliveries| && Moves(s, step, d) && !Looks(step)
    ensures d < |Apply(s, step).deliveries|
    ensures Apply(s, step).deliveries[d].phase == phase <==> Reaches(s, step, d, phase)
  {
  }

  /** A step of a delivery takes it to exactly the phase that its step and its findings say. */
  lemma MoveLandsExactlyWhen(s: System, step: Step, d: nat, phase: Phase)
    requires Enabled(s, step) && d < |s.deliveries| && Moves(s, step, d)
    ensures d < |Apply(s, step).deliveries|
    ensures Apply(s, step).deliveries[d].phase == phase <==> Reaches(s, step, d, phase)
  {
    if Looks(step) {
      LookLandsExactlyWhen(s, step, d, phase);
    } else {
      WriteLandsExactlyWhen(s, step, d, phase);
    }
  }

  /** Waiting for the lock, reading the row and testing for draining change nothing but the delivery's phase. */
  lemma LookingChangesNothing(s: System, step: Step)
    requires Enabled(s, step) && (step.TakeLock? || step.ReadGuard? || step.TestDraining? || step.Finish?)
    ensures Apply(s, step) == s.(deliveries := Apply(s, step).deliveries)
  {
  }

  /** The write that records an ambiguous delivery decides the row, if its fence is accepted. */
  lemma AmbiguousWriteDecides(s: System, d: nat, copy: Command)
    requires Enabled(s, WriteAmbiguous(d, copy))
    ensures var (id, t) := (CommandOf(s, d), Apply(s, WriteAmbiguous(d, copy)));
            if WriteAccepted(s, d) then
              && id in t.db.commands && t.db.commands[id].status.OutcomeUnknown?
              && t.db == s.db.(commands := s.db.commands[id := t.db.commands[id]])
            else t.db == s.db && t.log == s.log
  {
  }

  /** An accepted started write marks the row, or leaves it resolved. */
  lemma StartedWriteCloses(s: System, d: nat, copy: Command)
    requires Enabled(s, WriteStarted(d, copy))
    ensures var (id, t) := (CommandOf(s, d), Apply(s, WriteStarted(d, copy)));
            if WriteAccepted(s, d) then
              && id in t.db.commands && Closed(t.db.commands[id])
              && (!Terminal(s.db.commands[id].status) ==> t.db.commands[id].startedAt == copy.startedAt)
              && (Terminal(s.db.commands[id].status) ==> t.db == s.db)
            else t.db == s.db && t.log == s.log
  {
  }

  // ----- Moments of a run -----

  /** The state after the first `k` steps. */
  function StateAt(s: System, steps: seq<Step>, k: nat): System
    requires ValidRun(s, steps) && k <= |steps|
    decreases k
  {
    if k == 0 then s else StateAt(Apply(s, steps[0]), steps[1..], k - 1)
  }

  lemma {:induction false} StepAt(s: System, steps: seq<Step>, k: nat)
    requires ValidRun(s, steps) && k < |steps|
    ensures Enabled(StateAt(s, steps, k), steps[k])
    ensures StateAt(s, steps, k + 1) == Apply(StateAt(s, steps, k), steps[k])
    decreases k
  {
    if k > 0 {
      StepAt(Apply(s, steps[0]), steps[1..], k - 1);
    } else {
      assert StateAt(Apply(s, steps[0]), steps[1..], 0) == Apply(s, steps[0]);
    }
  }

  ghost predicate MovesAt(s: System, steps: seq<Step>, k: nat, d: nat)
    requires ValidRun(s, steps) && k < |steps|
  {
    d < |StateAt(s, steps, k).deliveries| && Moves(StateAt(s, steps, k), steps[k], d)
  }

  /** The `k`-th step takes the delivery to the phase, and no step from there to the `n`-th one is its own. */
  ghost predicate LastMove(s: System, steps: seq<Step>, n: nat, d: nat, phase: Phase, k: nat)
    requires ValidRun(s, steps) && n <= |steps|
  {
    && k < n && MovesAt(s, steps, k, d) && Reaches(StateAt(s, steps, k), steps[k], d, phase)
    && forall j | k < j < n :: !MovesAt(s, steps, j, d)
  }

  lemma NewDeliveriesWait(s: System, step: Step, d: nat)
    requires Enabled(s, step) && |s.deliveries| <= d < |Apply(s, step).deliveries|
    ensures Apply(s, step).deliveries[d].phase.Waiting?
  {
  }

  /** A delivery past its wait stands where its own last step took it. */
  lemma {:induction false} PhaseIsEarned(s: System, steps: seq<Step>, n: nat, d: nat)
    requires Initial(s) && ValidRun(s, steps) && n <= |steps|
    requires d < |StateAt(s, steps, n).deliveries| && !StateAt(s, steps, n).deliveries[d].phase.Waiting?
    ensures exists k :: LastMove(s, steps, n, d, StateAt(s, steps, n).deliveries[d].phase, k)
    decreases n
  {
    var phase := StateAt(s, steps, n).deliveries[d].phase;
    if n > 0 {
      var before := StateAt(s, steps, n - 1);
      StepAt(s, steps, n - 1);
      if d >= |before.deliveries| {
        NewDeliveriesWait(before, steps[n - 1], d);
      } else if Moves(before, steps[n - 1], d) {
        MoveLandsExactlyWhen(before, steps[n - 1], d, phase);
        assert LastMove(s, steps, n, d, phase, n - 1);
      } else {
        OthersStandStill(before, steps[n - 1], d);
        PhaseIsEarned(s, steps, n - 1, d);
        var k :| LastMove(s, steps, n - 1, d, phase, k);
        assert LastMove(s, steps, n, d, phase, k);
      }
    }
  }

  /** A delivery that still waits has taken no step. */
  lemma {:induction false} WaitingHasNotMoved(s: System, steps: seq<Step>, n: nat, d: nat)
    requires ValidRun(s, steps) && n <= |steps|
    requires d < |StateAt(s, steps, n).deliveries| ==> StateAt(s, steps, n).deliveries[d].phase.Waiting?
    ensures forall j: nat | j < n :: !MovesAt(s, steps, j, d)
    decreases n
  {
    if n > 0 {
      var before := StateAt(s, steps, n - 1);
      StepAt(s, steps, n - 1);
      if d < |before.deliveries| {
        if Moves(before, steps[n - 1], d) {
          MoveLandsExactlyWhen(before, steps[n - 1], d, Waiting);
        } else {
          OthersStandStill(before, steps[n - 1], d);
        }
      }
      WaitingHasNotMoved(s, steps, n - 1, d);
    }
  }

  /** A delivery that is over, or that only has an ambiguous outcome to record, takes no other step. */
  lemma {:induction false} OnlyRecordsFromHere(s: System, steps: seq<Step>, k: nat, n: nat, d: nat)
    requires ValidRun(s, steps) && k <= n <= |steps| && d < |StateAt(s, steps, k).deliveries|
    requires StateAt(s, steps, k).deliveries[d].phase.Done? || StateAt(s, steps, k).deliveries[d].phase.Ambiguous?
    ensures d < |StateAt(s, steps, n).deliveries|
    ensures StateAt(s, steps, n).deliveries[d].claim == StateAt(s, steps, k).deliveries[d].claim
    ensures var (from, to) := (StateAt(s, steps, k).deliveries[d].phase, StateAt(s, steps, n).deliveries[d].phase);
            to.Done? || (from.Ambiguous? && to.Ambiguous?)
    ensures forall j: nat | k <= j < n && MovesAt(s, steps, j, d) ::
              steps[j] == Finish(d) || (steps[j].WriteAmbiguous? && StateAt(s, steps, k).deliveries[d].phase.Ambiguous?)
    decreases n
  {
    if k < n {
      OnlyRecordsFromHere(s, steps, k, n - 1, d);
      var before, step := StateAt(s, steps, n - 1), steps[n - 1];
      StepAt(s, steps, n - 1);
      ClaimsStay(before, step, d);
      if Moves(before, step, d) {
        MoveLandsExactlyWhen(before, step, d, Done);
      } else {
        OthersStandStill(before, step, d);
      }
    }
  }

  // ----- What holds of every run -----

  /**
   * A guard that reads a resolved or delivered row ends its delivery: nothing but its end follows, no
   * write and no call, however the run goes on.
   */
  lemma ResolvedRowEndsDelivery(s: System, steps: seq<Step>, k: nat, d: nat)
    requires ValidRun(s, steps) && k < |steps| && steps[k] == ReadGuard(d, true)
    requires MovesAt(s, steps, k, d) && FindsResolved(StateAt(s, steps, k), CommandOf(StateAt(s, steps, k), d))
    ensures StateAt(s, steps, k + 1).deliveries == StateAt(s, steps, k).deliveries[d := StateAt(s, steps, k).deliveries[d].(phase := Done)]
    ensures forall j: nat | k < j < |steps| && MovesAt(s, steps, j, d) :: steps[j] == Finish(d)
  {
    StepAt(s, steps, k);
    OnlyRecordsFromHere(s, steps, k + 1, |steps|, d);
  }

  /**
   * A guard that reads a marked row which is neither resolved nor delivered never leads to a call: the
   * delivery ends, or writes once that the outcome is unknown. If that write is accepted, the row says so.
   */
  lemma AmbiguousRowIsOnlyRecorded(s: System, steps: seq<Step>, k: nat, d: nat)
    requires ValidRun(s, steps) && k < |steps| && steps[k] == ReadGuard(d, true)
    requires MovesAt(s, steps, k, d) && FindsAmbiguous(StateAt(s, steps, k), CommandOf(StateAt(s, steps, k), d))
    ensures forall j: nat | k < j < |steps| && MovesAt(s, steps, j, d) :: steps[j] == Finish(d) || steps[j].WriteAmbiguous?
    ensures forall i: nat, j: nat | k < i < j < |steps| && MovesAt(s, steps, i, d) && MovesAt(s, steps, j, d) :: steps[j] == Finish(d)
    ensures forall j: nat | k < j < |steps| && MovesAt(s, steps, j, d) && steps[j].WriteAmbiguous? && WriteAccepted(StateAt(s, steps, j), d) ::
              var (id, t) := (CommandOf(StateAt(s, steps, k), d), StateAt(s, steps, j + 1));
              id in t.db.commands && t.db.commands[id].status.OutcomeUnknown?
  {
    StepAt(s, steps, k);
    OnlyRecordsFromHere(s, steps, k + 1, |steps|, d);
    forall j: nat | k < j < |steps| && MovesAt(s, steps, j, d)
      ensures forall i: nat | j < i < |steps| && MovesAt(s, steps, i, d) :: steps[i] == Finish(d)
      ensures steps[j].WriteAmbiguous? && WriteAccepted(StateAt(s, steps, j), d) ==>
                var (id, t) := (CommandOf(StateAt(s, steps, k), d), StateAt(s, steps, j + 1));
                id in t.db.commands && t.db.commands[id].status.OutcomeUnknown?
    {
      OnlyRecordsFromHere(s, steps, k + 1, j, d);
      RecordingEnds(s, steps, j, d);
    }
  }

  lemma RecordingEnds(s: System, steps: seq<Step>, j: nat, d: nat)
    requires ValidRun(s, steps) && j < |steps| && MovesAt(s, steps, j, d) && (steps[j].WriteAmbiguous? || steps[j].Finish?)
    ensures forall i: nat | j < i < |steps| && MovesAt(s, steps, i, d) :: steps[i] == Finish(d)
    ensures steps[j].WriteAmbiguous? && WriteAccepted(StateAt(s, steps, j), d) ==>
              var (id, t) := (CommandOf(StateAt(s, steps, j), d), StateAt(s, steps, j + 1));
              id in t.db.commands && t.db.commands[id].status.OutcomeUnknown?
  {
    StepAt(s, steps, j);
    MoveLandsExactlyWhen(StateAt(s, steps, j), steps[j], d, Done);
    OnlyRecordsFromHere(s, steps, j + 1, |steps|, d);
    if steps[j].WriteAmbiguous? {
      AmbiguousWriteDecides(StateAt(s, steps, j), d, steps[j].copy);
    }
  }

  /** An unknown outcome is recorded only by a delivery whose last step was a guard that read such a row. */
  lemma AmbiguousWriteFollowsItsGuard(s: System, steps: seq<Step>, k: nat, d: nat)
    requires Initial(s) && ValidRun(s, steps) && k < |steps| && MovesAt(s, steps, k, d) && steps[k].WriteAmbiguous?
    ensures exists j: nat :: LastMove(s, steps, k, d, Ambiguous, j)
                             && steps[j] == ReadGuard(d, true) && FindsAmbiguous(StateAt(s, steps, j), CommandOf(StateAt(s, steps, j), d))
  {
    StepAt(s, steps, k);
    PhaseIsEarned(s, steps, k, d);
  }

  /**
   * A deferral comes from a delivery whose step before was a guard that found its row absent or open, a
   * steer fallback from one whose step before was its own call.
   */
  lemma ReleaseFollowsGuardOrCall(s: System, steps: seq<Step>, k: nat, d: nat)
    requires Initial(s) && ValidRun(s, steps) && k < |steps| && MovesAt(s, steps, k, d)
    ensures steps[k].DeferSwitch? ==> exists j: nat :: LastMove(s, steps, k, d, Ready, j) && steps[j].ReadGuard?
    ensures steps[k].SteerFallback? ==> exists j: nat :: LastMove(s, steps, k, d, Called, j) && steps[j] == CallAdapter(d)
  {
    StepAt(s, steps, k);
    if steps[k].DeferSwitch? || steps[k].SteerFallback? {
      PhaseIsEarned(s, steps, k, d);
    }
  }

  /** The five steps of a delivery that calls the adapter, with nothing of its own between them. */
  ghost predicate CalledInOrder(s: System, steps: seq<Step>, d: nat, lock: nat, guard: nat, started: nat, passed: nat, call: nat)
    requires ValidRun(s, steps) && call < |steps|
  {
    && LastMove(s, steps, call, d, Calling, passed)
    && LastMove(s, steps, passed, d, Started, started)
    && LastMove(s, steps, started, d, Ready, guard)
    && LastMove(s, steps, guard, d, Guarding, lock)
    && forall j: nat | j < lock :: !MovesAt(s, steps, j, d)
  }

  /**
   * Every adapter call, in every run, comes from a delivery that has done exactly this before: taken
   * the lock while its worker was not draining, read the row and found it absent or open, written the
   * started mark under an accepted fence, and found its worker still not draining.
   */
  lemma CallHasItsHistory(s: System, steps: seq<Step>, call: nat, d: nat)
    requires Initial(s) && ValidRun(s, steps) && call < |steps| && steps[call] == CallAdapter(d)
    ensures exists lock: nat, guard: nat, started: nat, passed: nat ::
              CalledInOrder(s, steps, d, lock, guard, started, passed, call)
  {
    StepAt(s, steps, call);
    PhaseIsEarned(s, steps, call, d);
    var passed: nat :| LastMove(s, steps, call, d, Calling, passed);
    CameFrom(s, steps, call, d, Calling, passed);
    var started: nat :| LastMove(s, steps, passed, d, Started, started);
    CameFrom(s, steps, passed, d, Started, started);
    var guard: nat :| LastMove(s, steps, started, d, Ready, guard);
    CameFrom(s, steps, started, d, Ready, guard);
    var lock: nat :| LastMove(s, steps, guard, d, Guarding, lock);
    StepAt(s, steps, lock);
    WaitingHasNotMoved(s, steps, lock, d);
    assert CalledInOrder(s, steps, d, lock, guard, started, passed, call);
  }

  /** The phase before, on the way to a call. */
  function Before(phase: Phase): Phase {
    match phase
    case Calling => Started
    case Started => Ready
    case _ => Guarding
  }

  lemma ReachedFrom(s: System, step: Step, d: nat, phase: Phase)
    requires Enabled(s, step) && d < |s.deliveries| && Moves(s, step, d) && Reaches(s, step, d, phase)
    requires phase.Calling? || phase.Started? || phase.Ready?
    ensures s.deliveries[d].phase == Before(phase)
  {
  }

  lemma CameFrom(s: System, steps: seq<Step>, n: nat, d: nat, phase: Phase, k: nat)
    requires Initial(s) && ValidRun(s, steps) && n <= |steps| && LastMove(s, steps, n, d, phase, k)
    requires phase.Calling? || phase.Started? || phase.Ready?
    ensures exists j: nat :: LastMove(s, steps, k, d, Before(phase), j)
  {
    StepAt(s, steps, k);
    ReachedFrom(StateAt(s, steps, k), steps[k], d, phase);
    PhaseIsEarned(s, steps, k, d);
  }

  lemma FirstStep(s: System, step: Step, rest: seq<Step>)
    requires Enabled(s, step) && ValidRun(Apply(s, step), rest)
    ensures ValidRun(s, [step] + rest) && RunOf(s, [step] + rest) == RunOf(Apply(s, step), rest)
  {
    assert ([step] + rest)[1..] == rest;
  }

  /** What a delivery past its guard needs to call: its worker not draining, its fence accepted, and its row there. */
  predicate MayCall(s: System, d: nat) {
    && d < |s.deliveries| && !Draining(s, WorkerOf(s, d)) && WriteAccepted(s, d) && CommandOf(s, d) in s.db.commands
  }

  predicate CalledLast(s: System, steps: seq<Step>, id: CommandId)
    requires ValidRun(s, steps)
  {
    var log := RunOf(s, steps).log;
    |log| != 0 && IsCall(log[|log| - 1], id)
  }

  /** The lock, where it is free. */
  lemma PassesTheLock(s: System, d: nat)
    requires MayCall(s, d) && s.deliveries[d].phase.Waiting? && LockFree(s, WorkerOf(s, d), s.deliveries[d].claim.conversation)
    ensures Enabled(s, TakeLock(d)) && Apply(s, TakeLock(d)) == AtPhase(s, d, Guarding) && MayCall(AtPhase(s, d, Guarding), d)
  {
  }

  /** The guard, of an open row. */
  lemma PassesTheGuard(s: System, d: nat)
    requires MayCall(s, d) && s.deliveries[d].phase.Guarding? && !Closed(s.db.commands[CommandOf(s, d)])
    ensures Enabled(s, ReadGuard(d, true)) && Apply(s, ReadGuard(d, true)) == AtPhase(s, d, Ready) && MayCall(AtPhase(s, d, Ready), d)
  {
  }

  /** The draining test, of a worker that does not drain, and the call. */
  lemma PassesTheTest(s: System, d: nat)
    requires d < |s.deliveries| && s.deliveries[d].phase.Started? && !Draining(s, WorkerOf(s, d))
    ensures Enabled(s, TestDraining(d)) && Apply(s, TestDraining(d)) == AtPhase(s, d, Calling)
    ensures var t := AtPhase(s, d, Calling);
            Enabled(t, CallAdapter(d)) && Apply(t, CallAdapter(d)).log == s.log + [AdapterCall(CommandOf(s, d), d)]
  {
  }

  lemma TestedCanCall(s: System, d: nat)
    requires d < |s.deliveries| && s.deliveries[d].phase.Started? && !Draining(s, WorkerOf(s, d))
    ensures var steps := [TestDraining(d), CallAdapter(d)];
            ValidRun(s, steps) && CalledLast(s, steps, CommandOf(s, d))
  {
    PassesTheTest(s, d);
    ValidStep(AtPhase(s, d, Calling), CallAdapter(d));
    FirstStep(s, TestDraining(d), [CallAdapter(d)]);
    assert [TestDraining(d)] + [CallAdapter(d)] == [TestDraining(d), CallAdapter(d)];
  }

  lemma StartedCanCall(s: System, d: nat, copy: Command)
    requires MayCall(s, d) && Enabled(s, WriteStarted(d, copy))
    ensures var steps := [WriteStarted(d, copy), TestDraining(d), CallAdapter(d)];
            ValidRun(s, steps) && CalledLast(s, steps, CommandOf(s, d))
  {
    var a := Apply(s, WriteStarted(d, copy));
    WriteLandsExactlyWhen(s, WriteStarted(d, copy), d, Started);
    ClaimsStay(s, WriteStarted(d, copy), d);
    assert !Draining(a, WorkerOf(a, d));
    TestedCanCall(a, d);
    FirstStep(s, WriteStarted(d, copy), [TestDraining(d), CallAdapter(d)]);
    assert [WriteStarted(d, copy)] + [TestDraining(d), CallAdapter(d)] == [WriteStarted(d, copy), TestDraining(d), CallAdapter(d)];
  }

  /**
   * And that history is open to every delivery: one that waits for a free lock, with an open row, an
   * accepted fence and a worker that does not drain, gets to its call if nobody interferes.
   */
  lemma UndisturbedDeliveryCalls(s: System, d: nat, copy: Command)
    requires MayCall(s, d) && s.deliveries[d].phase.Waiting? && !Closed(s.db.commands[CommandOf(s, d)])
    requires LockFree(s, WorkerOf(s, d), s.deliveries[d].claim.conversation)
    requires IsCopyOf(s, d, copy) && copy.status.DeliveryStarted? && copy.startedAt.Some?
    ensures var steps := [TakeLock(d), ReadGuard(d, true), WriteStarted(d, copy), TestDraining(d), CallAdapter(d)];
            ValidRun(s, steps) && CalledLast(s, steps, CommandOf(s, d))
  {
    PassesTheLock(s, d);
    GuardedDeliveryCalls(AtPhase(s, d, Guarding), d, copy);
    var rest := [ReadGuard(d, true), WriteStarted(d, copy), TestDraining(d), CallAdapter(d)];
    FirstStep(s, TakeLock(d), rest);
    assert [TakeLock(d)] + rest == [TakeLock(d), ReadGuard(d, true), WriteStarted(d, copy), TestDraining(d), CallAdapter(d)];
  }

  lemma GuardedDeliveryCalls(s: System, d: nat, copy: Command)
    requires MayCall(s, d) && s.deliveries[d].phase.Guarding? && !Closed(s.db.commands[CommandOf(s, d)])
    requires IsCopyOf(s, d, copy) && copy.status.DeliveryStarted? && copy.startedAt.Some?
    ensures var steps := [ReadGuard(d, true), WriteStarted(d, copy), TestDraining(d), CallAdapter(d)];
            ValidRun(s, steps) && CalledLast(s, steps, CommandOf(s, d))
  {
    PassesTheGuard(s, d);
    StartedCanCall(AtPhase(s, d, Ready), d, copy);
    var rest := [WriteStarted(d, copy), TestDraining(d), CallAdapter(d)];
    FirstStep(s, ReadGuard(d, true), rest);
    assert [ReadGuard(d, true)] + rest == [ReadGuard(d, true), WriteStarted(d, copy), TestDraining(d), CallAdapter(d)];
  }

  // ----- What a release is -----

  predicate LogsRelease(s: System, t: System, id: CommandId) {
    |t.log| == |s.log| + 1 && IsRelease(t.log[|s.log|], id)
  }

  /** A closed row opens exactly if a release of it is logged, which always leaves it open. */
  predicate ReopensWithRelease(s: System, t: System, id: CommandId) {
    && id in s.db.commands && id in t.db.commands
    && (Closed(s.db.commands[id]) ==> (!Closed(t.db.commands[id]) <==> LogsRelease(s, t, id)))
    && (LogsRelease(s, t, id) ==> !Closed(t.db.commands[id]))
  }

  lemma LookReopensNothing(s: System, step: Step, id: CommandId)
    requires Enabled(s, step) && DeliveryEnabled(s, step) && Looks(step) && id in s.db.commands
    ensures ReopensWithRelease(s, Apply(s, step), id)
  {
  }

  lemma WriteReopensNothing(s: System, d: nat, copy: Command, next: Phase, id: CommandId)
    requires d < |s.deliveries| && copy.id in s.db.commands && id in s.db.commands
    requires copy.status.OutcomeUnknown? || (copy.status.DeliveryStarted? && copy.startedAt.Some?)
    ensures ReopensWithRelease(s, ApplyDeliveryWrite(s, d, copy, next), id)
  {
  }

  lemma ReleaseWriteReopens(s: System, row: CommandId, copy: Command, use: FenceUse, e: Event, id: CommandId)
    requires row in s.db.commands && id in s.db.commands && IsReleaseCopy(copy) && IsRelease(e, row)
    ensures ReopensWithRelease(s, ReleaseWrite(s, row, copy, use, e), id)
  {
  }

  lemma DeliveryReleaseReopens(s: System, d: nat, copy: Command, id: CommandId)
    requires d < |s.deliveries| && copy.id in s.db.commands && id in s.db.commands && IsReleaseCopy(copy)
    ensures ReopensWithRelease(s, ApplyDeliveryRelease(s, d, copy), id)
  {
    var claim := s.deliveries[d].claim;
    var use := FenceOf(s, claim.worker, claim.conversation);
    ReleaseWriteReopens(AtPhase(s, d, Done), copy.id, copy, use, Released(copy.id, copy.conversation, use), id);
  }

  lemma WakeReopens(s: System, wake: PendingWake, id: CommandId)
    requires Waking(s, wake) && id in s.db.commands
    ensures ReopensWithRelease(s, ApplyCommitWake(s, wake), id)
  {
    var use := FenceOf(s, wake.worker, wake.copy.conversation);
    ReleaseWriteReopens(s.(wakes := s.wakes - {wake}), wake.id, wake.copy, use, Released(wake.id, wake.copy.conversation, use), id);
  }

  lemma CommitReleaseReopens(s: System, r: PendingRelease, id: CommandId)
    requires Pending(s, r) && id in s.db.commands
    ensures ReopensWithRelease(s, ApplyCommitRelease(s, r), id)
  {
    ReleaseWriteReopens(s.(releases := s.releases - {r}), r.id, r.copy, Fenced(r.worker, r.fence),
                        ShutdownReleased(r.id, |s.deliveries|, r.copy.conversation, r.fence), id);
  }

  predicate WritesRelease(step: Step) {
    step.DeferSwitch? || step.SteerFallback? || step.CommitWake? || step.CommitRelease?
  }

  lemma ReleaseStepReopens(s: System, step: Step, id: CommandId)
    requires ShapeOk(s) && Enabled(s, step) && WritesRelease(step) && id in s.db.commands
    ensures ReopensWithRelease(s, Apply(s, step), id)
  {
    if step.CommitWake? {
      assert Waking(s, step.wake);
      WakeReopens(s, step.wake, id);
    } else if step.CommitRelease? {
      assert Pending(s, step.release);
      CommitReleaseReopens(s, step.release, id);
    } else {
      DeliveryReleaseReopens(s, step.d, step.copy, id);
    }
  }

  lemma OtherStepReopensNothing(s: System, step: Step, id: CommandId)
    requires Enabled(s, step) && !DeliveryEnabled(s, step) && !WritesRelease(step) && id in s.db.commands
    ensures ReopensWithRelease(s, Apply(s, step), id)
  {
  }

  /**
   * A closed row is opened again by exactly the steps that log a release of it, and a logged release
   * leaves the row open: so the release between two calls of one command is never one that was dropped.
   */
  lemma ReopensExactlyWhenReleased(s: System, step: Step, id: CommandId)
    requires ShapeOk(s) && Enabled(s, step) && id in s.db.commands
    ensures id in Apply(s, step).db.commands
    ensures Closed(s.db.commands[id]) ==> (!Closed(Apply(s, step).db.commands[id]) <==> LogsRelease(s, Apply(s, step), id))
    ensures LogsRelease(s, Apply(s, step), id) ==> !Closed(Apply(s, step).db.commands[id])
  {
    if WritesRelease(step) {
      ReleaseStepReopens(s, step, id);
    } else if step.WriteAmbiguous? || step.WriteStarted? {
      WriteReopensNothing(s, step.d, step.copy, if step.WriteStarted? then Started else Done, id);
    } else if Looks(step) {
      LookReopensNothing(s, step, id);
    } else {
      OtherStepReopensNothing(s, step, id);
    }
  }

  lemma {:induction false} InvAt(s: System, steps: seq<Step>, k: nat)
    requires Inv(s) && HistoryOk(s) && ValidRun(s, steps) && DisciplinedRun(s, steps) && k <= |steps|
    ensures Inv(StateAt(s, steps, k)) && HistoryOk(StateAt(s, steps, k))
    decreases k
  {
    if k > 0 {
      StepKeepsInv(s, steps[0]);
      StepKeepsHistory(s, steps[0]);
      InvAt(Apply(s, steps[0]), steps[1..], k - 1);
    }
  }

  /** The row of the command is closed before the `k`-th step and open after it. */
  ghost predicate ReopensAt(s: System, steps: seq<Step>, id: CommandId, k: nat)
    requires ValidRun(s, steps) && k < |steps|
  {
    var (before, after) := (StateAt(s, steps, k), StateAt(s, steps, k + 1));
    && id in before.db.commands && Closed(before.db.commands[id])
    && id in after.db.commands && !Closed(after.db.commands[id])
  }

  lemma StaysCalledUnlessReopened(s: System, step: Step, id: CommandId)
    requires Inv(s) && Enabled(s, step) && id in s.outstanding
    ensures id in s.db.commands && Closed(s.db.commands[id]) && id in Apply(s, step).db.commands
    ensures id in Apply(s, step).outstanding || !Closed(Apply(s, step).db.commands[id])
  {
    OutstandingFollowsLog(s, step);
    LogGrowsByOne(s, step);
    ReopensExactlyWhenReleased(s, step, id);
  }

  lemma {:induction false} CalledUntilReopened(s: System, steps: seq<Step>, id: CommandId, i: nat, n: nat)
    requires Inv(s) && HistoryOk(s) && ValidRun(s, steps) && DisciplinedRun(s, steps) && i <= n <= |steps|
    requires id in StateAt(s, steps, i).outstanding
    ensures id in StateAt(s, steps, n).outstanding || exists k: nat :: i <= k < n && ReopensAt(s, steps, id, k)
    decreases n
  {
    if i < n {
      CalledUntilReopened(s, steps, id, i, n - 1);
      if id in StateAt(s, steps, n - 1).outstanding {
        InvAt(s, steps, n - 1);
        StepAt(s, steps, n - 1);
        StaysCalledUnlessReopened(StateAt(s, steps, n - 1), steps[n - 1], id);
        assert id in StateAt(s, steps, n).outstanding || ReopensAt(s, steps, id, n - 1);
      }
    }
  }

  /**
   * Two adapter calls for one command, in every disciplined run: between them there is a moment at
   * which the durable row itself turns from closed to open.
   */
  lemma RowReopensBetweenCalls(s: System, steps: seq<Step>, i: nat, j: nat, d: nat, e: nat)
    requires Initial(s) && ValidRun(s, steps) && DisciplinedRun(s, steps) && i < j < |steps|
    requires steps[i] == CallAdapter(d) && steps[j] == CallAdapter(e)
    requires d < |StateAt(s, steps, i).deliveries| && e < |StateAt(s, steps, j).deliveries|
    requires CommandOf(StateAt(s, steps, i), d) == CommandOf(StateAt(s, steps, j), e)
    ensures exists k: nat :: i < k < j && ReopensAt(s, steps, CommandOf(StateAt(s, steps, i), d), k)
  {
    InitialInv(s);
    StepAt(s, steps, i);
    StepAt(s, steps, j);
    InvAt(s, steps, j);
    CalledUntilReopened(s, steps, CommandOf(StateAt(s, steps, i), d), i + 1, j);
    assert Active(StateAt(s, steps, j), e);
  }
}
