// The phases of one worker: its lease, its heartbeat, its recovery, and when it may claim commands.
module Coordinator {
  import opened Commands

  datatype Phase = Starting | Running | LeaseLost

  /** `recovering` says that a takeover recovery task is running beside the heartbeat. */
  datatype Worker = Worker(
    phase: Phase,
    draining: bool,
    leaseHealthy: bool,
    heartbeatHealthy: bool,
    recoveryComplete: bool,
    recovering: bool,
    claimsEnabled: bool,
    fences: map<ConversationId, nat>)

  const NEW_WORKER := Worker(Starting, false, false, false, false, false, false, map[])

  datatype Step =
    | Acquire
    | InitialRecovery(complete: bool)
    | EnableClaims
    | Renewed(lost: set<ConversationId>)
    | LeaseUnavailable
    | HeartbeatFails
    | RecoveryEnds(finished: bool, complete: bool)
    | Remember(conversation: ConversationId, fence: nat)
    | BeginShutdown
    | FinishShutdown(clean: bool)

  /** Recovery ends only if it runs; leases are given back only by a worker that is draining. */
  predicate Enabled(w: Worker, step: Step) {
    && (step.RecoveryEnds? ==> w.recovering)
    && (step.FinishShutdown? ==> w.draining)
  }

  /** One step between two awaits. */
  function Apply(w: Worker, step: Step): Worker
    requires Enabled(w, step)
  {
    match step
    case Acquire =>
      w.(phase := Starting, draining := false, leaseHealthy := true, heartbeatHealthy := true,
         recoveryComplete := false, claimsEnabled := false)
    case InitialRecovery(complete) =>
      w.(phase := if w.phase.Starting? then Running else w.phase, recoveryComplete := w.recoveryComplete || complete)
    case EnableClaims => w.(claimsEnabled := true)
    case Renewed(lost) =>
      w.(leaseHealthy := true, heartbeatHealthy := true, fences := w.fences - lost,
         recovering := w.recovering || (!w.draining && !w.phase.Starting?))
    case LeaseUnavailable =>
      if !w.leaseHealthy then w
      else
        w.(leaseHealthy := false, heartbeatHealthy := false, phase := LeaseLost, recoveryComplete := false,
           claimsEnabled := false, recovering := false, fences := map[])
    case HeartbeatFails => w.(heartbeatHealthy := false)
    case RecoveryEnds(finished, complete) =>
      var ended := w.(recovering := false, recoveryComplete := w.recoveryComplete || complete);
      if !finished || !w.phase.LeaseLost? || w.draining then ended else ended.(phase := Running, claimsEnabled := true)
    case Remember(conversation, fence) => w.(fences := w.fences[conversation := fence])
    case BeginShutdown => w.(draining := true, claimsEnabled := false)
    case FinishShutdown(clean) =>
      w.(heartbeatHealthy := false, recovering := false,
         fences := if clean then map[] else w.fences, leaseHealthy := w.leaseHealthy && !clean)
  }

  /** Claims are open only to a running worker that holds its lease and does not drain. */
  predicate ClaimsNeedLease(w: Worker) {
    w.claimsEnabled ==> w.phase.Running? && w.leaseHealthy && !w.draining
  }

  /** What makes that inductive: only a lost phase or a drain goes without the lease. */
  predicate Inv(w: Worker) {
    && ClaimsNeedLease(w)
    && (w.recovering ==> w.leaseHealthy)
    && (!w.phase.LeaseLost? ==> w.leaseHealthy || w.draining)
  }

  /** What the service does at the end of its start is safe exactly in the running phase, before any drain. */
  lemma EnablingIsSafeExactlyWhen(w: Worker)
    requires Inv(w)
    ensures ClaimsNeedLease(Apply(w, EnableClaims)) <==> w.phase.Running? && !w.draining
  {
  }

  predicate SafeStep(w: Worker, step: Step) {
    step.EnableClaims? ==> w.phase.Running? && !w.draining
  }

  ghost predicate ValidRun(w: Worker, steps: seq<Step>)
    decreases |steps|
  {
    |steps| == 0 || (Enabled(w, steps[0]) && ValidRun(Apply(w, steps[0]), steps[1..]))
  }

  function RunOf(w: Worker, steps: seq<Step>): Worker
    requires ValidRun(w, steps)
    decreases |steps|
  {
    if |steps| == 0 then w else RunOf(Apply(w, steps[0]), steps[1..])
  }

  ghost predicate SafeRun(w: Worker, steps: seq<Step>)
    requires ValidRun(w, steps)
    decreases |steps|
  {
    |steps| == 0 || (SafeStep(w, steps[0]) && SafeRun(Apply(w, steps[0]), steps[1..]))
  }

  lemma {:induction false} RunKeepsInv(w: Worker, steps: seq<Step>)
    requires Inv(w) && ValidRun(w, steps) && SafeRun(w, steps)
    ensures Inv(RunOf(w, steps))
    decreases |steps|
  {
    if |steps| != 0 {
      RunKeepsInv(Apply(w, steps[0]), steps[1..]);
    }
  }

  /** From the first lease on, every run that enables claims by hand only when safe claims only with the lease. */
  lemma NoClaimsWithoutLease(steps: seq<Step>)
    requires ValidRun(Apply(NEW_WORKER, Acquire), steps) && SafeRun(Apply(NEW_WORKER, Acquire), steps)
    ensures ClaimsNeedLease(RunOf(Apply(NEW_WORKER, Acquire), steps))
  {
    RunKeepsInv(Apply(NEW_WORKER, Acquire), steps);
  }

  /**
   * A start whose lease is lost during its initial recovery: the phase stays lost, but the service
   * enables claims all the same.
   */
  lemma StartCanClaimWithoutLease()
    ensures var steps := [Acquire, LeaseUnavailable, InitialRecovery(true), EnableClaims];
            ValidRun(NEW_WORKER, steps) && RunOf(NEW_WORKER, steps).claimsEnabled && !RunOf(NEW_WORKER, steps).leaseHealthy
  {
  }

  // ----- The coordinator in place -----

  class WorkerCoordinator {
    var phase: Phase
    var draining: bool
    var leaseHealthy: bool
    var heartbeatHealthy: bool
    var recoveryComplete: bool
    var recovering: bool
    var claimsEnabled: bool
    var fences: map<ConversationId, nat>

    ghost function State(): Worker
      reads this
    {
      Worker(phase, draining, leaseHealthy, heartbeatHealthy, recoveryComplete, recovering, claimsEnabled, fences)
    }

    constructor ()
      ensures State() == NEW_WORKER
    {
      phase, draining, leaseHealthy, heartbeatHealthy := Starting, false, false, false;
      recoveryComplete, recovering, claimsEnabled, fences := false, false, false, map[];
    }

    method AcquireAndHeartbeat()
      modifies this
      ensures State() == Apply(old(State()), Acquire)
      ensures Inv(State())
    {
      draining, recoveryComplete := false, false;
      leaseHealthy, heartbeatHealthy := true, true;
      phase := Starting;
      claimsEnabled := false;
    }

    /** The end of `run_initial_recovery`. */
    method RunInitialRecovery(complete: bool)
      modifies this
      ensures State() == Apply(old(State()), InitialRecovery(complete))
      ensures old(Inv(State())) ==> Inv(State())
    {
      if complete {
        recoveryComplete := true;
      }
      if phase.Starting? {
        phase := Running;
      }
    }

    /** One round of the heartbeat that renewed both leases, with the conversations it lost. */
    method HeartbeatRenewed(lost: seq<ConversationId>)
      modifies this
      ensures State() == Apply(old(State()), Renewed(set c | c in lost))
      ensures old(Inv(State())) ==> Inv(State())
    {
      leaseHealthy, heartbeatHealthy := true, true;
      ghost var gone: set<ConversationId> := {};
      for i := 0 to |lost|
        invariant State() == old(State()).(leaseHealthy := true, heartbeatHealthy := true, fences := fences)
        invariant fences == old(fences) - gone
        invariant forall c :: c in gone <==> c in lost[..i]
      {
        assert lost[..i + 1] == lost[..i] + [lost[i]];
        fences := fences - {lost[i]};
        gone := gone + {lost[i]};
      }
      assert lost[..|lost|] == lost;
      assert gone == set c | c in lost;
      if !draining && !phase.Starting? {
        recovering := true;
      }
    }

    /** `_on_worker_lease_lost`, entered once per loss: every conversation is dropped. */
    method HeartbeatLeaseUnavailable()
      modifies this
      ensures State() == Apply(old(State()), LeaseUnavailable)
      ensures old(Inv(State())) ==> Inv(State())
    {
      if !leaseHealthy {
        return;
      }
      leaseHealthy, heartbeatHealthy := false, false;
      phase := LeaseLost;
      recoveryComplete, claimsEnabled, recovering := false, false, false;
      while fences != map[]
        invariant State() == Apply(old(State()), LeaseUnavailable).(fences := fences)
        decreases |fences|
      {
        var conversation: ConversationId :| conversation in fences;
        fences := fences - {conversation};
      }
    }

    /** The end of `_recover_expired`. */
    method RecoverExpired(finished: bool, complete: bool)
      requires recovering
      modifies this
      ensures State() == Apply(old(State()), RecoveryEnds(finished, complete))
      ensures old(Inv(State())) ==> Inv(State())
    {
      recovering := false;
      if complete {
        recoveryComplete := true;
      }
      if !finished {
        return;
      }
      if !phase.LeaseLost? || draining {
        return;
      }
      phase := Running;
      claimsEnabled := true;
    }

    method StartShutdown()
      modifies this
      ensures State() == Apply(old(State()), BeginShutdown)
      ensures old(Inv(State())) ==> Inv(State())
    {
      draining := true;
      claimsEnabled := false;
    }

    method FinishTheShutdown(clean: bool)
      requires draining
      modifies this
      ensures State() == Apply(old(State()), FinishShutdown(clean))
      ensures old(Inv(State())) ==> Inv(State())
    {
      recovering, heartbeatHealthy := false, false;
      if clean {
        fences := map[];
        leaseHealthy := false;
      }
    }
  }
}
