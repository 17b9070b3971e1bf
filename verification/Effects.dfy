// What the single steps of the delivery protocol do: to the fence a write carries, to the deliveries,
// to the rows, and to what a worker has read but not yet written.
module Effects {
  import opened Wrappers
  import opened Commands
  import opened Database
  import opened Processors
  import opened Protocol
  import opened ProtocolInvariant

  // ----- Fences -----

  /** A spawned claim starts a delivery unless one of the same worker and command still runs. */
  predicate Starts(s: System, step: Step) {
    step.Spawn? && step.claim.worker in s.processors && !RunningFor(s, step.claim.worker, step.claim.command)
  }

  /**
   * The fence a worker's writes for a conversation carry changes by exactly three kinds of step: it is
   * the one last remembered or last spawned with, and once forgotten it is refused, never left out.
   */
  lemma FenceChangesExactly(s: System, step: Step, w: WorkerId, c: ConversationId)
    requires ShapeOk(s) && Enabled(s, step) && w in s.processors
    ensures w in Apply(s, step).processors
    ensures FenceOf(Apply(s, step), w, c) ==
            match step
            case RememberFence(v, o, fence) => if v == w && o == c then Fenced(w, fence) else FenceOf(s, w, c)
            case ForgetFence(v, o) => if v == w && o == c && FenceOf(s, w, c).Fenced? then Refused else FenceOf(s, w, c)
            case Spawn(claim) =>
              if Starts(s, step) && claim.worker == w && claim.conversation == c then Fenced(w, claim.fence) else FenceOf(s, w, c)
            case _ => FenceOf(s, w, c)
  {
    if DeliveryEnabled(s, step) {
      DeliveryKeepsWorkers(s, step);
    }
  }

  lemma DeliveryKeepsWorkers(s: System, step: Step)
    requires Enabled(s, step) && DeliveryEnabled(s, step)
    ensures Apply(s, step).processors == s.processors
  {
  }

  /** A worker drains from exactly one kind of step on, and that step changes no fence and no other worker. */
  lemma DrainingStartsExactly(s: System, step: Step, w: WorkerId)
    requires Enabled(s, step)
    ensures Draining(Apply(s, step), w) <==> Draining(s, w) || step == StartDraining(w)
  {
    if DeliveryEnabled(s, step) {
      DeliveryKeepsWorkers(s, step);
    }
  }

  // ----- Deliveries and claims -----

  /** Deliveries begin by exactly the spawns of claims no delivery runs for, and wait for their lock first. */
  lemma DeliveriesBeginExactly(s: System, step: Step)
    requires Enabled(s, step)
    ensures |Apply(s, step).deliveries| == |s.deliveries| + (if Starts(s, step) then 1 else 0)
    ensures Starts(s, step) ==> Apply(s, step).deliveries[|s.deliveries|] == Delivery(step.claim, Waiting)
  {
    if DeliveryEnabled(s, step) {
      DeliveryKeepsClaims(s, step);
    }
  }

  lemma DeliveryKeepsClaims(s: System, step: Step)
    requires Enabled(s, step) && DeliveryEnabled(s, step)
    ensures |Apply(s, step).deliveries| == |s.deliveries| && Apply(s, step).claims == s.claims
    ensures Apply(s, step).releases == s.releases && Apply(s, step).wakes == s.wakes
  {
  }

  /** The conversation's owner as a claim finds it lets the worker in. */
  predicate Obtainable(s: System, w: WorkerId, id: CommandId)
    requires id in s.db.commands
  {
    var c := s.db.commands[id].conversation;
    c in s.db.conversations && !LiveOther(s.db.conversations[c], s.db.now, w)
  }

  /**
   * A claim answer is new exactly after a claim that finds the conversation free or its own, with the
   * attempts and the fence that the rows have then, and is used up by the spawn, started or not.
   */
  lemma ClaimsComeAndGoExactly(s: System, step: Step, claim: Claim)
    requires Enabled(s, step)
    ensures claim in Apply(s, step).claims
       <==> || (claim in s.claims && step != Spawn(claim))
            || (step.ClaimCommand? && Obtainable(s, step.worker, step.id)
                && var db := Apply(s, step).db;
                claim == Claim(step.worker, step.id, db.commands[step.id].conversation, db.commands[step.id].attempts,
                               db.conversations[db.commands[step.id].conversation].fence))
  {
    if DeliveryEnabled(s, step) {
      DeliveryKeepsClaims(s, step);
    }
  }

  // ----- What a worker has read and not yet written -----

  /** The copy that goes back: the row that was read, accepted again and nobody's. */
  predicate IsReleasedCopy(read: Command, copy: Command) {
    && copy.status.Accepted? && copy.worker.None? && copy.leaseExpiresAt.None?
    && copy.(status := read.status, worker := read.worker, leaseExpiresAt := read.leaseExpiresAt) == read
  }

  /** A wake is noted exactly by its read, with the row and the fence of that moment, and gone with its write or its loss. */
  lemma WakesComeAndGoExactly(s: System, step: Step, wake: PendingWake)
    requires Enabled(s, step)
    ensures wake in Apply(s, step).wakes
       <==> || (wake in s.wakes && step != CommitWake(wake) && step != DropWake(wake))
            || (step.ReadWake? && wake.worker == step.worker && wake.id == step.id
                && wake.use == FenceOf(s, step.worker, s.db.commands[step.id].conversation)
                && IsReleasedCopy(s.db.commands[step.id], wake.copy))
  {
    if DeliveryEnabled(s, step) {
      DeliveryKeepsClaims(s, step);
    }
  }

  /** The same for a shutdown release. */
  lemma ReleasesComeAndGoExactly(s: System, step: Step, release: PendingRelease)
    requires Enabled(s, step)
    ensures release in Apply(s, step).releases
       <==> || (release in s.releases && step != CommitRelease(release))
            || (step.ReadRelease? && release.worker == step.worker && release.id == step.id && release.fence == step.fence
                && IsReleasedCopy(s.db.commands[step.id], release.copy))
  {
    if DeliveryEnabled(s, step) {
      DeliveryKeepsClaims(s, step);
    }
  }

  // ----- Rows -----

  /** The release a step writes, if its fence is accepted. */
  function ReleaseOf(s: System, step: Step): Option<(CommandId, Command)>
    requires Enabled(s, step)
  {
    match step
    case CommitWake(wake) => if WakeAccepted(s, wake) then Some((wake.id, wake.copy)) else None
    case CommitRelease(r) =>
      if FenceAccepts(s.db, r.copy.conversation, Some(r.worker), Some(r.fence)) then Some((r.id, r.copy)) else None
    case DeferSwitch(d, copy) => if WriteAccepted(s, d) then Some((copy.id, copy)) else None
    case SteerFallback(d, copy) => if WriteAccepted(s, d) then Some((copy.id, copy)) else None
    case _ => None
  }

  /**
   * A release whose fence is accepted puts the row back as it was copied, unless the row was claimed
   * again since; no other row and no conversation changes, and a refused one changes neither.
   */
  lemma ReleaseWritesItsCopy(s: System, step: Step)
    requires ShapeOk(s) && Enabled(s, step)
    requires step.CommitWake? || step.CommitRelease? || step.DeferSwitch? || step.SteerFallback?
    ensures var (t, write) := (Apply(s, step), ReleaseOf(s, step));
            if write.None? then t.db == s.db && t.log == s.log
            else
              var (id, copy) := write.value;
              && id in s.db.commands
              && t.db == s.db.(commands := s.db.commands[id := if copy.attempts < s.db.commands[id].attempts
                                                              then s.db.commands[id] else copy])
  {
    if step.CommitWake? {
      assert Waking(s, step.wake);
    } else if step.CommitRelease? {
      assert Pending(s, step.release);
    }
  }

  /** A renewed command lease moves that lease and nothing else; a batch commit moves no row. */
  lemma LeaseAndBatchSteps(s: System, step: Step)
    requires Enabled(s, step)
    ensures step.RenewCommandLease? ==>
              && step.id in s.db.commands
              && Apply(s, step).db == s.db.(commands := s.db.commands[step.id := s.db.commands[step.id].(leaseExpiresAt := Some(step.expires))])
    ensures step.CommitBatch? || step.CommitRecovery? ==> Apply(s, step).db == s.db
    ensures step.CommitBatch? ==>
              var use := FenceOf(s, step.worker, step.conversation);
              Apply(s, step).log == if use.Fenced? && FenceAccepts(s.db, step.conversation, Some(use.worker), Some(use.fence))
                                    then s.log + [Committed(step.conversation, use.fence)] else s.log
    ensures step.CommitRecovery? ==> Apply(s, step).log == s.log + [Committed(step.conversation, step.fence)]
  {
  }

  /** Acceptance, plain writes and overwrites store what they carry, the first one merged; the clock only runs. */
  lemma PlainSteps(s: System, step: Step)
    requires Enabled(s, step)
    ensures step.Accept? ==> step.command.id !in s.db.commands
                             && Apply(s, step).db == s.db.(commands := s.db.commands[step.command.id := step.command])
    ensures step.Write? ==> step.copy.id in s.db.commands && Apply(s, step).db == WriteCommand(s.db, step.copy)
    ensures step.Overwrite? ==> step.copy.id in s.db.commands && Terminal(step.copy.status)
                                && Apply(s, step).db == s.db.(commands := s.db.commands[step.copy.id := step.copy])
    ensures step.Tick? ==> Apply(s, step) == s.(db := s.db.(now := s.db.now + step.elapsed))
  {
  }

  /** Leases move as the transactions say, and what is granted is logged with its fence. */
  lemma LeaseSteps(s: System, step: Step)
    requires Enabled(s, step)
    ensures step.RenewLeases? ==> Apply(s, step) == s.(db := RenewOwned(s.db, step.worker, step.duration))
    ensures step.ReleaseLease? ==>
              var t := Apply(s, step);
              && step.conversation in s.db.conversations && t.db.commands == s.db.commands
              && t.db.conversations == s.db.conversations[step.conversation := ReleaseRow(s.db.conversations[step.conversation])]
              && t.log == s.log + [Committed(step.conversation, step.fence)]
    ensures step.TakeOver? ==>
              var (t, (after, one)) := (Apply(s, step), TakeOverOne(s.db, step.conversation, step.worker, step.duration));
              t.db == after && t.log == if one.Some? then s.log + [Granted(step.conversation, one.value.fence, step.worker)] else s.log
    ensures step.ClaimCommand? ==>
              var (t, (after, one)) := (Apply(s, step), ClaimOne(s.db, step.id, step.worker, step.duration));
              t.db == after
              && t.log == if one.Some? then s.log + [Granted(one.value.command.conversation, one.value.fence, step.worker)] else s.log
  {
  }

  /** A wake that was read can always be written or lost, and a shutdown release written. */
  lemma WakeIsNeverStuck(s: System, wake: PendingWake)
    requires wake in s.wakes && Waking(s, wake)
    ensures Enabled(s, CommitWake(wake)) && Enabled(s, DropWake(wake))
  {
  }

  lemma ReleaseIsNeverStuck(s: System, release: PendingRelease)
    requires release in s.releases && Pending(s, release)
    ensures Enabled(s, CommitRelease(release))
  {
  }

  /** A fenced transaction can be taken exactly if its owner check passes. */
  lemma FencedStepsExactly(s: System, w: WorkerId, c: ConversationId, fence: nat)
    ensures Enabled(s, CommitRecovery(w, c, fence)) <==> FenceAccepts(s.db, c, Some(w), Some(fence))
    ensures Enabled(s, ReleaseLease(w, c, fence)) <==> FenceAccepts(s.db, c, Some(w), Some(fence))
  {
  }
}
