// What holds of every run of the delivery protocol: at most one adapter call per release, fencing,
// and a shutdown release that is final for the deliveries it leaves behind.
module Guarantees {
  import opened Wrappers
  import opened Commands
  import opened Database
  import opened Processors
  import opened Protocol
  import opened ProtocolInvariant

  // ----- Runs -----

  ghost predicate DisciplinedRun(s: System, steps: seq<Step>)
    requires ValidRun(s, steps)
    decreases |steps|
  {
    steps == [] || (Disciplined(s, steps[0]) && DisciplinedRun(Apply(s, steps[0]), steps[1..]))
  }

  lemma {:induction false} RunAppend(s: System, a: seq<Step>, b: seq<Step>)
    requires ValidRun(s, a) && ValidRun(RunOf(s, a), b)
    ensures ValidRun(s, a + b) && RunOf(s, a + b) == RunOf(RunOf(s, a), b)
    decreases |a|
  {
    if a == [] {
      assert a + b == b;
    } else {
      RunAppend(Apply(s, a[0]), a[1..], b);
      assert (a + b)[1..] == a[1..] + b;
    }
  }

  function ClaimSteps(w: WorkerId, rows: seq<CommandId>, duration: int): (steps: seq<Step>)
    ensures |steps| == |rows|
  {
    if rows == [] then [] else ClaimSteps(w, rows[..|rows| - 1], duration) + [ClaimCommand(w, rows[|rows| - 1], duration)]
  }

  function ClaimOf(w: WorkerId, c: ClaimedCommand): Claim {
    Claim(w, c.command.id, c.command.conversation, c.command.attempts, c.fence)
  }

  function ClaimsOf(w: WorkerId, claimed: seq<ClaimedCommand>): set<Claim> {
    if claimed == [] then {} else ClaimsOf(w, claimed[..|claimed| - 1]) + {ClaimOf(w, claimed[|claimed| - 1])}
  }

  /** What a claim transaction leaves alone. */
  predicate SameWorkers(s: System, t: System) {
    t.processors == s.processors && t.deliveries == s.deliveries && t.releases == s.releases && t.wakes == s.wakes
  }

  lemma ClaimRowIsAStep(s: System, w: WorkerId, id: CommandId, duration: int)
    requires Enabled(s, ClaimCommand(w, id, duration)) && s.db.commands[id].id == id
    ensures var (t, r) := (Apply(s, ClaimCommand(w, id, duration)), ClaimOne(s.db, id, w, duration));
            && t.db == r.0 && SameWorkers(s, t)
            && t.claims == if r.1.Some? then s.claims + {ClaimOf(w, r.1.value)} else s.claims
    ensures forall c <- s.db.commands | c != id :: ClaimOne(s.db, id, w, duration).0.commands[c] == s.db.commands[c]
  {
  }

  lemma {:induction false} ClaimLeavesOthers(db: Db, w: WorkerId, rows: seq<CommandId>, duration: int, id: CommandId)
    requires forall r <- rows :: r in db.commands
    requires id in db.commands && id !in rows
    ensures ClaimRows(db, rows, w, duration).0.commands[id] == db.commands[id]
  {
    if rows != [] {
      ClaimLeavesOthers(db, w, rows[..|rows| - 1], duration, id);
    }
  }

  /**
   * One claim transaction over many rows is a run of single-row claims with nothing in between, so
   * what holds of every interleaving of single claims holds of the batched ones.
   */
  lemma {:induction false} ClaimBatchIsARun(s: System, w: WorkerId, rows: seq<CommandId>, limit: nat, duration: int)
    requires w in s.processors && ClaimQuery(s.db, rows, limit)
    requires forall id <- rows :: s.db.commands[id].id == id
    ensures ValidRun(s, ClaimSteps(w, rows, duration))
    ensures var (t, r) := (RunOf(s, ClaimSteps(w, rows, duration)), ClaimRows(s.db, rows, w, duration));
            t.db == r.0 && t.claims == s.claims + ClaimsOf(w, r.1) && SameWorkers(s, t)
  {
    if rows != [] {
      var front, last := rows[..|rows| - 1], rows[|rows| - 1];
      assert forall id <- front :: id in rows;
      ClaimBatchIsARun(s, w, front, limit, duration);
      assert last !in front && last in rows;
      ClaimLeavesOthers(s.db, w, front, duration, last);
      var mid, step := RunOf(s, ClaimSteps(w, front, duration)), ClaimCommand(w, last, duration);
      ClaimRowIsAStep(mid, w, last, duration);
      ValidStep(mid, step);
      RunAppend(s, ClaimSteps(w, front, duration), [step]);
      ClaimedGrow(s.db, w, rows, duration);
    }
  }

  lemma ValidStep(s: System, step: Step)
    requires Enabled(s, step)
    ensures ValidRun(s, [step]) && RunOf(s, [step]) == Apply(s, step)
  {
    assert [step][1..] == [];
    assert ValidRun(Apply(s, step), []);
  }

  lemma ClaimedGrow(db: Db, w: WorkerId, rows: seq<CommandId>, duration: int)
    requires rows != [] && forall r <- rows :: r in db.commands
    ensures var (before, claimed) := ClaimRows(db, rows[..|rows| - 1], w, duration);
            var (after, one) := ClaimOne(before, rows[|rows| - 1], w, duration);
            && ClaimRows(db, rows, w, duration).0 == after
            && ClaimsOf(w, ClaimRows(db, rows, w, duration).1) ==
               ClaimsOf(w, claimed) + if one.Some? then {ClaimOf(w, one.value)} else {}
  {
    var (before, claimed) := ClaimRows(db, rows[..|rows| - 1], w, duration);
    var (_, one) := ClaimOne(before, rows[|rows| - 1], w, duration);
    if one.Some? {
      assert (claimed + [one.value])[..|claimed|] == claimed;
    }
  }

  /** What a worker hands to persistence with the fence it holds; with a refused fence it calls nothing. */
  function UpdateUnder(use: FenceUse, copy: Command): UpdateCall {
    if use.Fenced? then UpdateCall(copy, Some(use.worker), Some(use.fence)) else UpdateCall(copy, None, None)
  }

  /** A delivery's write in the protocol is `update_command` under the worker's present fence, which decides how it goes on. */
  lemma DeliveryWriteIsUpdate(s: System, d: nat, copy: Command, next: Phase)
    requires d < |s.deliveries| && IsCopyOf(s, d, copy) && copy.id in s.db.commands && !next.Done?
    ensures var use := FenceOf(s, s.deliveries[d].claim.worker, s.deliveries[d].claim.conversation);
            var call := UpdateUnder(use, copy);
            var (after, r) := UpdateCommandSpec(s.db, copy, call.worker, call.fence);
            var t := ApplyDeliveryWrite(s, d, copy, next);
            if use.Refused? then t == AtPhase(s, d, Done)
            else t.db == after && (r.Ok? <==> t.deliveries[d].phase == next) && (r.Err? <==> t.deliveries[d].phase.Done?)
  {
  }

  // ----- The history -----

  predicate IsCall(e: Event, command: CommandId) {
    e.AdapterCall? && e.command == command
  }

  /** An adapter call for the command with no release after it. */
  predicate CalledSince(log: seq<Event>, command: CommandId) {
    log != [] &&
    var (last, before) := (log[|log| - 1], log[..|log| - 1]);
    IsCall(last, command) || (!IsRelease(last, command) && CalledSince(before, command))
  }

  /** Between any two adapter calls for one command there is a release of it. */
  ghost predicate AtMostOncePerRelease(log: seq<Event>) {
    forall i, j, c | 0 <= i < j < |log| && IsCall(log[i], c) && IsCall(log[j], c) ::
      exists k :: i < k < j && IsRelease(log[k], c)
  }

  lemma {:induction false} CallWithoutReleaseIsSeen(log: seq<Event>, i: nat, command: CommandId)
    requires i < |log| && IsCall(log[i], command)
    requires forall k | i < k < |log| :: !IsRelease(log[k], command)
    ensures CalledSince(log, command)
    decreases |log|
  {
    if i < |log| - 1 {
      CallWithoutReleaseIsSeen(log[..|log| - 1], i, command);
    }
  }

  lemma AppendKeepsAtMostOnce(log: seq<Event>, e: Event)
    requires AtMostOncePerRelease(log)
    requires forall c | IsCall(e, c) :: !CalledSince(log, c)
    ensures AtMostOncePerRelease(log + [e])
  {
    var longer := log + [e];
    forall i, j, c | 0 <= i < j < |longer| && IsCall(longer[i], c) && IsCall(longer[j], c)
      ensures exists k :: i < k < j && IsRelease(longer[k], c)
    {
      if j < |log| {
        var k :| i < k < j && IsRelease(log[k], c);
        assert IsRelease(longer[k], c);
      } else if forall k | i < k < |log| :: !IsRelease(log[k], c) {
        CallWithoutReleaseIsSeen(log, i, c);
        assert false;
      } else {
        var k :| i < k < |log| && IsRelease(log[k], c);
        assert IsRelease(longer[k], c);
      }
    }
  }

  /** The history fields say what the log says. */
  ghost predicate HistoryOk(s: System) {
    && (forall c :: c in s.outstanding <==> CalledSince(s.log, c))
    && AtMostOncePerRelease(s.log)
  }

  lemma LoggedKeepsHistory(s: System, e: Event)
    requires HistoryOk(s)
    requires forall c | IsCall(e, c) :: c !in s.outstanding
    ensures HistoryOk(Logged(s, e))
  {
    assert (s.log + [e])[..|s.log|] == s.log;
    AppendKeepsAtMostOnce(s.log, e);
  }

  /** What a step does to the commands called since their last release is what its event says. */
  ghost predicate FollowsLog(s: System, t: System) {
    t.outstanding == if t.log == s.log || |t.log| == 0 then s.outstanding else Logged(s, t.log[|t.log| - 1]).outstanding
  }

  lemma DeliveryStepFollowsLog(s: System, step: Step)
    requires Enabled(s, step) && DeliveryEnabled(s, step)
    ensures FollowsLog(s, Apply(s, step))
  {
  }

  lemma OutstandingFollowsLog(s: System, step: Step)
    requires Enabled(s, step)
    ensures FollowsLog(s, Apply(s, step))
  {
    if DeliveryEnabled(s, step) {
      DeliveryStepFollowsLog(s, step);
    }
  }

  lemma DeliveryCallsOnly(s: System, step: Step, c: CommandId)
    requires Enabled(s, step) && DeliveryEnabled(s, step) && Apply(s, step).log != s.log && |Apply(s, step).log| > 0
    requires IsCall(Apply(s, step).log[|Apply(s, step).log| - 1], c)
    ensures step.CallAdapter? && c == s.deliveries[step.d].claim.command
  {
  }

  lemma OnlyCallsLogCalls(s: System, step: Step, c: CommandId)
    requires Enabled(s, step) && Apply(s, step).log != s.log && |Apply(s, step).log| > 0
    requires IsCall(Apply(s, step).log[|Apply(s, step).log| - 1], c)
    ensures step.CallAdapter? && c == s.deliveries[step.d].claim.command
  {
    if DeliveryEnabled(s, step) {
      DeliveryCallsOnly(s, step, c);
    }
  }

  /** Each step logs at most one event, and the call it logs is the first since the last release. */
  lemma StepKeepsHistory(s: System, step: Step)
    requires Inv(s) && HistoryOk(s) && Enabled(s, step) && Disciplined(s, step)
    ensures HistoryOk(Apply(s, step))
  {
    var t := Apply(s, step);
    OutstandingFollowsLog(s, step);
    LogGrowsByOne(s, step);
    if t.log != s.log {
      var e := t.log[|s.log|];
      forall c | IsCall(e, c) ensures c !in s.outstanding {
        OnlyCallsLogCalls(s, step, c);
        CallKeepsInv(s, step.d);
      }
      LoggedKeepsHistory(s, e);
    }
  }

  lemma {:induction false} RunKeepsInv(s: System, steps: seq<Step>)
    requires Inv(s) && HistoryOk(s) && ValidRun(s, steps) && DisciplinedRun(s, steps)
    ensures Inv(RunOf(s, steps)) && HistoryOk(RunOf(s, steps))
    decreases |steps|
  {
    if steps != [] {
      StepKeepsInv(s, steps[0]);
      StepKeepsHistory(s, steps[0]);
      RunKeepsInv(Apply(s, steps[0]), steps[1..]);
    }
  }

  /**
   * In every run whose deliveries find their command in the aggregate and write under the fence of
   * their own claim, no command reaches the adapter twice without a release in between.
   */
  lemma AtMostOneCallPerRelease(s: System, steps: seq<Step>)
    requires Initial(s) && ValidRun(s, steps) && DisciplinedRun(s, steps)
    ensures AtMostOncePerRelease(RunOf(s, steps).log)
  {
    InitialInv(s);
    RunKeepsInv(s, steps);
  }

  /** Starting a delivery keeps the budget exactly if its command is untouched. */
  lemma StartTakesTheCallExactlyWhen(r: System, d: nat)
    requires BudgetOk(r) && d < |r.deliveries| && r.deliveries[d].phase.Ready? && !Draining(r, r.deliveries[d].claim.worker)
    requires r.deliveries[d].claim.command in r.db.commands && Closed(r.db.commands[r.deliveries[d].claim.command])
    ensures BudgetOk(AtPhase(r, d, Started)) <==> Untouched(r, r.deliveries[d].claim.command)
  {
    var command, t := r.deliveries[d].claim.command, AtPhase(r, d, Started);
    assert Active(t, d);
    if Untouched(r, command) {
      StartedKeepsBudget(r, d);
    } else if command !in r.outstanding {
      var e: nat :| Active(r, e) && r.deliveries[e].claim.command == command;
      assert Active(t, e) && t.deliveries[e].claim.command == t.deliveries[d].claim.command;
    }
  }

  /** The row write of a started delivery changes neither who is about to call nor what was called. */
  lemma StartedRowKeepsBudget(s: System, d: nat, copy: Command, r: System)
    requires ShapeOk(s) && BudgetOk(s) && Enabled(s, WriteStarted(d, copy))
    requires r == WriteRow(s, copy.id, copy).(log := r.log)
    ensures BudgetOk(r) && Closed(r.db.commands[copy.id]) && Draining(r, s.deliveries[d].claim.worker) == Draining(s, s.deliveries[d].claim.worker)
    ensures Untouched(r, copy.id) == Untouched(s, copy.id)
  {
    assert Held(s, s.deliveries[d].claim);
    QuietWrite(s, copy.id, copy);
    QuietKeepsBudget(s, r);
    assert forall e: nat :: Active(r, e) == Active(s, e);
  }

  /** What is enough for the command to be untouched. */
  lemma OwnFenceFindsUntouched(s: System, d: nat, copy: Command)
    requires BudgetOk(s) && Enabled(s, WriteStarted(d, copy)) && WriteAccepted(s, d)
    requires (FencedOk(s) && UsesOwnFence(s, d)) || !Closed(s.db.commands[copy.id])
    ensures Untouched(s, copy.id)
  {
    if Closed(s.db.commands[copy.id]) {
      AcceptedFenceIsCurrent(s, d);
    } else {
      OpenRowIsUntouched(s, copy.id);
    }
  }

  /**
   * Where the discipline is needed: an accepted started write, whatever fence it carries and however
   * its delivery got past the guard, leaves at most one call to come exactly when no call was made
   * or is coming since the last release. An open row is enough for that, and so is the own fence
   * where every guard held.
   */
  lemma StartedWriteIsSafeExactlyWhen(s: System, d: nat, copy: Command)
    requires ShapeOk(s) && BudgetOk(s) && Enabled(s, WriteStarted(d, copy)) && WriteAccepted(s, d)
    requires !Draining(s, s.deliveries[d].claim.worker)
    ensures BudgetOk(Apply(s, WriteStarted(d, copy))) <==> Untouched(s, s.deliveries[d].claim.command)
    ensures (FencedOk(s) && UsesOwnFence(s, d)) || !Closed(s.db.commands[copy.id]) ==> Untouched(s, s.deliveries[d].claim.command)
  {
    var claim := s.deliveries[d].claim;
    var r := Noted(WriteRow(s, copy.id, copy), claim.conversation, FenceOf(s, claim.worker, claim.conversation));
    StartedRowKeepsBudget(s, d, copy, r);
    StartTakesTheCallExactlyWhen(r, d);
    if (FencedOk(s) && UsesOwnFence(s, d)) || !Closed(s.db.commands[copy.id]) {
      OwnFenceFindsUntouched(s, d, copy);
    }
  }

  /**
   * The same for the guard: finding its command absent keeps the invariant exactly when the
   * delivery's fence is no longer the present one, or no call was made or is coming since the last
   * release. An open row is enough for that.
   */
  lemma AbsentGuardIsSafeExactlyWhen(s: System, d: nat)
    requires Inv(s) && Enabled(s, ReadGuard(d, false))
    ensures var claim := s.deliveries[d].claim;
            && (Inv(Apply(s, ReadGuard(d, false))) <==> !Current(s, claim.conversation, claim.fence) || Untouched(s, claim.command))
            && (!Closed(s.db.commands[claim.command]) ==> Untouched(s, claim.command))
  {
    AbsentGuardKeepsInvExactlyWhen(s, d);
    assert Apply(s, ReadGuard(d, false)) == AtPhase(s, d, Ready);
  }

  lemma AbsentGuardKeepsInvExactlyWhen(s: System, d: nat)
    requires Inv(s) && d < |s.deliveries| && s.deliveries[d].phase.Guarding?
    ensures var claim := s.deliveries[d].claim;
            && claim.command in s.db.commands
            && (Inv(AtPhase(s, d, Ready)) <==> !Current(s, claim.conversation, claim.fence) || Untouched(s, claim.command))
            && (!Closed(s.db.commands[claim.command]) ==> Untouched(s, claim.command))
  {
    var claim, t := s.deliveries[d].claim, AtPhase(s, d, Ready);
    assert Held(s, claim);
    PhaseKeepsShape(s, d, Ready);
    assert forall e: nat :: Active(t, e) == Active(s, e);
    assert forall c :: Untouched(t, c) == Untouched(s, c);
    assert forall c, f :: Current(t, c, f) == Current(s, c, f);
    FewerCallsKeepBudget(s, t);
    if !Closed(s.db.commands[claim.command]) {
      OpenRowIsUntouched(s, claim.command);
    }
  }

  /**
   * The same for a wake: an accepted one, whatever fence it carries, leaves at most one call to come
   * exactly when it is dropped as stale or no delivery is about to call its command.
   */
  lemma WakeWriteIsSafeExactlyWhen(s: System, wake: PendingWake)
    requires ShapeOk(s) && BudgetOk(s) && Enabled(s, CommitWake(wake)) && WakeAccepted(s, wake)
    ensures BudgetOk(Apply(s, CommitWake(wake)))
       <==> || wake.copy.attempts < s.db.commands[wake.id].attempts
            || forall d: nat | Active(s, d) :: s.deliveries[d].claim.command != wake.id
    ensures FencedOk(s) && UsesReadFence(s, wake) ==> forall d: nat | Active(s, d) :: s.deliveries[d].claim.command != wake.id
  {
    WakeReopensExactlyWhen(s, wake, ApplyCommitWake(s, wake));
    if FencedOk(s) && UsesReadFence(s, wake) {
      assert Waking(s, wake);
      assert Current(s, wake.copy.conversation, wake.use.fence);
    }
  }

  lemma WakeReopensExactlyWhen(s: System, wake: PendingWake, t: System)
    requires ShapeOk(s) && BudgetOk(s) && wake in s.wakes && wake.id in s.db.commands && t == ApplyCommitWake(s, wake)
    requires WakeAccepted(s, wake)
    ensures BudgetOk(t)
       <==> || wake.copy.attempts < s.db.commands[wake.id].attempts
            || forall d: nat | Active(s, d) :: s.deliveries[d].claim.command != wake.id
  {
    assert Waking(s, wake);
    assert forall d: nat :: Active(t, d) == Active(s, d);
    if wake.copy.attempts < s.db.commands[wake.id].attempts {
      QuietWrite(s, wake.id, wake.copy);
      QuietKeepsBudget(s, t);
    } else {
      assert t.db.commands[wake.id] == wake.copy && !Closed(wake.copy);
    }
  }

  // ----- Fencing: no discipline needed -----

  /** The fence an event carries for a conversation: a grant's own, or the one a successful write passed with. */
  function FenceOn(e: Event, conversation: ConversationId): Option<nat> {
    match e
    case Granted(c, fence, _) => if c == conversation then Some(fence) else None
    case Committed(c, fence) => if c == conversation then Some(fence) else None
    case Released(_, c, use) => if c == conversation && use.Fenced? then Some(use.fence) else None
    case ShutdownReleased(_, _, c, fence) => if c == conversation then Some(fence) else None
    case AdapterCall(_, _) => None
  }

  /** Grants and successful fenced writes of a conversation are logged in fence order. */
  ghost predicate FenceOrdered(log: seq<Event>) {
    forall i, j, c | 0 <= i < j < |log| && FenceOn(log[i], c).Some? && FenceOn(log[j], c).Some? ::
      FenceOn(log[i], c).value <= FenceOn(log[j], c).value
  }

  ghost predicate GrantedOnce(log: seq<Event>) {
    forall i, j | 0 <= i < |log| && 0 <= j < |log| && log[i].Granted? && log[j].Granted?
      && log[i].conversation == log[j].conversation && log[i].fence == log[j].fence :: log[i].worker == log[j].worker
  }

  ghost predicate FencingOk(s: System) {
    && GrantsOk(s)
    && FenceOrdered(s.log)
    && (forall e <- s.log | e.Granted? :: Ownership(e.conversation, e.worker, e.fence) in s.grants)
    && (forall e <- s.log, c | FenceOn(e, c).Some? :: c in s.db.conversations && FenceOn(e, c).value <= s.db.conversations[c].fence)
  }

  ghost predicate FencesRise(a: Db, b: Db) {
    forall c <- a.conversations :: c in b.conversations && a.conversations[c].fence <= b.conversations[c].fence
  }

  lemma LoggedKeepsFencing(s: System, t: System, e: Event)
    requires FencingOk(s) && GrantsOk(t) && FencesRise(s.db, t.db) && t.log == s.log + [e]
    requires t.grants == Logged(s, e).grants
    requires forall c | FenceOn(e, c).Some? :: Current(t, c, FenceOn(e, c).value)
    ensures FencingOk(t)
  {
    forall i, j, c | 0 <= i < j < |t.log| && FenceOn(t.log[i], c).Some? && FenceOn(t.log[j], c).Some?
      ensures FenceOn(t.log[i], c).value <= FenceOn(t.log[j], c).value
    {
      assert t.log[i] == s.log[i] && s.log[i] in s.log;
    }
  }

  lemma ClaimKeepsFencing(s: System, w: WorkerId, id: CommandId, duration: int)
    requires FencingOk(s) && id in s.db.commands
    ensures FencingOk(ApplyClaim(s, w, id, duration)) && FencesRise(s.db, ApplyClaim(s, w, id, duration).db)
  {
    var t := ApplyClaim(s, w, id, duration);
    if t.log != s.log {
      LoggedKeepsFencing(s, t, t.log[|s.log|]);
    }
  }

  lemma TakeOverKeepsFencing(s: System, w: WorkerId, conversation: ConversationId, duration: int)
    requires FencingOk(s) && conversation in s.db.conversations
    ensures FencingOk(ApplyTakeOver(s, w, conversation, duration)) && FencesRise(s.db, ApplyTakeOver(s, w, conversation, duration).db)
  {
    var t := ApplyTakeOver(s, w, conversation, duration);
    if t.log != s.log {
      LoggedKeepsFencing(s, t, t.log[|s.log|]);
    }
  }

  lemma GrantStepKeepsFencing(s: System, step: Step)
    requires FencingOk(s) && Enabled(s, step) && (step.ClaimCommand? || step.TakeOver?)
    ensures FencingOk(Apply(s, step)) && FencesRise(s.db, Apply(s, step).db)
  {
    if step.ClaimCommand? {
      ClaimKeepsFencing(s, step.worker, step.id, step.duration);
    } else {
      TakeOverKeepsFencing(s, step.worker, step.conversation, step.duration);
    }
  }

  lemma DeliveryLogsPresentFence(s: System, step: Step, e: Event)
    requires Enabled(s, step) && DeliveryEnabled(s, step) && Apply(s, step).log == s.log + [e]
    ensures !e.Granted? && forall c | FenceOn(e, c).Some? :: Current(Apply(s, step), c, FenceOn(e, c).value)
  {
    assert (s.log + [e])[|s.log|] == e;
  }

  /** A step that grants nothing logs only what passed an owner check at the present fence. */
  lemma WriteLogsPresentFence(s: System, step: Step, e: Event)
    requires Enabled(s, step) && !step.ClaimCommand? && !step.TakeOver? && Apply(s, step).log == s.log + [e]
    ensures !e.Granted? && forall c | FenceOn(e, c).Some? :: Current(Apply(s, step), c, FenceOn(e, c).value)
  {
    assert (s.log + [e])[|s.log|] == e;
    if DeliveryEnabled(s, step) {
      DeliveryLogsPresentFence(s, step, e);
    }
  }

  lemma StepKeepsFencing(s: System, step: Step)
    requires FencingOk(s) && Enabled(s, step)
    ensures FencingOk(Apply(s, step)) && FencesRise(s.db, Apply(s, step).db)
  {
    if step.ClaimCommand? || step.TakeOver? {
      GrantStepKeepsFencing(s, step);
    } else {
      var t := Apply(s, step);
      FencesNeverFall(s, step);
      OwnersKept(s, step);
      LogGrowsByOne(s, step);
      if t.log != s.log {
        var e := t.log[|s.log|];
        WriteLogsPresentFence(s, step, e);
        LoggedKeepsFencing(s, t, e);
      }
    }
  }

  /** The conversations after a step that grants nothing: leases move, an owner may leave, fences stay. */
  ghost predicate OwnersStay(a: Db, b: Db) {
    && b.conversations.Keys == a.conversations.Keys
    && forall c <- a.conversations ::
         && b.conversations[c].fence == a.conversations[c].fence
         && (b.conversations[c].owner == a.conversations[c].owner || b.conversations[c].owner.None?)
  }

  lemma DeliveryStepKeepsOwners(s: System, step: Step)
    requires Enabled(s, step) && DeliveryEnabled(s, step)
    ensures Apply(s, step).grants == s.grants && Apply(s, step).db.conversations == s.db.conversations
  {
  }

  lemma WakeStepKeepsOwners(s: System, step: Step)
    requires Enabled(s, step) && (step.ReadWake? || step.CommitWake? || step.DropWake? || step.ReadRelease? || step.CommitRelease?)
    ensures Apply(s, step).grants == s.grants && Apply(s, step).db.conversations == s.db.conversations
  {
  }

  lemma LeaseStepKeepsOwners(s: System, step: Step)
    requires Enabled(s, step) && (step.RenewLeases? || step.ReleaseLease?)
    ensures Apply(s, step).grants == s.grants && OwnersStay(s.db, Apply(s, step).db)
  {
  }

  lemma StepKeepsOwners(s: System, step: Step)
    requires Enabled(s, step) && !step.ClaimCommand? && !step.TakeOver?
    ensures Apply(s, step).grants == s.grants && OwnersStay(s.db, Apply(s, step).db)
  {
    if DeliveryEnabled(s, step) {
      DeliveryStepKeepsOwners(s, step);
    } else if step.ReadWake? || step.CommitWake? || step.DropWake? || step.ReadRelease? || step.CommitRelease? {
      WakeStepKeepsOwners(s, step);
    } else if step.RenewLeases? || step.ReleaseLease? {
      LeaseStepKeepsOwners(s, step);
    }
  }

  lemma OwnersKept(s: System, step: Step)
    requires GrantsOk(s) && Enabled(s, step) && !step.ClaimCommand? && !step.TakeOver?
    ensures Apply(s, step).grants == s.grants && GrantsOk(Apply(s, step))
  {
    StepKeepsOwners(s, step);
    OwnersStayKeepsGrants(s, Apply(s, step));
  }

  lemma OwnersStayKeepsGrants(s: System, t: System)
    requires GrantsOk(s) && OwnersStay(s.db, t.db) && t.grants == s.grants
    ensures GrantsOk(t)
  {
  }

  lemma {:induction false} RunKeepsFencing(s: System, steps: seq<Step>)
    requires FencingOk(s) && ValidRun(s, steps)
    ensures FencingOk(RunOf(s, steps)) && FencesRise(s.db, RunOf(s, steps).db)
    decreases |steps|
  {
    if steps != [] {
      StepKeepsFencing(s, steps[0]);
      RunKeepsFencing(Apply(s, steps[0]), steps[1..]);
    }
  }

  /**
   * In every run at all: fences never fall, no (conversation, fence) pair goes to two workers, and
   * grants and successful fenced writes of every kind happen in fence order, so none succeeds below a
   * granted fence.
   */
  lemma FencingHolds(s: System, steps: seq<Step>)
    requires Initial(s) && ValidRun(s, steps)
    ensures FencesRise(s.db, RunOf(s, steps).db)
    ensures GrantedOnce(RunOf(s, steps).log)
    ensures FenceOrdered(RunOf(s, steps).log)
  {
    RunKeepsFencing(s, steps);
    var t := RunOf(s, steps);
    forall i, j | 0 <= i < |t.log| && 0 <= j < |t.log| && t.log[i].Granted? && t.log[j].Granted?
        && t.log[i].conversation == t.log[j].conversation && t.log[i].fence == t.log[j].fence
      ensures t.log[i].worker == t.log[j].worker
    {
      assert t.log[i] in t.log && t.log[j] in t.log;
    }
  }

  // ----- Shutdown -----

  /** The delivery will never call the adapter from here on. */
  predicate Doomed(s: System, d: nat)
    requires d < |s.deliveries|
  {
    var claim := s.deliveries[d].claim;
    match s.deliveries[d].phase
    case Done => true
    case Called => true
    case Calling => false
    case Started => Draining(s, claim.worker)
    case _ =>
      Draining(s, claim.worker)
      || (claim.conversation in s.db.conversations && claim.fence < s.db.conversations[claim.conversation].fence)
  }

  /**
   * A shutdown release finds no call since the last release, and every later call of that command
   * comes from a delivery that was not yet running.
   */
  ghost predicate ShutdownIsFinal(log: seq<Event>) {
    forall i | 0 <= i < |log| && log[i].ShutdownReleased? ::
      && !CalledSince(log[..i], log[i].command)
      && forall j | i < j < |log| && IsCall(log[j], log[i].command) :: log[j].delivery >= log[i].horizon
  }

  ghost predicate ShutdownOk(s: System) {
    && ShutdownIsFinal(s.log)
    && forall e <- s.log, d: nat | e.ShutdownReleased? && d < e.horizon ::
         Barred(s, d, e.command)
  }

  /** The delivery exists, and will not call the adapter for this command. */
  predicate Barred(s: System, d: nat, command: CommandId) {
    d < |s.deliveries| && (s.deliveries[d].claim.command == command ==> Doomed(s, d))
  }

  lemma FencesNeverFall(s: System, step: Step)
    requires Enabled(s, step)
    ensures FencesRise(s.db, Apply(s, step).db)
  {
    if !step.ClaimCommand? && !step.TakeOver? {
      StepKeepsOwners(s, step);
    }
  }

  lemma DrainingIsForever(s: System, step: Step)
    requires Enabled(s, step)
    ensures forall w | Draining(s, w) :: Draining(Apply(s, step), w)
  {
  }

  predicate Moves(s: System, step: Step, d: nat) {
    DeliveryEnabled(s, step) && match step
    case TakeLock(e) => e == d
    case ReadGuard(e, _) => e == d
    case WriteAmbiguous(e, _) => e == d
    case WriteStarted(e, _) => e == d
    case TestDraining(e) => e == d
    case CallAdapter(e) => e == d
    case Finish(e) => e == d
    case DeferSwitch(e, _) => e == d
    case SteerFallback(e, _) => e == d
    case _ => false
  }

  lemma OthersStandStill(s: System, step: Step, d: nat)
    requires Enabled(s, step) && d < |s.deliveries| && !Moves(s, step, d)
    ensures d < |Apply(s, step).deliveries| && Apply(s, step).deliveries[d] == s.deliveries[d]
  {
  }

  lemma DoomedMoveStaysDoomed(s: System, step: Step, d: nat)
    requires Inv(s) && Enabled(s, step) && Disciplined(s, step) && d < |s.deliveries| && Doomed(s, d) && Moves(s, step, d)
    ensures |Apply(s, step).deliveries| == |s.deliveries|
    ensures Apply(s, step).deliveries[d].claim == s.deliveries[d].claim
    ensures Doomed(Apply(s, step), d)
  {
    if step.WriteStarted? && WriteAccepted(s, d) {
      AcceptedFenceIsCurrent(s, d);
    }
  }

  lemma DoomedStaysDoomed(s: System, step: Step, d: nat)
    requires Inv(s) && Enabled(s, step) && Disciplined(s, step) && d < |s.deliveries| && Doomed(s, d)
    ensures d < |Apply(s, step).deliveries| && Apply(s, step).deliveries[d].claim == s.deliveries[d].claim
    ensures Doomed(Apply(s, step), d)
  {
    if Moves(s, step, d) {
      DoomedMoveStaysDoomed(s, step, d);
    } else {
      OthersStandStill(s, step, d);
      FencesNeverFall(s, step);
      DrainingIsForever(s, step);
    }
  }

  lemma ClaimsStay(s: System, step: Step, d: nat)
    requires Enabled(s, step) && d < |s.deliveries|
    ensures d < |Apply(s, step).deliveries| && Apply(s, step).deliveries[d].claim == s.deliveries[d].claim
  {
    if !Moves(s, step, d) {
      OthersStandStill(s, step, d);
    }
  }

  /** The single event a step logs, if it logs one. */
  lemma StepLogsOne(s: System, step: Step, e: Event)
    requires Enabled(s, step) && Apply(s, step).log == s.log + [e]
    ensures e.ShutdownReleased? ==> step.CommitRelease? && e.horizon == |s.deliveries| && e.command == step.release.id
                                    && FenceAccepts(s.db, step.release.copy.conversation, Some(step.release.worker), Some(step.release.fence))
    ensures e.AdapterCall? ==> step.CallAdapter? && e == AdapterCall(s.deliveries[step.d].claim.command, step.d)
  {
    assert (s.log + [e])[|s.log|] == e;
  }

  lemma ShutdownReleaseDooms(s: System, r: PendingRelease, d: nat)
    requires Inv(s) && r in s.releases && d < |s.deliveries| && s.deliveries[d].claim.command == r.id
    requires FenceAccepts(s.db, r.copy.conversation, Some(r.worker), Some(r.fence))
    ensures Doomed(s, d) && r.id !in s.outstanding
  {
    assert Pending(s, r);
    assert Current(s, r.copy.conversation, r.fence);
    assert Held(s, s.deliveries[d].claim);
    assert Untouched(s, r.id);
  }

  /** A delivery that may still call was not there at any earlier shutdown release of its command. */
  lemma CallComesLater(s: System, e: Event, i: nat)
    requires ShutdownOk(s) && i < |s.log| && s.log[i].ShutdownReleased?
    requires e.AdapterCall? ==> e.delivery < |s.deliveries| && s.deliveries[e.delivery].claim.command == e.command && !Doomed(s, e.delivery)
    ensures IsCall(e, s.log[i].command) ==> e.delivery >= s.log[i].horizon
  {
    assert s.log[i] in s.log;
    assert e.AdapterCall? && e.delivery < s.log[i].horizon ==> Barred(s, e.delivery, s.log[i].command);
  }

  lemma LoggedKeepsShutdown(s: System, t: System, e: Event)
    requires ShutdownOk(s) && HistoryOk(s) && t.log == s.log + [e]
    requires |s.deliveries| <= |t.deliveries|
    requires forall d: nat | d < |s.deliveries| :: t.deliveries[d].claim == s.deliveries[d].claim && (Doomed(s, d) ==> Doomed(t, d))
    requires e.ShutdownReleased? ==>
               e.horizon == |s.deliveries| && e.command !in s.outstanding
               && forall d: nat | d < |s.deliveries| && s.deliveries[d].claim.command == e.command :: Doomed(s, d)
    requires e.AdapterCall? ==> e.delivery < |s.deliveries| && s.deliveries[e.delivery].claim.command == e.command && !Doomed(s, e.delivery)
    ensures ShutdownOk(t)
  {
    forall i | 0 <= i < |t.log| && t.log[i].ShutdownReleased?
      ensures !CalledSince(t.log[..i], t.log[i].command)
      ensures forall j | i < j < |t.log| && IsCall(t.log[j], t.log[i].command) :: t.log[j].delivery >= t.log[i].horizon
    {
      if i < |s.log| {
        assert t.log[..i] == s.log[..i] && t.log[i] == s.log[i] && s.log[i] in s.log;
        CallComesLater(s, e, i);
      } else {
        assert t.log[..i] == s.log;
      }
    }
    HorizonsKept(s, t);
    forall x <- t.log, d: nat | x.ShutdownReleased? && d < x.horizon ensures Barred(t, d, x.command) {
      assert x in s.log || x == e;
    }
  }

  /** Deliveries doomed by an earlier shutdown release are still there, and still doomed. */
  lemma HorizonsKept(s: System, t: System)
    requires ShutdownOk(s) && |s.deliveries| <= |t.deliveries|
    requires forall d: nat | d < |s.deliveries| :: t.deliveries[d].claim == s.deliveries[d].claim && (Doomed(s, d) ==> Doomed(t, d))
    ensures forall x <- s.log, d: nat | x.ShutdownReleased? && d < x.horizon :: Barred(t, d, x.command)
  {
    forall x <- s.log, d: nat | x.ShutdownReleased? && d < x.horizon ensures Barred(t, d, x.command) {
      assert Barred(s, d, x.command);
    }
  }

  lemma DeliveriesKept(s: System, step: Step)
    requires Inv(s) && Enabled(s, step) && Disciplined(s, step)
    ensures |s.deliveries| <= |Apply(s, step).deliveries|
    ensures forall d: nat | d < |s.deliveries| ::
              && Apply(s, step).deliveries[d].claim == s.deliveries[d].claim
              && (Doomed(s, d) ==> Doomed(Apply(s, step), d))
  {
    if |s.deliveries| > 0 {
      ClaimsStay(s, step, |s.deliveries| - 1);
    }
    forall d: nat | d < |s.deliveries|
      ensures Apply(s, step).deliveries[d].claim == s.deliveries[d].claim && (Doomed(s, d) ==> Doomed(Apply(s, step), d))
    {
      ClaimsStay(s, step, d);
      if Doomed(s, d) {
        DoomedStaysDoomed(s, step, d);
      }
    }
  }

  lemma StepKeepsShutdown(s: System, step: Step)
    requires Inv(s) && HistoryOk(s) && ShutdownOk(s) && Enabled(s, step) && Disciplined(s, step)
    ensures ShutdownOk(Apply(s, step))
  {
    var t := Apply(s, step);
    DeliveriesKept(s, step);
    LogGrowsByOne(s, step);
    HorizonsKept(s, t);
    if t.log != s.log {
      var e := t.log[|s.log|];
      StepLogsOne(s, step, e);
      if e.ShutdownReleased? {
        ShutdownStepDooms(s, step.release);
      }
      LoggedKeepsShutdown(s, t, e);
    }
  }

  ghost predicate GrowsByOne(before: seq<Event>, after: seq<Event>) {
    after == before || (|after| == |before| + 1 && after == before + [after[|before|]])
  }

  lemma DeliveryLogGrows(s: System, step: Step)
    requires Enabled(s, step) && DeliveryEnabled(s, step)
    ensures GrowsByOne(s.log, Apply(s, step).log)
  {
  }

  lemma LogGrowsByOne(s: System, step: Step)
    requires Enabled(s, step)
    ensures GrowsByOne(s.log, Apply(s, step).log)
  {
    if DeliveryEnabled(s, step) {
      DeliveryLogGrows(s, step);
    }
  }

  lemma ShutdownStepDooms(s: System, r: PendingRelease)
    requires Inv(s) && r in s.releases
    requires FenceAccepts(s.db, r.copy.conversation, Some(r.worker), Some(r.fence))
    ensures r.id !in s.outstanding
    ensures forall d: nat | d < |s.deliveries| && s.deliveries[d].claim.command == r.id :: Doomed(s, d)
  {
    assert Pending(s, r) && Current(s, r.copy.conversation, r.fence);
    forall d: nat | d < |s.deliveries| && s.deliveries[d].claim.command == r.id ensures Doomed(s, d) {
      ShutdownReleaseDooms(s, r, d);
    }
  }

  lemma {:induction false} RunKeepsShutdown(s: System, steps: seq<Step>)
    requires Inv(s) && HistoryOk(s) && ShutdownOk(s) && ValidRun(s, steps) && DisciplinedRun(s, steps)
    ensures ShutdownOk(RunOf(s, steps))
    decreases |steps|
  {
    if steps != [] {
      StepKeepsInv(s, steps[0]);
      StepKeepsHistory(s, steps[0]);
      StepKeepsShutdown(s, steps[0]);
      RunKeepsShutdown(Apply(s, steps[0]), steps[1..]);
    }
  }

  /** A command a draining worker releases is never one a delivery already called or still will call. */
  lemma ShutdownReleaseIsFinal(s: System, steps: seq<Step>)
    requires Initial(s) && ValidRun(s, steps) && DisciplinedRun(s, steps)
    ensures ShutdownIsFinal(RunOf(s, steps).log)
  {
    InitialInv(s);
    RunKeepsShutdown(s, steps);
  }
}
