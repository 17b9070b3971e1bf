// The delivery protocol: any number of workers, each transaction and each worker-local step on its
// own, in any interleaving. A worker id stands for one run of one process.
module Protocol {
  import opened Wrappers
  import opened Commands
  import opened Database
  import opened Processors

  /** One row of a claim answer: who claimed what, under which fence. */
  datatype Claim = Claim(
    worker: WorkerId,
    command: CommandId,
    conversation: ConversationId,
    attempts: int,
    fence: nat)

  /**
   * Where a delivery stands: waiting for the conversation lock, before the guard read, about to record
   * an ambiguous earlier delivery, past the guard, after the durable started write, past the draining
   * test, after the adapter call. It holds the lock from the second to the last but one.
   */
  datatype Phase = Waiting | Guarding | Ambiguous | Ready | Started | Calling | Called | Done

  datatype Delivery = Delivery(claim: Claim, phase: Phase)

  /** A release that a shutting-down worker decided on but has not committed. */
  datatype PendingRelease = PendingRelease(worker: WorkerId, fence: nat, id: CommandId, copy: Command)

  /** A release of a queued command that the event pump read under the lock, with the fence it had then. */
  datatype PendingWake = PendingWake(worker: WorkerId, use: FenceUse, id: CommandId, copy: Command)

  /** `Committed` is every fenced write that succeeds, except the releases, which carry their own fence. */
  datatype Event =
    | Granted(conversation: ConversationId, fence: nat, worker: WorkerId)
    | Committed(conversation: ConversationId, fence: nat)
    | AdapterCall(command: CommandId, delivery: nat)
    | Released(command: CommandId, conversation: ConversationId, use: FenceUse)
    | ShutdownReleased(command: CommandId, horizon: nat, conversation: ConversationId, fence: nat)

  /** The last three fields are history: all grants, the commands called since their last release, all events. */
  datatype System = System(
    db: Db,
    processors: map<WorkerId, Processor>,
    claims: set<Claim>,
    deliveries: seq<Delivery>,
    releases: set<PendingRelease>,
    wakes: set<PendingWake>,
    grants: set<Ownership>,
    outstanding: set<CommandId>,
    log: seq<Event>)

  datatype Step =
    | Tick(elapsed: nat)
    | Accept(command: Command)
    | ClaimCommand(worker: WorkerId, id: CommandId, duration: int)
    | TakeOver(worker: WorkerId, conversation: ConversationId, duration: int)
    | RenewLeases(worker: WorkerId, duration: int)
    | ReleaseLease(worker: WorkerId, conversation: ConversationId, fence: nat)
    | RenewCommandLease(id: CommandId, worker: WorkerId, under: Option<nat>, expires: Time)
    | Write(copy: Command)
    | Overwrite(copy: Command)
    | CommitBatch(worker: WorkerId, conversation: ConversationId)
    | CommitRecovery(worker: WorkerId, conversation: ConversationId, fence: nat)
    | RememberFence(worker: WorkerId, conversation: ConversationId, fence: nat)
    | ForgetFence(worker: WorkerId, conversation: ConversationId)
    | StartDraining(worker: WorkerId)
    | Spawn(claim: Claim)
    | TakeLock(d: nat)
    | ReadGuard(d: nat, present: bool)
    | WriteAmbiguous(d: nat, copy: Command)
    | WriteStarted(d: nat, copy: Command)
    | TestDraining(d: nat)
    | CallAdapter(d: nat)
    | Finish(d: nat)
    | DeferSwitch(d: nat, copy: Command)
    | SteerFallback(d: nat, copy: Command)
    | ReadWake(worker: WorkerId, id: CommandId)
    | CommitWake(wake: PendingWake)
    | DropWake(wake: PendingWake)
    | ReadRelease(worker: WorkerId, id: CommandId, fence: nat)
    | CommitRelease(release: PendingRelease)

  // ----- Reading the state -----

  /** What the guard of a delivery refuses: a resolved, delivered or already started command. */
  predicate Closed(c: Command) {
    Terminal(c.status) || c.status.Delivered? || c.startedAt.Some?
  }

  predicate Running(s: System, d: nat) {
    d < |s.deliveries| && !s.deliveries[d].phase.Done?
  }

  predicate RunningFor(s: System, worker: WorkerId, command: CommandId) {
    exists d: nat | d < |s.deliveries| ::
      !s.deliveries[d].phase.Done? && s.deliveries[d].claim.worker == worker && s.deliveries[d].claim.command == command
  }

  predicate Locks(s: System, d: nat) {
    d < |s.deliveries| && !s.deliveries[d].phase.Waiting? && !s.deliveries[d].phase.Done?
  }

  /** The lock of one worker process for one conversation: held by a delivery, or by the pump around a wake. */
  predicate LockFree(s: System, worker: WorkerId, conversation: ConversationId) {
    && (forall d: nat | d < |s.deliveries| && Locks(s, d) ::
          s.deliveries[d].claim.worker != worker || s.deliveries[d].claim.conversation != conversation)
    && (forall p <- s.wakes :: p.worker != worker || p.copy.conversation != conversation)
  }

  predicate Draining(s: System, worker: WorkerId) {
    worker in s.processors && s.processors[worker].draining
  }

  /** The fence a worker's write for a conversation carries. */
  function FenceOf(s: System, worker: WorkerId, conversation: ConversationId): FenceUse {
    if worker in s.processors then FenceFor(s.processors[worker], conversation) else Unfenced
  }

  predicate Accepts(s: System, conversation: ConversationId, use: FenceUse) {
    match use
    case Unfenced => true
    case Refused => false
    case Fenced(worker, fence) => FenceAccepts(s.db, conversation, Some(worker), Some(fence))
  }

  // ----- Steps -----

  function AtPhase(s: System, d: nat, phase: Phase): System
    requires d < |s.deliveries|
  {
    s.(deliveries := s.deliveries[d := s.deliveries[d].(phase := phase)])
  }

  predicate IsRelease(e: Event, command: CommandId) {
    (e.Released? || e.ShutdownReleased?) && e.command == command
  }

  function Logged(s: System, e: Event): System {
    s.(log := s.log + [e],
       grants := if e.Granted? then s.grants + {Ownership(e.conversation, e.worker, e.fence)} else s.grants,
       outstanding := match e
                      case AdapterCall(c, _) => s.outstanding + {c}
                      case Released(c, _, _) => s.outstanding - {c}
                      case ShutdownReleased(c, _, _, _) => s.outstanding - {c}
                      case _ => s.outstanding)
  }

  function WriteRow(s: System, id: CommandId, copy: Command): System
    requires id in s.db.commands
  {
    s.(db := s.db.(commands := s.db.commands[id := Merge(s.db.commands[id], copy)]))
  }

  /** A successful write under a fence. */
  function Noted(s: System, conversation: ConversationId, use: FenceUse): System {
    if use.Fenced? then Logged(s, Committed(conversation, use.fence)) else s
  }

  /** A write of an ACCEPTED copy, recorded as a release unless the merge drops it as stale. */
  function ReleaseWrite(s: System, id: CommandId, copy: Command, use: FenceUse, e: Event): System
    requires id in s.db.commands
  {
    if copy.attempts < s.db.commands[id].attempts then Noted(WriteRow(s, id, copy), copy.conversation, use)
    else Logged(WriteRow(s, id, copy), e)
  }

  predicate IsCopyOf(s: System, d: nat, copy: Command)
    requires d < |s.deliveries|
  {
    copy.id == s.deliveries[d].claim.command && copy.conversation == s.deliveries[d].claim.conversation
  }

  predicate IsReleaseCopy(copy: Command) {
    copy.status.Accepted? && copy.startedAt.None?
  }

  predicate DeliveryEnabled(s: System, step: Step) {
    match step
    case TakeLock(d) =>
      && d < |s.deliveries| && s.deliveries[d].phase.Waiting?
      && LockFree(s, s.deliveries[d].claim.worker, s.deliveries[d].claim.conversation)
    case ReadGuard(d, _) => d < |s.deliveries| && s.deliveries[d].phase.Guarding?
    case WriteAmbiguous(d, copy) =>
      && d < |s.deliveries| && s.deliveries[d].phase.Ambiguous?
      && IsCopyOf(s, d, copy) && copy.id in s.db.commands && copy.status.OutcomeUnknown?
    case WriteStarted(d, copy) =>
      && d < |s.deliveries| && s.deliveries[d].phase.Ready?
      && IsCopyOf(s, d, copy) && copy.id in s.db.commands && copy.status.DeliveryStarted? && copy.startedAt.Some?
    case TestDraining(d) => d < |s.deliveries| && s.deliveries[d].phase.Started?
    case CallAdapter(d) => d < |s.deliveries| && s.deliveries[d].phase.Calling?
    case Finish(d) => d < |s.deliveries|
    case DeferSwitch(d, copy) =>
      && d < |s.deliveries| && s.deliveries[d].phase.Ready?
      && IsCopyOf(s, d, copy) && copy.id in s.db.commands && IsReleaseCopy(copy)
      && copy.attempts == s.deliveries[d].claim.attempts
    case SteerFallback(d, copy) =>
      && d < |s.deliveries| && s.deliveries[d].phase.Called?
      && IsCopyOf(s, d, copy) && copy.id in s.db.commands && IsReleaseCopy(copy)
    case _ => false
  }

  /** Whether the transaction or the local step can be taken at all. */
  predicate Allowed(s: System, step: Step) {
    match step
    case Tick(_) => true
    case Accept(c) => c.id !in s.db.commands && c.status.Accepted? && c.startedAt.None?
    case ClaimCommand(w, id, _) => w in s.processors && id in s.db.commands && Claimable(s.db.commands[id], s.db.now)
    case TakeOver(w, conversation, _) =>
      w in s.processors && conversation in s.db.conversations && TakeoverCandidate(s.db, conversation, w)
    case RenewLeases(w, _) => w in s.processors
    case ReleaseLease(w, conversation, fence) => FenceAccepts(s.db, conversation, Some(w), Some(fence))
    case RenewCommandLease(id, w, fence, _) =>
      && (fence.Some? ==> id in s.db.commands && FenceAccepts(s.db, s.db.commands[id].conversation, Some(w), fence))
      && id in s.db.commands && s.db.commands[id].worker == Some(w)
      && (s.db.commands[id].status.Claimed? || s.db.commands[id].status.DeliveryStarted? || s.db.commands[id].status.Delivered?)
    case Write(c) =>
      && c.id in s.db.commands && c.conversation == s.db.commands[c.id].conversation
      && (c.status.Accepted? ==> c.attempts < s.db.commands[c.id].attempts || !Closed(s.db.commands[c.id]))
    case Overwrite(c) =>
      c.id in s.db.commands && c.conversation == s.db.commands[c.id].conversation && Terminal(c.status)
    case CommitBatch(w, conversation) => w in s.processors
    case CommitRecovery(w, conversation, fence) => FenceAccepts(s.db, conversation, Some(w), Some(fence))
    case RememberFence(w, conversation, fence) => w in s.processors && Ownership(conversation, w, fence) in s.grants
    case ForgetFence(w, _) => w in s.processors
    case StartDraining(w) => w in s.processors
    case Spawn(claim) => claim in s.claims
    case ReadWake(w, id) =>
      && w in s.processors && id in s.db.commands && LockFree(s, w, s.db.commands[id].conversation)
      && s.db.commands[id].status.Claimed? && s.db.commands[id].startedAt.None?
    case CommitWake(wake) => wake in s.wakes && wake.id in s.db.commands
    case DropWake(wake) => wake in s.wakes
    case ReadRelease(w, id, fence) =>
      && Draining(s, w) && id in s.db.commands
      && s.db.commands[id].status.Claimed? && s.db.commands[id].startedAt.None? && s.db.commands[id].worker == Some(w)
      && Ownership(s.db.commands[id].conversation, w, fence) in s.grants
    case CommitRelease(release) => release in s.releases && release.id in s.db.commands
    case _ => DeliveryEnabled(s, step)
  }

  function ApplyClaim(s: System, worker: WorkerId, id: CommandId, duration: int): System
    requires id in s.db.commands
  {
    var (after, one) := ClaimOne(s.db, id, worker, duration);
    match one
    case None => s
    case Some(claimed) =>
      var conversation := claimed.command.conversation;
      var claim := Claim(worker, id, conversation, claimed.command.attempts, claimed.fence);
      Logged(s.(db := after, claims := s.claims + {claim}), Granted(conversation, claimed.fence, worker))
  }

  function ApplyTakeOver(s: System, worker: WorkerId, conversation: ConversationId, duration: int): System
    requires conversation in s.db.conversations
  {
    var (after, one) := TakeOverOne(s.db, conversation, worker, duration);
    match one
    case None => s
    case Some(owned) => Logged(s.(db := after), Granted(conversation, owned.fence, worker))
  }

  /** `set_fence` and the new task, or neither when an earlier delivery of the command still runs. */
  function ApplySpawn(s: System, claim: Claim): System {
    var taken := s.(claims := s.claims - {claim});
    if RunningFor(s, claim.worker, claim.command) || claim.worker !in s.processors then taken
    else
      taken.(processors := s.processors[claim.worker := SetFence(s.processors[claim.worker], claim.conversation, claim.fence)],
             deliveries := s.deliveries + [Delivery(claim, Waiting)])
  }

  /** Having waited for the lock, a delivery of a draining worker stops. */
  function ApplyTakeLock(s: System, d: nat): System
    requires d < |s.deliveries|
  {
    AtPhase(s, d, if Draining(s, s.deliveries[d].claim.worker) then Done else Guarding)
  }

  /** The guard: a closed command is not delivered again. */
  function ApplyGuard(s: System, d: nat, present: bool): System
    requires d < |s.deliveries|
  {
    var claim := s.deliveries[d].claim;
    if !present || claim.command !in s.db.commands then AtPhase(s, d, Ready)
    else
      var durable := s.db.commands[claim.command];
      if Terminal(durable.status) || durable.status.Delivered? then AtPhase(s, d, Done)
      else if durable.startedAt.Some? then AtPhase(s, d, Ambiguous)
      else AtPhase(s, d, Ready)
  }

  /** A fenced write by a delivery: it ends the delivery when the fence is refused. */
  function ApplyDeliveryWrite(s: System, d: nat, copy: Command, next: Phase): System
    requires d < |s.deliveries| && copy.id in s.db.commands
  {
    var claim := s.deliveries[d].claim;
    var use := FenceOf(s, claim.worker, claim.conversation);
    if !Accepts(s, claim.conversation, use) then AtPhase(s, d, Done)
    else AtPhase(Noted(WriteRow(s, copy.id, copy), claim.conversation, use), d, next)
  }

  /** A fenced release by a delivery, which ends it either way. */
  function ApplyDeliveryRelease(s: System, d: nat, copy: Command): System
    requires d < |s.deliveries| && copy.id in s.db.commands
  {
    var claim := s.deliveries[d].claim;
    var use := FenceOf(s, claim.worker, claim.conversation);
    if !Accepts(s, claim.conversation, use) then AtPhase(s, d, Done)
    else ReleaseWrite(AtPhase(s, d, Done), copy.id, copy, use, Released(copy.id, copy.conversation, use))
  }

  function ReleasedCopy(c: Command): Command {
    c.(status := Accepted, worker := None, leaseExpiresAt := None)
  }

  /** `_wake_queued_submit` up to its read, which happens under the lock. */
  function ApplyReadWake(s: System, worker: WorkerId, id: CommandId): System
    requires id in s.db.commands
  {
    var stored := s.db.commands[id];
    s.(wakes := s.wakes + {PendingWake(worker, FenceOf(s, worker, stored.conversation), id, ReleasedCopy(stored))})
  }

  /** Its write, which carries the fence installed by then, and the end of the lock. */
  function ApplyCommitWake(s: System, wake: PendingWake): System
    requires wake.id in s.db.commands
  {
    var taken, conversation := s.(wakes := s.wakes - {wake}), wake.copy.conversation;
    var use := FenceOf(s, wake.worker, conversation);
    if !Accepts(s, conversation, use) then taken
    else ReleaseWrite(taken, wake.id, wake.copy, use, Released(wake.id, conversation, use))
  }

  function ApplyCommitRelease(s: System, release: PendingRelease): System
    requires release.id in s.db.commands
  {
    var taken := s.(releases := s.releases - {release});
    var conversation := release.copy.conversation;
    if !FenceAccepts(s.db, conversation, Some(release.worker), Some(release.fence)) then taken
    else
      ReleaseWrite(taken, release.id, release.copy, Fenced(release.worker, release.fence),
                   ShutdownReleased(release.id, |s.deliveries|, conversation, release.fence))
  }

  function ApplyCommitBatch(s: System, worker: WorkerId, conversation: ConversationId): System {
    var use := FenceOf(s, worker, conversation);
    if Accepts(s, conversation, use) then Noted(s, conversation, use) else s
  }

  function Perform(s: System, step: Step): System
    requires Allowed(s, step)
  {
    match step
    case Tick(elapsed) => s.(db := s.db.(now := s.db.now + elapsed))
    case Accept(c) => s.(db := s.db.(commands := s.db.commands[c.id := c]))
    case ClaimCommand(w, id, duration) => ApplyClaim(s, w, id, duration)
    case TakeOver(w, conversation, duration) => ApplyTakeOver(s, w, conversation, duration)
    case RenewLeases(w, duration) => s.(db := RenewOwned(s.db, w, duration))
    case ReleaseLease(w, conversation, fence) =>
      var released := s.(db := s.db.(conversations := s.db.conversations[conversation := ReleaseRow(s.db.conversations[conversation])]));
      Noted(released, conversation, Fenced(w, fence))
    case RenewCommandLease(id, w, fence, expires) =>
      var renewed := s.(db := s.db.(commands := s.db.commands[id := s.db.commands[id].(leaseExpiresAt := Some(expires))]));
      Noted(renewed, s.db.commands[id].conversation, if fence.Some? then Fenced(w, fence.value) else Unfenced)
    case Write(c) => WriteRow(s, c.id, c)
    case Overwrite(c) => s.(db := s.db.(commands := s.db.commands[c.id := c]))
    case CommitBatch(w, conversation) => ApplyCommitBatch(s, w, conversation)
    case CommitRecovery(w, conversation, fence) => Noted(s, conversation, Fenced(w, fence))
    case RememberFence(w, conversation, fence) =>
      s.(processors := s.processors[w := SetFence(s.processors[w], conversation, fence)])
    case ForgetFence(w, conversation) =>
      s.(processors := s.processors[w := Processors.DropFence(s.processors[w], conversation)])
    case StartDraining(w) => s.(processors := s.processors[w := s.processors[w].(draining := true)])
    case Spawn(claim) => ApplySpawn(s, claim)
    case TakeLock(d) => ApplyTakeLock(s, d)
    case ReadGuard(d, present) => ApplyGuard(s, d, present)
    case WriteAmbiguous(d, copy) => ApplyDeliveryWrite(s, d, copy, Done)
    case WriteStarted(d, copy) => ApplyDeliveryWrite(s, d, copy, Started)
    case TestDraining(d) =>
      AtPhase(s, d, if Draining(s, s.deliveries[d].claim.worker) then Done else Calling)
    case CallAdapter(d) => Logged(AtPhase(s, d, Called), AdapterCall(s.deliveries[d].claim.command, d))
    case Finish(d) => AtPhase(s, d, Done)
    case DeferSwitch(d, copy) => ApplyDeliveryRelease(s, d, copy)
    case SteerFallback(d, copy) => ApplyDeliveryRelease(s, d, copy)
    case ReadWake(w, id) => ApplyReadWake(s, w, id)
    case CommitWake(wake) => ApplyCommitWake(s, wake)
    case DropWake(wake) => s.(wakes := s.wakes - {wake})
    case ReadRelease(w, id, fence) => s.(releases := s.releases + {PendingRelease(w, fence, id, ReleasedCopy(s.db.commands[id]))})
    case CommitRelease(release) => ApplyCommitRelease(s, release)
  }

  /** The state after the step, if it can be taken. */
  function Next(s: System, step: Step): Option<System> {
    if Allowed(s, step) then Some(Perform(s, step)) else None
  }

  predicate Enabled(s: System, step: Step) {
    Next(s, step).Some?
  }

  function Apply(s: System, step: Step): System
    requires Enabled(s, step)
  {
    Next(s, step).value
  }

  // ----- Runs -----

  /** Workers are initialized and hold nothing; no conversation has been granted to anyone. */
  ghost predicate Initial(s: System) {
    && s.claims == {} && s.deliveries == [] && s.releases == {} && s.wakes == {}
    && s.grants == {} && s.outstanding == {} && s.log == []
    && (forall w <- s.processors :: s.processors[w] == FRESH.(worker := Some(w)))
    && (forall id <- s.db.conversations :: s.db.conversations[id].owner.None?)
  }

  ghost predicate ValidRun(s: System, steps: seq<Step>)
    decreases |steps|
  {
    steps == [] || (Enabled(s, steps[0]) && ValidRun(Apply(s, steps[0]), steps[1..]))
  }

  function RunOf(s: System, steps: seq<Step>): System
    requires ValidRun(s, steps)
    decreases |steps|
  {
    if steps == [] then s else RunOf(Apply(s, steps[0]), steps[1..])
  }
}
