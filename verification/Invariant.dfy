// What every step of the delivery protocol keeps.
module ProtocolInvariant {
  import opened Wrappers
  import opened Commands
  import opened Database
  import opened Processors
  import opened Protocol

  /** The delivery will call the adapter: nothing is left to stop it. */
  predicate Active(s: System, d: nat) {
    && d < |s.deliveries|
    && (s.deliveries[d].phase.Calling? || (s.deliveries[d].phase.Started? && !Draining(s, s.deliveries[d].claim.worker)))
  }

  /** Nothing has called the adapter since the last release, and nothing is about to. */
  ghost predicate Untouched(s: System, command: CommandId) {
    command !in s.outstanding && forall d: nat | Active(s, d) :: s.deliveries[d].claim.command != command
  }

  /** The fence is the conversation's present one. */
  predicate Current(s: System, conversation: ConversationId, fence: nat) {
    conversation in s.db.conversations && s.db.conversations[conversation].fence == fence
  }

  predicate Held(s: System, claim: Claim) {
    && claim.command in s.db.commands
    && claim.conversation == s.db.commands[claim.command].conversation
    && Ownership(claim.conversation, claim.worker, claim.fence) in s.grants
  }

  predicate Pending(s: System, r: PendingRelease) {
    && r.id in s.db.commands && r.copy.conversation == s.db.commands[r.id].conversation
    && r.copy.startedAt.None? && r.copy.status.Accepted?
    && Ownership(r.copy.conversation, r.worker, r.fence) in s.grants
    && Draining(s, r.worker)
  }

  predicate Waking(s: System, p: PendingWake) {
    && p.id in s.db.commands && p.copy.conversation == s.db.commands[p.id].conversation
    && p.copy.startedAt.None? && p.copy.status.Accepted?
    && (p.use.Fenced? ==> p.use.worker == p.worker && Ownership(p.copy.conversation, p.worker, p.use.fence) in s.grants)
  }

  /** Grants never exceed the present fence, and a present fence belongs to one worker. */
  ghost predicate GrantsOk(s: System) {
    && (forall g <- s.grants ::
          && g.conversation in s.db.conversations
          && g.fence <= s.db.conversations[g.conversation].fence
          && (g.fence == s.db.conversations[g.conversation].fence && s.db.conversations[g.conversation].owner.Some? ==>
                s.db.conversations[g.conversation].owner == Some(g.worker)))
    && (forall g <- s.grants, h <- s.grants | g.conversation == h.conversation && g.fence == h.fence :: g.worker == h.worker)
  }

  ghost predicate HoldersOk(s: System) {
    && (forall w <- s.processors :: s.processors[w].worker == Some(w))
    && (forall claim <- s.claims :: Held(s, claim))
    && (forall d: nat | d < |s.deliveries| :: Held(s, s.deliveries[d].claim))
    && (forall r <- s.releases :: Pending(s, r))
    && (forall p <- s.wakes :: Waking(s, p))
    && (forall w <- s.processors, c <- s.processors[w].fences :: Ownership(c, w, s.processors[w].fences[c]) in s.grants)
  }

  /** While the pump of a worker is waking a command, no delivery of that worker holds the same lock. */
  ghost predicate LocksOk(s: System) {
    forall p <- s.wakes, d: nat | Locks(s, d) ::
      s.deliveries[d].claim.worker != p.worker || s.deliveries[d].claim.conversation != p.copy.conversation
  }

  ghost predicate OneTaskPerWorker(s: System) {
    forall d: nat, e: nat | d < e && Running(s, d) && Running(s, e) ::
      s.deliveries[d].claim.worker != s.deliveries[e].claim.worker || s.deliveries[d].claim.command != s.deliveries[e].claim.command
  }

  /** Calls made since the last release plus calls still to come are at most one, and close the row. */
  ghost predicate BudgetOk(s: System) {
    && (forall d: nat, e: nat | d < e && Active(s, d) && Active(s, e) :: s.deliveries[d].claim.command != s.deliveries[e].claim.command)
    && (forall d: nat | Active(s, d) ::
          && s.deliveries[d].claim.command !in s.outstanding
          && s.deliveries[d].claim.command in s.db.commands && Closed(s.db.commands[s.deliveries[d].claim.command]))
    && (forall c <- s.outstanding :: c in s.db.commands && Closed(s.db.commands[c]))
  }

  /** What a delivery or a pending release may rely on while its fence is the present one. */
  ghost predicate FencedOk(s: System) {
    && (forall d: nat | d < |s.deliveries| && Current(s, s.deliveries[d].claim.conversation, s.deliveries[d].claim.fence) ::
          && (s.deliveries[d].phase.Ready? ==> Untouched(s, s.deliveries[d].claim.command))
          && (s.deliveries[d].phase.Called? ==> s.deliveries[d].claim.command in s.outstanding))
    && (forall r <- s.releases | Current(s, r.copy.conversation, r.fence) :: Untouched(s, r.id))
    && (forall p <- s.wakes | p.use.Fenced? && Current(s, p.copy.conversation, p.use.fence) :: Untouched(s, p.id))
  }

  ghost predicate ShapeOk(s: System) {
    GrantsOk(s) && HoldersOk(s) && OneTaskPerWorker(s) && LocksOk(s)
  }

  ghost predicate Inv(s: System) {
    && ShapeOk(s)
    && BudgetOk(s)
    && FencedOk(s)
  }

  lemma InitialInv(s: System)
    requires Initial(s)
    ensures Inv(s)
  {
  }

  /**
   * The discipline the argument needs: the guard finds the command in the aggregate unless its row is
   * open, a delivery's write passes only under the fence its own claim returned, and a wake's only
   * under the fence it had at its read. Writes that are refused are no matter.
   */
  predicate Disciplined(s: System, step: Step)
    requires Enabled(s, step)
  {
    match step
    case ReadGuard(d, present) => GuardHolds(s, d, present)
    case WriteStarted(d, _) => WriteAccepted(s, d) ==> UsesOwnFence(s, d)
    case DeferSwitch(d, _) => WriteAccepted(s, d) ==> UsesOwnFence(s, d)
    case SteerFallback(d, _) => WriteAccepted(s, d) ==> UsesOwnFence(s, d)
    case CommitWake(wake) => WakeAccepted(s, wake) ==> UsesReadFence(s, wake)
    case _ => true
  }

  predicate GuardHolds(s: System, d: nat, present: bool)
    requires d < |s.deliveries|
  {
    var command := s.deliveries[d].claim.command;
    present || (command in s.db.commands && !Closed(s.db.commands[command]))
  }

  predicate UsesOwnFence(s: System, d: nat)
    requires d < |s.deliveries|
  {
    var claim := s.deliveries[d].claim;
    FenceOf(s, claim.worker, claim.conversation) == Fenced(claim.worker, claim.fence)
  }

  predicate UsesReadFence(s: System, wake: PendingWake) {
    wake.use.Fenced? && FenceOf(s, wake.worker, wake.copy.conversation) == wake.use
  }

  predicate WakeAccepted(s: System, wake: PendingWake) {
    Accepts(s, wake.copy.conversation, FenceOf(s, wake.worker, wake.copy.conversation))
  }

  predicate WriteAccepted(s: System, d: nat)
    requires d < |s.deliveries|
  {
    var claim := s.deliveries[d].claim;
    Accepts(s, claim.conversation, FenceOf(s, claim.worker, claim.conversation))
  }

  // ----- Steps that only take things away -----

  /** Rows may move on, but a closed command stays closed and a fence keeps its owner. */
  ghost predicate QuietChange(a: Db, b: Db) {
    && a.commands.Keys <= b.commands.Keys
    && (forall c <- a.commands :: b.commands[c].conversation == a.commands[c].conversation
                               && (Closed(a.commands[c]) ==> Closed(b.commands[c])))
    && a.conversations.Keys == b.conversations.Keys
    && (forall c <- a.conversations ::
          && a.conversations[c].fence <= b.conversations[c].fence
          && (a.conversations[c].fence == b.conversations[c].fence ==>
                b.conversations[c].owner == a.conversations[c].owner || b.conversations[c].owner.None?))
  }

  ghost predicate QuietDeliveries(a: seq<Delivery>, b: seq<Delivery>) {
    && |a| == |b|
    && forall d: nat | d < |a| ::
         && a[d].claim == b[d].claim
         && (a[d].phase == b[d].phase || b[d].phase.Done? || (b[d].phase.Ambiguous? && a[d].phase.Guarding?))
  }

  ghost predicate QuietProcessors(a: map<WorkerId, Processor>, b: map<WorkerId, Processor>) {
    && a.Keys == b.Keys
    && forall w <- a :: a[w].worker == b[w].worker && (a[w].draining ==> b[w].draining)
  }

  ghost predicate Quiet(s: System, t: System) {
    && QuietChange(s.db, t.db)
    && QuietDeliveries(s.deliveries, t.deliveries)
    && QuietProcessors(s.processors, t.processors)
    && (forall w <- t.processors, c <- t.processors[w].fences :: Ownership(c, w, t.processors[w].fences[c]) in s.grants)
    && t.claims <= s.claims && t.releases <= s.releases && t.wakes <= s.wakes
    && t.grants == s.grants && t.outstanding == s.outstanding
  }

  lemma QuietKeepsGrants(s: System, t: System)
    requires GrantsOk(s) && Quiet(s, t)
    ensures GrantsOk(t)
  {
  }

  lemma QuietKeepsHolders(s: System, t: System)
    requires HoldersOk(s) && Quiet(s, t)
    ensures HoldersOk(t)
  {
    forall d: nat | d < |t.deliveries| ensures Held(t, t.deliveries[d].claim) {
      assert Held(s, s.deliveries[d].claim);
    }
    forall r <- t.releases ensures Pending(t, r) {
      assert Pending(s, r);
    }
    forall p <- t.wakes ensures Waking(t, p) {
      assert Waking(s, p);
    }
  }

  lemma QuietKeepsLocks(s: System, t: System)
    requires LocksOk(s) && Quiet(s, t)
    ensures LocksOk(t)
  {
    assert forall d: nat | Locks(t, d) :: Locks(s, d);
  }

  lemma QuietKeepsActivity(s: System, t: System)
    requires Quiet(s, t)
    ensures forall d: nat | Active(t, d) :: Active(s, d)
    ensures forall c | Untouched(s, c) :: Untouched(t, c)
  {
  }

  lemma QuietKeepsTasks(s: System, t: System)
    requires OneTaskPerWorker(s) && Quiet(s, t)
    ensures OneTaskPerWorker(t)
  {
    assert forall d: nat | Running(t, d) :: Running(s, d);
  }

  lemma QuietKeepsBudget(s: System, t: System)
    requires BudgetOk(s) && Quiet(s, t)
    ensures BudgetOk(t)
  {
    QuietKeepsActivity(s, t);
  }

  lemma QuietKeepsFenced(s: System, t: System)
    requires GrantsOk(s) && HoldersOk(s) && FencedOk(s) && Quiet(s, t)
    ensures FencedOk(t)
  {
    QuietKeepsActivity(s, t);
    forall d: nat | d < |t.deliveries| && Current(t, t.deliveries[d].claim.conversation, t.deliveries[d].claim.fence)
      ensures t.deliveries[d].phase.Ready? ==> Untouched(t, t.deliveries[d].claim.command)
      ensures t.deliveries[d].phase.Called? ==> t.deliveries[d].claim.command in t.outstanding
    {
      assert Held(s, s.deliveries[d].claim);
      assert Current(s, s.deliveries[d].claim.conversation, s.deliveries[d].claim.fence);
    }
    forall r <- t.releases | Current(t, r.copy.conversation, r.fence) ensures Untouched(t, r.id) {
      assert Pending(s, r);
      assert Current(s, r.copy.conversation, r.fence);
    }
    forall p <- t.wakes | p.use.Fenced? && Current(t, p.copy.conversation, p.use.fence) ensures Untouched(t, p.id) {
      assert Waking(s, p);
      assert Current(s, p.copy.conversation, p.use.fence);
    }
  }

  lemma QuietKeepsInv(s: System, t: System)
    requires Inv(s) && Quiet(s, t)
    ensures Inv(t)
  {
    QuietKeepsGrants(s, t);
    QuietKeepsHolders(s, t);
    QuietKeepsTasks(s, t);
    QuietKeepsLocks(s, t);
    QuietKeepsBudget(s, t);
    QuietKeepsFenced(s, t);
  }

  lemma QuietWrite(s: System, id: CommandId, copy: Command)
    requires id in s.db.commands && copy.conversation == s.db.commands[id].conversation
    requires copy.status.Accepted? ==> copy.attempts < s.db.commands[id].attempts || !Closed(s.db.commands[id])
    ensures QuietChange(s.db, WriteRow(s, id, copy).db)
  {
  }

  // ----- Facts the other steps share -----

  /** A row that is not closed has seen no call, and sees none coming. */
  lemma OpenRowIsUntouched(s: System, command: CommandId)
    requires BudgetOk(s) && command in s.db.commands && !Closed(s.db.commands[command])
    ensures Untouched(s, command)
  {
  }

  /** Two running deliveries of one command never share a fence. */
  lemma FenceIsExclusive(s: System, d: nat, e: nat)
    requires GrantsOk(s) && HoldersOk(s) && OneTaskPerWorker(s)
    requires Running(s, d) && Running(s, e) && d != e
    requires s.deliveries[d].claim.command == s.deliveries[e].claim.command
    ensures s.deliveries[d].claim.fence != s.deliveries[e].claim.fence
  {
    assert Held(s, s.deliveries[d].claim) && Held(s, s.deliveries[e].claim);
  }

  lemma AcceptedFenceIsCurrent(s: System, d: nat)
    requires d < |s.deliveries| && UsesOwnFence(s, d) && WriteAccepted(s, d)
    ensures Current(s, s.deliveries[d].claim.conversation, s.deliveries[d].claim.fence)
    ensures s.db.conversations[s.deliveries[d].claim.conversation].owner == Some(s.deliveries[d].claim.worker)
  {
  }

  // ----- The lock, the guard and the started write -----

  /** A delivery takes the lock only while no wake holds it. */
  lemma TakeLockKeepsInv(s: System, d: nat)
    requires Inv(s) && Enabled(s, TakeLock(d))
    ensures Inv(ApplyTakeLock(s, d))
  {
    var t := ApplyTakeLock(s, d);
    if Draining(s, s.deliveries[d].claim.worker) {
      RefusedKeepsInv(s, d);
    } else {
      PhaseKeepsShape(s, d, Guarding);
      GuardingKeepsFenced(s, d);
      FewerCallsKeepBudget(s, t);
    }
  }

  lemma GuardKeepsInv(s: System, d: nat, present: bool)
    requires Inv(s) && d < |s.deliveries| && s.deliveries[d].phase.Guarding? && GuardHolds(s, d, present)
    ensures Inv(ApplyGuard(s, d, present))
  {
    var claim, t := s.deliveries[d].claim, ApplyGuard(s, d, present);
    assert Held(s, claim);
    if Closed(s.db.commands[claim.command]) {
      QuietKeepsInv(s, t);
    } else {
      OpenRowIsUntouched(s, claim.command);
      PhaseKeepsShape(s, d, Ready);
      ReadyKeepsFenced(s, d);
      FewerCallsKeepBudget(s, t);
    }
  }

  lemma GuardingKeepsFenced(s: System, d: nat)
    requires FencedOk(s) && d < |s.deliveries| && s.deliveries[d].phase.Waiting?
    ensures FencedOk(AtPhase(s, d, Guarding))
    ensures forall e: nat | Active(AtPhase(s, d, Guarding), e) :: Active(s, e)
  {
    var t := AtPhase(s, d, Guarding);
    assert forall e: nat | Active(t, e) :: Active(s, e);
    assert forall c | Untouched(s, c) :: Untouched(t, c);
    assert forall c, f :: Current(t, c, f) == Current(s, c, f);
  }

  lemma ReadyKeepsFenced(s: System, d: nat)
    requires FencedOk(s) && d < |s.deliveries| && s.deliveries[d].phase.Guarding?
    requires Untouched(s, s.deliveries[d].claim.command)
    ensures FencedOk(AtPhase(s, d, Ready))
    ensures forall e: nat | Active(AtPhase(s, d, Ready), e) :: Active(s, e)
  {
    var t := AtPhase(s, d, Ready);
    assert forall e: nat | Active(t, e) :: Active(s, e);
    assert forall c | Untouched(s, c) :: Untouched(t, c);
    assert forall c, f :: Current(t, c, f) == Current(s, c, f);
  }

  /** Fewer active deliveries over the same rows and the same history keep the budget. */
  lemma FewerCallsKeepBudget(s: System, t: System)
    requires BudgetOk(s) && t.db == s.db && t.outstanding == s.outstanding && |t.deliveries| >= |s.deliveries|
    requires forall e: nat | e < |s.deliveries| :: t.deliveries[e].claim == s.deliveries[e].claim
    requires forall e: nat | Active(t, e) :: Active(s, e)
    ensures BudgetOk(t)
  {
  }

  /** A running delivery that stays running keeps everything that does not read its phase. */
  lemma PhaseKeepsShape(s: System, d: nat, phase: Phase)
    requires ShapeOk(s) && Running(s, d) && !phase.Done?
    requires !Locks(s, d) ==> LockFree(s, s.deliveries[d].claim.worker, s.deliveries[d].claim.conversation)
    ensures ShapeOk(AtPhase(s, d, phase))
  {
    var t := AtPhase(s, d, phase);
    forall e: nat | e < |t.deliveries| ensures Held(t, t.deliveries[e].claim) {
      assert Held(s, s.deliveries[e].claim);
    }
    forall r <- t.releases ensures Pending(t, r) {
      assert Pending(s, r);
    }
    assert forall p | Waking(s, p) :: Waking(t, p);
    assert forall e: nat :: Running(t, e) == Running(s, e);
    assert forall e: nat | Locks(t, e) :: e == d || Locks(s, e);
  }

  /** The started write takes the one call the command has left. */
  lemma StartedKeepsBudget(r: System, d: nat)
    requires BudgetOk(r) && d < |r.deliveries| && r.deliveries[d].phase.Ready?
    requires Untouched(r, r.deliveries[d].claim.command)
    requires r.deliveries[d].claim.command in r.db.commands && Closed(r.db.commands[r.deliveries[d].claim.command])
    ensures BudgetOk(AtPhase(r, d, Started))
  {
    var t := AtPhase(r, d, Started);
    assert forall e: nat | e != d :: Active(t, e) == Active(r, e);
  }

  lemma StartedKeepsFenced(r: System, d: nat)
    requires Inv(r) && d < |r.deliveries| && r.deliveries[d].phase.Ready?
    requires Current(r, r.deliveries[d].claim.conversation, r.deliveries[d].claim.fence)
    ensures FencedOk(AtPhase(r, d, Started))
  {
    var claim, t := r.deliveries[d].claim, AtPhase(r, d, Started);
    assert Held(r, claim);
    assert forall e: nat | Active(t, e) :: e == d || Active(r, e);
    forall e: nat | e < |t.deliveries| && Current(t, t.deliveries[e].claim.conversation, t.deliveries[e].claim.fence)
      ensures t.deliveries[e].phase.Ready? ==> Untouched(t, t.deliveries[e].claim.command)
      ensures t.deliveries[e].phase.Called? ==> t.deliveries[e].claim.command in t.outstanding
    {
      if t.deliveries[e].phase.Ready? {
        assert Held(r, r.deliveries[e].claim);
        if t.deliveries[e].claim.command == claim.command {
          FenceIsExclusive(r, d, e);
          assert false;
        }
      }
    }
    forall p <- t.releases | Current(t, p.copy.conversation, p.fence) ensures Untouched(t, p.id) {
      assert Pending(r, p);
    }
    forall p <- t.wakes | p.use.Fenced? && Current(t, p.copy.conversation, p.use.fence) ensures Untouched(t, p.id) {
      assert Waking(r, p) && Locks(r, d);
    }
  }

  lemma StartedPhaseKeepsInv(r: System, d: nat)
    requires Inv(r) && d < |r.deliveries| && r.deliveries[d].phase.Ready?
    requires Current(r, r.deliveries[d].claim.conversation, r.deliveries[d].claim.fence)
    requires r.deliveries[d].claim.command in r.db.commands && Closed(r.db.commands[r.deliveries[d].claim.command])
    ensures Inv(AtPhase(r, d, Started))
  {
    PhaseKeepsShape(r, d, Started);
    StartedKeepsBudget(r, d);
    StartedKeepsFenced(r, d);
  }

  /** The row write of an accepted delivery write, whatever it says. */
  lemma DeliveryRowKeepsInv(s: System, d: nat, copy: Command, r: System)
    requires Inv(s) && d < |s.deliveries| && IsCopyOf(s, d, copy) && copy.id in s.db.commands && !copy.status.Accepted?
    requires r == WriteRow(s, copy.id, copy).(log := r.log)
    ensures Inv(r)
  {
    assert Held(s, s.deliveries[d].claim);
    QuietWrite(s, copy.id, copy);
    QuietKeepsInv(s, r);
  }

  lemma StartedKeepsInv(s: System, d: nat, copy: Command)
    requires Inv(s) && Enabled(s, WriteStarted(d, copy)) && (WriteAccepted(s, d) ==> UsesOwnFence(s, d))
    ensures Inv(ApplyDeliveryWrite(s, d, copy, Started))
  {
    var claim := s.deliveries[d].claim;
    if WriteAccepted(s, d) {
      AcceptedFenceIsCurrent(s, d);
      var r := Noted(WriteRow(s, copy.id, copy), claim.conversation, FenceOf(s, claim.worker, claim.conversation));
      DeliveryRowKeepsInv(s, d, copy, r);
      StartedPhaseKeepsInv(r, d);
    } else {
      RefusedKeepsInv(s, d);
    }
  }

  /** A delivery that stops. */
  lemma RefusedKeepsInv(s: System, d: nat)
    requires Inv(s) && d < |s.deliveries|
    ensures Inv(AtPhase(s, d, Done))
  {
    QuietKeepsInv(s, AtPhase(s, d, Done));
  }

  // ----- The draining test and the call -----

  lemma TestDrainingKeepsInv(s: System, d: nat)
    requires Inv(s) && d < |s.deliveries| && s.deliveries[d].phase.Started?
    ensures Inv(Apply(s, TestDraining(d)))
  {
    var t := Apply(s, TestDraining(d));
    if Draining(s, s.deliveries[d].claim.worker) {
      QuietKeepsInv(s, t);
    } else {
      PhaseKeepsShape(s, d, Calling);
      CallingKeepsFenced(s, d);
      FewerCallsKeepBudget(s, t);
    }
  }

  /** Passing the draining test changes nothing about who is about to call. */
  lemma CallingKeepsFenced(s: System, d: nat)
    requires FencedOk(s) && d < |s.deliveries| && s.deliveries[d].phase.Started?
    requires !Draining(s, s.deliveries[d].claim.worker)
    ensures FencedOk(AtPhase(s, d, Calling))
    ensures forall e: nat | Active(AtPhase(s, d, Calling), e) :: Active(s, e)
  {
    var t := AtPhase(s, d, Calling);
    assert forall e: nat | Active(t, e) :: Active(s, e);
    assert forall c | Untouched(s, c) :: Untouched(t, c);
    assert forall c, f :: Current(t, c, f) == Current(s, c, f);
  }

  lemma CallKeepsInv(s: System, d: nat)
    requires Inv(s) && d < |s.deliveries| && s.deliveries[d].phase.Calling?
    ensures s.deliveries[d].claim.command !in s.outstanding
    ensures Inv(Apply(s, CallAdapter(d)))
  {
    var command, t := s.deliveries[d].claim.command, Apply(s, CallAdapter(d));
    assert Active(s, d);
    PhaseKeepsShape(s, d, Called);
    HistoryKeepsShape(AtPhase(s, d, Called), t);
    CallKeepsBudget(s, t, d);
    CallKeepsFenced(s, t, d);
  }

  /** The call moves its command from about to be called to called. */
  lemma CallKeepsBudget(s: System, t: System, d: nat)
    requires BudgetOk(s) && Active(s, d) &&
             t == s.(log := t.log, deliveries := t.deliveries, outstanding := s.outstanding + {s.deliveries[d].claim.command})
    requires t.deliveries == s.deliveries[d := s.deliveries[d].(phase := Called)]
    ensures BudgetOk(t)
  {
    assert forall e: nat | Active(t, e) :: e != d && Active(s, e);
  }

  lemma CallKeepsFenced(s: System, t: System, d: nat)
    requires FencedOk(s) && Active(s, d) &&
             t == s.(log := t.log, deliveries := t.deliveries, outstanding := s.outstanding + {s.deliveries[d].claim.command})
    requires t.deliveries == s.deliveries[d := s.deliveries[d].(phase := Called)]
    ensures FencedOk(t)
  {
    assert forall e: nat | Active(t, e) :: e != d && Active(s, e);
    assert forall c | Untouched(s, c) :: c != s.deliveries[d].claim.command && Untouched(t, c);
    assert forall c, f :: Current(t, c, f) == Current(s, c, f);
  }

  lemma HistoryKeepsShape(s: System, t: System)
    requires ShapeOk(s)
    requires t == s.(log := t.log, outstanding := t.outstanding)
    ensures ShapeOk(t)
  {
    forall d: nat | d < |t.deliveries| ensures Held(t, t.deliveries[d].claim) {
      assert Held(s, s.deliveries[d].claim);
    }
    forall r <- t.releases ensures Pending(t, r) {
      assert Pending(s, r);
    }
    forall claim <- t.claims ensures Held(t, claim) {
      assert Held(s, claim);
    }
    assert forall p | Waking(s, p) :: Waking(t, p);
    assert forall d: nat :: Running(t, d) == Running(s, d) && Locks(t, d) == Locks(s, d);
  }

  // ----- Releases -----

  /**
   * Reopening a command that nothing is about to call, while no delivery of it stands between its
   * call and its end under the present fence.
   */
  lemma ReopenKeepsInv(s: System, command: CommandId, row: Command, e: Event)
    requires Inv(s) && command in s.db.commands && IsRelease(e, command)
    requires row.conversation == s.db.commands[command].conversation
    requires forall d: nat | Active(s, d) :: s.deliveries[d].claim.command != command
    requires forall d: nat | d < |s.deliveries| && s.deliveries[d].phase.Called? && s.deliveries[d].claim.command == command ::
               !Current(s, s.deliveries[d].claim.conversation, s.deliveries[d].claim.fence)
    ensures Inv(Logged(s.(db := s.db.(commands := s.db.commands[command := row])), e))
  {
    var t := Logged(s.(db := s.db.(commands := s.db.commands[command := row])), e);
    assert t.outstanding == s.outstanding - {command};
    ReopenKeepsShape(s, command, row, t);
    assert forall d: nat :: Active(t, d) == Active(s, d);
    assert forall c | Untouched(s, c) :: Untouched(t, c);
    assert BudgetOk(t);
    assert FencedOk(t) by {
      assert forall c, f :: Current(t, c, f) == Current(s, c, f);
    }
  }

  lemma ReopenKeepsShape(s: System, command: CommandId, row: Command, t: System)
    requires ShapeOk(s) && command in s.db.commands
    requires row.conversation == s.db.commands[command].conversation
    requires t == s.(db := s.db.(commands := s.db.commands[command := row]), log := t.log, outstanding := t.outstanding)
    ensures ShapeOk(t)
  {
    assert forall claim | Held(s, claim) :: Held(t, claim);
    assert forall r | Pending(s, r) :: Pending(t, r);
    assert forall p | Waking(s, p) :: Waking(t, p);
    assert forall d: nat :: Running(t, d) == Running(s, d) && Locks(t, d) == Locks(s, d);
  }

  /** Releasing an untouched command is always safe. */
  lemma UntouchedReleaseKeepsInv(s: System, id: CommandId, copy: Command, use: FenceUse, e: Event)
    requires Inv(s) && id in s.db.commands && Untouched(s, id) && IsRelease(e, id)
    requires copy.status.Accepted? && copy.conversation == s.db.commands[id].conversation
    ensures Inv(ReleaseWrite(s, id, copy, use, e))
  {
    if copy.attempts < s.db.commands[id].attempts {
      QuietWrite(s, id, copy);
      QuietKeepsInv(s, ReleaseWrite(s, id, copy, use, e));
    } else {
      ReopenKeepsInv(s, id, copy, e);
    }
  }

  /** A delivery that held the present fence and ended leaves nobody who called, or will call, under that fence. */
  lemma EndedDeliveryReopens(s: System, d: nat, copy: Command, e: Event)
    requires Inv(s) && d < |s.deliveries| && IsCopyOf(s, d, copy) && copy.id in s.db.commands && IsRelease(e, copy.id)
    requires s.deliveries[d].phase.Ready? || s.deliveries[d].phase.Called?
    requires Current(s, s.deliveries[d].claim.conversation, s.deliveries[d].claim.fence)
    requires Inv(AtPhase(s, d, Done))
    ensures Inv(Logged(AtPhase(s, d, Done).(db := s.db.(commands := s.db.commands[copy.id := copy])), e))
  {
    var t := AtPhase(s, d, Done);
    assert Held(s, s.deliveries[d].claim);
    forall x: nat | Active(t, x) ensures t.deliveries[x].claim.command != copy.id {
      assert Active(s, x);
    }
    forall x: nat | x < |t.deliveries| && t.deliveries[x].phase.Called? && t.deliveries[x].claim.command == copy.id
      ensures !Current(t, t.deliveries[x].claim.conversation, t.deliveries[x].claim.fence)
    {
      assert Held(s, s.deliveries[x].claim);
      FenceIsExclusive(s, d, x);
    }
    ReopenKeepsInv(t, copy.id, copy, e);
  }

  /** The deliveries' own releases: a deferred switch before its call, a failed steer after it. */
  lemma DeliveryReleaseKeepsInv(s: System, d: nat, copy: Command)
    requires Inv(s) && d < |s.deliveries| && IsCopyOf(s, d, copy) && IsReleaseCopy(copy)
    requires WriteAccepted(s, d) ==> UsesOwnFence(s, d)
    requires s.deliveries[d].phase.Ready? || s.deliveries[d].phase.Called?
    requires copy.id in s.db.commands
    ensures Inv(ApplyDeliveryRelease(s, d, copy))
  {
    RefusedKeepsInv(s, d);
    if WriteAccepted(s, d) {
      var claim := s.deliveries[d].claim;
      AcceptedFenceIsCurrent(s, d);
      if copy.attempts < s.db.commands[copy.id].attempts {
        StaleReleaseKeepsInv(AtPhase(s, d, Done), s, d, copy);
      } else {
        EndedDeliveryReopens(s, d, copy, Released(copy.id, copy.conversation, FenceOf(s, claim.worker, claim.conversation)));
      }
    }
  }

  lemma StaleReleaseKeepsInv(t: System, s: System, d: nat, copy: Command)
    requires Inv(t) && HoldersOk(s) && d < |s.deliveries| && t == AtPhase(s, d, Done)
    requires IsCopyOf(s, d, copy) && copy.id in s.db.commands && copy.attempts < s.db.commands[copy.id].attempts
    ensures forall use :: Inv(Noted(WriteRow(t, copy.id, copy), copy.conversation, use))
  {
    assert Held(s, s.deliveries[d].claim);
    QuietWrite(t, copy.id, copy);
    forall use ensures Inv(Noted(WriteRow(t, copy.id, copy), copy.conversation, use)) {
      QuietKeepsInv(t, Noted(WriteRow(t, copy.id, copy), copy.conversation, use));
    }
  }

  lemma CommitReleaseKeepsInv(s: System, r: PendingRelease)
    requires Inv(s) && r in s.releases && r.id in s.db.commands
    ensures Inv(ApplyCommitRelease(s, r))
  {
    var taken := s.(releases := s.releases - {r});
    QuietKeepsInv(s, taken);
    if FenceAccepts(s.db, r.copy.conversation, Some(r.worker), Some(r.fence)) {
      assert Pending(s, r);
      assert Current(s, r.copy.conversation, r.fence);
      QuietKeepsActivity(s, taken);
      UntouchedReleaseKeepsInv(taken, r.id, r.copy, Fenced(r.worker, r.fence),
                               ShutdownReleased(r.id, |s.deliveries|, r.copy.conversation, r.fence));
    }
  }

  /** A wake's release keeps the invariant at its end, whatever happened since its read under the lock. */
  lemma CommitWakeKeepsInv(s: System, p: PendingWake)
    requires Inv(s) && p in s.wakes && p.id in s.db.commands && (WakeAccepted(s, p) ==> UsesReadFence(s, p))
    ensures Inv(ApplyCommitWake(s, p))
  {
    var taken := s.(wakes := s.wakes - {p});
    QuietKeepsInv(s, taken);
    if WakeAccepted(s, p) {
      assert Waking(s, p);
      assert Current(s, p.copy.conversation, p.use.fence);
      QuietKeepsActivity(s, taken);
      UntouchedReleaseKeepsInv(taken, p.id, p.copy, p.use, Released(p.id, p.copy.conversation, p.use));
    }
  }

  /** Deciding on releases changes nothing but the set of decisions. */
  lemma PendingKeepsInv(s: System, t: System)
    requires Inv(s) && t == s.(releases := t.releases, wakes := t.wakes)
    requires forall r <- t.releases :: Pending(s, r) && (Current(s, r.copy.conversation, r.fence) ==> Untouched(s, r.id))
    requires forall p <- t.wakes :: Waking(s, p) && (p.use.Fenced? && Current(s, p.copy.conversation, p.use.fence) ==> Untouched(s, p.id))
    requires LocksOk(t)
    ensures Inv(t)
  {
    PendingKeepsShape(s, t);
    assert forall d: nat :: Active(t, d) == Active(s, d);
    assert forall c | Untouched(s, c) :: Untouched(t, c);
    assert forall c, f :: Current(t, c, f) == Current(s, c, f);
  }

  lemma PendingKeepsShape(s: System, t: System)
    requires ShapeOk(s) && t == s.(releases := t.releases, wakes := t.wakes) && LocksOk(t)
    requires (forall r <- t.releases :: Pending(s, r)) && (forall p <- t.wakes :: Waking(s, p))
    ensures ShapeOk(t)
  {
    assert forall claim | Held(s, claim) :: Held(t, claim);
    assert forall r | Pending(s, r) :: Pending(t, r);
    assert forall p | Waking(s, p) :: Waking(t, p);
    assert forall d: nat :: Running(t, d) == Running(s, d);
  }

  lemma ReadWakeKeepsInv(s: System, w: WorkerId, id: CommandId)
    requires Inv(s) && Enabled(s, ReadWake(w, id))
    ensures Inv(ApplyReadWake(s, w, id))
  {
    var t := ApplyReadWake(s, w, id);
    OpenRowIsUntouched(s, id);
    assert forall d: nat :: Locks(t, d) == Locks(s, d);
    PendingKeepsInv(s, t);
  }

  lemma ReadReleaseKeepsInv(s: System, w: WorkerId, id: CommandId, fence: nat)
    requires Inv(s) && Enabled(s, ReadRelease(w, id, fence))
    ensures Inv(Apply(s, ReadRelease(w, id, fence)))
  {
    var t := s.(releases := s.releases + {PendingRelease(w, fence, id, ReleasedCopy(s.db.commands[id]))});
    OpenRowIsUntouched(s, id);
    assert forall d: nat :: Locks(t, d) == Locks(s, d);
    PendingKeepsInv(s, t);
  }

  // ----- Claims, takeovers, spawning -----

  /** Recording a grant to the present owner at the present fence, with or without a claim. */
  lemma GrantKeepsInv(s: System, t: System, conversation: ConversationId, worker: WorkerId)
    requires Inv(s) && conversation in s.db.conversations && s.db.conversations[conversation].owner == Some(worker)
    requires t == s.(log := t.log, claims := t.claims,
                     grants := s.grants + {Ownership(conversation, worker, s.db.conversations[conversation].fence)})
    requires forall claim <- t.claims :: Held(t, claim)
    ensures Inv(t)
  {
    assert forall claim | Held(s, claim) :: Held(t, claim);
    assert forall r | Pending(s, r) :: Pending(t, r);
    assert forall p | Waking(s, p) :: Waking(t, p);
    assert GrantsOk(t);
    assert HoldersOk(t);
    assert forall d: nat :: Running(t, d) == Running(s, d) && Locks(t, d) == Locks(s, d);
    assert forall d: nat :: Active(t, d) == Active(s, d);
    assert forall c | Untouched(s, c) :: Untouched(t, c);
    assert forall c, f :: Current(t, c, f) == Current(s, c, f);
  }

  lemma ClaimKeepsInv(s: System, w: WorkerId, id: CommandId, duration: int)
    requires Inv(s) && Enabled(s, ClaimCommand(w, id, duration))
    ensures Inv(Apply(s, ClaimCommand(w, id, duration)))
  {
    var (after, one) := ClaimOne(s.db, id, w, duration);
    if one.Some? {
      var r, t := s.(db := after), Apply(s, ClaimCommand(w, id, duration));
      QuietKeepsInv(s, r);
      forall claim <- t.claims ensures Held(t, claim) {
        if claim in s.claims {
          assert Held(r, claim);
        }
      }
      GrantKeepsInv(r, t, one.value.command.conversation, w);
    }
  }

  lemma TakeOverKeepsInv(s: System, w: WorkerId, conversation: ConversationId, duration: int)
    requires Inv(s) && Enabled(s, TakeOver(w, conversation, duration))
    ensures Inv(Apply(s, TakeOver(w, conversation, duration)))
  {
    var (after, one) := TakeOverOne(s.db, conversation, w, duration);
    if one.Some? {
      var r, t := s.(db := after), Apply(s, TakeOver(w, conversation, duration));
      QuietKeepsInv(s, r);
      forall claim <- t.claims ensures Held(t, claim) {
        assert Held(r, claim);
      }
      GrantKeepsInv(r, t, conversation, w);
    }
  }

  lemma SpawnKeepsInv(s: System, claim: Claim)
    requires Inv(s) && claim in s.claims
    ensures Inv(ApplySpawn(s, claim))
  {
    var t := ApplySpawn(s, claim);
    assert Held(s, claim);
    if RunningFor(s, claim.worker, claim.command) || claim.worker !in s.processors {
      QuietKeepsInv(s, t);
    } else {
      var r := t.(deliveries := s.deliveries);
      QuietKeepsInv(s, r);
      SpawnedKeepsShape(r, claim, t);
      SpawnedKeepsFenced(r, claim, t);
      FewerCallsKeepBudget(r, t);
    }
  }

  lemma SpawnedKeepsShape(r: System, claim: Claim, t: System)
    requires ShapeOk(r) && Held(r, claim)
    requires t == r.(deliveries := r.deliveries + [Delivery(claim, Waiting)])
    requires !RunningFor(r, claim.worker, claim.command)
    ensures ShapeOk(t)
  {
    assert forall c | Held(r, c) :: Held(t, c);
    assert forall p | Pending(r, p) :: Pending(t, p);
    assert forall p | Waking(r, p) :: Waking(t, p);
    assert HoldersOk(t);
    assert forall d: nat | d < |r.deliveries| :: Running(t, d) == Running(r, d);
    assert forall d: nat :: Locks(t, d) == Locks(r, d);
  }

  lemma SpawnedKeepsFenced(r: System, claim: Claim, t: System)
    requires FencedOk(r) && t == r.(deliveries := r.deliveries + [Delivery(claim, Waiting)])
    ensures FencedOk(t)
    ensures forall d: nat | Active(t, d) :: Active(r, d)
  {
    assert forall d: nat | Active(t, d) :: Active(r, d);
    assert forall c | Untouched(r, c) :: Untouched(t, c);
    assert forall c, f :: Current(t, c, f) == Current(r, c, f);
  }

  // ----- Every step -----

  lemma AmbiguousKeepsInv(s: System, d: nat, copy: Command)
    requires Inv(s) && Enabled(s, WriteAmbiguous(d, copy))
    ensures Inv(ApplyDeliveryWrite(s, d, copy, Done))
  {
    if WriteAccepted(s, d) {
      var claim := s.deliveries[d].claim;
      var r := Noted(WriteRow(s, copy.id, copy), claim.conversation, FenceOf(s, claim.worker, claim.conversation));
      DeliveryRowKeepsInv(s, d, copy, r);
      RefusedKeepsInv(r, d);
    } else {
      RefusedKeepsInv(s, d);
    }
  }

  lemma DeliveryStepKeepsInv(s: System, step: Step)
    requires Inv(s) && DeliveryEnabled(s, step) && Enabled(s, step) && Disciplined(s, step)
    ensures Inv(Apply(s, step))
  {
    match step
    case TakeLock(d) => TakeLockKeepsInv(s, d);
    case ReadGuard(d, present) => GuardKeepsInv(s, d, present);
    case WriteAmbiguous(d, copy) => AmbiguousKeepsInv(s, d, copy);
    case WriteStarted(d, copy) => StartedKeepsInv(s, d, copy);
    case TestDraining(d) => TestDrainingKeepsInv(s, d);
    case CallAdapter(d) => CallKeepsInv(s, d);
    case Finish(d) => RefusedKeepsInv(s, d);
    case DeferSwitch(d, copy) => DeliveryReleaseKeepsInv(s, d, copy);
    case SteerFallback(d, copy) => DeliveryReleaseKeepsInv(s, d, copy);
    case _ =>
  }

  /** Steps that change rows of commands only. */
  lemma CommandStepIsQuiet(s: System, step: Step)
    requires Inv(s) && Enabled(s, step) && (step.Accept? || step.RenewCommandLease? || step.Write? || step.Overwrite?)
    ensures Quiet(s, Apply(s, step))
  {
    if step.Write? {
      QuietWrite(s, step.copy.id, step.copy);
    }
  }

  /** Steps on the leases of conversations. */
  lemma LeaseStepIsQuiet(s: System, step: Step)
    requires Inv(s) && Enabled(s, step) && (step.RenewLeases? || step.ReleaseLease?)
    ensures Quiet(s, Apply(s, step))
  {
    var t := Apply(s, step);
    assert t.processors == s.processors && t.deliveries == s.deliveries && t.db.commands == s.db.commands;
  }

  /** The clock, and fenced commits that change neither rows nor workers. */
  lemma OtherStepIsQuiet(s: System, step: Step)
    requires Inv(s) && Enabled(s, step) && (step.Tick? || step.CommitBatch? || step.CommitRecovery? || step.DropWake?)
    ensures Quiet(s, Apply(s, step))
  {
    var t := Apply(s, step);
    assert t.processors == s.processors && t.deliveries == s.deliveries;
    assert t.db.commands == s.db.commands && t.db.conversations == s.db.conversations;
  }

  /** Steps on a worker's own fields: a fence comes from a grant or goes, draining only begins. */
  lemma WorkerChangeIsQuiet(s: System, w: WorkerId, p: Processor)
    requires Inv(s) && w in s.processors && p.worker == s.processors[w].worker && (s.processors[w].draining ==> p.draining)
    requires forall c <- p.fences :: Ownership(c, w, p.fences[c]) in s.grants
    ensures Quiet(s, s.(processors := s.processors[w := p]))
  {
  }

  lemma WorkerStepIsQuiet(s: System, step: Step)
    requires Inv(s) && Enabled(s, step) && (step.RememberFence? || step.ForgetFence? || step.StartDraining?)
    ensures Quiet(s, Apply(s, step))
  {
    var p := Apply(s, step).processors[step.worker];
    assert Apply(s, step) == s.(processors := s.processors[step.worker := p]);
    WorkerChangeIsQuiet(s, step.worker, p);
  }

  lemma QuietStepKeepsInv(s: System, step: Step)
    requires Inv(s) && Enabled(s, step)
    requires step.Tick? || step.Accept? || step.RenewLeases? || step.ReleaseLease? || step.RenewCommandLease?
             || step.Write? || step.Overwrite? || step.CommitBatch? || step.CommitRecovery? || step.RememberFence?
             || step.ForgetFence? || step.StartDraining? || step.DropWake?
    ensures Inv(Apply(s, step))
  {
    if step.Accept? || step.RenewCommandLease? || step.Write? || step.Overwrite? {
      CommandStepIsQuiet(s, step);
    } else if step.RememberFence? || step.ForgetFence? || step.StartDraining? {
      WorkerStepIsQuiet(s, step);
    } else if step.RenewLeases? || step.ReleaseLease? {
      LeaseStepIsQuiet(s, step);
    } else {
      OtherStepIsQuiet(s, step);
    }
    QuietKeepsInv(s, Apply(s, step));
  }

  lemma ReleaseStepKeepsInv(s: System, step: Step)
    requires Inv(s) && Enabled(s, step) && Disciplined(s, step)
    requires step.ReadWake? || step.CommitWake? || step.ReadRelease? || step.CommitRelease?
    ensures Inv(Apply(s, step))
  {
    match step
    case ReadWake(w, id) => ReadWakeKeepsInv(s, w, id);
    case CommitWake(wake) => CommitWakeKeepsInv(s, wake);
    case ReadRelease(w, id, fence) => ReadReleaseKeepsInv(s, w, id, fence);
    case CommitRelease(r) => CommitReleaseKeepsInv(s, r);
  }

  lemma StepKeepsInv(s: System, step: Step)
    requires Inv(s) && Enabled(s, step) && Disciplined(s, step)
    ensures Inv(Apply(s, step))
  {
    if step.ClaimCommand? {
      ClaimKeepsInv(s, step.worker, step.id, step.duration);
    } else if step.TakeOver? {
      TakeOverKeepsInv(s, step.worker, step.conversation, step.duration);
    } else if step.Spawn? {
      SpawnKeepsInv(s, step.claim);
    } else if step.ReadWake? || step.CommitWake? || step.ReadRelease? || step.CommitRelease? {
      ReleaseStepKeepsInv(s, step);
    } else if DeliveryEnabled(s, step) {
      DeliveryStepKeepsInv(s, step);
    } else {
      QuietStepKeepsInv(s, step);
    }
  }
}
