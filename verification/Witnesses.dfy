// Three runs, each outside one condition of the discipline, that reach the adapter twice.
module Witnesses {
  import opened Wrappers
  import opened Commands
  import opened Database
  import opened Processors
  import opened Protocol
  import opened ProtocolInvariant
  import opened Guarantees

  /** Every delivery write of the run that passes does so under the fence of its own claim. */
  ghost predicate OwnFences(s: System, steps: seq<Step>)
    requires ValidRun(s, steps)
    decreases |steps|
  {
    steps == [] || (OwnFenceAt(s, steps[0]) && OwnFences(Apply(s, steps[0]), steps[1..]))
  }

  predicate OwnFenceAt(s: System, step: Step)
    requires Enabled(s, step)
  {
    (step.WriteStarted? || step.DeferSwitch? || step.SteerFallback?) && WriteAccepted(s, step.d) ==> UsesOwnFence(s, step.d)
  }

  /** The guard finds its command in the aggregate in every step of the run. */
  predicate GuardsPresent(steps: seq<Step>) {
    forall step <- steps | step.ReadGuard? :: step.present
  }

  /** Or, where it does not, the row is open. */
  ghost predicate GuardsHold(s: System, steps: seq<Step>)
    requires ValidRun(s, steps)
    decreases |steps|
  {
    steps == [] || (GuardAt(s, steps[0]) && GuardsHold(Apply(s, steps[0]), steps[1..]))
  }

  predicate GuardAt(s: System, step: Step)
    requires Enabled(s, step)
  {
    step.ReadGuard? ==> GuardHolds(s, step.d, step.present)
  }

  lemma {:induction false} PresentGuardsHold(s: System, steps: seq<Step>)
    requires ValidRun(s, steps) && GuardsPresent(steps)
    ensures GuardsHold(s, steps)
    decreases |steps|
  {
    if steps != [] {
      assert forall step <- steps[1..] :: step in steps;
      PresentGuardsHold(Apply(s, steps[0]), steps[1..]);
    }
  }

  /** Every wake of the run that passes does so under the fence it had when it was read. */
  ghost predicate ReadFences(s: System, steps: seq<Step>)
    requires ValidRun(s, steps)
    decreases |steps|
  {
    steps == [] || (ReadFenceAt(s, steps[0]) && ReadFences(Apply(s, steps[0]), steps[1..]))
  }

  predicate ReadFenceAt(s: System, step: Step)
    requires Enabled(s, step)
  {
    step.CommitWake? && WakeAccepted(s, step.wake) ==> UsesReadFence(s, step.wake)
  }

  /** The three conditions together are the discipline. */
  lemma {:induction false} DisciplineIsAllThree(s: System, steps: seq<Step>)
    requires ValidRun(s, steps)
    ensures DisciplinedRun(s, steps) <==> GuardsHold(s, steps) && OwnFences(s, steps) && ReadFences(s, steps)
    decreases |steps|
  {
    if steps != [] {
      DisciplineIsAllThree(Apply(s, steps[0]), steps[1..]);
    }
  }

  /** A run from an initial state in which a command reaches the adapter twice without a release. */
  ghost predicate CallsTwice(s: System, steps: seq<Step>) {
    Initial(s) && ValidRun(s, steps) && !AtMostOncePerRelease(RunOf(s, steps).log)
  }

  // ----- States of one conversation, one command and two workers -----

  function Worker(id: WorkerId, fence: Option<nat>): Processor {
    Processor(Some(id), if fence.Some? then map[0 := fence.value] else map[], {}, false)
  }

  function Owned(w: WorkerId, fence: nat, lease: Time): Conversation {
    Conversation(Some(w), fence, Some(lease), true, false)
  }

  function Cmd(kind: Kind, status: Status, attempts: int, lease: Option<Time>, worker: Option<WorkerId>, started: Option<Time>): Command {
    Command(7, 0, kind, status, attempts, started, None, lease, worker, None, None, None, 0)
  }

  function Snap(now: Time, row: Conversation, command: Command, f1: Option<nat>, f2: Option<nat>,
                claims: set<Claim>, deliveries: seq<Delivery>, grants: set<Ownership>, outstanding: set<CommandId>, log: seq<Event>): System {
    System(Db(now, map[0 := row], map[7 := command]), map[1 := Worker(1, f1), 2 := Worker(2, f2)],
           claims, deliveries, {}, {}, grants, outstanding, log)
  }

  /** What the guards of a run find. */
  datatype Guards = AllPresent | AllAbsent | AnyGuards

  /** Which conditions of the discipline a run keeps. */
  datatype Kept = Kept(guards: Guards, fences: bool, wakes: bool)

  predicate GuardsAre(guards: Guards, step: Step) {
    step.ReadGuard? ==> (guards.AllPresent? ==> step.present) && (guards.AllAbsent? ==> !step.present)
  }

  /** The run ends in `t`, accepts no new command, and keeps those conditions. */
  ghost predicate Leads(s: System, steps: seq<Step>, t: System, kept: Kept) {
    && ValidRun(s, steps) && RunOf(s, steps) == t
    && (forall step <- steps :: !step.Accept? && GuardsAre(kept.guards, step))
    && (kept.fences ==> OwnFences(s, steps)) && (kept.wakes ==> ReadFences(s, steps))
  }

  ghost predicate Reaches(s: System, u: System, kept: Kept) {
    exists steps :: Leads(s, steps, u, kept)
  }

  /** One more step in front. */
  lemma First(s: System, step: Step, t: System, u: System, kept: Kept)
    requires Enabled(s, step) && Apply(s, step) == t && Reaches(t, u, kept)
    requires !step.Accept? && GuardsAre(kept.guards, step)
    requires (kept.fences ==> OwnFenceAt(s, step)) && (kept.wakes ==> ReadFenceAt(s, step))
    ensures Reaches(s, u, kept)
  {
    var rest :| Leads(t, rest, u, kept);
    assert ([step] + rest)[1..] == rest;
    assert Leads(s, [step] + rest, u, kept);
  }

  lemma Stays(u: System, kept: Kept)
    ensures Reaches(u, u, kept)
  {
    assert Leads(u, [], u, kept);
  }

  // ----- Single steps on such states -----

  lemma ClaimStep(s: System, t: System, w: WorkerId, duration: int, now: Time, row: Conversation, command: Command,
                  f1: Option<nat>, f2: Option<nat>, deliveries: seq<Delivery>, grants: set<Ownership>,
                  outstanding: set<CommandId>, log: seq<Event>, fence: nat)
    requires s == Snap(now, row, command, f1, f2, {}, deliveries, grants, outstanding, log)
    requires command.conversation == 0 && Claimable(command, now) && (w == 1 || w == 2)
    requires AcquireRow(row, now, w, duration) == Some(Owned(w, fence, now + duration))
    requires t == Snap(now, Owned(w, fence, now + duration), ClaimedCopy(command, w, now, duration), f1, f2,
                       {Claim(w, 7, 0, command.attempts + 1, fence)}, deliveries, grants + {Ownership(0, w, fence)},
                       outstanding, log + [Granted(0, fence, w)])
    ensures Enabled(s, ClaimCommand(w, 7, duration)) && Apply(s, ClaimCommand(w, 7, duration)) == t
  {
    assert {} + {Claim(w, 7, 0, command.attempts + 1, fence)} == {Claim(w, 7, 0, command.attempts + 1, fence)};
  }

  lemma SpawnStep(s: System, t: System, claim: Claim)
    requires s.claims == {claim} && claim.conversation == 0 && (claim.worker == 1 || claim.worker == 2)
    requires !RunningFor(s, claim.worker, claim.command)
    requires claim.worker in s.processors && s.processors[claim.worker] in {Worker(claim.worker, None), Worker(claim.worker, Some(claim.fence))}
    requires t == s.(claims := {}, deliveries := s.deliveries + [Delivery(claim, Waiting)],
                     processors := s.processors[claim.worker := Worker(claim.worker, Some(claim.fence))])
    ensures Enabled(s, Spawn(claim)) && Apply(s, Spawn(claim)) == t
  {
    assert {claim} - {claim} == {};
    assert SetFence(s.processors[claim.worker], 0, claim.fence) == Worker(claim.worker, Some(claim.fence));
  }

  lemma PhaseStep(s: System, d: nat, step: Step, phase: Phase)
    requires d < |s.deliveries| && 7 in s.db.commands && s.deliveries[d].claim.command == 7
    requires !Draining(s, s.deliveries[d].claim.worker)
    requires match step
             case TakeLock(x) => x == d && phase == Guarding && Enabled(s, step)
             case ReadGuard(x, present) => x == d && phase == Ready && s.deliveries[d].phase == Guarding && (present ==> !Closed(s.db.commands[7]))
             case TestDraining(x) => x == d && phase == Calling && s.deliveries[d].phase == Started
             case Finish(x) => x == d && phase == Done
             case _ => false
    ensures Enabled(s, step) && Apply(s, step) == AtPhase(s, d, phase) && OwnFenceAt(s, step) && ReadFenceAt(s, step)
  {
  }

  /** The state a delivery's started write leaves, but for the phase. */
  function WrittenUnder(kind: Kind, s: System, fence: nat): System
    requires 7 in s.db.commands
  {
    Logged(WriteRow(s, 7, Cmd(kind, DeliveryStarted, 0, None, None, Some(s.db.now))), Committed(0, fence))
  }

  lemma StartStep(kind: Kind, s: System, d: nat, fence: nat)
    requires d < |s.deliveries| && s.deliveries[d].phase.Ready? && s.deliveries[d].claim.command == 7
    requires s.deliveries[d].claim.conversation == 0 && 7 in s.db.commands && WriteAccepted(s, d)
    requires FenceOf(s, s.deliveries[d].claim.worker, 0) == Fenced(s.deliveries[d].claim.worker, fence)
    ensures var step := WriteStarted(d, Cmd(kind, DeliveryStarted, 0, None, None, Some(s.db.now)));
            Enabled(s, step) && Apply(s, step) == AtPhase(WrittenUnder(kind, s, fence), d, Started)
  {
  }

  /** A delivery past its guard whose fence is accepted runs through to the draining test. */
  lemma StarterLeads(kind: Kind, s: System, d: nat, fence: nat, u: System, kept: Kept)
    requires d < |s.deliveries| && s.deliveries[d].phase.Ready? && s.deliveries[d].claim.command == 7
    requires s.deliveries[d].claim.conversation == 0 && 7 in s.db.commands
    requires WriteAccepted(s, d) && !Draining(s, s.deliveries[d].claim.worker)
    requires FenceOf(s, s.deliveries[d].claim.worker, 0) == Fenced(s.deliveries[d].claim.worker, fence)
    requires kept.fences ==> UsesOwnFence(s, d)
    requires Reaches(AtPhase(WrittenUnder(kind, s, fence), d, Calling), u, kept)
    ensures Reaches(s, u, kept)
  {
    var copy := Cmd(kind, DeliveryStarted, 0, None, None, Some(s.db.now));
    var r := WrittenUnder(kind, s, fence);
    var a, b := AtPhase(r, d, Started), AtPhase(r, d, Calling);
    StartStep(kind, s, d, fence);
    PhaseStep(a, d, TestDraining(d), Calling);
    assert AtPhase(a, d, Calling).deliveries == b.deliveries;
    First(a, TestDraining(d), b, u, kept);
    First(s, WriteStarted(d, copy), a, u, kept);
  }

  /** And on to its call. */
  lemma WriterLeads(kind: Kind, s: System, d: nat, fence: nat, u: System, kept: Kept)
    requires d < |s.deliveries| && s.deliveries[d].phase.Ready? && s.deliveries[d].claim.command == 7
    requires s.deliveries[d].claim.conversation == 0 && 7 in s.db.commands
    requires WriteAccepted(s, d) && !Draining(s, s.deliveries[d].claim.worker)
    requires FenceOf(s, s.deliveries[d].claim.worker, 0) == Fenced(s.deliveries[d].claim.worker, fence)
    requires kept.fences ==> UsesOwnFence(s, d)
    requires Reaches(Logged(AtPhase(WrittenUnder(kind, s, fence), d, Called), AdapterCall(7, d)), u, kept)
    ensures Reaches(s, u, kept)
  {
    var r := WrittenUnder(kind, s, fence);
    var b, c := AtPhase(r, d, Calling), Logged(AtPhase(r, d, Called), AdapterCall(7, d));
    CallStep(b, d, r);
    First(b, CallAdapter(d), c, u, kept);
    StarterLeads(kind, s, d, fence, u, kept);
  }

  lemma CallStep(b: System, d: nat, r: System)
    requires d < |r.deliveries| && b == AtPhase(r, d, Calling) && r.deliveries[d].claim.command == 7
    ensures Enabled(b, CallAdapter(d)) && Apply(b, CallAdapter(d)) == Logged(AtPhase(r, d, Called), AdapterCall(7, d))
  {
    assert b.deliveries[d := b.deliveries[d].(phase := Called)] == AtPhase(r, d, Called).deliveries;
  }

  // ----- A stalled delivery that writes under a later fence of its own worker -----

  const FOREIGN := Kept(AllPresent, false, true)
  const ABSENT := Kept(AnyGuards, true, true)
  const STALE := Kept(AllPresent, true, false)
  const FREE := Conversation(None, 0, None, true, false)
  const C1 := Claim(1, 7, 0, 1, 1)
  const C2 := Claim(2, 7, 0, 2, 2)
  const G1 := Granted(0, 1, 1)
  const G2 := Granted(0, 2, 2)
  const G3 := Granted(0, 3, 1)

  function Start(kind: Kind): System {
    Snap(0, FREE, Cmd(kind, Accepted, 0, None, None, None), None, None, {}, [], {}, {}, [])
  }

  /** Worker 1 holds fence 1 and its delivery is past the guard. */
  function OneReady(kind: Kind, now: Time): System {
    Snap(now, Owned(1, 1, 0), Cmd(kind, Claimed, 1, Some(0), Some(1), None), Some(1), None,
         {}, [Delivery(C1, Ready)], {Ownership(0, 1, 1)}, {}, [G1])
  }

  /** The lease ran out; worker 2 holds fence 2 and its delivery is past the guard too. */
  function BothReady(kind: Kind): System {
    Snap(1, Owned(2, 2, 1), Cmd(kind, Claimed, 2, Some(1), Some(2), None), Some(1), Some(2),
         {}, [Delivery(C1, Ready), Delivery(C2, Ready)], {Ownership(0, 1, 1), Ownership(0, 2, 2)}, {}, [G1, G2])
  }

  /** Worker 2 has called the adapter, and time has moved past its lease. */
  function SecondCalled(kind: Kind, now: Time): System {
    Snap(now, Owned(2, 2, 1), Cmd(kind, DeliveryStarted, 2, Some(1), Some(2), Some(1)), Some(1), Some(2),
         {}, [Delivery(C1, Ready), Delivery(C2, Called)], {Ownership(0, 1, 1), Ownership(0, 2, 2)}, {7},
         [G1, G2, Committed(0, 2), AdapterCall(7, 1)])
  }

  /** Worker 1 has taken the conversation back under fence 3, which `f1` may or may not know yet. */
  function Regained(kind: Kind, f1: nat): System {
    Snap(2, Owned(1, 3, 12), Cmd(kind, DeliveryStarted, 2, Some(1), Some(2), Some(1)), Some(f1), Some(2),
         {}, [Delivery(C1, Ready), Delivery(C2, Called)], {Ownership(0, 1, 1), Ownership(0, 2, 2), Ownership(0, 1, 3)}, {7},
         [G1, G2, Committed(0, 2), AdapterCall(7, 1), G3])
  }

  /** Worker 1's first delivery has called the adapter as well. */
  function FirstCalledToo(kind: Kind): System {
    Logged(AtPhase(WrittenUnder(kind, Regained(kind, 3), 3), 0, Called), AdapterCall(7, 0))
  }

  lemma RememberStep(kind: Kind)
    ensures Enabled(Regained(kind, 1), RememberFence(1, 0, 3)) && Apply(Regained(kind, 1), RememberFence(1, 0, 3)) == Regained(kind, 3)
  {
    assert SetFence(Worker(1, Some(1)), 0, 3) == Worker(1, Some(3));
  }

  lemma TakeOverStep(kind: Kind)
    ensures Enabled(SecondCalled(kind, 2), TakeOver(1, 0, 10)) && Apply(SecondCalled(kind, 2), TakeOver(1, 0, 10)) == Regained(kind, 1)
  {
    assert SecondCalled(kind, 2).db.conversations[0 := Owned(1, 3, 12)] == Regained(kind, 1).db.conversations;
    assert SecondCalled(kind, 2).grants + {Ownership(0, 1, 3)} == Regained(kind, 1).grants;
  }

  lemma SecondTickStep(kind: Kind)
    ensures Enabled(SecondCalled(kind, 1), Tick(1)) && Apply(SecondCalled(kind, 1), Tick(1)) == SecondCalled(kind, 2)
  {
  }

  lemma RegainedLeads(kind: Kind)
    ensures Reaches(Regained(kind, 3), FirstCalledToo(kind), FOREIGN)
  {
    Stays(FirstCalledToo(kind), FOREIGN);
    WriterLeads(kind, Regained(kind, 3), 0, 3, FirstCalledToo(kind), FOREIGN);
  }

  lemma RegainLeads(kind: Kind)
    ensures Reaches(SecondCalled(kind, 1), FirstCalledToo(kind), FOREIGN)
  {
    var u := FirstCalledToo(kind);
    RegainedLeads(kind);
    RememberStep(kind);
    First(Regained(kind, 1), RememberFence(1, 0, 3), Regained(kind, 3), u, FOREIGN);
    TakeOverStep(kind);
    First(SecondCalled(kind, 2), TakeOver(1, 0, 10), Regained(kind, 1), u, FOREIGN);
    SecondTickStep(kind);
    First(SecondCalled(kind, 1), Tick(1), SecondCalled(kind, 2), u, FOREIGN);
  }

  lemma SecondCalledState(kind: Kind)
    ensures Logged(AtPhase(WrittenUnder(kind, BothReady(kind), 2), 1, Called), AdapterCall(7, 1)) == SecondCalled(kind, 1)
  {
    assert WrittenUnder(kind, BothReady(kind), 2).db.commands == SecondCalled(kind, 1).db.commands;
  }

  lemma SecondCallLeads(kind: Kind)
    ensures Reaches(BothReady(kind), FirstCalledToo(kind), FOREIGN)
  {
    RegainLeads(kind);
    SecondCalledState(kind);
    WriterLeads(kind, BothReady(kind), 1, 2, FirstCalledToo(kind), FOREIGN);
  }

  /** A claim by `w` that goes through to a ready delivery. */
  lemma ClaimLeads(s: System, t: System, w: WorkerId, duration: int, now: Time, row: Conversation, command: Command,
                   f1: Option<nat>, f2: Option<nat>, deliveries: seq<Delivery>, grants: set<Ownership>, log: seq<Event>, fence: nat,
                   u: System, kept: Kept)
    requires s == Snap(now, row, command, f1, f2, {}, deliveries, grants, {}, log)
    requires command.conversation == 0 && Claimable(command, now) && command.startedAt.None? && (w == 1 || w == 2)
    requires (if w == 1 then f1 else f2) in {None, Some(fence)} && !RunningFor(s, w, 7) && LockFree(s, w, 0)
    requires AcquireRow(row, now, w, duration) == Some(Owned(w, fence, now + duration))
    requires t == Snap(now, Owned(w, fence, now + duration), ClaimedCopy(command, w, now, duration),
                       if w == 1 then Some(fence) else f1, if w == 2 then Some(fence) else f2, {},
                       deliveries + [Delivery(Claim(w, 7, 0, command.attempts + 1, fence), Ready)],
                       grants + {Ownership(0, w, fence)}, {}, log + [Granted(0, fence, w)])
    requires Reaches(t, u, kept) && !kept.guards.AllAbsent?
    ensures Reaches(s, u, kept)
  {
    var claim := Claim(w, 7, 0, command.attempts + 1, fence);
    var a := Snap(now, Owned(w, fence, now + duration), ClaimedCopy(command, w, now, duration), f1, f2, {claim},
                  deliveries, grants + {Ownership(0, w, fence)}, {}, log + [Granted(0, fence, w)]);
    ClaimStep(s, a, w, duration, now, row, command, f1, f2, deliveries, grants, {}, log, fence);
    SameDeliveries(s, a, w);
    WorkersAfter(w, f1, f2, fence);
    SpawnAndGuardLead(a, t.(deliveries := deliveries + [Delivery(claim, Waiting)]), t, claim, |deliveries|, u, kept);
    First(s, ClaimCommand(w, 7, duration), a, u, kept);
  }

  lemma SameDeliveries(s: System, a: System, w: WorkerId)
    requires a.deliveries == s.deliveries && a.wakes == s.wakes
    ensures RunningFor(a, w, 7) == RunningFor(s, w, 7) && LockFree(a, w, 0) == LockFree(s, w, 0)
  {
    assert forall d: nat :: Locks(a, d) == Locks(s, d);
  }

  lemma WorkersAfter(w: WorkerId, f1: Option<nat>, f2: Option<nat>, fence: nat)
    requires w == 1 || w == 2
    ensures var workers := map[1 := Worker(1, f1), 2 := Worker(2, f2)];
            workers[w := Worker(w, Some(fence))] ==
            map[1 := Worker(1, if w == 1 then Some(fence) else f1), 2 := Worker(2, if w == 2 then Some(fence) else f2)]
  {
  }

  lemma SpawnAndGuardLead(a: System, b: System, t: System, claim: Claim, d: nat, u: System, kept: Kept)
    requires a.claims == {claim} && claim.command == 7 && claim.conversation == 0 && (claim.worker == 1 || claim.worker == 2)
    requires !RunningFor(a, claim.worker, 7) && LockFree(a, claim.worker, 0) && d == |a.deliveries|
    requires claim.worker in a.processors && a.processors[claim.worker] in {Worker(claim.worker, None), Worker(claim.worker, Some(claim.fence))}
    requires b == a.(claims := {}, deliveries := a.deliveries + [Delivery(claim, Waiting)],
                     processors := a.processors[claim.worker := Worker(claim.worker, Some(claim.fence))])
    requires t == b.(deliveries := a.deliveries + [Delivery(claim, Ready)])
    requires 7 in a.db.commands && !Closed(a.db.commands[7]) && Reaches(t, u, kept) && !kept.guards.AllAbsent?
    ensures Reaches(a, u, kept)
  {
    var c := b.(deliveries := a.deliveries + [Delivery(claim, Guarding)]);
    SpawnStep(a, b, claim);
    LockStep(a, b, claim, d);
    LockedStep(b, c, claim, d);
    GuardedStep(c, t, claim, d);
    First(c, ReadGuard(d, true), t, u, kept);
    First(b, TakeLock(d), c, u, kept);
    First(a, Spawn(claim), b, u, kept);
  }

  lemma LockedStep(b: System, c: System, claim: Claim, d: nat)
    requires Enabled(b, TakeLock(d)) && 7 in b.db.commands && claim.command == 7 && !Draining(b, claim.worker)
    requires b.deliveries[d] == Delivery(claim, Waiting) && c == b.(deliveries := c.deliveries)
    requires c.deliveries == b.deliveries[..d] + [Delivery(claim, Guarding)] && d == |b.deliveries| - 1
    ensures Apply(b, TakeLock(d)) == c
  {
    assert b.deliveries[d := Delivery(claim, Guarding)] == c.deliveries;
    PhaseStep(b, d, TakeLock(d), Guarding);
  }

  lemma GuardedStep(c: System, t: System, claim: Claim, d: nat)
    requires d == |c.deliveries| - 1 && 7 in c.db.commands && !Closed(c.db.commands[7]) && claim.command == 7 && !Draining(c, claim.worker)
    requires c.deliveries[d] == Delivery(claim, Guarding) && t == c.(deliveries := t.deliveries)
    requires t.deliveries == c.deliveries[..d] + [Delivery(claim, Ready)]
    ensures Enabled(c, ReadGuard(d, true)) && Apply(c, ReadGuard(d, true)) == t
  {
    assert c.deliveries[d := Delivery(claim, Ready)] == t.deliveries;
    PhaseStep(c, d, ReadGuard(d, true), Ready);
  }

  /** A delivery that was just spawned gets a free lock. */
  lemma LockStep(a: System, b: System, claim: Claim, d: nat)
    requires LockFree(a, claim.worker, claim.conversation) && d == |a.deliveries| && b.wakes == a.wakes
    requires b.deliveries == a.deliveries + [Delivery(claim, Waiting)]
    ensures Enabled(b, TakeLock(d))
  {
    assert forall e: nat | Locks(b, e) :: Locks(a, e) && b.deliveries[e] == a.deliveries[e];
  }

  lemma SecondClaimLeads(kind: Kind)
    ensures Reaches(OneReady(kind, 1), FirstCalledToo(kind), FOREIGN)
  {
    SecondCallLeads(kind);
    var s := OneReady(kind, 1);
    ClaimLeads(s, BothReady(kind), 2, 0, 1, Owned(1, 1, 0), Cmd(kind, Claimed, 1, Some(0), Some(1), None), Some(1), None,
               [Delivery(C1, Ready)], {Ownership(0, 1, 1)}, [G1], 2, FirstCalledToo(kind), FOREIGN);
  }

  /** From the start to worker 1's delivery past its guard. */
  lemma FirstClaimLeads(kind: Kind, u: System, kept: Kept)
    requires Reaches(OneReady(kind, 0), u, kept) && !kept.guards.AllAbsent?
    ensures Reaches(Start(kind), u, kept)
  {
    ClaimLeads(Start(kind), OneReady(kind, 0), 1, 0, 0, FREE, Cmd(kind, Accepted, 0, None, None, None), None, None, [], {}, [], 1, u, kept);
  }

  lemma StartIsInitial(kind: Kind)
    ensures Initial(Start(kind))
  {
  }

  lemma TwoCalls(kind: Kind, steps: seq<Step>, u: System, kept: Kept, i: nat, j: nat)
    requires Leads(Start(kind), steps, u, kept)
    requires i < j < |u.log| && IsCall(u.log[i], 7) && IsCall(u.log[j], 7)
    requires forall k | i < k < j :: !IsRelease(u.log[k], 7)
    ensures CallsTwice(Start(kind), steps)
  {
    StartIsInitial(kind);
  }

  /**
   * Worker 1 stalls past its lease, worker 2 delivers, worker 1 regains the conversation and its
   * stalled delivery then writes under the new fence: a second call, with every guard read present.
   */
  lemma ForeignFenceCallsTwice(kind: Kind)
    ensures exists steps :: CallsTwice(Start(kind), steps) && GuardsPresent(steps) && ReadFences(Start(kind), steps)
  {
    SecondClaimLeads(kind);
    var u := FirstCalledToo(kind);
    First(OneReady(kind, 0), Tick(1), OneReady(kind, 1), u, FOREIGN);
    FirstClaimLeads(kind, u, FOREIGN);
    var steps :| Leads(Start(kind), steps, u, FOREIGN);
    assert u.log == [G1, G2, Committed(0, 2), AdapterCall(7, 1), G3, Committed(0, 3), AdapterCall(7, 0)];
    TwoCalls(kind, steps, u, FOREIGN, 3, 6);
  }

  // ----- A command the aggregate does not list -----

  const C3 := Claim(1, 7, 0, 2, 1)

  /** The heartbeat kept the conversation, the command's own lease ran out, and it was claimed again. */
  function Reclaimed(kind: Kind): System {
    Snap(1, Owned(1, 1, 11), Cmd(kind, Claimed, 2, Some(11), Some(1), None), Some(1), None,
         {C3}, [Delivery(C1, Ready)], {Ownership(0, 1, 1)}, {}, [G1, G1])
  }

  function CalledOnce(kind: Kind, first: Phase, claims: set<Claim>, more: seq<Delivery>): System {
    Snap(1, Owned(1, 1, 11), Cmd(kind, DeliveryStarted, 2, Some(11), Some(1), Some(1)), Some(1), None,
         claims, [Delivery(C1, first)] + more, {Ownership(0, 1, 1)}, {7},
         [G1, G1, Committed(0, 1), AdapterCall(7, 0)])
  }

  function CalledAgain(kind: Kind): System {
    Logged(AtPhase(WrittenUnder(kind, CalledOnce(kind, Done, {}, [Delivery(C3, Ready)]), 1), 1, Called), AdapterCall(7, 1))
  }

  lemma AbsentGuardLeads(kind: Kind, kept: Kept)
    requires !kept.guards.AllPresent?
    ensures Reaches(CalledOnce(kind, Done, {}, [Delivery(C3, Guarding)]), CalledAgain(kind), kept)
  {
    var u := CalledAgain(kind);
    var d, l := CalledOnce(kind, Done, {}, [Delivery(C3, Ready)]), CalledOnce(kind, Done, {}, [Delivery(C3, Guarding)]);
    Stays(u, kept);
    WriterLeads(kind, d, 1, 1, u, kept);
    PhaseStep(l, 1, ReadGuard(1, false), Ready);
    assert l.deliveries[1 := Delivery(C3, Ready)] == d.deliveries;
    First(l, ReadGuard(1, false), d, u, kept);
  }

  lemma SecondSpawnLeads(kind: Kind, kept: Kept)
    requires !kept.guards.AllPresent?
    ensures Reaches(CalledOnce(kind, Done, {C3}, []), CalledAgain(kind), kept)
  {
    AbsentGuardLeads(kind, kept);
    var u, b := CalledAgain(kind), CalledOnce(kind, Done, {C3}, []);
    var c, l := CalledOnce(kind, Done, {}, [Delivery(C3, Waiting)]), CalledOnce(kind, Done, {}, [Delivery(C3, Guarding)]);
    assert !RunningFor(b, 1, 7) && LockFree(b, 1, 0);
    SpawnStep(b, c, C3);
    LockStep(b, c, C3, 1);
    PhaseStep(c, 1, TakeLock(1), Guarding);
    assert c.deliveries[1 := Delivery(C3, Guarding)] == l.deliveries;
    First(c, TakeLock(1), l, u, kept);
    First(b, Spawn(C3), c, u, kept);
  }

  /** From the first call on, with every guard finding the command absent. */
  lemma SecondDeliveryLeads(kind: Kind, kept: Kept)
    requires !kept.guards.AllPresent?
    ensures Reaches(CalledOnce(kind, Called, {C3}, []), CalledAgain(kind), kept)
  {
    SecondSpawnLeads(kind, kept);
    var a, b := CalledOnce(kind, Called, {C3}, []), CalledOnce(kind, Done, {C3}, []);
    PhaseStep(a, 0, Finish(0), Done);
    assert a.deliveries[0 := Delivery(C1, Done)] == b.deliveries;
    First(a, Finish(0), b, CalledAgain(kind), kept);
  }

  lemma FirstDeliveryLeads(kind: Kind, u: System, kept: Kept)
    requires Reaches(CalledOnce(kind, Called, {C3}, []), u, kept)
    ensures Reaches(Reclaimed(kind), u, kept)
  {
    var t := CalledOnce(kind, Called, {C3}, []);
    assert Logged(AtPhase(WrittenUnder(kind, Reclaimed(kind), 1), 0, Called), AdapterCall(7, 0)) == t;
    WriterLeads(kind, Reclaimed(kind), 0, 1, u, kept);
  }

  function Renewed(kind: Kind, now: Time): System {
    Snap(now, Owned(1, 1, 10), Cmd(kind, Claimed, 1, Some(0), Some(1), None), Some(1), None,
         {}, [Delivery(C1, Ready)], {Ownership(0, 1, 1)}, {}, [G1])
  }

  lemma ReclaimStep(kind: Kind)
    ensures Enabled(Renewed(kind, 1), ClaimCommand(1, 7, 10)) && Apply(Renewed(kind, 1), ClaimCommand(1, 7, 10)) == Reclaimed(kind)
  {
    assert {Ownership(0, 1, 1)} + {Ownership(0, 1, 1)} == {Ownership(0, 1, 1)};
    ClaimStep(Renewed(kind, 1), Reclaimed(kind), 1, 10, 1, Owned(1, 1, 10), Cmd(kind, Claimed, 1, Some(0), Some(1), None), Some(1), None,
              [Delivery(C1, Ready)], {Ownership(0, 1, 1)}, {}, [G1], 1);
  }

  lemma RenewStep(kind: Kind)
    ensures Enabled(OneReady(kind, 0), RenewLeases(1, 10)) && Apply(OneReady(kind, 0), RenewLeases(1, 10)) == Renewed(kind, 0)
  {
    assert RenewOwned(OneReady(kind, 0).db, 1, 10).conversations == Renewed(kind, 0).db.conversations;
  }

  lemma RenewedTickStep(kind: Kind)
    ensures Enabled(Renewed(kind, 0), Tick(1)) && Apply(Renewed(kind, 0), Tick(1)) == Renewed(kind, 1)
  {
  }

  lemma ReclaimLeads(kind: Kind, u: System, kept: Kept)
    requires Reaches(CalledOnce(kind, Called, {C3}, []), u, kept)
    ensures Reaches(OneReady(kind, 0), u, kept)
  {
    FirstDeliveryLeads(kind, u, kept);
    ReclaimStep(kind);
    First(Renewed(kind, 1), ClaimCommand(1, 7, 10), Reclaimed(kind), u, kept);
    RenewedTickStep(kind);
    First(Renewed(kind, 0), Tick(1), Renewed(kind, 1), u, kept);
    RenewStep(kind);
    First(OneReady(kind, 0), RenewLeases(1, 10), Renewed(kind, 0), u, kept);
  }

  /** From the start to the first call, with every guard finding the command. */
  lemma FirstCallLeads(kind: Kind)
    ensures Reaches(Start(kind), CalledOnce(kind, Called, {C3}, []), Kept(AllPresent, true, true))
  {
    var t, kept := CalledOnce(kind, Called, {C3}, []), Kept(AllPresent, true, true);
    Stays(t, kept);
    ReclaimLeads(kind, t, kept);
    FirstClaimLeads(kind, t, kept);
  }

  lemma CalledAgainLog(kind: Kind)
    ensures CalledAgain(kind).log == [G1, G1, Committed(0, 1), AdapterCall(7, 0), Committed(0, 1), AdapterCall(7, 1)]
    ensures !AtMostOncePerRelease(CalledAgain(kind).log)
  {
    var log := CalledAgain(kind).log;
    assert IsCall(log[3], 7) && IsCall(log[5], 7) && !IsRelease(log[4], 7);
  }

  /**
   * A command missing from the aggregate skips the guard: re-claimed while its first delivery runs,
   * it is called again under the same, proper fence once that delivery has finished.
   */
  lemma AbsentCommandCallsTwice(kind: Kind)
    ensures exists steps :: CallsTwice(Start(kind), steps) && OwnFences(Start(kind), steps) && ReadFences(Start(kind), steps)
  {
    var u := CalledAgain(kind);
    SecondDeliveryLeads(kind, ABSENT);
    ReclaimLeads(kind, u, ABSENT);
    FirstClaimLeads(kind, u, ABSENT);
    var steps :| Leads(Start(kind), steps, u, ABSENT);
    CalledAgainLog(kind);
    TwoCalls(kind, steps, u, ABSENT, 3, 5);
  }

  // ----- A wake that is written under a later fence -----

  const C4 := Claim(1, 7, 0, 3, 3)

  /** What worker 1's pump decided on: a release read under fence 1. */
  function Wake(kind: Kind): PendingWake {
    PendingWake(1, Fenced(1, 1), 7, Cmd(kind, Accepted, 2, None, None, None))
  }

  /** Worker 1 holds fence 1, and its delivery ended before it took the lock. */
  function OneEnded(kind: Kind, now: Time): System {
    Snap(now, Owned(1, 1, 0), Cmd(kind, Claimed, 1, Some(0), Some(1), None), Some(1), None,
         {}, [Delivery(C1, Done)], {Ownership(0, 1, 1)}, {}, [G1])
  }

  /** The lease ran out; worker 2's delivery is past the guard, and worker 1's pump may have read the command. */
  function TwoReady(kind: Kind, wakes: set<PendingWake>): System {
    Snap(1, Owned(2, 2, 1), Cmd(kind, Claimed, 2, Some(1), Some(2), None), Some(1), Some(2),
         {}, [Delivery(C1, Done), Delivery(C2, Ready)], {Ownership(0, 1, 1), Ownership(0, 2, 2)}, {}, [G1, G2]).(wakes := wakes)
  }

  /** Worker 2 is about to call the adapter. */
  function TwoCalling(kind: Kind, now: Time): System {
    Snap(now, Owned(2, 2, 1), Cmd(kind, DeliveryStarted, 2, Some(1), Some(2), Some(1)), Some(1), Some(2),
         {}, [Delivery(C1, Done), Delivery(C2, Calling)], {Ownership(0, 1, 1), Ownership(0, 2, 2)}, {},
         [G1, G2, Committed(0, 2)]).(wakes := {Wake(kind)})
  }

  /** Worker 1 has taken the conversation back under fence 3. */
  function Retaken(kind: Kind, f1: nat): System {
    Snap(2, Owned(1, 3, 12), Cmd(kind, DeliveryStarted, 2, Some(1), Some(2), Some(1)), Some(f1), Some(2),
         {}, [Delivery(C1, Done), Delivery(C2, Calling)], {Ownership(0, 1, 1), Ownership(0, 2, 2), Ownership(0, 1, 3)}, {},
         [G1, G2, Committed(0, 2), G3]).(wakes := {Wake(kind)})
  }

  /** The wake reopened the command, which erased worker 2's started mark. */
  function Reopened(kind: Kind): System {
    Snap(2, Owned(1, 3, 12), Cmd(kind, Accepted, 2, None, None, None), Some(3), Some(2),
         {}, [Delivery(C1, Done), Delivery(C2, Calling)], {Ownership(0, 1, 1), Ownership(0, 2, 2), Ownership(0, 1, 3)}, {},
         [G1, G2, Committed(0, 2), G3, Released(7, 0, Fenced(1, 3))])
  }

  /** Worker 1 has claimed the command again, and its delivery is past the guard. */
  function ReadyAgain(kind: Kind): System {
    Snap(2, Owned(1, 3, 12), Cmd(kind, Claimed, 3, Some(12), Some(1), None), Some(3), Some(2),
         {}, [Delivery(C1, Done), Delivery(C2, Calling), Delivery(C4, Ready)],
         {Ownership(0, 1, 1), Ownership(0, 2, 2), Ownership(0, 1, 3)}, {},
         [G1, G2, Committed(0, 2), G3, Released(7, 0, Fenced(1, 3)), G3])
  }

  function ThirdCalled(kind: Kind): System {
    Logged(AtPhase(WrittenUnder(kind, ReadyAgain(kind), 3), 2, Called), AdapterCall(7, 2))
  }

  function SecondCalledLate(kind: Kind): System {
    Logged(AtPhase(ThirdCalled(kind), 1, Called), AdapterCall(7, 1))
  }

  lemma LateCallStep(kind: Kind)
    ensures Enabled(ThirdCalled(kind), CallAdapter(1)) && Apply(ThirdCalled(kind), CallAdapter(1)) == SecondCalledLate(kind)
  {
  }

  lemma LateCallLeads(kind: Kind)
    ensures Reaches(ReadyAgain(kind), SecondCalledLate(kind), STALE)
  {
    var u := SecondCalledLate(kind);
    Stays(u, STALE);
    LateCallStep(kind);
    First(ThirdCalled(kind), CallAdapter(1), u, u, STALE);
    WriterLeads(kind, ReadyAgain(kind), 2, 3, u, STALE);
  }

  lemma ReopenedLeads(kind: Kind)
    ensures Reaches(Reopened(kind), SecondCalledLate(kind), STALE)
  {
    LateCallLeads(kind);
    var u := SecondCalledLate(kind);
    var deliveries := [Delivery(C1, Done), Delivery(C2, Calling)];
    var grants := {Ownership(0, 1, 1), Ownership(0, 2, 2), Ownership(0, 1, 3)};
    assert grants + {Ownership(0, 1, 3)} == grants;
    ClaimLeads(Reopened(kind), ReadyAgain(kind), 1, 10, 2, Owned(1, 3, 12), Cmd(kind, Accepted, 2, None, None, None), Some(3), Some(2),
               deliveries, grants, Reopened(kind).log, 3, u, STALE);
  }

  lemma WakePasses(kind: Kind)
    ensures FenceOf(Retaken(kind, 3), 1, 0) == Fenced(1, 3) && Accepts(Retaken(kind, 3), 0, Fenced(1, 3))
  {
  }

  lemma WakeReopens(kind: Kind)
    ensures var s := Retaken(kind, 3).(wakes := {});
            ReleaseWrite(s, 7, Wake(kind).copy, Fenced(1, 3), Released(7, 0, Fenced(1, 3))) == Reopened(kind)
  {
    assert Retaken(kind, 3).db.commands[7 := Wake(kind).copy] == Reopened(kind).db.commands;
    assert Retaken(kind, 3).outstanding - {7} == {};
  }

  lemma WakeCommits(kind: Kind)
    ensures ApplyCommitWake(Retaken(kind, 3), Wake(kind)) == Reopened(kind)
  {
    assert {Wake(kind)} - {Wake(kind)} == {};
    WakePasses(kind);
    WakeReopens(kind);
  }

  lemma CommitWakeStep(s: System, wake: PendingWake)
    requires wake in s.wakes && wake.id in s.db.commands
    ensures Enabled(s, CommitWake(wake)) && Apply(s, CommitWake(wake)) == ApplyCommitWake(s, wake)
  {
  }

  lemma WakeStep(kind: Kind)
    ensures Enabled(Retaken(kind, 3), CommitWake(Wake(kind))) && Apply(Retaken(kind, 3), CommitWake(Wake(kind))) == Reopened(kind)
  {
    WakeCommits(kind);
    CommitWakeStep(Retaken(kind, 3), Wake(kind));
  }

  lemma RetakeStep(kind: Kind)
    ensures Enabled(TwoCalling(kind, 2), TakeOver(1, 0, 10)) && Apply(TwoCalling(kind, 2), TakeOver(1, 0, 10)) == Retaken(kind, 1)
  {
    assert TwoCalling(kind, 2).db.conversations[0 := Owned(1, 3, 12)] == Retaken(kind, 1).db.conversations;
    assert TwoCalling(kind, 2).grants + {Ownership(0, 1, 3)} == Retaken(kind, 1).grants;
  }

  lemma RememberRetakenStep(kind: Kind)
    ensures Enabled(Retaken(kind, 1), RememberFence(1, 0, 3)) && Apply(Retaken(kind, 1), RememberFence(1, 0, 3)) == Retaken(kind, 3)
  {
    assert SetFence(Worker(1, Some(1)), 0, 3) == Worker(1, Some(3));
  }

  lemma LateTickStep(kind: Kind)
    ensures Enabled(TwoCalling(kind, 1), Tick(1)) && Apply(TwoCalling(kind, 1), Tick(1)) == TwoCalling(kind, 2)
  {
  }

  lemma RetakeLeads(kind: Kind)
    ensures Reaches(TwoCalling(kind, 1), SecondCalledLate(kind), STALE)
  {
    var u := SecondCalledLate(kind);
    ReopenedLeads(kind);
    WakeStep(kind);
    First(Retaken(kind, 3), CommitWake(Wake(kind)), Reopened(kind), u, STALE);
    RememberRetakenStep(kind);
    First(Retaken(kind, 1), RememberFence(1, 0, 3), Retaken(kind, 3), u, STALE);
    RetakeStep(kind);
    First(TwoCalling(kind, 2), TakeOver(1, 0, 10), Retaken(kind, 1), u, STALE);
    LateTickStep(kind);
    First(TwoCalling(kind, 1), Tick(1), TwoCalling(kind, 2), u, STALE);
  }

  lemma ReadWakeStep(kind: Kind)
    ensures Enabled(TwoReady(kind, {}), ReadWake(1, 7)) && Apply(TwoReady(kind, {}), ReadWake(1, 7)) == TwoReady(kind, {Wake(kind)})
  {
    assert {} + {Wake(kind)} == {Wake(kind)};
  }

  lemma SecondStartedState(kind: Kind)
    ensures AtPhase(WrittenUnder(kind, TwoReady(kind, {Wake(kind)}), 2), 1, Calling) == TwoCalling(kind, 1)
  {
  }

  lemma StartSecondLeads(kind: Kind)
    ensures Reaches(TwoReady(kind, {Wake(kind)}), SecondCalledLate(kind), STALE)
  {
    RetakeLeads(kind);
    var u := SecondCalledLate(kind);
    SecondStartedState(kind);
    StarterLeads(kind, TwoReady(kind, {Wake(kind)}), 1, 2, u, STALE);
  }

  lemma ReadWakeLeads(kind: Kind)
    ensures Reaches(TwoReady(kind, {}), SecondCalledLate(kind), STALE)
  {
    StartSecondLeads(kind);
    ReadWakeStep(kind);
    First(TwoReady(kind, {}), ReadWake(1, 7), TwoReady(kind, {Wake(kind)}), SecondCalledLate(kind), STALE);
  }

  lemma EndedLeads(kind: Kind)
    ensures Reaches(OneEnded(kind, 1), SecondCalledLate(kind), STALE)
  {
    ReadWakeLeads(kind);
    var u := SecondCalledLate(kind);
    ClaimLeads(OneEnded(kind, 1), TwoReady(kind, {}), 2, 0, 1, Owned(1, 1, 0), Cmd(kind, Claimed, 1, Some(0), Some(1), None), Some(1), None,
               [Delivery(C1, Done)], {Ownership(0, 1, 1)}, [G1], 2, u, STALE);
  }

  /** Worker 1's first claim, before and after its spawn. */
  function OneClaimed(kind: Kind): System {
    Snap(0, Owned(1, 1, 0), Cmd(kind, Claimed, 1, Some(0), Some(1), None), None, None, {C1}, [], {Ownership(0, 1, 1)}, {}, [G1])
  }

  function OneWaiting(kind: Kind): System {
    OneEnded(kind, 0).(deliveries := [Delivery(C1, Waiting)])
  }

  lemma EndedTickStep(kind: Kind)
    ensures Enabled(OneEnded(kind, 0), Tick(1)) && Apply(OneEnded(kind, 0), Tick(1)) == OneEnded(kind, 1)
  {
  }

  lemma EndStep(kind: Kind)
    ensures Enabled(OneWaiting(kind), Finish(0)) && Apply(OneWaiting(kind), Finish(0)) == OneEnded(kind, 0)
  {
    PhaseStep(OneWaiting(kind), 0, Finish(0), Done);
    assert OneWaiting(kind).deliveries[0 := Delivery(C1, Done)] == OneEnded(kind, 0).deliveries;
  }

  lemma FirstSpawnStep(kind: Kind)
    ensures Enabled(OneClaimed(kind), Spawn(C1)) && Apply(OneClaimed(kind), Spawn(C1)) == OneWaiting(kind)
  {
    assert OneClaimed(kind).deliveries + [Delivery(C1, Waiting)] == OneWaiting(kind).deliveries;
    assert OneClaimed(kind).processors[1 := Worker(1, Some(1))] == OneWaiting(kind).processors;
    SpawnStep(OneClaimed(kind), OneWaiting(kind), C1);
  }

  lemma FirstClaimStep(kind: Kind)
    ensures Enabled(Start(kind), ClaimCommand(1, 7, 0)) && Apply(Start(kind), ClaimCommand(1, 7, 0)) == OneClaimed(kind)
  {
    assert {} + {Ownership(0, 1, 1)} == {Ownership(0, 1, 1)};
    ClaimStep(Start(kind), OneClaimed(kind), 1, 0, 0, FREE, Cmd(kind, Accepted, 0, None, None, None), None, None, [], {}, {}, [], 1);
  }

  lemma StartLeads(kind: Kind)
    ensures Reaches(Start(kind), SecondCalledLate(kind), STALE)
  {
    var u := SecondCalledLate(kind);
    EndedLeads(kind);
    EndedTickStep(kind);
    First(OneEnded(kind, 0), Tick(1), OneEnded(kind, 1), u, STALE);
    EndStep(kind);
    First(OneWaiting(kind), Finish(0), OneEnded(kind, 0), u, STALE);
    FirstSpawnStep(kind);
    First(OneClaimed(kind), Spawn(C1), OneWaiting(kind), u, STALE);
    FirstClaimStep(kind);
    First(Start(kind), ClaimCommand(1, 7, 0), OneClaimed(kind), u, STALE);
  }

  /**
   * A pump of worker 1 reads a queued command that worker 2 holds, worker 2 starts it, and worker 1
   * takes the conversation back before the wake is written: the new fence lets it pass, the started
   * mark is gone, and both workers call after it.
   */
  lemma StaleWakeCallsTwice()
    ensures exists steps :: CallsTwice(Start(SubmitTurn), steps) && GuardsPresent(steps) && OwnFences(Start(SubmitTurn), steps)
  {
    StartLeads(SubmitTurn);
    var u := SecondCalledLate(SubmitTurn);
    var steps :| Leads(Start(SubmitTurn), steps, u, STALE);
    assert u.log == [G1, G2, Committed(0, 2), G3, Released(7, 0, Fenced(1, 3)), G3, Committed(0, 3), AdapterCall(7, 2), AdapterCall(7, 1)];
    TwoCalls(SubmitTurn, steps, u, STALE, 7, 8);
  }
}
