// The fence bookkeeping of one command worker.
module Processors {
  import opened Wrappers
  import opened Commands

  datatype Processor = Processor(
    worker: Option<WorkerId>,
    fences: map<ConversationId, nat>,
    lost: set<ConversationId>,
    draining: bool)

  /** What `_fence_kwargs` lets a write carry. */
  datatype FenceUse = Unfenced | Fenced(worker: WorkerId, fence: nat) | Refused

  const FRESH := Processor(None, map[], {}, false)

  function SetFence(p: Processor, conversation: ConversationId, fence: nat): Processor {
    p.(fences := p.fences[conversation := fence], lost := p.lost - {conversation})
  }

  function DropFence(p: Processor, conversation: ConversationId): Processor {
    if conversation in p.fences then
      p.(fences := p.fences - {conversation}, lost := p.lost + {conversation})
    else p
  }

  function FenceFor(p: Processor, conversation: ConversationId): FenceUse {
    if conversation !in p.fences && conversation in p.lost then Refused
    else if p.worker.None? || conversation !in p.fences then Unfenced
    else Fenced(p.worker.value, p.fences[conversation])
  }

  datatype Op =
    | Initialize(id: WorkerId)
    | Install(conversation: ConversationId, fence: nat)
    | Drop(conversation: ConversationId)
    | BeginShutdown

  function ApplyOp(p: Processor, op: Op): Processor {
    match op
    case Initialize(id) => p.(worker := Some(id))
    case Install(conversation, fence) => SetFence(p, conversation, fence)
    case Drop(conversation) => DropFence(p, conversation)
    case BeginShutdown => p.(draining := true)
  }

  function ApplyOps(p: Processor, ops: seq<Op>): Processor
    decreases |ops|
  {
    if ops == [] then p else ApplyOps(ApplyOp(p, ops[0]), ops[1..])
  }

  predicate EverHeld(p: Processor, conversation: ConversationId) {
    conversation in p.fences || conversation in p.lost
  }

  ghost predicate KeepsHeld(before: Processor, after: Processor) {
    forall c | EverHeld(before, c) :: EverHeld(after, c)
  }

  /**
   * Once a conversation's fence was installed, no later sequence of operations lets a write for it
   * go out unfenced, unless the worker was never initialized.
   */
  lemma {:induction false} HeldFenceIsNeverForgotten(p: Processor, ops: seq<Op>, conversation: ConversationId)
    requires EverHeld(p, conversation) || exists fence :: Install(conversation, fence) in ops
    ensures EverHeld(ApplyOps(p, ops), conversation)
    ensures FenceFor(ApplyOps(p, ops), conversation).Unfenced?
       <==> conversation in ApplyOps(p, ops).fences && p.worker.None? && forall id :: Initialize(id) !in ops
    decreases |ops|
  {
    if ops != [] {
      assert forall op :: op in ops <==> op == ops[0] || op in ops[1..];
      HeldFenceIsNeverForgotten(ApplyOp(p, ops[0]), ops[1..], conversation);
      if ops[0].Initialize? {
        assert Initialize(ops[0].id) in ops;
      }
    }
  }

  datatype Spawned = Spawned(processor: Processor, running: map<CommandId, ConversationId>, started: seq<CommandId>)

  /** One row of a claim answer, and the tasks that ended while the loop awaited before it. */
  datatype ClaimRow = ClaimRow(command: Command, fence: nat, finished: set<CommandId>)

  /**
   * The claim loop over one answer of `claim_commands`: a command whose delivery still runs gets
   * no second task, and the fence of that claim is not installed either.
   */
  function SpawnRows(p: Processor, running: map<CommandId, ConversationId>, claimed: seq<ClaimRow>): Spawned {
    if claimed == [] then Spawned(p, running, [])
    else
      var before, row := SpawnRows(p, running, claimed[..|claimed| - 1]), claimed[|claimed| - 1];
      var still := before.running - row.finished;
      if row.command.id in still then before.(running := still)
      else
        Spawned(SetFence(before.processor, row.command.conversation, row.fence),
                still[row.command.id := row.command.conversation],
                before.started + [row.command.id])
  }

  predicate DistinctClaims(claimed: seq<ClaimRow>) {
    forall i, j | 0 <= i < j < |claimed| :: claimed[i].command.id != claimed[j].command.id
  }

  /** The task was running before the loop and has not ended by the i-th row. */
  predicate StillRuns(running: map<CommandId, ConversationId>, claimed: seq<ClaimRow>, i: nat, id: CommandId)
    requires i < |claimed|
  {
    id in running && forall k | 0 <= k <= i :: id !in claimed[k].finished
  }

  /** What is running once the loop is through: the old tasks and the new ones that have not ended. */
  lemma {:induction false} SpawnedIsRunning(p: Processor, running: map<CommandId, ConversationId>, claimed: seq<ClaimRow>, id: CommandId)
    requires forall row <- claimed :: row.command.id != id
    ensures var r := SpawnRows(p, running, claimed);
            && id !in r.started
            && (id in r.running <==> id in running && forall row <- claimed :: id !in row.finished)
  {
    if claimed != [] {
      var front, last := claimed[..|claimed| - 1], claimed[|claimed| - 1];
      assert claimed == front + [last];
      SpawnedIsRunning(p, running, front, id);
      assert forall row :: row in claimed <==> row in front || row == last;
    }
  }

  predicate StartedRightly(running: map<CommandId, ConversationId>, claimed: seq<ClaimRow>, r: Spawned, i: nat)
    requires i < |claimed|
  {
    var command := claimed[i].command;
    && (command.id in r.started <==> !StillRuns(running, claimed, i, command.id))
    && (command.id in r.started ==> command.conversation in r.processor.fences)
  }

  predicate StartsAreClaims(claimed: seq<ClaimRow>, started: seq<CommandId>) {
    && (forall i, j | 0 <= i < j < |started| :: started[i] != started[j])
    && (forall id <- started :: exists row <- claimed :: row.command.id == id)
  }

  /**
   * Tasks may end at every await of the loop. Still no command is started twice; a claimed one is
   * started exactly if no task of it runs when its row comes up, and then its fence is installed.
   */
  lemma {:induction false} SpawnStartsEachOnce(p: Processor, running: map<CommandId, ConversationId>, claimed: seq<ClaimRow>)
    requires DistinctClaims(claimed)
    ensures var r := SpawnRows(p, running, claimed);
            && StartsAreClaims(claimed, r.started)
            && forall i | 0 <= i < |claimed| :: StartedRightly(running, claimed, r, i)
  {
    if claimed != [] {
      var n := |claimed| - 1;
      var front, last := claimed[..n], claimed[n];
      SpawnStartsEachOnce(p, running, front);
      SpawnedIsRunning(p, running, front, last.command.id);
      OneMoreRow(p, running, claimed);
      forall i: nat | i < n ensures StartedRightly(running, claimed, SpawnRows(p, running, claimed), i) {
        assert StartedRightly(running, front, SpawnRows(p, running, front), i);
        assert StillRuns(running, claimed, i, claimed[i].command.id) == StillRuns(running, front, i, front[i].command.id);
      }
    }
  }

  /** The `i`-th row is the last one for the conversation that starts a task. */
  predicate InstalledBy(running: map<CommandId, ConversationId>, claimed: seq<ClaimRow>, conversation: ConversationId, i: nat) {
    && i < |claimed| && claimed[i].command.conversation == conversation && !StillRuns(running, claimed, i, claimed[i].command.id)
    && forall j | i < j < |claimed| && claimed[j].command.conversation == conversation :: StillRuns(running, claimed, j, claimed[j].command.id)
  }

  /**
   * After the loop a conversation's fence is that of the last row for it that started a task, and is
   * not lost; where no row started one, both are as they were.
   */
  lemma {:induction false} LastStartInstallsItsFence(p: Processor, running: map<CommandId, ConversationId>, claimed: seq<ClaimRow>,
                                                     conversation: ConversationId)
    requires DistinctClaims(claimed)
    ensures var r := SpawnRows(p, running, claimed).processor;
            && (forall i: nat | InstalledBy(running, claimed, conversation, i) ::
                  conversation in r.fences && r.fences[conversation] == claimed[i].fence && conversation !in r.lost)
            && ((forall i: nat :: !InstalledBy(running, claimed, conversation, i)) ==>
                  && (conversation in r.fences <==> conversation in p.fences)
                  && (conversation in r.fences ==> r.fences[conversation] == p.fences[conversation])
                  && (conversation in r.lost <==> conversation in p.lost))
            && r.worker == p.worker && r.draining == p.draining
  {
    if |claimed| != 0 {
      var n := |claimed| - 1;
      var front, last := claimed[..n], claimed[n];
      LastStartInstallsItsFence(p, running, front, conversation);
      SpawnedIsRunning(p, running, front, last.command.id);
      StillRunsLast(running, claimed);
      assert StillRuns(running, claimed, n, last.command.id) <==> last.command.id in SpawnRows(p, running, front).running - last.finished;
      if last.command.conversation == conversation && !StillRuns(running, claimed, n, last.command.id) {
        assert InstalledBy(running, claimed, conversation, n);
      } else {
        forall i: nat ensures InstalledBy(running, claimed, conversation, i) <==> InstalledBy(running, front, conversation, i) {
          InstalledByFront(running, claimed, conversation, i);
        }
      }
    }
  }

  lemma InstalledByFront(running: map<CommandId, ConversationId>, claimed: seq<ClaimRow>, conversation: ConversationId, i: nat)
    requires |claimed| != 0
    requires var (n, last) := (|claimed| - 1, claimed[|claimed| - 1].command);
             last.conversation != conversation || StillRuns(running, claimed, n, last.id)
    ensures InstalledBy(running, claimed, conversation, i) <==> InstalledBy(running, claimed[..|claimed| - 1], conversation, i)
  {
    var front := claimed[..|claimed| - 1];
    forall j: nat, id | j < |front| ensures StillRuns(running, front, j, id) <==> StillRuns(running, claimed, j, id) {
      assert forall k | 0 <= k <= j :: front[k] == claimed[k];
    }
    assert forall j | 0 <= j < |front| :: front[j] == claimed[j];
  }

  /** The last row starts its command exactly if no task of it runs by then. */
  lemma OneMoreRow(p: Processor, running: map<CommandId, ConversationId>, claimed: seq<ClaimRow>)
    requires |claimed| != 0 && StartsAreClaims(claimed[..|claimed| - 1], SpawnRows(p, running, claimed[..|claimed| - 1]).started)
    requires var (front, last) := (claimed[..|claimed| - 1], claimed[|claimed| - 1].command.id);
             var before := SpawnRows(p, running, front);
             && last !in before.started
             && (last in before.running <==> last in running && forall row <- front :: last !in row.finished)
    ensures var r := SpawnRows(p, running, claimed);
            StartsAreClaims(claimed, r.started) && StartedRightly(running, claimed, r, |claimed| - 1)
  {
    var n := |claimed| - 1;
    StartsGrow(claimed, SpawnRows(p, running, claimed[..n]).started);
    StillRunsLast(running, claimed);
  }

  lemma StartsGrow(claimed: seq<ClaimRow>, started: seq<CommandId>)
    requires |claimed| != 0 && StartsAreClaims(claimed[..|claimed| - 1], started) && claimed[|claimed| - 1].command.id !in started
    ensures StartsAreClaims(claimed, started) && StartsAreClaims(claimed, started + [claimed[|claimed| - 1].command.id])
  {
    var n := |claimed| - 1;
    forall id <- started + [claimed[n].command.id] ensures exists row <- claimed :: row.command.id == id {
      if id in started {
        var row :| row in claimed[..n] && row.command.id == id;
        assert row in claimed;
      } else {
        assert claimed[n] in claimed;
      }
    }
    assert forall id <- started :: id in started + [claimed[n].command.id];
  }

  lemma StillRunsLast(running: map<CommandId, ConversationId>, claimed: seq<ClaimRow>)
    requires |claimed| != 0
    ensures var (n, id) := (|claimed| - 1, claimed[|claimed| - 1].command.id);
            StillRuns(running, claimed, n, id)
            <==> id in running && (forall row <- claimed[..n] :: id !in row.finished) && id !in claimed[n].finished
  {
    var n := |claimed| - 1;
    assert forall k | 0 <= k < n :: claimed[k] == claimed[..n][k] && claimed[k] in claimed[..n];
  }

  class CommandProcessor {
    var workerId: Option<WorkerId>
    var fences: map<ConversationId, nat>
    var lostFences: set<ConversationId>
    var draining: bool
    var running: map<CommandId, ConversationId>

    ghost function State(): Processor
      reads this
    {
      Processor(workerId, fences, lostFences, draining)
    }

    constructor ()
      ensures State() == FRESH && running == map[]
    {
      workerId, fences, lostFences, draining, running := None, map[], {}, false, map[];
    }

    method SetFence(conversation: ConversationId, fence: nat)
      modifies this`fences, this`lostFences
      ensures State() == ApplyOp(old(State()), Install(conversation, fence))
      ensures KeepsHeld(old(State()), State()) && EverHeld(State(), conversation)
    {
      fences := fences[conversation := fence];
      lostFences := lostFences - {conversation};
    }

    method DropFence(conversation: ConversationId)
      modifies this`fences, this`lostFences
      ensures State() == ApplyOp(old(State()), Drop(conversation))
      ensures KeepsHeld(old(State()), State()) && (old(EverHeld(State(), conversation)) ==> FenceFor(State(), conversation).Refused?)
    {
      if conversation in fences {
        fences := fences - {conversation};
        lostFences := lostFences + {conversation};
      }
    }

    method BeginShutdown()
      modifies this`draining
      ensures State() == ApplyOp(old(State()), Op.BeginShutdown)
      ensures forall c :: FenceFor(State(), c) == FenceFor(old(State()), c)
    {
      draining := true;
    }

    method FenceKwargs(conversation: ConversationId) returns (use: FenceUse)
      ensures use == FenceFor(State(), conversation)
      ensures EverHeld(State(), conversation) && workerId.Some? ==> !use.Unfenced?
    {
      if conversation !in fences {
        if conversation in lostFences {
          return Refused;
        }
        return Unfenced;
      }
      if workerId.None? {
        return Unfenced;
      }
      use := Fenced(workerId.value, fences[conversation]);
    }

    /** The body of the claim loop, over one answer of `claim_commands`. */
    method SpawnClaimed(claimed: seq<ClaimRow>) returns (started: seq<CommandId>)
      modifies this`fences, this`lostFences, this`running
      ensures Spawned(State(), running, started) == SpawnRows(old(State()), old(running), claimed)
      ensures KeepsHeld(old(State()), State())
    {
      started := [];
      for i := 0 to |claimed|
        invariant Spawned(State(), running, started) == SpawnRows(old(State()), old(running), claimed[..i])
        invariant KeepsHeld(old(State()), State())
      {
        assert claimed[..i + 1][..i] == claimed[..i];
        var command := claimed[i].command;
        running := running - claimed[i].finished;
        if command.id in running {
          continue;
        }
        SetFence(command.conversation, claimed[i].fence);
        running := running[command.id := command.conversation];
        started := started + [command.id];
      }
      assert claimed[..|claimed|] == claimed;
    }
  }
}
