// The database rows of the lease protocol. Each atomic transaction is a function on the rows; the
// class below runs the same transactions in place, with the loops the repository uses.
module Database {
  import opened Wrappers
  import opened Commands

  datatype Error = InvalidState | StaleOwner | OptimisticConflict

  /** The `runtime_*` columns of one conversation, and the two facts the takeover query reads. */
  datatype Conversation = Conversation(
    owner: Option<WorkerId>,
    fence: nat,
    lease: Option<Time>,
    live: bool,
    deleted: bool)

  datatype Db = Db(now: Time, conversations: map<ConversationId, Conversation>, commands: map<CommandId, Command>)

  datatype ClaimedCommand = ClaimedCommand(command: Command, fence: nat)

  datatype Ownership = Ownership(conversation: ConversationId, worker: WorkerId, fence: nat)

  // ----- Owner checks -----

  predicate LiveOwner(row: Conversation, now: Time, worker: WorkerId) {
    row.owner == Some(worker) && row.lease.Some? && row.lease.value >= now
  }

  predicate LiveOther(row: Conversation, now: Time, worker: WorkerId) {
    row.owner.Some? && row.owner != Some(worker) && row.lease.Some? && row.lease.value >= now
  }

  /** `_require_owner_on_row`: an unfenced write is not checked; half a fence never passes. */
  predicate OwnerAccepts(row: Conversation, now: Time, worker: Option<WorkerId>, fence: Option<nat>) {
    if worker.None? && fence.None? then true
    else worker.Some? && fence.Some? && LiveOwner(row, now, worker.value) && row.fence == fence.value
  }

  /** `_acquire_conversation_owner`: renew under the same fence, or take the next one. */
  function AcquireRow(row: Conversation, now: Time, worker: WorkerId, duration: int): Option<Conversation> {
    if LiveOther(row, now, worker) then None
    else
      var sameWorker := row.owner == Some(worker) && (row.lease.None? || row.lease.value >= now);
      Some(row.(owner := Some(worker),
                fence := if sameWorker then row.fence else row.fence + 1,
                lease := Some(now + duration)))
  }

  // ----- Claiming commands -----

  predicate Claimable(c: Command, now: Time) {
    || c.status.Accepted?
    || (c.status.Claimed? && c.leaseExpiresAt.Some? && c.leaseExpiresAt.value < now && c.startedAt.None?)
  }

  function ClaimedCopy(stored: Command, worker: WorkerId, now: Time, duration: int): Command {
    stored.(status := Claimed, worker := Some(worker), attempts := stored.attempts + 1,
            leaseExpiresAt := Some(now + duration))
  }

  /** One row of the claim loop: nothing happens when another worker still owns the conversation. */
  function ClaimOne(db: Db, id: CommandId, worker: WorkerId, duration: int): (Db, Option<ClaimedCommand>)
    requires id in db.commands
  {
    var stored := db.commands[id];
    if stored.conversation !in db.conversations then (db, None)
    else
      match AcquireRow(db.conversations[stored.conversation], db.now, worker, duration)
      case None => (db, None)
      case Some(row) =>
        var command := ClaimedCopy(stored, worker, db.now, duration);
        (db.(conversations := db.conversations[stored.conversation := row], commands := db.commands[id := command]),
        Some(ClaimedCommand(command, row.fence)))
  }

  function ClaimRows(db: Db, rows: seq<CommandId>, worker: WorkerId, duration: int): (r: (Db, seq<ClaimedCommand>))
    requires forall id <- rows :: id in db.commands
    ensures r.0.commands.Keys == db.commands.Keys && r.0.now == db.now
  {
    if rows == [] then (db, [])
    else
      var (before, claimed) := ClaimRows(db, rows[..|rows| - 1], worker, duration);
      var (after, one) := ClaimOne(before, rows[|rows| - 1], worker, duration);
      (after, if one.Some? then claimed + [one.value] else claimed)
  }

  /** The rows a claim query may answer with: ordered by id, all claimable, at most `limit` of them. */
  ghost predicate ClaimQuery(db: Db, rows: seq<CommandId>, limit: nat) {
    && |rows| <= limit
    && (forall i, j | 0 <= i < j < |rows| :: rows[i] < rows[j])
    && (forall id <- rows :: id in db.commands && Claimable(db.commands[id], db.now))
  }

  // ----- Writing commands -----

  /** `_settle_command`: merge into the stored row. */
  function WriteCommand(db: Db, command: Command): Db
    requires command.id in db.commands
  {
    db.(commands := db.commands[command.id := Merge(db.commands[command.id], command)])
  }

  predicate FenceAccepts(db: Db, conversation: ConversationId, worker: Option<WorkerId>, fence: Option<nat>) {
    conversation in db.conversations && OwnerAccepts(db.conversations[conversation], db.now, worker, fence)
  }

  function UpdateCommandSpec(db: Db, command: Command, worker: Option<WorkerId>, fence: Option<nat>): (Db, Result<Command, Error>) {
    if (worker.Some? || fence.Some?) && command.conversation !in db.conversations then (db, Err(InvalidState))
    else if (worker.Some? || fence.Some?) && !FenceAccepts(db, command.conversation, worker, fence) then (db, Err(StaleOwner))
    else if command.id !in db.commands then (db, Err(InvalidState))
    else
      var after := WriteCommand(db, command);
      (after, Ok(after.commands[command.id]))
  }

  datatype UpdateCall = UpdateCall(command: Command, worker: Option<WorkerId>, fence: Option<nat>)

  function UpdateAll(db: Db, calls: seq<UpdateCall>): (r: Db)
    ensures r.commands.Keys == db.commands.Keys && r.now == db.now && r.conversations == db.conversations
  {
    if |calls| == 0 then db
    else
      var before, last := UpdateAll(db, calls[..|calls| - 1]), calls[|calls| - 1];
      UpdateCommandSpec(before, last.command, last.worker, last.fence).0
  }

  /** The copies written for one command by those calls whose owner check passes. */
  function AcceptedCopies(db: Db, calls: seq<UpdateCall>, id: CommandId): seq<Command> {
    if |calls| == 0 then []
    else
      var before, last := AcceptedCopies(db, calls[..|calls| - 1], id), calls[|calls| - 1];
      if last.command.id == id && UpdateAllowed(db, last) then before + [last.command] else before
  }

  predicate UpdateAllowed(db: Db, call: UpdateCall) {
    (call.worker.None? && call.fence.None?) || FenceAccepts(db, call.command.conversation, call.worker, call.fence)
  }

  /**
   * Whatever calls of any workers arrive in whatever order, a command ends as the merge of exactly the
   * copies that were let through, in their order: a refused call leaves no trace, and no call touches
   * another command. So everything proved of lists of merged writes holds of the table.
   */
  lemma {:induction false} UpdatesAreMerges(db: Db, calls: seq<UpdateCall>, id: CommandId)
    requires id in db.commands
    ensures UpdateAll(db, calls).commands[id] == WriteAll(db.commands[id], AcceptedCopies(db, calls, id))
  {
    if |calls| != 0 {
      var front, last := calls[..|calls| - 1], calls[|calls| - 1];
      UpdatesAreMerges(db, front, id);
      if last.command.id == id && UpdateAllowed(db, last) {
        WriteAllAppend(db.commands[id], AcceptedCopies(db, front, id), [last.command]);
        WriteAllOne(UpdateAll(db, front).commands[id], last.command);
      }
    }
  }

  lemma WriteAllOne(stored: Command, copy: Command)
    ensures WriteAll(stored, [copy]) == Merge(stored, copy)
  {
    assert [copy][1..] == [];
    assert WriteAll(Merge(stored, copy), []) == Merge(stored, copy);
  }

  // ----- Taking over, renewing and releasing conversations -----

  predicate HasExpiredCommand(db: Db, conversation: ConversationId) {
    exists id <- db.commands :: ExpiredInFlight(db.commands[id], conversation, db.now)
  }

  predicate ExpiredInFlight(c: Command, conversation: ConversationId, now: Time) {
    && c.conversation == conversation
    && (c.status.Claimed? || c.status.DeliveryStarted? || c.status.Delivered?)
    && (c.leaseExpiresAt.Some? ==> c.leaseExpiresAt.value < now)
  }

  /** The takeover query: an expired or missing lease, or an expired command, and not mine already. */
  predicate TakeoverCandidate(db: Db, conversation: ConversationId, worker: WorkerId)
    requires conversation in db.conversations
  {
    var row := db.conversations[conversation];
    && !row.deleted
    && (|| (row.lease.Some? && row.lease.value < db.now)
        || (row.live && row.lease.None?)
        || HasExpiredCommand(db, conversation))
    && !LiveOwner(row, db.now, worker)
  }

  /** One row of the takeover loop: always the next fence, never from a live owner. */
  function TakeOverOne(db: Db, conversation: ConversationId, worker: WorkerId, duration: int): (Db, Option<Ownership>)
    requires conversation in db.conversations
  {
    var row := db.conversations[conversation];
    if LiveOther(row, db.now, worker) then (db, None)
    else
      var taken := row.(owner := Some(worker), fence := row.fence + 1, lease := Some(db.now + duration));
      (db.(conversations := db.conversations[conversation := taken]),
      Some(Ownership(conversation, worker, row.fence + 1)))
  }

  function TakeOverRows(db: Db, rows: seq<ConversationId>, worker: WorkerId, duration: int): (r: (Db, seq<Ownership>))
    requires forall id <- rows :: id in db.conversations
    ensures r.0.conversations.Keys == db.conversations.Keys && r.0.now == db.now && r.0.commands == db.commands
  {
    if rows == [] then (db, [])
    else
      var (before, taken) := TakeOverRows(db, rows[..|rows| - 1], worker, duration);
      var (after, one) := TakeOverOne(before, rows[|rows| - 1], worker, duration);
      (after, if one.Some? then taken + [one.value] else taken)
  }

  ghost predicate TakeoverQuery(db: Db, rows: seq<ConversationId>, worker: WorkerId) {
    && (forall i, j | 0 <= i < j < |rows| :: rows[i] < rows[j])
    && (forall id <- rows :: id in db.conversations && TakeoverCandidate(db, id, worker))
  }

  /** The rows up to one more. */
  lemma TakeOverNext(db: Db, rows: seq<ConversationId>, i: nat, worker: WorkerId, duration: int)
    requires i < |rows| && forall id <- rows :: id in db.conversations
    ensures var (before, taken) := TakeOverRows(db, rows[..i], worker, duration);
            var (after, one) := TakeOverOne(before, rows[i], worker, duration);
            TakeOverRows(db, rows[..i + 1], worker, duration) == (after, if one.Some? then taken + [one.value] else taken)
  {
    assert rows[..i + 1][..i] == rows[..i];
  }

  predicate LeaseLost(row: Conversation, now: Time) {
    row.lease.None? || row.lease.value < now
  }

  /** One row of the heartbeat: extend a live lease, give up an expired one. */
  function RenewRow(row: Conversation, now: Time, duration: int): Conversation {
    if LeaseLost(row, now) then row.(owner := None, lease := None) else row.(lease := Some(now + duration))
  }

  /** The heartbeat on every row this worker owns. */
  function RenewOwned(db: Db, worker: WorkerId, duration: int): Db {
    db.(conversations := map id <- db.conversations ::
      var row := db.conversations[id];
      if row.owner == Some(worker) then RenewRow(row, db.now, duration) else row)
  }

  function ReleaseRow(row: Conversation): Conversation {
    row.(owner := None, lease := None)
  }

  // ----- What a claim and a takeover leave behind -----

  /** The present fence of the row is the worker's, and nobody else's. */
  predicate HeldBy(db: Db, conversation: ConversationId, worker: WorkerId, fence: nat) {
    && FenceAccepts(db, conversation, Some(worker), Some(fence))
    && db.conversations[conversation].owner == Some(worker) && db.conversations[conversation].fence == fence
  }

  /** Nobody else's fenced write passes while a worker holds the conversation, and no older fence does. */
  lemma HeldIsExclusive(db: Db, conversation: ConversationId, worker: WorkerId, fence: nat, other: WorkerId, used: nat)
    requires HeldBy(db, conversation, worker, fence)
    ensures FenceAccepts(db, conversation, Some(other), Some(used)) <==> other == worker && used == fence
  {
  }

  /** A further claim by the same worker leaves what it holds in place, fence included. */
  lemma ClaimKeepsHeld(db: Db, id: CommandId, worker: WorkerId, duration: int, conversation: ConversationId, fence: nat)
    requires id in db.commands && duration >= 0 && HeldBy(db, conversation, worker, fence)
    ensures HeldBy(ClaimOne(db, id, worker, duration).0, conversation, worker, fence)
  {
  }

  /** What a claim leaves as it was. */
  function WithoutClaim(c: Command): Command {
    c.(status := Accepted, worker := None, attempts := 0, leaseExpiresAt := None)
  }

  /** A claimed row as the answer promises it: the worker's, counted up, leased, and under a fence that is accepted. */
  predicate Usable(db: Db, before: Db, worker: WorkerId, duration: int, c: ClaimedCommand) {
    && c.command.id in before.commands && c.command.id in db.commands && db.commands[c.command.id] == c.command
    && c.command.status.Claimed? && c.command.worker == Some(worker)
    && c.command.attempts == before.commands[c.command.id].attempts + 1
    && c.command.leaseExpiresAt == Some(before.now + duration)
    && WithoutClaim(c.command) == WithoutClaim(before.commands[c.command.id])
    && HeldBy(db, c.command.conversation, worker, c.fence)
  }

  /**
   * After one claim transaction every returned command is stored as claimed by the worker, one
   * attempt up, and its fence is the one the database accepts, although later rows of the same
   * answer may have touched the same conversation; rows outside the answer stay as they were.
   */
  lemma {:induction false} ClaimAnswerIsUsable(db: Db, rows: seq<CommandId>, worker: WorkerId, duration: int)
    requires duration >= 0
    requires forall i, j | 0 <= i < j < |rows| :: rows[i] != rows[j]
    requires forall id <- rows :: id in db.commands && db.commands[id].id == id
    ensures var (after, claimed) := ClaimRows(db, rows, worker, duration);
            && (forall c <- claimed :: c.command.id in rows && Usable(after, db, worker, duration, c))
            && (forall id <- db.commands | id !in rows :: after.commands[id] == db.commands[id])
            && (forall o, f | HeldBy(db, o, worker, f) :: HeldBy(after, o, worker, f))
  {
    if |rows| != 0 {
      var front, last := rows[..|rows| - 1], rows[|rows| - 1];
      assert rows == front + [last];
      ClaimAnswerIsUsable(db, front, worker, duration);
      var (before, claimed) := ClaimRows(db, front, worker, duration);
      var (after, one) := ClaimOne(before, last, worker, duration);
      assert last !in front;
      forall o, f | HeldBy(before, o, worker, f) ensures HeldBy(after, o, worker, f) {
        ClaimKeepsHeld(before, last, worker, duration, o, f);
      }
      if one.Some? {
        assert Usable(after, db, worker, duration, one.value);
      }
    }
  }

  predicate IsTaken(taken: seq<Ownership>, conversation: ConversationId) {
    exists g <- taken :: g.conversation == conversation
  }

  /** A granted takeover: held by the worker under the fence after the one that was there. */
  predicate TakenFrom(db: Db, after: Db, worker: WorkerId, duration: int, g: Ownership) {
    && g.worker == worker && g.conversation in db.conversations
    && g.fence == db.conversations[g.conversation].fence + 1
    && HeldBy(after, g.conversation, worker, g.fence)
    && after.conversations[g.conversation].lease == Some(db.now + duration)
    && after.conversations[g.conversation].live == db.conversations[g.conversation].live
    && after.conversations[g.conversation].deleted == db.conversations[g.conversation].deleted
  }

  /**
   * After a takeover each taken conversation is held under the next fence, so every fence granted
   * before is refused from here on, and every other conversation is untouched.
   */
  lemma {:induction false} TakeoverFencesOut(db: Db, rows: seq<ConversationId>, worker: WorkerId, duration: int)
    requires duration >= 0
    requires forall i, j | 0 <= i < j < |rows| :: rows[i] != rows[j]
    requires forall id <- rows :: id in db.conversations
    ensures var (after, taken) := TakeOverRows(db, rows, worker, duration);
            && (forall g <- taken :: TakenFrom(db, after, worker, duration, g) && g.conversation in rows)
            && (forall id <- db.conversations :: after.conversations[id] == db.conversations[id] || IsTaken(taken, id))
            && (forall id <- rows :: IsTaken(taken, id) <==> !LiveOther(db.conversations[id], db.now, worker))
  {
    if |rows| != 0 {
      var front, last := rows[..|rows| - 1], rows[|rows| - 1];
      assert rows == front + [last];
      TakeoverFencesOut(db, front, worker, duration);
      var (before, taken) := TakeOverRows(db, front, worker, duration);
      assert last !in front;
      assert !IsTaken(taken, last);
      assert before.conversations[last] == db.conversations[last];
      var (after, one) := TakeOverOne(before, last, worker, duration);
      if one.Some? {
        TakenOneMore(taken, one.value);
        assert TakenFrom(db, after, worker, duration, one.value);
        assert forall g <- taken :: TakenFrom(db, after, worker, duration, g);
      }
    }
  }

  lemma TakenOneMore(taken: seq<Ownership>, g: Ownership)
    ensures forall h :: h in taken + [g] <==> h in taken || h == g
    ensures forall id :: IsTaken(taken + [g], id) <==> IsTaken(taken, id) || id == g.conversation
  {
    assert forall h :: h in taken + [g] <==> h in taken || h == g;
  }

  // ----- How long a lease keeps others away -----

  /**
   * A claimed command can be claimed again exactly once its lease is over, if nothing was started; and
   * that is also the moment from which it counts as expired, started or not.
   */
  lemma ClaimLastsExactly(stored: Command, worker: WorkerId, now: Time, duration: int, later: Time)
    ensures var c := ClaimedCopy(stored, worker, now, duration);
            && (Claimable(c, later) <==> stored.startedAt.None? && now + duration < later)
            && (forall o :: ExpiredInFlight(c, o, later) <==> o == stored.conversation && now + duration < later)
  {
  }

  /**
   * After a takeover another worker finds the conversation again exactly once the lease is over or one of
   * its commands has expired, and gets it exactly once the lease is over.
   */
  lemma TakeoverLastsExactly(db: Db, conversation: ConversationId, worker: WorkerId, duration: int, other: WorkerId, later: Time)
    requires conversation in db.conversations && TakeOverOne(db, conversation, worker, duration).1.Some? && other != worker
    ensures var after := TakeOverOne(db, conversation, worker, duration).0.(now := later);
            && (TakeoverCandidate(after, conversation, other)
                <==> !db.conversations[conversation].deleted
                     && (db.now + duration < later || HasExpiredCommand(after, conversation)))
            && (TakeOverOne(after, conversation, other, duration).1.Some? <==> db.now + duration < later)
            && (AcquireRow(after.conversations[conversation], later, other, duration).Some? <==> db.now + duration < later)
  {
  }

  /** A lease given back is open to every worker at once, and is looked for exactly if the conversation is live or a command has expired. */
  lemma ReleasedIsOpenToAll(db: Db, conversation: ConversationId, worker: WorkerId, duration: int)
    requires conversation in db.conversations
    ensures var after := db.(conversations := db.conversations[conversation := ReleaseRow(db.conversations[conversation])]);
            && (TakeoverCandidate(after, conversation, worker)
                <==> !db.conversations[conversation].deleted
                     && (db.conversations[conversation].live || HasExpiredCommand(after, conversation)))
            && TakeOverOne(after, conversation, worker, duration).1 ==
               Some(Ownership(conversation, worker, db.conversations[conversation].fence + 1))
  {
  }

  // ----- The transactions in place -----

  class DjangoPersistence {
    var now: Time
    var conversations: map<ConversationId, Conversation>
    var commands: map<CommandId, Command>

    ghost function State(): Db
      reads this
    {
      Db(now, conversations, commands)
    }

    /** `_acquire_conversation_owner`. */
    method AcquireConversationOwner(conversation: ConversationId, worker: WorkerId, duration: int) returns (fence: Option<nat>)
      modifies this`conversations
      ensures fence.None? ==> conversations == old(conversations)
      ensures fence.None? <==> conversation !in old(conversations) || LiveOther(old(conversations[conversation]), now, worker)
      ensures fence.Some? ==>
                var row := AcquireRow(old(conversations[conversation]), now, worker, duration);
                row.Some? && fence == Some(row.value.fence) && conversations == old(conversations)[conversation := row.value]
      ensures fence.Some? ==>
                var (row, after) := (old(conversations[conversation]), conversations[conversation]);
                && after.owner == Some(worker) && after.lease == Some(now + duration) && after.fence == fence.value
                && (fence.value == row.fence <==> LiveOwner(row, now, worker) || (row.owner == Some(worker) && row.lease.None?))
                && (fence.value == row.fence || fence.value == row.fence + 1)
                && after.live == row.live && after.deleted == row.deleted
    {
      if conversation !in conversations {
        return None;
      }
      var row := conversations[conversation];
      if row.owner.Some? && row.owner != Some(worker) && row.lease.Some? && row.lease.value >= now {
        return None;
      }
      var next := row.fence;
      if !(row.owner == Some(worker) && (row.lease.None? || row.lease.value >= now)) {
        next := next + 1;
      }
      conversations := conversations[conversation := row.(owner := Some(worker), fence := next, lease := Some(now + duration))];
      fence := Some(next);
    }

    /** `_claim_commands`, over the rows its locked query answered with. */
    method ClaimCommands(worker: WorkerId, ghost limit: nat, rows: seq<CommandId>, duration: int) returns (claimed: seq<ClaimedCommand>)
      requires ClaimQuery(State(), rows, limit)
      modifies this`conversations, this`commands
      ensures (State(), claimed) == ClaimRows(old(State()), rows, worker, duration)
    {
      claimed := [];
      for i := 0 to |rows|
        invariant now == old(now)
        invariant (State(), claimed) == ClaimRows(old(State()), rows[..i], worker, duration)
      {
        assert rows[..i + 1][..i] == rows[..i];
        var stored := commands[rows[i]];
        var fence := AcquireConversationOwner(stored.conversation, worker, duration);
        if fence.Some? {
          var command := ClaimedCopy(stored, worker, now, duration);
          commands := commands[rows[i] := command];
          claimed := claimed + [ClaimedCommand(command, fence.value)];
        }
      }
      assert rows[..|rows|] == rows;
    }

    /** `_update_command`: owner check, then the merge. */
    method UpdateCommand(command: Command, worker: Option<WorkerId>, fence: Option<nat>) returns (r: Result<Command, Error>)
      modifies this`commands
      ensures (State(), r) == UpdateCommandSpec(old(State()), command, worker, fence)
      ensures r.Ok? <==> command.id in old(commands) && UpdateAllowed(old(State()), UpdateCall(command, worker, fence))
      ensures UpdateAllowed(old(State()), UpdateCall(command, worker, fence))
              <==> || (worker.None? && fence.None?)
                   || (worker.Some? && fence.Some? && command.conversation in conversations
                       && var row := conversations[command.conversation];
                       row.owner == worker && row.fence == fence.value && row.lease.Some? && row.lease.value >= now)
      ensures r.Err? ==> r.error == if (worker.Some? || fence.Some?) && command.conversation in conversations
                                       && !UpdateAllowed(old(State()), UpdateCall(command, worker, fence)) then StaleOwner else InvalidState
      ensures r.Ok? ==> commands == old(commands)[command.id := r.value] && r.value.attempts >= old(commands)[command.id].attempts
      ensures r.Ok? && InFlight(command) ==>
                if Terminal(old(commands)[command.id].status) then r.value == old(commands)[command.id]
                else AtMost(ProgressOf(old(commands)[command.id]), ProgressOf(r.value)) && AtMost(ProgressOf(command), ProgressOf(r.value))
      ensures r.Err? ==> commands == old(commands)
    {
      if worker.Some? || fence.Some? {
        if command.conversation !in conversations {
          return Err(InvalidState);
        }
        if !OwnerAccepts(conversations[command.conversation], now, worker, fence) {
          return Err(StaleOwner);
        }
      }
      if command.id !in commands {
        return Err(InvalidState);
      }
      var merged := Merge(commands[command.id], command);
      commands := commands[command.id := merged];
      r := Ok(merged);
    }

    /** `_claim_expired_conversations`, over the rows its locked query answered with. */
    method ClaimExpiredConversations(worker: WorkerId, rows: seq<ConversationId>, duration: int) returns (claimed: seq<Ownership>)
      requires TakeoverQuery(State(), rows, worker)
      modifies this`conversations
      ensures (State(), claimed) == TakeOverRows(old(State()), rows, worker, duration)
    {
      claimed := [];
      for i := 0 to |rows|
        invariant (State(), claimed) == TakeOverRows(old(State()), rows[..i], worker, duration)
      {
        TakeOverNext(old(State()), rows, i, worker, duration);
        var one := TakeOver(rows[i], worker, duration);
        if one.Some? {
          claimed := claimed + [one.value];
        }
      }
      assert rows[..|rows|] == rows;
    }

    /** One round of the takeover loop. */
    method TakeOver(conversation: ConversationId, worker: WorkerId, duration: int) returns (one: Option<Ownership>)
      requires conversation in conversations
      modifies this`conversations
      ensures (State(), one) == TakeOverOne(old(State()), conversation, worker, duration)
    {
      var row := conversations[conversation];
      if row.owner.Some? && row.owner != Some(worker) && row.lease.Some? && row.lease.value >= now {
        return None;
      }
      conversations := conversations[conversation := row.(owner := Some(worker), fence := row.fence + 1, lease := Some(now + duration))];
      one := Some(Ownership(conversation, worker, row.fence + 1));
    }

    /** `_renew_owned_conversation_leases`: extends every live lease and reports every lost one. */
    method RenewOwnedConversationLeases(worker: WorkerId, rows: seq<ConversationId>, duration: int) returns (lost: seq<Ownership>)
      requires forall i, j | 0 <= i < j < |rows| :: rows[i] < rows[j]
      requires forall id :: id in rows <==> id in conversations && conversations[id].owner == Some(worker)
      modifies this`conversations
      ensures State() == RenewOwned(old(State()), worker, duration)
      ensures conversations.Keys == old(conversations).Keys
      ensures forall id <- conversations ::
                var (row, after) := (old(conversations)[id], conversations[id]);
                && after.fence == row.fence && after.live == row.live && after.deleted == row.deleted
                && (row.owner != Some(worker) ==> after == row)
                && (LiveOwner(row, now, worker) ==> after.owner == Some(worker) && after.lease == Some(now + duration))
                && (row.owner == Some(worker) && LeaseLost(row, now) ==> after.owner.None? && after.lease.None?)
      ensures forall id, fence :: Ownership(id, worker, fence) in lost <==>
                id in old(conversations) && old(conversations[id]).owner == Some(worker)
                && old(conversations[id]).fence == fence && LeaseLost(old(conversations[id]), now)
    {
      lost := [];
      ghost var was := conversations;
      for i := 0 to |rows|
        invariant conversations.Keys == was.Keys
        invariant forall id <- was :: conversations[id] ==
                    if id in rows[..i] then RenewRow(was[id], now, duration) else was[id]
        invariant forall id, fence :: Ownership(id, worker, fence) in lost <==>
                    id in rows[..i] && was[id].fence == fence && LeaseLost(was[id], now)
      {
        assert rows[..i + 1] == rows[..i] + [rows[i]];
        assert rows[i] !in rows[..i];
        var row := conversations[rows[i]];
        if row.lease.None? || row.lease.value < now {
          lost := lost + [Ownership(rows[i], worker, row.fence)];
          conversations := conversations[rows[i] := row.(owner := None, lease := None)];
          continue;
        }
        conversations := conversations[rows[i] := row.(lease := Some(now + duration))];
      }
      assert rows[..|rows|] == rows;
      assert conversations == RenewOwned(old(State()), worker, duration).conversations;
    }

    /** `_release_conversation_lease`: only the current live owner may give the lease up. */
    method ReleaseConversationLease(conversation: ConversationId, worker: WorkerId, fence: nat) returns (r: Result<(), Error>)
      modifies this`conversations
      ensures r.Ok? <==> FenceAccepts(old(State()), conversation, Some(worker), Some(fence))
      ensures r.Err? ==> conversations == old(conversations)
                         && r.error == (if conversation in conversations then StaleOwner else InvalidState)
      ensures r.Ok? ==> conversations == old(conversations)[conversation := ReleaseRow(old(conversations[conversation]))]
      ensures r.Ok? ==> conversations[conversation].owner.None? && conversations[conversation].lease.None?
                        && conversations[conversation].fence == old(conversations[conversation]).fence
    {
      if conversation !in conversations {
        return Err(InvalidState);
      }
      if !OwnerAccepts(conversations[conversation], now, Some(worker), Some(fence)) {
        return Err(StaleOwner);
      }
      conversations := conversations[conversation := conversations[conversation].(owner := None, lease := None)];
      r := Ok(());
    }
  }
}
