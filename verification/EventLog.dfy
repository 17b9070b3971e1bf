// The event log of one conversation: version checks, sequence numbers, and what pruning leaves.
module EventLogs {
  import opened Wrappers
  import opened Commands

  datatype Payload = Payload(turn: Option<TurnId>, body: nat)

  datatype Event = Event(conversation: ConversationId, sequence: nat, payload: Payload)

  /** What the commit checks read of a conversation state. */
  datatype Header = Header(conversation: ConversationId, owner: nat, deleted: bool, version: nat, next: nat)

  datatype CommitError = NotFound | Missing | StaleOwner | Conflict | OtherConversation | EventSequence | AggregateSequence

  // ----- Building a state and its events -----

  function Numbered(conversation: ConversationId, first: nat, payloads: seq<Payload>): (events: seq<Event>)
    ensures |events| == |payloads|
    ensures forall i | 0 <= i < |events| :: events[i] == Event(conversation, first + i, payloads[i])
  {
    seq(|payloads|, i requires 0 <= i < |payloads| => Event(conversation, first + i, payloads[i]))
  }

  /** The header `append_events` leaves: one version per non-empty call, one number per event. */
  function Appended(state: Header, payloads: seq<Payload>): Header {
    if payloads == [] then state else state.(version := state.version + 1, next := state.next + |payloads|)
  }

  method AppendEvents(state: Header, payloads: seq<Payload>) returns (after: Header, events: seq<Event>)
    ensures after == Appended(state, payloads)
    ensures events == Numbered(state.conversation, state.next, payloads)
  {
    if payloads == [] {
      return state, [];
    }
    events := [];
    var sequence := state.next;
    for i := 0 to |payloads|
      invariant sequence == state.next + i
      invariant events == Numbered(state.conversation, state.next, payloads)[..i]
    {
      events := events + [Event(state.conversation, sequence, payloads[i])];
      sequence := sequence + 1;
    }
    after := state.(next := sequence, version := state.version + 1);
  }

  /** A chain of transitions, each of which appends its own events to the state before it. */
  function Build(state: Header, batches: seq<seq<Payload>>): (Header, seq<Event>)
    decreases |batches|
  {
    if batches == [] then (state, [])
    else
      var (after, events) := Build(Appended(state, batches[0]), batches[1..]);
      (after, Numbered(state.conversation, state.next, batches[0]) + events)
  }

  predicate Consecutive(events: seq<Event>, conversation: ConversationId, first: nat) {
    forall i | 0 <= i < |events| :: events[i].conversation == conversation && events[i].sequence == first + i
  }

  /** What every chain of transitions does to the header, whatever its payloads. */
  lemma {:induction false} BuildShape(state: Header, batches: seq<seq<Payload>>)
    ensures var (after, events) := Build(state, batches);
            && Consecutive(events, state.conversation, state.next)
            && after == state.(version := after.version, next := state.next + |events|)
            && (if events == [] then after.version == state.version else after.version > state.version)
    decreases |batches|
  {
    if batches != [] {
      BuildShape(Appended(state, batches[0]), batches[1..]);
    }
  }

  // ----- The log -----

  /** The row, its events by sequence number, and (history) every event ever inserted, oldest first. */
  datatype Log = Log(header: Option<Header>, stored: map<nat, Payload>, issued: seq<Event>)

  const EMPTY_LOG := Log(None, map[], [])

  function Inserted(stored: map<nat, Payload>, events: seq<Event>): map<nat, Payload> {
    if events == [] then stored
    else Inserted(stored, events[..|events| - 1])[events[|events| - 1].sequence := events[|events| - 1].payload]
  }

  function Committed(log: Log, state: Header, events: seq<Event>): Log {
    Log(Some(state), Inserted(log.stored, events), log.issued + events)
  }

  predicate SequencesAccepted(events: seq<Event>, conversation: ConversationId, first: nat, next: nat) {
    Consecutive(events, conversation, first) && next == first + |events|
  }

  function WithoutTurns(stored: map<nat, Payload>, expired: set<TurnId>): map<nat, Payload> {
    map s <- stored | stored[s].turn.None? || stored[s].turn.value !in expired :: stored[s]
  }

  /** What is stored under a number once more events are written: that of the last of them, or what was there. */
  function Kept(stored: map<nat, Payload>, events: seq<Event>, n: nat): Option<Payload> {
    if |events| == 0 then if n in stored then Some(stored[n]) else None
    else if events[|events| - 1].sequence == n then Some(events[|events| - 1].payload)
    else Kept(stored, events[..|events| - 1], n)
  }

  predicate Owned(payload: Payload, turns: set<TurnId>) {
    payload.turn.Some? && payload.turn.value in turns
  }

  lemma {:induction false} InsertedIsKept(stored: map<nat, Payload>, events: seq<Event>)
    ensures forall n :: n in Inserted(stored, events) <==> Kept(stored, events, n).Some?
    ensures forall n <- Inserted(stored, events) :: Some(Inserted(stored, events)[n]) == Kept(stored, events, n)
  {
    if |events| != 0 {
      InsertedIsKept(stored, events[..|events| - 1]);
    }
  }

  /** Why `_commit_batch` refuses, if it does. */
  function BatchError(row: Option<Header>, conversation: ConversationId, owned: bool, expected: nat,
                      state: Header, events: seq<Event>): Option<CommitError>
  {
    if row.None? then Some(NotFound)
    else if !owned then Some(StaleOwner)
    else if row.value.version != expected then Some(Conflict)
    else if state.conversation != conversation then Some(OtherConversation)
    else if !Consecutive(events, conversation, row.value.next) then Some(EventSequence)
    else if state.next != row.value.next + |events| then Some(AggregateSequence)
    else None
  }

  /** Why `_commit_facade_mutation` refuses: no lease is checked, but the owner and the deletion are. */
  function FacadeError(row: Option<Header>, conversation: ConversationId, owner: nat, expected: nat,
                       state: Header, events: seq<Event>): Option<CommitError>
  {
    if row.None? || row.value.owner != owner || (row.value.deleted && !state.deleted) then Some(Missing)
    else if row.value.version != expected then Some(Conflict)
    else if state.conversation != conversation then Some(OtherConversation)
    else if state.owner != owner then Some(Missing)
    else if !Consecutive(events, conversation, row.value.next) then Some(EventSequence)
    else if state.next != row.value.next + |events| then Some(AggregateSequence)
    else None
  }

  class ConversationLog {
    const conversation: ConversationId
    var row: Option<Header>
    var stored: map<nat, Payload>
    ghost var issued: seq<Event>

    ghost function Contents(): Log
      reads this
    {
      Log(row, stored, issued)
    }

    constructor (conversation: ConversationId)
      ensures this.conversation == conversation && Contents() == EMPTY_LOG
    {
      this.conversation, row, stored, issued := conversation, None, map[], [];
    }

    /** The loop every commit path runs over its events, starting from the row's next number. */
    method CheckEvents(events: seq<Event>, first: nat) returns (next: Option<nat>)
      ensures next.Some? <==> Consecutive(events, conversation, first)
      ensures next.Some? ==> next.value == first + |events|
    {
      var expected := first;
      for i := 0 to |events|
        invariant expected == first + i
        invariant Consecutive(events[..i], conversation, first)
      {
        if events[i].conversation != conversation || events[i].sequence != expected {
          return None;
        }
        expected := expected + 1;
      }
      assert events[..|events|] == events;
      next := Some(expected);
    }

    method InsertEvents(events: seq<Event>)
      modifies this`stored, this`issued
      ensures stored == Inserted(old(stored), events) && issued == old(issued) + events
    {
      for i := 0 to |events|
        invariant stored == Inserted(old(stored), events[..i]) && issued == old(issued)
      {
        assert events[..i + 1][..i] == events[..i];
        stored := stored[events[i].sequence := events[i].payload];
      }
      assert events[..|events|] == events;
      issued := issued + events;
    }

    /** `_commit_batch`, given what the owner check answered. */
    method CommitBatch(expected: nat, owned: bool, state: Header, events: seq<Event>) returns (error: Option<CommitError>)
      modifies this
      ensures error == BatchError(old(row), conversation, owned, expected, state, events)
      ensures Contents() == if error.Some? then old(Contents()) else Committed(old(Contents()), state, events)
    {
      if row.None? {
        return Some(NotFound);
      }
      if !owned {
        return Some(StaleOwner);
      }
      if row.value.version != expected {
        return Some(Conflict);
      }
      if state.conversation != conversation {
        return Some(OtherConversation);
      }
      var next := CheckEvents(events, row.value.next);
      if next.None? {
        return Some(EventSequence);
      }
      if state.next != next.value {
        return Some(AggregateSequence);
      }
      row := Some(state);
      InsertEvents(events);
      error := None;
    }

    /** `_commit_facade_mutation`. */
    method CommitFacade(owner: nat, expected: nat, state: Header, events: seq<Event>) returns (error: Option<CommitError>)
      modifies this
      ensures error == FacadeError(old(row), conversation, owner, expected, state, events)
      ensures Contents() == if error.Some? then old(Contents()) else Committed(old(Contents()), state, events)
    {
      if row.None? || row.value.owner != owner {
        return Some(Missing);
      }
      if row.value.deleted && !state.deleted {
        return Some(Missing);
      }
      if row.value.version != expected {
        return Some(Conflict);
      }
      if state.conversation != conversation {
        return Some(OtherConversation);
      }
      if state.owner != owner {
        return Some(Missing);
      }
      var next := CheckEvents(events, row.value.next);
      if next.None? {
        return Some(EventSequence);
      }
      if state.next != next.value {
        return Some(AggregateSequence);
      }
      row := Some(state);
      InsertEvents(events);
      error := None;
    }

    /** `_commit_transcript_import`: the conversation must be new and its events start at one. */
    method CommitImport(state: Header, events: seq<Event>) returns (ok: bool)
      requires state.conversation == conversation
      modifies this
      ensures ok <==> old(row).None? && SequencesAccepted(events, conversation, 1, state.next)
      ensures Contents() == if ok then Committed(old(Contents()), state, events) else old(Contents())
    {
      if row.Some? {
        return false;
      }
      var next := CheckEvents(events, 1);
      if next.None? || state.next != next.value {
        return false;
      }
      row := Some(state);
      InsertEvents(events);
      ok := true;
    }

    /**
     * `_prune_expired_history` once something is expired: interrupt the waiting turn (if any) and
     * rotate the session on the current state, insert both, then delete what expired turns own.
     */
    method Prune(interrupted: seq<seq<Payload>>, rotated: Payload, expired: set<TurnId>)
      requires row.Some?
      modifies this
      ensures var (state, events) := Build(old(row).value, interrupted + [[rotated]]);
              Contents() == Pruned(Committed(old(Contents()), state, events), expired)
      ensures var events := Build(old(row).value, interrupted + [[rotated]]).1;
              forall n :: n in stored <==>
                var kept := Kept(old(stored), events, n); kept.Some? && !Owned(kept.value, expired)
      ensures var events := Build(old(row).value, interrupted + [[rotated]]).1;
              forall n <- stored :: Some(stored[n]) == Kept(old(stored), events, n)
    {
      ghost var before := stored;
      var state, events := row.value, [];
      for i := 0 to |interrupted|
        invariant (state, events) == Build(old(row).value, interrupted[..i])
        invariant Contents() == old(Contents())
      {
        var after, more := AppendEvents(state, interrupted[i]);
        BuildSnoc(row.value, interrupted[..i], interrupted[i]);
        assert interrupted[..i + 1] == interrupted[..i] + [interrupted[i]];
        state, events := after, events + more;
      }
      assert interrupted[..|interrupted|] == interrupted;
      BuildSnoc(row.value, interrupted, [rotated]);
      var after, more := AppendEvents(state, [rotated]);
      row := Some(after);
      InsertEvents(events + more);
      InsertedIsKept(before, events + more);
      stored := WithoutTurns(stored, expired);
    }
  }

  lemma {:induction false} BuildSnoc(state: Header, batches: seq<seq<Payload>>, last: seq<Payload>)
    ensures var (before, events) := Build(state, batches);
            Build(state, batches + [last]) == (Appended(before, last), events + Numbered(before.conversation, before.next, last))
    decreases |batches|
  {
    if batches == [] {
      assert (batches + [last])[1..] == [];
      var numbered := Numbered(state.conversation, state.next, last);
      assert numbered + [] == numbered && [] + numbered == numbered;
    } else {
      assert (batches + [last])[1..] == batches[1..] + [last];
      BuildSnoc(Appended(state, batches[0]), batches[1..], last);
      var (before, events) := Build(Appended(state, batches[0]), batches[1..]);
      var first, more := Numbered(state.conversation, state.next, batches[0]), Numbered(before.conversation, before.next, last);
      assert first + (events + more) == (first + events) + more;
    }
  }

  function Pruned(log: Log, expired: set<TurnId>): Log {
    log.(stored := WithoutTurns(log.stored, expired))
  }

  // ----- Runs -----

  /**
   * One transaction. Commits carry a state and events built by transitions from what the log held
   * at an earlier moment; `read` counts the transactions before that moment. A facade mutation may
   * raise the version by itself, as an interrupt and a switch request do; `UpdateBinding` stands for
   * every transaction that stores the conversation at its present version.
   */
  datatype Step =
    | Create(version: nat)
    | Import(version: nat, batches: seq<seq<Payload>>)
    | Batch(read: nat, owned: bool, batches: seq<seq<Payload>>)
    | Facade(read: nat, owner: nat, deletes: bool, raised: nat, batches: seq<seq<Payload>>)
    | UpdateBinding
    | Prune(interrupted: seq<seq<Payload>>, rotated: Payload, expired: set<TurnId>)

  /** The state a facade mutation builds on: soft deletion marks the header, some requests raise its version. */
  function FacadeState(snapshot: Header, deletes: bool, raised: nat): Header {
    snapshot.(deleted := snapshot.deleted || deletes, version := snapshot.version + raised)
  }

  /** Whether a step does anything to the log, given what the run did before. */
  predicate GoesThrough(conversation: ConversationId, owner: nat, history: seq<Log>, step: Step)
    requires history != []
  {
    var row := history[|history| - 1].header;
    match step
    case Create(_) => row.None?
    case Import(_, _) => row.None?
    case Batch(read, owned, batches) =>
      read < |history| && history[read].header.Some? &&
      var snapshot := history[read].header.value;
      var (state, events) := Build(snapshot, batches);
      BatchError(row, conversation, owned, snapshot.version, state, events).None?
    case Facade(read, caller, deletes, raised, batches) =>
      read < |history| && history[read].header.Some? &&
      var snapshot := history[read].header.value;
      var (state, events) := Build(FacadeState(snapshot, deletes, raised), batches);
      FacadeError(row, conversation, caller, snapshot.version, state, events).None?
    case UpdateBinding => true
    case Prune(_, _, _) => row.Some?
  }

  predicate CarriesEvents(batches: seq<seq<Payload>>) {
    exists batch <- batches :: |batch| != 0
  }

  /** Whether a step that goes through carries an event or raises the version. */
  predicate Moves(step: Step) {
    match step
    case Create(_) => true
    case Import(_, _) => true
    case Batch(_, _, batches) => CarriesEvents(batches)
    case Facade(_, _, _, raised, batches) => raised > 0 || CarriesEvents(batches)
    case UpdateBinding => false
    case Prune(_, _, _) => true
  }

  /** Since the moment `read` of the run no step with an event or a new version went through. */
  predicate Unmoved(conversation: ConversationId, owner: nat, steps: seq<Step>, read: nat) {
    forall k | read <= k < |steps| ::
      Moves(steps[k]) ==> !GoesThrough(conversation, owner, Run(conversation, owner, steps[..k]), steps[k])
  }

  function Apply(conversation: ConversationId, owner: nat, history: seq<Log>, step: Step): Log
    requires history != []
  {
    var log := history[|history| - 1];
    if !GoesThrough(conversation, owner, history, step) then log
    else
    match step
    case Create(version) => log.(header := Some(Header(conversation, owner, false, version, 1)))
    case Import(version, batches) =>
      var (state, events) := Build(Header(conversation, owner, false, version, 1), batches);
      Committed(log, state, events)
    case Batch(read, _, batches) =>
      var (state, events) := Build(history[read].header.value, batches);
      Committed(log, state, events)
    case Facade(read, _, deletes, raised, batches) =>
      var (state, events) := Build(FacadeState(history[read].header.value, deletes, raised), batches);
      Committed(log, state, events)
    case UpdateBinding => log
    case Prune(interrupted, rotated, expired) =>
      var (state, events) := Build(log.header.value, interrupted + [[rotated]]);
      Pruned(Committed(log, state, events), expired)
  }

  function Run(conversation: ConversationId, owner: nat, steps: seq<Step>): (history: seq<Log>)
    ensures |history| == |steps| + 1
  {
    if steps == [] then [EMPTY_LOG]
    else
      var before := Run(conversation, owner, steps[..|steps| - 1]);
      before + [Apply(conversation, owner, before, steps[|steps| - 1])]
  }

  /** Numbers ever issued are exactly 1 to next-1, each once and in order; rows are a part of them. */
  ghost predicate WellNumbered(log: Log, conversation: ConversationId, owner: nat) {
    && Consecutive(log.issued, conversation, 1)
    && (log.header.None? ==> log.issued == [])
    && (log.header.Some? ==>
          && log.header.value.conversation == conversation && log.header.value.owner == owner
          && log.header.value.next == |log.issued| + 1)
    && forall s <- log.stored :: 1 <= s <= |log.issued| && log.stored[s] == log.issued[s - 1].payload
  }

  /** What one transaction may do to a log. */
  ghost predicate Extends(before: Log, after: Log) {
    && before.issued <= after.issued
    && (before.header.Some? ==>
          && after.header.Some?
          && before.header.value.version <= after.header.value.version
          && (before.issued != after.issued ==> before.header.value.version < after.header.value.version))
    && forall s <- after.stored | s <= |before.issued| :: s in before.stored && after.stored[s] == before.stored[s]
  }

  lemma {:induction false} InsertedKeys(stored: map<nat, Payload>, events: seq<Event>, conversation: ConversationId, first: nat)
    requires Consecutive(events, conversation, first)
    ensures forall s :: s in Inserted(stored, events) <==> s in stored || first <= s < first + |events|
    ensures forall s <- Inserted(stored, events) :: Inserted(stored, events)[s] ==
              if first <= s < first + |events| then events[s - first].payload else stored[s]
  {
    if events != [] {
      InsertedKeys(stored, events[..|events| - 1], conversation, first);
    }
  }

  lemma CommittedExtends(log: Log, conversation: ConversationId, owner: nat, state: Header, events: seq<Event>)
    requires WellNumbered(log, conversation, owner)
    requires Consecutive(events, conversation, |log.issued| + 1)
    requires state.conversation == conversation && state.owner == owner && state.next == |log.issued| + 1 + |events|
    requires log.header.Some? ==>
               state.version >= log.header.value.version && (events != [] ==> state.version > log.header.value.version)
    ensures WellNumbered(Committed(log, state, events), conversation, owner)
    ensures Extends(log, Committed(log, state, events))
  {
    InsertedKeys(log.stored, events, conversation, |log.issued| + 1);
  }

  lemma PrunedExtends(before: Log, log: Log, conversation: ConversationId, owner: nat, expired: set<TurnId>)
    requires WellNumbered(log, conversation, owner) && Extends(before, log)
    ensures WellNumbered(Pruned(log, expired), conversation, owner) && Extends(before, Pruned(log, expired))
  {
  }

  ghost predicate GoodHistory(history: seq<Log>, conversation: ConversationId, owner: nat) {
    && history != []
    && (forall log <- history :: WellNumbered(log, conversation, owner))
    && forall i, j | 0 <= i <= j < |history| :: Extends(history[i], history[j])
  }

  /** The events of a chain are none exactly if every call was made with none. */
  lemma {:induction false} BuildIsEmpty(state: Header, batches: seq<seq<Payload>>)
    ensures Build(state, batches).1 != [] <==> CarriesEvents(batches)
    decreases |batches|
  {
    if batches != [] {
      var rest := Build(Appended(state, batches[0]), batches[1..]).1;
      BuildIsEmpty(Appended(state, batches[0]), batches[1..]);
      assert |Build(state, batches).1| == |batches[0]| + |rest|;
      assert forall batch :: batch in batches <==> batch == batches[0] || batch in batches[1..];
      if |batches[0]| == 0 && CarriesEvents(batches[1..]) {
        var batch :| batch in batches[1..] && |batch| != 0;
        assert batch in batches;
      }
    }
  }

  /** How one step leaves a row that was there before it. */
  ghost predicate Advances(before: Log, after: Log, step: Step, through: bool) {
    before.header.Some? ==>
      after.header.Some? &&
      if through && Moves(step) then before.header.value.version < after.header.value.version
      else after.header.value.version == before.header.value.version && after.issued == before.issued
  }

  lemma CommitExtends(conversation: ConversationId, owner: nat, history: seq<Log>, start: Header, batches: seq<seq<Payload>>)
    requires history != []
    requires var log := history[|history| - 1];
             && WellNumbered(log, conversation, owner) && log.header.Some?
             && start.conversation == conversation && start.owner == owner
             && start.next == log.header.value.next && start.version >= log.header.value.version
    ensures var (log, (state, events)) := (history[|history| - 1], Build(start, batches));
            && WellNumbered(Committed(log, state, events), conversation, owner)
            && Extends(log, Committed(log, state, events))
            && (state.version == log.header.value.version
                <==> start.version == log.header.value.version && !CarriesEvents(batches))
            && state.version >= log.header.value.version
            && (events != [] <==> CarriesEvents(batches))
  {
    var log := history[|history| - 1];
    BuildShape(start, batches);
    BuildIsEmpty(start, batches);
    var (state, events) := Build(start, batches);
    CommittedExtends(log, conversation, owner, state, events);
  }

  /** A step that goes through from a snapshot finds the row at the snapshot's version and number. */
  lemma FreshSnapshot(conversation: ConversationId, owner: nat, history: seq<Log>, read: nat)
    requires GoodHistory(history, conversation, owner) && read < |history| && history[read].header.Some?
    ensures var log := history[|history| - 1];
            && log.header.Some? && log.header.value.owner == owner
            && history[read].header.value.conversation == conversation && history[read].header.value.owner == owner
            && history[read].header.value.version <= log.header.value.version
            && (history[read].header.value.version == log.header.value.version ==>
                  history[read].issued == log.issued && history[read].header.value.next == log.header.value.next)
  {
    var log := history[|history| - 1];
    assert history[read] in history && log in history && Extends(history[read], log);
  }

  lemma StepExtends(conversation: ConversationId, owner: nat, history: seq<Log>, step: Step)
    requires GoodHistory(history, conversation, owner)
    ensures var (log, after) := (history[|history| - 1], Apply(conversation, owner, history, step));
            && WellNumbered(after, conversation, owner) && Extends(log, after)
            && Advances(log, after, step, GoesThrough(conversation, owner, history, step))
  {
    var log := history[|history| - 1];
    assert log in history;
    if GoesThrough(conversation, owner, history, step) {
      match step
      case Create(_) =>
      case UpdateBinding =>
      case Import(version, batches) =>
        var created := Header(conversation, owner, false, version, 1);
        BuildShape(created, batches);
        var (state, events) := Build(created, batches);
        CommittedExtends(log, conversation, owner, state, events);
      case Batch(read, _, batches) =>
        FreshSnapshot(conversation, owner, history, read);
        CommitExtends(conversation, owner, history, history[read].header.value, batches);
      case Facade(read, _, deletes, raised, batches) =>
        FreshSnapshot(conversation, owner, history, read);
        CommitExtends(conversation, owner, history, FacadeState(history[read].header.value, deletes, raised), batches);
      case Prune(interrupted, rotated, expired) =>
        var batches := interrupted + [[rotated]];
        CommitExtends(conversation, owner, history, log.header.value, batches);
        assert batches[|interrupted|] == [rotated] && [rotated] in batches && |[rotated]| == 1;
        var (state, events) := Build(log.header.value, batches);
        PrunedExtends(log, Committed(log, state, events), conversation, owner, expired);
    }
  }

  lemma ExtendsIsTransitive(a: Log, b: Log, c: Log, conversation: ConversationId, owner: nat)
    requires WellNumbered(b, conversation, owner) && Extends(a, b) && Extends(b, c)
    ensures Extends(a, c)
  {
  }

  /**
   * In every run, each log of the run numbers its events 1, 2, 3, … without gap or repetition, every
   * later log extends every earlier one, and a number whose event was pruned stays empty for good.
   */
  lemma {:induction false} RunKeepsLog(conversation: ConversationId, owner: nat, steps: seq<Step>)
    ensures GoodHistory(Run(conversation, owner, steps), conversation, owner)
  {
    if steps != [] {
      var before, step := Run(conversation, owner, steps[..|steps| - 1]), steps[|steps| - 1];
      RunKeepsLog(conversation, owner, steps[..|steps| - 1]);
      StepExtends(conversation, owner, before, step);
      var last, after := before[|before| - 1], Apply(conversation, owner, before, step);
      forall i | 0 <= i < |before| ensures Extends(before[i], after) {
        ExtendsIsTransitive(before[i], last, after, conversation, owner);
      }
    }
  }

  /** A pruning of the run that goes through and names the turn. */
  predicate PrunesTurn(history: seq<Log>, step: Step, turn: Option<TurnId>)
    requires history != []
  {
    step.Prune? && history[|history| - 1].header.Some? && turn.Some? && turn.value in step.expired
  }

  /** What one step does to the rows of the log. */
  ghost predicate StoresAll(history: seq<Log>, step: Step, after: Log)
    requires history != []
  {
    var log := history[|history| - 1];
    forall n: nat :: n in after.stored <==>
      && (n in log.stored || |log.issued| < n <= |after.issued|)
      && 1 <= n <= |after.issued| && !PrunesTurn(history, step, after.issued[n - 1].payload.turn)
  }

  lemma CommittedStores(log: Log, conversation: ConversationId, owner: nat, state: Header, events: seq<Event>)
    requires WellNumbered(log, conversation, owner) && Consecutive(events, conversation, |log.issued| + 1)
    ensures forall n: nat :: n in Committed(log, state, events).stored <==> n in log.stored || |log.issued| < n <= |log.issued| + |events|
  {
    InsertedKeys(log.stored, events, conversation, |log.issued| + 1);
  }

  lemma StepStores(conversation: ConversationId, owner: nat, history: seq<Log>, step: Step)
    requires GoodHistory(history, conversation, owner)
    ensures StoresAll(history, step, Apply(conversation, owner, history, step))
  {
    var log := history[|history| - 1];
    assert log in history && WellNumbered(log, conversation, owner);
    StepExtends(conversation, owner, history, step);
    if GoesThrough(conversation, owner, history, step) {
      match step
      case Create(_) =>
      case UpdateBinding =>
      case Import(version, batches) =>
        var created := Header(conversation, owner, false, version, 1);
        BuildShape(created, batches);
        CommittedStores(log, conversation, owner, Build(created, batches).0, Build(created, batches).1);
      case Batch(read, _, batches) =>
        FreshSnapshot(conversation, owner, history, read);
        var start := history[read].header.value;
        BuildShape(start, batches);
        CommittedStores(log, conversation, owner, Build(start, batches).0, Build(start, batches).1);
      case Facade(read, _, deletes, raised, batches) =>
        FreshSnapshot(conversation, owner, history, read);
        var start := FacadeState(history[read].header.value, deletes, raised);
        BuildShape(start, batches);
        CommittedStores(log, conversation, owner, Build(start, batches).0, Build(start, batches).1);
      case Prune(interrupted, rotated, expired) =>
        PruneStores(conversation, owner, history, step);
    }
  }

  lemma PruneStores(conversation: ConversationId, owner: nat, history: seq<Log>, step: Step)
    requires GoodHistory(history, conversation, owner) && step.Prune? && history[|history| - 1].header.Some?
    ensures StoresAll(history, step, Apply(conversation, owner, history, step))
  {
    var log := history[|history| - 1];
    assert log in history && WellNumbered(log, conversation, owner);
    var batches := step.interrupted + [[step.rotated]];
    BuildShape(log.header.value, batches);
    var (state, events) := Build(log.header.value, batches);
    CommittedStores(log, conversation, owner, state, events);
    StepExtends(conversation, owner, history, step);
    CommitExtends(conversation, owner, history, log.header.value, batches);
    var committed := Committed(log, state, events);
    assert forall n <- committed.stored :: committed.stored[n] == committed.issued[n - 1].payload;
  }

  /** From the step that issued it on, no pruning of the run named the turn of event `n`. */
  ghost predicate NeverPruned(conversation: ConversationId, owner: nat, steps: seq<Step>, n: nat, turn: Option<TurnId>) {
    |steps| == 0 ||
    var (front, last) := (steps[..|steps| - 1], steps[|steps| - 1]);
    && NeverPruned(conversation, owner, front, n, turn)
    && (n <= |Run(conversation, owner, steps)[|steps|].issued| ==> !PrunesTurn(Run(conversation, owner, front), last, turn))
  }

  /**
   * Exactly what the log holds, in every run: an event number is stored if and only if it was issued
   * and no pruning from the step that issued it on named the turn of its event; and then the event
   * under it is the one that was issued.
   */
  lemma {:induction false} StoredExactlyWhenKept(conversation: ConversationId, owner: nat, steps: seq<Step>, n: nat)
    ensures var log := Run(conversation, owner, steps)[|steps|];
            && (n in log.stored <==> 1 <= n <= |log.issued| && NeverPruned(conversation, owner, steps, n, log.issued[n - 1].payload.turn))
            && (n in log.stored ==> log.stored[n] == log.issued[n - 1].payload)
    decreases |steps|
  {
    RunKeepsLog(conversation, owner, steps);
    var history := Run(conversation, owner, steps);
    assert history[|steps|] in history;
    if |steps| != 0 {
      var last := |steps| - 1;
      var before := Run(conversation, owner, steps[..last]);
      RunKeepsLog(conversation, owner, steps[..last]);
      StepStores(conversation, owner, before, steps[last]);
      StepExtends(conversation, owner, before, steps[last]);
      StoredExactlyWhenKept(conversation, owner, steps[..last], n);
      var log := history[|steps|];
      if 1 <= n <= |log.issued| {
        var turn := log.issued[n - 1].payload.turn;
        if n > |before[last].issued| {
          NewIsUnpruned(conversation, owner, steps[..last], n, turn);
        }
      }
    }
  }

  /** A number that is not issued yet was pruned by nobody. */
  lemma {:induction false} NewIsUnpruned(conversation: ConversationId, owner: nat, steps: seq<Step>, n: nat, turn: Option<TurnId>)
    requires n > |Run(conversation, owner, steps)[|steps|].issued|
    ensures NeverPruned(conversation, owner, steps, n, turn)
    decreases |steps|
  {
    if |steps| != 0 {
      var front := steps[..|steps| - 1];
      RunKeepsLog(conversation, owner, steps);
      var history := Run(conversation, owner, steps);
      assert Extends(history[|front|], history[|steps|]);
      NewIsUnpruned(conversation, owner, front, n, turn);
    }
  }

  /**
   * The version of the row says exactly whether anything moved it: from any moment of a run on, it
   * is the same as then if and only if no step with an event or a raised version went through.
   */
  lemma {:induction false} VersionTellsMoves(conversation: ConversationId, owner: nat, steps: seq<Step>, read: nat)
    requires read <= |steps| && Run(conversation, owner, steps)[read].header.Some?
    ensures var history := Run(conversation, owner, steps);
            && history[|steps|].header.Some?
            && (history[|steps|].header.value.version == history[read].header.value.version
                <==> Unmoved(conversation, owner, steps, read))
            && (Unmoved(conversation, owner, steps, read) ==> history[|steps|].issued == history[read].issued)
    decreases |steps|
  {
    var history := Run(conversation, owner, steps);
    RunKeepsLog(conversation, owner, steps);
    assert history[read] in history && Extends(history[read], history[|steps|]);
    if read < |steps| {
      var n := |steps| - 1;
      var front := steps[..n];
      var before := Run(conversation, owner, front);
      assert history[..|steps|] == before;
      VersionTellsMoves(conversation, owner, front, read);
      RunKeepsLog(conversation, owner, front);
      StepExtends(conversation, owner, before, steps[n]);
      UnmovedSnoc(conversation, owner, steps, read);
    }
  }

  lemma UnmovedSnoc(conversation: ConversationId, owner: nat, steps: seq<Step>, read: nat)
    requires read < |steps|
    ensures var n := |steps| - 1;
            Unmoved(conversation, owner, steps, read) <==>
            && Unmoved(conversation, owner, steps[..n], read)
            && (Moves(steps[n]) ==> !GoesThrough(conversation, owner, Run(conversation, owner, steps[..n]), steps[n]))
  {
    var front := steps[..|steps| - 1];
    assert forall k | 0 <= k < |front| :: front[k] == steps[k] && front[..k] == steps[..k];
  }

  /**
   * The version check is exactly serialization: a batch built from an earlier moment of the run is
   * accepted if and only if its owner check passes and nothing that carries an event or raises the
   * version went through since that moment. An event issued since always makes it conflict.
   */
  lemma BatchAcceptedExactlyWhenFresh(conversation: ConversationId, owner: nat, steps: seq<Step>,
                                      read: nat, owned: bool, batches: seq<seq<Payload>>)
    requires read <= |steps| && Run(conversation, owner, steps)[read].header.Some?
    ensures var history := Run(conversation, owner, steps);
            var snapshot := history[read].header.value;
            var (state, events) := Build(snapshot, batches);
            var error := BatchError(history[|steps|].header, conversation, owned, snapshot.version, state, events);
            && (error.None? <==> owned && Unmoved(conversation, owner, steps, read))
            && (owned && !Unmoved(conversation, owner, steps, read) ==> error == Some(Conflict))
            && (history[|steps|].issued != history[read].issued ==> !Unmoved(conversation, owner, steps, read))
            && (error.None? ==> Apply(conversation, owner, history, Batch(read, owned, batches)).issued
                                == history[read].issued + events)
  {
    RunKeepsLog(conversation, owner, steps);
    VersionTellsMoves(conversation, owner, steps, read);
    var history := Run(conversation, owner, steps);
    FreshSnapshot(conversation, owner, history, read);
    BuildShape(history[read].header.value, batches);
  }

  /** The same for a facade mutation by the owner. */
  lemma FacadeAcceptedExactlyWhenFresh(conversation: ConversationId, owner: nat, steps: seq<Step>,
                                       read: nat, deletes: bool, raised: nat, batches: seq<seq<Payload>>)
    requires read <= |steps| && Run(conversation, owner, steps)[read].header.Some?
    ensures var history := Run(conversation, owner, steps);
            var snapshot := history[read].header.value;
            var (state, events) := Build(FacadeState(snapshot, deletes, raised), batches);
            var error := FacadeError(history[|steps|].header, conversation, owner, snapshot.version, state, events);
            history[|steps|].header.Some?
            && (error.None? <==> (history[|steps|].header.value.deleted ==> snapshot.deleted || deletes)
                                 && Unmoved(conversation, owner, steps, read))
  {
    RunKeepsLog(conversation, owner, steps);
    VersionTellsMoves(conversation, owner, steps, read);
    var history := Run(conversation, owner, steps);
    FreshSnapshot(conversation, owner, history, read);
    BuildShape(FacadeState(history[read].header.value, deletes, raised), batches);
  }

  /**
   * Commits form one chain exactly as far as they move the conversation: whatever goes first, a batch
   * built from the moment before it conflicts if and only if the first one went through with an
   * event or a raised version. Two commits with neither both succeed.
   */
  lemma SecondWriterConflicts(conversation: ConversationId, owner: nat, steps: seq<Step>, read: nat,
                              first: Step, second: seq<seq<Payload>>)
    requires read <= |steps| && Run(conversation, owner, steps)[read].header.Some?
    requires Unmoved(conversation, owner, steps, read)
    ensures var before := Run(conversation, owner, steps);
            var after := Run(conversation, owner, steps + [first]);
            var (state, events) := Build(before[read].header.value, second);
            var error := BatchError(after[|steps| + 1].header, conversation, true, before[read].header.value.version, state, events);
            && error == (if GoesThrough(conversation, owner, before, first) && Moves(first) then Some(Conflict) else None)
            && (first.Batch? && first.read == read && first.owned ==> GoesThrough(conversation, owner, before, first))
  {
    var longer := steps + [first];
    assert longer[..|steps|] == steps;
    assert Run(conversation, owner, longer)[read] == Run(conversation, owner, steps)[read];
    UnmovedSnoc(conversation, owner, longer, read);
    BatchAcceptedExactlyWhenFresh(conversation, owner, longer, read, true, second);
    if first.Batch? {
      BatchAcceptedExactlyWhenFresh(conversation, owner, steps, read, true, first.batches);
    }
  }
}
