// Crash recovery of one conversation: classifying what a lost worker left, and settling it.
module Recovery {
  import opened Wrappers
  import opened Commands
  import opened Sorting
  import Database

  datatype TurnStatus = Running | Waiting | Queued | Ended

  datatype Turn = Turn(id: TurnId, command: Option<CommandId>, status: TurnStatus)

  datatype Binding = Binding(id: nat, hasSession: bool, requiresRecreation: bool)

  /** What recovery reads of a conversation; commands in dictionary order, `cursor` is the split stream's binding. */
  datatype State = State(
    commands: seq<Command>,
    activeTurn: Option<Turn>,
    queuedTurn: bool,
    runningActivities: bool,
    liveStatus: bool,
    binding: Option<Binding>,
    cursor: Option<nat>)

  datatype DecisionKind =
    LeaveClaimable | Reclaim | MarkUnknown | NativeResume | Reattach | HandoffFallback | InvariantFailure | NoAction

  datatype Reason = Nothing | WorkerLost | DeliveryAmbiguous | TurnLost | Reattached | UnchangedLaunch | Fallback | Broken

  datatype Decision = Decision(kind: DecisionKind, reason: Reason, phase: Option<Status>, command: Option<CommandId>, turn: Option<TurnId>)

  // ----- Classification -----

  predicate HasLiveWork(s: State) {
    s.activeTurn.Some? || s.queuedTurn || s.runningActivities || s.liveStatus
  }

  predicate Resumable(s: State) {
    s.binding.Some? && s.binding.value.hasSession && !s.binding.value.requiresRecreation
  }

  /** A split cursor for the current binding exists. */
  predicate Reattachable(s: State) {
    s.cursor.Some? && s.binding.Some? && s.cursor.value == s.binding.value.id
  }

  predicate NeedsInterruptMessages(s: State, turn: Option<TurnId>) {
    turn.Some? && s.activeTurn.Some? && s.activeTurn.value.id == turn.value && !s.activeTurn.value.status.Ended?
  }

  /** `_continue_live_work`. */
  function ContinueLiveWork(s: State, supportsResume: bool, phase: Option<Status>, command: Option<CommandId>, turn: Option<TurnId>): Decision {
    var resumable := supportsResume && Resumable(s);
    if NeedsInterruptMessages(s, turn) then
      if Reattachable(s) then Decision(Reattach, Reattached, phase, command, turn)
      else if resumable then Decision(MarkUnknown, TurnLost, phase, command, turn)
      else Decision(HandoffFallback, Fallback, phase, command, turn)
    else if resumable then Decision(NativeResume, UnchangedLaunch, phase, command, turn)
    else Decision(HandoffFallback, Fallback, phase, command, turn)
  }

  predicate Ambiguous(c: Command) {
    c.status.DeliveryStarted? || (c.status.Claimed? && c.startedAt.Some?)
  }

  predicate IsRoot(s: State, c: Command) {
    s.activeTurn.Some? && s.activeTurn.value.command == Some(c.id)
  }

  function TurnOf(s: State, c: Command): Option<TurnId> {
    if IsRoot(s, c) then Some(s.activeTurn.value.id) else c.targetTurn
  }

  /** `classify_command`. */
  function ClassifyCommand(c: Command, s: State, now: Time, supportsResume: bool): Decision {
    var phase, turn := Some(c.status), TurnOf(s, c);
    if Terminal(c.status) then Decision(NoAction, Nothing, phase, Some(c.id), turn)
    else if c.status.Accepted? then Decision(LeaveClaimable, Nothing, phase, Some(c.id), turn)
    else if c.status.Claimed? && c.startedAt.None? && (c.leaseExpiresAt.None? || c.leaseExpiresAt.value < now) then
      Decision(Reclaim, WorkerLost, phase, Some(c.id), turn)
    else if Ambiguous(c) then Decision(MarkUnknown, DeliveryAmbiguous, phase, Some(c.id), turn)
    else if c.status.Delivered? then
      if !HasLiveWork(s) then Decision(InvariantFailure, Broken, phase, Some(c.id), turn)
      else ContinueLiveWork(s, supportsResume, phase, Some(c.id), turn)
    else Decision(NoAction, Nothing, phase, Some(c.id), turn)
  }

  predicate Interesting(c: Command) {
    !c.status.Settled? && !c.status.Coalesced?
  }

  function InterestingOf(commands: seq<Command>): seq<Command> {
    if commands == [] then []
    else
      var before, last := InterestingOf(commands[..|commands| - 1]), commands[|commands| - 1];
      if Interesting(last) then before + [last] else before
  }

  /** The sort key: ambiguous deliveries, the active turn's command, delivered ones, the rest; then age. */
  function RankOf(s: State, c: Command): nat {
    if Ambiguous(c) then 0 else if IsRoot(s, c) then 1 else if c.status.Delivered? then 2 else 3
  }

  predicate Precedes(s: State, a: Command, b: Command) {
    RankOf(s, a) < RankOf(s, b) || (RankOf(s, a) == RankOf(s, b) && a.createdAt <= b.createdAt)
  }

  function KeyOrder(s: State): Order<Command> {
    (a: Command, b: Command) => Precedes(s, a, b)
  }

  function Sorted(s: State, commands: seq<Command>): seq<Command> {
    Sort(KeyOrder(s), commands)
  }

  function Decisions(commands: seq<Command>, s: State, now: Time, supportsResume: bool): (r: seq<Decision>)
    ensures |r| == |commands|
    ensures forall i | 0 <= i < |r| :: r[i] == ClassifyCommand(commands[i], s, now, supportsResume)
  {
    seq(|commands|, i requires 0 <= i < |commands| => ClassifyCommand(commands[i], s, now, supportsResume))
  }

  /** `classify_conversation`. */
  function Classify(s: State, now: Time, supportsResume: bool): (r: seq<Decision>)
    ensures r != []
  {
    var interesting := Sorted(s, InterestingOf(s.commands));
    if interesting != [] then Decisions(interesting, s, now, supportsResume)
    else if HasLiveWork(s) then
      [ContinueLiveWork(s, supportsResume, None, None, if s.activeTurn.Some? then Some(s.activeTurn.value.id) else None)]
    else [Decision(NoAction, Nothing, None, None, None)]
  }

  predicate DistinctIds(commands: seq<Command>) {
    forall i, j | 0 <= i < j < |commands| :: commands[i].id != commands[j].id
  }

  /** The loop of `classify_conversation` with its set of seen ids, on the sorted list. */
  method ClassifyConversation(s: State, now: Time, supportsResume: bool) returns (decisions: seq<Decision>)
    requires DistinctIds(s.commands)
    ensures decisions == Classify(s, now, supportsResume)
  {
    var interesting := [];
    for i := 0 to |s.commands|
      invariant interesting == InterestingOf(s.commands[..i])
    {
      assert s.commands[..i + 1][..i] == s.commands[..i];
      if Interesting(s.commands[i]) {
        interesting := interesting + [s.commands[i]];
      }
    }
    assert s.commands[..|s.commands|] == s.commands;
    InterestingIsDistinct(s.commands);
    SortIsDistinct(s, interesting);
    interesting := Sorted(s, interesting);
    decisions := [];
    var seen: set<CommandId> := {};
    for i := 0 to |interesting|
      invariant decisions == Decisions(interesting[..i], s, now, supportsResume)
      invariant forall id :: id in seen <==> exists k :: 0 <= k < i && interesting[k].id == id
    {
      if interesting[i].id in seen {
        assert false;
        continue;
      }
      seen := seen + {interesting[i].id};
      decisions := decisions + [ClassifyCommand(interesting[i], s, now, supportsResume)];
    }
    assert interesting[..|interesting|] == interesting;
    if decisions == [] && HasLiveWork(s) {
      decisions := [ContinueLiveWork(s, supportsResume, None, None, if s.activeTurn.Some? then Some(s.activeTurn.value.id) else None)];
    } else if decisions == [] {
      decisions := [Decision(NoAction, Nothing, None, None, None)];
    }
  }

  lemma {:induction false} InterestingIsDistinct(commands: seq<Command>)
    ensures forall c :: c in InterestingOf(commands) <==> c in commands && Interesting(c)
    ensures DistinctIds(commands) ==> DistinctIds(InterestingOf(commands))
  {
    if commands != [] {
      var front, last := commands[..|commands| - 1], commands[|commands| - 1];
      InterestingIsDistinct(front);
      assert commands == front + [last];
      if DistinctIds(commands) {
        forall c <- InterestingOf(front) ensures c.id != last.id {
          var k :| 0 <= k < |front| && front[k] == c;
          assert commands[k].id != commands[|commands| - 1].id;
        }
      }
    }
  }

  lemma KeyOrderIsTotal(s: State)
    ensures TotalOrder(KeyOrder(s))
  {
  }

  /** The sort is a permutation in key order, and commands with equal keys keep their order. */
  lemma SortedIsStable(s: State, commands: seq<Command>)
    ensures forall i, j | 0 <= i < j < |Sorted(s, commands)| :: Precedes(s, Sorted(s, commands)[i], Sorted(s, commands)[j])
    ensures multiset(Sorted(s, commands)) == multiset(commands)
    ensures forall key :: Level(KeyOrder(s), Sorted(s, commands), key) == Level(KeyOrder(s), commands, key)
  {
    KeyOrderIsTotal(s);
    SortSorts(KeyOrder(s), commands);
    forall i, j | 0 <= i < j < |Sorted(s, commands)| ensures Precedes(s, Sorted(s, commands)[i], Sorted(s, commands)[j]) {
      assert KeyOrder(s)(Sorted(s, commands)[i], Sorted(s, commands)[j]);
    }
    forall key ensures Level(KeyOrder(s), Sorted(s, commands), key) == Level(KeyOrder(s), commands, key) {
      SortIsStable(KeyOrder(s), commands, key);
    }
  }

  lemma SortIsDistinct(s: State, commands: seq<Command>)
    requires DistinctIds(commands)
    ensures DistinctIds(Sorted(s, commands))
  {
    SortedIsStable(s, commands);
    var id := (c: Command) => c.id;
    assert DistinctBy(id, commands);
    PermutationKeepsDistinct(id, commands, Sorted(s, commands));
    assert forall c: Command :: id(c) == c.id;
    forall i, j | 0 <= i < j < |Sorted(s, commands)| ensures Sorted(s, commands)[i].id != Sorted(s, commands)[j].id {
      assert id(Sorted(s, commands)[i]) != id(Sorted(s, commands)[j]);
    }
  }

  // ----- What the first decision is -----

  /** The command the first decision is about, if there is one. */
  function Head(s: State): Option<Command> {
    var sorted := Sorted(s, InterestingOf(s.commands));
    if sorted == [] then None else Some(sorted[0])
  }

  function FirstDecision(s: State, now: Time, supportsResume: bool): Decision {
    Classify(s, now, supportsResume)[0]
  }

  /** The head is a least command in key order; there is none exactly when no command is of interest. */
  lemma HeadIsLeast(s: State)
    ensures Head(s).None? <==> forall c <- s.commands :: !Interesting(c)
    ensures Head(s).Some? ==>
              Head(s).value in s.commands && Interesting(Head(s).value)
              && forall d <- s.commands | Interesting(d) :: Precedes(s, Head(s).value, d)
  {
    var interesting := InterestingOf(s.commands);
    var sorted := Sorted(s, interesting);
    InterestingIsDistinct(s.commands);
    SortedIsStable(s, interesting);
    assert forall c :: c in sorted <==> c in multiset(sorted);
    assert forall c :: c in interesting <==> c in multiset(interesting);
    if sorted != [] {
      assert sorted[0] in sorted;
      forall d <- s.commands | Interesting(d) ensures Precedes(s, sorted[0], d) {
        assert d in interesting;
        assert d in sorted;
        var k :| 0 <= k < |sorted| && sorted[k] == d;
      }
    }
  }

  /**
   * One command with an ambiguous delivery is enough: the first decision marks the oldest such
   * command's outcome as unknown, whatever the resume probe says and whatever else is live.
   */
  lemma AmbiguityDecides(s: State, now: Time, supportsResume: bool, c: Command)
    requires c in s.commands && Ambiguous(c)
    ensures var d := FirstDecision(s, now, supportsResume);
            && d.kind.MarkUnknown? && d.reason.DeliveryAmbiguous?
            && Head(s).Some? && d.command == Some(Head(s).value.id)
            && Head(s).value in s.commands && Ambiguous(Head(s).value)
            && forall other <- s.commands | Ambiguous(other) :: Head(s).value.createdAt <= other.createdAt
  {
    HeadIsLeast(s);
    assert Precedes(s, Head(s).value, c);
    assert forall other <- s.commands | Ambiguous(other) :: Precedes(s, Head(s).value, other);
  }

  /** Live work is continued only if a delivered command heads the list, or nothing does. */
  predicate Continues(s: State) {
    HasLiveWork(s) && (Head(s).None? || Head(s).value.status.Delivered?)
  }

  /** The turn a continuation is about. */
  predicate TurnInFlight(s: State) {
    NeedsInterruptMessages(s, if Head(s).Some? then TurnOf(s, Head(s).value)
                              else if s.activeTurn.Some? then Some(s.activeTurn.value.id) else None)
  }

  /**
   * The probe can change the first decision exactly when live work is continued on a resumable
   * session, except when a turn in flight can be reattached.
   */
  lemma ProbeMattersExactlyWhen(s: State, now: Time)
    ensures FirstDecision(s, now, false) != FirstDecision(s, now, true)
       <==> Continues(s) && Resumable(s) && !(TurnInFlight(s) && Reattachable(s))
  {
    HeadIsLeast(s);
  }

  /**
   * Live work with no delivered command is left alone as soon as any command is of interest and no
   * delivery is ambiguous: even an old command of unknown outcome keeps it from being continued.
   */
  lemma OtherCommandsHideLiveWork(s: State, now: Time, supportsResume: bool, c: Command)
    requires c in s.commands && Interesting(c)
    requires forall d <- s.commands :: !Ambiguous(d) && !d.status.Delivered?
    ensures var kind := FirstDecision(s, now, supportsResume).kind;
            kind.NoAction? || kind.LeaveClaimable? || kind.Reclaim?
  {
    HeadIsLeast(s);
  }

  /** A decision that goes on with live work: on the session, by handoff, or by giving up the turn in flight. */
  predicate ContinuesWork(d: Decision) {
    d.kind.Reattach? || d.kind.NativeResume? || d.kind.HandoffFallback? || (d.kind.MarkUnknown? && d.reason.TurnLost?)
  }

  predicate RootIsInteresting(s: State) {
    exists c <- s.commands :: IsRoot(s, c) && Interesting(c)
  }

  /** The active turn's command is delivered or, when recovery has no interest in that one, some command is. */
  predicate DeliveredLeads(s: State) {
    exists c <- s.commands :: c.status.Delivered? && (RootIsInteresting(s) ==> IsRoot(s, c))
  }

  /** Read off the command list: the first command in sort order is a delivered one. */
  lemma HeadIsDeliveredExactlyWhen(s: State)
    requires DistinctIds(s.commands)
    ensures Head(s).Some? && Head(s).value.status.Delivered?
       <==> (forall c <- s.commands :: !Ambiguous(c)) && DeliveredLeads(s)
  {
    HeadIsLeast(s);
    if DeliveredLeads(s) && forall c <- s.commands :: !Ambiguous(c) {
      var c :| c in s.commands && c.status.Delivered? && (RootIsInteresting(s) ==> IsRoot(s, c));
      assert Precedes(s, Head(s).value, c);
      assert RankOf(s, Head(s).value) <= RankOf(s, c) <= 2;
      if IsRoot(s, Head(s).value) {
        assert RootIsInteresting(s);
        assert Head(s).value.id == c.id;
      }
    }
    if Head(s).Some? && Head(s).value.status.Delivered? {
      var h := Head(s).value;
      assert forall d <- s.commands | Interesting(d) :: RankOf(s, h) <= RankOf(s, d);
      if RootIsInteresting(s) {
        var root :| root in s.commands && IsRoot(s, root) && Interesting(root);
        assert RankOf(s, h) <= RankOf(s, root) <= 1;
      }
      assert forall d <- s.commands :: Ambiguous(d) ==> Interesting(d);
    }
  }

  /**
   * Exactly when recovery goes on with live work: there is some, no delivery is ambiguous, and either
   * no command is of interest at all or a delivered one leads. So one command of any other kind,
   * an old one of unknown outcome included, keeps live work waiting unless a delivered one leads.
   */
  lemma LiveWorkContinuesExactlyWhen(s: State, now: Time, supportsResume: bool)
    requires DistinctIds(s.commands)
    ensures ContinuesWork(FirstDecision(s, now, supportsResume))
       <==> && HasLiveWork(s)
            && (forall c <- s.commands :: !Ambiguous(c))
            && ((forall c <- s.commands :: !Interesting(c)) || DeliveredLeads(s))
  {
    HeadIsLeast(s);
    HeadIsDeliveredExactlyWhen(s);
  }

  /** The active turn is not over, and the first decision is about it. */
  predicate AboutTurnInFlight(s: State, head: Option<Command>) {
    && s.activeTurn.Some? && !s.activeTurn.value.status.Ended?
    && (head.None? || s.activeTurn.value.command == Some(head.value.id) || head.value.targetTurn == Some(s.activeTurn.value.id))
  }

  /** Each kind of decision exactly under one condition on the head of the list and the conversation. */
  predicate DecidedBy(d: Decision, s: State, head: Option<Command>, now: Time, probe: bool) {
    var live := s.activeTurn.Some? || s.queuedTurn || s.runningActivities || s.liveStatus;
    var goesOn, inFlight := live && (head.None? || head.value.status.Delivered?), AboutTurnInFlight(s, head);
    var stream := s.cursor.Some? && s.binding.Some? && s.cursor.value == s.binding.value.id;
    var session := probe && s.binding.Some? && s.binding.value.hasSession && !s.binding.value.requiresRecreation;
    && (d.kind.Reattach? <==> goesOn && inFlight && stream)
    && (d.kind.NativeResume? <==> goesOn && !inFlight && session)
    && (d.kind.HandoffFallback? <==> goesOn && !session && !(inFlight && stream))
    && (d.kind.MarkUnknown? <==>
          || (goesOn && inFlight && !stream && session)
          || (head.Some? && (head.value.status.DeliveryStarted? || (head.value.status.Claimed? && head.value.startedAt.Some?))))
    && (d.kind.InvariantFailure? <==> head.Some? && head.value.status.Delivered? && !live)
    && (d.kind.LeaveClaimable? <==> head.Some? && head.value.status.Accepted?)
    && (d.kind.Reclaim? <==> head.Some? && head.value.status.Claimed? && head.value.startedAt.None?
                             && (head.value.leaseExpiresAt.None? || head.value.leaseExpiresAt.value < now))
    && (head.Some? ==> d.command == Some(head.value.id) && d.phase == Some(head.value.status)
                       && d.turn == if s.activeTurn.Some? && s.activeTurn.value.command == d.command then Some(s.activeTurn.value.id)
                                    else head.value.targetTurn)
  }

  lemma CommandDecidedBy(c: Command, s: State, now: Time, probe: bool)
    ensures DecidedBy(ClassifyCommand(c, s, now, probe), s, Some(c), now, probe)
  {
  }

  /** What recovery decides first, for every conversation, clock and probe answer, read off the head of the list. */
  lemma FirstDecisionExactly(s: State, now: Time, probe: bool)
    ensures DecidedBy(FirstDecision(s, now, probe), s, Head(s), now, probe)
  {
    var sorted := Sorted(s, InterestingOf(s.commands));
    if |sorted| != 0 {
      assert FirstDecision(s, now, probe) == ClassifyCommand(sorted[0], s, now, probe);
      CommandDecidedBy(sorted[0], s, now, probe);
    }
  }

  /** What a decision leaves to the claim loop is what its query takes, and an undelivered claim without any lease. */
  lemma LeftToClaimsExactly(s: State, c: Command, now: Time, probe: bool)
    ensures (ClassifyCommand(c, s, now, probe).kind.LeaveClaimable? || ClassifyCommand(c, s, now, probe).kind.Reclaim?)
       <==> Database.Claimable(c, now) || (c.status.Claimed? && c.startedAt.None? && c.leaseExpiresAt.None?)
  {
  }

  /** A conversation with a running activity and the given commands. */
  function Busy(commands: seq<Command>): State {
    State(commands, None, false, true, false, None, None)
  }

  /** A concrete state: one old command of unknown outcome, and live work that is left alone because of it. */
  lemma OldUnknownHidesLiveWork()
    ensures var c := Command(7, 0, SubmitTurn, OutcomeUnknown, 1, None, None, None, None, None, None, None, 0);
            && FirstDecision(Busy([c]), 100, true).kind.NoAction?
            && FirstDecision(Busy([]), 100, true).kind.HandoffFallback?
  {
    var c := Command(7, 0, SubmitTurn, OutcomeUnknown, 1, None, None, None, None, None, None, None, 0);
    HeadIsLeast(Busy([c]));
    assert c in Busy([c]).commands;
  }

  /** `_classify`: probe only when the two answers differ. */
  method LazyClassify(s: State, now: Time, probe: bool) returns (d: Decision, probed: bool)
    requires DistinctIds(s.commands)
    ensures d == FirstDecision(s, now, probe && s.binding.Some?)
    ensures probed <==> Continues(s) && Resumable(s) && !(TurnInFlight(s) && Reattachable(s))
  {
    ProbeMattersExactlyWhen(s, now);
    var unsupported := ClassifyConversation(s, now, false);
    var supported := ClassifyConversation(s, now, true);
    if unsupported[0] == supported[0] {
      return supported[0], false;
    }
    d := if s.binding.Some? && probe then supported[0] else unsupported[0];
    probed := true;
  }

  // ----- Applying a decision -----

  /** Without a split cursor nothing is ever reattached. */
  lemma ClearedCursorNeverReattaches(s: State, now: Time, supportsResume: bool)
    ensures !FirstDecision(s.(cursor := None), now, supportsResume).kind.Reattach?
  {
    HeadIsLeast(s.(cursor := None));
  }

  datatype Action = CompleteAttempt | SettleUnknown | TryReattach(ok: bool) | TryResume(ok: bool) | Handoff

  /** An action that ends the recovery of the conversation. */
  predicate Final(a: Action) {
    !(a.TryReattach? && !a.ok) && !(a.TryResume? && !a.ok)
  }

  /** What each decision other than a reattach comes to: a settled attempt, a settled loss, the session, or a handoff. */
  function ActionsOf(kind: DecisionKind, resumes: bool): seq<Action> {
    if kind.MarkUnknown? || kind.InvariantFailure? then [SettleUnknown]
    else if kind.NativeResume? && resumes then [TryResume(true)]
    else if kind.NativeResume? then [TryResume(false), Handoff]
    else if kind.HandoffFallback? then [Handoff]
    else [CompleteAttempt]
  }

  /**
   * `_apply_decision`. Whatever is reloaded after a failed reattach, the recursion stops: at most one
   * reattach, then at most one resume, and exactly the last action is final.
   */
  method ApplyDecision(d: Decision, reattaches: bool, resumes: bool, reloaded: State, now: Time, probe: bool) returns (actions: seq<Action>)
    requires DistinctIds(reloaded.commands)
    ensures 1 <= |actions| <= (if d.kind.Reattach? then 3 else 2) && Final(actions[|actions| - 1])
    ensures forall i | 0 <= i < |actions| - 1 :: !Final(actions[i])
    ensures forall i | 0 < i < |actions| :: !actions[i].TryReattach?
    ensures d.kind.Reattach? <==> actions[0].TryReattach?
    ensures !d.kind.Reattach? ==> actions == ActionsOf(d.kind, resumes)
    ensures d.kind.Reattach? && reattaches ==> actions == [TryReattach(true)]
    ensures d.kind.Reattach? && !reattaches ==>
              actions == [TryReattach(false)]
                         + ActionsOf(FirstDecision(reloaded.(cursor := None), now, probe && reloaded.binding.Some?).kind, resumes)
    decreases if d.kind.Reattach? then 1 else 0
  {
    match d.kind
    case LeaveClaimable | Reclaim | NoAction => actions := [CompleteAttempt];
    case MarkUnknown | InvariantFailure => actions := [SettleUnknown];
    case Reattach =>
      if reattaches {
        return [TryReattach(true)];
      }
      var state := reloaded.(cursor := None);
      ClearedCursorNeverReattaches(state, now, probe && state.binding.Some?);
      assert state.(cursor := None) == state;
      var next, _ := LazyClassify(state, now, probe);
      var rest := ApplyDecision(next, reattaches, resumes, reloaded, now, probe);
      actions := [TryReattach(false)] + rest;
    case NativeResume => actions := if resumes then [TryResume(true)] else [TryResume(false), Handoff];
    case HandoffFallback => actions := [Handoff];
  }

  // ----- Settling an unknown outcome -----

  /** The mark recovery puts on a command. */
  function Marked(c: Command, attempt: Option<nat>): Command {
    c.(status := OutcomeUnknown, recoveryAttempt := attempt, worker := None, leaseExpiresAt := None)
  }

  /** What `mark_outcome_unknown` does to the commands: only the active turn's own is flipped. */
  function Flipped(s: State, c: Command): Command {
    if IsRoot(s, c) then c.(status := OutcomeUnknown) else c
  }

  /** A command of the new aggregate, outside a harness switch. */
  function Settled(s: State, c: Command, decided: Option<CommandId>, attempt: Option<nat>): Command {
    if decided == Some(c.id) then Marked(Flipped(s, c), attempt)
    else if Ambiguous(Flipped(s, c)) then Marked(Flipped(s, c), attempt)
    else Flipped(s, c)
  }

  /**
   * The command's outcome is unknown afterwards exactly if it was decided so, is the active turn's own,
   * was ambiguous, or was unknown before; the decided and the ambiguous ones are nobody's any more.
   */
  predicate OnlySettled(s: State, before: Command, after: Command, decided: Option<CommandId>, attempt: Option<nat>) {
    var root := s.activeTurn.Some? && s.activeTurn.value.command == Some(before.id);
    var ambiguous := before.status.DeliveryStarted? || (before.status.Claimed? && before.startedAt.Some?);
    && after.status == (if decided == Some(before.id) || root || ambiguous then OutcomeUnknown else before.status)
    && after.(status := before.status) == if decided == Some(before.id) || (ambiguous && !root)
                                          then before.(recoveryAttempt := attempt, worker := None, leaseExpiresAt := None)
                                          else before
  }

  function ReplaceAt(commands: seq<Command>, c: Command): (r: seq<Command>)
    ensures |r| == |commands|
    ensures forall i | 0 <= i < |r| :: r[i] == if commands[i].id == c.id then c else commands[i]
  {
    seq(|commands|, i requires 0 <= i < |commands| => if commands[i].id == c.id then c else commands[i])
  }

  /** Every listed row is a marked copy of a command of the aggregate, each at most once. */
  ghost predicate RowsFor(rows: seq<Command>, commands: seq<Command>, attempt: Option<nat>) {
    && DistinctIds(rows)
    && forall r <- rows :: r.recoveryAttempt == attempt && r.worker.None? && r.leaseExpiresAt.None? && r.status.OutcomeUnknown?
                           && exists c <- commands :: c.id == r.id
  }

  predicate Listed(rows: seq<Command>, id: CommandId) {
    exists r <- rows :: r.id == id
  }

  /**
   * The branch of `_apply_outcome_unknown` outside a switch: afterwards no command is ambiguous, in
   * the aggregate or among the rows written with it; exactly the commands whose outcome is unknown
   * get a row, and every other command stays as it was.
   */
  method SettleUnknownOutcome(s: State, decided: Option<CommandId>, attempt: Option<nat>) returns (commands: seq<Command>, rows: seq<Command>)
    requires DistinctIds(s.commands)
    ensures |commands| == |s.commands|
    ensures forall i | 0 <= i < |commands| :: commands[i] == Settled(s, s.commands[i], decided, attempt)
    ensures forall i | 0 <= i < |commands| :: OnlySettled(s, s.commands[i], commands[i], decided, attempt)
    ensures forall c <- commands :: !Ambiguous(c)
    ensures RowsFor(rows, s.commands, attempt)
    ensures forall c <- commands :: Listed(rows, c.id) <==> c.status.OutcomeUnknown?
  {
    commands, rows := MarkDecided(s, decided, attempt);
    SettlingStarts(s, commands, rows, decided, attempt);
    rows, commands := MarkAmbiguous(s, commands, rows, decided, attempt);
    SettlingEnds(s, commands, rows, decided, attempt);
    rows := ListFlipped(commands, s.commands, rows, attempt);
    ListingEnds(commands, rows);
  }

  lemma SettlingStarts(s: State, commands: seq<Command>, rows: seq<Command>, decided: Option<CommandId>, attempt: Option<nat>)
    requires |commands| == |s.commands|
    requires forall i | 0 <= i < |commands| :: commands[i] == AfterDecided(s, s.commands[i], decided, attempt)
    requires forall i | 0 <= i < |commands| :: Listed(rows, commands[i].id) <==> decided == Some(commands[i].id)
    ensures SettledUpTo(s, commands, rows, decided, attempt, 0)
  {
  }

  lemma SettlingEnds(s: State, commands: seq<Command>, rows: seq<Command>, decided: Option<CommandId>, attempt: Option<nat>)
    requires DistinctIds(s.commands) && SettledUpTo(s, commands, rows, decided, attempt, |s.commands|)
    ensures DistinctIds(commands) && ListedUpTo(commands, rows, 0)
    ensures forall i | 0 <= i < |commands| :: s.commands[i].id == commands[i].id && commands[i] == Settled(s, s.commands[i], decided, attempt)
    ensures forall c <- commands :: !Ambiguous(c)
  {
    forall c <- commands ensures !Ambiguous(c) {
      var k :| 0 <= k < |commands| && commands[k] == c;
      assert commands[k] == Settled(s, s.commands[k], decided, attempt);
    }
  }

  lemma ListingEnds(commands: seq<Command>, rows: seq<Command>)
    requires ListedUpTo(commands, rows, |commands|)
    ensures forall c <- commands :: Listed(rows, c.id) <==> c.status.OutcomeUnknown?
  {
    forall c <- commands ensures Listed(rows, c.id) <==> c.status.OutcomeUnknown? {
      var k :| 0 <= k < |commands| && commands[k] == c;
    }
  }

  function AfterDecided(s: State, c: Command, decided: Option<CommandId>, attempt: Option<nat>): Command {
    if decided == Some(c.id) then Marked(Flipped(s, c), attempt) else Flipped(s, c)
  }

  /** The transition, then the mark on the decision's own command. */
  method MarkDecided(s: State, decided: Option<CommandId>, attempt: Option<nat>) returns (commands: seq<Command>, rows: seq<Command>)
    requires DistinctIds(s.commands)
    ensures |commands| == |s.commands|
    ensures forall i | 0 <= i < |commands| :: commands[i] == AfterDecided(s, s.commands[i], decided, attempt)
    ensures RowsFor(rows, s.commands, attempt)
    ensures forall i | 0 <= i < |commands| :: Listed(rows, commands[i].id) <==> decided == Some(commands[i].id)
  {
    commands := seq(|s.commands|, i requires 0 <= i < |s.commands| => AfterDecided(s, s.commands[i], decided, attempt));
    rows := [];
    for i := 0 to |commands|
      invariant rows == [] && forall k | 0 <= k < i :: decided != Some(commands[k].id)
    {
      if decided == Some(commands[i].id) {
        return commands, [commands[i]];
      }
    }
  }

  lemma RowAdded(rows: seq<Command>, base: seq<Command>, row: Command, attempt: Option<nat>)
    requires RowsFor(rows, base, attempt) && !Listed(rows, row.id)
    requires row.recoveryAttempt == attempt && row.worker.None? && row.leaseExpiresAt.None? && row.status.OutcomeUnknown?
    requires exists c <- base :: c.id == row.id
    ensures RowsFor(rows + [row], base, attempt)
    ensures forall id :: Listed(rows + [row], id) <==> Listed(rows, id) || id == row.id
  {
    var longer := rows + [row];
    assert forall r :: r in longer <==> r in rows || r == row;
    forall i | 0 <= i < |rows| ensures rows[i].id != row.id {
      assert rows[i] in rows;
    }
  }

  /** The first `n` commands are settled, and exactly the decided and the settled ambiguous ones are listed. */
  ghost predicate SettledUpTo(s: State, commands: seq<Command>, rows: seq<Command>, decided: Option<CommandId>, attempt: Option<nat>, n: nat) {
    && |commands| == |s.commands|
    && forall k | 0 <= k < |commands| ::
         var before := AfterDecided(s, s.commands[k], decided, attempt);
         && commands[k] == (if k < n then Settled(s, s.commands[k], decided, attempt) else before)
         && (Listed(rows, before.id) <==> decided == Some(before.id) || (k < n && Ambiguous(before)))
  }

  lemma SettleOne(s: State, commands: seq<Command>, rows: seq<Command>, decided: Option<CommandId>, attempt: Option<nat>, i: nat)
    requires DistinctIds(s.commands) && i < |s.commands|
    requires SettledUpTo(s, commands, rows, decided, attempt, i) && RowsFor(rows, s.commands, attempt)
    ensures var marked := Marked(commands[i], attempt);
            if Ambiguous(commands[i]) && !Listed(rows, commands[i].id)
            then SettledUpTo(s, commands[i := marked], rows + [marked], decided, attempt, i + 1) && RowsFor(rows + [marked], s.commands, attempt)
            else SettledUpTo(s, commands, rows, decided, attempt, i + 1)
  {
    assert s.commands[i] in s.commands;
    if Ambiguous(commands[i]) && !Listed(rows, commands[i].id) {
      RowAdded(rows, s.commands, Marked(commands[i], attempt), attempt);
    }
  }

  /** The loop that marks every ambiguous command not marked yet. */
  method MarkAmbiguous(s: State, before: seq<Command>, listed: seq<Command>, decided: Option<CommandId>, attempt: Option<nat>)
    returns (rows: seq<Command>, commands: seq<Command>)
    requires DistinctIds(s.commands)
    requires SettledUpTo(s, before, listed, decided, attempt, 0) && RowsFor(listed, s.commands, attempt)
    ensures SettledUpTo(s, commands, rows, decided, attempt, |s.commands|) && RowsFor(rows, s.commands, attempt)
  {
    commands, rows := before, listed;
    for i := 0 to |before|
      invariant SettledUpTo(s, commands, rows, decided, attempt, i) && RowsFor(rows, s.commands, attempt)
    {
      SettleOne(s, commands, rows, decided, attempt, i);
      var current := commands[i];
      if Ambiguous(current) && !Listed(rows, current.id) {
        var marked := Marked(current, attempt);
        rows := rows + [marked];
        commands := commands[i := marked];
      }
    }
  }

  /** The first `n` commands are listed exactly if their outcome is unknown, the others only if so. */
  ghost predicate ListedUpTo(commands: seq<Command>, rows: seq<Command>, n: nat) {
    forall k | 0 <= k < |commands| ::
      if k < n then Listed(rows, commands[k].id) <==> commands[k].status.OutcomeUnknown?
      else Listed(rows, commands[k].id) ==> commands[k].status.OutcomeUnknown?
  }

  lemma ListRow(commands: seq<Command>, base: seq<Command>, rows: seq<Command>, row: Command, attempt: Option<nat>, i: nat)
    requires DistinctIds(commands) && RowsFor(rows, base, attempt) && i < |commands| && !Listed(rows, row.id)
    requires |base| == |commands| && base[i].id == commands[i].id == row.id && commands[i].status.OutcomeUnknown?
    requires row.recoveryAttempt == attempt && row.worker.None? && row.leaseExpiresAt.None? && row.status.OutcomeUnknown?
    requires ListedUpTo(commands, rows, i)
    ensures RowsFor(rows + [row], base, attempt) && ListedUpTo(commands, rows + [row], i + 1)
  {
    assert base[i] in base;
    RowAdded(rows, base, row, attempt);
  }

  /** The loop that lists the commands the transition itself flipped. */
  method ListFlipped(commands: seq<Command>, ghost base: seq<Command>, listed: seq<Command>, attempt: Option<nat>) returns (rows: seq<Command>)
    requires DistinctIds(commands) && RowsFor(listed, base, attempt)
    requires |base| == |commands| && forall i | 0 <= i < |base| :: base[i].id == commands[i].id
    requires ListedUpTo(commands, listed, 0)
    ensures RowsFor(rows, base, attempt) && ListedUpTo(commands, rows, |commands|)
  {
    rows := listed;
    for i := 0 to |commands|
      invariant RowsFor(rows, base, attempt) && ListedUpTo(commands, rows, i)
    {
      if commands[i].status.OutcomeUnknown? && !Listed(rows, commands[i].id) {
        var row := commands[i].(recoveryAttempt := attempt, worker := None, leaseExpiresAt := None);
        ListRow(commands, base, rows, row, attempt, i);
        rows := rows + [row];
      }
    }
  }

  /** The switch branch: only the switch command itself is marked. */
  function SettleSwitch(s: State, switch: Command, attempt: Option<nat>): seq<Command> {
    ReplaceAt(s.commands, Marked(switch, attempt))
  }

  /** After a failed switch a delivery is still ambiguous exactly if some other one was. */
  lemma SwitchLeavesTheOthers(s: State, switch: Command, attempt: Option<nat>)
    requires DistinctIds(s.commands) && switch in s.commands
    ensures forall i | 0 <= i < |s.commands| ::
              SettleSwitch(s, switch, attempt)[i] ==
              if s.commands[i] == switch then switch.(status := OutcomeUnknown, recoveryAttempt := attempt, worker := None, leaseExpiresAt := None)
              else s.commands[i]
    ensures (forall c <- SettleSwitch(s, switch, attempt) :: !Ambiguous(c)) <==> (forall c <- s.commands | c.id != switch.id :: !Ambiguous(c))
  {
    var after := SettleSwitch(s, switch, attempt);
    if c :| c in s.commands && c.id != switch.id && Ambiguous(c) {
      var k :| 0 <= k < |s.commands| && s.commands[k] == c;
      assert after[k] == c && c in after;
    } else {
      forall c <- after ensures !Ambiguous(c) {
        var k :| 0 <= k < |after| && after[k] == c;
        assert s.commands[k] in s.commands;
      }
    }
  }

  /** The command rows after the batch upserts what it lists. */
  function Upsert(rows: map<CommandId, Command>, listed: seq<Command>): map<CommandId, Command> {
    if listed == [] then rows
    else Upsert(rows, listed[..|listed| - 1])[listed[|listed| - 1].id := listed[|listed| - 1]]
  }

  lemma {:induction false} UpsertWrites(rows: map<CommandId, Command>, listed: seq<Command>, id: CommandId)
    ensures id in Upsert(rows, listed) <==> id in rows || Listed(listed, id)
    ensures id in Upsert(rows, listed) ==>
              if Listed(listed, id) then Upsert(rows, listed)[id] in listed else Upsert(rows, listed)[id] == rows[id]
  {
    if listed != [] {
      var front, last := listed[..|listed| - 1], listed[|listed| - 1];
      UpsertWrites(rows, front, id);
      assert listed == front + [last];
      assert Listed(listed, id) <==> Listed(front, id) || last.id == id by {
        if Listed(front, id) {
          var r :| r in front && r.id == id;
          assert r in listed;
        }
        if last.id == id {
          assert last in listed;
        }
      }
    }
  }

  /**
   * And so in the command table: when the snapshot showed the rows as they were, no row of any of
   * its commands is ambiguous after the recovery batch.
   */
  lemma RowsEndUnambiguous(s: State, decided: Option<CommandId>, attempt: Option<nat>, table: map<CommandId, Command>, rows: seq<Command>)
    requires DistinctIds(s.commands)
    requires forall c <- s.commands :: c.id in table && table[c.id] == c
    requires RowsFor(rows, s.commands, attempt)
    requires forall c <- s.commands :: Listed(rows, c.id) <==> Settled(s, c, decided, attempt).status.OutcomeUnknown?
    ensures forall c <- s.commands :: c.id in Upsert(table, rows) && !Ambiguous(Upsert(table, rows)[c.id])
  {
    forall c <- s.commands ensures c.id in Upsert(table, rows) && !Ambiguous(Upsert(table, rows)[c.id]) {
      UpsertWrites(table, rows, c.id);
    }
  }
}
