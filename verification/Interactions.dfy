// Interaction answers: the first write wins, one answer command each, and crash reconciliation.
module Interactions {
  import opened Wrappers
  import Commands

  type InteractionId = nat
  type CommandId = Commands.CommandId
  type Time = Commands.Time

  datatype Status = Pending | Drafted | Submitted | Resolved | Cancelled

  datatype Answer = Answer(decision: nat, submittedAt: Time)

  const CANCEL: nat := 0

  /** The part of a conversation state that interactions live in; `commands` holds its answer commands. */
  datatype Aggregate = Aggregate(
    version: nat,
    next: nat,
    statuses: map<InteractionId, Status>,
    answers: map<InteractionId, Answer>,
    commands: map<CommandId, InteractionId>)

  datatype AnswerRow = AnswerRow(
    answer: Answer,
    resolution: nat,
    command: Option<CommandId>,
    releasedAt: Option<Time>,
    suppressed: bool)

  /** The tables of one conversation; `resolutions` are its resolution events by sequence number. */
  datatype Store = Store(
    aggregate: Aggregate,
    rows: map<InteractionId, AnswerRow>,
    commandRows: map<CommandId, InteractionId>,
    resolutions: set<(nat, InteractionId)>)

  // ----- Transitions of the aggregate -----

  predicate Open(a: Aggregate, i: InteractionId) {
    i in a.statuses && (a.statuses[i].Pending? || a.statuses[i].Drafted?)
  }

  /** Record a final answer: one event, one version. */
  function Close(a: Aggregate, i: InteractionId, answer: Answer, status: Status): Aggregate {
    a.(version := a.version + 1, next := a.next + 1,
       statuses := a.statuses[i := status], answers := a.answers[i := answer])
  }

  /** `submit_interaction_answer`: nothing unless the interaction is open and unanswered. */
  function Submit(a: Aggregate, i: InteractionId, answer: Answer): Option<Aggregate> {
    if Open(a, i) && i !in a.answers then Some(Close(a, i, answer, Resolved)) else None
  }

  /** `cancel_interaction`. */
  function Cancel(a: Aggregate, i: InteractionId, now: Time): Option<Aggregate> {
    if Open(a, i) then Some(Close(a, i, Answer(CANCEL, now), Cancelled)) else None
  }

  /** `cancel_open_interactions` over the open interactions `ids`, and the sequence number of each. */
  function CancelAll(a: Aggregate, ids: seq<InteractionId>, now: Time): (Aggregate, map<InteractionId, nat>) {
    if ids == [] then (a, map[])
    else
      var (before, at) := CancelAll(a, ids[..|ids| - 1], now);
      var i := ids[|ids| - 1];
      match Cancel(before, i, now)
      case None => (before, at)
      case Some(after) => (after, at[i := before.next])
  }

  // ----- The transactions -----

  datatype Outcome = FirstWrite | Kept(answer: Answer) | Undecided | Failed

  function Persist(s: Store, i: InteractionId, state: Aggregate, answer: Answer, suppressed: bool): Store {
    s.(aggregate := state,
       rows := s.rows[i := AnswerRow(answer, s.aggregate.next, None, None, suppressed)],
       resolutions := s.resolutions + {(s.aggregate.next, i)})
  }

  /**
   * `_commit_interaction_resolution` with an answer computed outside: a stored answer is handed
   * back, otherwise the owner check and the version check decide.
   */
  function ResolveSpec(s: Store, i: InteractionId, expected: nat, state: Aggregate, answer: Answer,
                       suppressed: bool, allowed: bool): (Store, Outcome)
  {
    if i in s.rows then (s, Kept(s.rows[i].answer))
    else if !allowed || s.aggregate.version != expected || state.next != s.aggregate.next + 1 then (s, Failed)
    else (Persist(s, i, state, answer, suppressed), FirstWrite)
  }

  /** The automatic form: the verdict of the rules is applied to the row as it is now. */
  function ResolveAutoSpec(s: Store, i: InteractionId, verdict: Option<Answer>, allowed: bool): (Store, Outcome) {
    if i in s.rows then (s, Kept(s.rows[i].answer))
    else if !allowed || i !in s.aggregate.statuses then (s, Failed)
    else if verdict.None? then (s, Undecided)
    else
      match Submit(s.aggregate, i, verdict.value)
      case None => (s, Failed)
      case Some(state) => (Persist(s, i, state, verdict.value, false), FirstWrite)
  }

  /** `_release_interaction_answer`: the first released command is the one. */
  function ReleaseSpec(s: Store, i: InteractionId, command: CommandId, now: Time, allowed: bool): (Store, Option<CommandId>) {
    if i !in s.rows then (s, None)
    else if s.rows[i].command.Some? then (s, s.rows[i].command)
    else if !allowed then (s, None)
    else
      (s.(rows := s.rows[i := s.rows[i].(command := Some(command), releasedAt := Some(now))],
          commandRows := s.commandRows[command := i],
          aggregate := s.aggregate.(commands := s.aggregate.commands[command := i])),
      Some(command))
  }

  /** `_complete_suppressed_interaction_resolution`. */
  function CompleteSpec(s: Store, i: InteractionId, now: Time): (Store, bool) {
    if i !in s.rows || !s.rows[i].suppressed then (s, false)
    else (s.(rows := s.rows[i := s.rows[i].(releasedAt := s.rows[i].releasedAt.OrElse(Some(now)))]), true)
  }

  /**
   * `_commit_recovery_batch`: besides its commit it stores a suppressed answer for every interaction
   * the new state cancelled that neither the previous state nor the answer table knows.
   */
  function RecoverSpec(s: Store, expected: nat, state: Aggregate, at: map<InteractionId, nat>, allowed: bool): Store {
    if !allowed || s.aggregate.version != expected then s
    else
      s.(aggregate := state,
         rows := s.rows + (map i <- state.answers |
         i in state.statuses && state.statuses[i].Cancelled? && i !in s.aggregate.answers && i !in s.rows && i in at ::
         AnswerRow(state.answers[i], at[i], None, None, true)),
         resolutions := s.resolutions + (set i <- at :: (at[i], i)))
  }

  // ----- What every transaction keeps -----

  /** An answered interaction is not open. */
  predicate Settled(a: Aggregate) {
    forall i <- a.answers :: i in a.statuses && !Open(a, i)
  }

  ghost predicate RowOk(s: Store, i: InteractionId)
    requires i in s.rows
  {
    var row := s.rows[i];
    && i in s.aggregate.answers && s.aggregate.answers[i] == row.answer
    && (row.resolution, i) in s.resolutions
    && (row.command.Some? ==> row.releasedAt.Some? && row.command.value in s.commandRows && s.commandRows[row.command.value] == i)
    && (row.releasedAt.Some? ==> row.command.Some? || row.suppressed)
  }

  ghost predicate StoreOk(s: Store) {
    && Settled(s.aggregate)
    && (forall i <- s.rows :: RowOk(s, i))
    && (forall c <- s.commandRows :: s.commandRows[c] in s.rows && s.rows[s.commandRows[c]].command == Some(c))
    && CommandsStored(s.aggregate, s)
  }

  /** At most one answer command per interaction, and none before the answer counts as released. */
  lemma OneCommandEach(s: Store)
    requires StoreOk(s)
    ensures forall c, d | c in s.commandRows && d in s.commandRows && s.commandRows[c] == s.commandRows[d] :: c == d
    ensures forall i <- s.rows | s.rows[i].releasedAt.None? ::
              (forall c <- s.commandRows :: s.commandRows[c] != i) && (forall c <- s.aggregate.commands :: s.aggregate.commands[c] != i)
  {
  }

  /** What a stored answer keeps forever: its content, and its command once it has one. */
  ghost predicate AnswersKept(s: Store, t: Store, i: InteractionId) {
    i in s.rows ==>
      && i in t.rows
      && t.rows[i].answer == s.rows[i].answer
      && t.rows[i].resolution == s.rows[i].resolution
      && t.rows[i].suppressed == s.rows[i].suppressed
      && (s.rows[i].command.Some? ==> t.rows[i].command == s.rows[i].command)
      && (s.rows[i].releasedAt.Some? ==> t.rows[i].releasedAt.Some?)
  }

  // ----- Runs -----

  /** The store, and (history) every aggregate anyone can have loaded. */
  datatype System = System(store: Store, seen: set<Aggregate>)

  /**
   * One transaction of any broker, worker or recovery, with whatever it loaded before. A broker that
   * crashes simply takes no further step.
   */
  datatype Step =
    | Manual(snapshot: Aggregate, interaction: InteractionId, answer: Answer, allowed: bool)
    | CancelOpen(snapshot: Aggregate, interaction: InteractionId, now: Time, allowed: bool)
    | Automatic(interaction: InteractionId, verdict: Option<Answer>, allowed: bool)
    | Recovery(snapshot: Aggregate, ids: seq<InteractionId>, now: Time, allowed: bool)
    | Release(interaction: InteractionId, command: CommandId, now: Time, allowed: bool)
    | Complete(interaction: InteractionId, now: Time)
    | OtherCommit(snapshot: Aggregate, state: Aggregate, resolved: set<(nat, InteractionId)>)
    | Prune(state: Aggregate, dropped: set<InteractionId>, kept: set<(nat, InteractionId)>)

  /**
   * Any other commit, with or without events: no answer changed or reopened, no answer command
   * invented. One that keeps the version keeps the interactions and answers, but not always the
   * commands; one may also raise the version without an event.
   */
  ghost predicate Later(a: Aggregate, b: Aggregate) {
    && b.version >= a.version && b.next >= a.next
    && (b.version == a.version ==> b.next == a.next && b.statuses == a.statuses && b.answers == a.answers)
    && Settled(b)
    && (forall i <- a.answers :: i in b.answers && b.answers[i] == a.answers[i])
    && (forall c <- b.commands :: c in a.commands && b.commands[c] == a.commands[c])
  }

  /** Pruning forgets the interactions of expired turns together with their answers and commands. */
  ghost predicate PrunedFrom(a: Aggregate, b: Aggregate, ids: set<InteractionId>) {
    && b.version > a.version && b.next > a.next
    && Settled(b)
    && (forall i <- a.answers :: i !in ids ==> i in b.answers && b.answers[i] == a.answers[i])
    && (forall c <- b.commands :: c in a.commands && b.commands[c] == a.commands[c] && b.commands[c] !in ids)
  }

  ghost predicate Enabled(y: System, step: Step) {
    match step
    case Manual(snapshot, _, _, _) => snapshot in y.seen
    case CancelOpen(snapshot, _, _, _) => snapshot in y.seen
    case Recovery(snapshot, _, _, _) => snapshot in y.seen
    case Release(_, command, _, _) => command !in y.store.commandRows
    case OtherCommit(snapshot, state, _) => snapshot in y.seen && Later(snapshot, state)
    case Prune(state, ids, _) => PrunedFrom(y.store.aggregate, state, ids)
    case _ => true
  }

  ghost function ApplyStore(s: Store, step: Step): Store {
    match step
    case Manual(snapshot, i, answer, allowed) =>
      (match Submit(snapshot, i, answer)
       case None => s
       case Some(state) => ResolveSpec(s, i, snapshot.version, state, answer, false, allowed).0)
    case CancelOpen(snapshot, i, now, allowed) =>
      (match Cancel(snapshot, i, now)
       case None => s
       case Some(state) => ResolveSpec(s, i, snapshot.version, state, Answer(CANCEL, now), true, allowed).0)
    case Automatic(i, verdict, allowed) => ResolveAutoSpec(s, i, verdict, allowed).0
    case Recovery(snapshot, ids, now, allowed) =>
      var (state, at) := CancelAll(snapshot, ids, now);
      RecoverSpec(s, snapshot.version, state.(version := state.version + 1, next := state.next + 1), at, allowed)
    case Release(i, command, now, allowed) => ReleaseSpec(s, i, command, now, allowed).0
    case Complete(i, now) => CompleteSpec(s, i, now).0
    case OtherCommit(snapshot, state, resolved) =>
      if s.aggregate.version != snapshot.version then s
      else s.(aggregate := state, resolutions := s.resolutions + resolved)
    case Prune(state, ids, kept) =>
      Store(state, s.rows - ids,
            map c <- s.commandRows | s.commandRows[c] !in ids :: s.commandRows[c],
            set p <- s.resolutions | p.1 !in ids || p in kept)
  }

  ghost function Apply(y: System, step: Step): System {
    var store := ApplyStore(y.store, step);
    System(store, y.seen + {store.aggregate})
  }

  /** What two aggregates of one version share: everything but the commands. */
  predicate SameAnswers(a: Aggregate, b: Aggregate) {
    a.version == b.version && a.next == b.next && a.statuses == b.statuses && a.answers == b.answers
  }

  ghost predicate CommandsStored(a: Aggregate, s: Store) {
    forall c <- a.commands :: c in s.commandRows && s.commandRows[c] == a.commands[c]
  }

  /** A loaded aggregate of the present version agrees with the row on the answers, and its commands are stored. */
  ghost predicate SeenOk(y: System) {
    && y.store.aggregate in y.seen
    && forall a <- y.seen ::
         && a.version <= y.store.aggregate.version
         && (a.version == y.store.aggregate.version ==> SameAnswers(a, y.store.aggregate) && CommandsStored(a, y.store))
  }

  ghost predicate Inv(y: System) {
    StoreOk(y.store) && SeenOk(y)
  }

  lemma {:induction false} CancelAllShape(a: Aggregate, ids: seq<InteractionId>, now: Time)
    requires Settled(a)
    ensures var (b, at) := CancelAll(a, ids, now);
            && Settled(b) && b.commands == a.commands && b.version >= a.version && b.next >= a.next
            && (forall i <- a.answers :: i in b.answers && b.answers[i] == a.answers[i] && i !in at)
            && (forall i <- b.answers :: i in a.answers || i in at)
            && (forall i <- at :: i in b.answers && i in b.statuses && b.statuses[i].Cancelled? && i !in a.answers)
  {
    if ids != [] {
      CancelAllShape(a, ids[..|ids| - 1], now);
    }
  }

  lemma PersistKeeps(s: Store, i: InteractionId, state: Aggregate, answer: Answer, suppressed: bool, status: Status)
    requires StoreOk(s) && i !in s.rows && i !in s.aggregate.answers
    requires exists a: Aggregate :: a.answers == s.aggregate.answers && a.statuses == s.aggregate.statuses
                                    && CommandsStored(a, s)
                                    && state == Close(a, i, answer, status) && (status.Resolved? || status.Cancelled?)
    ensures StoreOk(Persist(s, i, state, answer, suppressed))
  {
    var t := Persist(s, i, state, answer, suppressed);
    forall j <- t.rows ensures RowOk(t, j) {
      if j != i {
        assert RowOk(s, j);
      }
    }
  }

  lemma ResolveKeeps(y: System, step: Step)
    requires Inv(y) && Enabled(y, step) && (step.Manual? || step.CancelOpen? || step.Automatic?)
    ensures StoreOk(ApplyStore(y.store, step))
  {
    var s := y.store;
    match step
    case Manual(snapshot, i, answer, allowed) =>
      if Submit(snapshot, i, answer).Some? && ApplyStore(s, step) != s {
        PersistKeeps(s, i, Close(snapshot, i, answer, Resolved), answer, false, Resolved);
      }
    case CancelOpen(snapshot, i, now, allowed) =>
      if Cancel(snapshot, i, now).Some? && ApplyStore(s, step) != s {
        PersistKeeps(s, i, Close(snapshot, i, Answer(CANCEL, now), Cancelled), Answer(CANCEL, now), true, Cancelled);
      }
    case Automatic(i, verdict, allowed) =>
      if ApplyStore(s, step) != s {
        PersistKeeps(s, i, Close(s.aggregate, i, verdict.value, Resolved), verdict.value, false, Resolved);
      }
  }

  lemma RecoveryKeeps(y: System, step: Step)
    requires Inv(y) && Enabled(y, step) && step.Recovery?
    ensures StoreOk(ApplyStore(y.store, step))
  {
    var s, t := y.store, ApplyStore(y.store, step);
    if step.allowed && s.aggregate.version == step.snapshot.version {
      CancelAllShape(step.snapshot, step.ids, step.now);
      forall i <- t.rows ensures RowOk(t, i) {
        if i in s.rows {
          assert RowOk(s, i);
        }
      }
    }
  }

  lemma ReleaseKeeps(s: Store, i: InteractionId, command: CommandId, now: Time, allowed: bool)
    requires StoreOk(s) && command !in s.commandRows
    ensures StoreOk(ReleaseSpec(s, i, command, now, allowed).0)
  {
    var t := ReleaseSpec(s, i, command, now, allowed).0;
    forall j <- t.rows ensures RowOk(t, j) {
      assert RowOk(s, j);
    }
  }

  lemma CompleteKeeps(s: Store, i: InteractionId, now: Time)
    requires StoreOk(s)
    ensures StoreOk(CompleteSpec(s, i, now).0)
  {
    var t := CompleteSpec(s, i, now).0;
    forall j <- t.rows ensures RowOk(t, j) {
      assert RowOk(s, j);
    }
  }

  lemma OtherKeeps(y: System, step: Step)
    requires Inv(y) && Enabled(y, step) && (step.OtherCommit? || step.Prune?)
    ensures StoreOk(ApplyStore(y.store, step))
  {
    var s, t := y.store, ApplyStore(y.store, step);
    forall i <- t.rows ensures RowOk(t, i) {
      assert RowOk(s, i);
    }
  }

  /** The present aggregate moves on to a new version, or keeps its answers; stored commands stay stored. */
  ghost predicate MovesOn(s: Store, t: Store) {
    || t.aggregate.version > s.aggregate.version
    || (SameAnswers(s.aggregate, t.aggregate) && forall c <- s.commandRows :: c in t.commandRows && t.commandRows[c] == s.commandRows[c])
  }

  lemma SeenGrows(y: System, store: Store)
    requires SeenOk(y) && MovesOn(y.store, store) && CommandsStored(store.aggregate, store)
    ensures SeenOk(System(store, y.seen + {store.aggregate}))
  {
  }

  lemma StepMovesOn(y: System, step: Step)
    requires Inv(y) && Enabled(y, step)
    ensures MovesOn(y.store, ApplyStore(y.store, step))
  {
    if step.Recovery? && step.snapshot.version == y.store.aggregate.version {
      CancelAllShape(step.snapshot, step.ids, step.now);
    }
  }

  lemma StepKeepsInv(y: System, step: Step)
    requires Inv(y) && Enabled(y, step)
    ensures Inv(Apply(y, step))
  {
    StepKeepsStore(y, step);
    StepMovesOn(y, step);
    SeenGrows(y, ApplyStore(y.store, step));
  }

  lemma StepKeepsStore(y: System, step: Step)
    requires Inv(y) && Enabled(y, step)
    ensures StoreOk(ApplyStore(y.store, step))
  {
    match step
    case Recovery(_, _, _, _) => RecoveryKeeps(y, step);
    case Release(i, command, now, allowed) => ReleaseKeeps(y.store, i, command, now, allowed);
    case Complete(i, now) => CompleteKeeps(y.store, i, now);
    case OtherCommit(_, _, _) => OtherKeeps(y, step);
    case Prune(_, _, _) => OtherKeeps(y, step);
    case _ => ResolveKeeps(y, step);
  }

  ghost predicate ValidRun(y: System, steps: seq<Step>)
    decreases |steps|
  {
    steps == [] || (Enabled(y, steps[0]) && ValidRun(Apply(y, steps[0]), steps[1..]))
  }

  ghost function RunOf(y: System, steps: seq<Step>): System
    decreases |steps|
  {
    if steps == [] then y else RunOf(Apply(y, steps[0]), steps[1..])
  }

  lemma StepKeepsAnswer(y: System, step: Step, i: InteractionId)
    requires Inv(y) && Enabled(y, step) && (step.Prune? ==> i !in step.dropped)
    ensures AnswersKept(y.store, Apply(y, step).store, i)
  {
  }

  /** A conversation nobody has answered anything in. */
  ghost predicate Initial(y: System) {
    && y.store.aggregate.answers == map[] && y.store.aggregate.commands == map[]
    && y.store.rows == map[] && y.store.commandRows == map[] && y.seen == {y.store.aggregate}
  }

  lemma {:induction false} RunKeepsInv(y: System, steps: seq<Step>)
    requires Inv(y) && ValidRun(y, steps)
    ensures Inv(RunOf(y, steps))
    decreases |steps|
  {
    if steps != [] {
      StepKeepsInv(y, steps[0]);
      RunKeepsInv(Apply(y, steps[0]), steps[1..]);
    }
  }

  /**
   * Whatever any number of brokers, workers and recoveries interleave: never a second answer command
   * for an interaction, and none before its answer counts as released.
   */
  lemma NeverASecondCommand(y: System, steps: seq<Step>)
    requires Initial(y) && ValidRun(y, steps)
    ensures var s := RunOf(y, steps).store;
            && (forall c, d | c in s.commandRows && d in s.commandRows && s.commandRows[c] == s.commandRows[d] :: c == d)
            && (forall i <- s.rows | s.rows[i].releasedAt.None? ::
                  (forall c <- s.commandRows :: s.commandRows[c] != i) && (forall c <- s.aggregate.commands :: s.aggregate.commands[c] != i))
            && (forall i <- s.rows :: i in s.aggregate.answers && s.aggregate.answers[i] == s.rows[i].answer)
  {
    RunKeepsInv(y, steps);
    OneCommandEach(RunOf(y, steps).store);
    assert forall i <- RunOf(y, steps).store.rows :: RowOk(RunOf(y, steps).store, i);
  }

  /** And an answer once stored is never overwritten; only pruning its turn removes it. */
  lemma {:induction false} FirstWriteWins(y: System, steps: seq<Step>, i: InteractionId)
    requires Inv(y) && ValidRun(y, steps)
    requires forall step <- steps | step.Prune? :: i !in step.dropped
    ensures AnswersKept(y.store, RunOf(y, steps).store, i)
    decreases |steps|
  {
    if steps != [] {
      StepKeepsInv(y, steps[0]);
      StepKeepsAnswer(y, steps[0], i);
      FirstWriteWins(Apply(y, steps[0]), steps[1..], i);
    }
  }

  // ----- When an answer is stored, and which -----

  /** The answer a step stores for an interaction without one: it is let in, built from the present version, and finds it open. */
  function Stores(s: Store, step: Step, i: InteractionId): Option<Answer> {
    match step
    case Manual(snapshot, j, answer, allowed) =>
      if j == i && allowed && snapshot.version == s.aggregate.version && Open(snapshot, i) then Some(answer) else None
    case CancelOpen(snapshot, j, now, allowed) =>
      if j == i && allowed && snapshot.version == s.aggregate.version && Open(snapshot, i) then Some(Answer(CANCEL, now)) else None
    case Automatic(j, verdict, allowed) =>
      if j == i && allowed && Open(s.aggregate, i) then verdict else None
    case Recovery(snapshot, ids, now, allowed) =>
      if i in ids && allowed && snapshot.version == s.aggregate.version && Open(snapshot, i) then Some(Answer(CANCEL, now)) else None
    case _ => None
  }

  predicate Numbered(at: map<InteractionId, nat>, n: nat) {
    exists i :: i in at && at[i] == n
  }

  /** Exactly the numbers from the first to the next one are given. */
  ghost predicate AllNumbered(first: nat, next: nat, at: map<InteractionId, nat>) {
    forall n: nat :: first <= n < next <==> Numbered(at, n)
  }

  /** The open ones of the list are cancelled, each under its own number, and every number moved past is used. */
  predicate AllCancelled(a: Aggregate, b: Aggregate, at: map<InteractionId, nat>, ids: seq<InteractionId>, now: Time) {
    && b.statuses.Keys == a.statuses.Keys && b.next >= a.next
    && (forall i <- a.statuses :: i in at <==> i in ids && Open(a, i))
    && (forall i <- at :: i in a.statuses && a.next <= at[i] < b.next && i in b.answers && b.answers[i] == Answer(CANCEL, now))
    && (forall i <- a.statuses :: b.statuses[i] == if i in at then Cancelled else a.statuses[i])
    && (forall i <- at, j <- at | at[i] == at[j] :: i == j)
  }

  lemma CancelledOneMore(a: Aggregate, before: Aggregate, at: map<InteractionId, nat>, front: seq<InteractionId>, last: InteractionId, now: Time)
    requires AllCancelled(a, before, at, front, now)
    ensures match Cancel(before, last, now)
            case None => AllCancelled(a, before, at, front + [last], now)
            case Some(after) => last !in at && AllCancelled(a, after, at[last := before.next], front + [last], now)
  {
    assert forall i :: i in front + [last] <==> i in front || i == last;
  }

  /** `CancelAll` cancels exactly the open ones of the list, each under its own number, and uses up every number it moves past. */
  lemma {:induction false} CancelAllNumbers(a: Aggregate, ids: seq<InteractionId>, now: Time)
    ensures var (b, at) := CancelAll(a, ids, now);
            AllCancelled(a, b, at, ids, now) && AllNumbered(a.next, b.next, at)
    decreases |ids|
  {
    if |ids| != 0 {
      var front, last := ids[..|ids| - 1], ids[|ids| - 1];
      assert ids == front + [last];
      CancelAllNumbers(a, front, now);
      var (before, at) := CancelAll(a, front, now);
      CancelledOneMore(a, before, at, front, last, now);
      if Cancel(before, last, now).Some? {
        NumberedOneMore(a.next, before.next, at, last);
      }
    }
  }

  lemma NumberedOneMore(first: nat, next: nat, at: map<InteractionId, nat>, last: InteractionId)
    requires AllNumbered(first, next, at) && first <= next && last !in at
    ensures AllNumbered(first, next + 1, at[last := next])
  {
    var all := at[last := next];
    forall n: nat ensures first <= n < next + 1 <==> Numbered(all, n) {
      if Numbered(at, n) {
        var i :| i in at && at[i] == n;
        assert i in all && all[i] == n;
      }
      assert last in all && all[last] == next;
    }
  }

  /**
   * Any step stores an answer for an interaction that has none exactly if `Stores` says so, and then
   * that one: unreleased, without a command, suppressed exactly if it is a cancellation, and the
   * interaction is settled with it.
   */
  lemma AnswerStoredExactlyWhen(y: System, step: Step, i: InteractionId)
    requires Inv(y) && Enabled(y, step) && i !in y.store.rows
    ensures var (answer, t) := (Stores(y.store, step, i), Apply(y, step).store);
            && (i in t.rows <==> answer.Some?)
            && (answer.Some? ==>
                  && t.rows[i].(resolution := 0) == AnswerRow(answer.value, 0, None, None, step.CancelOpen? || step.Recovery?)
                  && i in t.aggregate.statuses
                  && t.aggregate.statuses[i] == if step.CancelOpen? || step.Recovery? then Cancelled else Resolved)
  {
    if step.Recovery? && step.snapshot.version == y.store.aggregate.version {
      CancelAllShape(step.snapshot, step.ids, step.now);
      CancelAllNumbers(step.snapshot, step.ids, step.now);
    }
  }

  /** And it counts as released from exactly these steps on, with their time. */
  lemma ReleasedExactlyBy(y: System, step: Step, i: InteractionId)
    requires Inv(y) && Enabled(y, step) && i in y.store.rows && y.store.rows[i].releasedAt.None? && i in Apply(y, step).store.rows
    ensures Apply(y, step).store.rows[i].releasedAt ==
            match step
            case Release(j, _, now, allowed) => if j == i && allowed then Some(now) else None
            case Complete(j, now) => if j == i && y.store.rows[i].suppressed then Some(now) else None
            case _ => None
  {
  }

  // ----- When an answer gets its command, and when the aggregate loses it -----

  lemma {:induction false} RunSnoc(y: System, steps: seq<Step>)
    requires steps != [] && ValidRun(y, steps)
    ensures var n := |steps| - 1;
            && ValidRun(y, steps[..n]) && Enabled(RunOf(y, steps[..n]), steps[n])
            && RunOf(y, steps) == Apply(RunOf(y, steps[..n]), steps[n])
    decreases |steps|
  {
    var n := |steps| - 1;
    if n > 0 {
      RunSnoc(Apply(y, steps[0]), steps[1..]);
      assert steps[1..][..n - 1] == steps[..n][1..];
    } else {
      assert steps[..0] == [] && steps[1..] == [];
    }
  }

  /** The k-th step is an allowed release of the interaction's stored answer, which no later step prunes. */
  ghost predicate ReleasedAt(y: System, steps: seq<Step>, i: InteractionId, k: nat) {
    && k < |steps| && steps[k].Release? && steps[k].interaction == i && steps[k].allowed
    && i in RunOf(y, steps[..k]).store.rows
    && forall j | k < j < |steps| && steps[j].Prune? :: i !in steps[j].dropped
  }

  lemma ReleasedAtFront(y: System, steps: seq<Step>, i: InteractionId, k: nat)
    requires k + 1 < |steps| && !(steps[|steps| - 1].Prune? && i in steps[|steps| - 1].dropped)
    ensures ReleasedAt(y, steps[..|steps| - 1], i, k) <==> ReleasedAt(y, steps, i, k)
  {
    var front := steps[..|steps| - 1];
    assert front[..k] == steps[..k];
    assert forall j | k <= j < |front| :: front[j] == steps[j];
  }

  /**
   * In every run, exactly when a stored answer has its command: if and only if an allowed release of
   * it came after it was stored and before any pruning of it. Whether the answer is suppressed
   * plays no part in it.
   */
  lemma {:induction false} CommandExactlyWhenReleased(y: System, steps: seq<Step>, i: InteractionId)
    requires Initial(y) && ValidRun(y, steps) && i in RunOf(y, steps).store.rows
    ensures RunOf(y, steps).store.rows[i].command.Some? <==> exists k: nat :: ReleasedAt(y, steps, i, k)
    decreases |steps|
  {
    if |steps| != 0 {
      var n := |steps| - 1;
      RunSnoc(y, steps);
      RunKeepsInv(y, steps[..n]);
      var before, step := RunOf(y, steps[..n]), steps[n];
      if step.Release? && step.interaction == i && step.allowed {
        assert ReleasedAt(y, steps, i, n);
      } else if i in before.store.rows {
        CommandExactlyWhenReleased(y, steps[..n], i);
        NoReleaseNoCommand(y, before, step, i);
        SameReleases(y, steps, i);
      } else {
        NewAnswerIsUnreleased(y, steps, i);
      }
    }
  }

  /** A last step that neither releases nor prunes the answer adds and drops no release of it. */
  lemma SameReleases(y: System, steps: seq<Step>, i: InteractionId)
    requires |steps| != 0
    requires var step := steps[|steps| - 1];
             !(step.Release? && step.interaction == i && step.allowed) && !(step.Prune? && i in step.dropped)
    ensures var front := steps[..|steps| - 1];
            (exists k: nat :: ReleasedAt(y, front, i, k)) <==> (exists k: nat :: ReleasedAt(y, steps, i, k))
  {
    var n := |steps| - 1;
    forall k: nat ensures ReleasedAt(y, steps[..n], i, k) <==> ReleasedAt(y, steps, i, k) {
      if k < n {
        ReleasedAtFront(y, steps, i, k);
      }
    }
  }

  /** An answer that was not there before the last step has seen no release. */
  lemma NewAnswerIsUnreleased(y: System, steps: seq<Step>, i: InteractionId)
    requires |steps| != 0 && Initial(y) && ValidRun(y, steps)
    requires i !in RunOf(y, steps[..|steps| - 1]).store.rows && i in RunOf(y, steps).store.rows
    ensures RunOf(y, steps).store.rows[i].command.None?
    ensures forall k: nat :: !ReleasedAt(y, steps, i, k)
  {
    var n := |steps| - 1;
    RunSnoc(y, steps);
    forall k: nat ensures !ReleasedAt(y, steps, i, k) {
      if ReleasedAt(y, steps, i, k) && k < n {
        ReleasedAtFront(y, steps, i, k);
        ReleasedStays(y, steps[..n], i, k);
      }
    }
  }

  /** A step that is no release of it leaves the command of a stored answer as it is. */
  lemma NoReleaseNoCommand(y: System, before: System, step: Step, i: InteractionId)
    requires Inv(before) && Enabled(before, step) && !(step.Release? && step.interaction == i && step.allowed)
    requires i in before.store.rows && i in ApplyStore(before.store, step).rows
    ensures ApplyStore(before.store, step).rows[i].command == before.store.rows[i].command
    ensures !(step.Prune? && i in step.dropped)
  {
  }

  /** An answer that was released and not pruned since is still stored. */
  lemma {:induction false} ReleasedStays(y: System, steps: seq<Step>, i: InteractionId, k: nat)
    requires Initial(y) && ValidRun(y, steps) && ReleasedAt(y, steps, i, k)
    ensures i in RunOf(y, steps).store.rows
    decreases |steps|
  {
    var n := |steps| - 1;
    RunSnoc(y, steps);
    RunKeepsInv(y, steps[..n]);
    if k < n {
      ReleasedAtFront(y, steps, i, k);
      ReleasedStays(y, steps[..n], i, k);
    }
    StepKeepsAnswer(RunOf(y, steps[..n]), steps[n], i);
  }

  const REQUESTED := Aggregate(1, 2, map[5 := Pending], map[], map[])
  const CANCELLED_ONCE := Close(REQUESTED, 5, Answer(CANCEL, 7), Cancelled)

  /** The run in which a cancelled interaction is then resolved by hand. */
  function CancelThenRelease(): seq<Step> {
    [OtherCommit(Aggregate(0, 1, map[], map[], map[]), REQUESTED, {}), CancelOpen(REQUESTED, 5, 7, true), Complete(5, 8), Release(5, 7, 9, true)]
  }

  function Nobody(): System {
    System(Store(Aggregate(0, 1, map[], map[], map[]), map[], map[], {}), {Aggregate(0, 1, map[], map[], map[])})
  }

  /** The rest of a run from its k-th step on. */
  lemma RunFirst(y: System, steps: seq<Step>, k: nat)
    requires k < |steps| && Enabled(y, steps[k])
    ensures ValidRun(y, steps[k..]) <==> ValidRun(Apply(y, steps[k]), steps[k + 1..])
    ensures RunOf(y, steps[k..]) == RunOf(Apply(y, steps[k]), steps[k + 1..])
  {
    assert steps[k..][0] == steps[k] && steps[k..][1..] == steps[k + 1..];
  }

  /** A concrete run whose cancelled, suppressed and completed answer gets a command after all. */
  lemma SuppressedAnswerGetsCommand()
    ensures Initial(Nobody()) && ValidRun(Nobody(), CancelThenRelease())
    ensures var s := RunOf(Nobody(), CancelThenRelease()).store;
            5 in s.rows && s.rows[5].suppressed && s.rows[5].command == Some(7) && s.aggregate.commands == map[7 := 5]
  {
    var steps := CancelThenRelease();
    var a := Apply(Nobody(), steps[0]);
    var b := Apply(a, steps[1]);
    var c := Apply(b, steps[2]);
    assert a.store.aggregate == REQUESTED && b.store.aggregate == CANCELLED_ONCE;
    RunFirst(c, steps, 3);
    RunFirst(b, steps, 2);
    RunFirst(a, steps, 1);
    RunFirst(Nobody(), steps, 0);
    assert steps[0..] == steps;
  }

  /** A commit that goes through and whose state, built from an earlier moment, does not have the command. */
  ghost predicate Overwrites(s: Store, step: Step, c: CommandId) {
    match step
    case Manual(snapshot, i, answer, allowed) =>
      && Submit(snapshot, i, answer).Some? && c !in snapshot.commands
      && ResolveSpec(s, i, snapshot.version, Submit(snapshot, i, answer).value, answer, false, allowed).1.FirstWrite?
    case CancelOpen(snapshot, i, now, allowed) =>
      && Cancel(snapshot, i, now).Some? && c !in snapshot.commands
      && ResolveSpec(s, i, snapshot.version, Cancel(snapshot, i, now).value, Answer(CANCEL, now), true, allowed).1.FirstWrite?
    case Recovery(snapshot, _, _, allowed) => allowed && snapshot.version == s.aggregate.version && c !in snapshot.commands
    case OtherCommit(snapshot, state, _) => snapshot.version == s.aggregate.version && c !in state.commands
    case Prune(state, _, _) => c !in state.commands
    case _ => false
  }

  lemma StepKeepsCommandExactlyWhen(y: System, step: Step, c: CommandId)
    requires Inv(y) && Enabled(y, step) && c in y.store.aggregate.commands
    ensures c in Apply(y, step).store.aggregate.commands <==> !Overwrites(y.store, step, c)
  {
    if step.Recovery? && step.snapshot.version == y.store.aggregate.version {
      CancelAllShape(step.snapshot, step.ids, step.now);
    }
  }

  /** The conversation state has the command at every moment of the run. */
  ghost predicate KeptThroughout(y: System, steps: seq<Step>, c: CommandId)
    decreases |steps|
  {
    c in y.store.aggregate.commands && (|steps| == 0 || KeptThroughout(Apply(y, steps[0]), steps[1..], c))
  }

  ghost predicate NeverOverwritten(y: System, steps: seq<Step>, c: CommandId)
    decreases |steps|
  {
    |steps| == 0 || (!Overwrites(y.store, steps[0], c) && NeverOverwritten(Apply(y, steps[0]), steps[1..], c))
  }

  /**
   * The conversation state keeps an answer command throughout a run if and only if no commit from a
   * state without it goes through; the answer's row keeps it in any case.
   */
  lemma {:induction false} CommandStaysExactlyWhen(y: System, steps: seq<Step>, c: CommandId)
    requires Inv(y) && ValidRun(y, steps) && c in y.store.aggregate.commands
    ensures KeptThroughout(y, steps, c) <==> NeverOverwritten(y, steps, c)
    decreases |steps|
  {
    if |steps| != 0 {
      StepKeepsInv(y, steps[0]);
      StepKeepsCommandExactlyWhen(y, steps[0], c);
      if c in Apply(y, steps[0]).store.aggregate.commands {
        CommandStaysExactlyWhen(Apply(y, steps[0]), steps[1..], c);
      }
    }
  }

  /** One more step after the run above: an event-less commit built before the release. */
  function LateCommit(): Step {
    OtherCommit(CANCELLED_ONCE, CANCELLED_ONCE, {})
  }

  /** A concrete run: that commit goes through and drops the command from the conversation state, not from the row. */
  lemma EventlessCommitDropsCommand()
    ensures var y := RunOf(Nobody(), CancelThenRelease());
            && ValidRun(Nobody(), CancelThenRelease()) && Enabled(y, LateCommit())
            && var s := Apply(y, LateCommit()).store;
            s.aggregate.commands == map[] && 5 in s.rows && s.rows[5].command == Some(7) && 7 in s.commandRows
  {
    SuppressedAnswerGetsCommand();
    var steps := CancelThenRelease();
    var a := Apply(Nobody(), steps[0]);
    var b := Apply(a, steps[1]);
    var c := Apply(b, steps[2]);
    var d := Apply(c, steps[3]);
    assert b.store.aggregate == CANCELLED_ONCE && CANCELLED_ONCE in b.seen && CANCELLED_ONCE in d.seen;
    RunFirst(c, steps, 3);
    RunFirst(b, steps, 2);
    RunFirst(a, steps, 1);
    RunFirst(Nobody(), steps, 0);
    assert steps[0..] == steps;
  }

  // ----- The broker in place -----

  datatype ManualError = UnknownInteraction | AnswerMissing | AlreadyResolved | InvalidAnswer

  /** Of the unreleased rows, all but the pending ones have been released; the others are as they were. */
  predicate ReleasedBut(before: map<InteractionId, AnswerRow>, after: map<InteractionId, AnswerRow>, pending: set<InteractionId>, now: Time) {
    && before.Keys == after.Keys
    && forall j <- after :: if before[j].releasedAt.Some? || j in pending then after[j] == before[j] else ReleasedFrom(before[j], after[j], now)
  }

  /** The rules decide an interaction that is open and has no answer. */
  predicate Decides(a: Aggregate, i: InteractionId, verdict: Option<Answer>) {
    verdict.Some? && Open(a, i) && i !in a.answers
  }

  function VerdictOf(verdicts: map<InteractionId, Answer>, i: InteractionId): Option<Answer> {
    if i in verdicts then Some(verdicts[i]) else None
  }

  /** The conversation state shows an answer command of the interaction. */
  predicate Shows(a: Aggregate, i: InteractionId) {
    exists c <- a.commands :: a.commands[c] == i
  }

  /** The row of an interaction that the rules answered: that answer, released with a command. */
  predicate AnsweredBy(row: AnswerRow, verdict: Option<Answer>, now: Time) {
    verdict == Some(row.answer) && !row.suppressed && row.releasedAt == Some(now) && row.command.Some?
  }

  /** The statuses after the interactions `decided` were resolved. */
  predicate ResolvedOnly(before: map<InteractionId, Status>, after: map<InteractionId, Status>, decided: set<InteractionId>) {
    && after.Keys == before.Keys
    && forall i <- after :: after[i] == if i in decided then Resolved else before[i]
  }

  /**
   * Of the interactions `done`, exactly the open and unanswered ones that the rules meet have got a row,
   * with their verdict; everything else is as before.
   */
  ghost predicate EvaluatedAll(before: Store, after: Store, done: set<InteractionId>, verdicts: map<InteractionId, Answer>, now: Time) {
    && (forall i :: i in after.rows <==> i in before.rows || (i in done && Decides(before.aggregate, i, VerdictOf(verdicts, i))))
    && (forall i <- after.rows :: if i in before.rows then after.rows[i] == before.rows[i]
                                  else AnsweredBy(after.rows[i], VerdictOf(verdicts, i), now))
    && ResolvedOnly(before.aggregate.statuses, after.aggregate.statuses, after.rows.Keys - before.rows.Keys)
  }

  lemma EvaluatedOneMore(before: Store, mid: Store, after: Store, done: set<InteractionId>, i: InteractionId,
                         verdicts: map<InteractionId, Answer>, now: Time)
    requires StoreOk(before) && StoreOk(mid) && EvaluatedAll(before, mid, done, verdicts, now) && i !in done && Open(before.aggregate, i)
    requires var decides := Decides(mid.aggregate, i, VerdictOf(verdicts, i));
             && (forall j :: j in after.rows <==> j in mid.rows || (j == i && decides))
             && (forall j <- mid.rows :: after.rows[j] == mid.rows[j])
             && (decides ==> i !in mid.rows && AnsweredBy(after.rows[i], VerdictOf(verdicts, i), now))
             && after.aggregate.statuses == if decides then mid.aggregate.statuses[i := Resolved] else mid.aggregate.statuses
    ensures EvaluatedAll(before, after, done + {i}, verdicts, now)
  {
    if i in before.rows {
      assert RowOk(before, i);
    }
    if i in mid.rows {
      assert RowOk(mid, i);
    }
    assert Open(mid.aggregate, i);
    assert Decides(mid.aggregate, i, VerdictOf(verdicts, i)) <==> Decides(before.aggregate, i, VerdictOf(verdicts, i));
  }

  /** Interactions that are not open make no difference to what an evaluation of all does; none is opened by it. */
  lemma OnlyOpenAreEvaluated(before: Store, after: Store, done: set<InteractionId>, more: set<InteractionId>,
                             verdicts: map<InteractionId, Answer>, now: Time)
    requires EvaluatedAll(before, after, done, verdicts, now)
    requires forall i | Open(before.aggregate, i) :: i in done <==> i in more
    ensures EvaluatedAll(before, after, more, verdicts, now)
    ensures forall i | Open(after.aggregate, i) :: Open(before.aggregate, i)
  {
  }

  /** An unreleased answer row and the same row after its release. */
  predicate ReleasedFrom(before: AnswerRow, after: AnswerRow, now: Time) {
    && after.releasedAt == Some(now)
    && after.(command := None, releasedAt := None) == before.(command := None, releasedAt := None)
    && (after.command.Some? <==> !before.suppressed)
  }

  class InteractionBroker {
    var aggregate: Aggregate
    var rows: map<InteractionId, AnswerRow>
    var commandRows: map<CommandId, InteractionId>
    ghost var resolutions: set<(nat, InteractionId)>
    var evaluated: set<InteractionId>
    var nextCommand: CommandId
    ghost var published: set<InteractionId>

    ghost function State(): Store
      reads this
    {
      Store(aggregate, rows, commandRows, resolutions)
    }

    ghost predicate Valid()
      reads this
    {
      StoreOk(State()) && forall c <- commandRows :: c < nextCommand
    }

    /** `_commit_interaction_resolution`, automatic form. */
    method CommitAutomatic(i: InteractionId, verdict: Option<Answer>) returns (first: bool)
      modifies this
      ensures State() == ResolveAutoSpec(old(State()), i, verdict, true).0
      ensures first <==> ResolveAutoSpec(old(State()), i, verdict, true).1.FirstWrite?
      ensures first || (verdict.None? && i in old(aggregate).statuses && i !in old(rows)) ==> evaluated == old(evaluated) + {i}
      ensures !first && (verdict.Some? || i !in old(aggregate).statuses || i in old(rows)) ==> evaluated == old(evaluated)
      ensures published == old(published) && nextCommand == old(nextCommand)
    {
      first := false;
      if i in rows || i !in aggregate.statuses {
        return;
      }
      if verdict.None? {
        evaluated := evaluated + {i};
        return;
      }
      var state := Submit(aggregate, i, verdict.value);
      if state.None? {
        return;
      }
      rows := rows[i := AnswerRow(verdict.value, aggregate.next, None, None, false)];
      resolutions := resolutions + {(aggregate.next, i)};
      aggregate := state.value;
      evaluated := evaluated + {i};
      first := true;
    }

    /** `_find_answer_command`, over the commands of the conversation state. */
    method FindAnswerCommand(i: InteractionId) returns (found: Option<CommandId>)
      ensures found.Some? ==> found.value in aggregate.commands && aggregate.commands[found.value] == i
      ensures found.None? ==> forall c <- aggregate.commands :: aggregate.commands[c] != i
    {
      var rest := aggregate.commands.Keys;
      while rest != {}
        invariant rest <= aggregate.commands.Keys
        invariant forall c <- aggregate.commands | c !in rest :: aggregate.commands[c] != i
        decreases |rest|
      {
        var c: CommandId :| c in rest;
        if aggregate.commands[c] == i {
          return Some(c);
        }
        rest := rest - {c};
      }
      found := None;
    }

    /**
     * `_release_for` with the release transaction: the answer's own command, whether the conversation
     * state still shows it or only the row does, and a new one if there is none.
     */
    method ReleaseFor(i: InteractionId, now: Time) returns (command: CommandId)
      requires Valid() && i in rows
      modifies this`rows, this`commandRows, this`aggregate, this`nextCommand
      ensures Valid() && published == old(published)
      ensures i in rows && rows[i].command == Some(command) && commandRows[command] == i
      ensures AnswersKept(old(State()), State(), i) && rows == old(rows)[i := rows[i]]
      ensures old(rows[i]).command.Some? ==> State() == old(State())
      ensures old(rows[i]).command.None? ==> State() == ReleaseSpec(old(State()), i, old(nextCommand), now, true).0
    {
      var found := FindAnswerCommand(i);
      assert RowOk(State(), i);
      if found.Some? {
        return found.value;
      }
      if rows[i].command.Some? {
        return rows[i].command.value;
      }
      ReleaseKeeps(State(), i, nextCommand, now, true);
      rows := rows[i := rows[i].(command := Some(nextCommand), releasedAt := Some(now))];
      commandRows := commandRows[nextCommand := i];
      aggregate := aggregate.(commands := aggregate.commands[nextCommand := i]);
      command := nextCommand;
      nextCommand := nextCommand + 1;
    }

    /**
     * `resolve_manual` without interference. It ends in the interaction's one command for every
     * stored answer, suppressed ones included, and for a valid answer to an open interaction;
     * in every other case nothing changes. No stored answer is ever replaced.
     */
    method ResolveManual(i: InteractionId, answer: Answer, valid: bool, now: Time) returns (r: Result<CommandId, ManualError>)
      requires Valid()
      modifies this
      ensures Valid()
      ensures r.Ok? <==> i in old(rows) || (valid && Open(old(aggregate), i) && i !in old(aggregate).answers)
      ensures r.Ok? ==> i in rows && rows[i].command == Some(r.value) && commandRows[r.value] == i
      ensures r.Ok? && i !in old(rows) ==>
                && rows[i].answer == answer && !rows[i].suppressed && rows[i].releasedAt == Some(now)
                && aggregate.statuses == old(aggregate).statuses[i := Resolved] && aggregate.answers == old(aggregate).answers[i := answer]
      ensures r.Ok? && i in old(rows) ==>
                && (if old(rows)[i].command.Some? then rows[i] == old(rows)[i] else rows[i].releasedAt == Some(now))
                && aggregate.statuses == old(aggregate).statuses && aggregate.answers == old(aggregate).answers
      ensures r.Ok? ==> published == if i in old(rows) && Shows(old(aggregate), i) then old(published) else old(published) + {i}
      ensures forall j <- old(rows) :: AnswersKept(old(State()), State(), j) && (j != i ==> rows[j] == old(rows)[j])
      ensures forall j <- rows :: j == i || j in old(rows)
      ensures r.Err? ==> State() == old(State()) && published == old(published)
    {
      if i !in aggregate.statuses {
        assert forall j <- rows :: RowOk(State(), j);
        return Err(UnknownInteraction);
      }
      if i in aggregate.answers {
        if i !in rows {
          return Err(AnswerMissing);
        }
        var command := PublishAndRelease(i, now);
        return Ok(command);
      }
      assert forall j <- rows :: RowOk(State(), j);
      var state := Submit(aggregate, i, answer);
      if state.None? {
        return Err(AlreadyResolved);
      }
      if !valid {
        return Err(InvalidAnswer);
      }
      CommitManual(i, state.value, answer);
      published := published + {i};
      var command := ReleaseFor(i, now);
      r := Ok(command);
    }

    /** The first write of a manual answer. */
    method CommitManual(i: InteractionId, state: Aggregate, answer: Answer)
      requires Valid() && Submit(aggregate, i, answer) == Some(state)
      modifies this`rows, this`resolutions, this`aggregate
      ensures Valid() && i !in old(rows) && rows == old(rows)[i := AnswerRow(answer, old(aggregate).next, None, None, false)]
      ensures State() == Persist(old(State()), i, state, answer, false)
    {
      assert forall j <- rows :: RowOk(State(), j);
      PersistKeeps(State(), i, state, answer, false, Resolved);
      rows := rows[i := AnswerRow(answer, aggregate.next, None, None, false)];
      resolutions := resolutions + {(aggregate.next, i)};
      aggregate := state;
    }

    /** The branch for an answer that is stored already: its event is published only if no command shows. */
    method PublishAndRelease(i: InteractionId, now: Time) returns (command: CommandId)
      requires Valid() && i in rows
      modifies this
      ensures Valid() && i in rows && rows[i].command == Some(command) && commandRows[command] == i
      ensures AnswersKept(old(State()), State(), i) && rows == old(rows)[i := rows[i]]
      ensures if old(rows)[i].command.Some? then rows[i] == old(rows)[i] else rows[i].releasedAt == Some(now)
      ensures aggregate.statuses == old(aggregate).statuses && aggregate.answers == old(aggregate).answers
      ensures published == if Shows(old(aggregate), i) then old(published) else old(published) + {i}
    {
      var found := FindAnswerCommand(i);
      assert RowOk(State(), i);
      if found.Some? {
        return found.value;
      }
      published := published + {i};
      command := ReleaseFor(i, now);
    }

    /** `_complete_suppressed_interaction_resolution`. */
    method CompleteSuppressed(i: InteractionId, now: Time) returns (done: bool)
      requires Valid()
      modifies this`rows
      ensures Valid() && (State(), done) == CompleteSpec(old(State()), i, now)
    {
      if i !in rows || !rows[i].suppressed {
        return false;
      }
      CompleteKeeps(State(), i, now);
      if rows[i].releasedAt.None? {
        rows := rows[i := rows[i].(releasedAt := Some(now))];
      }
      assert rows == CompleteSpec(old(State()), i, now).0.rows;
      done := true;
    }

    /**
     * `_evaluate_policy`: decide, then publish and release what was decided. The interaction ends with a
     * row exactly if it had one or is open, unanswered and met by the rules, and then with their answer;
     * no other interaction changes.
     */
    method EvaluatePolicy(i: InteractionId, verdict: Option<Answer>, now: Time)
      requires Valid()
      modifies this
      ensures Valid()
      ensures i in rows <==> i in old(rows) || Decides(old(aggregate), i, verdict)
      ensures Decides(old(aggregate), i, verdict) ==> i !in old(rows) && AnsweredBy(rows[i], verdict, now)
      ensures forall j | j != i :: j in rows <==> j in old(rows)
      ensures forall j <- old(rows) :: rows[j] == old(rows)[j]
      ensures published == if Decides(old(aggregate), i, verdict) then old(published) + {i} else old(published)
      ensures aggregate.statuses == if Decides(old(aggregate), i, verdict) then old(aggregate).statuses[i := Resolved] else old(aggregate).statuses
      ensures aggregate.answers == if Decides(old(aggregate), i, verdict) then old(aggregate).answers[i := verdict.value] else old(aggregate).answers
      ensures old(evaluated) <= evaluated && (Open(old(aggregate), i) ==> i in evaluated)
    {
      assert forall j <- rows :: RowOk(State(), j);
      if i in aggregate.answers {
        return;
      }
      ghost var before := State();
      var first := CommitAutomatic(i, verdict);
      if !first {
        return;
      }
      PersistKeeps(before, i, Close(before.aggregate, i, verdict.value, Resolved), verdict.value, false, Resolved);
      published := published + {i};
      var _ := ReleaseFor(i, now);
    }

    /**
     * The first half of reconciliation: exactly the open interactions that were not evaluated and that the
     * rules meet end answered, each with its verdict.
     */
    method EvaluatePending(verdicts: map<InteractionId, Answer>, now: Time)
      requires Valid()
      modifies this
      ensures Valid()
      ensures EvaluatedAll(old(State()), State(), old(aggregate).statuses.Keys - old(evaluated), verdicts, now)
      ensures old(published) <= published && rows.Keys - old(rows).Keys <= published
      ensures forall i | Open(aggregate, i) :: i in evaluated
    {
      var pending: set<InteractionId> := set i <- aggregate.statuses | Open(aggregate, i) && i !in evaluated;
      ghost var before, all := State(), pending;
      while pending != {}
        invariant Valid() && pending <= all
        invariant EvaluatedAll(before, State(), all - pending, verdicts, now)
        invariant old(published) <= published && rows.Keys - before.rows.Keys <= published
        invariant old(evaluated) <= evaluated && all - pending <= evaluated
        decreases |pending|
      {
        var i: InteractionId :| i in pending;
        EvaluateRound(i, VerdictOf(verdicts, i), now, before, all - pending, verdicts);
        pending := pending - {i};
        assert all - pending == all - (pending + {i}) + {i};
      }
      assert all - pending == all;
      OnlyOpenAreEvaluated(before, State(), all, before.aggregate.statuses.Keys - old(evaluated), verdicts, now);
    }

    /** One round of it. */
    method EvaluateRound(i: InteractionId, verdict: Option<Answer>, now: Time,
                         ghost before: Store, ghost done: set<InteractionId>, ghost verdicts: map<InteractionId, Answer>)
      requires Valid() && StoreOk(before) && verdict == VerdictOf(verdicts, i)
      requires EvaluatedAll(before, State(), done, verdicts, now) && i !in done && Open(before.aggregate, i)
      modifies this
      ensures Valid() && EvaluatedAll(before, State(), done + {i}, verdicts, now)
      ensures old(published) <= published && rows.Keys - old(rows).Keys <= published
      ensures old(evaluated) <= evaluated && i in evaluated
    {
      assert Open(aggregate, i) by {
        assert i in rows ==> RowOk(before, i);
      }
      EvaluatePolicy(i, verdict, now);
      EvaluatedOneMore(before, old(State()), State(), done, i, verdicts, now);
    }

    /** One round of the second half: publish, then complete a suppressed answer or release the other. */
    method ReleaseOne(i: InteractionId, now: Time)
      requires Valid() && i in rows && rows[i].releasedAt.None?
      modifies this`rows, this`commandRows, this`aggregate, this`nextCommand, this`published
      ensures Valid() && published == old(published) + {i}
      ensures i in rows && ReleasedFrom(old(rows[i]), rows[i], now)
      ensures rows == old(rows)[i := rows[i]] && aggregate.statuses == old(aggregate).statuses
    {
      assert RowOk(State(), i);
      published := published + {i};
      var done := CompleteSuppressed(i, now);
      if !done {
        var _ := ReleaseFor(i, now);
      }
    }

    /** The second half of reconciliation. */
    method ReleaseUnreleased(now: Time)
      requires Valid()
      modifies this`rows, this`commandRows, this`aggregate, this`nextCommand, this`published
      ensures Valid() && ReleasedBut(old(rows), rows, {}, now)
      ensures forall j <- rows | old(rows)[j].releasedAt.None? :: j in published
      ensures old(published) <= published && aggregate.statuses == old(aggregate).statuses
    {
      var unreleased: set<InteractionId> := set i <- rows | rows[i].releasedAt.None?;
      while unreleased != {}
        invariant Valid() && ReleasedBut(old(rows), rows, unreleased, now) && unreleased <= old(rows).Keys
        invariant forall j <- old(rows) | old(rows)[j].releasedAt.None? && j !in unreleased :: j in published
        invariant forall j <- unreleased :: old(rows)[j].releasedAt.None?
        invariant old(published) <= published && aggregate.statuses == old(aggregate).statuses
        decreases |unreleased|
      {
        var i: InteractionId :| i in unreleased;
        ReleaseOne(i, now);
        unreleased := unreleased - {i};
      }
    }

    /**
     * `reconcile_on_startup` without faults: the open interactions that were not evaluated and that the
     * rules meet, and no others, end with a new answer, which is their verdict; nothing stays unreleased,
     * every stored answer stays as it was, and exactly the unreleased ones that are not suppressed get
     * their command now.
     */
    method ReconcileOnStartup(verdicts: map<InteractionId, Answer>, now: Time)
      requires Valid()
      modifies this
      ensures Valid()
      ensures forall i :: i in rows <==> i in old(rows) || (i !in old(evaluated) && Decides(old(aggregate), i, VerdictOf(verdicts, i)))
      ensures forall i <- rows | i !in old(rows) :: AnsweredBy(rows[i], VerdictOf(verdicts, i), now) && i in published
      ensures ResolvedOnly(old(aggregate).statuses, aggregate.statuses, rows.Keys - old(rows).Keys)
      ensures forall i | Open(aggregate, i) :: i in evaluated
      ensures forall i <- rows :: rows[i].releasedAt.Some?
      ensures forall i <- old(rows) | old(rows)[i].releasedAt.Some? :: rows[i] == old(rows)[i]
      ensures forall i <- old(rows) | old(rows)[i].releasedAt.None? :: ReleasedFrom(old(rows)[i], rows[i], now) && i in published
    {
      EvaluatePending(verdicts, now);
      ReleaseUnreleased(now);
    }

    predicate CancelledRow(i: InteractionId, now: Time)
      reads this
    {
      i in rows && rows[i].(resolution := 0) == AnswerRow(Answer(CANCEL, now), 0, None, Some(now), true)
    }

    /** One round of the interrupt loop: an open, unanswered interaction is cancelled for good. */
    method CancelOne(i: InteractionId, now: Time)
      requires Valid()
      modifies this`aggregate, this`rows, this`resolutions, this`published
      ensures Valid() && old(published) <= published
      ensures !Open(aggregate, i)
      ensures Open(old(aggregate), i) ==> CancelledRow(i, now) && i in published && i !in old(rows)
      ensures !Open(old(aggregate), i) ==> rows == old(rows)
      ensures forall j | j != i :: (j in rows <==> j in old(rows)) && (j in rows ==> rows[j] == old(rows)[j])
      ensures aggregate.statuses.Keys == old(aggregate).statuses.Keys
      ensures forall j <- aggregate.statuses | j != i :: aggregate.statuses[j] == old(aggregate).statuses[j]
    {
      if i in aggregate.answers {
        return;
      }
      var cancelled := Cancel(aggregate, i, now);
      if cancelled.None? {
        return;
      }
      assert forall j <- rows :: RowOk(State(), j);
      PersistKeeps(State(), i, cancelled.value, Answer(CANCEL, now), true, Cancelled);
      rows := rows[i := AnswerRow(Answer(CANCEL, now), aggregate.next, None, None, true)];
      resolutions := resolutions + {(aggregate.next, i)};
      aggregate := cancelled.value;
      published := published + {i};
      var done := CompleteSuppressed(i, now);
    }

    /**
     * `cancel_open_for_interrupt` without interference: every open interaction ends cancelled with a
     * published, suppressed and completed answer; nothing else changes and no command is created.
     */
    method CancelOpenForInterrupt(now: Time)
      requires Valid()
      modifies this`aggregate, this`rows, this`resolutions, this`published
      ensures Valid()
      ensures forall i :: !Open(aggregate, i)
      ensures forall i <- old(rows) | !Open(old(aggregate), i) :: i in rows && rows[i] == old(rows)[i]
      ensures forall i :: i in rows <==> i in old(rows) || Open(old(aggregate), i)
      ensures forall i | Open(old(aggregate), i) :: CancelledRow(i, now) && i in published && i !in old(rows)
    {
      var ids := aggregate.statuses.Keys;
      while ids != {}
        invariant Valid()
        invariant aggregate.statuses.Keys == old(aggregate).statuses.Keys && ids <= aggregate.statuses.Keys
        invariant forall i <- ids :: aggregate.statuses[i] == old(aggregate).statuses[i]
        invariant forall i <- aggregate.statuses | i !in ids :: !Open(aggregate, i)
        invariant forall i <- old(rows) | !Open(old(aggregate), i) :: i in rows && rows[i] == old(rows)[i]
        invariant forall i <- ids :: i in rows <==> i in old(rows)
        invariant forall i | i !in ids :: i in rows <==> i in old(rows) || Open(old(aggregate), i)
        invariant forall i | Open(old(aggregate), i) && i !in ids :: CancelledRow(i, now) && i in published && i !in old(rows)
        decreases |ids|
      {
        var i: InteractionId :| i in ids;
        ids := ids - {i};
        CancelOne(i, now);
      }
    }
  }
}
