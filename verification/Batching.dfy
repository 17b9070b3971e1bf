// The event pump's delta batcher: batching of harness events and the rebase after a version conflict.
module Batching {
  import opened Wrappers

  type EventId = nat

  /** What the pump knows of a harness event; the serial number stands for object identity. */
  datatype Input = Input(serial: nat, body: nat)

  datatype State = State(version: nat, content: nat)

  datatype Event = Event(id: EventId, body: nat)

  /** A dispatch result before its events get their ids. */
  datatype Dispatched = Dispatched(state: State, bodies: seq<nat>, commands: seq<nat>)

  /** `dispatch_harness_event`; None is the domain error it may raise. */
  type Dispatcher = (State, Input) -> Option<Dispatched>

  // ----- What a rebase means -----

  /** Dispatch inputs one after the other, starting from a fresh state. */
  function Redispatch(dispatch: Dispatcher, reloaded: State, inputs: seq<Input>): Option<Dispatched> {
    if inputs == [] then Some(Dispatched(reloaded, [], []))
    else
      match Redispatch(dispatch, reloaded, inputs[..|inputs| - 1])
      case None => None
      case Some(before) =>
        match dispatch(before.state, inputs[|inputs| - 1])
        case None => None
        case Some(d) => Some(Dispatched(d.state, before.bodies + d.bodies, before.commands + d.commands))
  }

  /** One input of the pending batch with the events it produced. */
  datatype Entry = Entry(input: Input, events: seq<Event>)

  function EventsOf(entries: seq<Entry>): seq<Event> {
    if entries == [] then [] else EventsOf(entries[..|entries| - 1]) + entries[|entries| - 1].events
  }

  function InputsOf(entries: seq<Entry>): seq<Input> {
    if entries == [] then [] else InputsOf(entries[..|entries| - 1]) + [entries[|entries| - 1].input]
  }

  /** The inputs that produced events, each once and in order. */
  function Productive(entries: seq<Entry>): seq<Input> {
    if entries == [] then []
    else
      var before, last := Productive(entries[..|entries| - 1]), entries[|entries| - 1];
      if last.events == [] then before else before + [last.input]
  }

  predicate AllBelow(inputs: seq<Input>, serial: nat) {
    forall input <- inputs :: input.serial < serial
  }

  function Repeat(input: Input, n: nat): seq<Input> {
    seq(n, _ => input)
  }

  /** The source of each event, in event order: an input once per event it produced. */
  function Origins(entries: seq<Entry>): seq<Input> {
    if entries == [] then []
    else Origins(entries[..|entries| - 1]) + Repeat(entries[|entries| - 1].input, |entries[|entries| - 1].events|)
  }

  /** The inputs as the conflict handler recovers them: the sources, without immediate repetitions. */
  function Dedupe(sources: seq<Input>): seq<Input> {
    if sources == [] then []
    else
      var before, source := Dedupe(sources[..|sources| - 1]), sources[|sources| - 1];
      if before != [] && before[|before| - 1] == source then before else before + [source]
  }

  lemma {:induction false} DedupeAppend(before: seq<Input>, source: Input, n: nat)
    ensures var first := Dedupe(before);
            Dedupe(before + Repeat(source, n)) ==
            if n == 0 || (first != [] && first[|first| - 1] == source) then first else first + [source]
  {
    if n == 0 {
      assert before + Repeat(source, n) == before;
    } else {
      var all := before + Repeat(source, n);
      assert all[..|all| - 1] == before + Repeat(source, n - 1);
      DedupeAppend(before, source, n - 1);
    }
  }

  /** Inputs arrive with rising serial numbers. */
  ghost predicate Arrived(entries: seq<Entry>) {
    entries != [] ==>
      var front, last := entries[..|entries| - 1], entries[|entries| - 1];
      Arrived(front) && AllBelow(Productive(front), last.input.serial)
  }

  /**
   * Recovering inputs from the sources of the events finds each input that produced events exactly
   * once, in order, although an input may have produced many events.
   */
  lemma {:induction false} RecoveryIsExact(entries: seq<Entry>)
    requires Arrived(entries)
    ensures Dedupe(Origins(entries)) == Productive(entries)
  {
    if entries != [] {
      var front, last := entries[..|entries| - 1], entries[|entries| - 1];
      RecoveryIsExact(front);
      DedupeAppend(Origins(front), last.input, |last.events|);
    }
  }

  /**
   * What a rebase loses. Given that it lost nothing before, leaving out an input that produced no
   * event changes the rebased batch exactly unless that input does nothing on the rebased state.
   */
  lemma RebaseLosesExactly(dispatch: Dispatcher, reloaded: State, entries: seq<Entry>, last: Entry)
    requires last.events == []
    requires Redispatch(dispatch, reloaded, Productive(entries)).Some?
    requires Redispatch(dispatch, reloaded, InputsOf(entries)) == Redispatch(dispatch, reloaded, Productive(entries))
    ensures var so := Redispatch(dispatch, reloaded, InputsOf(entries)).value.state;
            Redispatch(dispatch, reloaded, InputsOf(entries + [last])) == Redispatch(dispatch, reloaded, Productive(entries + [last]))
            <==> dispatch(so, last.input) == Some(Dispatched(so, [], []))
  {
    assert (entries + [last])[..|entries|] == entries;
    var inputs := InputsOf(entries) + [last.input];
    assert InputsOf(entries + [last]) == inputs && inputs[..|inputs| - 1] == InputsOf(entries);
    var before := Redispatch(dispatch, reloaded, InputsOf(entries)).value;
    var d := dispatch(before.state, last.input);
    if d.Some? {
      assert |before.bodies + d.value.bodies| == |before.bodies| + |d.value.bodies|;
      assert |before.commands + d.value.commands| == |before.commands| + |d.value.commands|;
      if d.value.bodies == [] && d.value.commands == [] {
        assert before.bodies + d.value.bodies == before.bodies && before.commands + d.value.commands == before.commands;
      }
    }
  }

  // ----- One flush -----

  /** What persistence answers to one commit attempt; after a conflict also the reloaded snapshot. */
  datatype Attempt = Committed | Conflict(snapshot: State, matches: bool) | Refused

  /** The batch a flush hands to its next attempt. */
  datatype Batch = Batch(base: nat, state: State, bodies: seq<nat>, commands: seq<nat>)

  datatype Flushed = Stored(batch: Batch) | StaleRuntime | Raised

  function RebasedBatch(snapshot: State, d: Dispatched): Batch {
    Batch(snapshot.version, d.state, d.bodies, d.commands)
  }

  /**
   * The flush, given the answers it will get: commit, or rebase all source inputs on the reloaded
   * state and try again.
   */
  function FlushSpec(dispatch: Dispatcher, batch: Batch, inputs: seq<Input>, answers: seq<Attempt>): Flushed
    decreases |answers|
  {
    if answers == [] then Raised
    else
      match answers[0]
      case Committed => Stored(batch)
      case Refused => Raised
      case Conflict(snapshot, matches) =>
        if !matches then StaleRuntime
        else
          match Redispatch(dispatch, snapshot, inputs)
          case None => Raised
          case Some(d) => FlushSpec(dispatch, RebasedBatch(snapshot, d), inputs, answers[1..])
  }

  /** The first `k` attempts met conflicts, and every rebase in between succeeded. */
  ghost predicate Rebased(dispatch: Dispatcher, inputs: seq<Input>, answers: seq<Attempt>, k: nat) {
    && k <= |answers|
    && forall i | 0 <= i < k :: answers[i].Conflict? && answers[i].matches && Redispatch(dispatch, answers[i].snapshot, inputs).Some?
  }

  /** The batch stored by the attempt after `k` conflicts: as it was collected, or as last rebased. */
  ghost predicate StoredAfter(dispatch: Dispatcher, batch: Batch, inputs: seq<Input>, answers: seq<Attempt>, k: nat, stored: Batch) {
    && k < |answers| && answers[k].Committed? && Rebased(dispatch, inputs, answers, k)
    && stored == if k == 0 then batch else RebasedBatch(answers[k - 1].snapshot, Redispatch(dispatch, answers[k - 1].snapshot, inputs).value)
  }

  /** The attempt after `k` conflicts finds that the runtime no longer matches the binding. */
  ghost predicate StaleAfter(dispatch: Dispatcher, inputs: seq<Input>, answers: seq<Attempt>, k: nat) {
    k < |answers| && answers[k].Conflict? && !answers[k].matches && Rebased(dispatch, inputs, answers, k)
  }

  lemma RebasedOnce(dispatch: Dispatcher, inputs: seq<Input>, answers: seq<Attempt>, k: nat)
    requires |answers| != 0 && answers[0].Conflict? && answers[0].matches && Redispatch(dispatch, answers[0].snapshot, inputs).Some?
    ensures Rebased(dispatch, inputs, answers[1..], k) <==> Rebased(dispatch, inputs, answers, k + 1)
  {
    var rest := answers[1..];
    assert forall i | 0 <= i < |rest| :: rest[i] == answers[i + 1];
    if Rebased(dispatch, inputs, answers, k + 1) {
      forall i | 0 <= i < k
        ensures rest[i].Conflict? && rest[i].matches && Redispatch(dispatch, rest[i].snapshot, inputs).Some?
      {
        assert rest[i] == answers[i + 1];
      }
    }
  }

  /**
   * However many conflicts came first: what a flush stores is either the batch as it was collected
   * or one dispatch of the source inputs on the last reloaded state, with that state's version.
   */
  lemma {:induction false} StoredBatchIsWhole(dispatch: Dispatcher, batch: Batch, inputs: seq<Input>, answers: seq<Attempt>, stored: Batch)
    ensures FlushSpec(dispatch, batch, inputs, answers) == Stored(stored)
       <==> exists k: nat :: StoredAfter(dispatch, batch, inputs, answers, k, stored)
    decreases |answers|
  {
    if |answers| != 0 && answers[0].Conflict? && answers[0].matches && Redispatch(dispatch, answers[0].snapshot, inputs).Some? {
      var next, rest := RebasedBatch(answers[0].snapshot, Redispatch(dispatch, answers[0].snapshot, inputs).value), answers[1..];
      StoredBatchIsWhole(dispatch, next, inputs, rest, stored);
      forall k: nat ensures StoredAfter(dispatch, next, inputs, rest, k, stored) <==> StoredAfter(dispatch, batch, inputs, answers, k + 1, stored) {
        RebasedOnce(dispatch, inputs, answers, k);
      }
      if k: nat :| StoredAfter(dispatch, batch, inputs, answers, k, stored) {
        assert StoredAfter(dispatch, next, inputs, rest, k - 1, stored);
      }
      if k: nat :| StoredAfter(dispatch, next, inputs, rest, k, stored) {
        assert StoredAfter(dispatch, batch, inputs, answers, k + 1, stored);
      }
    } else if |answers| != 0 && answers[0].Committed? && stored == batch {
      assert StoredAfter(dispatch, batch, inputs, answers, 0, stored);
    }
  }

  /** A flush gives the batch up exactly if a conflict after successful rebases finds the runtime stale. */
  lemma {:induction false} StaleExactlyWhen(dispatch: Dispatcher, batch: Batch, inputs: seq<Input>, answers: seq<Attempt>)
    ensures FlushSpec(dispatch, batch, inputs, answers).StaleRuntime?
       <==> exists k: nat :: StaleAfter(dispatch, inputs, answers, k)
    decreases |answers|
  {
    if |answers| != 0 && answers[0].Conflict? && answers[0].matches && Redispatch(dispatch, answers[0].snapshot, inputs).Some? {
      var next, rest := RebasedBatch(answers[0].snapshot, Redispatch(dispatch, answers[0].snapshot, inputs).value), answers[1..];
      StaleExactlyWhen(dispatch, next, inputs, rest);
      forall k: nat ensures StaleAfter(dispatch, inputs, rest, k) <==> StaleAfter(dispatch, inputs, answers, k + 1) {
        RebasedOnce(dispatch, inputs, answers, k);
      }
      if k: nat :| StaleAfter(dispatch, inputs, answers, k) {
        assert StaleAfter(dispatch, inputs, rest, k - 1);
      }
      if k: nat :| StaleAfter(dispatch, inputs, rest, k) {
        assert StaleAfter(dispatch, inputs, answers, k + 1);
      }
    } else if |answers| != 0 && answers[0].Conflict? && !answers[0].matches {
      assert StaleAfter(dispatch, inputs, answers, 0);
    }
  }

  // ----- The pump's pending batch as a value -----

  /**
   * What became of a batch that left the batcher: `start` is the state its first input was dispatched
   * on, `queued` all its inputs and `inputs` those that produced events, `answers` the commit attempts
   * of the flush it left with; a discarded batch leaves without a flush.
   */
  datatype Outcome =
    | Kept(inputs: seq<Input>, start: State, queued: seq<Input>, answers: seq<Attempt>, batch: Batch)
    | Lost(inputs: seq<Input>, answers: seq<Attempt>)
    | Discarded(inputs: seq<Input>)

  /** The last four fields are history. */
  datatype Pending = Pending(
    base: Option<nat>,
    state: Option<State>,
    events: seq<Event>,
    commands: seq<nat>,
    inputs: seq<Input>,
    start: State,
    queued: seq<Input>,
    outcomes: seq<Outcome>)

  function SettledInputs(outcomes: seq<Outcome>): seq<Input> {
    if outcomes == [] then [] else SettledInputs(outcomes[..|outcomes| - 1]) + outcomes[|outcomes| - 1].inputs
  }

  function Bodies(events: seq<Event>): seq<nat> {
    seq(|events|, i requires 0 <= i < |events| => events[i].body)
  }

  function Numbered(first: EventId, bodies: seq<nat>): seq<Event> {
    seq(|bodies|, i requires 0 <= i < |bodies| => Event(first + i, bodies[i]))
  }

  /**
   * Conservation is stated on this: the inputs whose events the batcher took, which are the inputs
   * of the batches that left, in order, followed by the pending ones.
   */
  function TakenIn(outcomes: seq<Outcome>, pending: seq<Input>): seq<Input> {
    SettledInputs(outcomes) + pending
  }

  /** The event ids lead back to the sources, and those to the pending inputs. */
  ghost predicate Tracked(events: seq<Event>, origins: seq<Input>, sources: map<EventId, Input>) {
    |origins| == |events| && forall i | 0 <= i < |events| :: events[i].id in sources && sources[events[i].id] == origins[i]
  }

  /** The events of one more input lead back to it. */
  lemma TrackedMore(events: seq<Event>, origins: seq<Input>, sources: map<EventId, Input>, input: Input, produced: seq<Event>)
    requires Tracked(events, origins, sources) && AllBelow(Dedupe(origins), input.serial)
    requires forall e <- produced :: e.id in sources && sources[e.id] == input
    ensures Tracked(events + produced, origins + Repeat(input, |produced|), sources)
    ensures Dedupe(origins + Repeat(input, |produced|)) == if produced == [] then Dedupe(origins) else Dedupe(origins) + [input]
  {
    DedupeAppend(origins, input, |produced|);
  }

  lemma BodiesOfMore(events: seq<Event>, first: EventId, bodies: seq<nat>)
    ensures Bodies(events + Numbered(first, bodies)) == Bodies(events) + bodies
  {
  }

  lemma BatchLeaves(outcomes: seq<Outcome>, outcome: Outcome)
    ensures TakenIn(outcomes + [outcome], []) == TakenIn(outcomes, outcome.inputs)
  {
    assert (outcomes + [outcome])[..|outcomes|] == outcomes;
  }

  /** The queueing half of `add`, for an input dispatched on the state `at`. */
  function Queued(p: Pending, input: Input, at: State, from: nat, after: State, produced: seq<Event>, more: seq<nat>): Pending {
    Pending(p.base.OrElse(Some(from)), Some(after), p.events + produced, p.commands + more,
            if produced == [] then p.inputs else p.inputs + [input],
            if p.base.None? then at else p.start, p.queued + [input], p.outcomes)
  }

  function Emptied(p: Pending, outcome: Outcome): Pending {
    Pending(None, None, [], [], [], p.start, [], p.outcomes + [outcome])
  }

  predicate IsFlushable(p: Pending) {
    p.base.Some? && p.state.Some? && (p.events != [] || p.commands != [])
  }

  /** `_do_flush`: a failed flush keeps the batch, and nothing pending is no batch; any other empties it. */
  function AfterFlush(dispatch: Dispatcher, p: Pending, answers: seq<Attempt>): Pending {
    if !IsFlushable(p) then p
    else
      match FlushSpec(dispatch, Batch(p.base.value, p.state.value, Bodies(p.events), p.commands), p.inputs, answers)
      case Raised => p
      case StaleRuntime => Emptied(p, Lost(p.inputs, answers))
      case Stored(batch) => Emptied(p, Kept(p.inputs, p.start, p.queued, answers, batch))
  }

  // ----- What every batch is -----

  /** The inputs that produce events when all are dispatched one after the other. */
  function Producers(dispatch: Dispatcher, start: State, queued: seq<Input>): seq<Input> {
    if |queued| == 0 then []
    else
      var front, last := queued[..|queued| - 1], queued[|queued| - 1];
      var so, before := Redispatch(dispatch, start, front), Producers(dispatch, start, front);
      if so.None? || dispatch(so.value.state, last).None? || dispatch(so.value.state, last).value.bodies == [] then before
      else before + [last]
  }

  /** The pending batch is the dispatch of all its inputs on the state it started from, with that state's version. */
  ghost predicate Chained(dispatch: Dispatcher, p: Pending) {
    if p.base.None? then p.state.None? && p.events == [] && p.commands == [] && p.inputs == [] && p.queued == []
    else
      && p.base == Some(p.start.version) && p.state.Some?
      && Redispatch(dispatch, p.start, p.queued) == Some(Dispatched(p.state.value, Bodies(p.events), p.commands))
      && p.inputs == Producers(dispatch, p.start, p.queued)
  }

  /**
   * A stored batch is the dispatch of all its inputs on the state it started from if no attempt met a
   * conflict, and else the dispatch of its event-producing inputs on the last reloaded state; a batch
   * is given up only for a stale runtime.
   */
  ghost predicate LawfulOutcome(dispatch: Dispatcher, o: Outcome) {
    match o
    case Kept(inputs, start, queued, answers, batch) =>
      var d := Redispatch(dispatch, start, queued);
      && d.Some? && inputs == Producers(dispatch, start, queued)
      && exists k: nat :: StoredAfter(dispatch, RebasedBatch(start, d.value), inputs, answers, k, batch)
    case Lost(inputs, answers) => exists k: nat :: StaleAfter(dispatch, inputs, answers, k)
    case Discarded(_) => true
  }

  ghost predicate AllLawful(dispatch: Dispatcher, p: Pending) {
    Chained(dispatch, p) && forall o <- p.outcomes :: LawfulOutcome(dispatch, o)
  }

  /** Queueing the dispatch of one more input on the pending state keeps the law. */
  lemma QueuedIsLawful(dispatch: Dispatcher, p: Pending, input: Input, at: State, after: State, produced: seq<Event>, more: seq<nat>)
    requires AllLawful(dispatch, p) && (p.state.Some? ==> at == p.state.value)
    requires dispatch(at, input) == Some(Dispatched(after, Bodies(produced), more))
    ensures AllLawful(dispatch, Queued(p, input, at, at.version, after, produced, more))
  {
    var q := Queued(p, input, at, at.version, after, produced, more);
    assert q.queued[..|q.queued| - 1] == p.queued;
    assert Bodies(q.events) == Bodies(p.events) + Bodies(produced);
    if p.base.None? {
      assert q.queued == [input] && Redispatch(dispatch, at, []) == Some(Dispatched(at, [], []));
    }
  }

  /** Every flush keeps the law, whatever its attempts meet. */
  lemma FlushIsLawful(dispatch: Dispatcher, p: Pending, answers: seq<Attempt>)
    requires AllLawful(dispatch, p)
    ensures AllLawful(dispatch, AfterFlush(dispatch, p, answers))
  {
    if IsFlushable(p) {
      var batch := RebasedBatch(p.start, Dispatched(p.state.value, Bodies(p.events), p.commands));
      assert batch == Batch(p.base.value, p.state.value, Bodies(p.events), p.commands);
      var result := FlushSpec(dispatch, batch, p.inputs, answers);
      if result.Stored? {
        StoredBatchIsWhole(dispatch, batch, p.inputs, answers, result.batch);
        assert LawfulOutcome(dispatch, Kept(p.inputs, p.start, p.queued, answers, result.batch));
      } else if result.StaleRuntime? {
        StaleExactlyWhen(dispatch, batch, p.inputs, answers);
        assert LawfulOutcome(dispatch, Lost(p.inputs, answers));
      }
    }
  }

  /** The batch as it was collected; with neither an event nor a command there is nothing to commit. */
  predicate Collected(p: Pending, batch: Batch) {
    p.base == Some(batch.base) && p.state == Some(batch.state) && Bodies(p.events) == batch.bodies && p.commands == batch.commands
    && !(batch.bodies == [] && batch.commands == [])
  }

  /**
   * What a flush does, by the answers it meets: it stores the batch of the first attempt that commits
   * after rebases that all succeed, gives the batch up if one of them finds the runtime stale instead,
   * and in every other case, or with nothing to commit, leaves everything pending.
   */
  lemma FlushDoesExactly(dispatch: Dispatcher, p: Pending, answers: seq<Attempt>)
    ensures forall collected, k: nat, batch | Collected(p, collected) && StoredAfter(dispatch, collected, p.inputs, answers, k, batch) ::
              AfterFlush(dispatch, p, answers) == Emptied(p, Kept(p.inputs, p.start, p.queued, answers, batch))
    ensures forall collected, k: nat | Collected(p, collected) && StaleAfter(dispatch, p.inputs, answers, k) ::
              AfterFlush(dispatch, p, answers) == Emptied(p, Lost(p.inputs, answers))
    ensures AfterFlush(dispatch, p, answers) == p
            || exists collected :: Collected(p, collected)
                 && ((exists k: nat, batch :: StoredAfter(dispatch, collected, p.inputs, answers, k, batch))
                     || (exists k: nat :: StaleAfter(dispatch, p.inputs, answers, k)))
  {
    assert p.events == [] <==> |Bodies(p.events)| == 0;
    forall collected | Collected(p, collected)
      ensures forall k: nat, batch | StoredAfter(dispatch, collected, p.inputs, answers, k, batch) ::
                AfterFlush(dispatch, p, answers) == Emptied(p, Kept(p.inputs, p.start, p.queued, answers, batch))
      ensures (exists k: nat :: StaleAfter(dispatch, p.inputs, answers, k)) ==>
                AfterFlush(dispatch, p, answers) == Emptied(p, Lost(p.inputs, answers))
    {
      StaleExactlyWhen(dispatch, collected, p.inputs, answers);
      forall k: nat, batch | StoredAfter(dispatch, collected, p.inputs, answers, k, batch)
        ensures AfterFlush(dispatch, p, answers) == Emptied(p, Kept(p.inputs, p.start, p.queued, answers, batch))
      {
        StoredBatchIsWhole(dispatch, collected, p.inputs, answers, batch);
      }
    }
    if IsFlushable(p) {
      var collected := Batch(p.base.value, p.state.value, Bodies(p.events), p.commands);
      var result := FlushSpec(dispatch, collected, p.inputs, answers);
      assert Collected(p, collected);
      StaleExactlyWhen(dispatch, collected, p.inputs, answers);
      if result.Stored? {
        StoredBatchIsWhole(dispatch, collected, p.inputs, answers, result.batch);
      }
    }
  }

  lemma DiscardIsLawful(dispatch: Dispatcher, p: Pending)
    requires AllLawful(dispatch, p)
    ensures AllLawful(dispatch, Emptied(p, Discarded(p.inputs)))
  {
  }

  // ----- The pump and its batcher in place -----

  /** What the pump did with one harness event. */
  datatype Handled = Stale | Request | DispatchFailed | Handed

  class EventPump {
    const dispatch: Dispatcher
    var base: Option<nat>
    var state: Option<State>
    var events: seq<Event>
    var commands: seq<nat>
    var closed: bool
    var sources: map<EventId, Input>
    var nextEvent: EventId
    var nextSerial: nat

    /** The source of each pending event, and the history of `Pending`. */
    ghost var origins: seq<Input>
    ghost var pending: seq<Input>
    ghost var start: State
    ghost var queued: seq<Input>
    ghost var outcomes: seq<Outcome>

    ghost function View(): Pending
      reads this
    {
      Pending(base, state, events, commands, pending, start, queued, outcomes)
    }

    ghost function Taken(): seq<Input>
      reads this
    {
      TakenIn(outcomes, pending)
    }

    ghost predicate Valid()
      reads this
    {
      && Tracked(events, origins, sources) && Dedupe(origins) == pending
      && (forall id <- sources :: id < nextEvent)
      && (base.None? <==> state.None?)
      && (base.None? ==> events == [])
    }

    /** Every batch that left and the pending one are what they should be. */
    ghost predicate Lawful()
      reads this
    {
      AllLawful(dispatch, View())
    }

    constructor (dispatch: Dispatcher)
      ensures Valid() && Lawful() && AllBelow(Taken(), nextSerial) && !closed && base.None? && Taken() == [] && outcomes == []
    {
      this.dispatch := dispatch;
      base, state, events, commands, closed := None, None, [], [], false;
      sources, nextEvent, nextSerial := map[], 0, 0;
      pending, origins, queued, outcomes := [], [], [], [];
    }

    /** The loop that walks the pending events and keeps each source input once. */
    method SourceInputs(batch: seq<Event>, ghost from: seq<Input>) returns (inputs: seq<Input>)
      requires Tracked(batch, from, sources)
      ensures inputs == Dedupe(from)
    {
      inputs := [];
      var previous: Option<Input> := None;
      for i := 0 to |batch|
        invariant inputs == Dedupe(from[..i])
        invariant previous == if inputs == [] then None else Some(inputs[|inputs| - 1])
      {
        assert from[..i + 1][..i] == from[..i];
        var source := sources[batch[i].id];
        if previous != Some(source) {
          inputs := inputs + [source];
          previous := Some(source);
        }
      }
      assert from[..|batch|] == from;
    }

    /** The rebase loop. */
    method Rebase(reloaded: State, inputs: seq<Input>) returns (r: Option<Dispatched>)
      ensures r == Redispatch(dispatch, reloaded, inputs)
    {
      var d := Dispatched(reloaded, [], []);
      for i := 0 to |inputs|
        invariant Redispatch(dispatch, reloaded, inputs[..i]) == Some(d)
      {
        assert inputs[..i + 1][..i] == inputs[..i];
        var one := dispatch(d.state, inputs[i]);
        if one.None? {
          RedispatchStops(dispatch, reloaded, inputs, i);
          return None;
        }
        d := Dispatched(one.value.state, d.bodies + one.value.bodies, d.commands + one.value.commands);
      }
      assert inputs[..|inputs|] == inputs;
      r := Some(d);
    }

    /** The `flush` callback: retry until stored, refused or found stale. */
    method FlushBatch(batch: Batch, collected: seq<Event>, ghost from: seq<Input>, answers: seq<Attempt>) returns (r: Flushed)
      requires Tracked(collected, from, sources)
      ensures r == FlushSpec(dispatch, batch, Dedupe(from), answers)
    {
      var inputs: Option<seq<Input>> := None;
      var current := batch;
      var k := 0;
      while k < |answers|
        invariant 0 <= k <= |answers|
        invariant inputs.Some? ==> inputs.value == Dedupe(from)
        invariant FlushSpec(dispatch, batch, Dedupe(from), answers)
                  == FlushSpec(dispatch, current, Dedupe(from), answers[k..])
      {
        var answer := answers[k];
        assert answers[k..][0] == answer && answers[k..][1..] == answers[k + 1..];
        match answer
        case Committed => return Stored(current);
        case Refused => return Raised;
        case Conflict(snapshot, matches) =>
          if inputs.None? {
            var found := SourceInputs(collected, from);
            inputs := Some(found);
          }
          if !matches {
            return StaleRuntime;
          }
          var d := Rebase(snapshot, inputs.value);
          if d.None? {
            return Raised;
          }
          current := RebasedBatch(snapshot, d.value);
        k := k + 1;
      }
      r := Raised;
    }

    /** The fresh `_Pending` behind every batch that leaves. */
    method Reset(ghost outcome: Outcome)
      requires Valid() && outcome.inputs == pending
      modifies this`base, this`state, this`events, this`commands, this`origins, this`pending, this`queued, this`outcomes
      ensures Valid() && View() == Emptied(old(View()), outcome) && Taken() == old(Taken())
    {
      BatchLeaves(outcomes, outcome);
      outcomes := outcomes + [outcome];
      base, state, events, commands := None, None, [], [];
      pending, origins, queued := [], [], [];
    }

    /** `_do_flush`. */
    method DoFlush(answers: seq<Attempt>)
      requires Valid()
      modifies this`base, this`state, this`events, this`commands, this`origins, this`pending, this`queued, this`outcomes
      ensures Valid() && View() == AfterFlush(dispatch, old(View()), answers) && Taken() == old(Taken())
    {
      if base.None? || state.None? {
        return;
      }
      if events == [] && commands == [] {
        return;
      }
      var r := FlushBatch(Batch(base.value, state.value, Bodies(events), commands), events, origins, answers);
      if r.Raised? {
        return;
      }
      ghost var outcome := if r.Stored? then Kept(pending, start, queued, answers, r.batch) else Lost(pending, answers);
      Reset(outcome);
    }

    /** `flush`. */
    method Flush(answers: seq<Attempt>)
      requires Valid() && Lawful()
      modifies this
      ensures Valid() && Lawful() && closed == old(closed) && nextSerial == old(nextSerial)
      ensures View() == AfterFlush(dispatch, old(View()), answers) && Taken() == old(Taken())
    {
      FlushIsLawful(dispatch, View(), answers);
      DoFlush(answers);
    }

    /** `close`: nothing is taken in any more, and what is pending gets one last flush. */
    method Close(answers: seq<Attempt>)
      requires Valid() && Lawful()
      modifies this
      ensures Valid() && Lawful() && closed && nextSerial == old(nextSerial)
      ensures View() == AfterFlush(dispatch, old(View()), answers) && Taken() == old(Taken())
    {
      closed := true;
      FlushIsLawful(dispatch, View(), answers);
      DoFlush(answers);
    }

    /** `discard`: the pending batch leaves uncommitted. */
    method Discard()
      requires Valid() && Lawful()
      modifies this
      ensures Valid() && Lawful() && closed && nextSerial == old(nextSerial)
      ensures View() == Emptied(old(View()), Discarded(old(pending))) && Taken() == old(Taken())
    {
      closed := true;
      DiscardIsLawful(dispatch, View());
      Reset(Discarded(pending));
    }

    /** The state an event is dispatched on: the pending one, or else a loaded one. */
    function StartFrom(snapshot: State): State
      reads this
    {
      if state.Some? then state.value else snapshot
    }

    /** The events of one more input. */
    method ExtendEvents(input: Input, produced: seq<Event>)
      requires Tracked(events, origins, sources) && Dedupe(origins) == pending && AllBelow(pending, input.serial)
      requires forall e <- produced :: e.id in sources && sources[e.id] == input
      modifies this`events, this`origins, this`pending
      ensures Tracked(events, origins, sources) && Dedupe(origins) == pending
      ensures events == old(events) + produced
      ensures pending == if produced == [] then old(pending) else old(pending) + [input]
    {
      TrackedMore(events, origins, sources, input, produced);
      origins := origins + Repeat(input, |produced|);
      events := events + produced;
      if produced != [] {
        pending := pending + [input];
      }
    }

    /** The queueing half of `add`. */
    method Enqueue(input: Input, ghost at: State, from: nat, after: State, produced: seq<Event>, more: seq<nat>)
      requires Valid() && !closed
      requires AllBelow(pending, input.serial)
      requires forall e <- produced :: e.id in sources && sources[e.id] == input
      modifies this`base, this`state, this`events, this`commands, this`pending, this`origins, this`start, this`queued
      ensures Valid() && View() == Queued(old(View()), input, at, from, after, produced, more)
    {
      if base.None? {
        base := Some(from);
        start := at;
      }
      state := Some(after);
      ExtendEvents(input, produced);
      commands := commands + more;
      queued := queued + [input];
    }

    /** `add`, for the dispatch of one input on the state `at`: a closed batcher takes nothing in, a forced one flushes. */
    method Add(input: Input, ghost at: State, from: nat, after: State, produced: seq<Event>, more: seq<nat>, force: bool, answers: seq<Attempt>)
      requires Valid()
      requires AllBelow(pending, input.serial)
      requires forall e <- produced :: e.id in sources && sources[e.id] == input
      modifies this
      ensures Valid() && closed == old(closed) && nextSerial == old(nextSerial)
      ensures var queued := Queued(old(View()), input, at, from, after, produced, more);
              View() == if old(closed) then old(View()) else if force then AfterFlush(dispatch, queued, answers) else queued
      ensures Taken() == if old(closed) || produced == [] then old(Taken()) else old(Taken()) + [input]
    {
      if closed {
        return;
      }
      Enqueue(input, at, from, after, produced, more);
      assert SettledInputs(outcomes) + (old(pending) + [input]) == old(Taken()) + [input];
      if force {
        DoFlush(answers);
      }
    }

    /** A successful dispatch: its events are numbered and remembered, its result is added. */
    method RememberAndAdd(input: Input, at: State, d: Dispatched, force: bool, answers: seq<Attempt>)
      requires Valid() && Lawful() && AllBelow(pending, input.serial)
      requires at == StartFrom(at) && dispatch(at, input) == Some(d)
      modifies this
      ensures Valid() && Lawful() && closed == old(closed) && nextSerial == old(nextSerial)
      ensures var queued := Queued(old(View()), input, at, at.version, d.state, Numbered(old(nextEvent), d.bodies), d.commands);
              View() == if old(closed) then old(View()) else if force then AfterFlush(dispatch, queued, answers) else queued
      ensures Taken() == if old(closed) || d.bodies == [] then old(Taken()) else old(Taken()) + [input]
    {
      var produced := Numbered(nextEvent, d.bodies);
      assert Bodies(produced) == d.bodies;
      QueuedIsLawful(dispatch, View(), input, at, d.state, produced, d.commands);
      FlushIsLawful(dispatch, Queued(View(), input, at, at.version, d.state, produced, d.commands), answers);
      Remember(input, produced);
      Add(input, at, at.version, d.state, produced, d.commands, force, answers);
    }

    /**
     * One harness event: nothing for a stale binding, a flush before an interaction request, and
     * otherwise dispatch on the pending (or a loaded) state, remember its source, add.
     */
    method OnHarnessEvent(body: nat, snapshot: State, matches: bool, request: bool, force: bool, answers: seq<Attempt>) returns (r: Handled)
      requires Valid() && Lawful() && AllBelow(Taken(), nextSerial)
      modifies this
      ensures Valid() && Lawful() && AllBelow(Taken(), nextSerial) && closed == old(closed)
      ensures var (input, at) := (Input(old(nextSerial), body), old(StartFrom(snapshot)));
              var d := dispatch(at, input);
              && r == (if !matches then Stale else if request then Request else if d.None? then DispatchFailed else Handed)
              && input !in old(Taken())
              && Taken() == (if r.Handed? && !old(closed) && d.value.bodies != [] then old(Taken()) + [input] else old(Taken()))
              && match r
                 case Stale => View() == old(View())
                 case DispatchFailed => View() == old(View())
                 case Request => View() == AfterFlush(dispatch, old(View()), answers)
                 case Handed =>
                   var produced := Numbered(old(nextEvent), d.value.bodies);
                   var queued := Queued(old(View()), input, at, at.version, d.value.state, produced, d.value.commands);
                   View() == if old(closed) then old(View()) else if force then AfterFlush(dispatch, queued, answers) else queued
      ensures r.Handed? && !old(closed) && !force ==>
                var at := old(StartFrom(snapshot));
                var d := dispatch(at, Input(old(nextSerial), body)).value;
                && state == Some(d.state) && base == (if old(base).Some? then old(base) else Some(at.version))
                && Bodies(events) == old(Bodies(events)) + d.bodies && commands == old(commands) + d.commands
                && outcomes == old(outcomes)
    {
      var input := Input(nextSerial, body);
      assert forall t <- pending :: t in Taken();
      if !matches {
        return Stale;
      }
      if request {
        FlushIsLawful(dispatch, View(), answers);
        DoFlush(answers);
        return Request;
      }
      nextSerial := nextSerial + 1;
      var at := StartFrom(snapshot);
      var d := dispatch(at, input);
      if d.None? {
        return DispatchFailed;
      }
      BodiesOfMore(events, nextEvent, d.value.bodies);
      RememberAndAdd(input, at, d.value, force, answers);
      r := Handed;
    }

    /** `pending_inputs` gains one entry per event; ids are new. */
    method Remember(input: Input, produced: seq<Event>)
      requires Valid()
      requires forall i | 0 <= i < |produced| :: produced[i].id == nextEvent + i
      modifies this`sources, this`nextEvent
      ensures Valid()
      ensures forall id <- old(sources) :: id in sources && sources[id] == old(sources)[id]
      ensures forall e <- produced :: e.id in sources && sources[e.id] == input
    {
      for i := 0 to |produced|
        invariant forall id <- old(sources) :: id in sources && sources[id] == old(sources)[id]
        invariant forall k | 0 <= k < i :: produced[k].id in sources && sources[produced[k].id] == input
        invariant forall id <- sources :: id < nextEvent + i
        invariant nextEvent == old(nextEvent)
      {
        sources := sources[produced[i].id := input];
      }
      nextEvent := nextEvent + |produced|;
    }
  }

  lemma {:induction false} RedispatchStops(dispatch: Dispatcher, start: State, inputs: seq<Input>, i: nat)
    requires i < |inputs| && Redispatch(dispatch, start, inputs[..i + 1]).None?
    ensures Redispatch(dispatch, start, inputs).None?
    decreases |inputs|
  {
    if i + 1 < |inputs| {
      assert inputs[..|inputs| - 1][..i + 1] == inputs[..i + 1];
      RedispatchStops(dispatch, start, inputs[..|inputs| - 1], i);
    } else {
      assert inputs[..i + 1] == inputs;
    }
  }
}
