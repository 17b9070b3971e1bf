// A durable command and the merge that every command write goes through.
module Commands {
  import opened Wrappers

  type CommandId = nat
  type ConversationId = nat
  type TurnId = nat
  type WorkerId = nat
  type Time = int

  datatype Kind = SubmitTurn | Steer | Interrupt | AnswerInteraction | SwitchHarness | OtherKind

  datatype Status = Accepted | Claimed | DeliveryStarted | Delivered | Settled | Coalesced | OutcomeUnknown

  datatype Command = Command(
    id: CommandId,
    conversation: ConversationId,
    kind: Kind,
    status: Status,
    attempts: int,
    startedAt: Option<Time>,
    deliveredAt: Option<Time>,
    leaseExpiresAt: Option<Time>,
    worker: Option<WorkerId>,
    targetTurn: Option<TurnId>,
    settledAt: Option<Time>,
    recoveryAttempt: Option<nat>,
    createdAt: Time)

  predicate Terminal(s: Status) {
    s.Settled? || s.Coalesced? || s.OutcomeUnknown?
  }

  /** Statuses a writer sets deliberately: they overwrite the stored command. */
  predicate ExplicitWrite(s: Status) {
    Terminal(s) || s.Accepted?
  }

  function Rank(s: Status): nat {
    match s
    case Claimed => 1
    case DeliveryStarted => 2
    case Delivered => 3
    case _ => 0
  }

  function MaxTime(a: Option<Time>, b: Option<Time>): Option<Time> {
    match (a, b)
    case (Some(x), Some(y)) => Some(if x < y then y else x)
    case (Some(_), None) => a
    case (None, _) => b
  }

  /** `merge_command_progress`: what is stored after `incoming` is written over `stored`. */
  function Merge(stored: Command, incoming: Command): Command {
    if incoming.status.Accepted? && incoming.attempts < stored.attempts then
      stored
    else if ExplicitWrite(incoming.status) then
      if incoming.attempts >= stored.attempts then incoming else incoming.(attempts := stored.attempts)
    else if Terminal(stored.status) then
      stored
    else
      incoming.(
      status := if Rank(stored.status) > Rank(incoming.status) then stored.status else incoming.status,
      attempts := if stored.attempts < incoming.attempts then incoming.attempts else stored.attempts,
      startedAt := incoming.startedAt.OrElse(stored.startedAt),
      deliveredAt := incoming.deliveredAt.OrElse(stored.deliveredAt),
      targetTurn := incoming.targetTurn.OrElse(stored.targetTurn),
      leaseExpiresAt := MaxTime(stored.leaseExpiresAt, incoming.leaseExpiresAt),
      worker := incoming.worker.OrElse(stored.worker))
  }

  /** A write that reports delivery progress rather than deciding an outcome. */
  predicate InFlight(c: Command) {
    !ExplicitWrite(c.status)
  }

  /** The row after a sequence of writes, oldest first. */
  function WriteAll(stored: Command, writes: seq<Command>): Command
    decreases |writes|
  {
    if writes == [] then stored else WriteAll(Merge(stored, writes[0]), writes[1..])
  }

  // ----- Delivery progress as a lattice -----

  datatype Progress = Progress(rank: nat, attempts: int, started: bool, delivered: bool, lease: Option<Time>)

  function ProgressOf(c: Command): Progress {
    Progress(Rank(c.status), c.attempts, c.startedAt.Some?, c.deliveredAt.Some?, c.leaseExpiresAt)
  }

  predicate LeaseAtMost(a: Option<Time>, b: Option<Time>) {
    a.Some? ==> b.Some? && a.value <= b.value
  }

  predicate AtMost(p: Progress, q: Progress) {
    && p.rank <= q.rank
    && p.attempts <= q.attempts
    && (p.started ==> q.started)
    && (p.delivered ==> q.delivered)
    && LeaseAtMost(p.lease, q.lease)
  }

  ghost predicate UpperBound(stored: Command, writes: seq<Command>, q: Progress) {
    && AtMost(ProgressOf(stored), q)
    && forall w <- writes :: AtMost(ProgressOf(w), q)
  }

  /** In-flight writes are a join: the stored progress is the least upper bound of all of them. */
  lemma {:induction false} InFlightWritesJoin(stored: Command, writes: seq<Command>)
    requires !Terminal(stored.status)
    requires forall w <- writes :: InFlight(w)
    ensures !Terminal(WriteAll(stored, writes).status)
    ensures UpperBound(stored, writes, ProgressOf(WriteAll(stored, writes)))
    ensures forall q :: UpperBound(stored, writes, q) ==> AtMost(ProgressOf(WriteAll(stored, writes)), q)
    decreases |writes|
  {
    if writes != [] {
      var merged, rest := Merge(stored, writes[0]), writes[1..];
      assert InFlight(writes[0]);
      InFlightWritesJoin(merged, rest);
      forall q | UpperBound(stored, writes, q) ensures AtMost(ProgressOf(WriteAll(stored, writes)), q) {
        assert AtMost(ProgressOf(writes[0]), q);
        assert UpperBound(merged, rest, q);
      }
    }
  }

  /** Any two orders of the same in-flight writes, repeats included, store the same progress. */
  lemma InFlightOrderIsIrrelevant(stored: Command, writes: seq<Command>, other: seq<Command>)
    requires !Terminal(stored.status)
    requires forall w <- writes :: InFlight(w)
    requires forall w :: w in writes <==> w in other
    ensures ProgressOf(WriteAll(stored, writes)) == ProgressOf(WriteAll(stored, other))
  {
    InFlightWritesJoin(stored, writes);
    InFlightWritesJoin(stored, other);
    var p, q := ProgressOf(WriteAll(stored, writes)), ProgressOf(WriteAll(stored, other));
    assert UpperBound(stored, writes, q) && UpperBound(stored, other, p);
    assert AtMost(p, q) && AtMost(q, p);
  }

  // ----- What the row says after in-flight writes -----

  /** The value the last write that carries one gave the field, or the stored one if none does. */
  ghost predicate LastCarried<T>(field: Command -> Option<T>, stored: Command, writes: seq<Command>, value: Option<T>) {
    || (value == field(stored) && forall w <- writes :: field(w).None?)
    || exists i :: CarriedLastBy(field, writes, i) && value == field(writes[i])
  }

  ghost predicate CarriedLastBy<T>(field: Command -> Option<T>, writes: seq<Command>, i: int) {
    0 <= i < |writes| && field(writes[i]).Some? && forall j | i < j < |writes| :: field(writes[j]).None?
  }

  lemma CarriedFirst<T>(field: Command -> Option<T>, stored: Command, merged: Command, writes: seq<Command>, value: Option<T>)
    requires |writes| != 0 && field(merged) == (if field(writes[0]).Some? then field(writes[0]) else field(stored))
    requires LastCarried(field, merged, writes[1..], value)
    ensures LastCarried(field, stored, writes, value)
  {
    var rest := writes[1..];
    assert forall j | 0 < j < |writes| :: writes[j] == rest[j - 1];
    if i :| CarriedLastBy(field, rest, i) && value == field(rest[i]) {
      assert CarriedLastBy(field, writes, i + 1);
    } else {
      assert forall j | 0 < j < |writes| :: field(writes[j]).None? by {
        forall j | 0 < j < |writes| ensures field(writes[j]).None? {
          assert rest[j - 1] in rest;
        }
      }
      if field(writes[0]).Some? {
        assert CarriedLastBy(field, writes, 0);
      }
    }
  }

  /**
   * After in-flight writes over a row that is not terminal, the marks, the target turn and the worker
   * are those of the last write that carries one.
   */
  lemma {:induction false} InFlightFieldsAreTheLast(stored: Command, writes: seq<Command>)
    requires !Terminal(stored.status) && forall w <- writes :: InFlight(w)
    ensures var final := WriteAll(stored, writes);
            && LastCarried((c: Command) => c.startedAt, stored, writes, final.startedAt)
            && LastCarried((c: Command) => c.deliveredAt, stored, writes, final.deliveredAt)
            && LastCarried((c: Command) => c.targetTurn, stored, writes, final.targetTurn)
            && LastCarried((c: Command) => c.worker, stored, writes, final.worker)
    decreases |writes|
  {
    if |writes| != 0 {
      var merged, rest, final := Merge(stored, writes[0]), writes[1..], WriteAll(stored, writes);
      assert InFlight(writes[0]);
      InFlightFieldsAreTheLast(merged, rest);
      CarriedFirst((c: Command) => c.startedAt, stored, merged, writes, final.startedAt);
      CarriedFirst((c: Command) => c.deliveredAt, stored, merged, writes, final.deliveredAt);
      CarriedFirst((c: Command) => c.targetTurn, stored, merged, writes, final.targetTurn);
      CarriedFirst((c: Command) => c.worker, stored, merged, writes, final.worker);
    }
  }

  /** Whether the row or a write has the status. */
  predicate Reached(stored: Command, writes: seq<Command>, status: Status) {
    stored.status == status || exists w <- writes :: w.status == status
  }

  lemma ReachedOneMore(stored: Command, merged: Command, writes: seq<Command>, status: Status)
    requires |writes| != 0
    ensures Reached(stored, writes, status) <==> stored.status == status || Reached(merged.(status := writes[0].status), writes[1..], status)
  {
    assert forall w :: w in writes <==> w == writes[0] || w in writes[1..];
  }

  /**
   * The status is the furthest that the row or any write has reached, in the order accepted, claimed,
   * started, delivered; what the merge does not know about is the last write's.
   */
  lemma {:induction false} InFlightStatusIsTheFurthest(stored: Command, writes: seq<Command>)
    requires !Terminal(stored.status) && |writes| != 0 && forall w <- writes :: InFlight(w)
    ensures var (final, last) := (WriteAll(stored, writes), writes[|writes| - 1]);
            && final.status == (if Reached(stored, writes, Delivered) then Delivered
                                else if Reached(stored, writes, DeliveryStarted) then DeliveryStarted
                                else Claimed)
            && final.id == last.id && final.conversation == last.conversation && final.kind == last.kind
            && final.settledAt == last.settledAt && final.recoveryAttempt == last.recoveryAttempt
            && final.createdAt == last.createdAt
    decreases |writes|
  {
    var merged, rest := Merge(stored, writes[0]), writes[1..];
    assert InFlight(writes[0]);
    ReachedOneMore(stored, merged, writes, Delivered);
    ReachedOneMore(stored, merged, writes, DeliveryStarted);
    if |rest| == 0 {
      assert WriteAll(merged, rest) == merged;
    } else {
      assert rest[|rest| - 1] == writes[|writes| - 1];
      InFlightStatusIsTheFurthest(merged, rest);
    }
  }

  /** A release that is not stale starts the row anew: nothing written before it matters any more. */
  lemma FreshReleaseDecides(stored: Command, before: seq<Command>, release: Command, after: seq<Command>)
    requires release.status.Accepted? && release.attempts >= WriteAll(stored, before).attempts
    ensures WriteAll(stored, before + [release] + after) == WriteAll(release, after)
  {
    WriteAllAppend(stored, before + [release], after);
    WriteAllAppend(stored, before, [release]);
    assert [release][1..] == [];
    assert WriteAll(Merge(WriteAll(stored, before), release), []) == release;
  }

  /** A terminal row absorbs every in-flight write. */
  lemma {:induction false} TerminalAbsorbs(stored: Command, writes: seq<Command>)
    requires Terminal(stored.status)
    requires forall w <- writes :: InFlight(w)
    ensures WriteAll(stored, writes) == stored
    decreases |writes|
  {
    if writes != [] {
      assert InFlight(writes[0]);
      TerminalAbsorbs(stored, writes[1..]);
    }
  }

  lemma {:induction false} WriteAllAppend(stored: Command, a: seq<Command>, b: seq<Command>)
    ensures WriteAll(stored, a + b) == WriteAll(WriteAll(stored, a), b)
    decreases |a|
  {
    if a == [] {
      assert a + b == b;
    } else {
      assert (a + b)[1..] == a[1..] + b;
      WriteAllAppend(Merge(stored, a[0]), a[1..], b);
    }
  }

  /** Attempts never fall, whatever is written. */
  lemma {:induction false} AttemptsNeverFall(stored: Command, writes: seq<Command>)
    ensures stored.attempts <= WriteAll(stored, writes).attempts
    decreases |writes|
  {
    if writes != [] {
      AttemptsNeverFall(Merge(stored, writes[0]), writes[1..]);
    }
  }

  /** One terminal write, wherever it lands among in-flight writes, fixes the final row. */
  lemma OneTerminalWriteDecides(stored: Command, before: seq<Command>, outcome: Command, after: seq<Command>)
    requires Terminal(outcome.status)
    requires forall w <- before + after :: InFlight(w)
    ensures var final := WriteAll(stored, before + [outcome] + after);
            var prior := WriteAll(stored, before).attempts;
            final == outcome.(attempts := if prior < outcome.attempts then outcome.attempts else prior)
  {
    assert forall w <- after :: w in before + after;
    var prior := WriteAll(stored, before);
    WriteAllAppend(stored, before, [outcome] + after);
    assert before + [outcome] + after == before + ([outcome] + after);
    assert ([outcome] + after)[1..] == after;
    TerminalAbsorbs(Merge(prior, outcome), after);
  }

  /** A release copied before the latest claim changes nothing, however late it is written. */
  lemma StaleReleaseIsDropped(beforeClaim: Command, claim: Command, later: seq<Command>, release: Command)
    requires release.status.Accepted? && release.attempts == beforeClaim.attempts
    requires claim == beforeClaim.(status := Claimed, attempts := beforeClaim.attempts + 1)
    ensures WriteAll(claim, later + [release]) == WriteAll(claim, later)
  {
    AttemptsNeverFall(claim, later);
    WriteAllAppend(claim, later, [release]);
    assert WriteAll(WriteAll(claim, later), [release]) == Merge(WriteAll(claim, later), release);
  }

  /**
   * The one way a write erases the delivery-started mark: it is explicit, carries no mark itself,
   * and is not a release older than the stored claim.
   */
  predicate Erases(stored: Command, incoming: Command) {
    && ExplicitWrite(incoming.status)
    && incoming.startedAt.None?
    && (incoming.status.Accepted? ==> incoming.attempts >= stored.attempts)
  }

  /** A delivery-started mark outlasts every sequence of writes that erases it nowhere. */
  lemma {:induction false} MarkSurvives(stored: Command, writes: seq<Command>)
    requires stored.startedAt.Some?
    requires forall i | 0 <= i < |writes| :: !Erases(WriteAll(stored, writes[..i]), writes[i])
    ensures WriteAll(stored, writes).startedAt.Some?
    decreases |writes|
  {
    if writes != [] {
      var merged, rest := Merge(stored, writes[0]), writes[1..];
      assert !Erases(WriteAll(stored, writes[..0]), writes[0]);
      forall i | 0 <= i < |rest| ensures !Erases(WriteAll(merged, rest[..i]), rest[i]) {
        assert writes[..i + 1][1..] == rest[..i];
        assert !Erases(WriteAll(stored, writes[..i + 1]), writes[i + 1]);
      }
      MarkSurvives(merged, rest);
    }
  }
}
