// Retention: the calendar cutoff, the read-only preview, the cleanup it predicts, and their agreement.
module Retention {
  import opened Wrappers
  import opened Commands

  type OwnerId = nat

  // ----- The calendar -----

  datatype Instant = Instant(year: int, month: int, day: int, clock: int)

  predicate Leap(year: int) {
    year % 4 == 0 && (year % 100 != 0 || year % 400 == 0)
  }

  function LastDay(year: int, month: int): int {
    if month == 2 then if Leap(year) then 29 else 28
    else if month == 4 || month == 6 || month == 9 || month == 11 then 30
    else 31
  }

  lemma MonthLengths(year: int, month: int)
    requires 1 <= month <= 12
    ensures LastDay(year, month) == [31, 28, 31, 30, 31, 30, 31, 31, 30, 31, 30, 31][month - 1] + (if month == 2 && Leap(year) then 1 else 0)
  {
  }

  /** Every fourth year, no century, every fourth century. */
  lemma LeapYears()
    ensures Leap(2000) && Leap(2024) && Leap(2400) && !Leap(1900) && !Leap(2100) && !Leap(2200) && !Leap(2023)
  {
  }

  predicate IsInstant(t: Instant) {
    1 <= t.month <= 12 && 1 <= t.day <= LastDay(t.year, t.month)
  }

  function MonthIndex(t: Instant): int {
    t.year * 12 + t.month - 1
  }

  predicate AtMost(a: Instant, b: Instant) {
    || a.year < b.year
    || (a.year == b.year && (a.month < b.month
                             || (a.month == b.month && (a.day < b.day || (a.day == b.day && a.clock <= b.clock)))))
  }

  /** `months_before`: the same day and time, clamped to the last day of the earlier month. */
  function MonthsBefore(t: Instant, months: nat): Instant {
    var total := MonthIndex(t) - months;
    var year, month := total / 12, total % 12 + 1;
    var last := LastDay(year, month);
    Instant(year, month, if t.day <= last then t.day else last, t.clock)
  }

  /** Exactly that many months back, on a real day, and the day moves only if it has to. */
  lemma MonthsBeforeIsExact(t: Instant, months: nat)
    requires IsInstant(t)
    ensures var r := MonthsBefore(t, months);
            && IsInstant(r) && MonthIndex(r) == MonthIndex(t) - months && r.clock == t.clock
            && r.day <= t.day && (r.day != t.day ==> r.day == LastDay(r.year, r.month))
            && AtMost(r, t)
  {
  }

  /** Two different days of one month that land on the same clamped day, later time of day first. */
  predicate ClampedOutOfOrder(a: Instant, b: Instant, months: nat) {
    && MonthIndex(a) == MonthIndex(b) && a.day < b.day && a.clock > b.clock
    && a.day >= LastDay(MonthsBefore(a, months).year, MonthsBefore(a, months).month)
  }

  /**
   * A later clock has a later cutoff exactly unless clamping merges two days of a month whose times
   * of day run the other way.
   */
  lemma CutoffMovesForwardExactlyWhen(a: Instant, b: Instant, months: nat)
    requires IsInstant(a) && IsInstant(b) && AtMost(a, b)
    ensures AtMost(MonthsBefore(a, months), MonthsBefore(b, months)) <==> !ClampedOutOfOrder(a, b, months)
  {
    MonthsBeforeIsExact(a, months);
    MonthsBeforeIsExact(b, months);
    var x, y := MonthsBefore(a, months), MonthsBefore(b, months);
    assert MonthIndex(a) <= MonthIndex(b);
    if MonthIndex(x) == MonthIndex(y) {
      assert x.year == y.year && x.month == y.month && a.year == b.year && a.month == b.month;
    } else {
      assert MonthIndex(x) < MonthIndex(y);
    }
  }

  /** One month before a late 30 March lies after one month before an early 31 March. */
  lemma CutoffCanMoveBack()
    ensures var (a, b) := (Instant(2025, 3, 30, 23), Instant(2025, 3, 31, 1));
            AtMost(a, b) && !AtMost(MonthsBefore(a, 1), MonthsBefore(b, 1))
  {
    var a, b := Instant(2025, 3, 30, 23), Instant(2025, 3, 31, 1);
    assert ClampedOutOfOrder(a, b, 1);
    CutoffMovesForwardExactlyWhen(a, b, 1);
  }

  // ----- Rows -----

  datatype TurnStatus = Queued | Running | Waiting | Completed | Interrupted | Failed | UnknownOutcome

  datatype TurnRow = TurnRow(id: TurnId, status: TurnStatus, completedAt: Option<Instant>)

  datatype Active = Active(id: TurnId, status: TurnStatus, startedAt: Option<Instant>, createdAt: Instant)

  datatype Row = Row(
    id: ConversationId,
    owner: OwnerId,
    deletedAt: Option<Instant>,
    exempt: bool,
    bound: bool,
    runningActivity: bool,
    active: Option<Active>,
    turns: seq<TurnRow>)

  type Policy = map<OwnerId, nat>

  const DEFAULT_RETENTION_MONTHS: nat := 6

  function Cutoff(policy: Policy, now: Instant, owner: OwnerId): Instant {
    MonthsBefore(now, if owner in policy then policy[owner] else DEFAULT_RETENTION_MONTHS)
  }

  /** Each owner's cutoff at one moment. */
  type Cutoffs = OwnerId -> Instant

  function CutoffsOf(policy: Policy, now: Instant): Cutoffs {
    (owner: OwnerId) => Cutoff(policy, now, owner)
  }

  predicate PurgeEligible(row: Row, cutoff: Instant) {
    row.deletedAt.Some? && AtMost(row.deletedAt.value, cutoff)
  }

  predicate TerminalExpired(turn: TurnRow, cutoff: Instant) {
    && (turn.status.Completed? || turn.status.Interrupted? || turn.status.Failed? || turn.status.UnknownOutcome?)
    && turn.completedAt.Some? && AtMost(turn.completedAt.value, cutoff)
  }

  predicate WaitingExpired(row: Row, cutoff: Instant) {
    && row.active.Some? && row.active.value.status.Waiting?
    && AtMost(row.active.value.startedAt.OrElse(Some(row.active.value.createdAt)).value, cutoff)
  }

  /** `classify_history_eligibility`. */
  predicate Blocked(row: Row, cutoff: Instant) {
    row.exempt || !row.bound || row.runningActivity || (row.active.Some? && !WaitingExpired(row, cutoff))
  }

  predicate DistinctTurns(turns: seq<TurnRow>) {
    forall i, j | 0 <= i < j < |turns| :: turns[i].id != turns[j].id
  }

  predicate GoodRows(rows: seq<Row>) {
    forall row <- rows :: DistinctTurns(row.turns)
  }

  // ----- The preview -----

  datatype Preview = Preview(softDeleted: nat, history: nat, terminal: nat, waiting: nat)

  const NO_PREVIEW := Preview(0, 0, 0, 0)

  function CountExpired(turns: seq<TurnRow>, cutoff: Instant): nat {
    if |turns| == 0 then 0
    else CountExpired(turns[..|turns| - 1], cutoff) + if TerminalExpired(turns[|turns| - 1], cutoff) then 1 else 0
  }

  function PreviewRow(row: Row, cutoff: Instant): Preview {
    if PurgeEligible(row, cutoff) then Preview(1, 0, 0, 0)
    else if row.deletedAt.Some? || Blocked(row, cutoff) then NO_PREVIEW
    else
      var terminal, waiting := CountExpired(row.turns, cutoff), if WaitingExpired(row, cutoff) then 1 else 0;
      if terminal == 0 && waiting == 0 then NO_PREVIEW else Preview(0, 1, terminal, waiting)
  }

  datatype Figure = SoftDeleted | History | TerminalTurns | WaitingTurns

  function Read(p: Preview, figure: Figure): nat {
    match figure
    case SoftDeleted => p.softDeleted
    case History => p.history
    case TerminalTurns => p.terminal
    case WaitingTurns => p.waiting
  }

  /** One figure over the rows of some owners, each row under its own owner's cutoff. */
  function Total(rows: seq<Row>, owners: set<OwnerId>, cutoffs: Cutoffs, figure: Figure): nat {
    if |rows| == 0 then 0
    else
      var row := rows[|rows| - 1];
      Total(rows[..|rows| - 1], owners, cutoffs, figure)
      + if row.owner in owners then Read(PreviewRow(row, cutoffs(row.owner)), figure) else 0
  }

  function PreviewOf(rows: seq<Row>, owners: set<OwnerId>, cutoffs: Cutoffs): Preview {
    Preview(Total(rows, owners, cutoffs, SoftDeleted), Total(rows, owners, cutoffs, History),
            Total(rows, owners, cutoffs, TerminalTurns), Total(rows, owners, cutoffs, WaitingTurns))
  }

  function OwnerSet(owners: seq<OwnerId>): set<OwnerId> {
    set o <- owners
  }

  predicate Distinct(owners: seq<OwnerId>) {
    forall i, j | 0 <= i < j < |owners| :: owners[i] != owners[j]
  }

  /** Previewing one more owner adds exactly that owner's rows. */
  lemma {:induction false} OneMoreOwner(rows: seq<Row>, owners: set<OwnerId>, owner: OwnerId, cutoffs: Cutoffs, figure: Figure)
    requires owner !in owners
    ensures Total(rows, owners + {owner}, cutoffs, figure) == Total(rows, owners, cutoffs, figure) + Total(rows, {owner}, cutoffs, figure)
  {
    if |rows| != 0 {
      OneMoreOwner(rows[..|rows| - 1], owners, owner, cutoffs, figure);
    }
  }

  lemma {:induction false} NoOwnersNoRows(rows: seq<Row>, cutoffs: Cutoffs, figure: Figure)
    ensures Total(rows, {}, cutoffs, figure) == 0
  {
    if |rows| != 0 {
      NoOwnersNoRows(rows[..|rows| - 1], cutoffs, figure);
    }
  }

  // ----- The cleanup -----

  datatype Counts = Counts(purged: nat, pruned: nat, cancelled: nat)

  function ExpiredIds(turns: seq<TurnRow>, cutoff: Instant): set<TurnId> {
    set t <- turns | TerminalExpired(t, cutoff) :: t.id
  }

  /** What one prune deletes: expired terminal turns, and the waiting turn it cancels. */
  function Expired(row: Row, cutoff: Instant): set<TurnId> {
    ExpiredIds(row.turns, cutoff) + if WaitingExpired(row, cutoff) then {row.active.value.id} else {}
  }

  function WithoutTurns(turns: seq<TurnRow>, gone: set<TurnId>): seq<TurnRow> {
    if |turns| == 0 then []
    else
      var before, last := WithoutTurns(turns[..|turns| - 1], gone), turns[|turns| - 1];
      if last.id in gone then before else before + [last]
  }

  /** `_prune_expired_history`: None when blocked or when nothing has expired. */
  function PruneRow(row: Row, cutoff: Instant): Option<Row> {
    if Blocked(row, cutoff) || Expired(row, cutoff) == {} then None
    else Some(row.(active := None, turns := WithoutTurns(row.turns, Expired(row, cutoff))))
  }

  function Add(a: Counts, b: Counts): Counts {
    Counts(a.purged + b.purged, a.pruned + b.pruned, a.cancelled + b.cancelled)
  }

  const NO_COUNTS := Counts(0, 0, 0)

  /** One row of the pruning loop: deleted, blocked and unexpired rows are passed over. */
  function PruneOne(row: Row, cutoff: Instant): (Row, Counts) {
    if row.deletedAt.Some? || PruneRow(row, cutoff).None? then (row, NO_COUNTS)
    else (PruneRow(row, cutoff).value, Counts(0, |Expired(row, cutoff)|, if WaitingExpired(row, cutoff) then 1 else 0))
  }

  /** One row through the whole pass: the row that is left, if any, and what was counted. */
  function CleanRow(row: Row, cutoff: Instant): (Option<Row>, Counts) {
    if PurgeEligible(row, cutoff) then (None, Counts(1, 0, 0))
    else
      var (left, counts) := PruneOne(row, cutoff);
      (Some(left), counts)
  }

  function CleanRows(rows: seq<Row>, cutoffs: Cutoffs): (seq<Row>, Counts) {
    if |rows| == 0 then ([], NO_COUNTS)
    else
      var row := rows[|rows| - 1];
      var (before, a) := CleanRows(rows[..|rows| - 1], cutoffs);
      var (left, b) := CleanRow(row, cutoffs(row.owner));
      (if left.Some? then before + [left.value] else before, Add(a, b))
  }

  /** Cleanup counts a waiting turn once, the preview twice, when its own row is already terminal. */
  predicate CountedTwice(row: Row, cutoff: Instant) {
    && row.deletedAt.None? && !Blocked(row, cutoff) && WaitingExpired(row, cutoff)
    && row.active.value.id in ExpiredIds(row.turns, cutoff)
  }

  lemma {:induction false} CountIsCardinality(turns: seq<TurnRow>, cutoff: Instant)
    requires DistinctTurns(turns)
    ensures |ExpiredIds(turns, cutoff)| == CountExpired(turns, cutoff)
  {
    if |turns| != 0 {
      var front, last := turns[..|turns| - 1], turns[|turns| - 1];
      CountIsCardinality(front, cutoff);
      assert turns == front + [last];
      assert ExpiredIds(turns, cutoff) == ExpiredIds(front, cutoff) + if TerminalExpired(last, cutoff) then {last.id} else {};
      assert last.id !in ExpiredIds(front, cutoff);
    }
  }

  lemma RowPredicted(row: Row, cutoff: Instant)
    requires DistinctTurns(row.turns)
    ensures var (p, c) := (PreviewRow(row, cutoff), CleanRow(row, cutoff).1);
            && p.softDeleted == c.purged && p.waiting == c.cancelled
            && p.terminal + p.waiting == c.pruned + (if CountedTwice(row, cutoff) then 1 else 0)
            && (p.history == 1 <==> !PurgeEligible(row, cutoff) && row.deletedAt.None? && PruneRow(row, cutoff).Some?)
  {
    CountIsCardinality(row.turns, cutoff);
    var ids := ExpiredIds(row.turns, cutoff);
    if WaitingExpired(row, cutoff) {
      if row.active.value.id in ids {
        assert ids + {row.active.value.id} == ids;
      }
    } else {
      assert ids + {} == ids;
    }
  }

  /**
   * What the preview announces is what cleanup then does: purged conversations and cancelled turns
   * always agree, and pruned turns are the announced terminal and waiting turns together exactly
   * when no waiting turn to be cancelled has an expired terminal row of its own.
   */
  lemma {:induction false} PreviewPredictsCleanup(rows: seq<Row>, owners: set<OwnerId>, cutoffs: Cutoffs)
    requires GoodRows(rows) && forall row <- rows :: row.owner in owners
    ensures var (p, c) := (PreviewOf(rows, owners, cutoffs), CleanRows(rows, cutoffs).1);
            && p.softDeleted == c.purged && p.waiting == c.cancelled
            && c.pruned <= p.terminal + p.waiting
            && (p.terminal + p.waiting == c.pruned <==> forall row <- rows :: !CountedTwice(row, cutoffs(row.owner)))
  {
    if |rows| != 0 {
      var front, last := rows[..|rows| - 1], rows[|rows| - 1];
      assert rows == front + [last];
      assert forall row :: row in rows <==> row in front || row == last;
      PreviewPredictsCleanup(front, owners, cutoffs);
      RowPredicted(last, cutoffs(last.owner));
    }
  }

  lemma {:induction false} NothingExpiredIsLeft(turns: seq<TurnRow>, gone: set<TurnId>)
    ensures forall t :: t in WithoutTurns(turns, gone) <==> t in turns && t.id !in gone
    ensures DistinctTurns(turns) ==> DistinctTurns(WithoutTurns(turns, gone))
  {
    if |turns| != 0 {
      var front, last := turns[..|turns| - 1], turns[|turns| - 1];
      assert turns == front + [last];
      NothingExpiredIsLeft(front, gone);
      if DistinctTurns(turns) {
        forall t <- WithoutTurns(front, gone) ensures t.id != last.id {
          var k :| 0 <= k < |front| && front[k] == t;
          assert turns[k].id != turns[|turns| - 1].id;
        }
      }
    }
  }

  lemma CleanedRowStays(row: Row, cutoff: Instant)
    requires CleanRow(row, cutoff).0.Some?
    ensures CleanRow(CleanRow(row, cutoff).0.value, cutoff) == (CleanRow(row, cutoff).0, Counts(0, 0, 0))
    ensures CleanRow(row, cutoff).0.value.owner == row.owner
  {
    var left := CleanRow(row, cutoff).0.value;
    if PruneRow(row, cutoff).Some? && row.deletedAt.None? {
      NothingExpiredIsLeft(row.turns, Expired(row, cutoff));
      assert ExpiredIds(left.turns, cutoff) == {};
      assert Expired(left, cutoff) == {};
    }
  }

  /** A second pass at the same moment finds nothing: it counts nothing and changes no row. */
  lemma {:induction false} SecondCleanupIsIdle(rows: seq<Row>, cutoffs: Cutoffs)
    ensures var left := CleanRows(rows, cutoffs).0;
            CleanRows(left, cutoffs) == (left, Counts(0, 0, 0))
  {
    if |rows| != 0 {
      var row := rows[|rows| - 1];
      var before := CleanRows(rows[..|rows| - 1], cutoffs).0;
      SecondCleanupIsIdle(rows[..|rows| - 1], cutoffs);
      var left := CleanRow(row, cutoffs(row.owner)).0;
      if left.Some? {
        CleanedRowStays(row, cutoffs(row.owner));
        IdleOneMore(before, left.value, cutoffs);
      }
    }
  }

  lemma IdleOneMore(rows: seq<Row>, row: Row, cutoffs: Cutoffs)
    requires CleanRows(rows, cutoffs) == (rows, Counts(0, 0, 0))
    requires CleanRow(row, cutoffs(row.owner)) == (Some(row), Counts(0, 0, 0))
    ensures CleanRows(rows + [row], cutoffs) == (rows + [row], Counts(0, 0, 0))
  {
    assert (rows + [row])[..|rows|] == rows;
  }

  /** Cleanup deletes expired turns only, and leaves exempt, unbound and busy conversations alone. */
  lemma CleanupKeepsTheRest(row: Row, cutoff: Instant)
    requires !PurgeEligible(row, cutoff)
    ensures CleanRow(row, cutoff).0.Some?
    ensures var left := CleanRow(row, cutoff).0.value;
            && (Blocked(row, cutoff) || row.deletedAt.Some? ==> left == row)
            && left == row.(active := left.active, turns := left.turns)
            && (left.active == row.active || (left.active.None? && WaitingExpired(row, cutoff)))
            && (forall t <- row.turns :: t in left.turns || TerminalExpired(t, cutoff) || t.id in Expired(row, cutoff))
            && (forall t <- left.turns :: t in row.turns)
  {
    NothingExpiredIsLeft(row.turns, Expired(row, cutoff));
  }

  predicate EndedBefore(turn: TurnRow, cutoff: Instant) {
    && turn.status in {Completed, Interrupted, Failed, UnknownOutcome}
    && turn.completedAt.Some? && AtMost(turn.completedAt.value, cutoff)
  }

  /** A waiting turn that has waited since before the cutoff. */
  predicate WaitedTooLong(row: Row, cutoff: Instant) {
    && row.active.Some? && row.active.value.status.Waiting?
    && AtMost(if row.active.value.startedAt.Some? then row.active.value.startedAt.value else row.active.value.createdAt, cutoff)
  }

  /**
   * What a cleanup deletes, no less and no more: a conversation exactly if it was soft-deleted before the
   * cutoff; of the others that are not deleted, not exempt, bound and without running work, each turn
   * that ended before the cutoff and the waiting one that has waited since before it.
   */
  lemma CleanupDeletesExactly(row: Row, cutoff: Instant)
    ensures CleanRow(row, cutoff).0.None? <==> row.deletedAt.Some? && AtMost(row.deletedAt.value, cutoff)
    ensures CleanRow(row, cutoff).0.Some? ==>
              var (left, waited) := (CleanRow(row, cutoff).0.value, WaitedTooLong(row, cutoff));
              var open := row.deletedAt.None? && !row.exempt && row.bound && !row.runningActivity && (row.active.None? || waited);
              && left == row.(active := if open then None else row.active, turns := left.turns)
              && forall t <- row.turns ::
                   t in left.turns <==>
                   !(open && ((waited && t.id == row.active.value.id) || (exists u <- row.turns :: u.id == t.id && EndedBefore(u, cutoff))))
  {
    NothingExpiredIsLeft(row.turns, Expired(row, cutoff));
    assert WaitedTooLong(row, cutoff) <==> WaitingExpired(row, cutoff);
    EndedIds(row.turns, cutoff);
    if !Blocked(row, cutoff) && row.deletedAt.None? && Expired(row, cutoff) == {} {
      assert forall t <- row.turns :: t.id !in Expired(row, cutoff);
    }
  }

  lemma EndedIds(turns: seq<TurnRow>, cutoff: Instant)
    ensures forall id :: id in ExpiredIds(turns, cutoff) <==> exists u <- turns :: u.id == id && EndedBefore(u, cutoff)
  {
    assert forall u <- turns :: EndedBefore(u, cutoff) <==> TerminalExpired(u, cutoff);
  }

  /** Owners who chose nothing keep six months. */
  lemma SixMonthsByDefault(policy: Policy, now: Instant, owner: OwnerId)
    requires owner !in policy
    ensures CutoffsOf(policy, now)(owner) == MonthsBefore(now, 6)
  {
  }

  // ----- The passes in place -----

  predicate KnownMonths(months: map<OwnerId, nat>, policy: Policy) {
    forall o <- months :: months[o] == if o in policy then policy[o] else DEFAULT_RETENTION_MONTHS
  }

  class RetentionStore {
    var rows: seq<Row>
    var policy: Policy

    /** What `_preview_retention` adds for one row of the owner. */
    method PreviewNext(row: Row, cutoff: Instant) returns (p: Preview)
      ensures p == PreviewRow(row, cutoff)
    {
      if PurgeEligible(row, cutoff) {
        return Preview(1, 0, 0, 0);
      }
      if row.deletedAt.Some? || Blocked(row, cutoff) {
        return NO_PREVIEW;
      }
      var terminal: nat := 0;
      for j := 0 to |row.turns|
        invariant terminal == CountExpired(row.turns[..j], cutoff)
      {
        assert row.turns[..j + 1][..j] == row.turns[..j];
        if TerminalExpired(row.turns[j], cutoff) {
          terminal := terminal + 1;
        }
      }
      assert row.turns[..|row.turns|] == row.turns;
      var waiting: nat := if WaitingExpired(row, cutoff) then 1 else 0;
      if terminal == 0 && waiting == 0 {
        return NO_PREVIEW;
      }
      p := Preview(0, 1, terminal, waiting);
    }

    /** `_preview_retention` for one owner. */
    method PreviewRetention(owner: OwnerId, now: Instant) returns (p: Preview)
      ensures p == PreviewOf(rows, {owner}, CutoffsOf(policy, now))
    {
      var cutoff := Cutoff(policy, now, owner);
      p := NO_PREVIEW;
      for i := 0 to |rows|
        invariant p == PreviewOf(rows[..i], {owner}, CutoffsOf(policy, now))
      {
        assert rows[..i + 1][..i] == rows[..i];
        if rows[i].owner != owner {
          continue;
        }
        var one := PreviewNext(rows[i], cutoff);
        p := Preview(p.softDeleted + one.softDeleted, p.history + one.history, p.terminal + one.terminal, p.waiting + one.waiting);
      }
      assert rows[..|rows|] == rows;
    }

    /** `preview_cleanup`, over the distinct owners of all rows. */
    method PreviewCleanup(owners: seq<OwnerId>, now: Instant) returns (p: Preview)
      requires Distinct(owners)
      ensures p == PreviewOf(rows, OwnerSet(owners), CutoffsOf(policy, now))
    {
      p := NO_PREVIEW;
      ghost var seen: set<OwnerId> := {};
      forall figure ensures Total(rows, {}, CutoffsOf(policy, now), figure) == 0 {
        NoOwnersNoRows(rows, CutoffsOf(policy, now), figure);
      }
      for i := 0 to |owners|
        invariant forall o :: o in seen <==> o in owners[..i]
        invariant p == PreviewOf(rows, seen, CutoffsOf(policy, now))
      {
        assert owners[..i + 1] == owners[..i] + [owners[i]];
        forall figure
          ensures Total(rows, seen + {owners[i]}, CutoffsOf(policy, now), figure)
               == Total(rows, seen, CutoffsOf(policy, now), figure) + Total(rows, {owners[i]}, CutoffsOf(policy, now), figure)
        {
          OneMoreOwner(rows, seen, owners[i], CutoffsOf(policy, now), figure);
        }
        var one := PreviewRetention(owners[i], now);
        p := Preview(p.softDeleted + one.softDeleted, p.history + one.history, p.terminal + one.terminal, p.waiting + one.waiting);
        seen := seen + {owners[i]};
      }
      assert owners[..|owners|] == owners;
      assert seen == OwnerSet(owners);
    }

    /** `run_cleanup`: the purge first, then every conversation that is not deleted. */
    method RunCleanup(now: Instant) returns (counts: Counts)
      modifies this`rows
      ensures (rows, counts) == CleanRows(old(rows), CutoffsOf(policy, now))
    {
      PurgePrunesApart(rows, CutoffsOf(policy, now));
      var purged := PurgeSoftDeleted(now);
      counts := PruneHistory(now);
      counts := Add(Counts(purged, 0, 0), counts);
    }

    /** One round of the pass: the months are looked up once per owner. */
    method PruneNext(row: Row, known: map<OwnerId, nat>, now: Instant) returns (left: Row, counts: Counts, months: map<OwnerId, nat>)
      requires KnownMonths(known, policy)
      ensures (left, counts) == PruneOne(row, Cutoff(policy, now, row.owner)) && KnownMonths(months, policy)
    {
      left, counts, months := row, NO_COUNTS, known;
      if row.deletedAt.Some? {
        return;
      }
      if row.owner !in months {
        months := months[row.owner := if row.owner in policy then policy[row.owner] else DEFAULT_RETENTION_MONTHS];
      }
      var cutoff := MonthsBefore(now, months[row.owner]);
      var result := PruneRow(row, cutoff);
      if result.None? {
        return;
      }
      left := result.value;
      counts := Counts(0, |Expired(row, cutoff)|, if WaitingExpired(row, cutoff) then 1 else 0);
    }

    /** The loop of the pass over the conversations. */
    method PruneHistory(now: Instant) returns (counts: Counts)
      modifies this`rows
      ensures (rows, counts) == PruneRows(old(rows), CutoffsOf(policy, now))
    {
      var left: seq<Row>, months: map<OwnerId, nat> := [], map[];
      counts := NO_COUNTS;
      for i := 0 to |rows|
        invariant rows == old(rows) && KnownMonths(months, policy)
        invariant (left, counts) == PruneRows(rows[..i], CutoffsOf(policy, now))
      {
        assert rows[..i + 1] == rows[..i] + [rows[i]];
        PruneOneMore(rows[..i], rows[i], CutoffsOf(policy, now));
        var row, one;
        row, one, months := PruneNext(rows[i], months, now);
        left := left + [row];
        counts := Add(counts, one);
      }
      assert rows[..|rows|] == rows;
      rows := left;
    }

    /** `_purge_soft_deleted`, each row under its own owner's cutoff. */
    method PurgeSoftDeleted(now: Instant) returns (total: nat)
      modifies this`rows
      ensures rows == PurgeRows(old(rows), CutoffsOf(policy, now))
      ensures total + |rows| == |old(rows)|
    {
      var kept := [];
      total := 0;
      for i := 0 to |rows|
        invariant rows == old(rows) && kept == PurgeRows(rows[..i], CutoffsOf(policy, now)) && total + |kept| == i
      {
        assert rows[..i + 1][..i] == rows[..i];
        if PurgeEligible(rows[i], Cutoff(policy, now, rows[i].owner)) {
          total := total + 1;
        } else {
          kept := kept + [rows[i]];
        }
      }
      assert rows[..|rows|] == rows;
      rows := kept;
    }
  }

  function PurgeRows(rows: seq<Row>, cutoffs: Cutoffs): seq<Row> {
    if |rows| == 0 then []
    else
      var before, row := PurgeRows(rows[..|rows| - 1], cutoffs), rows[|rows| - 1];
      if PurgeEligible(row, cutoffs(row.owner)) then before else before + [row]
  }

  function PruneRows(rows: seq<Row>, cutoffs: Cutoffs): (seq<Row>, Counts) {
    if |rows| == 0 then ([], NO_COUNTS)
    else
      var row := rows[|rows| - 1];
      var (before, a) := PruneRows(rows[..|rows| - 1], cutoffs);
      var (left, b) := PruneOne(row, cutoffs(row.owner));
      (before + [left], Add(a, b))
  }

  lemma PruneOneMore(rows: seq<Row>, row: Row, cutoffs: Cutoffs)
    ensures var (before, a) := PruneRows(rows, cutoffs);
            var (left, b) := PruneOne(row, cutoffs(row.owner));
            PruneRows(rows + [row], cutoffs) == (before + [left], Add(a, b))
  {
    assert (rows + [row])[..|rows|] == rows;
  }

  lemma CleanOneMore(rows: seq<Row>, row: Row, cutoffs: Cutoffs)
    ensures var (before, a) := CleanRows(rows, cutoffs);
            var cutoff := cutoffs(row.owner);
            CleanRows(rows + [row], cutoffs) ==
            if PurgeEligible(row, cutoff) then (before, Add(a, Counts(1, 0, 0)))
            else (before + [PruneOne(row, cutoff).0], Add(a, PruneOne(row, cutoff).1))
    ensures PurgeRows(rows + [row], cutoffs) ==
            PurgeRows(rows, cutoffs) + if PurgeEligible(row, cutoffs(row.owner)) then [] else [row]
  {
    assert (rows + [row])[..|rows|] == rows;
  }

  /** The two-phase pass over some rows gives what the one-phase pass gives. */
  ghost predicate Apart(cleaned: (seq<Row>, Counts), purged: int, pruned: (seq<Row>, Counts)) {
    && cleaned.0 == pruned.0
    && cleaned.1.purged == purged + pruned.1.purged
    && cleaned.1.pruned == pruned.1.pruned && cleaned.1.cancelled == pruned.1.cancelled
  }

  lemma ApartStep(rows: seq<Row>, row: Row, cutoffs: Cutoffs)
    requires Apart(CleanRows(rows, cutoffs), |rows| - |PurgeRows(rows, cutoffs)|, PruneRows(PurgeRows(rows, cutoffs), cutoffs))
    ensures var kept := PurgeRows(rows + [row], cutoffs);
            Apart(CleanRows(rows + [row], cutoffs), |rows| + 1 - |kept|, PruneRows(kept, cutoffs))
  {
    var kept := PurgeRows(rows, cutoffs);
    CleanOneMore(rows, row, cutoffs);
    if PurgeEligible(row, cutoffs(row.owner)) {
      assert kept + [] == kept;
    } else {
      PruneOneMore(kept, row, cutoffs);
    }
  }

  /** Purging everything first and then pruning what is left is one pass over the rows. */
  lemma {:induction false} PurgePrunesApart(rows: seq<Row>, cutoffs: Cutoffs)
    ensures Apart(CleanRows(rows, cutoffs), |rows| - |PurgeRows(rows, cutoffs)|, PruneRows(PurgeRows(rows, cutoffs), cutoffs))
  {
    if |rows| != 0 {
      var front, row := rows[..|rows| - 1], rows[|rows| - 1];
      PurgePrunesApart(front, cutoffs);
      ApartStep(front, row, cutoffs);
      assert rows == front + [row];
    }
  }
}
