// Reading everything in pages: replaying the event log, and following keyset cursors.
module Paging {
  import opened Wrappers
  import opened Sorting

  // ----- Replay -----

  /** A stored event: its sequence number and the size of its encoding in bytes. */
  datatype Event = Event(sequence: nat, size: nat)

  predicate BySequence(events: seq<Event>) {
    forall i, j | 0 <= i < j < |events| :: events[i].sequence < events[j].sequence
  }

  /** The rows the replay query answers with, before its count limit. */
  function After(events: seq<Event>, sequence: nat): seq<Event> {
    if |events| == 0 then []
    else if events[0].sequence > sequence then [events[0]] + After(events[1..], sequence)
    else After(events[1..], sequence)
  }

  function Size(events: seq<Event>): nat {
    if |events| == 0 then 0 else events[0].size + Size(events[1..])
  }

  /** The longest run of leading events within both limits. */
  function Fitting(events: seq<Event>, count: nat, left: nat): seq<Event> {
    if |events| == 0 || count == 0 || events[0].size > left then []
    else [events[0]] + Fitting(events[1..], count - 1, left - events[0].size)
  }

  /** `_replay`, on the rows its query answered with. */
  method Replay(rows: seq<Event>, count: nat, bytes: nat) returns (events: seq<Event>)
    ensures events == Fitting(rows, count, bytes)
  {
    events := [];
    var size: nat := 0;
    var n := if |rows| <= count then |rows| else count;
    assert rows[0..] == rows;
    for i := 0 to n
      invariant size <= bytes && (|events| == 0 ==> size == 0)
      invariant Fitting(rows, count, bytes) == events + Fitting(rows[i..], count - i, bytes - size)
    {
      assert rows[i..][0] == rows[i] && rows[i..][1..] == rows[i + 1..];
      var encoded := rows[i].size;
      if |events| != 0 && size + encoded > bytes {
        assert events + [] == events;
        return;
      }
      if encoded > bytes {
        assert events + [] == events;
        return;
      }
      assert events + ([rows[i]] + Fitting(rows[i + 1..], count - i - 1, bytes - size - encoded))
          == (events + [rows[i]]) + Fitting(rows[i + 1..], count - i - 1, bytes - size - encoded);
      events := events + [rows[i]];
      size := size + encoded;
    }
    assert events + [] == events;
  }

  /** A page is a prefix within both limits, and as long as they allow. */
  lemma {:induction false} FittingIsLongest(events: seq<Event>, count: nat, left: nat)
    ensures var k := |Fitting(events, count, left)|;
            && k <= |events| && Fitting(events, count, left) == events[..k]
            && k <= count && Size(events[..k]) <= left
            && (k < |events| && k < count ==> Size(events[..k]) + events[k].size > left)
  {
    if |events| != 0 && count != 0 && events[0].size <= left {
      FittingIsLongest(events[1..], count - 1, left - events[0].size);
      var k := |Fitting(events, count, left)|;
      assert events[..k] == [events[0]] + events[1..][..k - 1];
      assert events[..k][1..] == events[1..][..k - 1];
    }
  }

  lemma {:induction false} AfterHolds(events: seq<Event>, sequence: nat)
    ensures forall e :: e in After(events, sequence) <==> e in events && e.sequence > sequence
  {
    if |events| != 0 {
      AfterHolds(events[1..], sequence);
      assert events == [events[0]] + events[1..];
    }
  }

  lemma {:induction false} AfterShape(events: seq<Event>, sequence: nat)
    requires BySequence(events)
    ensures BySequence(After(events, sequence))
  {
    if |events| != 0 {
      var rest := events[1..];
      AfterShape(rest, sequence);
      AfterHolds(rest, sequence);
      forall e <- After(rest, sequence) ensures events[0].sequence < e.sequence {
        var k :| 0 <= k < |rest| && rest[k] == e;
        assert events[k + 1] == e;
      }
    }
  }

  lemma {:induction false} AfterTwice(events: seq<Event>, first: nat, second: nat)
    requires first <= second
    ensures After(After(events, first), second) == After(events, second)
  {
    if |events| != 0 {
      AfterTwice(events[1..], first, second);
      if events[0].sequence > first {
        assert After(events, first)[1..] == After(events[1..], first);
      }
    }
  }

  lemma {:induction false} AfterAll(events: seq<Event>, sequence: nat)
    requires forall i | 0 <= i < |events| :: events[i].sequence > sequence
    ensures After(events, sequence) == events
  {
    if |events| != 0 {
      AfterAll(events[1..], sequence);
    }
  }

  /** Continuing after the k-th event leaves exactly the events behind it. */
  lemma {:induction false} AfterIsSuffix(events: seq<Event>, k: nat)
    requires BySequence(events) && 1 <= k <= |events|
    ensures After(events, events[k - 1].sequence) == events[k..]
    decreases k
  {
    if k == 1 {
      AfterAll(events[1..], events[0].sequence);
    } else {
      assert events[1..][k - 2] == events[k - 1];
      AfterIsSuffix(events[1..], k - 1);
      assert events[1..][k - 1..] == events[k..];
    }
  }

  /** All later events that fit the byte limit on their own, up to the first that does not. */
  function Leading(events: seq<Event>, bytes: nat): seq<Event> {
    if |events| == 0 || events[0].size > bytes then [] else [events[0]] + Leading(events[1..], bytes)
  }

  lemma {:induction false} LeadingSplits(events: seq<Event>, k: nat, bytes: nat)
    requires k <= |events| && Size(events[..k]) <= bytes
    ensures Leading(events, bytes) == events[..k] + Leading(events[k..], bytes)
    decreases k
  {
    if k == 0 {
      assert events[0..] == events && events[..0] == [];
    } else {
      assert events[..k][1..] == events[1..][..k - 1] && events[..k][0] == events[0];
      LeadingSplits(events[1..], k - 1, bytes);
      assert events[1..][k - 1..] == events[k..];
      assert events[..k] == [events[0]] + events[1..][..k - 1];
    }
  }

  /** Replaying again and again from the last sequence received, until a page comes back empty. */
  function ReplayAll(events: seq<Event>, after: nat, count: nat, bytes: nat): seq<Event>
    requires BySequence(events)
    decreases |After(events, after)|
  {
    var later := After(events, after);
    var page := Fitting(later, count, bytes);
    if |page| == 0 then []
    else
      ContinueAfter(events, after, count, bytes);
      page + ReplayAll(events, page[|page| - 1].sequence, count, bytes)
  }

  /** The sequence to continue from after `k` of the later events. */
  lemma ContinueBehind(events: seq<Event>, after: nat, k: nat)
    requires BySequence(events) && 1 <= k <= |After(events, after)|
    ensures After(events, After(events, after)[k - 1].sequence) == After(events, after)[k..]
  {
    var later := After(events, after);
    AfterShape(events, after);
    AfterHolds(events, after);
    AfterIsSuffix(later, k);
    assert later[k - 1] in later;
    AfterTwice(events, after, later[k - 1].sequence);
  }

  lemma ContinueAfter(events: seq<Event>, after: nat, count: nat, bytes: nat)
    requires BySequence(events)
    ensures var (later, page) := (After(events, after), Fitting(After(events, after), count, bytes));
            |page| != 0 ==> |page| <= |later| && After(events, page[|page| - 1].sequence) == later[|page|..]
  {
    var later := After(events, after);
    var page := Fitting(later, count, bytes);
    FittingIsLongest(later, count, bytes);
    if |page| != 0 {
      assert page[|page| - 1] == later[|page| - 1];
      ContinueBehind(events, after, |page|);
    }
  }

  lemma {:induction false} ReplayAllIsLeading(events: seq<Event>, after: nat, count: nat, bytes: nat)
    requires BySequence(events) && count >= 1
    ensures ReplayAll(events, after, count, bytes) == Leading(After(events, after), bytes)
    decreases |After(events, after)|
  {
    var later := After(events, after);
    var page := Fitting(later, count, bytes);
    FittingIsLongest(later, count, bytes);
    if |page| != 0 {
      ContinueAfter(events, after, count, bytes);
      ReplayAllIsLeading(events, page[|page| - 1].sequence, count, bytes);
      LeadingSplits(later, |page|, bytes);
    } else {
      assert later[..0] == [];
    }
  }

  lemma {:induction false} LeadingIsAll(events: seq<Event>, bytes: nat)
    ensures Leading(events, bytes) == events <==> forall e <- events :: e.size <= bytes
  {
    if |events| != 0 {
      LeadingIsAll(events[1..], bytes);
      assert events == [events[0]] + events[1..];
      if events[0].size <= bytes {
        assert Leading(events, bytes)[1..] == Leading(events[1..], bytes);
      }
    }
  }

  /**
   * Repeated replay ends, and yields every later event once and in order exactly when each of them
   * fits the byte limit on its own; otherwise it stops for good before the first that does not.
   */
  lemma ReplayIsCompleteExactlyWhen(events: seq<Event>, after: nat, count: nat, bytes: nat)
    requires BySequence(events) && count >= 1
    ensures ReplayAll(events, after, count, bytes) == After(events, after) <==> forall e <- events | e.sequence > after :: e.size <= bytes
  {
    ReplayAllIsLeading(events, after, count, bytes);
    LeadingIsAll(After(events, after), bytes);
    AfterHolds(events, after);
  }

  // ----- Keyset pages -----

  /** The row orders in use: newest first, oldest first, and search hits by rank, then newest. */
  datatype Kind = Descending | Ascending | Ranked

  datatype Row = Row(rank: int, sort: int, id: nat)

  datatype Cursor = Cursor(rank: int, sort: int, id: nat)

  /** The filter a cursor adds: strictly behind the row it names. */
  predicate Behind(kind: Kind, row: Row, c: Cursor) {
    match kind
    case Descending => row.sort < c.sort || (row.sort == c.sort && row.id < c.id)
    case Ascending => row.sort > c.sort || (row.sort == c.sort && row.id > c.id)
    case Ranked =>
      row.rank < c.rank || (row.rank == c.rank && row.sort < c.sort) || (row.rank == c.rank && row.sort == c.sort && row.id < c.id)
  }

  /** The `order_by` of each kind. */
  predicate Precedes(kind: Kind, a: Row, b: Row) {
    match kind
    case Descending => a.sort > b.sort || (a.sort == b.sort && a.id >= b.id)
    case Ascending => a.sort < b.sort || (a.sort == b.sort && a.id <= b.id)
    case Ranked => a.rank > b.rank || (a.rank == b.rank && (a.sort > b.sort || (a.sort == b.sort && a.id >= b.id)))
  }

  function RowOrder(kind: Kind): Order<Row> {
    (a: Row, b: Row) => Precedes(kind, a, b)
  }

  function CursorOf(row: Row): Cursor {
    Cursor(row.rank, row.sort, row.id)
  }

  function Selected(kind: Kind, rows: seq<Row>, cursor: Option<Cursor>): seq<Row> {
    if |rows| == 0 then []
    else
      var before, row := Selected(kind, rows[..|rows| - 1], cursor), rows[|rows| - 1];
      if cursor.None? || Behind(kind, row, cursor.value) then before + [row] else before
  }

  const MAX_PAGE_SIZE := 200
  const DEFAULT_PAGE_SIZE := 50

  /** `clamp_page_limit`. */
  function ClampLimit(limit: Option<int>): (r: Result<nat, ()>)
    ensures r.Ok? ==> 1 <= r.value <= 200 && (limit.Some? ==> r.value == limit.value) && (limit.None? ==> r.value == 50)
    ensures r.Err? <==> limit.Some? && !(1 <= limit.value <= 200)
  {
    if limit.None? then Ok(DEFAULT_PAGE_SIZE)
    else if limit.value < 1 || limit.value > MAX_PAGE_SIZE then Err(())
    else Ok(limit.value)
  }

  datatype Page = Page(items: seq<Row>, next: Option<Cursor>)

  /** One page: one row more than the limit is read to see whether a next page exists. */
  function PageAt(kind: Kind, rows: seq<Row>, cursor: Option<Cursor>, limit: nat): Page
    requires limit >= 1
  {
    Cut(Sort(RowOrder(kind), Selected(kind, rows, cursor)), limit)
  }

  /** The slicing of the rows found: at most `limit` of them, and a cursor if one more was read. */
  function Cut(found: seq<Row>, limit: nat): Page
    requires limit >= 1
  {
    var read := if |found| <= limit + 1 then found else found[..limit + 1];
    var items := if |read| <= limit then read else read[..limit];
    Page(items, if |read| > limit then Some(CursorOf(items[limit - 1])) else None)
  }

  const ROW_ID := (row: Row) => row.id

  predicate UniqueIds(rows: seq<Row>) {
    DistinctBy(ROW_ID, rows)
  }

  lemma RowOrderIsTotal(kind: Kind)
    ensures TotalOrder(RowOrder(kind))
  {
  }

  lemma {:induction false} SelectedCounts(kind: Kind, rows: seq<Row>, cursor: Option<Cursor>, x: Row)
    ensures multiset(Selected(kind, rows, cursor))[x] ==
            if cursor.None? || Behind(kind, x, cursor.value) then multiset(rows)[x] else 0
  {
    if |rows| != 0 {
      SelectedCounts(kind, rows[..|rows| - 1], cursor, x);
      assert rows == rows[..|rows| - 1] + [rows[|rows| - 1]];
    }
  }

  lemma {:induction false} SelectedNone(kind: Kind, rows: seq<Row>, cursor: Cursor)
    requires forall x <- rows :: !Behind(kind, x, cursor)
    ensures Selected(kind, rows, Some(cursor)) == []
  {
    if |rows| != 0 {
      SelectedNone(kind, rows[..|rows| - 1], cursor);
    }
  }

  /** In the ordered list a cursor selects exactly what follows its row. */
  lemma {:induction false} SelectedIsSuffix(kind: Kind, sorted: seq<Row>, k: nat)
    requires InOrder(RowOrder(kind), sorted) && UniqueIds(sorted) && 1 <= k <= |sorted|
    ensures Selected(kind, sorted, Some(CursorOf(sorted[k - 1]))) == sorted[k..]
    decreases |sorted|
  {
    var cursor := CursorOf(sorted[k - 1]);
    var front, last := sorted[..|sorted| - 1], sorted[|sorted| - 1];
    if k == |sorted| {
      forall x <- sorted ensures !Behind(kind, x, cursor) {
        var i :| 0 <= i < |sorted| && sorted[i] == x;
        assert i < k - 1 ==> RowOrder(kind)(sorted[i], sorted[k - 1]);
      }
      SelectedNone(kind, sorted, cursor);
    } else {
      assert front[k - 1] == sorted[k - 1];
      SelectedIsSuffix(kind, front, k);
      assert RowOrder(kind)(sorted[k - 1], last);
      assert sorted[k..] == front[k..] + [last];
    }
  }

  /** What is left behind a row of the ordered list, however the rows are stored. */
  lemma BehindIsSuffix(kind: Kind, rows: seq<Row>, sorted: seq<Row>, k: nat)
    requires sorted == Sort(RowOrder(kind), rows) && UniqueIds(sorted) && 1 <= k <= |sorted|
    ensures Sort(RowOrder(kind), Selected(kind, rows, Some(CursorOf(sorted[k - 1])))) == sorted[k..]
  {
    var cursor := Some(CursorOf(sorted[k - 1]));
    RowOrderIsTotal(kind);
    SortSorts(RowOrder(kind), rows);
    SelectedIsSuffix(kind, sorted, k);
    SortSorts(RowOrder(kind), Selected(kind, rows, cursor));
    forall x ensures multiset(Selected(kind, rows, cursor))[x] == multiset(sorted[k..])[x] {
      SelectedCounts(kind, rows, cursor, x);
      SelectedCounts(kind, sorted, cursor, x);
    }
    assert multiset(Selected(kind, rows, cursor)) == multiset(sorted[k..]);
    UniqueIsAntisymmetric(kind, sorted, k);
    OrderIsUnique(RowOrder(kind), sorted[k..], Sort(RowOrder(kind), Selected(kind, rows, cursor)));
  }

  lemma UniqueIsAntisymmetric(kind: Kind, sorted: seq<Row>, k: nat)
    requires InOrder(RowOrder(kind), sorted) && UniqueIds(sorted) && k <= |sorted|
    ensures InOrder(RowOrder(kind), sorted[k..]) && Antisymmetric(RowOrder(kind), sorted[k..])
  {
    var tail := sorted[k..];
    forall x <- tail, y <- tail | RowOrder(kind)(x, y) && RowOrder(kind)(y, x) ensures x == y {
      var i :| 0 <= i < |tail| && tail[i] == x;
      var j :| 0 <= j < |tail| && tail[j] == y;
      assert sorted[k + i] == x && sorted[k + j] == y;
    }
  }

  lemma {:induction false} SelectedAll(kind: Kind, rows: seq<Row>)
    ensures Selected(kind, rows, None) == rows
  {
    if |rows| != 0 {
      SelectedAll(kind, rows[..|rows| - 1]);
      assert rows == rows[..|rows| - 1] + [rows[|rows| - 1]];
    }
  }

  /** Following `next` from page to page, at most `turns` times. */
  function Follow(pages: Option<Cursor> -> Page, cursor: Option<Cursor>, turns: nat): (seq<Row>, bool)
    decreases turns
  {
    var page := pages(cursor);
    if page.next.None? then (page.items, true)
    else if turns == 0 then (page.items, false)
    else
      var (rest, ended) := Follow(pages, page.next, turns - 1);
      (page.items + rest, ended)
  }

  function CursorAt(sorted: seq<Row>, k: nat): Option<Cursor>
    requires k <= |sorted|
  {
    if k == 0 then None else Some(CursorOf(sorted[k - 1]))
  }

  lemma CutShape(found: seq<Row>, limit: nat)
    requires limit >= 1
    ensures Cut(found, limit) ==
            if |found| <= limit then Page(found, None) else Page(found[..limit], Some(CursorOf(found[limit - 1])))
  {
    if |found| > limit + 1 {
      assert found[..limit + 1][..limit] == found[..limit];
    }
  }

  /** What is found from a place in the ordered list on. */
  lemma FoundAtPlace(kind: Kind, rows: seq<Row>, sorted: seq<Row>, k: nat)
    requires sorted == Sort(RowOrder(kind), rows) && UniqueIds(sorted) && k <= |sorted|
    ensures Sort(RowOrder(kind), Selected(kind, rows, CursorAt(sorted, k))) == sorted[k..]
  {
    if k == 0 {
      SelectedAll(kind, rows);
      assert sorted[0..] == sorted;
    } else {
      BehindIsSuffix(kind, rows, sorted, k);
    }
  }

  /** The page that starts at a place of the ordered list. */
  function PageFrom(sorted: seq<Row>, k: nat, limit: nat): Page
    requires k <= |sorted|
  {
    if |sorted| - k <= limit then Page(sorted[k..], None) else Page(sorted[k..k + limit], CursorAt(sorted, k + limit))
  }

  lemma PageAtPlace(kind: Kind, rows: seq<Row>, sorted: seq<Row>, k: nat, limit: nat)
    requires limit >= 1 && sorted == Sort(RowOrder(kind), rows) && UniqueIds(sorted) && k <= |sorted|
    ensures PageAt(kind, rows, CursorAt(sorted, k), limit) == PageFrom(sorted, k, limit)
  {
    FoundAtPlace(kind, rows, sorted, k);
    CutShape(sorted[k..], limit);
    if |sorted| - k > limit {
      assert sorted[k..][..limit] == sorted[k..k + limit] && sorted[k..][limit - 1] == sorted[k + limit - 1];
    }
  }

  /** From a place in the ordered list, following the cursors yields the rest of it and ends. */
  lemma {:induction false} FollowIsSuffix(pages: Option<Cursor> -> Page, sorted: seq<Row>, k: nat, limit: nat, turns: nat)
    requires limit >= 1 && k <= |sorted| && |sorted| - k <= turns
    requires forall j: nat | j <= |sorted| :: pages(CursorAt(sorted, j)) == PageFrom(sorted, j, limit)
    ensures Follow(pages, CursorAt(sorted, k), turns) == (sorted[k..], true)
    decreases turns
  {
    if |sorted| - k > limit {
      FollowIsSuffix(pages, sorted, k + limit, limit, turns - 1);
      assert sorted[k..] == sorted[k..k + limit] + sorted[k + limit..];
    }
  }

  lemma SortedIdsUnique(kind: Kind, rows: seq<Row>)
    requires UniqueIds(rows)
    ensures UniqueIds(Sort(RowOrder(kind), rows))
  {
    RowOrderIsTotal(kind);
    SortSorts(RowOrder(kind), rows);
    PermutationKeepsDistinct(ROW_ID, rows, Sort(RowOrder(kind), rows));
  }

  /**
   * For unchanging rows with unique ids, following `next_cursor` until it is absent enumerates the
   * whole ordered result once, for every order and page size.
   */
  lemma PagesEnumerateOnce(kind: Kind, rows: seq<Row>, limit: nat)
    requires limit >= 1 && UniqueIds(rows)
    ensures Follow(cursor => PageAt(kind, rows, cursor, limit), None, |rows|) == (Sort(RowOrder(kind), rows), true)
    ensures multiset(Sort(RowOrder(kind), rows)) == multiset(rows) && InOrder(RowOrder(kind), Sort(RowOrder(kind), rows))
    ensures forall i, j | 0 <= i < j < |rows| && |Sort(RowOrder(kind), rows)| == |rows| ::
              var (a, b) := (Sort(RowOrder(kind), rows)[i], Sort(RowOrder(kind), rows)[j]);
              if kind.Ascending? then a.sort <= b.sort
              else if kind.Descending? then a.sort >= b.sort
              else a.rank >= b.rank && (a.rank == b.rank ==> a.sort >= b.sort)
  {
    var sorted := Sort(RowOrder(kind), rows);
    RowOrderIsTotal(kind);
    SortSorts(RowOrder(kind), rows);
    SortedIdsUnique(kind, rows);
    var pages := cursor => PageAt(kind, rows, cursor, limit);
    forall j: nat | j <= |sorted| ensures pages(CursorAt(sorted, j)) == PageFrom(sorted, j, limit) {
      PageAtPlace(kind, rows, sorted, j, limit);
    }
    FollowIsSuffix(pages, sorted, 0, limit, |rows|);
    assert sorted[0..] == sorted;
  }
}
