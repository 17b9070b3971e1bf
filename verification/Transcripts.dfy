// Transcripts and handoff documents: flattening, regrouping, and rendering in any read order.
module Transcripts {
  import opened Wrappers
  import opened Sorting

  type Id = nat

  datatype Role = User | Assistant | System

  /** A tool result; its arguments are an opaque JSON value. */
  datatype Tool = Tool(name: string, arguments: nat, outcome: nat, exitStatus: Option<int>, paths: seq<string>, tail: string)

  datatype TranscriptEntry = Message(fromUser: bool, text: string, interrupted: bool) | ToolUse(tool: Tool)

  datatype HandoffBody = HandoffMessage(role: Role, text: string, interrupted: bool) | HandoffTool(tool: Tool)

  datatype HandoffEntry = HandoffEntry(id: Id, turn: Id, turnIndex: int, index: int, body: HandoffBody)

  type Turn = seq<TranscriptEntry>

  // ----- From transcript to handoff -----

  function ToBody(e: TranscriptEntry): HandoffBody {
    match e
    case Message(fromUser, text, interrupted) => HandoffMessage(if fromUser then User else Assistant, text, interrupted)
    case ToolUse(tool) => HandoffTool(tool)
  }

  /** The new identifiers of one import: one for each turn, one for each entry. */
  datatype Ids = Ids(turns: seq<Id>, entries: seq<seq<Id>>)

  predicate IdsFor(ids: Ids, turns: seq<Turn>) {
    && |ids.turns| == |turns| && |ids.entries| == |turns|
    && forall i | 0 <= i < |turns| :: |ids.entries[i]| == |turns[i]|
  }

  function FlattenTurn(turn: Turn, turnIndex: nat, turnId: Id, ids: seq<Id>): (r: seq<HandoffEntry>)
    requires |ids| == |turn|
    ensures |r| == |turn|
  {
    if |turn| == 0 then []
    else
      FlattenTurn(turn[..|turn| - 1], turnIndex, turnId, ids[..|turn| - 1])
      + [HandoffEntry(ids[|turn| - 1], turnId, turnIndex, |turn|, ToBody(turn[|turn| - 1]))]
  }

  function Front(ids: Ids): Ids
    requires |ids.turns| != 0 && |ids.entries| != 0
  {
    Ids(ids.turns[..|ids.turns| - 1], ids.entries[..|ids.entries| - 1])
  }

  /** `transcript_to_handoff`: turns and entries are numbered from one. */
  function Flatten(turns: seq<Turn>, ids: Ids): seq<HandoffEntry>
    requires IdsFor(ids, turns)
  {
    if |turns| == 0 then []
    else
      Flatten(turns[..|turns| - 1], Front(ids))
      + FlattenTurn(turns[|turns| - 1], |turns|, ids.turns[|turns| - 1], ids.entries[|turns| - 1])
  }

  method TranscriptToHandoff(turns: seq<Turn>, ids: Ids) returns (entries: seq<HandoffEntry>)
    requires IdsFor(ids, turns)
    ensures entries == Flatten(turns, ids)
  {
    entries := [];
    for i := 0 to |turns|
      invariant entries == Flatten(turns[..i], Ids(ids.turns[..i], ids.entries[..i]))
    {
      var turn, turnId, entryIds := turns[i], ids.turns[i], ids.entries[i];
      assert turns[..i + 1][..i] == turns[..i] && ids.turns[..i + 1][..i] == ids.turns[..i] && ids.entries[..i + 1][..i] == ids.entries[..i];
      ghost var before := entries;
      for j := 0 to |turn|
        invariant entries == before + FlattenTurn(turn[..j], i + 1, turnId, entryIds[..j])
      {
        assert turn[..j + 1][..j] == turn[..j] && entryIds[..j + 1][..j] == entryIds[..j];
        entries := entries + [HandoffEntry(entryIds[j], turnId, i + 1, j + 1, ToBody(turn[j]))];
      }
      assert turn[..|turn|] == turn && entryIds[..|turn|] == entryIds;
    }
    assert turns[..|turns|] == turns && ids.turns[..|turns|] == ids.turns && ids.entries[..|turns|] == ids.entries;
  }

  // ----- From handoff to transcript -----

  /** `handoff_sort_key` order: turn, entry, then id. */
  predicate Before(a: HandoffEntry, b: HandoffEntry) {
    || a.turnIndex < b.turnIndex
    || (a.turnIndex == b.turnIndex && (a.index < b.index || (a.index == b.index && a.id <= b.id)))
  }

  const KEY_ORDER: Order<HandoffEntry> := (a, b) => Before(a, b)

  lemma KeyOrderIsTotal()
    ensures TotalOrder(KEY_ORDER)
  {
  }

  /** The state of the grouping loop. */
  datatype Grouping = Grouping(turns: seq<Turn>, currentTurn: Option<Id>, current: Turn)

  function Flush(g: Grouping): Grouping {
    if |g.current| == 0 then g else g.(turns := g.turns + [g.current], current := [])
  }

  function FromBody(b: HandoffBody): Option<TranscriptEntry> {
    match b
    case HandoffMessage(role, text, interrupted) => if role.System? then None else Some(Message(role.User?, text, interrupted))
    case HandoffTool(tool) => Some(ToolUse(tool))
  }

  /** One round of the loop: a new turn flushes the last one; system messages are left out. */
  function TakeEntry(g: Grouping, e: HandoffEntry): Grouping {
    var at := if g.currentTurn.None? then g.(currentTurn := Some(e.turn))
              else if g.currentTurn.value != e.turn then Flush(g).(currentTurn := Some(e.turn))
              else g;
    var entry := FromBody(e.body);
    if entry.None? then at else at.(current := at.current + [entry.value])
  }

  function TakeEntries(entries: seq<HandoffEntry>): Grouping {
    if |entries| == 0 then Grouping([], None, []) else TakeEntry(TakeEntries(entries[..|entries| - 1]), entries[|entries| - 1])
  }

  function ToTranscript(entries: seq<HandoffEntry>): seq<Turn> {
    Flush(TakeEntries(Sort(KEY_ORDER, entries))).turns
  }

  /** `handoff_to_transcript`. */
  method HandoffToTranscript(entries: seq<HandoffEntry>) returns (turns: seq<Turn>)
    ensures turns == ToTranscript(entries)
  {
    var ordered := Sort(KEY_ORDER, entries);
    turns := [];
    var currentTurn: Option<Id> := None;
    var current: Turn := [];
    for i := 0 to |ordered|
      invariant Grouping(turns, currentTurn, current) == TakeEntries(ordered[..i])
    {
      assert ordered[..i + 1][..i] == ordered[..i];
      var entry := ordered[i];
      if currentTurn.None? {
        currentTurn := Some(entry.turn);
      } else if entry.turn != currentTurn.value {
        if |current| != 0 {
          turns := turns + [current];
          current := [];
        }
        currentTurn := Some(entry.turn);
      }
      match entry.body
      case HandoffMessage(role, text, interrupted) =>
        if role.System? {
          continue;
        }
        current := current + [Message(role.User?, text, interrupted)];
      case HandoffTool(tool) =>
        current := current + [ToolUse(tool)];
    }
    assert ordered[..|ordered|] == ordered;
    if |current| != 0 {
      turns := turns + [current];
    }
  }

  // ----- The round trip -----

  function LastEntry(turn: Turn, turnIndex: nat, turnId: Id, ids: seq<Id>): HandoffEntry
    requires |ids| == |turn| && |turn| != 0
  {
    HandoffEntry(ids[|turn| - 1], turnId, turnIndex, |turn|, ToBody(turn[|turn| - 1]))
  }

  lemma FlattenTurnSnoc(turn: Turn, turnIndex: nat, turnId: Id, ids: seq<Id>)
    requires |ids| == |turn| && |turn| != 0
    ensures FlattenTurn(turn, turnIndex, turnId, ids) ==
            FlattenTurn(turn[..|turn| - 1], turnIndex, turnId, ids[..|turn| - 1]) + [LastEntry(turn, turnIndex, turnId, ids)]
  {
  }

  predicate Positions(entries: seq<HandoffEntry>, turnIndex: int) {
    forall i | 0 <= i < |entries| :: entries[i].turnIndex == turnIndex && entries[i].index == i + 1
  }

  lemma {:induction false} FlattenTurnShape(turn: Turn, turnIndex: nat, turnId: Id, ids: seq<Id>)
    requires |ids| == |turn|
    ensures Positions(FlattenTurn(turn, turnIndex, turnId, ids), turnIndex)
  {
    if |turn| != 0 {
      FlattenTurnShape(turn[..|turn| - 1], turnIndex, turnId, ids[..|turn| - 1]);
      FlattenTurnSnoc(turn, turnIndex, turnId, ids);
    }
  }

  predicate StrictlyBefore(a: HandoffEntry, b: HandoffEntry) {
    a.turnIndex < b.turnIndex || (a.turnIndex == b.turnIndex && a.index < b.index)
  }

  predicate StrictlyOrdered(entries: seq<HandoffEntry>) {
    forall i, j | 0 <= i < j < |entries| :: StrictlyBefore(entries[i], entries[j])
  }

  /** Flattening writes entries in key order, no two with the same position. */
  lemma {:induction false} FlattenIsOrdered(turns: seq<Turn>, ids: Ids)
    requires IdsFor(ids, turns)
    ensures StrictlyOrdered(Flatten(turns, ids))
    ensures forall e <- Flatten(turns, ids) :: e.turnIndex <= |turns|
  {
    if |turns| != 0 {
      var n := |turns| - 1;
      FlattenIsOrdered(turns[..n], Front(ids));
      FlattenTurnShape(turns[n], |turns|, ids.turns[n], ids.entries[n]);
      AppendKeepsOrder(Flatten(turns[..n], Front(ids)), FlattenTurn(turns[n], |turns|, ids.turns[n], ids.entries[n]), |turns|);
    }
  }

  lemma AppendKeepsOrder(before: seq<HandoffEntry>, last: seq<HandoffEntry>, turnIndex: int)
    requires StrictlyOrdered(before) && forall e <- before :: e.turnIndex < turnIndex
    requires Positions(last, turnIndex)
    ensures StrictlyOrdered(before + last)
    ensures forall e <- before + last :: e.turnIndex <= turnIndex
  {
    var all := before + last;
    forall i, j | 0 <= i < j < |all| ensures StrictlyBefore(all[i], all[j]) {
      if i < |before| {
        assert before[i] in before;
      }
    }
  }

  lemma StrictIsInOrder(flat: seq<HandoffEntry>)
    requires StrictlyOrdered(flat)
    ensures InOrder(KEY_ORDER, flat) && Antisymmetric(KEY_ORDER, flat)
  {
    forall i, j | 0 <= i < j < |flat| ensures KEY_ORDER(flat[i], flat[j]) {
      assert StrictlyBefore(flat[i], flat[j]);
    }
    forall x <- flat, y <- flat | KEY_ORDER(x, y) && KEY_ORDER(y, x) ensures x == y {
      var i :| 0 <= i < |flat| && flat[i] == x;
      var j :| 0 <= j < |flat| && flat[j] == y;
    }
  }

  /** Any read order sorts back to the order of flattening. */
  lemma SortRestores(entries: seq<HandoffEntry>, flat: seq<HandoffEntry>)
    requires multiset(entries) == multiset(flat) && StrictlyOrdered(flat)
    ensures Sort(KEY_ORDER, entries) == flat
  {
    KeyOrderIsTotal();
    SortSorts(KEY_ORDER, entries);
    StrictIsInOrder(flat);
    OrderIsUnique(KEY_ORDER, flat, Sort(KEY_ORDER, entries));
  }

  function NonEmpty(turns: seq<Turn>): seq<Turn> {
    if |turns| == 0 then []
    else
      var before, last := NonEmpty(turns[..|turns| - 1]), turns[|turns| - 1];
      if |last| == 0 then before else before + [last]
  }

  predicate DistinctIds(ids: seq<Id>) {
    forall i, j | 0 <= i < j < |ids| :: ids[i] != ids[j]
  }

  lemma TakeNext(entries: seq<HandoffEntry>, e: HandoffEntry)
    ensures TakeEntries(entries + [e]) == TakeEntry(TakeEntries(entries), e)
  {
    assert (entries + [e])[..|entries|] == entries;
  }

  /** The first entry of a new turn flushes what was collected. */
  lemma TakeFirst(g: Grouping, e: HandoffEntry, entry: TranscriptEntry)
    requires g.currentTurn != Some(e.turn) && (g.currentTurn.None? ==> |g.current| == 0) && e.body == ToBody(entry)
    ensures TakeEntry(g, e) == Grouping(Flush(g).turns, Some(e.turn), [entry])
  {
    assert FromBody(ToBody(entry)) == Some(entry);
    assert g.current == [] ==> g.current + [entry] == [entry];
  }

  lemma TakeMore(g: Grouping, e: HandoffEntry, entry: TranscriptEntry)
    requires g.currentTurn == Some(e.turn) && e.body == ToBody(entry)
    ensures TakeEntry(g, e) == g.(current := g.current + [entry])
  {
    assert FromBody(ToBody(entry)) == Some(entry);
  }

  /** Taking the entries of one new turn: the state before is flushed once, and the turn collected. */
  lemma {:induction false} TakeTurn(before: seq<HandoffEntry>, turn: Turn, turnIndex: nat, turnId: Id, ids: seq<Id>)
    requires |ids| == |turn|
    requires TakeEntries(before).currentTurn != Some(turnId) && (TakeEntries(before).currentTurn.None? ==> |TakeEntries(before).current| == 0)
    ensures TakeEntries(before + FlattenTurn(turn, turnIndex, turnId, ids)) ==
            if |turn| == 0 then TakeEntries(before)
            else Grouping(Flush(TakeEntries(before)).turns, Some(turnId), turn)
  {
    if |turn| == 0 {
      assert before + FlattenTurn(turn, turnIndex, turnId, ids) == before;
    } else {
      var n := |turn| - 1;
      var shorter, e := FlattenTurn(turn[..n], turnIndex, turnId, ids[..n]), LastEntry(turn, turnIndex, turnId, ids);
      TakeTurn(before, turn[..n], turnIndex, turnId, ids[..n]);
      FlattenTurnSnoc(turn, turnIndex, turnId, ids);
      assert before + (shorter + [e]) == (before + shorter) + [e];
      TakeNext(before + shorter, e);
      OneMoreEntry(TakeEntries(before), TakeEntries(before + shorter), turn, e);
    }
  }

  lemma OneMoreEntry(g: Grouping, h: Grouping, turn: Turn, e: HandoffEntry)
    requires |turn| != 0 && e.body == ToBody(turn[|turn| - 1])
    requires g.currentTurn != Some(e.turn) && (g.currentTurn.None? ==> |g.current| == 0)
    requires h == if |turn| == 1 then g else Grouping(Flush(g).turns, Some(e.turn), turn[..|turn| - 1])
    ensures TakeEntry(h, e) == Grouping(Flush(g).turns, Some(e.turn), turn)
  {
    assert turn == turn[..|turn| - 1] + [turn[|turn| - 1]];
    if |turn| == 1 {
      TakeFirst(g, e, turn[0]);
    } else {
      TakeMore(h, e, turn[|turn| - 1]);
    }
  }

  /** The grouping after all entries of some turns, converted under these turn ids. */
  predicate Grouped(g: Grouping, turns: seq<Turn>, ids: seq<Id>) {
    && Flush(g).turns == NonEmpty(turns)
    && (g.currentTurn.None? ==> |g.current| == 0)
    && (g.currentTurn.Some? ==> g.currentTurn.value in ids)
  }

  lemma GroupsOneMore(before: seq<HandoffEntry>, turns: seq<Turn>, ids: seq<Id>, turn: Turn, turnId: Id, entryIds: seq<Id>)
    requires Grouped(TakeEntries(before), turns, ids) && turnId !in ids && |entryIds| == |turn|
    ensures Grouped(TakeEntries(before + FlattenTurn(turn, |turns| + 1, turnId, entryIds)), turns + [turn], ids + [turnId])
  {
    assert (turns + [turn])[..|turns|] == turns;
    TakeTurn(before, turn, |turns| + 1, turnId, entryIds);
  }

  lemma {:induction false} GroupsTurns(turns: seq<Turn>, ids: Ids)
    requires IdsFor(ids, turns) && DistinctIds(ids.turns)
    ensures Grouped(TakeEntries(Flatten(turns, ids)), turns, ids.turns)
  {
    if |turns| != 0 {
      var n := |turns| - 1;
      GroupsTurns(turns[..n], Front(ids));
      assert ids.turns == Front(ids).turns + [ids.turns[n]] && turns == turns[..n] + [turns[n]];
      assert ids.turns[n] !in Front(ids).turns;
      GroupsOneMore(Flatten(turns[..n], Front(ids)), turns[..n], Front(ids).turns, turns[n], ids.turns[n], ids.entries[n]);
    }
  }

  /**
   * Converting a transcript and reading the entries back in any order gives its turns, except that
   * empty turns are gone: so it gives the same document exactly when no turn is empty.
   */
  lemma RoundTripExactlyWhen(turns: seq<Turn>, ids: Ids, entries: seq<HandoffEntry>)
    requires IdsFor(ids, turns) && DistinctIds(ids.turns)
    requires multiset(entries) == multiset(Flatten(turns, ids))
    ensures ToTranscript(entries) == NonEmpty(turns)
    ensures ToTranscript(entries) == turns <==> forall t <- turns :: |t| != 0
  {
    FlattenIsOrdered(turns, ids);
    SortRestores(entries, Flatten(turns, ids));
    GroupsTurns(turns, ids);
    NonEmptyKeeps(turns);
  }

  lemma {:induction false} NonEmptyKeeps(turns: seq<Turn>)
    ensures forall t <- NonEmpty(turns) :: |t| != 0
    ensures (forall t <- turns :: |t| != 0) ==> NonEmpty(turns) == turns
  {
    if |turns| != 0 {
      NonEmptyKeeps(turns[..|turns| - 1]);
      assert turns == turns[..|turns| - 1] + [turns[|turns| - 1]];
    }
  }

  // ----- Rendering -----

  /** How one entry is rendered. */
  type Renderer = HandoffEntry -> string

  function RenderLines(entries: seq<HandoffEntry>, line: Renderer): seq<string> {
    if |entries| == 0 then [] else RenderLines(entries[..|entries| - 1], line) + [line(entries[|entries| - 1])]
  }

  function JoinLines(lines: seq<string>): string {
    if |lines| == 0 then ""
    else if |lines| == 1 then lines[0]
    else JoinLines(lines[..|lines| - 1]) + "\n" + lines[|lines| - 1]
  }

  /** The lines stand in order, one line break between any two. */
  lemma {:induction false} JoinedInOrder(a: seq<string>, b: seq<string>)
    requires |a| != 0 && |b| != 0
    ensures JoinLines(a + b) == JoinLines(a) + "\n" + JoinLines(b)
    decreases |b|
  {
    var front := b[..|b| - 1];
    assert (a + b)[..|a + b| - 1] == a + front;
    if |b| == 1 {
      assert a + front == a;
    } else {
      JoinedInOrder(a, front);
    }
  }

  /** Entries are sorted by turn, then by place in the turn, then by id. */
  lemma SortedByPlace(entries: seq<HandoffEntry>)
    ensures var s := Sort(KEY_ORDER, entries);
            && multiset(s) == multiset(entries)
            && forall i, j | 0 <= i < j < |s| ::
                 && s[i].turnIndex <= s[j].turnIndex
                 && (s[i].turnIndex == s[j].turnIndex ==> s[i].index <= s[j].index)
                 && (s[i].turnIndex == s[j].turnIndex && s[i].index == s[j].index ==> s[i].id <= s[j].id)
  {
    KeyOrderIsTotal();
    SortSorts(KEY_ORDER, entries);
    forall i, j | 0 <= i < j < |Sort(KEY_ORDER, entries)| ensures Before(Sort(KEY_ORDER, entries)[i], Sort(KEY_ORDER, entries)[j]) {
      assert KEY_ORDER(Sort(KEY_ORDER, entries)[i], Sort(KEY_ORDER, entries)[j]);
    }
  }

  function Rendered(entries: seq<HandoffEntry>, line: Renderer): string {
    JoinLines(RenderLines(Sort(KEY_ORDER, entries), line))
  }

  /** `render_handoff`. */
  method RenderHandoff(entries: seq<HandoffEntry>, line: Renderer) returns (text: string)
    ensures text == Rendered(entries, line)
  {
    var ordered := Sort(KEY_ORDER, entries);
    var lines := [];
    for i := 0 to |ordered|
      invariant lines == RenderLines(ordered[..i], line)
    {
      assert ordered[..i + 1][..i] == ordered[..i];
      lines := lines + [line(ordered[i])];
    }
    assert ordered[..|ordered|] == ordered;
    text := JoinLines(lines);
  }

  /** Entries with distinct ids render to one text in whatever order they are read. */
  lemma RenderIgnoresReadOrder(a: seq<HandoffEntry>, b: seq<HandoffEntry>, line: Renderer)
    requires multiset(a) == multiset(b)
    requires forall x <- a, y <- a | x.id == y.id :: x == y
    ensures Rendered(a, line) == Rendered(b, line)
  {
    KeyOrderIsTotal();
    SortSorts(KEY_ORDER, a);
    SortSorts(KEY_ORDER, b);
    SortHasSame(KEY_ORDER, a);
    OrderIsUnique(KEY_ORDER, Sort(KEY_ORDER, a), Sort(KEY_ORDER, b));
  }
}
