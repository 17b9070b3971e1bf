// The search snippet: where the first hit is, and the window that is cut around it.
module Snippets {
  import opened Wrappers
  import opened Texts

  /** The Unicode tables in use: which characters make up tokens, and how a token is case-folded. */
  datatype Chars = Chars(isAlnum: char -> bool, fold: string -> string)

  /** A token of the displayed text and where it starts. */
  datatype Part = Part(token: string, start: nat)

  // ----- Finding a clause -----

  function RunEnd(chars: Chars, text: string, i: nat): (end: nat)
    requires i <= |text|
    ensures i <= end <= |text|
    decreases |text| - i
  {
    if i < |text| && chars.isAlnum(text[i]) then RunEnd(chars, text, i + 1) else i
  }

  /** The tokens from a position on. */
  function PartsFrom(chars: Chars, text: string, i: nat): seq<Part>
    requires i <= |text|
    decreases |text| - i
  {
    if i == |text| then []
    else if !chars.isAlnum(text[i]) then PartsFrom(chars, text, i + 1)
    else
      var end := RunEnd(chars, text, i + 1);
      var token := chars.fold(text[i..end]);
      (if token == "" then [] else [Part(token, i)]) + PartsFrom(chars, text, end)
  }

  predicate WindowAt(parts: seq<Part>, needle: seq<string>, k: nat) {
    k + |needle| <= |parts| && forall j | 0 <= j < |needle| :: parts[k + j].token == needle[j]
  }

  /** The window of the clause that comes first. */
  ghost predicate FirstWindowAt(parts: seq<Part>, needle: seq<string>, k: nat) {
    needle != [] && WindowAt(parts, needle, k) && forall m: nat | m < k :: !WindowAt(parts, needle, m)
  }

  /** Where the first window of the clause starts in the text. */
  ghost predicate HitAt(parts: seq<Part>, needle: seq<string>, position: int) {
    exists k: nat :: k < |parts| && FirstWindowAt(parts, needle, k) && parts[k].start == position
  }

  ghost predicate Occurs(parts: seq<Part>, needle: seq<string>) {
    needle != [] && exists k: nat :: WindowAt(parts, needle, k)
  }

  lemma HitIsUnique(parts: seq<Part>, needle: seq<string>, p: int, q: int)
    requires HitAt(parts, needle, p) && HitAt(parts, needle, q)
    ensures p == q
  {
    var k: nat :| k < |parts| && FirstWindowAt(parts, needle, k) && parts[k].start == p;
    var m: nat :| m < |parts| && FirstWindowAt(parts, needle, m) && parts[m].start == q;
    assert !(k < m) && !(m < k);
  }

  /** `_find_clause_in_display`: the start of the first window of tokens that is the clause. */
  method FindClause(chars: Chars, text: string, needle: seq<string>) returns (position: int)
    ensures position != -1 <==> Occurs(PartsFrom(chars, text, 0), needle)
    ensures position != -1 ==> HitAt(PartsFrom(chars, text, 0), needle, position)
    ensures position != -1 ==> 0 <= position < |text| && chars.isAlnum(text[position])
  {
    var parts: seq<Part> := [];
    var i := 0;
    while i < |text|
      invariant 0 <= i <= |text|
      invariant PartsFrom(chars, text, 0) == parts + PartsFrom(chars, text, i)
      invariant forall p <- parts :: p.start < |text| && chars.isAlnum(text[p.start])
    {
      if !chars.isAlnum(text[i]) {
        i := i + 1;
        continue;
      }
      var start := i;
      i := i + 1;
      while i < |text| && chars.isAlnum(text[i])
        invariant start < i <= |text|
        invariant RunEnd(chars, text, start + 1) == RunEnd(chars, text, i)
      {
        i := i + 1;
      }
      var token := chars.fold(text[start..i]);
      assert PartsFrom(chars, text, start) == (if token == "" then [] else [Part(token, start)]) + PartsFrom(chars, text, i);
      if token != "" {
        assert parts + ([Part(token, start)] + PartsFrom(chars, text, i)) == (parts + [Part(token, start)]) + PartsFrom(chars, text, i);
        parts := parts + [Part(token, start)];
      } else {
        assert [] + PartsFrom(chars, text, i) == PartsFrom(chars, text, i);
      }
    }
    assert parts + [] == parts;
    position := FirstWindow(parts, needle);
    if position != -1 {
      ghost var k: nat :| k < |parts| && FirstWindowAt(parts, needle, k) && parts[k].start == position;
      assert parts[k] in parts;
    }
  }

  /** The search over all windows. */
  method FirstWindow(parts: seq<Part>, needle: seq<string>) returns (position: int)
    ensures position != -1 <==> Occurs(parts, needle)
    ensures position != -1 ==> HitAt(parts, needle, position)
  {
    if needle == [] {
      return -1;
    }
    var index := 0;
    while index + |needle| <= |parts|
      invariant forall m: nat | m < index :: !WindowAt(parts, needle, m)
    {
      var same, j := true, 0;
      while j < |needle|
        invariant 0 <= j <= |needle|
        invariant same <==> forall m | 0 <= m < j :: parts[index + m].token == needle[m]
      {
        same := same && parts[index + j].token == needle[j];
        j := j + 1;
      }
      if same {
        assert WindowAt(parts, needle, index) && FirstWindowAt(parts, needle, index);
        return parts[index].start;
      }
      index := index + 1;
    }
    position := -1;
  }

  // ----- The window -----

  const SNIPPET_CODE_POINTS := 240
  const ELLIPSIS := '…'

  /** Where the window starts and ends: a third before the hit, and no room wasted at the end. */
  function Window(length: nat, position: nat): (int, int) {
    if length <= SNIPPET_CODE_POINTS then (0, length)
    else
      var near := if position > SNIPPET_CODE_POINTS / 3 then position - SNIPPET_CODE_POINTS / 3 else 0;
      var prefix := if near > 0 then 1 else 0;
      var suffix := if length - near > SNIPPET_CODE_POINTS - prefix then 1 else 0;
      var limit := SNIPPET_CODE_POINTS - prefix - suffix;
      var start := if suffix == 0 then length - limit else near;
      (start, if start + limit < length then start + limit else length)
  }

  lemma WindowHoldsHit(length: nat, position: nat)
    requires position < length
    ensures var (start, end) := Window(length, position);
            && 0 <= start <= position < end <= length
            && end - start + (if start > 0 then 1 else 0) + (if end < length then 1 else 0) <= SNIPPET_CODE_POINTS
  {
  }

  /**
   * Where exactly: 80 characters before the hit, but not before the text and not so late that room at
   * the end would be wasted; all 240 places, the marks of cut ends included, are used.
   */
  lemma WindowPlace(length: nat, position: nat)
    requires 240 < length && position < length
    ensures var (start, end) := Window(length, position);
            && end - start + (if start > 0 then 1 else 0) + (if end < length then 1 else 0) == 240
            && (position <= 80 ==> start == 0)
            && (80 < position <= length - 160 ==> start == position - 80)
            && (end == length <==> position > length - 160)
  {
  }

  function RStrip(s: string): string {
    if |s| != 0 && IsSpace(s[|s| - 1]) then RStrip(s[..|s| - 1]) else s
  }

  function Mark(cut: bool): string {
    if cut then [ELLIPSIS] else ""
  }

  /** A window as it is shown: cut ends are stripped and marked. */
  function ShownIn(text: string, start: nat, end: nat): string
    requires start <= end <= |text|
  {
    var cut := text[start..end];
    var left := if start > 0 then [ELLIPSIS] + LStrip(cut) else cut;
    if end < |text| then RStrip(left) + [ELLIPSIS] else left
  }

  function Shown(text: string, position: nat): string
    requires position < |text|
  {
    WindowHoldsHit(|text|, position);
    var (start, end) := Window(|text|, position);
    ShownIn(text, start, end)
  }

  /** Stripping on the left stops at the latest before the first character that is no space. */
  lemma {:induction false} LStripStops(s: string, k: nat) returns (a: nat)
    requires k < |s| && !IsSpace(s[k])
    ensures a <= k && LStrip(s) == s[a..]
    decreases |s|
  {
    if IsSpace(s[0]) {
      var rest := LStripStops(s[1..], k - 1);
      a := rest + 1;
      assert s[1..][rest..] == s[a..];
    } else {
      a := 0;
    }
  }

  lemma {:induction false} RStripStops(s: string, k: nat) returns (b: nat)
    requires k < |s| && !IsSpace(s[k])
    ensures k < b <= |s| && RStrip(s) == s[..b]
    decreases |s|
  {
    if IsSpace(s[|s| - 1]) {
      b := RStripStops(s[..|s| - 1], k);
      assert s[..|s| - 1][..b] == s[..b];
    } else {
      b := |s|;
    }
  }

  /** A piece of the text around the hit, with an ellipsis at exactly the ends where text was cut off. */
  ghost predicate Piece(text: string, position: nat, start: nat, end: nat, shown: string, a: nat, b: nat) {
    && start <= a <= position < b <= end <= |text|
    && shown == Mark(start > 0) + text[a..b] + Mark(end < |text|)
  }

  ghost predicate Around(text: string, position: nat, shown: string, a: nat, b: nat)
    requires position < |text|
  {
    WindowHoldsHit(|text|, position);
    Piece(text, position, Window(|text|, position).0, Window(|text|, position).1, shown, a, b)
  }

  lemma LeftEnd(text: string, position: nat, start: nat, end: nat) returns (a: nat)
    requires start <= position < end <= |text| && !IsSpace(text[position])
    ensures start <= a <= position
    ensures (if start > 0 then [ELLIPSIS] + LStrip(text[start..end]) else text[start..end]) == Mark(start > 0) + text[a..end]
  {
    a := start;
    if start > 0 {
      var cut := text[start..end];
      var dropped := LStripStops(cut, position - start);
      a := start + dropped;
      assert cut[dropped..] == text[a..end];
    } else {
      assert "" + text[a..end] == text[a..end];
    }
  }

  lemma RightEnd(text: string, position: nat, mark: string, a: nat, end: nat) returns (b: nat)
    requires a <= position < end <= |text| && !IsSpace(text[position])
    ensures position < b <= end
    ensures RStrip(mark + text[a..end]) == mark + text[a..b]
  {
    var left := mark + text[a..end];
    assert left[|mark| + position - a] == text[position];
    var kept := RStripStops(left, |mark| + position - a);
    b := a + kept - |mark|;
    assert left[..kept] == mark + text[a..b];
  }

  lemma ShownIsPiece(text: string, position: nat, start: nat, end: nat) returns (a: nat, b: nat)
    requires start <= position < end <= |text| && !IsSpace(text[position])
    ensures Piece(text, position, start, end, ShownIn(text, start, end), a, b)
  {
    a := LeftEnd(text, position, start, end);
    var left := if start > 0 then [ELLIPSIS] + LStrip(text[start..end]) else text[start..end];
    assert left == Mark(start > 0) + text[a..end];
    if end < |text| {
      b := RightEnd(text, position, Mark(start > 0), a, end);
    } else {
      b := end;
      NothingMore(left);
    }
  }

  lemma NothingMore(s: string)
    ensures s + "" == s
  {
  }

  /**
   * For every text and hit: the snippet, ellipses included, is at most 240 code points long, and it
   * is a piece of the text that contains the hit.
   */
  lemma SnippetHoldsHit(text: string, position: nat)
    requires position < |text| && !IsSpace(text[position])
    ensures |Shown(text, position)| <= SNIPPET_CODE_POINTS
    ensures exists a: nat, b: nat :: Around(text, position, Shown(text, position), a, b)
  {
    WindowHoldsHit(|text|, position);
    var a, b := ShownIsPiece(text, position, Window(|text|, position).0, Window(|text|, position).1);
    assert Around(text, position, Shown(text, position), a, b);
  }

  // ----- The snippet -----

  /** `build_snippet`, up to its list of matched terms: around the earliest hit of any clause. */
  method BuildSnippet(chars: Chars, clauses: seq<seq<string>>, text: string) returns (snippet: Option<string>, position: int)
    requires forall c | chars.isAlnum(c) :: !IsSpace(c)
    ensures snippet.Some? <==> exists c <- clauses :: Occurs(PartsFrom(chars, text, 0), c)
    ensures snippet.Some? ==>
              && 0 <= position < |text|
              && (exists c <- clauses :: HitAt(PartsFrom(chars, text, 0), c, position))
              && (forall c <- clauses, p | HitAt(PartsFrom(chars, text, 0), c, p) :: position <= p)
              && |snippet.value| <= SNIPPET_CODE_POINTS
              && exists a: nat, b: nat :: Around(text, position, snippet.value, a, b)
  {
    position := -1;
    ghost var parts := PartsFrom(chars, text, 0);
    for i := 0 to |clauses|
      invariant position != -1 <==> exists c <- clauses[..i] :: Occurs(parts, c)
      invariant position != -1 ==> 0 <= position < |text| && chars.isAlnum(text[position])
      invariant position != -1 ==> exists c <- clauses[..i] :: HitAt(parts, c, position)
      invariant position != -1 ==> forall c <- clauses[..i], p | HitAt(parts, c, p) :: position <= p
    {
      var found := FindClause(chars, text, clauses[i]);
      OneMoreClause(parts, clauses[..i], clauses[i], position, found);
      assert clauses[..i + 1] == clauses[..i] + [clauses[i]];
      if found >= 0 && (position < 0 || found < position) {
        position := found;
      }
    }
    assert clauses[..|clauses|] == clauses;
    if position == -1 {
      return None, -1;
    }
    SnippetHoldsHit(text, position);
    snippet := Some(Shown(text, position));
  }

  lemma OneMoreClause(parts: seq<Part>, before: seq<seq<string>>, clause: seq<string>, position: int, found: int)
    requires position != -1 <==> exists c <- before :: Occurs(parts, c)
    requires position != -1 ==> exists c <- before :: HitAt(parts, c, position)
    requires position != -1 ==> forall c <- before, p | HitAt(parts, c, p) :: position <= p
    requires position >= -1 && found >= -1
    requires found != -1 <==> Occurs(parts, clause)
    requires found != -1 ==> HitAt(parts, clause, found)
    ensures var best := if found >= 0 && (position < 0 || found < position) then found else position;
            && (best != -1 <==> exists c <- before + [clause] :: Occurs(parts, c))
            && (best != -1 ==> exists c <- before + [clause] :: HitAt(parts, c, best))
            && (best != -1 ==> forall c <- before + [clause], p | HitAt(parts, c, p) :: best <= p)
  {
    var all := before + [clause];
    assert forall c :: c in all <==> c in before || c == clause;
    assert forall c, p | HitAt(parts, c, p) :: Occurs(parts, c);
    forall p | HitAt(parts, clause, p) ensures p == found {
      HitIsUnique(parts, clause, p, found);
    }
  }
}
