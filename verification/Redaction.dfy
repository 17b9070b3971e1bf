// The streaming text redactor: secrets split over chunks never reach the output.
module Redaction {
  import opened Sorting
  import opened Texts

  const MARKER := "[REDACTED]"

  // ----- One replacement -----

  /** The pattern and a marker that starts `k` behind its start (before it, for negative `k`) agree where both have characters. */
  predicate AgreeAt(m: string, q: string, k: int) {
    forall j | 0 <= j < |q| && 0 <= j - k < |m| :: q[j] == m[j - k]
  }

  /** A text can hold the pattern and a marker that share a position: one contains the other, or an end of one starts the other. */
  predicate Meets(m: string, q: string) {
    exists k | -|m| < k < |q| :: AgreeAt(m, q, k)
  }

  /** And the pattern can end behind that marker. */
  predicate RunsPast(m: string, q: string) {
    exists k | -|m| < k < |q| - |m| :: AgreeAt(m, q, k)
  }

  /** Where a text has both, a pattern that does not meet the marker lies wholly before it or wholly behind it. */
  lemma Apart(m: string, q: string, s: string, a: int, i: int)
    requires !Meets(m, q) && MatchAt(s, m, a) && MatchAt(s, q, i)
    ensures i + |q| <= a || a + |m| <= i
  {
    if a < i + |q| && i < a + |m| {
      AgreeWhereBoth(m, q, s, a, i);
      assert false;
    }
  }

  /** A pattern that shares no character with the marker never meets it. */
  lemma DisjointNeverMeets(m: string, q: string)
    requires m != "" && q != "" && forall c <- q :: c !in m
    ensures !Meets(m, q) && !RunsPast(m, q)
  {
    forall k | -|m| < k < |q| ensures !AgreeAt(m, q, k) {
      var j := if k < 0 then 0 else k;
      assert q[j] in q && m[j - k] in m;
    }
  }

  lemma MatchedChar(s: string, q: string, i: int, j: nat)
    requires MatchAt(s, q, i) && j < |q|
    ensures s[i + j] == q[j]
  {
    assert s[i..i + |q|][j] == s[i + j];
  }

  lemma AgreeWhereBoth(m: string, q: string, s: string, a: int, i: int)
    requires MatchAt(s, m, a) && MatchAt(s, q, i)
    ensures AgreeAt(m, q, a - i)
  {
    forall j | 0 <= j < |q| && 0 <= j - (a - i) < |m| ensures q[j] == m[j - (a - i)] {
      MatchedChar(s, q, i, j);
      MatchedChar(s, m, a, j - (a - i));
    }
  }

  lemma Assoc(a: string, b: string, c: string)
    ensures a + (b + c) == (a + b) + c
  {
  }

  /** Two ways to cut one text. */
  lemma CutTwice(a: string, b: string, c: string, d: string)
    requires a + b == c + d && |a| >= |c|
    ensures a == c + a[|c|..] && d == a[|c|..] + b
  {
    assert (a + b)[..|c|] == a[..|c|] && (c + d)[..|c|] == c;
    assert (a + b)[|c|..] == a[|c|..] + b && (c + d)[|c|..] == d;
  }

  /** The two ways one step of a replacement goes. */
  lemma ReplaceStep(m: string, s: string, p: string)
    requires p != "" && s != ""
    ensures p <= s ==> Replace(s, p, m) == m + Replace(s[|p|..], p, m)
    ensures !(p <= s) ==> Replace(s, p, m) == [s[0]] + Replace(s[1..], p, m)
  {
    if |s| < |p| {
      ReplaceShort(m, s, p);
      ReplaceShort(m, s[1..], p);
      assert s == [s[0]] + s[1..];
    }
  }

  lemma ReplaceMatch(m: string, p: string, rest: string)
    requires p != ""
    ensures Replace(p + rest, p, m) == m + Replace(rest, p, m)
  {
    assert (p + rest)[..|p|] == p && (p + rest)[|p|..] == rest;
  }

  lemma ReplacePass(m: string, x: char, rest: string, p: string)
    requires p != "" && !(p <= [x] + rest)
    ensures Replace([x] + rest, p, m) == [x] + Replace(rest, p, m)
  {
    ReplaceStep(m, [x] + rest, p);
    assert ([x] + rest)[1..] == rest;
  }

  lemma PrefixStays(p: string, s: string, t: string)
    requires |s| >= |p|
    ensures p <= s + t <==> p <= s
  {
    assert (s + t)[..|p|] == s[..|p|];
  }

  lemma ReplaceShort(m: string, s: string, p: string)
    requires p != "" && |s| < |p|
    ensures Replace(s, p, m) == s
  {
  }

  lemma MatchBehind(front: string, s: string, q: string, i: int)
    requires i >= |front|
    ensures MatchAt(front + s, q, i) <==> MatchAt(s, q, i - |front|)
  {
    if i + |q| <= |front + s| {
      assert (front + s)[i..i + |q|] == s[i - |front|..i - |front| + |q|];
    }
  }

  lemma MatchIsPrefix(s: string, q: string)
    ensures MatchAt(s, q, 0) <==> q <= s
  {
  }

  lemma ContainsBehind(front: string, s: string, q: string)
    requires Contains(s, q)
    ensures Contains(front + s, q)
  {
    var k :| MatchAt(s, q, k);
    MatchBehind(front, s, q, k + |front|);
  }

  lemma MatchInFront(front: string, a: string, b: string, q: string, i: int)
    requires 0 <= i && i + |q| <= |front|
    ensures MatchAt(front + a, q, i) ==> MatchAt(front + b, q, i)
  {
    assert (front + b)[i..i + |q|] == front[i..i + |q|] == (front + a)[i..i + |q|];
  }

  lemma MarkerStands(front: string, m: string, rest: string)
    ensures MatchAt(front + (m + rest), m, |front|)
  {
    assert (front + (m + rest))[|front|..|front| + |m|] == m;
  }

  /** A match that starts in a text in front of a replacement, or right behind that text, was there before it. */
  lemma {:induction false} FrontSurvives(m: string, p: string, q: string, front: string, s: string, i: int)
    requires m != "" && p != "" && q != "" && !Meets(m, q)
    requires 0 <= i <= |front| && MatchAt(front + Replace(s, p, m), q, i)
    ensures MatchAt(front + s, q, i)
    decreases |s|
  {
    if |s| < |p| {
      ReplaceShort(m, s, p);
    } else if p <= s {
      var rest := s[|p|..];
      assert s == p + rest;
      ReplaceMatch(m, p, rest);
      MarkerStands(front, m, Replace(rest, p, m));
      Apart(m, q, front + (m + Replace(rest, p, m)), |front|, i);
      MatchInFront(front, m + Replace(rest, p, m), s, q, i);
    } else {
      var x, rest := s[0], s[1..];
      assert s == [x] + rest;
      ReplacePass(m, x, rest, p);
      Assoc(front, [x], Replace(rest, p, m));
      FrontSurvives(m, p, q, front + [x], rest, i);
      Assoc(front, [x], rest);
    }
  }

  /** Behind a marker, such a match is in what follows it. */
  lemma BehindMarker(m: string, q: string, rest: string, i: int)
    requires q != "" && !Meets(m, q) && MatchAt(m + rest, q, i)
    ensures MatchAt(rest, q, i - |m|)
  {
    MarkerStands("", m, rest);
    assert "" + (m + rest) == m + rest;
    Apart(m, q, m + rest, 0, i);
    MatchBehind(m, rest, q, i);
  }

  /** Replacing brings no pattern that does not meet the marker into being, and leaves no occurrence of what it replaces. */
  lemma {:induction false} ReplaceIntroducesNothing(m: string, s: string, p: string, q: string, i: int)
    requires m != "" && p != "" && q != "" && !Meets(m, q) && MatchAt(Replace(s, p, m), q, i)
    ensures Contains(s, q) && p != q
    decreases |s|
  {
    if |s| < |p| {
      ReplaceShort(m, s, p);
    } else if p <= s {
      var rest := s[|p|..];
      assert s == p + rest;
      ReplaceMatch(m, p, rest);
      BehindMarker(m, q, Replace(rest, p, m), i);
      ReplaceIntroducesNothing(m, rest, p, q, i - |m|);
      ContainsBehind(p, rest, q);
    } else if i == 0 {
      StartSurvives(m, p, q, s);
    } else {
      var x, rest := s[0], s[1..];
      assert s == [x] + rest;
      ReplacePass(m, x, rest, p);
      MatchBehind([x], Replace(rest, p, m), q, i);
      ReplaceIntroducesNothing(m, rest, p, q, i - 1);
      ContainsBehind([x], rest, q);
    }
  }

  lemma StartSurvives(m: string, p: string, q: string, s: string)
    requires m != "" && p != "" && q != "" && !Meets(m, q) && !(p <= s) && MatchAt(Replace(s, p, m), q, 0)
    ensures MatchAt(s, q, 0) && p != q
  {
    assert "" + Replace(s, p, m) == Replace(s, p, m) && "" + s == s;
    FrontSurvives(m, p, q, "", s, 0);
  }

  /** A replacement that does anything leaves a whole marker behind. */
  lemma {:induction false} MarkerIsLeft(m: string, s: string, p: string)
    requires p != ""
    ensures Replace(s, p, m) != s ==> Contains(Replace(s, p, m), m)
    decreases |s|
  {
    if |s| < |p| {
      ReplaceShort(m, s, p);
    } else if p <= s {
      var rest := s[|p|..];
      assert s == p + rest;
      ReplaceMatch(m, p, rest);
      MarkerStands("", m, Replace(rest, p, m));
      assert "" + (m + Replace(rest, p, m)) == m + Replace(rest, p, m);
    } else {
      var x, rest := s[0], s[1..];
      assert s == [x] + rest;
      ReplacePass(m, x, rest, p);
      MarkerIsLeft(m, rest, p);
      if Replace(rest, p, m) != rest {
        ContainsBehind([x], Replace(rest, p, m), m);
      }
    }
  }

  // ----- All patterns -----

  predicate NonEmpty(patterns: seq<string>) {
    forall i | 0 <= i < |patterns| :: patterns[i] != ""
  }

  /** The patterns one after the other, as given. */
  function RedactAll(m: string, patterns: seq<string>, s: string): string
    requires NonEmpty(patterns)
  {
    if |patterns| == 0 then s
    else Replace(RedactAll(m, patterns[..|patterns| - 1], s), patterns[|patterns| - 1], m)
  }

  lemma {:induction false} FrontSurvivesAll(m: string, patterns: seq<string>, q: string, front: string, s: string, i: int)
    requires m != "" && NonEmpty(patterns) && q != "" && !Meets(m, q)
    requires 0 <= i <= |front| && MatchAt(front + RedactAll(m, patterns, s), q, i)
    ensures MatchAt(front + s, q, i)
  {
    if |patterns| != 0 {
      var before := patterns[..|patterns| - 1];
      FrontSurvives(m, patterns[|patterns| - 1], q, front, RedactAll(m, before, s), i);
      FrontSurvivesAll(m, before, q, front, s, i);
    }
  }

  /**
   * Whatever the other patterns are, a pattern that does not meet the marker is gone after the loop:
   * no later replacement brings it back.
   */
  lemma {:induction false} RedactedIsFree(m: string, patterns: seq<string>, s: string, q: string)
    requires m != "" && NonEmpty(patterns) && q in patterns && !Meets(m, q)
    ensures !Contains(RedactAll(m, patterns, s), q)
  {
    var front, last := patterns[..|patterns| - 1], patterns[|patterns| - 1];
    assert q in front || q == last;
    if i :| MatchAt(RedactAll(m, patterns, s), q, i) {
      ReplaceIntroducesNothing(m, RedactAll(m, front, s), last, q, i);
      RedactedIsFree(m, front, s, q);
    }
  }

  lemma {:induction false} RedactionLeavesMarker(m: string, patterns: seq<string>, s: string)
    requires m != "" && NonEmpty(patterns)
    ensures Contains(s, m) || RedactAll(m, patterns, s) != s ==> Contains(RedactAll(m, patterns, s), m)
  {
    if |patterns| != 0 {
      RedactionLeavesMarker(m, patterns[..|patterns| - 1], s);
      MarkerIsLeft(m, RedactAll(m, patterns[..|patterns| - 1], s), patterns[|patterns| - 1]);
    }
  }

  predicate AtMostLong(patterns: seq<string>, n: nat) {
    forall i | 0 <= i < |patterns| :: |patterns[i]| <= n
  }

  /** The carry holds back enough: its full length, or everything there was, or a whole marker. */
  ghost predicate HoldsEnough(m: string, emitted: string, carry: string, hold: nat) {
    |carry| >= hold || emitted == "" || Contains(carry, m)
  }

  /**
   * What has been emitted, followed by the redaction of the carry and any new text, is free of the
   * pattern, provided the carry holds back enough.
   */
  lemma StaysFree(m: string, patterns: seq<string>, emitted: string, carry: string, text: string, hold: nat, q: string)
    requires m != "" && NonEmpty(patterns) && q in patterns && !Meets(m, q) && |q| <= hold + 1
    requires !Contains(emitted + carry, q) && HoldsEnough(m, emitted, carry, hold)
    ensures !Contains(emitted + RedactAll(m, patterns, carry + text), q)
  {
    var r := RedactAll(m, patterns, carry + text);
    RedactedIsFree(m, patterns, carry + text, q);
    if i :| MatchAt(emitted + r, q, i) {
      if i >= |emitted| {
        MatchBehind(emitted, r, q, i);
        assert Contains(r, q);
      } else {
        FrontSurvivesAll(m, patterns, q, emitted, carry + text, i);
        MatchWasHeld(m, emitted, carry, text, hold, q, i);
        assert Contains(emitted + carry, q);
      }
    }
  }

  /** A match that starts in what was emitted does not reach the new text. */
  lemma MatchWasHeld(m: string, emitted: string, carry: string, text: string, hold: nat, q: string, i: int)
    requires !Meets(m, q) && |q| <= hold + 1 && 0 <= i < |emitted|
    requires HoldsEnough(m, emitted, carry, hold) && MatchAt(emitted + (carry + text), q, i)
    ensures MatchAt(emitted + carry, q, i)
  {
    var whole := emitted + carry;
    assert emitted + (carry + text) == whole + text && whole + "" == whole;
    if |carry| < hold {
      var a :| MatchAt(carry, m, a);
      MatchBehind(emitted, carry, m, |emitted| + a);
      MatchInFront(whole, "", text, m, |emitted| + a);
      Apart(m, q, whole + text, |emitted| + a, i);
    }
    MatchInFront(whole, text, "", q, i);
  }

  // ----- The redactor, on values -----

  /** `feed`: what goes out and what is carried on. */
  function Step(m: string, patterns: seq<string>, hold: nat, carry: string, text: string): (string, string)
    requires NonEmpty(patterns)
  {
    var redacted := RedactAll(m, patterns, carry + text);
    if |patterns| == 0 || hold == 0 then (redacted, "")
    else if |redacted| <= hold then ("", redacted)
    else (redacted[..|redacted| - hold], redacted[|redacted| - hold..])
  }

  /** All that is out, and what is carried, after a number of chunks. */
  function Streamed(m: string, patterns: seq<string>, hold: nat, chunks: seq<string>): (string, string)
    requires NonEmpty(patterns)
  {
    if |chunks| == 0 then ("", "")
    else
      var (emitted, carry) := Streamed(m, patterns, hold, chunks[..|chunks| - 1]);
      var (out, next) := Step(m, patterns, hold, carry, chunks[|chunks| - 1]);
      (emitted + out, next)
  }

  /** Everything the redactor returns for a text that arrives in chunks, flush included. */
  function Output(m: string, patterns: seq<string>, hold: nat, chunks: seq<string>): string
    requires NonEmpty(patterns)
  {
    var (emitted, carry) := Streamed(m, patterns, hold, chunks);
    emitted + RedactAll(m, patterns, carry)
  }

  function Concat(chunks: seq<string>): string {
    if |chunks| == 0 then "" else Concat(chunks[..|chunks| - 1]) + chunks[|chunks| - 1]
  }

  lemma StepSplits(m: string, patterns: seq<string>, hold: nat, carry: string, text: string)
    requires m != ""
    requires NonEmpty(patterns)
    ensures Step(m, patterns, hold, carry, text).0 + Step(m, patterns, hold, carry, text).1 == RedactAll(m, patterns, carry + text)
  {
    Pieces(RedactAll(m, patterns, carry + text), hold);
  }

  lemma Pieces(r: string, hold: nat)
    ensures r + "" == r && "" + r == r
    ensures |r| > hold ==> r[..|r| - hold] + r[|r| - hold..] == r
  {
  }

  lemma StepHoldsEnough(m: string, patterns: seq<string>, hold: nat, emitted: string, carry: string, text: string)
    requires m != "" && NonEmpty(patterns) && |patterns| != 0 && HoldsEnough(m, emitted, carry, hold)
    ensures var (out, next) := Step(m, patterns, hold, carry, text); HoldsEnough(m, emitted + out, next, hold)
  {
    RedactionLeavesMarker(m, patterns, carry + text);
    if a :| MatchAt(carry, m, a) {
      assert carry + "" == carry;
      MatchInFront(carry, "", text, m, a);
    }
    assert emitted + "" == emitted;
  }

  lemma {:induction false} StreamedStaysFree(m: string, patterns: seq<string>, hold: nat, chunks: seq<string>, q: string)
    requires m != "" && NonEmpty(patterns) && q in patterns && !Meets(m, q) && |q| <= hold + 1
    ensures var (emitted, carry) := Streamed(m, patterns, hold, chunks);
            !Contains(emitted + carry, q) && HoldsEnough(m, emitted, carry, hold)
  {
    if chunks != [] {
      var text := chunks[|chunks| - 1];
      var (emitted, carry) := Streamed(m, patterns, hold, chunks[..|chunks| - 1]);
      StreamedStaysFree(m, patterns, hold, chunks[..|chunks| - 1], q);
      StaysFree(m, patterns, emitted, carry, text, hold, q);
      StepHoldsEnough(m, patterns, hold, emitted, carry, text);
      StepSplits(m, patterns, hold, carry, text);
      var (out, next) := Step(m, patterns, hold, carry, text);
      Regroup(emitted, out + next, emitted + RedactAll(m, patterns, carry + text), out, next);
    }
  }

  /**
   * For every chunking, and whatever the other patterns are: all output together does not hold a
   * pattern that does not meet the marker, although a long secret that is replaced by the marker
   * can shrink the carry below its hold size.
   */
  lemma OutputIsFree(m: string, patterns: seq<string>, hold: nat, chunks: seq<string>, q: string)
    requires m != "" && NonEmpty(patterns) && q in patterns && !Meets(m, q) && |q| <= hold + 1
    ensures !Contains(Output(m, patterns, hold, chunks), q)
  {
    var (emitted, carry) := Streamed(m, patterns, hold, chunks);
    StreamedStaysFree(m, patterns, hold, chunks, q);
    StaysFree(m, patterns, emitted, carry, "", hold, q);
    assert carry + "" == carry;
  }

  /** A pattern made of marker characters alone is put back by its own replacement. */
  lemma MarkerPatternComesBack(m: string, p: string, before: string, after: string)
    requires p != "" && m == before + p + after
    ensures Contains(RedactAll(m, [p], p), p)
  {
    RedactOne(m, p, p);
    assert Replace("", p, m) == "";
    assert RedactAll(m, [p], p) == m + "" == m;
    assert MatchAt(m, p, |before|);
  }

  // ----- One pattern -----

  lemma {:induction false} ReplacePasses(m: string, front: string, s: string, p: string)
    requires p != "" && forall i | 0 <= i < |front| :: !MatchAt(front + s, p, i)
    ensures Replace(front + s, p, m) == front + Replace(s, p, m)
  {
    if front == "" {
      assert front + s == s;
    } else {
      var rest := front[1..] + s;
      assert front + s == [front[0]] + rest;
      forall i | 0 <= i < |front| - 1 ensures !MatchAt(rest, p, i) {
        MatchBehind([front[0]], rest, p, i + 1);
        assert !MatchAt(front + s, p, i + 1);
      }
      ReplacePasses(m, front[1..], s, p);
      MatchIsPrefix(front + s, p);
      assert !MatchAt(front + s, p, 0);
      ReplaceStep(m, front + s, p);
      assert (front + s)[1..] == rest;
      assert [front[0]] + (front[1..] + Replace(s, p, m)) == front + Replace(s, p, m);
    }
  }

  /**
   * Replacing ends behind its last marker: what is left of the text holds no match, and more text
   * behind it changes nothing before that point.
   */
  lemma {:induction false} SplitsAtLast(m: string, s: string, p: string, t: string) returns (y: string, tail: string)
    requires m != "" && p != ""
    ensures Replace(s, p, m) == y + tail && !Contains(tail, p)
    ensures Replace(s + t, p, m) == y + Replace(tail + t, p, m)
    ensures if Contains(s, p) then MatchAt(y, m, |y| - |m|) else y == ""
    decreases |s|
  {
    if !Contains(s, p) {
      y, tail := "", s;
      ReplaceWithoutMatch(s, p, m);
    } else if p <= s {
      var rest, more := s[|p|..], "";
      assert s == p + rest;
      more, tail := SplitsAtLast(m, rest, p, t);
      y := m + more;
      SplitAtMatch(m, rest, p, t, more, tail);
      LastBehind(m, m, more);
    } else {
      var x, rest, more := s[0], s[1..], "";
      assert s == [x] + rest;
      var i :| MatchAt(s, p, i);
      MatchBehind([x], rest, p, i);
      more, tail := SplitsAtLast(m, rest, p, t);
      y := [x] + more;
      SplitAtPass(m, x, rest, p, t, more, tail);
      LastBehind(m, [x], more);
    }
  }

  lemma SplitAtMatch(m: string, rest: string, p: string, t: string, more: string, tail: string)
    requires p != ""
    requires Replace(rest, p, m) == more + tail && Replace(rest + t, p, m) == more + Replace(tail + t, p, m)
    ensures Replace(p + rest, p, m) == (m + more) + tail
    ensures Replace((p + rest) + t, p, m) == (m + more) + Replace(tail + t, p, m)
  {
    Assoc(p, rest, t);
    ReplaceMatch(m, p, rest);
    ReplaceMatch(m, p, rest + t);
    Assoc(m, more, tail);
    Assoc(m, more, Replace(tail + t, p, m));
  }

  lemma SplitAtPass(m: string, x: char, rest: string, p: string, t: string, more: string, tail: string)
    requires p != "" && |p| <= 1 + |rest| && !(p <= [x] + rest)
    requires Replace(rest, p, m) == more + tail && Replace(rest + t, p, m) == more + Replace(tail + t, p, m)
    ensures Replace([x] + rest, p, m) == ([x] + more) + tail
    ensures Replace(([x] + rest) + t, p, m) == ([x] + more) + Replace(tail + t, p, m)
  {
    Assoc([x], rest, t);
    PrefixStays(p, [x] + rest, t);
    ReplacePass(m, x, rest, p);
    ReplacePass(m, x, rest + t, p);
    Assoc([x], more, tail);
    Assoc([x], more, Replace(tail + t, p, m));
  }

  /** A text that ends in a marker, or is one, still does with more in front. */
  lemma LastBehind(m: string, front: string, more: string)
    requires m != "" && ((more == "" && front == m) || MatchAt(more, m, |more| - |m|))
    ensures MatchAt(front + more, m, |front + more| - |m|)
  {
    if more == "" {
      assert front + more == m;
    } else {
      MatchBehind(front, more, m, |front| + |more| - |m|);
    }
  }

  /**
   * Cutting a replaced text so that less than a pattern is held back, and replacing what is held back
   * together with more text, is replacing the whole at once, if no match can run past a marker.
   */
  lemma CutIsHarmless(m: string, p: string, s: string, t: string, out: string, next: string)
    requires m != "" && p != "" && !RunsPast(m, p)
    requires out + next == Replace(s, p, m) && |next| < |p| && (out == "" || |next| == |p| - 1)
    ensures Replace(s + t, p, m) == out + Replace(next + t, p, m)
  {
    var y, tail := SplitsAtLast(m, s, p, t);
    if |out| >= |y| {
      CutInTail(m, p, y, tail, t, out, next);
    } else {
      CutInFront(m, p, y, tail, t, out, next);
    }
  }

  lemma CutInTail(m: string, p: string, y: string, tail: string, t: string, out: string, next: string)
    requires p != "" && !Contains(tail, p) && out + next == y + tail && |out| >= |y|
    requires out == "" || |next| == |p| - 1
    ensures y + Replace(tail + t, p, m) == out + Replace(next + t, p, m)
  {
    var b := out[|y|..];
    CutTwice(out, next, y, tail);
    Assoc(b, next, t);
    forall i | 0 <= i < |b| ensures !MatchAt(b + (next + t), p, i) {
      assert tail + "" == tail;
      MatchInFront(tail, t, "", p, i);
    }
    ReplacePasses(m, b, next + t, p);
    Assoc(y, b, Replace(next + t, p, m));
  }

  lemma CutInFront(m: string, p: string, y: string, tail: string, t: string, out: string, next: string)
    requires p != "" && !RunsPast(m, p) && out + next == y + tail && |out| < |y| && |next| < |p|
    requires MatchAt(y, m, |y| - |m|)
    ensures y + Replace(tail + t, p, m) == out + Replace(next + t, p, m)
  {
    var b := y[|out|..];
    CutTwice(y, tail, out, next);
    Assoc(b, tail, t);
    forall i | 0 <= i < |b| ensures !MatchAt(b + (tail + t), p, i) {
      if MatchAt(b + (tail + t), p, i) {
        PastTheLast(m, p, out, b, tail, t, i);
        assert false;
      }
    }
    ReplacePasses(m, b, tail + t, p);
    Assoc(out, b, Replace(tail + t, p, m));
  }

  /** A match that starts before the end of the last marker and reaches behind it. */
  lemma PastTheLast(m: string, p: string, out: string, b: string, tail: string, t: string, i: int)
    requires 0 <= i < |b| && |b + tail| < |p| && MatchAt(out + b, m, |out + b| - |m|) && MatchAt(b + (tail + t), p, i)
    ensures RunsPast(m, p)
  {
    var y, rest := out + b, tail + t;
    Assoc(out, b, rest);
    assert y + "" == y;
    MatchBehind(out, b + rest, p, |out| + i);
    MatchInFront(y, "", rest, m, |y| - |m|);
    AgreeWhereBoth(m, p, y + rest, |y| - |m|, |out| + i);
    assert AgreeAt(m, p, |y| - |m| - (|out| + i));
  }

  lemma {:induction false} ReplaceItself(m: string, s: string)
    requires m != ""
    ensures Replace(s, m, m) == s
    decreases |s|
  {
    if |s| >= |m| {
      ReplaceStep(m, s, m);
      if m <= s {
        ReplaceItself(m, s[|m|..]);
      } else {
        ReplaceItself(m, s[1..]);
      }
    }
  }

  lemma RedactOne(m: string, p: string, s: string)
    requires m != ""
    requires p != ""
    ensures RedactAll(m, [p], s) == Replace(s, p, m)
  {
    assert [p][..0] == [];
    assert RedactAll(m, [], s) == s;
  }

  lemma StepIsOneShot(m: string, p: string, carry: string, text: string, t: string)
    requires m != "" && p != "" && (p == m || !RunsPast(m, p))
    ensures Replace(carry + (text + t), p, m)
         == Step(m, [p], |p| - 1, carry, text).0 + Replace(Step(m, [p], |p| - 1, carry, text).1 + t, p, m)
  {
    var (out, next) := Step(m, [p], |p| - 1, carry, text);
    RedactOne(m, p, carry + text);
    StepSplits(m, [p], |p| - 1, carry, text);
    Assoc(carry, text, t);
    if p == m {
      ItselfIsHarmless(m, carry + text, t, out, next);
    } else {
      CutIsHarmless(m, p, carry + text, t, out, next);
    }
  }

  lemma ItselfIsHarmless(m: string, s: string, t: string, out: string, next: string)
    requires m != "" && out + next == Replace(s, m, m)
    ensures Replace(s + t, m, m) == out + Replace(next + t, m, m)
  {
    ReplaceItself(m, s);
    ReplaceItself(m, s + t);
    ReplaceItself(m, next + t);
    Assoc(out, next, t);
  }

  lemma ConcatMore(chunks: seq<string>, t: string)
    requires |chunks| != 0
    ensures Concat(chunks[..|chunks| - 1]) + (chunks[|chunks| - 1] + t) == Concat(chunks) + t
  {
    var front, last := Concat(chunks[..|chunks| - 1]), chunks[|chunks| - 1];
    assert Concat(chunks) == front + last;
    assert front + (last + t) == (front + last) + t;
  }

  lemma {:induction false} StreamedIsOneShot(m: string, p: string, chunks: seq<string>, t: string)
    requires m != "" && p != "" && (p == m || !RunsPast(m, p))
    ensures Streamed(m, [p], |p| - 1, chunks).0 + Replace(Streamed(m, [p], |p| - 1, chunks).1 + t, p, m)
         == Replace(Concat(chunks) + t, p, m)
  {
    if chunks == [] {
      assert "" + t == t;
    } else {
      var front, text := chunks[..|chunks| - 1], chunks[|chunks| - 1];
      var before, step := Streamed(m, [p], |p| - 1, front), Step(m, [p], |p| - 1, Streamed(m, [p], |p| - 1, front).1, text);
      StreamedIsOneShot(m, p, front, text + t);
      StepIsOneShot(m, p, before.1, text, t);
      ConcatMore(chunks, t);
      Regroup(before.0, Replace(before.1 + (text + t), p, m), Replace(Concat(chunks) + t, p, m), step.0, Replace(step.1 + t, p, m));
    }
  }

  lemma Regroup(e: string, a: string, b: string, out: string, c: string)
    requires e + a == b && a == out + c
    ensures (e + out) + c == b
  {
  }

  /** With a single pattern the output is one replacement over the whole text, however it was cut. */
  lemma OutputIsOneShot(m: string, p: string, chunks: seq<string>)
    requires m != "" && p != "" && (p == m || !RunsPast(m, p))
    ensures Output(m, [p], |p| - 1, chunks) == Replace(Concat(chunks), p, m)
  {
    StreamedIsOneShot(m, p, chunks, "");
    var carry := Streamed(m, [p], |p| - 1, chunks).1;
    assert carry + "" == carry && Concat(chunks) + "" == Concat(chunks);
    RedactOne(m, p, carry);
  }

  // ----- When a single pattern does run past a marker -----

  /** A text changes in length as the marker and the pattern differ in length, or not at all. */
  lemma {:induction false} ReplaceLength(m: string, s: string, p: string)
    requires p != ""
    ensures |m| >= |p| ==> |Replace(s, p, m)| >= |s|
    ensures |m| <= |p| ==> |Replace(s, p, m)| <= |s|
    decreases |s|
  {
    if |s| < |p| {
      ReplaceShort(m, s, p);
    } else if p <= s {
      assert s == p + s[|p|..];
      ReplaceMatch(m, p, s[|p|..]);
      ReplaceLength(m, s[|p|..], p);
    } else {
      assert s == [s[0]] + s[1..];
      ReplacePass(m, s[0], s[1..], p);
      ReplaceLength(m, s[1..], p);
    }
  }

  /** Replacing a pattern that occurs, by anything but itself, changes the text. */
  lemma {:induction false} ReplaceChanges(m: string, s: string, p: string)
    requires p != "" && p != m && Contains(s, p)
    ensures Replace(s, p, m) != s
    decreases |s|
  {
    if p <= s {
      var rest := s[|p|..];
      assert s == p + rest;
      ReplaceMatch(m, p, rest);
      ReplaceLength(m, rest, p);
      DifferentStarts(m, p, Replace(rest, p, m), rest);
    } else {
      var x, rest := s[0], s[1..];
      var i :| MatchAt(s, p, i);
      assert s == [x] + rest;
      MatchBehind([x], rest, p, i);
      ReplaceChanges(m, rest, p);
      ReplacePass(m, x, rest, p);
      SameFront([x], Replace(rest, p, m), rest);
    }
  }

  lemma DifferentStarts(m: string, p: string, a: string, b: string)
    requires m != p && (|m| >= |p| ==> |a| >= |b|) && (|m| <= |p| ==> |a| <= |b|)
    ensures m + a != p + b
  {
    if |m| == |p| {
      assert (m + a)[..|m|] == m && (p + b)[..|m|] == p;
    } else {
      assert |m + a| == |m| + |a| && |p + b| == |p| + |b|;
    }
  }

  lemma SameFront(front: string, a: string, b: string)
    requires a != b
    ensures front + a != front + b
  {
    assert (front + a)[|front|..] == a && (front + b)[|front|..] == b;
  }

  lemma StreamedOne(m: string, p: string, first: string)
    requires p != ""
    ensures Streamed(m, [p], |p| - 1, [first]) == Step(m, [p], |p| - 1, "", first) && Concat([first]) == first
  {
    var step := Step(m, [p], |p| - 1, "", first);
    assert [first][..0] == [] && "" + step.0 == step.0 && "" + first == first;
  }

  lemma StreamedTwo(m: string, p: string, first: string, second: string)
    requires p != ""
    ensures var before := Step(m, [p], |p| - 1, "", first);
            var after := Step(m, [p], |p| - 1, before.1, second);
            Streamed(m, [p], |p| - 1, [first, second]) == (before.0 + after.0, after.1) && Concat([first, second]) == first + second
  {
    assert [first, second][..1] == [first];
    StreamedOne(m, p, first);
  }

  /** What two chunks give: the first replacement, cut, and the second one on what was held back. */
  lemma TwoChunks(m: string, p: string, first: string, second: string)
    requires m != "" && p != ""
    ensures var (out, carry) := Step(m, [p], |p| - 1, "", first);
            && out + carry == Replace(first, p, m) && Concat([first, second]) == first + second
            && Output(m, [p], |p| - 1, [first, second]) == out + Replace(carry + second, p, m)
  {
    var (out, carry) := Step(m, [p], |p| - 1, "", first);
    var (more, last) := Step(m, [p], |p| - 1, carry, second);
    StreamedTwo(m, p, first, second);
    StepGives(m, p, "", first);
    StepGives(m, p, carry, second);
    assert "" + first == first;
    ReplaceShort(m, last, p);
    RedactOne(m, p, last);
    Assoc(out, more, last);
  }

  lemma StepGives(m: string, p: string, carry: string, text: string)
    requires m != "" && p != ""
    ensures var (out, next) := Step(m, [p], |p| - 1, carry, text);
            out + next == Replace(carry + text, p, m) && |next| < |p|
  {
    RedactOne(m, p, carry + text);
    StepSplits(m, [p], |p| - 1, carry, text);
  }

  lemma LeastOffset(m: string, q: string, k: nat) returns (least: nat)
    requires AgreeAt(m, q, k)
    ensures least <= k && AgreeAt(m, q, least) && forall j | 0 <= j < least :: !AgreeAt(m, q, j)
  {
    if j: nat :| j < k && AgreeAt(m, q, j) {
      least := LeastOffset(m, q, j);
    } else {
      least := k;
    }
  }

  /** A pattern that holds a marker, taken apart. */
  lemma AroundMarker(m: string, p: string, k: nat)
    requires k + |m| <= |p| && AgreeAt(m, p, k)
    ensures p == (p[..k] + m) + p[k + |m|..]
  {
    forall j | 0 <= j < |m| ensures p[k..k + |m|][j] == m[j] {
      assert p[k + j] == m[(k + j) - k];
    }
    assert p[k..k + |m|] == m;
  }

  /** The pattern holds a marker and goes on behind it: what precedes the first such marker, then the pattern, then the rest of it. */
  lemma HeldMarkerShows(m: string, p: string, k: nat)
    requires m != "" && k + |m| < |p| && AgreeAt(m, p, k) && forall j | 0 <= j < k :: !AgreeAt(m, p, j)
    ensures var chunks := [p[..k] + p, p[k + |m|..]];
            Output(m, [p], |p| - 1, chunks) == m && Replace(Concat(chunks), p, m) == p
  {
    var a, c := p[..k], p[k + |m|..];
    AroundMarker(m, p, k);
    FirstIsBehind(m, p, k, "");
    FirstIsBehind(m, p, k, c);
    ReplaceShort(m, c, p);
    ReplaceShort(m, "", p);
    assert p + "" == p && m + "" == m;
    assert Replace(a + p, p, m) == a + m;
    HeldWhole(m, p, a + p);
    TwoChunks(m, p, a + p, c);
    Assoc(a, p, c);
    Assoc(a, m, c);
    ReplaceOnce(m, p);
    assert "" + m == m;
  }

  lemma ReplaceOnce(m: string, p: string)
    requires p != ""
    ensures Replace(p, p, m) == m
  {
    ReplaceStep(m, p, p);
    assert p[|p|..] == "" && m + "" == m;
    ReplaceShort(m, "", p);
  }

  /** A replaced text shorter than the pattern is held back whole. */
  lemma HeldWhole(m: string, p: string, text: string)
    requires m != "" && p != "" && |Replace(text, p, m)| < |p|
    ensures Step(m, [p], |p| - 1, "", text) == ("", Replace(text, p, m))
  {
    assert "" + text == text;
    RedactOne(m, p, text);
  }

  /** Behind what precedes its first marker, the pattern is the first match. */
  lemma FirstIsBehind(m: string, p: string, k: nat, w: string)
    requires m != "" && k + |m| < |p| && AgreeAt(m, p, k) && forall j | 0 <= j < k :: !AgreeAt(m, p, j)
    ensures Replace(p[..k] + (p + w), p, m) == p[..k] + (m + Replace(w, p, m))
  {
    var a := p[..k];
    var s := a + (p + w);
    forall i | 0 <= i < k ensures !MatchAt(s, p, i) {
      if MatchAt(s, p, i) {
        EarlierMatch(m, p, k, w, i);
        assert false;
      }
    }
    ReplacePasses(m, a, p + w, p);
    ReplaceStep(m, p + w, p);
    assert (p + w)[|p|..] == w;
  }

  /** An earlier match would show an earlier marker in the pattern. */
  lemma EarlierMatch(m: string, p: string, k: nat, w: string, i: nat)
    requires k + |m| < |p| && AgreeAt(m, p, k) && i < k && MatchAt(p[..k] + (p + w), p, i)
    ensures AgreeAt(m, p, i)
  {
    var s := p[..k] + (p + w);
    forall j | 0 <= j < |p| && 0 <= j - i < |m| ensures p[j] == m[j - i] {
      MatchedChar(s, p, i, j - i + k);
      assert s[k + j] == p[j];
      assert p[j - i + k] == m[j - i];
    }
  }

  /** The marker ends in a start of the pattern: the pattern, then what it has behind that start. */
  lemma MarkerEndShows(m: string, p: string, k: int)
    requires m != "" && p != "" && p != m && -|m| < k < 0 && k < |p| - |m| && AgreeAt(m, p, k)
    ensures var chunks := [p, p[k + |m|..]];
            Output(m, [p], |p| - 1, chunks) != Replace(Concat(chunks), p, m)
  {
    var c := p[k + |m|..];
    var (out, carry) := Step(m, [p], |p| - 1, "", p);
    TwoChunks(m, p, p, c);
    ReplaceOnce(m, p);
    ReplaceMatch(m, p, c);
    ReplaceShort(m, c, p);
    EnoughIsHeld(m, p, p);
    Assoc(out, carry, c);
    EndStartsPattern(m, p, k, out, carry);
    ReplaceChanges(m, carry + c, p);
    SameFront(out, Replace(carry + c, p, m), carry + c);
  }

  lemma EnoughIsHeld(m: string, p: string, text: string)
    requires m != "" && p != ""
    ensures var (out, carry) := Step(m, [p], |p| - 1, "", text); out == "" || |carry| == |p| - 1
  {
  }

  lemma EndStartsPattern(m: string, p: string, k: int, out: string, carry: string)
    requires -|m| < k < 0 && k < |p| - |m| && AgreeAt(m, p, k)
    requires out + carry == m && (out == "" || |carry| == |p| - 1)
    ensures Contains(carry + p[k + |m|..], p)
  {
    var n := k + |m|;
    var s, i := carry + p[n..], |carry| - n;
    forall j | 0 <= j < |p| ensures s[i + j] == p[j] {
      if j < n {
        assert m[j - k] == (out + carry)[j - k];
      }
    }
    assert s[i..i + |p|] == p;
    assert MatchAt(s, p, i);
  }

  /**
   * Exactly when the output of a redactor with one pattern does not depend on the chunks: it is one
   * replacement over the whole text for every chunking if and only if the pattern is the marker
   * itself or cannot share a position with a marker and end behind it.
   */
  lemma OneShotExactlyWhen(m: string, p: string)
    requires m != "" && p != ""
    ensures (forall chunks :: Output(m, [p], |p| - 1, chunks) == Replace(Concat(chunks), p, m))
       <==> p == m || !RunsPast(m, p)
  {
    if p == m || !RunsPast(m, p) {
      forall chunks ensures Output(m, [p], |p| - 1, chunks) == Replace(Concat(chunks), p, m) {
        OutputIsOneShot(m, p, chunks);
      }
    } else {
      var k :| -|m| < k < |p| - |m| && AgreeAt(m, p, k);
      if k >= 0 {
        var least := LeastOffset(m, p, k);
        HeldMarkerShows(m, p, least);
        assert m != p;
      } else {
        MarkerEndShows(m, p, k);
      }
    }
  }

  // ----- The redactor in place -----

  const LONGEST_ORDER: Order<string> := (a, b) => |a| >= |b|

  function WithoutEmpty(patterns: seq<string>): seq<string> {
    if |patterns| == 0 then []
    else
      var before, last := WithoutEmpty(patterns[..|patterns| - 1]), patterns[|patterns| - 1];
      if last == "" then before else before + [last]
  }

  function SortedPatterns(patterns: seq<string>): seq<string> {
    Sort(LONGEST_ORDER, WithoutEmpty(patterns))
  }

  predicate LongestFirst(patterns: seq<string>) {
    forall i, j | 0 <= i < j < |patterns| :: |patterns[i]| >= |patterns[j]|
  }

  lemma {:induction false} WithoutEmptyKeeps(patterns: seq<string>)
    ensures forall q :: q in WithoutEmpty(patterns) <==> q in patterns && q != ""
  {
    if |patterns| != 0 {
      WithoutEmptyKeeps(patterns[..|patterns| - 1]);
      assert patterns == patterns[..|patterns| - 1] + [patterns[|patterns| - 1]];
    }
  }

  /** Every non-empty pattern, longest first. */
  lemma SortedPatternsShape(patterns: seq<string>)
    ensures LongestFirst(SortedPatterns(patterns))
    ensures forall q :: q in SortedPatterns(patterns) <==> q in patterns && q != ""
  {
    assert TotalOrder(LONGEST_ORDER);
    SortSorts(LONGEST_ORDER, WithoutEmpty(patterns));
    SortHasSame(LONGEST_ORDER, WithoutEmpty(patterns));
    WithoutEmptyKeeps(patterns);
    var r := SortedPatterns(patterns);
    forall i, j | 0 <= i < j < |r| ensures |r[i]| >= |r[j]| {
      assert LONGEST_ORDER(r[i], r[j]);
    }
  }

  /** One less than the longest pattern. */
  function HoldFor(sorted: seq<string>): nat
    requires NonEmpty(sorted)
  {
    if |sorted| == 0 then 0 else |sorted[0]| - 1
  }

  /** Everything a redactor built from the given patterns returns for a text that arrives in chunks. */
  function RedactedBy(m: string, given: seq<string>, chunks: seq<string>): string {
    SortedPatternsShape(given);
    var patterns := SortedPatterns(given);
    assert forall i | 0 <= i < |patterns| :: patterns[i] in patterns;
    Output(m, patterns, HoldFor(patterns), chunks)
  }

  // ----- When a pattern is kept out -----

  /** The part of the pattern before a marker at offset `k`, and the part behind it. */
  function Before(q: string, k: int): string {
    if 0 < k < |q| then q[..k] else ""
  }

  function Behind(m: string, q: string, k: int): string {
    if 0 < k + |m| < |q| then q[k + |m|..] else ""
  }

  /** Put back around a marker, the two parts make the pattern. */
  lemma PartsMakePattern(m: string, q: string, k: int)
    requires m != "" && q != "" && -|m| < k < |q| && AgreeAt(m, q, k)
    ensures Contains((Before(q, k) + m) + Behind(m, q, k), q)
    ensures |Before(q, k)| + |Behind(m, q, k)| < |q|
  {
    var a, c := Before(q, k), Behind(m, q, k);
    var s, i := (a + m) + c, if k < 0 then -k else 0;
    forall j | 0 <= j < |q| ensures i + j < |s| && s[i + j] == q[j] {
      if j >= k && j - k < |m| {
        assert s[i + j] == m[j - k];
      }
    }
    assert i + |q| <= |s| by {
      assert i + (|q| - 1) < |s|;
    }
    assert s[i..i + |q|] == q;
    assert MatchAt(s, q, i);
  }

  function Block(y: char, n: nat): string {
    seq(n, _ => y)
  }

  lemma EndsOfMatch(s: string, q: string, i: int)
    requires q != "" && MatchAt(s, q, i)
    ensures s[i] == q[0] && s[i + |q| - 1] == q[|q| - 1]
  {
    MatchedChar(s, q, i, 0);
    MatchedChar(s, q, i, |q| - 1);
  }

  /** A block of one character that ends no part before it, and starts or ends no pattern, hides the pattern and stands first. */
  lemma BlockStandsFirst(a: string, c: string, q: string, y: char, i: int)
    requires q != "" && |a| + |c| < |q| && y != q[0] && y != q[|q| - 1] && (a != "" ==> a[|a| - 1] != y)
    ensures !MatchAt(a + (Block(y, |q|) + c), q, i)
    ensures 0 <= i < |a| ==> !MatchAt(a + (Block(y, |q|) + c), Block(y, |q|), i)
  {
    var n := |q|;
    var s := a + (Block(y, n) + c);
    assert forall j | |a| <= j < |a| + n :: s[j] == y;
    if MatchAt(s, q, i) {
      EndsOfMatch(s, q, i);
      assert false;
    }
    if 0 <= i < |a| && MatchAt(s, Block(y, n), i) {
      MatchedChar(s, Block(y, n), i, |a| - 1 - i);
      assert false;
    }
  }

  /** The loop over such a pattern and block turns the block, and nothing else, into a marker. */
  lemma BlockBecomesMarker(m: string, a: string, c: string, q: string, y: char)
    requires m != "" && q != "" && |a| + |c| < |q| && y != q[0] && y != q[|q| - 1] && (a != "" ==> a[|a| - 1] != y)
    ensures RedactAll(m, [q, Block(y, |q|)], a + (Block(y, |q|) + c)) == a + (m + c)
  {
    var z := Block(y, |q|);
    var s := a + (z + c);
    forall i ensures !MatchAt(s, q, i) && (0 <= i < |a| ==> !MatchAt(s, z, i)) {
      BlockStandsFirst(a, c, q, y, i);
    }
    ReplaceWithoutMatch(s, q, m);
    RedactOne(m, q, s);
    ReplacePasses(m, a, z + c, z);
    ReplaceStep(m, z + c, z);
    assert (z + c)[|z|..] == c;
    ReplaceShort(m, c, z);
    assert [q, z][..1] == [q];
  }

  /** A pattern and a block of its length are held in the order given. */
  lemma SameLengthOrder(q: string, z: string)
    requires q != "" && |z| == |q|
    ensures SortedPatterns([q, z]) == [q, z] && HoldFor(SortedPatterns([q, z])) == |q| - 1
  {
    assert [q, z][..1] == [q] && [q][..0] == [];
    assert WithoutEmpty([q]) == [q] && WithoutEmpty([q, z]) == [q, z];
    assert Sort(LONGEST_ORDER, [q]) == [q];
  }

  lemma OneChunkComesOut(m: string, q: string, z: string, text: string)
    requires m != "" && q != "" && |z| == |q| && |RedactAll(m, [q, z], text)| >= |q|
    ensures RedactedBy(m, [q, z], [text]) == RedactAll(m, [q, z], text)
  {
    var h := |q| - 1;
    SameLengthOrder(q, z);
    assert [text][..0] == [] && "" + text == text;
    var (out, carry) := Step(m, [q, z], h, "", text);
    assert Streamed(m, [q, z], h, [text]) == ("" + out, carry) && "" + out == out;
    ShortIsKept(m, [q, z], carry);
    StepSplits(m, [q, z], h, "", text);
  }

  /** A text shorter than all patterns passes the loop unchanged. */
  lemma {:induction false} ShortIsKept(m: string, patterns: seq<string>, s: string)
    requires NonEmpty(patterns) && forall i | 0 <= i < |patterns| :: |s| < |patterns[i]|
    ensures RedactAll(m, patterns, s) == s
  {
    if |patterns| != 0 {
      ShortIsKept(m, patterns[..|patterns| - 1], s);
      ReplaceShort(m, s, patterns[|patterns| - 1]);
    }
  }

  lemma FourthCharacter(x: char, y: char, z: char) returns (w: char)
    ensures w != x && w != y && w != z
  {
    w := if 'a' !in {x, y, z} then 'a' else if 'b' !in {x, y, z} then 'b' else if 'c' !in {x, y, z} then 'c' else 'd';
  }

  /** A pattern that meets the marker is put out by a redactor that holds it and one more pattern, for one chunk. */
  lemma MetPatternComesOut(m: string, q: string) returns (z: string, text: string)
    requires m != "" && q != "" && Meets(m, q)
    ensures Contains(RedactedBy(m, [q, z], [text]), q)
  {
    var k :| -|m| < k < |q| && AgreeAt(m, q, k);
    PartsMakePattern(m, q, k);
    var a, c := Before(q, k), Behind(m, q, k);
    var y := FourthCharacter(q[0], q[|q| - 1], if a == "" then q[0] else a[|a| - 1]);
    z, text := Block(y, |q|), a + (Block(y, |q|) + c);
    BlockBecomesMarker(m, a, c, q, y);
    Assoc(a, m, c);
    OneChunkComesOut(m, q, z, text);
  }

  /**
   * Exactly when a pattern is kept out: every redactor that holds it keeps it out of its output, for
   * every text, every chunking and every choice of other patterns, if and only if the pattern cannot
   * share a position with the marker.
   */
  lemma KeptOutExactlyWhen(m: string, q: string)
    requires m != "" && q != ""
    ensures (forall given, chunks | q in given :: !Contains(RedactedBy(m, given, chunks), q)) <==> !Meets(m, q)
  {
    if Meets(m, q) {
      var z, text := MetPatternComesOut(m, q);
      assert q in [q, z];
    } else {
      forall given, chunks | q in given ensures !Contains(RedactedBy(m, given, chunks), q) {
        SortedPatternsShape(given);
        var patterns := SortedPatterns(given);
        assert forall i | 0 <= i < |patterns| :: patterns[i] in patterns;
        LongestFirstFits(patterns);
        OutputIsFree(m, patterns, HoldFor(patterns), chunks, q);
      }
    }
  }

  // ----- The class -----

  class StreamingTextRedactor {
    const patterns: seq<string>
    const hold: nat
    var carry: string

    /** Everything returned so far, and the chunks fed so far. */
    ghost var emitted: string
    ghost var chunks: seq<string>

    ghost predicate Valid()
      reads this
    {
      NonEmpty(patterns) && LongestFirst(patterns) && hold == HoldFor(patterns)
      && (emitted, carry) == Streamed(MARKER, patterns, hold, chunks)
    }

    constructor (given: seq<string>)
      ensures Valid() && emitted == "" && chunks == []
      ensures patterns == SortedPatterns(given) && forall q :: q in patterns <==> q in given && q != ""
    {
      var sorted := SortedPatterns(given);
      SortedPatternsShape(given);
      assert forall i | 0 <= i < |sorted| :: sorted[i] in sorted;
      patterns := sorted;
      hold := HoldFor(sorted);
      carry, emitted, chunks := "", "", [];
    }

    /** The loop over the patterns. */
    method Redact(s: string) returns (r: string)
      requires NonEmpty(patterns)
      ensures r == RedactAll(MARKER, patterns, s)
    {
      r := s;
      for i := 0 to |patterns|
        invariant r == RedactAll(MARKER, patterns[..i], s)
      {
        assert patterns[..i + 1][..i] == patterns[..i];
        r := Replace(r, patterns[i], MARKER);
      }
      assert patterns[..|patterns|] == patterns;
    }

    /** The body of `feed`. */
    method FeedBody(text: string) returns (out: string)
      requires NonEmpty(patterns) && (patterns == [] ==> hold == 0)
      modifies this`carry
      ensures (out, carry) == Step(MARKER, patterns, hold, old(carry), text)
    {
      if text == "" && carry == "" {
        RedactingNothing(MARKER, patterns);
        assert carry + text == "";
        return "";
      }
      var combined := carry + text;
      if patterns == [] {
        carry := "";
        return combined;
      }
      var redacted := Redact(combined);
      if hold == 0 {
        carry := "";
        return redacted;
      }
      if |redacted| <= hold {
        carry := redacted;
        return "";
      }
      out, carry := redacted[..|redacted| - hold], redacted[|redacted| - hold..];
    }

    method Feed(text: string) returns (out: string)
      requires Valid()
      modifies this
      ensures Valid() && emitted == old(emitted) + out && chunks == old(chunks) + [text]
    {
      out := FeedBody(text);
      emitted := emitted + out;
      chunks := chunks + [text];
      assert chunks[..|chunks| - 1] == old(chunks);
    }

    /** `flush`: what is still held back, redacted once more. */
    method Flush() returns (out: string)
      requires Valid()
      modifies this
      ensures carry == "" && emitted == old(emitted) + out && emitted == Output(MARKER, patterns, hold, old(chunks))
      ensures forall q <- patterns | !Meets(MARKER, q) :: !Contains(emitted, q)
      ensures |patterns| == 1 && (patterns[0] == MARKER || !RunsPast(MARKER, patterns[0])) ==>
                emitted == Replace(Concat(old(chunks)), patterns[0], MARKER)
    {
      LongestFirstFits(patterns);
      forall q <- patterns | !Meets(MARKER, q) ensures !Contains(Output(MARKER, patterns, hold, chunks), q) {
        OutputIsFree(MARKER, patterns, hold, chunks, q);
      }
      if |patterns| == 1 && (patterns[0] == MARKER || !RunsPast(MARKER, patterns[0])) {
        SingleIsOneShot(MARKER, patterns, chunks);
      }
      var remaining := carry;
      carry := "";
      if remaining == "" {
        RedactingNothing(MARKER, patterns);
        out := "";
      } else if patterns == [] {
        out := remaining;
      } else {
        out := Redact(remaining);
      }
      emitted := emitted + out;
    }
  }

  lemma LongestFirstFits(patterns: seq<string>)
    requires NonEmpty(patterns) && LongestFirst(patterns)
    ensures AtMostLong(patterns, HoldFor(patterns) + 1) && (patterns == [] ==> HoldFor(patterns) == 0)
  {
  }

  /** One pattern, in the form the redactor holds it. */
  lemma SingleIsOneShot(m: string, patterns: seq<string>, chunks: seq<string>)
    requires m != "" && NonEmpty(patterns) && |patterns| == 1 && (patterns[0] == m || !RunsPast(m, patterns[0]))
    ensures Output(m, patterns, HoldFor(patterns), chunks) == Replace(Concat(chunks), patterns[0], m)
  {
    var p := patterns[0];
    assert patterns == [p] && HoldFor(patterns) == |p| - 1;
    OutputIsOneShot(m, p, chunks);
  }

  lemma {:induction false} RedactingNothing(m: string, patterns: seq<string>)
    requires m != ""
    requires NonEmpty(patterns)
    ensures RedactAll(m, patterns, "") == ""
  {
    if patterns != [] {
      RedactingNothing(m, patterns[..|patterns| - 1]);
    }
  }
}
