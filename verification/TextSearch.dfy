// Token counting and ranking: the reference scan, the compiled SQL expression, and their one meaning.
module TextSearch {
  import opened Texts

  predicate IsToken(t: string) {
    t != "" && forall i | 0 <= i < |t| :: t[i] != ' '
  }

  /** A normalized text or clause: its tokens. */
  predicate Tokens(ts: seq<string>) {
    forall t <- ts :: IsToken(t)
  }

  /** `" ".join(ts)`. */
  function Join(ts: seq<string>): string {
    if ts == [] then "" else if |ts| == 1 then ts[0] else ts[0] + " " + Join(ts[1..])
  }

  /** Every token with the space before it. */
  function Lead(ts: seq<string>): string {
    if ts == [] then "" else " " + ts[0] + Lead(ts[1..])
  }

  function Padded(s: string): string {
    " " + s + " "
  }

  lemma {:induction false} PaddedJoin(ts: seq<string>)
    requires ts != []
    ensures Padded(Join(ts)) == Lead(ts) + " "
  {
    if |ts| == 1 {
      assert ts[1..] == [];
      assert Lead(ts) == " " + ts[0] + "";
    } else {
      PaddedJoin(ts[1..]);
      assert Padded(Join(ts)) == " " + ts[0] + Padded(Join(ts[1..]));
    }
  }

  lemma {:induction false} LeadSplits(a: seq<string>, b: seq<string>)
    ensures Lead(a + b) == Lead(a) + Lead(b)
  {
    if a == [] {
      assert a + b == b;
    } else {
      assert (a + b)[1..] == a[1..] + b;
      LeadSplits(a[1..], b);
    }
  }

  // ----- What is counted, on tokens -----

  predicate StartsWith(hs: seq<string>, ns: seq<string>) {
    |ns| <= |hs| && hs[..|ns|] == ns
  }

  /** Non-overlapping windows of `hs` that equal `ns`, taken greedily from the left. */
  function Windows(hs: seq<string>, ns: seq<string>): nat
    requires ns != []
  {
    if hs == [] then 0
    else if StartsWith(hs, ns) then 1 + Windows(hs[|ns|..], ns)
    else Windows(hs[1..], ns)
  }

  /** The same, but a window also spends the separator after it, so the next token cannot start one. */
  function SpacedWindows(hs: seq<string>, ns: seq<string>): nat
    requires ns != []
  {
    if hs == [] then 0
    else if StartsWith(hs, ns) then 1 + if |hs| == |ns| then 0 else SpacedWindows(hs[|ns| + 1..], ns)
    else SpacedWindows(hs[1..], ns)
  }

  /** Dropping at most one window's worth of tokens loses at most one window, and never gains one. */
  lemma {:induction false} DroppingTokens(hs: seq<string>, ns: seq<string>, k: nat)
    requires ns != [] && k <= |ns| && k <= |hs|
    ensures Windows(hs[k..], ns) <= Windows(hs, ns) <= 1 + Windows(hs[k..], ns)
    decreases |hs|
  {
    if hs == [] || k == 0 {
      assert hs[0..] == hs;
    } else if StartsWith(hs, ns) {
      assert hs[k..][|ns| - k..] == hs[|ns|..];
      DroppingTokens(hs[k..], ns, |ns| - k);
    } else {
      assert hs[1..][k - 1..] == hs[k..];
      DroppingTokens(hs[1..], ns, k - 1);
    }
  }

  /** Spending the separator at worst halves the count. */
  lemma {:induction false} SpacedBounds(hs: seq<string>, ns: seq<string>)
    requires ns != []
    ensures SpacedWindows(hs, ns) <= Windows(hs, ns) <= 2 * SpacedWindows(hs, ns)
    decreases |hs|
  {
    if hs != [] {
      if !StartsWith(hs, ns) {
        SpacedBounds(hs[1..], ns);
      } else if |hs| > |ns| {
        var rest := hs[|ns|..];
        assert rest[1..] == hs[|ns| + 1..];
        SpacedBounds(rest[1..], ns);
        DroppingTokens(rest, ns, 1);
      }
    }
  }

  function Equal(hs: seq<string>, t: string): nat {
    if hs == [] then 0 else (if hs[0] == t then 1 else 0) + Equal(hs[1..], t)
  }

  /** For a single term the windows are the tokens equal to it. */
  lemma {:induction false} TermCountIsExact(hs: seq<string>, t: string)
    ensures Windows(hs, [t]) == Equal(hs, t)
  {
    if hs != [] {
      assert hs[..1] == [hs[0]];
      TermCountIsExact(hs[1..], t);
    }
  }

  // ----- Text against tokens -----

  lemma {:induction false} SpaceDelimits(a: string, b: string, x: string, y: string)
    requires forall i | 0 <= i < |a| :: a[i] != ' '
    requires forall i | 0 <= i < |b| :: b[i] != ' '
    requires x != "" && y != "" && x[0] == ' ' && y[0] == ' '
    ensures a + x <= b + y <==> a == b && x <= y
    decreases |a|
  {
    if a == "" {
      if b != "" {
        assert (a + x)[0] != (b + y)[0];
      } else {
        assert a + x == x && b + y == y;
      }
    } else if b == "" || a[0] != b[0] {
      assert (a + x)[0] != (b + y)[0];
      assert !(a + x <= b + y);
    } else {
      SpaceDelimits(a[1..], b[1..], x, y);
      assert a == [a[0]] + a[1..] && b == [b[0]] + b[1..];
      assert a + x == [a[0]] + (a[1..] + x) && b + y == [b[0]] + (b[1..] + y);
      PrefixCons(a[0], a[1..] + x, b[1..] + y);
    }
  }

  lemma PrefixCons(c: char, x: string, y: string)
    ensures [c] + x <= [c] + y <==> x <= y
  {
    if [c] + x <= [c] + y {
      assert ([c] + y)[..1 + |x|][1..] == y[..|x|];
      assert ([c] + x)[1..] == x;
    }
    if x <= y {
      assert ([c] + y)[..1 + |x|] == [c] + y[..|x|];
    }
  }

  lemma StartsWithCons(h: string, hs: seq<string>, n: string, ns: seq<string>)
    ensures StartsWith([h] + hs, [n] + ns) <==> n == h && StartsWith(hs, ns)
  {
    if |ns| <= |hs| {
      assert ([h] + hs)[..1 + |ns|] == [h] + hs[..|ns|];
      assert ([h] + hs[..|ns|])[1..] == hs[..|ns|] && ([n] + ns)[1..] == ns;
    }
  }

  lemma LeadCons(t: string, ts: seq<string>)
    ensures Lead([t] + ts) + " " == [' '] + (t + (Lead(ts) + " "))
    ensures (Lead(ts) + " ")[0] == ' '
  {
    assert ([t] + ts)[1..] == ts;
  }

  /** At a token boundary the padded needle matches exactly where the needle's tokens stand. */
  lemma {:induction false} BoundaryMatch(hs: seq<string>, ns: seq<string>)
    requires Tokens(hs) && Tokens(ns)
    ensures Lead(ns) + " " <= Lead(hs) + " " <==> StartsWith(hs, ns)
  {
    if ns == [] {
      assert Lead(ns) + " " == " ";
      assert hs[..0] == [];
    } else if hs == [] {
      assert |Lead(ns) + " "| > 1;
    } else {
      BoundaryMatch(hs[1..], ns[1..]);
      var x, y := Lead(ns[1..]) + " ", Lead(hs[1..]) + " ";
      assert ns == [ns[0]] + ns[1..] && hs == [hs[0]] + hs[1..];
      assert IsToken(ns[0]) && IsToken(hs[0]);
      LeadCons(ns[0], ns[1..]);
      LeadCons(hs[0], hs[1..]);
      SpaceDelimits(ns[0], hs[0], x, y);
      PrefixCons(' ', ns[0] + x, hs[0] + y);
      StartsWithCons(hs[0], hs[1..], ns[0], ns[1..]);
    }
  }

  lemma LeadOfWindow(ns: seq<string>, rest: seq<string>)
    ensures var (s, p) := (Lead(ns + rest) + " ", Lead(ns) + " ");
            && p <= s && s[|p| - 1..] == Lead(rest) + " "
            && s[|p|..] == if rest == [] then "" else rest[0] + (Lead(rest[1..]) + " ")
  {
    LeadSplits(ns, rest);
    var s, p, tail := Lead(ns + rest) + " ", Lead(ns) + " ", Lead(rest) + " ";
    assert s == Lead(ns) + tail;
    assert tail[0] == ' ' && s[..|p|] == p;
    assert s[|p|..] == tail[1..];
    if rest != [] {
      assert rest == [rest[0]] + rest[1..];
      LeadCons(rest[0], rest[1..]);
    }
  }

  // ----- The scan -----

  /** What the scan counts: consecutive matches share one separator. */
  function Scan(s: string, p: string): nat
    requires |p| >= 2
  {
    if |s| < |p| then 0 else if s[..|p|] == p then 1 + Scan(s[|p| - 1..], p) else Scan(s[1..], p)
  }

  function Occurrences(haystack: string, needle: string): nat {
    if needle == "" || haystack == "" then 0 else Scan(Padded(haystack), Padded(needle))
  }

  lemma {:induction false} ScanFinds(s: string, p: string, i: nat)
    requires |p| >= 2 && i <= |s|
    ensures var j := FindFrom(s, p, i);
            Scan(s[i..], p) == if j < 0 then 0 else 1 + Scan(s[j + |p| - 1..], p)
    decreases |s| - i
  {
    if i + |p| <= |s| {
      assert s[i..][..|p|] == s[i..i + |p|];
      assert s[i..][|p| - 1..] == s[i + |p| - 1..];
      if s[i..i + |p|] != p {
        assert s[i..][1..] == s[i + 1..];
        ScanFinds(s, p, i + 1);
      }
    }
  }

  /** The loop of `count_token_occurrences`, on padded texts. */
  method CountMatches(padded: string, target: string) returns (count: nat)
    requires |target| >= 2
    ensures count == Scan(padded, target)
  {
    count := 0;
    var start := 0;
    assert padded[0..] == padded;
    while true
      invariant 0 <= start <= |padded|
      invariant Scan(padded, target) == count + Scan(padded[start..], target)
      decreases |padded| - start
    {
      ScanFinds(padded, target, start);
      var index := FindFrom(padded, target, start);
      if index < 0 {
        return;
      }
      count := count + 1;
      start := index + |target| - 1;
    }
  }

  /** `count_token_occurrences`. */
  method CountTokenOccurrences(haystack: string, needle: string) returns (count: nat)
    ensures count == Occurrences(haystack, needle)
  {
    if needle == "" || haystack == "" {
      return 0;
    }
    count := CountMatches(Padded(haystack), Padded(needle));
  }

  lemma {:induction false} ScanSkips(t: string, rest: string, p: string)
    requires |p| >= 2 && p[0] == ' ' && forall i | 0 <= i < |t| :: t[i] != ' '
    ensures Scan(t + rest, p) == Scan(rest, p)
  {
    if t == "" {
      assert t + rest == rest;
    } else {
      ScanSkips(t[1..], rest, p);
      assert (t + rest)[1..] == t[1..] + rest;
      if |p| <= |t + rest| {
        assert (t + rest)[..|p|][0] == t[0];
      } else {
        assert |p| > |rest|;
      }
    }
  }

  lemma ScanStep(s: string, p: string)
    requires |p| >= 2
    ensures p <= s ==> Scan(s, p) == 1 + Scan(s[|p| - 1..], p)
    ensures !(p <= s) && s != "" ==> Scan(s, p) == Scan(s[1..], p)
  {
  }

  /** A window that stands here is counted, and the scan goes on at the separator after it. */
  lemma ScanTakes(ns: seq<string>, rest: seq<string>)
    requires ns != []
    ensures Scan(Lead(ns + rest) + " ", Lead(ns) + " ") == 1 + Scan(Lead(rest) + " ", Lead(ns) + " ")
  {
    LeadOfWindow(ns, rest);
    ScanStep(Lead(ns + rest) + " ", Lead(ns) + " ");
  }

  /** A token no window starts at is passed over. */
  lemma ScanPasses(h: string, hs: seq<string>, p: string)
    requires IsToken(h) && |p| >= 2 && p[0] == ' ' && !(p <= Lead([h] + hs) + " ")
    ensures Scan(Lead([h] + hs) + " ", p) == Scan(Lead(hs) + " ", p)
  {
    LeadCons(h, hs);
    ScanStep(Lead([h] + hs) + " ", p);
    ScanSkips(h, Lead(hs) + " ", p);
  }

  lemma {:induction false} ScanIsWindows(hs: seq<string>, ns: seq<string>)
    requires Tokens(hs) && Tokens(ns) && ns != []
    ensures Scan(Lead(hs) + " ", Lead(ns) + " ") == Windows(hs, ns)
    decreases |hs|
  {
    BoundaryMatch(hs, ns);
    if hs == [] {
      assert |Lead(ns)| > 0;
    } else if StartsWith(hs, ns) {
      assert hs == ns + hs[|ns|..];
      ScanTakes(ns, hs[|ns|..]);
      ScanIsWindows(hs[|ns|..], ns);
    } else {
      assert hs == [hs[0]] + hs[1..] && IsToken(hs[0]);
      ScanPasses(hs[0], hs[1..], Lead(ns) + " ");
      ScanIsWindows(hs[1..], ns);
    }
  }

  // ----- The SQL expression -----

  /** `(LENGTH(padded) - LENGTH(REPLACE(padded, target, ''))) / LENGTH(target)`. */
  function SqlOccurrences(column: string, value: string): int {
    (|Padded(column)| - |Replace(Padded(column), Padded(value), "")|) / |Padded(value)|
  }

  /** How often REPLACE removes. */
  function Removals(s: string, p: string): nat
    requires p != ""
  {
    if |s| < |p| then 0 else if s[..|p|] == p then 1 + Removals(s[|p|..], p) else Removals(s[1..], p)
  }

  lemma {:induction false} RemovedLength(s: string, p: string)
    requires p != ""
    ensures |s| - |Replace(s, p, "")| == |p| * Removals(s, p)
  {
    if |s| >= |p| {
      if s[..|p|] == p {
        RemovedLength(s[|p|..], p);
        assert |p| * (1 + Removals(s[|p|..], p)) == |p| + |p| * Removals(s[|p|..], p);
      } else {
        RemovedLength(s[1..], p);
      }
    }
  }

  lemma {:induction false} RemovalsSkip(t: string, rest: string, p: string)
    requires p != "" && p[0] == ' ' && forall i | 0 <= i < |t| :: t[i] != ' '
    ensures Removals(t + rest, p) == Removals(rest, p)
  {
    if t == "" {
      assert t + rest == rest;
    } else {
      RemovalsSkip(t[1..], rest, p);
      assert (t + rest)[1..] == t[1..] + rest;
      if |p| <= |t + rest| {
        assert (t + rest)[..|p|][0] == t[0];
      } else {
        assert |p| > |rest|;
      }
    }
  }

  lemma RemovalsStep(s: string, p: string)
    requires p != ""
    ensures p <= s ==> Removals(s, p) == 1 + Removals(s[|p|..], p)
    ensures !(p <= s) && s != "" ==> Removals(s, p) == Removals(s[1..], p)
  {
  }

  lemma {:induction false} RemovalsAreSpacedWindows(hs: seq<string>, ns: seq<string>)
    requires Tokens(hs) && Tokens(ns) && ns != []
    ensures Removals(Lead(hs) + " ", Lead(ns) + " ") == SpacedWindows(hs, ns)
    decreases |hs|
  {
    var s, p := Lead(hs) + " ", Lead(ns) + " ";
    BoundaryMatch(hs, ns);
    RemovalsStep(s, p);
    if hs == [] {
      assert |p| > 1;
    } else if StartsWith(hs, ns) {
      var rest := hs[|ns|..];
      assert hs == ns + rest;
      LeadOfWindow(ns, rest);
      if rest != [] {
        assert rest[0] in hs && IsToken(rest[0]);
        RemovalsSkip(rest[0], Lead(rest[1..]) + " ", p);
        assert rest[1..] == hs[|ns| + 1..];
        RemovalsAreSpacedWindows(rest[1..], ns);
      }
    } else {
      assert hs == [hs[0]] + hs[1..] && IsToken(hs[0]);
      LeadCons(hs[0], hs[1..]);
      RemovalsSkip(hs[0], Lead(hs[1..]) + " ", p);
      RemovalsAreSpacedWindows(hs[1..], ns);
    }
  }

  // ----- The two counts -----

  lemma ScanCountsWindows(hs: seq<string>, ns: seq<string>)
    requires Tokens(hs) && Tokens(ns) && ns != []
    ensures Occurrences(Join(hs), Join(ns)) == Windows(hs, ns)
  {
    JoinIsEmpty(hs);
    JoinIsEmpty(ns);
    if hs != [] {
      PaddedJoin(hs);
      PaddedJoin(ns);
      ScanIsWindows(hs, ns);
    }
  }

  lemma JoinIsEmpty(ts: seq<string>)
    requires Tokens(ts)
    ensures Join(ts) == "" <==> ts == []
  {
    if ts != [] {
      assert IsToken(ts[0]);
    }
  }

  lemma SqlCountsSpacedWindows(hs: seq<string>, ns: seq<string>)
    requires Tokens(hs) && Tokens(ns) && ns != []
    ensures SqlOccurrences(Join(hs), Join(ns)) == SpacedWindows(hs, ns)
  {
    var column, value := Padded(Join(hs)), Padded(Join(ns));
    RemovedLength(column, value);
    RemovalsInPadded(hs, ns);
    DivideBack(|value|, Removals(column, value));
  }

  lemma RemovalsInPadded(hs: seq<string>, ns: seq<string>)
    requires Tokens(hs) && Tokens(ns) && ns != []
    ensures Removals(Padded(Join(hs)), Padded(Join(ns))) == SpacedWindows(hs, ns)
  {
    JoinIsEmpty(ns);
    PaddedJoin(ns);
    if hs == [] {
      assert |Padded(Join(hs))| < |Padded(Join(ns))|;
    } else {
      PaddedJoin(hs);
      RemovalsAreSpacedWindows(hs, ns);
    }
  }

  lemma DivideBack(n: nat, k: nat)
    requires n > 0
    ensures (n * k) / n == k
  {
    var q, r := (n * k) / n, (n * k) % n;
    assert n * (k - q) == r && n * (q - k) == -r;
    if k - q >= 1 {
      SmallMultiple(n, k - q);
    } else if q - k >= 1 {
      SmallMultiple(n, q - k);
    }
  }

  lemma SmallMultiple(n: nat, d: nat)
    requires d >= 1
    ensures n * d >= n
  {
  }

  /**
   * On space-joined tokens the SQL count never exceeds the scan and never falls below half of it;
   * in particular both are zero together.
   */
  lemma SqlCountBounds(hs: seq<string>, ns: seq<string>)
    requires Tokens(hs) && Tokens(ns) && ns != []
    ensures var (scan, sql) := (Occurrences(Join(hs), Join(ns)), SqlOccurrences(Join(hs), Join(ns)));
            sql <= scan <= 2 * sql && (sql > 0 <==> scan > 0)
  {
    ScanCountsWindows(hs, ns);
    SqlCountsSpacedWindows(hs, ns);
    SpacedBounds(hs, ns);
  }

  // ----- Ranking -----

  datatype Clause = Clause(tokens: seq<string>, isPhrase: bool)

  predicate GoodClauses(clauses: seq<Clause>) {
    forall c <- clauses :: c.tokens != [] && Tokens(c.tokens)
  }

  const TITLE_CLAUSE_POINTS := 32
  const TITLE_TERM_POINTS := 8
  const TITLE_TERM_CAP := 4
  const BODY_PHRASE_POINTS := 4
  const BODY_PHRASE_CAP := 4
  const BODY_TERM_POINTS := 1
  const BODY_TERM_CAP := 8

  function Min(a: int, b: int): int {
    if a <= b then a else b
  }

  /** The two ways to count a needle in a text. */
  datatype Counter = Reference | Sql {

    function Count(text: string, needle: string): int {
      if Reference? then Occurrences(text, needle) else SqlOccurrences(text, needle)
    }
  }

  function TermPoints(tokens: seq<string>, title: string, body: string, count: Counter): int {
    if tokens == [] then 0
    else
      var term := tokens[|tokens| - 1];
      TermPoints(tokens[..|tokens| - 1], title, body, count)
      + TITLE_TERM_POINTS * Min(TITLE_TERM_CAP, count.Count(title, term))
      + BODY_TERM_POINTS * Min(BODY_TERM_CAP, count.Count(body, term))
  }

  function ClausePoints(c: Clause, title: string, body: string, count: Counter): int {
    (if count.Count(title, Join(c.tokens)) > 0 then TITLE_CLAUSE_POINTS else 0)
    + TermPoints(c.tokens, title, body, count)
    + if c.isPhrase then BODY_PHRASE_POINTS * Min(BODY_PHRASE_CAP, count.Count(body, Join(c.tokens))) else 0
  }

  function Rank(clauses: seq<Clause>, title: string, body: string, count: Counter): int {
    if clauses == [] then 0
    else Rank(clauses[..|clauses| - 1], title, body, count) + ClausePoints(clauses[|clauses| - 1], title, body, count)
  }

  function Capped(cap: nat, n: nat): nat {
    if n < cap then n else cap
  }

  /** 8 points for each of up to 4 tokens of the title equal to a term, 1 for each of up to 8 of the body, over all terms. */
  function TermPointsByTokens(terms: seq<string>, title: seq<string>, body: seq<string>): nat {
    if |terms| == 0 then 0
    else
      TermPointsByTokens(terms[..|terms| - 1], title, body)
      + 8 * Capped(4, Equal(title, terms[|terms| - 1])) + Capped(8, Equal(body, terms[|terms| - 1]))
  }

  lemma {:induction false} TermPointsAreByTokens(terms: seq<string>, title: seq<string>, body: seq<string>)
    requires Tokens(terms) && Tokens(title) && Tokens(body)
    ensures TermPoints(terms, Join(title), Join(body), Reference) == TermPointsByTokens(terms, title, body)
  {
    if |terms| != 0 {
      var term := terms[|terms| - 1];
      TermPointsAreByTokens(terms[..|terms| - 1], title, body);
      assert Join([term]) == term;
      ScanCountsWindows(title, [term]);
      ScanCountsWindows(body, [term]);
      TermCountIsExact(title, term);
      TermCountIsExact(body, term);
    }
  }

  /** The windows of a clause anywhere in a text: none are counted exactly if there are none. */
  lemma {:induction false} CountedExactlyIfThere(hs: seq<string>, ns: seq<string>)
    requires ns != []
    ensures Windows(hs, ns) > 0 <==> exists k: nat :: k <= |hs| && StartsWith(hs[k..], ns)
  {
    if hs == [] {
      assert hs[0..] == [];
    } else if StartsWith(hs, ns) {
      assert hs[0..] == hs;
    } else {
      CountedExactlyIfThere(hs[1..], ns);
      if k: nat :| k <= |hs| && StartsWith(hs[k..], ns) {
        assert hs[0..] == hs && k > 0 && hs[1..][k - 1..] == hs[k..];
      }
      if k: nat :| k <= |hs| - 1 && StartsWith(hs[1..][k..], ns) {
        assert hs[1..][k..] == hs[k + 1..];
      }
    }
  }

  /**
   * What a clause scores, in tokens: 32 if it occurs in the title, its terms, and for a phrase 4 for each
   * of up to 4 non-overlapping windows of the body.
   */
  lemma ClausePointsAreByTokens(c: Clause, title: seq<string>, body: seq<string>)
    requires GoodClauses([c]) && Tokens(title) && Tokens(body)
    ensures ClausePoints(c, Join(title), Join(body), Reference)
         == (if exists k: nat :: k <= |title| && StartsWith(title[k..], c.tokens) then 32 else 0)
            + TermPointsByTokens(c.tokens, title, body)
            + (if c.isPhrase then 4 * Capped(4, Windows(body, c.tokens)) else 0)
  {
    assert c in [c];
    TermPointsAreByTokens(c.tokens, title, body);
    ScanCountsWindows(title, c.tokens);
    ScanCountsWindows(body, c.tokens);
    CountedExactlyIfThere(title, c.tokens);
  }

  /** `rank_document`. */
  method RankDocument(clauses: seq<Clause>, title: string, body: string) returns (score: int)
    ensures score == Rank(clauses, title, body, Reference)
  {
    score := 0;
    for i := 0 to |clauses|
      invariant score == Rank(clauses[..i], title, body, Reference)
    {
      assert clauses[..i + 1][..i] == clauses[..i];
      var clause := clauses[i];
      var whole := CountTokenOccurrences(title, Join(clause.tokens));
      if whole != 0 {
        score := score + TITLE_CLAUSE_POINTS;
      }
      ghost var base := score;
      for j := 0 to |clause.tokens|
        invariant score == base + TermPoints(clause.tokens[..j], title, body, Reference)
      {
        assert clause.tokens[..j + 1][..j] == clause.tokens[..j];
        var inTitle := CountTokenOccurrences(title, clause.tokens[j]);
        score := score + TITLE_TERM_POINTS * Min(TITLE_TERM_CAP, inTitle);
        var inBody := CountTokenOccurrences(body, clause.tokens[j]);
        score := score + BODY_TERM_POINTS * Min(BODY_TERM_CAP, inBody);
      }
      assert clause.tokens[..|clause.tokens|] == clause.tokens;
      if clause.isPhrase {
        var phrases := CountTokenOccurrences(body, Join(clause.tokens));
        score := score + BODY_PHRASE_POINTS * Min(BODY_PHRASE_CAP, phrases);
      }
    }
    assert clauses[..|clauses|] == clauses;
  }

  lemma {:induction false} TermPointsBounds(tokens: seq<string>, title: seq<string>, body: seq<string>)
    requires Tokens(tokens) && Tokens(title) && Tokens(body)
    ensures var (t, b) := (Join(title), Join(body));
            0 <= TermPoints(tokens, t, b, Sql) <= TermPoints(tokens, t, b, Reference)
              <= 2 * TermPoints(tokens, t, b, Sql)
  {
    if tokens != [] {
      var front, term := tokens[..|tokens| - 1], tokens[|tokens| - 1];
      TermPointsBounds(front, title, body);
      assert Join([term]) == term && Tokens([term]);
      SqlCountBounds(title, [term]);
      SqlCountBounds(body, [term]);
    }
  }

  lemma ClausePointsBounds(c: Clause, title: seq<string>, body: seq<string>)
    requires c.tokens != [] && Tokens(c.tokens) && Tokens(title) && Tokens(body)
    ensures var (t, b) := (Join(title), Join(body));
            0 <= ClausePoints(c, t, b, Sql) <= ClausePoints(c, t, b, Reference)
              <= 2 * ClausePoints(c, t, b, Sql)
  {
    TermPointsBounds(c.tokens, title, body);
    SqlCountBounds(title, c.tokens);
    SqlCountBounds(body, c.tokens);
  }

  /** The compiled SQL rank is at most the reference rank and at least half of it. */
  lemma {:induction false} SqlRankBounds(clauses: seq<Clause>, title: seq<string>, body: seq<string>)
    requires GoodClauses(clauses) && Tokens(title) && Tokens(body)
    ensures var (t, b) := (Join(title), Join(body));
            0 <= Rank(clauses, t, b, Sql) <= Rank(clauses, t, b, Reference) <= 2 * Rank(clauses, t, b, Sql)
  {
    if clauses != [] {
      SqlRankBounds(clauses[..|clauses| - 1], title, body);
      ClausePointsBounds(clauses[|clauses| - 1], title, body);
    }
  }

  /** `document_matches_exclusions`, with either count. */
  predicate Excluded(exclusions: seq<Clause>, text: string, count: Counter) {
    exists c <- exclusions :: count.Count(text, Join(c.tokens)) != 0
  }

  /** A document is excluded exactly if some exclusion occurs in it as consecutive tokens. */
  lemma ExcludedExactlyWhen(exclusions: seq<Clause>, text: seq<string>)
    requires GoodClauses(exclusions) && Tokens(text)
    ensures Excluded(exclusions, Join(text), Reference)
       <==> exists c, k: nat :: c in exclusions && k <= |text| && StartsWith(text[k..], c.tokens)
  {
    forall c <- exclusions
      ensures Reference.Count(Join(text), Join(c.tokens)) != 0 <==> exists k: nat :: k <= |text| && StartsWith(text[k..], c.tokens)
    {
      ScanCountsWindows(text, c.tokens);
      CountedExactlyIfThere(text, c.tokens);
    }
  }

  /** Both counts exclude the same documents. */
  lemma ExclusionsAgree(exclusions: seq<Clause>, text: seq<string>)
    requires GoodClauses(exclusions) && Tokens(text)
    ensures Excluded(exclusions, Join(text), Sql) <==> Excluded(exclusions, Join(text), Reference)
  {
    forall c <- exclusions ensures Sql.Count(Join(text), Join(c.tokens)) != 0 <==> Reference.Count(Join(text), Join(c.tokens)) != 0 {
      SqlCountBounds(text, c.tokens);
    }
  }
}
