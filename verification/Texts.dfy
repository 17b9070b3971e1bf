// Finding and replacing in texts and byte strings, left to right and without overlap, as `find` and `replace` do.
module Texts {

  newtype Byte = x: int | 0 <= x < 256

  type Bytes = seq<Byte>

  predicate MatchAt<T(==)>(s: seq<T>, p: seq<T>, i: int) {
    0 <= i && i + |p| <= |s| && s[i..i + |p|] == p
  }

  /** `s.find(p, i)`. */
  function FindFrom<T(==)>(s: seq<T>, p: seq<T>, i: nat): (r: int)
    ensures r == -1 || i <= r <= |s| - |p|
    decreases |s| - i
  {
    if i + |p| > |s| then -1 else if s[i..i + |p|] == p then i else FindFrom(s, p, i + 1)
  }

  /** It is the first match at or after `i`, or there is none. */
  lemma {:induction false} FindIsFirst<T>(s: seq<T>, p: seq<T>, i: nat)
    ensures var r := FindFrom(s, p, i);
            if r == -1 then forall j | i <= j :: !MatchAt(s, p, j)
            else MatchAt(s, p, r) && forall j | i <= j < r :: !MatchAt(s, p, j)
    decreases |s| - i
  {
    if i + |p| <= |s| && s[i..i + |p|] != p {
      FindIsFirst(s, p, i + 1);
    }
  }

  /** `s.replace(p, mark)`. */
  function Replace(s: string, p: string, mark: string): string
    requires p != ""
  {
    if |s| < |p| then s
    else if s[..|p|] == p then mark + Replace(s[|p|..], p, mark)
    else [s[0]] + Replace(s[1..], p, mark)
  }

  ghost predicate Contains(s: string, p: string) {
    exists i :: MatchAt(s, p, i)
  }

  lemma {:induction false} ReplaceWithoutMatch(s: string, p: string, mark: string)
    requires p != "" && !Contains(s, p)
    ensures Replace(s, p, mark) == s
  {
    if |s| >= |p| {
      assert !MatchAt(s, p, 0);
      forall i ensures !MatchAt(s[1..], p, i) {
        if MatchAt(s[1..], p, i) {
          assert s[1..][i..i + |p|] == s[i + 1..i + 1 + |p|];
          assert MatchAt(s, p, i + 1);
        }
      }
      ReplaceWithoutMatch(s[1..], p, mark);
    }
  }

  /** What `str.lstrip` strips. */
  predicate IsSpace(c: char) {
    var n := c as int;
    (9 <= n <= 13) || (28 <= n <= 32) || n == 0x85 || n == 0xA0 || n == 0x1680 || (0x2000 <= n <= 0x200A)
    || n == 0x2028 || n == 0x2029 || n == 0x202F || n == 0x205F || n == 0x3000
  }

  function LStrip(s: string): string {
    if s != "" && IsSpace(s[0]) then LStrip(s[1..]) else s
  }
}
