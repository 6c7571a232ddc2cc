/** The handful of Python `str` operations the core relies on: substring test, ASCII
    lower-casing, left-to-right replacement, `strip`, `split` and `join`. Strings are
    sequences of characters. */
module Text {
  import opened Wrappers

  predicate StartsWith(s: string, prefix: string) {
    |prefix| <= |s| && s[..|prefix|] == prefix
  }

  /** `pat in s`: some suffix of `s` starts with `pat`. */
  predicate Contains(s: string, pat: string)
    decreases |s|
  {
    StartsWith(s, pat) || (s != [] && Contains(s[1..], pat))
  }

  predicate OccursAt(s: string, pat: string, i: int) {
    0 <= i && i + |pat| <= |s| && s[i..i + |pat|] == pat
  }

  /** `Contains` holds exactly when `pat` occurs at some index of `s`. */
  lemma {:induction false} ContainsAt(s: string, pat: string)
    ensures Contains(s, pat) <==> exists i :: OccursAt(s, pat, i)
    decreases |s|
  {
    if StartsWith(s, pat) {
      assert OccursAt(s, pat, 0);
    }
    if OccursAt(s, pat, 0) {
      assert StartsWith(s, pat);
    }
    if s != [] {
      ContainsAt(s[1..], pat);
      if exists i :: OccursAt(s[1..], pat, i) {
        var i :| OccursAt(s[1..], pat, i);
        assert s[i + 1..i + 1 + |pat|] == s[1..][i..i + |pat|];
        assert OccursAt(s, pat, i + 1);
      }
      if exists i :: OccursAt(s, pat, i) {
        var i :| OccursAt(s, pat, i);
        if i > 0 {
          assert s[1..][i - 1..i - 1 + |pat|] == s[i..i + |pat|];
          assert OccursAt(s[1..], pat, i - 1);
        }
      }
    } else {
      assert forall i :: OccursAt(s, pat, i) ==> i == 0;
    }
  }

  function LowerChar(c: char): char {
    if 'A' <= c <= 'Z' then (c as int + 32) as char else c
  }

  /** `str.lower()` restricted to ASCII letters. */
  function Lower(s: string): (r: string)
    ensures |r| == |s|
    ensures forall i | 0 <= i < |s| :: r[i] == LowerChar(s[i])
  {
    seq(|s|, i requires 0 <= i < |s| => LowerChar(s[i]))
  }

  /** `s.replace(pat, rep)`: every non-overlapping occurrence, scanning left to right. A
      string without the pattern is unchanged; one with it holds the replacement. */
  function ReplaceAll(s: string, pat: string, rep: string): (r: string)
    requires pat != []
    ensures !Contains(s, pat) ==> r == s
    ensures Contains(s, pat) ==> Contains(r, rep)
    decreases |s|
  {
    if StartsWith(s, pat) then
      var r := rep + ReplaceAll(s[|pat|..], pat, rep);
      assert StartsWith(r, rep) by { assert r[..|rep|] == rep; }
      r
    else if s == [] then []
    else
      var rest := ReplaceAll(s[1..], pat, rep);
      var r := [s[0]] + rest;
      assert r[1..] == rest;
      r
  }

  /** Dropping the first character moves every occurrence one place to the left. */
  lemma OccursAtTail(s: string, pat: string, j: int)
    requires s != [] && 0 <= j
    ensures OccursAt(s[1..], pat, j) <==> OccursAt(s, pat, j + 1)
  {
    if j + |pat| <= |s| - 1 {
      assert s[1..][j..j + |pat|] == s[j + 1..j + 1 + |pat|];
    }
  }

  /** The leftmost occurrence of the pattern is replaced: what comes before it is kept, and the
      replacement goes on after it. */
  lemma {:induction false} ReplaceLeftmost(s: string, pat: string, rep: string, i: nat)
    requires pat != [] && OccursAt(s, pat, i)
    requires forall j | 0 <= j < i :: !OccursAt(s, pat, j)
    ensures ReplaceAll(s, pat, rep) == s[..i] + rep + ReplaceAll(s[i + |pat|..], pat, rep)
    decreases i, 0
  {
    if i == 0 {
      assert StartsWith(s, pat) by { assert s[..|pat|] == s[0..|pat|]; }
      assert ReplaceAll(s, pat, rep) == rep + ReplaceAll(s[i + |pat|..], pat, rep);
      assert s[..i] + rep == rep;
    } else {
      var t := s[1..];
      var b := ReplaceAll(s[i + |pat|..], pat, rep);
      assert OccursAt(t, pat, i - 1) && forall j | 0 <= j < i - 1 :: !OccursAt(t, pat, j) by {
        OccursAtTail(s, pat, i - 1);
        forall j | 0 <= j < i - 1 ensures !OccursAt(t, pat, j) {
          OccursAtTail(s, pat, j);
        }
      }
      calc {
        ReplaceAll(s, pat, rep);
        { assert !OccursAt(s, pat, 0); assert !StartsWith(s, pat); }
        [s[0]] + ReplaceAll(t, pat, rep);
        { TailStep(t, s[i + |pat|..], pat, rep, i - 1); }
        [s[0]] + (t[..i - 1] + rep + b);
        { ConsSlices(s, i, rep, b); }
        s[..i] + rep + b;
      }
    }
  }

  /** The inductive step of `ReplaceLeftmost`, stated over the tail `t` and what follows the
      occurrence, `rest`. */
  lemma TailStep(t: string, rest: string, pat: string, rep: string, i: nat)
    requires pat != [] && OccursAt(t, pat, i)
    requires forall j | 0 <= j < i :: !OccursAt(t, pat, j)
    requires t[i + |pat|..] == rest
    ensures ReplaceAll(t, pat, rep) == t[..i] + rep + ReplaceAll(rest, pat, rep)
    decreases i, 1
  {
    ReplaceLeftmost(t, pat, rep, i);
  }

  /** Putting the first character back in front of a slice of the tail. */
  lemma ConsSlices(s: string, i: nat, x: string, y: string)
    requires 0 < i <= |s|
    ensures [s[0]] + (s[1..][..i - 1] + x + y) == s[..i] + x + y
  {
    assert [s[0]] + s[1..][..i - 1] == s[..i];
  }

  /** `str.isspace` on one character, for the ASCII range: space, tab, the line and page
      breaks, and the four information separators. */
  predicate Space(c: char) {
    c == ' ' || c == '\t' || c == '\n' || c == '\r' || c == '\U{0B}' || c == '\U{0C}'
    || c == '\U{1C}' || c == '\U{1D}' || c == '\U{1E}' || c == '\U{1F}'
  }

  predicate Blank(s: string) {
    forall k | 0 <= k < |s| :: Space(s[k])
  }

  /** The index of the first `c` in `s`. */
  function FirstIndex(s: string, c: char): (r: Option<nat>)
    ensures r.Some? ==> r.value < |s| && s[r.value] == c && forall k | 0 <= k < r.value :: s[k] != c
    ensures r.None? ==> forall k | 0 <= k < |s| :: s[k] != c
  {
    if s == [] then None
    else if s[0] == c then Some(0)
    else
      match FirstIndex(s[1..], c)
      case None => None
      case Some(i) => Some(i + 1)
  }

  /** The number of space characters at the start of `s`. */
  function LeadingSpaces(s: string): (n: nat)
    ensures n <= |s|
    ensures forall k | 0 <= k < n :: Space(s[k])
    ensures n < |s| ==> !Space(s[n])
  {
    if s == [] || !Space(s[0]) then 0 else 1 + LeadingSpaces(s[1..])
  }

  /** The length of `s` without the space characters at its end. */
  function TrailingEnd(s: string): (m: nat)
    ensures m <= |s|
    ensures forall k | m <= k < |s| :: Space(s[k])
    ensures m > 0 ==> !Space(s[m - 1])
  {
    if s == [] || !Space(s[|s| - 1]) then |s| else TrailingEnd(s[..|s| - 1])
  }

  /** `s.strip()`: the slice between the leading and the trailing spaces; nothing is left of
      a string of spaces. */
  function Strip(s: string): (r: string)
    ensures |r| <= |s|
    ensures r == [] <==> Blank(s)
    ensures r == [] || (!Space(r[0]) && !Space(r[|r| - 1]))
    ensures r != [] ==> r == s[LeadingSpaces(s)..TrailingEnd(s)]
  {
    var a := LeadingSpaces(s);
    var b := TrailingEnd(s);
    if a < b then s[a..b] else []
  }

  /** A stripped string strips to itself. */
  lemma StripIdempotent(s: string)
    ensures Strip(Strip(s)) == Strip(s)
  {
    var r := Strip(s);
    if r != [] {
      assert LeadingSpaces(r) == 0;
      assert TrailingEnd(r) == |r|;
      assert r[0..|r|] == r;
    }
  }

  /** `c not in s`. */
  predicate Free(s: string, c: char) {
    forall j | 0 <= j < |s| :: s[j] != c
  }

  /** Stripping keeps only characters that were there. */
  lemma StripFree(s: string, c: char)
    requires Free(s, c)
    ensures Free(Strip(s), c)
  {
    var r := Strip(s);
    if r != [] {
      var a := LeadingSpaces(s);
      assert forall k | 0 <= k < |r| :: r[k] == s[a + k];
    }
  }

  /** `sep.join(parts)`. */
  function Join(parts: seq<string>, sep: string): string
    decreases |parts|
  {
    if parts == [] then []
    else if |parts| == 1 then parts[0]
    else parts[0] + sep + Join(parts[1..], sep)
  }

  /** `s.split(c)` for a one-character separator: the pieces between occurrences of `c`,
      empty ones included; joining them back gives `s`. */
  function Split(s: string, c: char): (r: seq<string>)
    ensures |r| >= 1
    ensures forall k | 0 <= k < |r| :: Free(r[k], c)
    ensures Join(r, [c]) == s
    ensures FirstIndex(s, c).None? ==> r == [s]
    ensures FirstIndex(s, c).Some? ==> r[0] == s[..FirstIndex(s, c).value]
    decreases |s|
  {
    match FirstIndex(s, c)
    case None => [s]
    case Some(i) =>
      var rest := Split(s[i + 1..], c);
      var r := [s[..i]] + rest;
      assert r[1..] == rest;
      assert s == s[..i] + [c] + s[i + 1..];
      r
  }

  /** Splitting a join of pieces that do not hold the separator gives the pieces back. */
  lemma {:induction false} SplitJoin(parts: seq<string>, c: char)
    requires parts != []
    requires forall k | 0 <= k < |parts| :: Free(parts[k], c)
    ensures Split(Join(parts, [c]), c) == parts
    decreases |parts|
  {
    if |parts| == 1 {
      assert FirstIndex(parts[0], c).None?;
    } else {
      var s := Join(parts, [c]);
      var rest := Join(parts[1..], [c]);
      assert s == parts[0] + [c] + rest;
      assert forall j | 0 <= j < |parts[0]| :: s[j] == parts[0][j];
      assert forall j | 0 <= j < |parts[0]| :: s[j] != c;
      assert s[|parts[0]|] == c;
      assert FirstIndex(s, c) == Some(|parts[0]|);
      assert s[..|parts[0]|] == parts[0];
      assert s[|parts[0]| + 1..] == rest;
      SplitJoin(parts[1..], c);
      assert parts == [parts[0]] + parts[1..];
    }
  }
}
