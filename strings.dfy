/** String operations of Python's `str` and JavaScript's `String` that the
    modelled code relies on, written over `seq<char>`. Case mapping covers the
    ASCII letters only. */
module Strings {
  import opened Optional

  predicate StartsWith(s: string, p: string) {
    |p| <= |s| && s[..|p|] == p
  }

  predicate EndsWith(s: string, p: string) {
    |p| <= |s| && s[|s| - |p|..] == p
  }

  /** `p` occurs in `s` starting at index `i`. */
  predicate OccursAt(s: string, p: string, i: nat) {
    i + |p| <= |s| && s[i..i + |p|] == p
  }

  /** Python's `s.find(p, from)`: the least index at or after `from` where `p` occurs. */
  function FindFrom(s: string, p: string, from: nat): (r: Option<nat>)
    decreases |s| - from
    ensures r.Some? ==> from <= r.value && OccursAt(s, p, r.value)
    ensures forall j: nat :: from <= j && (r.None? || j < r.value) ==> !OccursAt(s, p, j)
  {
    if from + |p| > |s| then None
    else if OccursAt(s, p, from) then Some(from)
    else FindFrom(s, p, from + 1)
  }

  /** Python's `s.find(p)`, with None for -1. */
  function Find(s: string, p: string): (r: Option<nat>)
    ensures r.Some? ==> OccursAt(s, p, r.value)
    ensures forall j: nat :: (r.None? || j < r.value) ==> !OccursAt(s, p, j)
  {
    FindFrom(s, p, 0)
  }

  /** The greatest index at or below `k` where `p` occurs. */
  function RFindUpTo(s: string, p: string, k: int): (r: Option<nat>)
    decreases k + 1
    ensures r.Some? ==> r.value <= k && OccursAt(s, p, r.value)
    ensures forall j: nat :: j <= k && (r.None? || r.value < j) ==> !OccursAt(s, p, j)
  {
    if k < 0 then None
    else if OccursAt(s, p, k) then Some(k)
    else RFindUpTo(s, p, k - 1)
  }

  /** Python's `s.rfind(p)`, with None for -1. */
  function RFind(s: string, p: string): (r: Option<nat>)
    ensures r.Some? ==> OccursAt(s, p, r.value)
    ensures forall j: nat :: (r.None? || r.value < j) ==> !OccursAt(s, p, j)
  {
    RFindUpTo(s, p, |s| - |p|)
  }

  /** Python's `s.replace(pat, rep)`: every occurrence of `pat`, found left to
      right without overlap, is replaced by `rep`. */
  function ReplaceAll(s: string, pat: string, rep: string): string
    requires |pat| > 0
    decreases |s|
  {
    if |s| < |pat| then s
    else if StartsWith(s, pat) then rep + ReplaceAll(s[|pat|..], pat, rep)
    else [s[0]] + ReplaceAll(s[1..], pat, rep)
  }

  /** A text that starts with the pattern has it replaced first. */
  lemma ReplaceHead(pat: string, b: string, rep: string)
    requires |pat| > 0
    ensures ReplaceAll(pat + b, pat, rep) == rep + ReplaceAll(b, pat, rep)
  {
    assert (pat + b)[..|pat|] == pat;
    assert (pat + b)[|pat|..] == b;
  }

  /** A prefix without the pattern's first character is kept as it is. */
  lemma {:induction false} ReplaceFree(a: string, b: string, pat: string, rep: string)
    requires |pat| > 0 && pat[0] !in a
    ensures ReplaceAll(a + b, pat, rep) == a + ReplaceAll(b, pat, rep)
    decreases |a|
  {
    if a != [] {
      var s := a + b;
      assert s[1..] == a[1..] + b;
      ReplaceFree(a[1..], b, pat, rep);
      if |s| < |pat| {
        assert |b| < |pat|;
      } else {
        assert s[..|pat|][0] == a[0];
        assert !StartsWith(s, pat);
        assert ReplaceAll(s, pat, rep) == [a[0]] + ReplaceAll(a[1..] + b, pat, rep);
        assert a == [a[0]] + a[1..];
      }
    } else {
      assert a + b == b;
    }
  }

  /** A text missing one of the pattern's characters is left unchanged. */
  lemma {:induction false} ReplaceMissing(s: string, pat: string, rep: string, c: char)
    requires |pat| > 0 && c in pat && c !in s
    ensures ReplaceAll(s, pat, rep) == s
    decreases |s|
  {
    if |s| >= |pat| {
      assert !StartsWith(s, pat) by {
        var k :| 0 <= k < |pat| && pat[k] == c;
        assert s[..|pat|][k] == s[k];
      }
      ReplaceMissing(s[1..], pat, rep, c);
    }
  }

  /** A text ending in the pattern, with no earlier start of it, has exactly
      that occurrence replaced. */
  lemma ReplaceSuffix(x: string, pat: string, rep: string)
    requires |pat| > 0 && pat[0] !in x
    ensures ReplaceAll(x + pat, pat, rep) == x + rep
  {
    assert x + pat == x + (pat + []);
    ReplaceFree(x, pat + [], pat, rep);
    ReplaceHead(pat, [], rep);
  }

  /** A separator after a prefix without it is the first thing replaced. */
  lemma ReplaceSeparator(a: string, b: string, p: char, r: string)
    requires p !in a
    ensures ReplaceAll(a + ([p] + b), [p], r) == a + (r + ReplaceAll(b, [p], r))
  {
    ReplaceFree(a, [p] + b, [p], r);
    ReplaceHead([p], b, r);
  }

  /** The two separators of `m p u p w` are replaced when the words hold no `p`. */
  lemma ReplaceBetween(m: string, u: string, w: string, p: char, r: string)
    requires p !in m && p !in u && p !in w
    ensures ReplaceAll(m + ([p] + (u + ([p] + w))), [p], r) == m + (r + (u + (r + w)))
  {
    ReplaceMissing(w, [p], r, p);
    ReplaceSeparator(u, w, p, r);
    ReplaceSeparator(m, u + ([p] + w), p, r);
  }

  /** Replacing cannot introduce a character that neither the text nor the
      replacement holds. */
  lemma {:induction false} ReplaceKeepsAbsent(s: string, pat: string, rep: string, c: char)
    requires |pat| > 0 && c !in s && c !in rep
    ensures c !in ReplaceAll(s, pat, rep)
  {
    if |s| < |pat| {
    } else if StartsWith(s, pat) {
      ReplaceKeepsAbsent(s[|pat|..], pat, rep, c);
    } else {
      ReplaceKeepsAbsent(s[1..], pat, rep, c);
    }
  }

  /** Replacing the one-character string `[c]` by text without `c` leaves no `c`. */
  lemma {:induction false} ReplaceRemovesChar(s: string, c: char, rep: string)
    requires c !in rep
    ensures c !in ReplaceAll(s, [c], rep)
  {
    if |s| < 1 {
    } else if StartsWith(s, [c]) {
      ReplaceRemovesChar(s[1..], c, rep);
    } else {
      assert s[0] != c;
      ReplaceRemovesChar(s[1..], c, rep);
    }
  }

  /** With a non-empty replacement, the first and the last character of the
      result each come from the text or from the replacement. */
  lemma {:induction false} ReplaceEdges(s: string, pat: string, rep: string)
    requires |pat| > 0 && |rep| > 0
    ensures var r := ReplaceAll(s, pat, rep);
      && (|r| == 0 <==> |s| == 0)
      && (|s| > 0 ==> r[0] in {s[0], rep[0]} && r[|r| - 1] in {s[|s| - 1], rep[|rep| - 1]})
    decreases |s|
  {
    if |s| < |pat| {
    } else if StartsWith(s, pat) {
      var t := s[|pat|..];
      ReplaceEdges(t, pat, rep);
      var u := ReplaceAll(t, pat, rep);
      assert ReplaceAll(s, pat, rep) == rep + u;
      assert t != [] ==> t[|t| - 1] == s[|s| - 1];
      assert (rep + u)[0] == rep[0];
      assert (rep + u)[|rep + u| - 1] == if u == [] then rep[|rep| - 1] else u[|u| - 1];
    } else {
      var t := s[1..];
      ReplaceEdges(t, pat, rep);
      var u := ReplaceAll(t, pat, rep);
      assert ReplaceAll(s, pat, rep) == [s[0]] + u;
      assert t != [] ==> t[|t| - 1] == s[|s| - 1];
      assert ([s[0]] + u)[|u|] == if u == [] then s[0] else u[|u| - 1];
    }
  }

  /** `a` and `b` differ at some index both of them have. */
  predicate Disagree(a: string, b: string) {
    exists i :: 0 <= i < |a| && i < |b| && a[i] != b[i]
  }

  /** When the replacement cannot line up with any part of the pattern, the
      result holds no occurrence of the pattern: none survives and none is
      formed across a replacement. */
  lemma {:induction false} ReplaceLeavesNoPattern(s: string, pat: string, rep: string, j: nat)
    requires |pat| > 0
    requires forall k :: 0 <= k < |pat| ==> Disagree(rep, pat[k..])
    requires forall k :: 0 <= k < |rep| ==> Disagree(rep[k..], pat)
    ensures !OccursAt(ReplaceAll(s, pat, rep), pat, j)
    decreases |s|
  {
    var r := ReplaceAll(s, pat, rep);
    if |s| < |pat| {
    } else if StartsWith(s, pat) {
      if j < |rep| {
        assert Disagree(rep[j..], pat);
        assert forall i :: 0 <= i < |rep| - j ==> r[j + i] == rep[j..][i];
      } else {
        ReplaceLeavesNoPattern(s[|pat|..], pat, rep, j - |rep|);
        ShiftedOccurrence(rep, ReplaceAll(s[|pat|..], pat, rep), pat, j);
      }
    } else if j == 0 {
      if OccursAt(r, pat, 0) {
        ReplacePrefix(s, pat, rep, 0);
      }
    } else {
      ReplaceLeavesNoPattern(s[1..], pat, rep, j - 1);
      ShiftedOccurrence([s[0]], ReplaceAll(s[1..], pat, rep), pat, j);
    }
  }

  /** Occurrences at or after the end of `a` in `a + b` are occurrences in `b`. */
  lemma ShiftedOccurrence(a: string, b: string, p: string, j: nat)
    requires |a| <= j
    ensures OccursAt(a + b, p, j) <==> OccursAt(b, p, j - |a|)
  {
    if j + |p| <= |a + b| {
      assert (a + b)[j..j + |p|] == b[j - |a|..j - |a| + |p|];
    }
  }

  /** If the result starts with a suffix of the pattern, so does the text. */
  lemma {:induction false} ReplacePrefix(s: string, pat: string, rep: string, k: nat)
    requires |pat| > 0 && k < |pat|
    requires forall k :: 0 <= k < |pat| ==> Disagree(rep, pat[k..])
    requires StartsWith(ReplaceAll(s, pat, rep), pat[k..])
    ensures StartsWith(s, pat[k..])
    decreases |s|
  {
    var r := ReplaceAll(s, pat, rep);
    var w := pat[k..];
    if |s| >= |pat| && !StartsWith(s, pat) {
      assert r[0] == s[0] == w[0] by { assert r[..|w|][0] == w[0]; }
      if k + 1 < |pat| {
        var t := ReplaceAll(s[1..], pat, rep);
        assert r == [s[0]] + t;
        assert t[..|w| - 1] == r[..|w|][1..];
        assert pat[k + 1..] == w[1..];
        ReplacePrefix(s[1..], pat, rep, k + 1);
        assert s[..|w|] == [s[0]] + s[1..][..|w| - 1];
      } else {
        assert s[..|w|] == [s[0]];
      }
    }
  }

  /** Replacing the one-character string `[c]` by `[d]` maps the text
      character by character. */
  lemma {:induction false} ReplaceOneChar(s: string, c: char, d: char)
    ensures var r := ReplaceAll(s, [c], [d]);
      |r| == |s| && forall i :: 0 <= i < |s| ==> r[i] == (if s[i] == c then d else s[i])
    decreases |s|
  {
    if |s| >= 1 {
      ReplaceOneChar(s[1..], c, d);
      var t := ReplaceAll(s[1..], [c], [d]);
      if StartsWith(s, [c]) {
        assert s[..1][0] == s[0];
        assert ReplaceAll(s, [c], [d]) == [d] + t;
      } else {
        assert s[..1] == [s[0]];
        assert ReplaceAll(s, [c], [d]) == [s[0]] + t;
      }
    }
  }

  /** A one-character replacement distributes over concatenation. */
  lemma ReplaceOneCharAppend(a: string, b: string, c: char, d: char)
    ensures ReplaceAll(a + b, [c], [d]) == ReplaceAll(a, [c], [d]) + ReplaceAll(b, [c], [d])
  {
    ReplaceOneChar(a, c, d);
    ReplaceOneChar(b, c, d);
    ReplaceOneChar(a + b, c, d);
    var l, r := ReplaceAll(a, [c], [d]), ReplaceAll(b, [c], [d]);
    forall i | 0 <= i < |a + b| ensures ReplaceAll(a + b, [c], [d])[i] == (l + r)[i] {
      if i >= |a| {
        assert (a + b)[i] == b[i - |a|];
      }
    }
  }

  /** No occurrence of `pat` begins before index `m`, so the first `m`
      characters are copied unchanged. */
  lemma {:induction false} ReplaceKeepsPrefix(s: string, pat: string, rep: string, m: nat)
    requires |pat| > 0 && m <= |s|
    requires forall i: nat :: i < m ==> !OccursAt(s, pat, i)
    ensures ReplaceAll(s, pat, rep) == s[..m] + ReplaceAll(s[m..], pat, rep)
    decreases m
  {
    if m == 0 {
      assert s[..0] + s[0..] == s;
    } else if |s| < |pat| {
      assert s[..m] + s[m..] == s;
    } else {
      assert !StartsWith(s, pat) by { assert !OccursAt(s, pat, 0); }
      var t := s[1..];
      forall i: nat | i < m - 1 ensures !OccursAt(t, pat, i) {
        assert !OccursAt(s, pat, i + 1);
        if i + 1 + |pat| <= |s| {
          var inT, inS := t[i..i + |pat|], s[i + 1..i + 1 + |pat|];
          forall k | 0 <= k < |pat| ensures inT[k] == inS[k] {
            assert inT[k] == t[i + k] == s[i + 1 + k];
          }
          assert inS == inT;
        }
      }
      ReplaceKeepsPrefix(t, pat, rep, m - 1);
      assert t[m - 1..] == s[m..];
      assert [s[0]] + t[..m - 1] == s[..m];
    }
  }

  /** Occurrences of `pat` and of `p` can never overlap: neither can start
      inside the other one. */
  predicate Apart(pat: string, p: string) {
    && (forall d :: 0 <= d < |pat| ==> Disagree(pat[d..], p))
    && (forall d :: 0 < d < |p| ==> Disagree(p[d..], pat))
  }

  /** An occurrence of `p` leaves no room for an overlapping one of `pat`. */
  lemma ApartOccurrences(s: string, pat: string, p: string, i: nat, j: nat)
    requires Apart(pat, p) && OccursAt(s, p, j)
    requires i < j + |p| && j < i + |pat|
    ensures !OccursAt(s, pat, i)
  {
    if i <= j {
      var t :| 0 <= t < |pat[j - i..]| && t < |p| && pat[j - i..][t] != p[t];
      assert s[j..j + |p|][t] == s[j + t];
      if i + |pat| <= |s| {
        assert s[i..i + |pat|][j - i + t] == s[j + t];
      }
    } else {
      var t :| 0 <= t < |p[i - j..]| && t < |pat| && p[i - j..][t] != pat[t];
      assert s[j..j + |p|][i - j + t] == s[i + t];
      if i + |pat| <= |s| {
        assert s[i..i + |pat|][t] == s[i + t];
      }
    }
  }

  /** Replacing a pattern that cannot overlap `p` keeps an occurrence of `p`. */
  lemma {:induction false} ReplaceKeepsOccurrence(s: string, pat: string, rep: string, p: string, j: nat)
    requires |pat| > 0 && |p| > 0 && Apart(pat, p) && OccursAt(s, p, j)
    ensures exists k: nat :: OccursAt(ReplaceAll(s, pat, rep), p, k)
    decreases |s|
  {
    var r := ReplaceAll(s, pat, rep);
    if |s| < |pat| {
      assert OccursAt(r, p, j);
    } else if j == 0 {
      forall i: nat | i < |p| ensures !OccursAt(s, pat, i) {
        ApartOccurrences(s, pat, p, i, 0);
      }
      ReplaceKeepsPrefix(s, pat, rep, |p|);
      assert r[..|p|] == s[..|p|];
      assert OccursAt(r, p, 0);
    } else if StartsWith(s, pat) {
      assert |pat| <= j by {
        if j < |pat| { ApartOccurrences(s, pat, p, 0, j); }
      }
      var t := s[|pat|..];
      assert t[j - |pat|..j - |pat| + |p|] == s[j..j + |p|];
      ReplaceKeepsOccurrence(t, pat, rep, p, j - |pat|);
      var k: nat :| OccursAt(ReplaceAll(t, pat, rep), p, k);
      ShiftedOccurrence(rep, ReplaceAll(t, pat, rep), p, k + |rep|);
      assert OccursAt(r, p, k + |rep|);
    } else {
      var t := s[1..];
      assert t[j - 1..j - 1 + |p|] == s[j..j + |p|];
      ReplaceKeepsOccurrence(t, pat, rep, p, j - 1);
      var k: nat :| OccursAt(ReplaceAll(t, pat, rep), p, k);
      ShiftedOccurrence([s[0]], ReplaceAll(t, pat, rep), p, k + 1);
      assert OccursAt(r, p, k + 1);
    }
  }

  /** A text holding the pattern holds the replacement once replaced. */
  lemma {:induction false} ReplaceProducesRep(s: string, pat: string, rep: string, j: nat)
    requires |pat| > 0 && OccursAt(s, pat, j)
    ensures exists k: nat :: OccursAt(ReplaceAll(s, pat, rep), rep, k)
    decreases |s|
  {
    var r := ReplaceAll(s, pat, rep);
    if StartsWith(s, pat) {
      assert r[..|rep|] == rep;
      assert OccursAt(r, rep, 0);
    } else {
      assert j != 0;
      var t := s[1..];
      assert t[j - 1..j - 1 + |pat|] == s[j..j + |pat|];
      ReplaceProducesRep(t, pat, rep, j - 1);
      var k: nat :| OccursAt(ReplaceAll(t, pat, rep), rep, k);
      ShiftedOccurrence([s[0]], ReplaceAll(t, pat, rep), rep, k + 1);
      assert OccursAt(r, rep, k + 1);
    }
  }

  /** The characters Python's `str.strip()` removes (`str.isspace`). */
  predicate IsSpace(c: char) {
    var n := c as int;
    || 0x09 <= n <= 0x0D || 0x1C <= n <= 0x20 || n == 0x85 || n == 0xA0 || n == 0x1680
    || 0x2000 <= n <= 0x200A || n == 0x2028 || n == 0x2029 || n == 0x202F || n == 0x205F
    || n == 0x3000
  }

  function StripLeft(s: string): (r: string)
    decreases |s|
    ensures |r| <= |s| && r == s[|s| - |r|..]
    ensures forall i :: 0 <= i < |s| - |r| ==> IsSpace(s[i])
    ensures r != [] ==> !IsSpace(r[0])
  {
    if |s| > 0 && IsSpace(s[0]) then StripLeft(s[1..]) else s
  }

  function StripRight(s: string): (r: string)
    decreases |s|
    ensures |r| <= |s| && r == s[..|r|]
    ensures forall i :: |r| <= i < |s| ==> IsSpace(s[i])
    ensures r != [] ==> !IsSpace(r[|r| - 1])
  {
    if |s| > 0 && IsSpace(s[|s| - 1]) then StripRight(s[..|s| - 1]) else s
  }

  /** Python's `s.strip()`: the result has no whitespace at either end. */
  function Strip(s: string): (r: string)
    ensures r != [] ==> !IsSpace(r[0]) && !IsSpace(r[|r| - 1])
  {
    StripRight(StripLeft(s))
  }

  /** Stripping only removes characters. */
  lemma StripKeepsAbsent(s: string, c: char)
    requires c !in s
    ensures c !in Strip(s)
  {
    var l := StripLeft(s);
    assert l == s[|s| - |l|..];
    assert StripRight(l) == l[..|StripRight(l)|];
  }

  /** Stripping keeps an occurrence of a text that starts and ends with a
      non-whitespace character. */
  lemma StripKeepsOccurrence(s: string, p: string, j: nat)
    requires |p| > 0 && !IsSpace(p[0]) && !IsSpace(p[|p| - 1]) && OccursAt(s, p, j)
    ensures exists k: nat :: OccursAt(Strip(s), p, k)
  {
    var l := StripLeft(s);
    var a := |s| - |l|;
    assert s[j] == p[0];
    assert a <= j;
    assert l[j - a..j - a + |p|] == s[j..j + |p|];
    var r := StripRight(l);
    assert l[j - a + |p| - 1] == p[|p| - 1];
    assert j - a + |p| <= |r|;
    assert r[j - a..j - a + |p|] == l[j - a..j - a + |p|];
    assert OccursAt(r, p, j - a);
    assert Strip(s) == r;
  }

  /** Text with no whitespace at either end is its own strip. */
  lemma StripUnchanged(s: string)
    requires s != [] && !IsSpace(s[0]) && !IsSpace(s[|s| - 1])
    ensures Strip(s) == s
  {
  }

  function LowerChar(c: char): char {
    if 'A' <= c <= 'Z' then (c as int + 32) as char else c
  }

  function UpperChar(c: char): char {
    if 'a' <= c <= 'z' then (c as int - 32) as char else c
  }

  /** `lower()` / `toLowerCase()` on ASCII letters. */
  function Lower(s: string): (r: string)
    ensures |r| == |s| && forall i :: 0 <= i < |s| ==> r[i] == LowerChar(s[i])
  {
    seq(|s|, i requires 0 <= i < |s| => LowerChar(s[i]))
  }

  /** `upper()` / `toUpperCase()` on ASCII letters. */
  function Upper(s: string): (r: string)
    ensures |r| == |s| && forall i :: 0 <= i < |s| ==> r[i] == UpperChar(s[i])
  {
    seq(|s|, i requires 0 <= i < |s| => UpperChar(s[i]))
  }

  /** Lower-casing gives the all-lower-case word `w` exactly when `s` spells
      `w` in any mix of cases. */
  lemma LowerMatches(s: string, w: string)
    requires forall i :: 0 <= i < |w| ==> 'a' <= w[i] <= 'z'
    ensures Lower(s) == w <==>
      |s| == |w| && forall i :: 0 <= i < |s| ==> s[i] == w[i] || s[i] == UpperChar(w[i])
  {
    if |s| == |w| {
      assert forall i :: 0 <= i < |s| ==> (LowerChar(s[i]) == w[i] <==> s[i] == w[i] || s[i] == UpperChar(w[i]));
      if forall i :: 0 <= i < |s| ==> s[i] == w[i] || s[i] == UpperChar(w[i]) {
        assert forall i :: 0 <= i < |s| ==> Lower(s)[i] == w[i];
      }
    }
  }

  /** Upper-casing gives the all-upper-case word `w` exactly when `s` spells
      `w` in any mix of cases. */
  lemma UpperMatches(s: string, w: string)
    requires forall i :: 0 <= i < |w| ==> 'A' <= w[i] <= 'Z'
    ensures Upper(s) == w <==>
      |s| == |w| && forall i :: 0 <= i < |s| ==> s[i] == w[i] || s[i] == LowerChar(w[i])
  {
    if |s| == |w| {
      assert forall i :: 0 <= i < |s| ==> (UpperChar(s[i]) == w[i] <==> s[i] == w[i] || s[i] == LowerChar(w[i]));
      if forall i :: 0 <= i < |s| ==> s[i] == w[i] || s[i] == LowerChar(w[i]) {
        assert forall i :: 0 <= i < |s| ==> Upper(s)[i] == w[i];
      }
    }
  }

  /** `s` with every character of `cs` removed (a global regex replace of a
      character class by the empty string). */
  function RemoveChars(s: string, cs: set<char>): (r: string)
    decreases |s|
    ensures |r| <= |s|
    ensures forall i :: 0 <= i < |r| ==> r[i] !in cs && r[i] in s
  {
    if s == [] then []
    else if s[0] in cs then RemoveChars(s[1..], cs)
    else [s[0]] + RemoveChars(s[1..], cs)
  }

  /** Removing characters distributes over concatenation. */
  lemma {:induction false} RemoveCharsAppend(a: string, b: string, cs: set<char>)
    ensures RemoveChars(a + b, cs) == RemoveChars(a, cs) + RemoveChars(b, cs)
    decreases |a|
  {
    if a == [] {
      assert a + b == b;
    } else {
      assert (a + b)[1..] == a[1..] + b;
      RemoveCharsAppend(a[1..], b, cs);
    }
  }

  /** A text holding none of the characters is left as it is. */
  lemma {:induction false} RemoveCharsFree(s: string, cs: set<char>)
    requires forall i :: 0 <= i < |s| ==> s[i] !in cs
    ensures RemoveChars(s, cs) == s
    decreases |s|
  {
    if s != [] {
      RemoveCharsFree(s[1..], cs);
    }
  }

  /** Decimal digits of a natural number, as Python's `str()` / an f-string writes it. */
  function Decimal(n: nat): (r: string)
    decreases n
    ensures |r| > 0 && forall i :: 0 <= i < |r| ==> '0' <= r[i] <= '9'
  {
    if n < 10 then [('0' as int + n) as char]
    else Decimal(n / 10) + [('0' as int + n % 10) as char]
  }

  /** The number a string of decimal digits denotes. */
  function DecimalValue(s: string): nat
    requires forall i :: 0 <= i < |s| ==> '0' <= s[i] <= '9'
    decreases |s|
  {
    if s == [] then 0 else DecimalValue(s[..|s| - 1]) * 10 + (s[|s| - 1] as int - '0' as int)
  }

  /** Decimal writes every natural number without a leading zero, in a form
      that reads back as the same number, so distinct numbers are written
      differently. */
  lemma {:induction false} DecimalRoundTrip(n: nat)
    ensures DecimalValue(Decimal(n)) == n
    ensures Decimal(n)[0] == '0' ==> n == 0
  {
    if n >= 10 {
      DecimalRoundTrip(n / 10);
      var d := Decimal(n);
      assert d[..|d| - 1] == Decimal(n / 10);
    }
  }

  /** `s.split(sep)` for a one-character separator (JavaScript and Python agree). */
  function Split(s: string, sep: char): (parts: seq<string>)
    decreases |s|
    ensures |parts| > 0
    ensures forall k :: 0 <= k < |parts| ==> sep !in parts[k]
  {
    if s == [] then [[]]
    else
      var rest := Split(s[1..], sep);
      if s[0] == sep then [[]] + rest else [[s[0]] + rest[0]] + rest[1..]
  }

  /** `sep.join(parts)`. */
  function Join(parts: seq<string>, sep: char): string
    decreases |parts|
  {
    if |parts| == 0 then []
    else if |parts| == 1 then parts[0]
    else parts[0] + [sep] + Join(parts[1..], sep)
  }

  /** Splitting loses nothing: joining the pieces gives the text back. */
  lemma {:induction false} SplitJoin(s: string, sep: char)
    ensures Join(Split(s, sep), sep) == s
  {
    if s != [] {
      SplitJoin(s[1..], sep);
      var rest := Split(s[1..], sep);
      if s[0] == sep {
        assert Split(s, sep) == [[]] + rest;
      } else {
        var parts := Split(s, sep);
        if |rest| > 1 {
          assert parts[1..] == rest[1..];
        }
      }
    }
  }
}
