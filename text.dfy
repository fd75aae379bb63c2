/** String operations the script relies on, with Python's semantics:
    `str.startswith`, `str.replace`, `str.strip()` and `str.lower()`. */
module Text {

  /** `s.startswith(prefix)`. */
  predicate StartsWith(s: string, prefix: string) {
    |prefix| <= |s| && s[..|prefix|] == prefix
  }

  /** An occurrence of `pat` begins at position `i` of `s`. */
  predicate OccursAt(s: string, pat: string, i: nat) {
    i + |pat| <= |s| && s[i..i + |pat|] == pat
  }

  /** `pat in s`. */
  predicate Contains(s: string, pat: string) {
    exists i: nat :: i <= |s| && OccursAt(s, pat, i)
  }

  /** `s.replace(pat, rep)`: every non-overlapping occurrence of `pat`,
      scanning from the left, is replaced by `rep`. */
  function ReplaceAll(s: string, pat: string, rep: string): string
    requires pat != ""
    decreases |s|
  {
    if |s| < |pat| then s
    else if s[..|pat|] == pat then rep + ReplaceAll(s[|pat|..], pat, rep)
    else [s[0]] + ReplaceAll(s[1..], pat, rep)
  }

  /** A string in which `pat` does not occur is left as it is. */
  lemma {:induction false} ReplaceAllWithoutOccurrence(s: string, pat: string, rep: string)
    requires pat != ""
    requires !Contains(s, pat)
    ensures ReplaceAll(s, pat, rep) == s
    decreases |s|
  {
    if |s| >= |pat| {
      assert !OccursAt(s, pat, 0);
      if Contains(s[1..], pat) {
        var i: nat :| i <= |s[1..]| && OccursAt(s[1..], pat, i);
        assert s[1..][i..i + |pat|] == s[i + 1..i + 1 + |pat|];
        assert OccursAt(s, pat, i + 1);
      }
      ReplaceAllWithoutOccurrence(s[1..], pat, rep);
    }
  }

  /** A string that begins with `pat` has that occurrence replaced, and the
      replacement goes on over the rest of the string. */
  lemma ReplaceAllLeading(s: string, pat: string, rep: string)
    requires pat != "" && StartsWith(s, pat)
    ensures ReplaceAll(s, pat, rep) == rep + ReplaceAll(s[|pat|..], pat, rep)
    ensures StartsWith(ReplaceAll(s, pat, rep), rep)
  {
    var r := ReplaceAll(s, pat, rep);
    assert r[..|rep|] == rep;
  }

  /** A string that does not begin with `pat` keeps its first character. */
  lemma ReplaceAllNotLeading(s: string, pat: string, rep: string)
    requires pat != "" && |pat| <= |s| && !OccursAt(s, pat, 0)
    ensures ReplaceAll(s, pat, rep) == [s[0]] + ReplaceAll(s[1..], pat, rep)
  {
    assert s[0..|pat|] == s[..|pat|];
  }

  /** Regrouping a character put in front of a three-part string. */
  lemma ConsAssoc(c: char, u: string, rep: string, rest: string)
    ensures [c] + (u + rep + rest) == ([c] + u) + rep + rest
  {
  }

  /** Dropping the first character moves every occurrence one place left. */
  lemma OccursAtTail(s: string, pat: string, i: nat)
    requires 1 <= |s|
    ensures OccursAt(s[1..], pat, i) <==> OccursAt(s, pat, i + 1)
  {
    if i + 1 + |pat| <= |s| {
      assert s[1..][i..i + |pat|] == s[i + 1..i + 1 + |pat|];
    }
  }

  /** Everything before the first occurrence is kept as it is, that
      occurrence becomes the replacement, and the scan goes on after it. */
  lemma {:induction false} ReplaceAllAroundFirstOccurrence(a: string, b: string, pat: string, rep: string)
    requires pat != ""
    requires forall i: nat :: i < |a| ==> !OccursAt(a + pat + b, pat, i)
    ensures ReplaceAll(a + pat + b, pat, rep) == a + rep + ReplaceAll(b, pat, rep)
    decreases |a|
  {
    var s := a + pat + b;
    if a == [] {
      assert s == pat + b && s[..|pat|] == pat && s[|pat|..] == b;
      ReplaceAllLeading(s, pat, rep);
    } else {
      var s' := a[1..] + pat + b;
      assert s[1..] == s';
      forall i: nat | i < |a| - 1
        ensures !OccursAt(s', pat, i)
      {
        OccursAtTail(s, pat, i);
      }
      ReplaceAllNotLeading(s, pat, rep);
      ReplaceAllAroundFirstOccurrence(a[1..], b, pat, rep);
      assert a == [a[0]] + a[1..];
      ConsAssoc(a[0], a[1..], rep, ReplaceAll(b, pat, rep));
    }
  }

  /** `b`, laid over `a` from position `i`, differs from `a` somewhere in
      their overlap. */
  predicate DisagreesFrom(a: string, b: string, i: nat) {
    exists k :: 0 <= k < |b| && i + k < |a| && a[i + k] != b[k]
  }

  /** No occurrence of `pat` can begin inside `rep`, whatever follows it. */
  predicate NoPatternInto(pat: string, rep: string) {
    forall i :: 0 <= i < |rep| ==> DisagreesFrom(rep, pat, i)
  }

  /** No occurrence of `pat` can begin before `rep` and reach into it. */
  predicate NoPatternAcross(pat: string, rep: string) {
    forall j :: 1 <= j < |pat| ==> DisagreesFrom(pat, rep, j)
  }

  /** Wherever the rewritten string starts with a proper tail of `pat`, the
      original already did. */
  lemma {:induction false} ReplaceAllKeepsPatternTail(t: string, pat: string, rep: string, j: nat)
    requires pat != "" && 1 <= j <= |pat| && NoPatternAcross(pat, rep)
    ensures StartsWith(ReplaceAll(t, pat, rep), pat[j..]) ==> StartsWith(t, pat[j..])
    decreases |t|
  {
    var x := pat[j..];
    var r := ReplaceAll(t, pat, rep);
    if x != [] && |t| >= |pat| {
      if t[..|pat|] == pat {
        assert DisagreesFrom(pat, rep, j);
        var k :| 0 <= k < |rep| && j + k < |pat| && pat[j + k] != rep[k];
        assert r[k] == rep[k] != x[k];
      } else if StartsWith(r, x) {
        var r' := ReplaceAll(t[1..], pat, rep);
        assert r == [t[0]] + r';
        assert r'[..|x| - 1] == r[1..|x|] == x[1..];
        assert x[1..] == pat[j + 1..];
        ReplaceAllKeepsPatternTail(t[1..], pat, rep, j + 1);
        assert t[..|x|] == [t[0]] + t[1..][..|x| - 1];
      }
    }
  }

  /** `str.replace` leaves no occurrence of the pattern behind, as long as
      the replacement cannot recreate one with its neighbours. */
  lemma {:induction false} ReplaceAllRemovesEveryOccurrence(s: string, pat: string, rep: string)
    requires pat != "" && NoPatternInto(pat, rep) && NoPatternAcross(pat, rep)
    ensures !Contains(ReplaceAll(s, pat, rep), pat)
    decreases |s|
  {
    var r := ReplaceAll(s, pat, rep);
    if |s| >= |pat| {
      if s[..|pat|] == pat {
        var r' := ReplaceAll(s[|pat|..], pat, rep);
        ReplaceAllRemovesEveryOccurrence(s[|pat|..], pat, rep);
        assert r == rep + r';
        forall i: nat | i <= |r|
          ensures !OccursAt(r, pat, i)
        {
          if i < |rep| {
            assert DisagreesFrom(rep, pat, i);
            var k :| 0 <= k < |pat| && i + k < |rep| && rep[i + k] != pat[k];
            assert r[i + k] == rep[i + k];
          } else if i + |pat| <= |r| {
            assert r[i..i + |pat|] == r'[i - |rep|..i - |rep| + |pat|];
            assert !OccursAt(r', pat, i - |rep|);
          }
        }
      } else {
        var r' := ReplaceAll(s[1..], pat, rep);
        ReplaceAllRemovesEveryOccurrence(s[1..], pat, rep);
        assert r == [s[0]] + r';
        forall i: nat | i <= |r|
          ensures !OccursAt(r, pat, i)
        {
          if i == 0 {
            ReplaceAllKeepsPatternTail(s[1..], pat, rep, 1);
            if |pat| <= |r| && s[0] == pat[0] {
              assert s[..|pat|] == [s[0]] + s[1..][..|pat| - 1];
              assert !StartsWith(s[1..], pat[1..]);
              assert !StartsWith(r', pat[1..]);
              assert r[1..|pat|] == r'[..|pat| - 1];
            }
          } else if i + |pat| <= |r| {
            assert r[i..i + |pat|] == r'[i - 1..i - 1 + |pat|];
            assert !OccursAt(r', pat, i - 1);
          }
        }
      }
    }
  }

  /** The characters for which Python's `str.isspace()` holds. */
  predicate IsSpace(c: char) {
    ('\t' <= c <= '\r') || ('\U{1C}' <= c <= '\U{1F}') || c == ' ' ||
    c == '\U{85}' || c == '\U{A0}' || c == '\U{1680}' ||
    ('\U{2000}' <= c <= '\U{200A}') || c == '\U{2028}' || c == '\U{2029}' ||
    c == '\U{202F}' || c == '\U{205F}' || c == '\U{3000}'
  }

  /** Neither end of `s` is a whitespace character. */
  predicate Unpadded(s: string) {
    s == [] || (!IsSpace(s[0]) && !IsSpace(s[|s| - 1]))
  }

  predicate AllSpace(s: string) {
    forall i :: 0 <= i < |s| ==> IsSpace(s[i])
  }

  /** `s.lstrip()` */
  function StripStart(s: string): string
    decreases |s|
  {
    if |s| > 0 && IsSpace(s[0]) then StripStart(s[1..]) else s
  }

  /** `s.rstrip()` */
  function StripEnd(s: string): string
    decreases |s|
  {
    if |s| > 0 && IsSpace(s[|s| - 1]) then StripEnd(s[..|s| - 1]) else s
  }

  /** `s.strip()` */
  function Strip(s: string): string {
    StripEnd(StripStart(s))
  }

  /** `lstrip()` keeps the longest suffix that does not begin with whitespace. */
  lemma {:induction false} StripStartSpec(s: string)
    ensures var r := StripStart(s);
      |r| <= |s| && r == s[|s| - |r|..] && AllSpace(s[..|s| - |r|]) && (r == [] || !IsSpace(r[0]))
    decreases |s|
  {
    if |s| > 0 && IsSpace(s[0]) {
      StripStartSpec(s[1..]);
      var r := StripStart(s[1..]);
      assert s[1..][|s| - 1 - |r|..] == s[|s| - |r|..];
      assert s[..|s| - |r|] == [s[0]] + s[1..][..|s| - 1 - |r|];
    } else {
      assert s[..0] == [];
    }
  }

  /** `rstrip()` keeps the longest prefix that does not end with whitespace. */
  lemma {:induction false} StripEndSpec(s: string)
    ensures var r := StripEnd(s);
      |r| <= |s| && r == s[..|r|] && AllSpace(s[|r|..]) && (r == [] || !IsSpace(r[|r| - 1]))
    decreases |s|
  {
    if |s| > 0 && IsSpace(s[|s| - 1]) {
      var t := s[..|s| - 1];
      StripEndSpec(t);
      var r := StripEnd(t);
      assert t[..|r|] == s[..|r|];
      assert s[|r|..] == t[|r|..] + [s[|s| - 1]];
    } else {
      assert s[|s|..] == [];
    }
  }

  /** The result of `strip()` has no whitespace at either end, and a string
      without any is left as it is. */
  lemma StripSpec(s: string)
    ensures Unpadded(Strip(s))
    ensures Unpadded(s) ==> Strip(s) == s
  {
    StripStartSpec(s);
    var t := StripStart(s);
    StripEndSpec(t);
    var r := StripEnd(t);
    assert r != [] ==> r[0] == t[0];
  }

  /** Surrounding whitespace, however much, is removed and nothing else is. */
  lemma StripRemovesPadding(lead: string, s: string, trail: string)
    requires AllSpace(lead) && AllSpace(trail) && Unpadded(s)
    ensures Strip(lead + s + trail) == s
  {
    if s == [] {
      assert lead + s + trail == (lead + trail) + [];
      StripStartPadding(lead + trail, []);
    } else {
      assert lead + s + trail == lead + (s + trail);
      StripStartPadding(lead, s + trail);
      StripEndPadding(s, trail);
    }
  }

  lemma {:induction false} StripStartPadding(lead: string, s: string)
    requires AllSpace(lead) && (s == [] || !IsSpace(s[0]))
    ensures StripStart(lead + s) == s
    decreases |lead|
  {
    if lead != [] {
      assert (lead + s)[1..] == lead[1..] + s;
      StripStartPadding(lead[1..], s);
    } else {
      assert lead + s == s;
    }
  }

  lemma {:induction false} StripEndPadding(s: string, trail: string)
    requires AllSpace(trail) && (s == [] || !IsSpace(s[|s| - 1]))
    ensures StripEnd(s + trail) == s
    decreases |trail|
  {
    if trail != [] {
      var u := s + trail;
      assert u[..|u| - 1] == s + trail[..|trail| - 1];
      StripEndPadding(s, trail[..|trail| - 1]);
    } else {
      assert s + trail == s;
    }
  }

  /** `c.lower()` for the ASCII letters. */
  function LowerChar(c: char): char {
    if 'A' <= c <= 'Z' then (c as int + 32) as char else c
  }

  /** `s.lower()`, restricted to ASCII case mapping. */
  function ToLower(s: string): (r: string)
    ensures |r| == |s|
    ensures forall i :: 0 <= i < |s| ==> r[i] == LowerChar(s[i])
    ensures forall i :: 0 <= i < |r| ==> !('A' <= r[i] <= 'Z')
    decreases |s|
  {
    if s == [] then [] else [LowerChar(s[0])] + ToLower(s[1..])
  }
}
