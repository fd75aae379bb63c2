/** The identifier grammar `^[A-Za-z_][A-Za-z0-9_]*$` that guards every
    catalog name before it is put into a TRUNCATE or DROP statement. */
module Identifiers {

  /** `[A-Za-z_]` */
  predicate IsIdentStart(c: char) {
    ('A' <= c <= 'Z') || ('a' <= c <= 'z') || c == '_'
  }

  /** `[A-Za-z0-9_]` */
  predicate IsIdentChar(c: char) {
    IsIdentStart(c) || ('0' <= c <= '9')
  }

  /** The grammar the validator is meant to enforce: a non-empty name that
      starts with a letter or underscore and holds only letters, digits and
      underscores. This is the validator the rest of the model uses. */
  predicate IsIdentifier(t: string) {
    |t| > 0 && IsIdentStart(t[0]) && forall i :: 1 <= i < |t| ==> IsIdentChar(t[i])
  }

  /** Where Python's `$` succeeds: at the end of the string, or just before a
      newline that is the string's last character. */
  predicate DollarAt(t: string, k: nat) {
    k == |t| || (k + 1 == |t| && t[k] == '\n')
  }

  /** `re.match(r"^[A-Za-z_][A-Za-z0-9_]*$", t)` as Python evaluates it:
      some run of identifier characters after the first character ends at a
      position where `$` succeeds. */
  predicate MatchesAsWritten(t: string) {
    |t| > 0 && IsIdentStart(t[0]) &&
    exists k: nat :: 1 <= k <= |t| && DollarAt(t, k) && forall i :: 1 <= i < k ==> IsIdentChar(t[i])
  }

  /** The pattern as written accepts exactly the identifiers and the
      identifiers followed by a single newline. */
  lemma MatchesAsWrittenIff(t: string)
    ensures MatchesAsWritten(t) <==>
      IsIdentifier(t) || (|t| >= 2 && t[|t| - 1] == '\n' && IsIdentifier(t[..|t| - 1]))
  {
    if IsIdentifier(t) {
      assert DollarAt(t, |t|);
    }
    if |t| >= 2 && t[|t| - 1] == '\n' && IsIdentifier(t[..|t| - 1]) {
      var u := t[..|t| - 1];
      assert DollarAt(t, |t| - 1);
      assert forall i :: 1 <= i < |u| ==> IsIdentChar(u[i]) && u[i] == t[i];
    }
    if MatchesAsWritten(t) {
      var k: nat :| 1 <= k <= |t| && DollarAt(t, k) && forall i :: 1 <= i < k ==> IsIdentChar(t[i]);
      if k < |t| {
        var u := t[..|t| - 1];
        assert forall i :: 1 <= i < |u| ==> u[i] == t[i];
      }
    }
  }

  /** The name "a\n" passes the pattern as written but is not an identifier. */
  lemma TrailingNewlinePassesAsWritten()
    ensures MatchesAsWritten("a\n") && !IsIdentifier("a\n")
  {
    assert !IsIdentChar("a\n"[1]);
    assert DollarAt("a\n", 1);
  }

  /** `"<t>"`, the quoted identifier the statements interpolate. */
  function Quote(t: string): string {
    "\"" + t + "\""
  }

  /** A validated name contains no double quote, so its quoted form has
      exactly the two delimiting quotes: the name cannot close the quoted
      identifier early and inject further SQL. */
  lemma QuotedIdentifierIsClosed(t: string)
    requires IsIdentifier(t)
    ensures |Quote(t)| == |t| + 2
    ensures forall i :: 0 <= i < |Quote(t)| ==> (Quote(t)[i] == '"' <==> i == 0 || i == |t| + 1)
  {
    var q := Quote(t);
    forall i | 0 <= i < |q|
      ensures q[i] == '"' <==> i == 0 || i == |t| + 1
    {
      if 0 < i < |t| + 1 {
        assert q[i] == t[i - 1];
        assert IsIdentChar(t[i - 1]);
      }
    }
  }
}
