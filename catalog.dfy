/** Which catalog names the erase steps act on. */
module Catalog {
  import opened Identifiers

  /** The migration bookkeeping table the truncate path keeps. */
  const MigrationTable := "alembic_version"

  /** `[t for t in table_names if t not in ('alembic_version',)]` */
  function WithoutMigrations(names: seq<string>): (r: seq<string>)
    ensures forall i :: 0 <= i < |r| ==> r[i] != MigrationTable
    decreases |names|
  {
    if names == [] then []
    else
      var rest := WithoutMigrations(names[1..]);
      if names[0] == MigrationTable then rest else [names[0]] + rest
  }

  /** The names the validation loop does not skip, in catalog order. */
  function KeepValid(names: seq<string>): (r: seq<string>)
    ensures forall i :: 0 <= i < |r| ==> IsIdentifier(r[i])
    decreases |names|
  {
    if names == [] then []
    else
      var rest := KeepValid(names[1..]);
      if IsIdentifier(names[0]) then [names[0]] + rest else rest
  }

  /** The migration filter drops every copy of the migration table and
      keeps every other name as often as it is listed. */
  lemma {:induction false} WithoutMigrationsCounts(names: seq<string>)
    ensures multiset(WithoutMigrations(names))[MigrationTable] == 0
    ensures forall t :: t != MigrationTable ==> multiset(WithoutMigrations(names))[t] == multiset(names)[t]
    decreases |names|
  {
    if names != [] {
      assert names == [names[0]] + names[1..];
      WithoutMigrationsCounts(names[1..]);
    }
  }

  /** The validation filter keeps every valid name as often as it is listed
      and no invalid one. */
  lemma {:induction false} KeepValidCounts(names: seq<string>)
    ensures forall t :: multiset(KeepValid(names))[t] == if IsIdentifier(t) then multiset(names)[t] else 0
    decreases |names|
  {
    if names != [] {
      assert names == [names[0]] + names[1..];
      KeepValidCounts(names[1..]);
    }
  }

  /** The names the validation loop keeps when it tests the pattern as
      Python evaluates it, trailing-newline rule included. */
  function KeepMatchingAsWritten(names: seq<string>): seq<string>
    decreases |names|
  {
    if names == [] then []
    else
      var rest := KeepMatchingAsWritten(names[1..]);
      if MatchesAsWritten(names[0]) then [names[0]] + rest else rest
  }

  /** A name ending in a newline. */
  predicate EndsWithNewline(t: string) {
    |t| > 0 && t[|t| - 1] == '\n'
  }

  /** Every name the loop as written lets through is an identifier, or an
      identifier followed by one newline. */
  lemma {:induction false} AsWrittenFilterBound(names: seq<string>)
    ensures forall t :: t in KeepMatchingAsWritten(names) ==>
      IsIdentifier(t) || (EndsWithNewline(t) && IsIdentifier(t[..|t| - 1]))
    decreases |names|
  {
    if names != [] {
      AsWrittenFilterBound(names[1..]);
      MatchesAsWrittenIff(names[0]);
    }
  }

  /** On a catalog in which no name ends with a newline, the loop as written
      keeps exactly the names the corrected validator keeps. */
  lemma {:induction false} AsWrittenFilterAgreesOffNewlines(names: seq<string>)
    requires forall i :: 0 <= i < |names| ==> !EndsWithNewline(names[i])
    ensures KeepMatchingAsWritten(names) == KeepValid(names)
    decreases |names|
  {
    if names != [] {
      MatchesAsWrittenIff(names[0]);
      assert forall i :: 0 <= i < |names[1..]| ==> names[1..][i] == names[i + 1];
      AsWrittenFilterAgreesOffNewlines(names[1..]);
    }
  }

  /** The name the loop as written lets through and the corrected one skips. */
  lemma AsWrittenFilterKeepsTrailingNewline()
    ensures KeepMatchingAsWritten(["a\n"]) == ["a\n"] && KeepValid(["a\n"]) == []
  {
    TrailingNewlinePassesAsWritten();
    var names := ["a\n"];
    assert names[1..] == [];
  }

  /** `a` is `b` with some elements removed and the others kept in order. */
  predicate IsSubsequence(a: seq<string>, b: seq<string>)
    decreases |b|
  {
    a == [] ||
    (b != [] && ((a[0] == b[0] && IsSubsequence(a[1..], b[1..])) || IsSubsequence(a, b[1..])))
  }

  lemma {:induction false} KeepValidIsSubsequence(names: seq<string>)
    ensures IsSubsequence(KeepValid(names), names)
    decreases |names|
  {
    if names != [] {
      KeepValidIsSubsequence(names[1..]);
    }
  }

  lemma {:induction false} WithoutMigrationsIsSubsequence(names: seq<string>)
    ensures IsSubsequence(WithoutMigrations(names), names)
    decreases |names|
  {
    if names != [] {
      WithoutMigrationsIsSubsequence(names[1..]);
    }
  }

  lemma {:induction false} SubsequenceTransitive(a: seq<string>, b: seq<string>, c: seq<string>)
    requires IsSubsequence(a, b) && IsSubsequence(b, c)
    ensures IsSubsequence(a, c)
    decreases |c|
  {
    if a != [] {
      assert b != [] && c != [];
      if b[0] == c[0] && IsSubsequence(b[1..], c[1..]) {
        if a[0] == b[0] && IsSubsequence(a[1..], b[1..]) {
          SubsequenceTransitive(a[1..], b[1..], c[1..]);
        } else {
          SubsequenceTransitive(a, b[1..], c[1..]);
        }
      } else {
        SubsequenceTransitive(a, b, c[1..]);
      }
    }
  }

  /** The names the truncate loop issues a statement for. */
  function TruncateTargets(names: seq<string>): seq<string> {
    KeepValid(WithoutMigrations(names))
  }

  /** The truncate targets are exactly the catalog names that are valid
      identifiers and not the migration table, each as often as it is listed,
      in catalog order. */
  lemma TruncateTargetsExactly(names: seq<string>)
    ensures forall t :: multiset(TruncateTargets(names))[t] ==
                        if IsIdentifier(t) && t != MigrationTable then multiset(names)[t] else 0
    ensures forall t :: t in TruncateTargets(names) <==> t in names && IsIdentifier(t) && t != MigrationTable
    ensures IsSubsequence(TruncateTargets(names), names)
    ensures names == [] ==> TruncateTargets(names) == []
  {
    var targets := TruncateTargets(names);
    WithoutMigrationsCounts(names);
    KeepValidCounts(WithoutMigrations(names));
    forall t
      ensures t in targets <==> t in names && IsIdentifier(t) && t != MigrationTable
    {
      assert t in targets <==> multiset(targets)[t] > 0;
      assert t in names <==> multiset(names)[t] > 0;
    }
    KeepValidIsSubsequence(WithoutMigrations(names));
    WithoutMigrationsIsSubsequence(names);
    SubsequenceTransitive(targets, WithoutMigrations(names), names);
  }

  /** The drop targets are exactly the valid catalog names, the migration
      table included. */
  lemma DropTargetsExactly(names: seq<string>)
    ensures forall t :: t in KeepValid(names) <==> t in names && IsIdentifier(t)
    ensures MigrationTable in names ==> MigrationTable in KeepValid(names)
    ensures IsSubsequence(KeepValid(names), names)
  {
    var targets := KeepValid(names);
    KeepValidCounts(names);
    forall t
      ensures t in targets <==> t in names && IsIdentifier(t)
    {
      assert t in targets <==> multiset(targets)[t] > 0;
      assert t in names <==> multiset(names)[t] > 0;
    }
    assert IsIdentifier(MigrationTable) by {
      assert forall i :: 1 <= i < |MigrationTable| ==> IsIdentChar(MigrationTable[i]);
    }
    KeepValidIsSubsequence(names);
  }
}
