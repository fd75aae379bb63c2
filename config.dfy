/** Choosing and normalising the connection string (`DatabaseReset.__init__`). */
module Config {
  import opened Text

  datatype Option<T> = None | Some(value: T)

  /** The two environment variables the script reads; `None` when unset. */
  datatype Env = Env(publicUrl: Option<string>, internalUrl: Option<string>)

  /** Python truthiness of an `os.getenv` result: unset and empty are both false. */
  predicate Truthy(v: Option<string>) {
    v.Some? && v.value != ""
  }

  const AsyncpgScheme := "postgresql+asyncpg://"
  const Psycopg2Scheme := "postgresql+psycopg2://"
  const PlainScheme := "postgresql://"

  /** `public_url or internal_url`, followed by the `if not ...: raise ValueError`
      check: `None` stands for the configuration error. */
  function SelectUrl(env: Env): (r: Option<string>)
    ensures r.None? <==> !Truthy(env.publicUrl) && !Truthy(env.internalUrl)
    ensures r.Some? ==> r.value != ""
    ensures Truthy(env.publicUrl) ==> r == env.publicUrl
    ensures !Truthy(env.publicUrl) && Truthy(env.internalUrl) ==> r == env.internalUrl
  {
    var chosen := if Truthy(env.publicUrl) then env.publicUrl else env.internalUrl;
    if Truthy(chosen) then chosen else None
  }

  /** The two rewrites of the constructor, in order: each applies when the
      current URL starts with the driver-specific scheme, and then replaces
      every occurrence of it, not only the leading one. */
  function NormalizeUrl(url: string): string {
    var afterAsyncpg := if StartsWith(url, AsyncpgScheme)
      then ReplaceAll(url, AsyncpgScheme, PlainScheme) else url;
    if StartsWith(afterAsyncpg, Psycopg2Scheme)
    then ReplaceAll(afterAsyncpg, Psycopg2Scheme, PlainScheme) else afterAsyncpg
  }

  /** What normalisation does to each kind of URL: a driver scheme at the
      front becomes the plain scheme and the rest of the URL has every further
      occurrence of that same driver scheme rewritten; any other URL is
      returned unchanged. */
  lemma NormalizeUrlCases(url: string)
    ensures StartsWith(url, AsyncpgScheme) ==>
      NormalizeUrl(url) == PlainScheme + ReplaceAll(url[|AsyncpgScheme|..], AsyncpgScheme, PlainScheme)
    ensures StartsWith(url, Psycopg2Scheme) ==>
      NormalizeUrl(url) == PlainScheme + ReplaceAll(url[|Psycopg2Scheme|..], Psycopg2Scheme, PlainScheme)
    ensures !StartsWith(url, AsyncpgScheme) && !StartsWith(url, Psycopg2Scheme) ==> NormalizeUrl(url) == url
  {
    if StartsWith(url, AsyncpgScheme) {
      ReplaceAllLeading(url, AsyncpgScheme, PlainScheme);
      var after := ReplaceAll(url, AsyncpgScheme, PlainScheme);
      assert !StartsWith(after, Psycopg2Scheme) by {
        assert after[10] == ':' != Psycopg2Scheme[10];
      }
    }
    if StartsWith(url, Psycopg2Scheme) {
      assert !StartsWith(url, AsyncpgScheme) by {
        assert url[11] == 'p' != AsyncpgScheme[11];
      }
      ReplaceAllLeading(url, Psycopg2Scheme, PlainScheme);
    }
  }

  /** The plain scheme cannot be part of an asyncpg scheme, neither from
      within nor across its left edge. */
  lemma PlainSchemeCannotFormAsyncpg()
    ensures NoPatternInto(AsyncpgScheme, PlainScheme) && NoPatternAcross(AsyncpgScheme, PlainScheme)
  {
    forall i | 0 <= i < |PlainScheme|
      ensures DisagreesFrom(PlainScheme, AsyncpgScheme, i)
    {
      if i == 0 {
        assert PlainScheme[10] != AsyncpgScheme[10];
      } else {
        assert PlainScheme[i + 0] != AsyncpgScheme[0];
      }
    }
    forall j | 1 <= j < |AsyncpgScheme|
      ensures DisagreesFrom(AsyncpgScheme, PlainScheme, j)
    {
      if j == 16 {
        assert AsyncpgScheme[j + 1] != PlainScheme[1];
      } else {
        assert AsyncpgScheme[j + 0] != PlainScheme[0];
      }
    }
  }

  /** The same for the psycopg2 scheme. */
  lemma PlainSchemeCannotFormPsycopg2()
    ensures NoPatternInto(Psycopg2Scheme, PlainScheme) && NoPatternAcross(Psycopg2Scheme, PlainScheme)
  {
    forall i | 0 <= i < |PlainScheme|
      ensures DisagreesFrom(PlainScheme, Psycopg2Scheme, i)
    {
      if i == 0 {
        assert PlainScheme[10] != Psycopg2Scheme[10];
      } else {
        assert PlainScheme[i + 0] != Psycopg2Scheme[0];
      }
    }
    forall j | 1 <= j < |Psycopg2Scheme|
      ensures DisagreesFrom(Psycopg2Scheme, PlainScheme, j)
    {
      if j == 11 || j == 16 {
        assert Psycopg2Scheme[j + 1] != PlainScheme[1];
      } else {
        assert Psycopg2Scheme[j + 0] != PlainScheme[0];
      }
    }
  }

  /** Normalising a driver-prefixed URL rewrites every occurrence of that
      driver scheme: none is left anywhere in the result. */
  lemma NormalizeRemovesDriverScheme(url: string)
    ensures StartsWith(url, AsyncpgScheme) ==> !Contains(NormalizeUrl(url), AsyncpgScheme)
    ensures StartsWith(url, Psycopg2Scheme) ==> !Contains(NormalizeUrl(url), Psycopg2Scheme)
  {
    if StartsWith(url, AsyncpgScheme) {
      NormalizeUrlCases(url);
      ReplaceAllLeading(url, AsyncpgScheme, PlainScheme);
      PlainSchemeCannotFormAsyncpg();
      ReplaceAllRemovesEveryOccurrence(url, AsyncpgScheme, PlainScheme);
    }
    if StartsWith(url, Psycopg2Scheme) {
      NormalizeUrlCases(url);
      ReplaceAllLeading(url, Psycopg2Scheme, PlainScheme);
      PlainSchemeCannotFormPsycopg2();
      ReplaceAllRemovesEveryOccurrence(url, Psycopg2Scheme, PlainScheme);
    }
  }

  /** Only the scheme is rewritten: the user, host, port and database after
      it are kept as they are, unless the driver scheme occurs there too. */
  lemma NormalizeKeepsWhatFollowsTheScheme(rest: string)
    ensures !Contains(rest, AsyncpgScheme) ==> NormalizeUrl(AsyncpgScheme + rest) == PlainScheme + rest
    ensures !Contains(rest, Psycopg2Scheme) ==> NormalizeUrl(Psycopg2Scheme + rest) == PlainScheme + rest
  {
    var u := AsyncpgScheme + rest;
    assert StartsWith(u, AsyncpgScheme) && u[|AsyncpgScheme|..] == rest;
    NormalizeUrlCases(u);
    if !Contains(rest, AsyncpgScheme) {
      ReplaceAllWithoutOccurrence(rest, AsyncpgScheme, PlainScheme);
    }
    var v := Psycopg2Scheme + rest;
    assert StartsWith(v, Psycopg2Scheme) && v[|Psycopg2Scheme|..] == rest;
    NormalizeUrlCases(v);
    if !Contains(rest, Psycopg2Scheme) {
      ReplaceAllWithoutOccurrence(rest, Psycopg2Scheme, PlainScheme);
    }
  }

  /** A driver-prefixed URL ends up with the plain scheme. */
  lemma NormalizedSchemeIsPlain(url: string)
    requires StartsWith(url, AsyncpgScheme) || StartsWith(url, Psycopg2Scheme)
    ensures StartsWith(NormalizeUrl(url), PlainScheme)
  {
    NormalizeUrlCases(url);
    var r := NormalizeUrl(url);
    assert r[..|PlainScheme|] == PlainScheme;
  }

  /** A URL that mentions neither driver scheme anywhere is passed through. */
  lemma NormalizeKeepsOtherUrls(url: string)
    requires !Contains(url, AsyncpgScheme) && !Contains(url, Psycopg2Scheme)
    ensures NormalizeUrl(url) == url
  {
    if StartsWith(url, AsyncpgScheme) {
      assert OccursAt(url, AsyncpgScheme, 0);
    }
    if StartsWith(url, Psycopg2Scheme) {
      assert OccursAt(url, Psycopg2Scheme, 0);
    }
  }

  /** Once the leading scheme is plain, a later driver scheme in the URL that
      the constructor did not rewrite is left alone: the second rewrite only
      tests the start of the string. */
  lemma NormalizeLeavesLaterSchemeAfterPlainPrefix(rest: string)
    ensures NormalizeUrl(PlainScheme + rest) == PlainScheme + rest
  {
    var url := PlainScheme + rest;
    assert url[10] == ':';
    assert !StartsWith(url, AsyncpgScheme) by { assert AsyncpgScheme[10] == '+'; }
    assert !StartsWith(url, Psycopg2Scheme) by { assert Psycopg2Scheme[10] == '+'; }
  }
}
