/** The database-URL checks of the production configuration: the URL must be
    given, must name PostgreSQL, and is made to require TLS. */
module Config {
  import opened Basics

  datatype ConfigError =
    | MissingDatabaseUrl(production: bool)
    | NotPostgres

  const SslParameter := "sslmode="
  const SslRequired := "sslmode=require"

  predicate PostgresUrl(url: string)
  {
    StartsWith(url, "postgresql://") || StartsWith(url, "postgres://")
  }

  /** The separator before an appended query parameter. */
  function Separator(url: string): string
  {
    if '?' in url then "&" else "?"
  }

  /** `DATABASE_URL` as the configuration class settles it. An absent or empty
      value is refused in either environment. */
  function Normalize(url: Option<string>, production: bool): (r: Result<string, ConfigError>)
    ensures r.Err? <==> url.None? || url.value == [] || !PostgresUrl(url.value)
    ensures r.Err? ==> (r.error.MissingDatabaseUrl? <==> url.None? || url.value == [])
    ensures r.Ok? ==> StartsWith(r.value, url.value)
  {
    if url.None? || url.value == [] then Err(MissingDatabaseUrl(production))
    else if !PostgresUrl(url.value) then Err(NotPostgres)
    else if Contains(url.value, SslParameter) then Ok(url.value)
    else
      var u := url.value + Separator(url.value) + SslRequired;
      assert u[..|url.value|] == url.value;
      Ok(u)
  }

  /** A PostgreSQL URL that already names an `sslmode` is kept as it is; one
      that does not gets `sslmode=require`, after `&` when it already has a
      query and after `?` otherwise. */
  lemma NormalizeSsl(url: string, production: bool)
    requires url != [] && PostgresUrl(url)
    ensures Contains(url, SslParameter) ==> Normalize(Some(url), production) == Ok(url)
    ensures !Contains(url, SslParameter) && '?' in url ==> Normalize(Some(url), production) == Ok(url + "&" + SslRequired)
    ensures !Contains(url, SslParameter) && '?' !in url ==> Normalize(Some(url), production) == Ok(url + "?" + SslRequired)
  {
  }

  /** Every accepted URL names an `sslmode` and is still a PostgreSQL URL. */
  lemma NormalizedRequiresSsl(url: Option<string>, production: bool)
    requires Normalize(url, production).Ok?
    ensures Contains(Normalize(url, production).value, SslParameter)
    ensures PostgresUrl(Normalize(url, production).value)
  {
    var u := url.value;
    var r := Normalize(url, production).value;
    if !Contains(u, SslParameter) {
      var i := |u| + 1;
      assert r[i..i + |SslParameter|] == SslParameter;
      ContainsAt(r, SslParameter, i);
    }
    PrefixKeepsStart(u, r);
  }

  lemma PrefixKeepsStart(u: string, r: string)
    requires StartsWith(r, u) && PostgresUrl(u)
    ensures PostgresUrl(r)
  {
    if StartsWith(u, "postgresql://") {
      assert r[..13] == u[..13];
    } else {
      assert r[..11] == u[..11];
    }
  }

  /** Normalising a normalised URL changes nothing, in either environment. */
  lemma NormalizeIdempotent(url: Option<string>, production: bool, again: bool)
    requires Normalize(url, production).Ok?
    ensures Normalize(Some(Normalize(url, production).value), again) == Normalize(url, production)
  {
    NormalizedRequiresSsl(url, production);
  }
}
