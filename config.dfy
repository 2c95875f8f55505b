/** The application settings and the driver rewrite of the database URL: the asynchronous
    engine needs the `postgresql+asyncpg://` scheme where the environment gives
    `postgresql://`. */
module Config {

  const SyncScheme := "postgresql://"
  const AsyncScheme := "postgresql+asyncpg://"

  predicate StartsWith(s: string, prefix: string) {
    |prefix| <= |s| && s[..|prefix|] == prefix
  }

  /** `s.replace(target, replacement, 1)`: the first occurrence of `target` replaced (an empty
      `target` occurs at the front). */
  function ReplaceFirst(s: string, target: string, replacement: string): string
    decreases |s|
  {
    if StartsWith(s, target) then replacement + s[|target|..]
    else if |s| <= |target| then s
    else [s[0]] + ReplaceFirst(s[1..], target, replacement)
  }

  /** The settings read from the environment, with their defaults. */
  datatype Settings = Settings(databaseUrl: string, backendHost: string, backendPort: int)
  {
    /** `async_database_url`: the URL with its `postgresql://` scheme switched to the asyncpg
        driver; any other URL as it is. */
    function AsyncDatabaseUrl(): (u: string)
      ensures StartsWith(databaseUrl, SyncScheme) ==> u == AsyncScheme + databaseUrl[|SyncScheme|..]
      ensures !StartsWith(databaseUrl, SyncScheme) ==> u == databaseUrl
    {
      if StartsWith(databaseUrl, SyncScheme) then ReplaceFirst(databaseUrl, SyncScheme, AsyncScheme)
      else databaseUrl
    }
  }

  /** `Settings()`: the required `DATABASE_URL` from the environment, the host and port at
      their defaults. */
  function FromEnvironment(databaseUrl: string): Settings {
    Settings(databaseUrl, "0.0.0.0", 8000)
  }

  /** The engine of freshly loaded settings gets the asyncpg driver exactly when the
      environment names PostgreSQL with either scheme; the server listens on all interfaces,
      port 8000. */
  lemma FromEnvironmentDriver(databaseUrl: string)
    ensures StartsWith(FromEnvironment(databaseUrl).AsyncDatabaseUrl(), AsyncScheme)
            <==> StartsWith(databaseUrl, SyncScheme) || StartsWith(databaseUrl, AsyncScheme)
    ensures FromEnvironment(databaseUrl).backendHost == "0.0.0.0"
    ensures FromEnvironment(databaseUrl).backendPort == 8000
  {
    var u := FromEnvironment(databaseUrl).AsyncDatabaseUrl();
    if StartsWith(databaseUrl, SyncScheme) {
      assert u[..|AsyncScheme|] == AsyncScheme;
    }
  }

  /** The rewritten URL no longer has the synchronous scheme, so rewriting it again changes
      nothing. */
  lemma AsyncUrlIdempotent(s: Settings)
    ensures !StartsWith(s.AsyncDatabaseUrl(), SyncScheme)
    ensures s.(databaseUrl := s.AsyncDatabaseUrl()).AsyncDatabaseUrl() == s.AsyncDatabaseUrl()
  {
    var u := s.AsyncDatabaseUrl();
    if StartsWith(s.databaseUrl, SyncScheme) {
      assert u[10] == '+' != SyncScheme[10];
      assert !StartsWith(u, SyncScheme);
    }
  }

  /** The URL grows by exactly the eight characters `+asyncpg` when, and only when, it had the
      synchronous scheme. */
  lemma AsyncUrlLength(s: Settings)
    ensures |s.AsyncDatabaseUrl()| == |s.databaseUrl| + 8 <==> StartsWith(s.databaseUrl, SyncScheme)
    ensures !StartsWith(s.databaseUrl, SyncScheme) ==> |s.AsyncDatabaseUrl()| == |s.databaseUrl|
  {
  }
}
