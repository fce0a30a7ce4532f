/** Choosing the database from the DATABASE_URL environment variable. Some
    hosting platforms hand out URLs with the scheme `postgres://`, which the
    database library no longer accepts; they are rewritten to
    `postgresql://`. Without a URL the application falls back to a local
    SQLite file. */
module DatabaseUrl {
  import opened Options

  const PostgresScheme := "postgres://"
  const PostgresqlScheme := "postgresql://"
  const SqliteDefault := "sqlite:///inventory.db"
  const PoolRecycleSeconds := 300

  /** Connection-pool settings applied only to a configured (server) database. */
  datatype EngineOptions = EngineOptions(poolPrePing: bool, poolRecycle: int)

  datatype DatabaseConfig = DatabaseConfig(uri: string, engineOptions: Option<EngineOptions>)

  predicate StartsWith(s: string, prefix: string) {
    |prefix| <= |s| && s[..|prefix|] == prefix
  }

  predicate OccursAt(s: string, target: string, k: int) {
    0 <= k && k + |target| <= |s| && s[k..k + |target|] == target
  }

  /** `s` with its first occurrence of `target` replaced by `replacement`
      (string replace with a count of one); `s` itself when `target` does
      not occur. */
  function ReplaceFirst(s: string, target: string, replacement: string): (r: string)
    requires target != []
    ensures StartsWith(s, target) ==> r == replacement + s[|target|..]
    ensures (forall k :: 0 <= k <= |s| ==> !OccursAt(s, target, k)) ==> r == s
    decreases |s|
  {
    if |s| < |target| then s
    else if s[..|target|] == target then
      assert OccursAt(s, target, 0);
      replacement + s[|target|..]
    else
      AbsentFromTail(s, target);
      assert s == [s[0]] + s[1..];
      [s[0]] + ReplaceFirst(s[1..], target, replacement)
  }

  /** A string that nowhere contains `target` does not contain it after its
      first character either. */
  lemma AbsentFromTail(s: string, target: string)
    requires s != []
    ensures (forall k :: 0 <= k <= |s| ==> !OccursAt(s, target, k)) ==>
              forall k :: 0 <= k <= |s[1..]| ==> !OccursAt(s[1..], target, k)
  {
    if forall k :: 0 <= k <= |s| ==> !OccursAt(s, target, k) {
      forall k | 0 <= k <= |s[1..]| ensures !OccursAt(s[1..], target, k) {
        assert !OccursAt(s, target, k + 1);
        if k + |target| <= |s[1..]| {
          assert s[1..][k..k + |target|] == s[k + 1..k + 1 + |target|];
        }
      }
    }
  }

  /** The URL after the scheme rewrite; an empty or missing URL is left as
      it is. */
  function NormalizeUrl(url: Option<string>): Option<string> {
    if url.Some? && url.value != [] && StartsWith(url.value, PostgresScheme)
    then Some(ReplaceFirst(url.value, PostgresScheme, PostgresqlScheme))
    else url
  }

  /** The database the application connects to, given the environment's
      DATABASE_URL (None when unset). A set but empty variable counts as
      unset. */
  function Configure(env: Option<string>): (c: DatabaseConfig)
    ensures env.Some? && StartsWith(env.value, PostgresScheme) ==>
              c.uri == PostgresqlScheme + env.value[|PostgresScheme|..]
    ensures env.Some? && env.value != [] && !StartsWith(env.value, PostgresScheme) ==>
              c.uri == env.value
    ensures (env.None? || env.value == []) ==> c == DatabaseConfig(SqliteDefault, None)
    ensures c.engineOptions.Some? <==> env.Some? && env.value != []
  {
    var url := NormalizeUrl(env);
    if url.Some? && url.value != [] then
      DatabaseConfig(url.value, Some(EngineOptions(true, PoolRecycleSeconds)))
    else
      DatabaseConfig(SqliteDefault, None)
  }

  /** Configuring from an already chosen URL chooses it again. */
  lemma ConfigureIdempotent(env: Option<string>)
    ensures Configure(Some(Configure(env).uri)).uri == Configure(env).uri
  {
    var c := Configure(env);
    assert !StartsWith(SqliteDefault, PostgresScheme) by {
      assert SqliteDefault[0] != PostgresScheme[0];
    }
    if env.Some? && StartsWith(env.value, PostgresScheme) {
      assert c.uri[8] == PostgresqlScheme[8] != PostgresScheme[8];
    }
  }
}
