/** The Django settings computed from the process environment, which is a parameter here. */
module SettingsUtils {
  import opened Wrappers
  import opened PyStr

  type Environment = map<string, string>

  const SqliteEngine := "django.db.backends.sqlite3"
  const PostgresEngine := "django.db.backends.postgres"

  /** `ENV.get(key, default)`. */
  function Get(env: Environment, key: string, default: string): string {
    if key in env then env[key] else default
  }

  /** `gen_allowed_hosts_setting`: the comma-separated hosts, empty entries left out. */
  function AllowedHosts(env: Environment): (r: seq<string>)
    ensures ("HARE_ALLOWED_HOSTS" !in env || env["HARE_ALLOWED_HOSTS"] == "") ==> r == []
    ensures forall k :: 0 <= k < |r| ==> r[k] != "" && ',' !in r[k]
  {
    if "HARE_ALLOWED_HOSTS" !in env || env["HARE_ALLOWED_HOSTS"] == "" then []
    else
      var hosts := Split(env["HARE_ALLOWED_HOSTS"], ",");
      SplitCharPieces(env["HARE_ALLOWED_HOSTS"], ',');
      DropEmpty(hosts)
  }

  /** Hosts joined with commas are read back in order. */
  lemma AllowedHostsRoundTrip(env: Environment, hosts: seq<string>)
    requires forall k :: 0 <= k < |hosts| ==> hosts[k] != "" && ',' !in hosts[k]
    ensures AllowedHosts(env["HARE_ALLOWED_HOSTS" := Join(",", hosts)]) == hosts
  {
    if hosts != [] {
      JoinFirst(",", hosts);
      SplitJoin(hosts, ',');
      DropEmptyAll(hosts);
    }
  }

  /** Any comma-joined pieces are read back as those pieces with the empty ones left out,
      in their order. */
  lemma AllowedHostsOfPieces(env: Environment, xs: seq<string>)
    requires xs != []
    requires forall k :: 0 <= k < |xs| ==> ',' !in xs[k]
    ensures AllowedHosts(env["HARE_ALLOWED_HOSTS" := Join(",", xs)]) == DropEmpty(xs)
  {
    var s := Join(",", xs);
    var e := env["HARE_ALLOWED_HOSTS" := s];
    assert "HARE_ALLOWED_HOSTS" in e && e["HARE_ALLOWED_HOSTS"] == s;
    if s == "" {
      JoinEmpty(",", xs);
      DropEmptySingleton("");
    } else {
      SplitJoin(xs, ',');
    }
  }

  /** A doubled comma keeps the hosts on either side, in order. */
  lemma AllowedHostsSkipsEmpty(env: Environment, a: string, b: string)
    requires a != "" && b != "" && ',' !in a && ',' !in b
    ensures AllowedHosts(env["HARE_ALLOWED_HOSTS" := a + "," + "," + b]) == [a, b]
  {
    JoinWithEmpty(",", a, b);
    AllowedHostsOfPieces(env, [a, "", b]);
    DropEmptyMiddle(a, b);
  }

  /** `gen_databases_setting`: SQLite by default; PostgreSQL needs a host, a user and a
      password, checked in that order, an empty value counting as missing. */
  function Databases(env: Environment, baseDir: string): (r: Result<map<string, string>>)
    ensures var engine := Get(env, "HARE_DB_ENGINE", SqliteEngine);
      && (r.Ok? ==> "ENGINE" in r.value && r.value["ENGINE"] == engine)
      && (engine == SqliteEngine ==>
            r == Ok(map["ENGINE" := engine, "NAME" := Get(env, "HARE_DB_NAME", baseDir + "/hare.db")]))
      && (engine != SqliteEngine && engine != PostgresEngine ==>
            r == Raise(ImproperlyConfigured, "Unsupported database engine " + engine))
      && (engine == PostgresEngine ==>
            && (r.Ok? <==> Get(env, "HARE_DB_HOST", "") != "" && Get(env, "HARE_DB_USER", "") != ""
                           && Get(env, "HARE_DB_PASSWORD", "") != "")
            && (r.Ok? ==> r.value.Keys == {"ENGINE", "NAME", "HOST", "PORT", "USER", "PASSWORD"}
                          && r.value["NAME"] == Get(env, "HARE_DB_NAME", "hare")
                          && r.value["PORT"] == Get(env, "HARE_DB_PORT", "5432")
                          && r.value["HOST"] == env["HARE_DB_HOST"]
                          && r.value["USER"] == env["HARE_DB_USER"]
                          && r.value["PASSWORD"] == env["HARE_DB_PASSWORD"]))
    ensures r.Err? ==> r.error.kind == ImproperlyConfigured
  {
    var engine := Get(env, "HARE_DB_ENGINE", SqliteEngine);
    if engine == SqliteEngine then
      Ok(map["ENGINE" := engine, "NAME" := Get(env, "HARE_DB_NAME", baseDir + "/hare.db")])
    else if engine != PostgresEngine then
      Raise(ImproperlyConfigured, "Unsupported database engine " + engine)
    else
      var name := Get(env, "HARE_DB_NAME", "hare");
      var port := Get(env, "HARE_DB_PORT", "5432");
      var host := Get(env, "HARE_DB_HOST", "");
      if host == "" then Raise(ImproperlyConfigured, "Must supply database host")
      else
        var user := Get(env, "HARE_DB_USER", "");
        if user == "" then Raise(ImproperlyConfigured, "Must supply database user")
        else
          var password := Get(env, "HARE_DB_PASSWORD", "");
          if password == "" then Raise(ImproperlyConfigured, "Must supply database password")
          else
            Ok(map["ENGINE" := engine, "NAME" := name, "HOST" := host, "PORT" := port,
                   "USER" := user, "PASSWORD" := password])
  }

  /** The host is asked for first: without one the other credentials do not matter. */
  lemma HostCheckedFirst(env: Environment, baseDir: string, user: string, password: string)
    requires Get(env, "HARE_DB_ENGINE", SqliteEngine) == PostgresEngine
    requires Get(env, "HARE_DB_HOST", "") == ""
    ensures Databases(env, baseDir) == Raise(ImproperlyConfigured, "Must supply database host")
    ensures Databases(env["HARE_DB_USER" := user]["HARE_DB_PASSWORD" := password], baseDir) ==
            Raise(ImproperlyConfigured, "Must supply database host")
  {
    var env2 := env["HARE_DB_USER" := user]["HARE_DB_PASSWORD" := password];
    assert Get(env2, "HARE_DB_ENGINE", SqliteEngine) == PostgresEngine;
    assert Get(env2, "HARE_DB_HOST", "") == "";
  }

  /** `gen_debug_setting`: debug everywhere but in production. */
  function Debug(env: Environment): (r: bool)
    ensures r <==> !("HARE_ENV" in env && env["HARE_ENV"] == "production")
  {
    Get(env, "HARE_ENV", "development") != "production"
  }
}
