/**
 * The server's `Config.__init__` after the file is read: environment
 * placeholders are replaced, then the settings are picked out of the parsed
 * JSON object with their defaults.
 */
module ServerConfig {
  import opened Wrappers
  import opened EnvConfig

  /** `dict.get(key)` on a parsed JSON object; a repeated key means its last value, as `json.load` keeps it. */
  function Lookup(ms: seq<Member>, key: string): (r: Option<Json>)
    ensures r.None? <==> forall i :: 0 <= i < |ms| ==> ms[i].key != key
    ensures r.Some? ==> exists i :: LastOfKey(ms, i) && ms[i].key == key && ms[i].value == r.value
  {
    if ms == [] then None
    else if ms[|ms| - 1].key == key then
      assert LastOfKey(ms, |ms| - 1);
      Some(ms[|ms| - 1].value)
    else
      var front := ms[..|ms| - 1];
      var r := Lookup(front, key);
      if r.Some? then
        var i :| LastOfKey(front, i) && front[i].key == key && front[i].value == r.value;
        LastOfKeyExtends(ms, i);
        r
      else r
  }

  /** `d.get(key, default)` */
  function GetOr(ms: seq<Member>, key: string, default: Json): (r: Json)
    ensures (forall i :: 0 <= i < |ms| ==> ms[i].key != key) ==> r == default
    ensures Lookup(ms, key).Some? ==> r == Lookup(ms, key).value
  {
    match Lookup(ms, key)
    case Some(v) => v
    case None => default
  }

  /** The fields `__init__` sets. */
  datatype Settings = Settings(allowedOrigins: Json, dbUrl: Option<string>, uvicornLogConfig: Json)

  /** Why `__init__` raises: a placeholder's variable is unset, or `server_config` is not an object. */
  datatype ConfigError = MissingVariable(name: string) | ServerConfigNotObject

  /** `["*"]`: every origin allowed. */
  const AllOrigins: Json := JList([JString("*")])

  /**
   * `Config.__init__` on the file's JSON text `file`, as members in the order
   * written, and the process environment `env`: `json.load` builds the dict,
   * then placeholders are replaced, then `server_config.allowed_origins` (default
   * `["*"]`), `DATABASE_URL` from the environment, and `uvicorn_log_config`
   * (default `{}`).
   */
  function SettingsFrom(file: seq<Member>, env: map<string, string>): (r: Result<Settings, ConfigError>)
    ensures Replace(LoadObject(file), env).1.Some? <==> r.Failure? && r.error.MissingVariable?
    ensures r.Failure? && r.error.MissingVariable? ==> r.error.name !in env
    ensures r.Success? ==> r.value.dbUrl == (if "DATABASE_URL" in env then Some(env["DATABASE_URL"]) else None)
  {
    var (config, missing) := Replace(LoadObject(file), env);
    if missing.Some? then Failure(MissingVariable(missing.value))
    else
      match GetOr(config, "server_config", JObject([]))
      case JObject(server) =>
        Success(Settings(
          GetOr(server, "allowed_origins", AllOrigins),
          if "DATABASE_URL" in env then Some(env["DATABASE_URL"]) else None,
          GetOr(config, "uvicorn_log_config", JObject([]))))
      case _ => Failure(ServerConfigNotObject)
  }

  /** A key the file never writes is not a key of the loaded dict. */
  lemma LoadedKeysAbsent(file: seq<Member>, key: string)
    requires key !in KeySet(file)
    ensures forall i :: 0 <= i < |LoadObject(file)| ==> LoadObject(file)[i].key != key
  {
    var raw := LoadObject(file);
    LoadObjectKeepsLast(file);
    assert forall i :: 0 <= i < |raw| ==> raw[i].key in KeySet(raw);
  }

  /** When every loaded value of the file is bound, so is every value of the loaded dict. */
  lemma LoadedValuesBound(file: seq<Member>, env: map<string, string>)
    requires forall i :: 0 <= i < |file| ==> Bound(Load(file[i].value), env)
    ensures forall i :: 0 <= i < |LoadObject(file)| ==> Bound(LoadObject(file)[i].value, env)
  {
    var raw := LoadObject(file);
    LoadObjectKeepsLast(file);
    forall i | 0 <= i < |raw| ensures Bound(raw[i].value, env) {
      assert raw[i] in raw;
      var j :| LastOfKey(file, j) && raw[i] == Member(file[j].key, Load(file[j].value));
    }
  }

  /** Without `server_config` every origin is allowed and, without `uvicorn_log_config`, the log config is `{}`. */
  lemma DefaultsWhenAbsent(file: seq<Member>, env: map<string, string>)
    requires "server_config" !in KeySet(file) && "uvicorn_log_config" !in KeySet(file)
    requires forall i :: 0 <= i < |file| ==> Bound(Load(file[i].value), env)
    ensures SettingsFrom(file, env).Success?
    ensures SettingsFrom(file, env).value.allowedOrigins == AllOrigins
    ensures SettingsFrom(file, env).value.uvicornLogConfig == JObject([])
  {
    var raw := LoadObject(file);
    LoadedKeysAbsent(file, "server_config");
    LoadedKeysAbsent(file, "uvicorn_log_config");
    LoadedValuesBound(file, env);
    ReplaceSucceedsIffBound(raw, env);
    ReplaceKeepsKeys(raw, env);
    var config := Replace(raw, env).0;
    assert forall i :: 0 <= i < |config| ==> config[i].key == raw[i].key;
  }

  /** A `server_config` object without `allowed_origins` still allows every origin. */
  lemma DefaultOriginsWhenKeyAbsent(file: seq<Member>, env: map<string, string>, server: seq<Member>)
    requires Replace(LoadObject(file), env).1.None?
    requires GetOr(Replace(LoadObject(file), env).0, "server_config", JObject([])) == JObject(server)
    requires forall i :: 0 <= i < |server| ==> server[i].key != "allowed_origins"
    ensures SettingsFrom(file, env).Success? && SettingsFrom(file, env).value.allowedOrigins == AllOrigins
  {
  }

  /** A `server_config` that is present but not an object makes `__init__` raise. */
  lemma NonObjectServerConfigFails(file: seq<Member>, env: map<string, string>)
    requires Replace(LoadObject(file), env).1.None?
    requires Lookup(Replace(LoadObject(file), env).0, "server_config").Some?
    requires !Lookup(Replace(LoadObject(file), env).0, "server_config").value.JObject?
    ensures SettingsFrom(file, env) == Failure(ServerConfigNotObject)
  {
  }
}
