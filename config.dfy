/**
 * The model table of `config.py`. A `ConfigManager` holds a dictionary from model id
 * to `ModelConfig`, filled by `_load_config` from the tables of a TOML file: the main
 * file when the manager is created, and optionally further files later. An `api_key`
 * of the form `${NAME}` is looked up in the environment.
 *
 * A TOML file is given as its tables in file order, each a model id with its string
 * fields; the environment is a map from variable names to values.
 */
module Config {
  import opened Wrappers
  import opened Strings

  datatype ModelConfig = ModelConfig(endpoint: string, modelName: string, apiKey: string, logicalName: string)

  /** One table of the TOML file: `[model_id]` and its keys. */
  datatype Table = Table(id: string, fields: map<string, string>)

  datatype ConfigError =
    | ConfigFileNotFound
    | MissingField(id: string, field: string)   // the `KeyError` of `model_config[field]`
    | ModelNotFound(id: string)                 // the `KeyError` of `get_model`

  // ---------------------------------------------------------------------
  // One table
  // ---------------------------------------------------------------------

  /** `api_key.startswith("${") and api_key.endswith("}")`. */
  predicate IsPlaceholder(key: string) {
    IsPrefix("${", key) && IsSuffix("}", key)
  }

  /** `os.environ.get(name, "")`. */
  function EnvGet(env: map<string, string>, name: string): string {
    if name in env then env[name] else ""
  }

  /** The `api_key` of a table after placeholder resolution; `""` when the table has none. */
  function ResolveApiKey(fields: map<string, string>, env: map<string, string>): (key: string)
  {
    if "api_key" !in fields then ""
    else
      var raw := fields["api_key"];
      if IsPlaceholder(raw) then
        PlaceholderLength(raw);
        EnvGet(env, raw[2..|raw| - 1])
      else raw
  }

  /** The config of one table, or the `KeyError` of the first required field it lacks. */
  function TableConfig(t: Table, env: map<string, string>): (r: Result<ModelConfig, ConfigError>)
    ensures r.Success? <==> "endpoint" in t.fields && "model_name" in t.fields && "logical_name" in t.fields
  {
    var apiKey := ResolveApiKey(t.fields, env);
    if "endpoint" !in t.fields then Failure(MissingField(t.id, "endpoint"))
    else if "model_name" !in t.fields then Failure(MissingField(t.id, "model_name"))
    else if "logical_name" !in t.fields then Failure(MissingField(t.id, "logical_name"))
    else Success(ModelConfig(t.fields["endpoint"], t.fields["model_name"], apiKey, t.fields["logical_name"]))
  }

  /** `${NAME}` resolves to the environment's value for NAME, or to `""` when it is unset. */
  lemma PlaceholderResolves(fields: map<string, string>, env: map<string, string>, name: string)
    requires "api_key" in fields && fields["api_key"] == "${" + name + "}"
    ensures ResolveApiKey(fields, env) == (if name in env then env[name] else "")
  {
    var raw := fields["api_key"];
    assert IsPrefix("${", raw) by { assert raw[..2] == "${"; }
    assert IsSuffix("}", raw) by { assert raw[|raw| - 1..] == "}"; }
    assert raw[2..|raw| - 1] == name;
  }

  /** Every placeholder names a variable: the key is `${`, the name, then `}`. */
  lemma PlaceholderShape(key: string)
    requires IsPlaceholder(key)
    ensures |key| >= 3 && key == "${" + key[2..|key| - 1] + "}"
  {
    PlaceholderLength(key);
    assert key[..2] == "${" && key[|key| - 1..] == "}";
    assert key == key[..2] + key[2..|key| - 1] + key[|key| - 1..];
  }

  /** `${` and `}` cannot overlap, as `{` is not `}`. */
  lemma PlaceholderLength(key: string)
    requires IsPlaceholder(key)
    ensures |key| >= 3
  {
    assert key[1] == '{' by { assert key[..2][1] == key[1]; }
    assert key[|key| - 1] == '}' by { assert key[|key| - 1..][0] == key[|key| - 1]; }
  }

  /** Any other key is kept as written. */
  lemma LiteralKeyKept(fields: map<string, string>, env: map<string, string>)
    requires "api_key" in fields && !IsPlaceholder(fields["api_key"])
    ensures ResolveApiKey(fields, env) == fields["api_key"]
  {
  }

  /** A successful table keeps its required fields verbatim and gets the resolved key. */
  lemma TableConfigFields(t: Table, env: map<string, string>)
    requires TableConfig(t, env).Success?
    ensures var c := TableConfig(t, env).value;
            && c.endpoint == t.fields["endpoint"] && c.modelName == t.fields["model_name"]
            && c.logicalName == t.fields["logical_name"] && c.apiKey == ResolveApiKey(t.fields, env)
  {
  }

  /** The required fields are looked up in order: the error names the first one missing. */
  lemma TableConfigError(t: Table, env: map<string, string>)
    requires TableConfig(t, env).Failure?
    ensures var e := TableConfig(t, env).error;
            && e.MissingField? && e.id == t.id && e.field !in t.fields
            && (e.field == "model_name" ==> "endpoint" in t.fields)
            && (e.field == "logical_name" ==> "endpoint" in t.fields && "model_name" in t.fields)
  {
  }

  // ---------------------------------------------------------------------
  // The loop of _load_config
  // ---------------------------------------------------------------------

  /** The table after the loop: each table in order stored under its id, up to the first that raises. */
  datatype Loaded = Loaded(models: map<string, ModelConfig>, error: Option<ConfigError>)

  function LoadTables(models: map<string, ModelConfig>, tables: seq<Table>, env: map<string, string>): Loaded
  {
    if tables == [] then Loaded(models, None)
    else
      var prev := LoadTables(models, tables[..|tables| - 1], env);
      var t := tables[|tables| - 1];
      if prev.error.Some? then prev
      else
        match TableConfig(t, env)
        case Failure(e) => Loaded(prev.models, Some(e))
        case Success(c) => Loaded(prev.models[t.id := c], None)
  }

  /** The ids of the tables. */
  function Ids(tables: seq<Table>): set<string> {
    set i | 0 <= i < |tables| :: tables[i].id
  }

  /** Without an error, the ids stored are those held before plus those of the tables. */
  lemma {:induction false} LoadTablesIds(models: map<string, ModelConfig>, tables: seq<Table>, env: map<string, string>)
    requires LoadTables(models, tables, env).error.None?
    ensures LoadTables(models, tables, env).models.Keys == models.Keys + Ids(tables)
  {
    if tables != [] {
      var init := tables[..|tables| - 1];
      LoadTablesIds(models, init, env);
      assert Ids(tables) == Ids(init) + {tables[|tables| - 1].id} by {
        assert forall i :: 0 <= i < |init| ==> init[i] == tables[i];
      }
    }
  }

  /**
   * Without an error, an id of the tables holds the config of its last table (a later
   * table overwrites an earlier one), and any other id keeps what it held.
   */
  lemma {:induction false} LoadTablesLastWins(models: map<string, ModelConfig>, tables: seq<Table>,
                                              env: map<string, string>, k: nat)
    requires LoadTables(models, tables, env).error.None?
    requires k < |tables| && forall j :: k < j < |tables| ==> tables[j].id != tables[k].id
    ensures TableConfig(tables[k], env).Success?
    ensures tables[k].id in LoadTables(models, tables, env).models
    ensures LoadTables(models, tables, env).models[tables[k].id] == TableConfig(tables[k], env).value
  {
    var n := |tables| - 1;
    var init := tables[..n];
    assert LoadTables(models, init, env).error.None?;
    if k < n {
      assert forall j :: 0 <= j < n ==> init[j] == tables[j];
      LoadTablesLastWins(models, init, env, k);
    }
  }

  lemma {:induction false} LoadTablesOthers(models: map<string, ModelConfig>, tables: seq<Table>,
                                            env: map<string, string>, id: string)
    requires id in models && id !in Ids(tables)
    ensures id in LoadTables(models, tables, env).models
    ensures LoadTables(models, tables, env).models[id] == models[id]
  {
    if tables != [] {
      var init := tables[..|tables| - 1];
      assert Ids(init) <= Ids(tables) by {
        assert forall i :: 0 <= i < |init| ==> init[i] == tables[i];
      }
      assert tables[|tables| - 1].id in Ids(tables);
      LoadTablesOthers(models, init, env, id);
    }
  }

  /**
   * A table that raises ends the load with its error; what the tables before it stored
   * stays stored.
   */
  lemma {:induction false} LoadTablesStops(models: map<string, ModelConfig>, tables: seq<Table>,
                                           env: map<string, string>, k: nat)
    requires k < |tables| && TableConfig(tables[k], env).Failure?
    requires forall j :: 0 <= j < k ==> TableConfig(tables[j], env).Success?
    ensures LoadTables(models, tables, env).error == Some(TableConfig(tables[k], env).error)
    ensures LoadTables(models, tables, env).models == LoadTables(models, tables[..k], env).models
  {
    var n := |tables| - 1;
    if k < n {
      LoadTablesStops(models, tables[..n], env, k);
      assert tables[..n][..k] == tables[..k];
    } else {
      assert tables[..n] == tables[..k];
      LoadTablesFine(models, tables[..k], env);
    }
  }

  /** Tables that all succeed raise nothing. */
  lemma {:induction false} LoadTablesFine(models: map<string, ModelConfig>, tables: seq<Table>, env: map<string, string>)
    requires forall j :: 0 <= j < |tables| ==> TableConfig(tables[j], env).Success?
    ensures LoadTables(models, tables, env).error.None?
  {
    if tables != [] {
      var init := tables[..|tables| - 1];
      assert forall j :: 0 <= j < |init| ==> init[j] == tables[j];
      LoadTablesFine(models, init, env);
    }
  }

  // ---------------------------------------------------------------------
  // ConfigManager
  // ---------------------------------------------------------------------

  class ConfigManager {
    /** `self._models`. */
    var models: map<string, ModelConfig>

    /** `__init__` before it loads the main file: an empty table. */
    constructor()
      ensures models == map[]
    {
      models := map[];
    }

    /**
     * `_load_config`: `file` is the TOML file's tables, `None` when it does not exist;
     * `extra` says a path was passed, so that a file that does not exist is skipped
     * rather than raising. The tables are stored in order; the first that lacks a
     * required field raises, and those before it stay stored.
     */
    method LoadConfig(file: Option<seq<Table>>, extra: bool, env: map<string, string>) returns (outcome: Outcome<ConfigError>)
      modifies this
      ensures file.None? ==> models == old(models) && outcome == (if extra then Pass else Fail(ConfigFileNotFound))
      ensures file.Some? ==> models == LoadTables(old(models), file.value, env).models
      ensures file.Some? ==> outcome == (match LoadTables(old(models), file.value, env).error
                                         case None => Pass
                                         case Some(e) => Fail(e))
    {
      if file.None? {
        if !extra {
          return Fail(ConfigFileNotFound);
        }
        return Pass;
      }
      var tables := file.value;
      var i := 0;
      while i < |tables|
        invariant 0 <= i <= |tables|
        invariant LoadTables(old(models), tables[..i], env) == Loaded(models, None)
      {
        var t := tables[i];
        assert tables[..i + 1][..i] == tables[..i];
        var c := TableConfig(t, env);
        if c.Failure? {
          assert LoadTables(old(models), tables[..i + 1], env).error == Some(c.error);
          LoadTablesPrefix(old(models), tables, env, i + 1);
          return Fail(c.error);
        }
        models := models[t.id := c.value];
        i := i + 1;
      }
      assert tables[..i] == tables;
      return Pass;
    }

    /** `get_model`: the stored config, or a `KeyError` for an unknown id. */
    method GetModel(id: string) returns (r: Result<ModelConfig, ConfigError>)
      ensures id in models ==> r == Success(models[id])
      ensures id !in models ==> r == Failure(ModelNotFound(id))
    {
      if id !in models {
        return Failure(ModelNotFound(id));
      }
      return Success(models[id]);
    }

    /** `list_models`: every stored id with its logical name, and nothing else. */
    method ListModels() returns (names: map<string, string>)
      ensures names.Keys == models.Keys
      ensures forall id :: id in names ==> names[id] == models[id].logicalName
    {
      names := map id | id in models :: models[id].logicalName;
    }
  }

  /** Once a prefix of the tables raises, the rest changes nothing. */
  lemma {:induction false} LoadTablesPrefix(models: map<string, ModelConfig>, tables: seq<Table>,
                                            env: map<string, string>, k: nat)
    requires k <= |tables| && LoadTables(models, tables[..k], env).error.Some?
    ensures LoadTables(models, tables, env) == LoadTables(models, tables[..k], env)
    decreases |tables| - k
  {
    if k < |tables| {
      assert tables[..k + 1][..k] == tables[..k];
      LoadTablesPrefix(models, tables, env, k + 1);
    } else {
      assert tables[..k] == tables;
    }
  }

  /**
   * `ConfigManager(config_path)`: an empty table, then the main file loaded into it.
   * A missing main file raises; otherwise the ids stored are exactly those of the
   * file's tables when none of them raises.
   */
  method Create(main: Option<seq<Table>>, env: map<string, string>) returns (manager: ConfigManager, outcome: Outcome<ConfigError>)
    ensures main.None? ==> outcome == Fail(ConfigFileNotFound) && manager.models == map[]
    ensures main.Some? ==> manager.models == LoadTables(map[], main.value, env).models
    ensures main.Some? && outcome.Pass? ==> manager.models.Keys == Ids(main.value)
  {
    manager := new ConfigManager();
    outcome := manager.LoadConfig(main, false, env);
    if main.Some? && outcome.Pass? {
      LoadTablesIds(map[], main.value, env);
    }
  }
}
