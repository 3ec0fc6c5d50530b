/** The runtime settings of lcmeval/utils/config.py and `update_config`,
    which merges keyword overrides into a settings dictionary in place and
    then normalises its two paths. Path normalisation
    (`pathlib.Path(p).expanduser().resolve().as_posix()`) depends on the
    file system and is the function parameter `normalise`. */
module Config {
  import opened Wrappers

  /** A settings value: a string, an integer, or None. */
  datatype Value = Str(s: string) | Int(i: int) | Null

  /** `CONFIG`, the module-level defaults. */
  function Defaults(): (d: map<string, Value>)
    ensures d.Keys == {"runs_dir", "timeout", "max_retries", "max_tokens", "env_file"}
  {
    map["runs_dir" := Str("runs"), "timeout" := Int(120), "max_retries" := Int(0),
        "max_tokens" := Int(4096), "env_file" := Str(".env")]
  }

  /** The merge loop: a key the settings already have takes the override,
      unless the override is None; other overrides are dropped. */
  function Merge(config: map<string, Value>, kwargs: map<string, Value>): (r: map<string, Value>)
    ensures r.Keys == config.Keys
    ensures forall k :: k in r && r[k] != config[k] ==> k in kwargs && kwargs[k] == r[k] && r[k] != Null
  {
    map k | k in config :: if k in kwargs && kwargs[k] != Null then kwargs[k] else config[k]
  }

  /** `config[key] = normalise(config[key])`: KeyError when the key is
      missing, TypeError when its value is not a string. */
  function NormalisePath(config: map<string, Value>, key: string, normalise: string -> string): (r: Result<map<string, Value>, Error>)
    ensures r.Success? <==> key in config && config[key].Str?
    ensures r.Failure? ==> r.error == (if key in config then TypeError else KeyError)
    ensures r.Success? ==> r.value.Keys == config.Keys && r.value[key] == Str(normalise(config[key].s))
    ensures r.Success? ==> forall k :: k in config && k != key ==> r.value[k] == config[k]
  {
    if key !in config then Failure(KeyError)
    else if !config[key].Str? then Failure(TypeError)
    else Success(config[key := Str(normalise(config[key].s))])
  }

  /** The settings after `update_config` and whether it raised; an exception
      leaves the steps already taken in place. */
  function Updated(config: map<string, Value>, kwargs: map<string, Value>, normalise: string -> string): (r: (map<string, Value>, Outcome<Error>))
    ensures r.0.Keys == config.Keys
    ensures r.1.Fail? ==> r.1.error == KeyError || r.1.error == TypeError
    ensures r.1.Pass? ==> "runs_dir" in config && "env_file" in config
  {
    var merged := Merge(config, kwargs);
    match NormalisePath(merged, "runs_dir", normalise)
    case Failure(e) => (merged, Fail(e))
    case Success(withRuns) =>
      match NormalisePath(withRuns, "env_file", normalise)
      case Failure(e) => (withRuns, Fail(e))
      case Success(done) => (done, Pass)
  }

  /** A settings dictionary, updated in place. */
  class Settings {
    var entries: map<string, Value>

    constructor (entries: map<string, Value>)
      ensures this.entries == entries
    {
      this.entries := entries;
    }
  }

  /** `update_config(config, kwargs)`. */
  method UpdateConfig(config: Settings, kwargs: map<string, Value>, normalise: string -> string) returns (r: Outcome<Error>)
    modifies config
    ensures (config.entries, r) == Updated(old(config.entries), kwargs, normalise)
  {
    ghost var initial := config.entries;
    var pending := kwargs.Keys;
    while pending != {}
      invariant pending <= kwargs.Keys
      invariant config.entries.Keys == initial.Keys
      invariant forall k :: k in initial ==>
        config.entries[k] == if k in kwargs && k !in pending && kwargs[k] != Null then kwargs[k] else initial[k]
      decreases pending
    {
      var key :| key in pending;
      var value := kwargs[key];
      if key in config.entries && value != Null {
        config.entries := config.entries[key := value];
      }
      pending := pending - {key};
    }
    assert config.entries == Merge(initial, kwargs);
    if "runs_dir" !in config.entries {
      return Fail(KeyError);
    }
    if !config.entries["runs_dir"].Str? {
      return Fail(TypeError);
    }
    config.entries := config.entries["runs_dir" := Str(normalise(config.entries["runs_dir"].s))];
    if "env_file" !in config.entries {
      return Fail(KeyError);
    }
    if !config.entries["env_file"].Str? {
      return Fail(TypeError);
    }
    config.entries := config.entries["env_file" := Str(normalise(config.entries["env_file"].s))];
    return Pass;
  }

  // ---------------------------------------------------------------------
  // What the update promises

  /** The key set never changes, whether or not the update raises. */
  lemma UpdatedKeys(config: map<string, Value>, kwargs: map<string, Value>, normalise: string -> string)
    ensures Updated(config, kwargs, normalise).0.Keys == config.Keys
  {
    assert Merge(config, kwargs).Keys == config.Keys;
  }

  /** Every key other than the two paths holds its override when one that is
      not None was given, and keeps its value otherwise. */
  lemma UpdatedOthers(config: map<string, Value>, kwargs: map<string, Value>, normalise: string -> string, k: string)
    requires k in config && k != "runs_dir" && k != "env_file"
    ensures Updated(config, kwargs, normalise).0[k] == if k in kwargs && kwargs[k] != Null then kwargs[k] else config[k]
  {
    UpdatedKeys(config, kwargs, normalise);
  }

  /** The update succeeds exactly when both paths end up strings after the
      merge, and then both are normalised, whether or not they were passed. */
  lemma UpdatedPaths(config: map<string, Value>, kwargs: map<string, Value>, normalise: string -> string)
    ensures var merged := Merge(config, kwargs);
      Updated(config, kwargs, normalise).1 == Pass <==>
        "runs_dir" in merged && merged["runs_dir"].Str? && "env_file" in merged && merged["env_file"].Str?
    ensures var merged := Merge(config, kwargs);
      var (after, outcome) := Updated(config, kwargs, normalise);
      outcome == Pass ==>
        after["runs_dir"] == Str(normalise(merged["runs_dir"].s)) &&
        after["env_file"] == Str(normalise(merged["env_file"].s))
  {
    var merged := Merge(config, kwargs);
    if "runs_dir" in merged && merged["runs_dir"].Str? {
      var withRuns := NormalisePath(merged, "runs_dir", normalise).value;
      assert "env_file" in withRuns <==> "env_file" in merged;
      assert "env_file" in merged ==> withRuns["env_file"] == merged["env_file"];
    }
  }

  /** Keys of the overrides that the settings lack are ignored. */
  lemma MergeIgnoresUnknown(config: map<string, Value>, kwargs: map<string, Value>, extra: string, v: Value)
    requires extra !in config && extra !in kwargs
    ensures Merge(config, kwargs[extra := v]) == Merge(config, kwargs)
  {
  }

  /** With a normalisation that is idempotent, running the same update twice
      is the same as running it once. */
  lemma UpdateTwice(config: map<string, Value>, kwargs: map<string, Value>, normalise: string -> string)
    requires forall s :: normalise(normalise(s)) == normalise(s)
    requires Updated(config, kwargs, normalise).1 == Pass
    ensures Updated(Updated(config, kwargs, normalise).0, kwargs, normalise) == Updated(config, kwargs, normalise)
  {
    var once := Updated(config, kwargs, normalise).0;
    var merged := Merge(config, kwargs);
    UpdatedPaths(config, kwargs, normalise);
    UpdatedKeys(config, kwargs, normalise);
    var merged2 := Merge(once, kwargs);
    UpdatedPaths(once, kwargs, normalise);
    UpdatedKeys(once, kwargs, normalise);
    forall k | k in once ensures Updated(once, kwargs, normalise).0[k] == once[k] {
      if k != "runs_dir" && k != "env_file" {
        UpdatedOthers(config, kwargs, normalise, k);
        UpdatedOthers(once, kwargs, normalise, k);
      } else if k in kwargs && kwargs[k] != Null {
        assert merged2[k] == kwargs[k] == merged[k];
      } else {
        assert merged2[k] == once[k] == Str(normalise(merged[k].s));
        assert normalise(normalise(merged[k].s)) == normalise(merged[k].s);
      }
    }
    assert Updated(once, kwargs, normalise).0 == once;
  }

  /** The defaults, updated with no overrides, have both paths normalised
      and the three limits unchanged. */
  lemma DefaultsUpdate(normalise: string -> string)
    ensures var (after, outcome) := Updated(Defaults(), map[], normalise);
      && outcome == Pass
      && after == map["runs_dir" := Str(normalise("runs")), "timeout" := Int(120), "max_retries" := Int(0),
                      "max_tokens" := Int(4096), "env_file" := Str(normalise(".env"))]
  {
    var d := Defaults();
    assert Merge(d, map[]) == d;
    UpdatedPaths(d, map[], normalise);
    UpdatedKeys(d, map[], normalise);
    var after := Updated(d, map[], normalise).0;
    UpdatedOthers(d, map[], normalise, "timeout");
    UpdatedOthers(d, map[], normalise, "max_retries");
    UpdatedOthers(d, map[], normalise, "max_tokens");
  }
}
