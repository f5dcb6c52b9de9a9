/**
 * `src/utils/config.py`: the loaded YAML configuration, its nested lookup
 * and section accessors, and the process-wide instance that `get_config`
 * creates once and `reload_config` replaces. Reading the file is outside
 * the model: what `yaml.safe_load` returns is a parameter, None when the
 * file does not exist.
 */
module Configuration {
  import opened Base
  import opened Json

  /** The path used when none is given: "config.yaml" in the project root. */
  const DefaultConfigPath := "config.yaml"

  /** The value a nested lookup reaches, or None where `Config.get` gives
      up and returns the default: a key missing or mapped to None, or a
      value that is not a dict before the keys run out. */
  function Find(value: JValue, keys: seq<string>): (r: Option<JValue>)
    ensures keys != [] && r.Some? ==> r.value != JNull
    ensures keys == [] ==> r == Some(value)
  {
    if keys == [] then Some(value)
    else if !value.JObj? then None
    else
      var next := Get(value.fields, keys[0], JNull);
      if next == JNull then None else Find(next, keys[1..])
  }

  /** `Config.get(*keys, default=default)` on the loaded configuration. */
  function Lookup(config: JValue, keys: seq<string>, default: JValue): JValue
  {
    match Find(config, keys)
    case None => default
    case Some(v) => v
  }

  /** A lookup by several keys is a lookup by the first ones followed by a
      lookup by the rest in what they reached. */
  lemma {:induction false} FindAppend(value: JValue, a: seq<string>, b: seq<string>)
    ensures Find(value, a + b) == match Find(value, a) case None => None case Some(v) => Find(v, b)
    decreases |a|
  {
    if a == [] {
      assert a + b == b;
    } else {
      assert (a + b)[0] == a[0] && (a + b)[1..] == a[1..] + b;
      if value.JObj? {
        var next := Get(value.fields, a[0], JNull);
        if next != JNull {
          FindAppend(next, a[1..], b);
        }
      }
    }
  }

  /** The answer of a lookup, default aside, is stored in the configuration
      under those keys: every value on the way is a dict holding the next
      key, and nothing on the way is None. */
  predicate Path(value: JValue, keys: seq<string>, v: JValue)
    decreases |keys|
  {
    if keys == [] then v == value
    else
      && value.JObj? && keys[0] in value.fields && value.fields[keys[0]] != JNull
      && Path(value.fields[keys[0]], keys[1..], v)
  }

  /** A lookup reaches `v` exactly when `v` is stored under the keys; so a
      stored 0, False or {} is returned, and only None or a missing key
      gives the default. */
  lemma {:induction false} FindPath(value: JValue, keys: seq<string>, v: JValue)
    ensures Find(value, keys) == Some(v) <==> Path(value, keys, v)
    decreases |keys|
  {
    if keys != [] && value.JObj? && keys[0] in value.fields {
      FindPath(value.fields[keys[0]], keys[1..], v);
    }
  }

  /** The configuration as loaded from one file. */
  class Config {
    var configPath: string
    var config: JValue

    /** `Config(config_path)` once `_load_config` has read the file. */
    constructor(path: Option<string>, loaded: JValue)
      ensures configPath == (match path case None => DefaultConfigPath case Some(p) => p)
      ensures config == loaded
    {
      configPath := match path case None => DefaultConfigPath case Some(p) => p;
      config := loaded;
    }

    /** The loop of `Config.get`. */
    method Get(keys: seq<string>, default: JValue) returns (v: JValue)
      ensures v == Lookup(config, keys, default)
    {
      var value := config;
      for k := 0 to |keys|
        invariant Find(config, keys) == Find(value, keys[k..])
      {
        assert keys[k..][1..] == keys[k + 1..];
        if value.JObj? {
          value := Json.Get(value.fields, keys[k], JNull);
          if value == JNull {
            return default;
          }
        } else {
          return default;
        }
      }
      return value;
    }

    /** `get_audio_config`, `get_video_config`, `get_fusion_config`,
        `get_naming_config`, `get_output_config`, `get_processing_config`
        and `get_privacy_config`: the top-level section of that name, {}
        when it is absent; a configuration that is not a dict has no
        `.get`. */
    function Section(name: string): (r: Result<JValue>)
      reads this
      ensures r.Err? <==> !config.JObj?
      ensures r.Ok? && name !in config.fields ==> r.value == JObj(map[])
      ensures r.Ok? && name in config.fields ==> r.value == config.fields[name]
    {
      if !config.JObj? then Err(AttributeError)
      else Ok(Json.Get(config.fields, name, JObj(map[])))
    }
  }

  /** The names of the sections with an accessor. */
  const SectionNames: seq<string> := ["audio", "video", "fusion", "naming", "output", "processing", "privacy"]

  /** A present section is what a one-key lookup gives, except that a
      section stored as None is returned as None by its accessor and
      replaced by the default by the lookup. */
  lemma SectionLookup(c: Config, name: string)
    requires c.config.JObj?
    ensures c.Section(name).Ok?
    ensures Get(c.config.fields, name, JNull) != JNull ==> c.Section(name).value == Lookup(c.config, [name], JObj(map[]))
    ensures Get(c.config.fields, name, JNull) == JNull ==> Lookup(c.config, [name], JObj(map[])) == JObj(map[])
  {
    assert [name][1..] == [];
  }

  /** The module's `_config`: the instance `get_config` hands out. */
  class Registry {
    var instance: Config?

    constructor()
      ensures instance == null
    {
      instance := null;
    }

    /** `get_config(config_path)`: the instance made on the first call,
        whatever path later calls pass; a first call on a missing file
        raises FileNotFoundError and leaves no instance. */
    method GetConfig(path: Option<string>, file: Option<JValue>) returns (r: Result<Config>)
      modifies this
      ensures old(instance) != null ==> r == Ok(old(instance)) && instance == old(instance)
      ensures old(instance) == null && file.None? ==> r == Err(FileNotFound) && instance == null
      ensures old(instance) == null && file.Some? ==>
        r.Ok? && fresh(r.value) && instance == r.value && r.value.config == file.value
    {
      if instance == null {
        if file.None? {
          return Err(FileNotFound);
        }
        instance := new Config(path, file.value);
      }
      return Ok(instance);
    }

    /** `reload_config(config_path)`: a new instance every time; when the
        file is missing the exception comes before the assignment and the
        old instance stays. */
    method ReloadConfig(path: Option<string>, file: Option<JValue>) returns (r: Result<Config>)
      modifies this
      ensures file.None? ==> r == Err(FileNotFound) && instance == old(instance)
      ensures file.Some? ==> r.Ok? && fresh(r.value) && instance == r.value && r.value.config == file.value
    {
      if file.None? {
        return Err(FileNotFound);
      }
      var c := new Config(path, file.value);
      instance := c;
      return Ok(c);
    }
  }
}
