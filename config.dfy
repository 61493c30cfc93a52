/**
 * `read_config`: the checks on the parsed configuration file, the trailing
 * slash added to every path-valued entry, and the default thread count.
 */
module Config {
  import opened Wrappers
  import opened PyStr

  /** A JSON value of the configuration: a string, an integer, or anything else (list, object, float, null). */
  datatype Value = Str(s: string) | Int(n: int) | Other

  /** Why reading stops (the source logs and exits, or raises on a non-string value). */
  datatype ConfigError = Unreadable | MissingKey(key: string) | PathMissing(path: string) | NotAString

  /** The keys whose values are not paths and are never given a trailing slash. */
  const Exempt: set<string> := {"threads", "extractor", "port", "genres", "db", "lmsdb", "stop"}

  /** The default for `threads`. */
  const DefaultThreads := 8

  /** Every non-exempt entry is a string (`endswith` would raise `AttributeError` otherwise). */
  predicate AllPathsStrings(config: map<string, Value>) {
    forall k :: k in config && k !in Exempt ==> config[k].Str?
  }

  /** One entry after the slash step. */
  function SlashValue(key: string, v: Value): Value {
    if key !in Exempt && v.Str? && !EndsWith(v.s, "/") then Str(v.s + "/") else v
  }

  /**
   * The slash step over all entries: exempt entries are untouched; each other
   * string ends with `/`, and one that already did is untouched.
   */
  function Slashed(config: map<string, Value>): (r: map<string, Value>)
    ensures r.Keys == config.Keys
    ensures forall k :: k in config && k in Exempt ==> r[k] == config[k]
    ensures forall k :: k in config && k !in Exempt && config[k].Str? ==>
              r[k].Str? && EndsWith(r[k].s, "/") && StartsWith(r[k].s, config[k].s)
              && (EndsWith(config[k].s, "/") ==> r[k] == config[k])
  {
    var r := map k | k in config :: SlashValue(k, config[k]);
    assert r.Keys == config.Keys;
    forall k | k in config && k !in Exempt && config[k].Str?
      ensures r[k].Str? && EndsWith(r[k].s, "/") && StartsWith(r[k].s, config[k].s)
    {
      var s := config[k].s;
      if !EndsWith(s, "/") {
        assert (s + "/")[..|s|] == s;
        assert (s + "/")[|s + "/"| - 1..] == "/";
      }
    }
    r
  }

  /** The slash step is idempotent. */
  lemma {:induction false} SlashedIdempotent(config: map<string, Value>)
    ensures Slashed(Slashed(config)) == Slashed(config)
  {
    var once := Slashed(config);
    forall k | k in once ensures Slashed(once)[k] == once[k] {
      if k !in Exempt && config[k].Str? {
        assert EndsWith(once[k].s, "/");
      }
    }
  }

  /** A path entry that must exist: present, a string, and existing. */
  function CheckPath(config: map<string, Value>, key: string, pathExists: string -> bool): (r: Option<ConfigError>)
    ensures r.None? <==> key in config && config[key].Str? && pathExists(config[key].s)
  {
    if key !in config then Some(MissingKey(key))
    else if !config[key].Str? then Some(NotAString)
    else if !pathExists(config[key].s) then Some(PathMissing(config[key].s))
    else None
  }

  /** An optional directory entry: when present it must exist (checked after the slash step, on a string). */
  function CheckOptional(config: map<string, Value>, key: string, pathExists: string -> bool): (r: Option<ConfigError>)
    requires key in config ==> config[key].Str?
    ensures r.None? <==> key !in config || pathExists(config[key].s)
  {
    if key in config && !pathExists(config[key].s) then Some(PathMissing(config[key].s)) else None
  }

  /** An optional entry that, when present, is a string naming an existing path. */
  predicate ExistsIfPresent(config: map<string, Value>, key: string, pathExists: string -> bool) {
    key in config ==> config[key].Str? && pathExists(config[key].s)
  }

  /** Everything `read_config` demands of the parsed file. */
  predicate Accepted(config: map<string, Value>, pathExists: string -> bool) {
    "extractor" in config
    && "essentia" in config && config["essentia"].Str? && pathExists(config["essentia"].s)
    && "lms" in config && config["lms"].Str? && pathExists(config["lms"].s)
    && AllPathsStrings(config)
    && ExistsIfPresent(Slashed(config), "tmp", pathExists)
    && ExistsIfPresent(Slashed(config), "json_cache", pathExists)
  }

  /** The accepted configuration: slashed, with `threads` defaulted. */
  function Completed(config: map<string, Value>): map<string, Value> {
    var slashed := Slashed(config);
    if "threads" in slashed then slashed else slashed["threads" := Int(DefaultThreads)]
  }

  /**
   * `read_config` on the parsed file (`None` when it is missing or not JSON),
   * with `pathExists` for `os.path.exists`: the checks run in the source's
   * order, and the first that fails names the error.
   */
  function ReadConfigSpec(parsed: Option<map<string, Value>>, pathExists: string -> bool)
    : (r: Result<map<string, Value>, ConfigError>)
    ensures parsed.None? ==> r == Err(Unreadable)
    ensures parsed.Some? && "extractor" !in parsed.value ==> r == Err(MissingKey("extractor"))
    ensures parsed.Some? && "extractor" in parsed.value && "essentia" !in parsed.value ==> r == Err(MissingKey("essentia"))
    ensures r.Ok? ==> parsed.Some? && r.value == Completed(parsed.value)
  {
    if parsed.None? then Err(Unreadable)
    else
      var config := parsed.value;
      if "extractor" !in config then Err(MissingKey("extractor"))
      else
        var essentia := CheckPath(config, "essentia", pathExists);
        if essentia.Some? then Err(essentia.value)
        else
          var lms := CheckPath(config, "lms", pathExists);
          if lms.Some? then Err(lms.value)
          else if !AllPathsStrings(config) then Err(NotAString)
          else
            var slashed := Slashed(config);
            SlashedOptional(config);
            var tmp := CheckOptional(slashed, "tmp", pathExists);
            if tmp.Some? then Err(tmp.value)
            else
              var cache := CheckOptional(slashed, "json_cache", pathExists);
              if cache.Some? then Err(cache.value)
              else Ok(Completed(config))
  }

  /** The optional directory entries are strings once the slash step has run. */
  lemma {:induction false} SlashedOptional(config: map<string, Value>)
    requires AllPathsStrings(config)
    ensures "tmp" in Slashed(config) ==> Slashed(config)["tmp"].Str?
    ensures "json_cache" in Slashed(config) ==> Slashed(config)["json_cache"].Str?
  {
    assert "tmp" !in Exempt && "json_cache" !in Exempt;
  }

  /** The file is accepted exactly when every check passes. */
  lemma {:induction false} ReadConfigAccepts(parsed: Option<map<string, Value>>, pathExists: string -> bool)
    ensures ReadConfigSpec(parsed, pathExists).Ok? <==> parsed.Some? && Accepted(parsed.value, pathExists)
  {
    if parsed.Some? && "extractor" in parsed.value && AllPathsStrings(parsed.value) {
      var slashed := Slashed(parsed.value);
      assert "tmp" in slashed ==> slashed["tmp"].Str?;
      assert "json_cache" in slashed ==> slashed["json_cache"].Str?;
    }
  }

  /**
   * The accepted configuration keeps every key and adds `threads` (8 unless
   * given); exempt entries are as given, and every other entry is a string
   * ending in `/` that extends the given one.
   */
  lemma {:induction false} CompletedEntries(config: map<string, Value>)
    requires AllPathsStrings(config)
    ensures Completed(config).Keys == config.Keys + {"threads"}
    ensures Completed(config)["threads"] == if "threads" in config then config["threads"] else Int(DefaultThreads)
    ensures forall k :: k in config && k in Exempt ==> Completed(config)[k] == config[k]
    ensures forall k :: k in config && k !in Exempt ==>
              Completed(config)[k].Str? && EndsWith(Completed(config)[k].s, "/")
              && StartsWith(Completed(config)[k].s, config[k].s)
  {
    assert "threads" in Exempt;
  }

  /** `read_config`, with its loop over the keys that gives path entries their trailing slash. */
  method ReadConfig(parsed: Option<map<string, Value>>, pathExists: string -> bool)
    returns (r: Result<map<string, Value>, ConfigError>)
    ensures r == ReadConfigSpec(parsed, pathExists)
  {
    if parsed.None? {
      return Err(Unreadable);
    }
    var config := parsed.value;
    if "extractor" !in config {
      return Err(MissingKey("extractor"));
    }
    var essentia := CheckPath(config, "essentia", pathExists);
    if essentia.Some? {
      return Err(essentia.value);
    }
    var lms := CheckPath(config, "lms", pathExists);
    if lms.Some? {
      return Err(lms.value);
    }
    var slashed := SlashPaths(config);
    if slashed.Err? {
      return Err(slashed.error);
    }
    SlashedOptional(config);
    config := slashed.value;
    var tmp := CheckOptional(config, "tmp", pathExists);
    if tmp.Some? {
      return Err(tmp.value);
    }
    var cache := CheckOptional(config, "json_cache", pathExists);
    if cache.Some? {
      return Err(cache.value);
    }
    if "threads" !in config {
      config := config["threads" := Int(DefaultThreads)];
    }
    r := Ok(config);
  }

  /** The loop over the keys of `read_config` that gives each path entry its trailing slash. */
  method SlashPaths(config: map<string, Value>) returns (r: Result<map<string, Value>, ConfigError>)
    ensures r == if AllPathsStrings(config) then Ok(Slashed(config)) else Err(NotAString)
  {
    var result := config;
    var pending := config.Keys;
    while pending != {}
      invariant pending <= config.Keys && result.Keys == config.Keys
      invariant forall k :: k in config ==> result[k] == if k in pending then config[k] else SlashValue(k, config[k])
      invariant forall k :: k in config && k !in pending && k !in Exempt ==> config[k].Str?
      decreases pending
    {
      var key :| key in pending;
      if key !in Exempt {
        match result[key]
        case Str(s) =>
          if !EndsWith(s, "/") {
            result := result[key := Str(s + "/")];
          }
        case _ =>
          assert !config[key].Str?;
          return Err(NotAString);
      }
      pending := pending - {key};
    }
    assert AllPathsStrings(config);
    assert result == Slashed(config);
    r := Ok(result);
  }
}
