/** `main_config_validator` and `load_configs`: the main configuration, a
    JSON object or array of objects, checked and normalised into records of
    four fields. File-system queries are an oracle. */
module MainConfig {
  import opened Common

  /** A JSON value as the validator sees it: a string, or anything else with
      its Python `str()` text and its truthiness. */
  datatype Value = Str(s: string) | Other(text: string, truthy: bool)

  /** An element of the configuration list: an object, or something else
      (which has no `.get`). */
  datatype Item = Object(fields: map<string, Value>) | NonObject

  /** The decoded configuration: an object, an array, or anything else. */
  datatype Config = ObjectConfig(fields: map<string, Value>) | ArrayConfig(items: seq<Item>) | OtherConfig

  /** `os.path.abspath`, `os.path.isfile` and `os.path.isdir`. */
  datatype Os = Os(abspath: string -> string, isFile: string -> bool, isDir: string -> bool)

  /** One validated record: the four normalised fields and nothing else. */
  datatype UnitConfig = UnitConfig(ossType: string, ossConfig: string, localDir: string, direction: string)

  /** The exceptions the validator raises; `AttributeError` comes from
      calling `.get` on an element that is not an object. */
  datatype ConfigError = TypeError | KeyError(field: string) | ValueError(field: string) | AttributeError

  /** Python's truth value of `item.get(name)`. */
  predicate Truthy(v: Option<Value>)
  {
    match v
    case None => false
    case Some(Str(s)) => s != ""
    case Some(Other(_, t)) => t
  }

  /** Python `str(v)`. */
  function PyStr(v: Value): string
  {
    match v
    case Str(s) => s
    case Other(text, _) => text
  }

  const OssTypes: set<string> := {"tencent-cos", "aliyun-oss"}
  const Directions: set<string> := {"local-to-remote", "remote-to-local"}
  const RequiredFields: seq<string> := ["oss_type", "oss_config", "local_dir", "direction"]

  /** The first required field whose value is missing or falsy. */
  function FirstMissing(fields: map<string, Value>, names: seq<string>): (r: Option<nat>)
    ensures r.Some? ==> r.value < |names| && !Truthy(Get(fields, names[r.value]))
    ensures r.Some? ==> forall j :: 0 <= j < r.value ==> Truthy(Get(fields, names[j]))
    ensures r.None? ==> forall j :: 0 <= j < |names| ==> Truthy(Get(fields, names[j]))
  {
    if names == [] then None
    else if !Truthy(Get(fields, names[0])) then Some(0)
    else
      match FirstMissing(fields, names[1..])
      case None => None
      case Some(i) => Some(i + 1)
  }

  /** The four values as the validator normalises them: service and
      direction lowercased and stripped, paths stripped and made absolute. */
  function Normalise(f: map<string, Value>, os: Os): UnitConfig
    requires "oss_type" in f && "oss_config" in f && "local_dir" in f && "direction" in f
  {
    UnitConfig(Strip(Lower(PyStr(f["oss_type"]))),
               os.abspath(Strip(PyStr(f["oss_config"]))),
               os.abspath(Strip(PyStr(f["local_dir"]))),
               Strip(Lower(PyStr(f["direction"]))))
  }

  /** The value checks, in the order the validator makes them. */
  function CheckValues(v: UnitConfig, os: Os): Result<UnitConfig, ConfigError>
  {
    if v.ossType !in OssTypes then Failure(ValueError("oss_type"))
    else if !os.isFile(v.ossConfig) then Failure(ValueError("oss_config"))
    else if !os.isDir(v.localDir) then Failure(ValueError("local_dir"))
    else if v.direction !in Directions then Failure(ValueError("direction"))
    else Success(v)
  }

  /** The checks of one element, in the order the validator makes them. */
  function ValidateItem(item: Item, os: Os): Result<UnitConfig, ConfigError>
  {
    match item
    case NonObject => Failure(AttributeError)
    case Object(f) =>
      if !Truthy(Get(f, "oss_type")) then Failure(KeyError("oss_type"))
      else if !Truthy(Get(f, "oss_config")) then Failure(KeyError("oss_config"))
      else if !Truthy(Get(f, "local_dir")) then Failure(KeyError("local_dir"))
      else if !Truthy(Get(f, "direction")) then Failure(KeyError("direction"))
      else CheckValues(Normalise(f, os), os)
  }

  /** The results of the elements, one per element, in order. */
  function Checked(items: seq<Item>, os: Os): (rs: seq<Result<UnitConfig, ConfigError>>)
    ensures |rs| == |items| && forall i :: 0 <= i < |items| ==> rs[i] == ValidateItem(items[i], os)
  {
    seq(|items|, i requires 0 <= i < |items| => ValidateItem(items[i], os))
  }

  /** The results in order; the first failure aborts the whole list. */
  function Collect<T, E>(rs: seq<Result<T, E>>): Result<seq<T>, E>
  {
    if rs == [] then Success([])
    else
      match Collect(rs[..|rs| - 1])
      case Failure(e) => Failure(e)
      case Success(vs) =>
        match rs[|rs| - 1]
        case Failure(e) => Failure(e)
        case Success(v) => Success(vs + [v])
  }

  /** The elements the validator walks: a single object is wrapped in a list. */
  function ItemsOf(config: Config): seq<Item>
  {
    match config
    case ObjectConfig(f) => [Object(f)]
    case ArrayConfig(items) => items
    case OtherConfig => []
  }

  function ValidateConfig(config: Config, os: Os): Result<seq<UnitConfig>, ConfigError>
  {
    if config.OtherConfig? then Failure(TypeError) else Collect(Checked(ItemsOf(config), os))
  }

  lemma CollectStep<T, E>(rs: seq<Result<T, E>>, i: nat)
    requires i < |rs|
    ensures Collect(rs[..i + 1]) ==
      match Collect(rs[..i])
      case Failure(e) => Failure(e)
      case Success(vs) =>
        match rs[i]
        case Failure(e) => Failure(e)
        case Success(v) => Success(vs + [v])
  {
    assert rs[..i + 1][..i] == rs[..i];
  }

  /** Once a prefix fails, every longer prefix fails with the same error. */
  lemma {:induction false} FailureSticks<T, E>(rs: seq<Result<T, E>>, i: nat)
    requires i <= |rs| && Collect(rs[..i]).Failure?
    ensures Collect(rs) == Collect(rs[..i])
    decreases |rs| - i
  {
    if i < |rs| {
      CollectStep(rs, i);
      FailureSticks(rs, i + 1);
    } else {
      assert rs[..i] == rs;
    }
  }

  /** `main_config_validator`. */
  method MainConfigValidator(config: Config, os: Os) returns (r: Result<seq<UnitConfig>, ConfigError>)
    ensures r == ValidateConfig(config, os)
  {
    if config.OtherConfig? {
      return Failure(TypeError);
    }
    var items := ItemsOf(config);
    ghost var rs := Checked(items, os);
    var validConfig: seq<UnitConfig> := [];
    for i := 0 to |items|
      invariant Collect(rs[..i]) == Success(validConfig)
    {
      CollectStep(rs, i);
      var checked := ValidateItem(items[i], os);
      if checked.Failure? {
        FailureSticks(rs, i + 1);
        return Failure(checked.error);
      }
      validConfig := validConfig + [checked.value];
    }
    assert rs[..|items|] == rs;
    r := Success(validConfig);
  }

  // ---------------------------------------------------------------------------
  // What the validator promises
  // ---------------------------------------------------------------------------

  /** The list is accepted exactly when every element is, and then the
      result holds one record per element, in order. */
  lemma {:induction false} CollectAll<T, E>(rs: seq<Result<T, E>>)
    ensures Collect(rs).Success? <==> forall i :: 0 <= i < |rs| ==> rs[i].Success?
    ensures Collect(rs).Success? ==>
      && |Collect(rs).value| == |rs|
      && forall i :: 0 <= i < |rs| ==> Collect(rs).value[i] == rs[i].value
  {
    if rs != [] {
      var n := |rs| - 1;
      CollectAll(rs[..n]);
      assert forall i :: 0 <= i < n ==> rs[..n][i] == rs[i];
    }
  }

  /** A rejected list reports the error of its first rejected element. */
  lemma {:induction false} CollectFirstError<T, E>(rs: seq<Result<T, E>>)
    requires Collect(rs).Failure?
    ensures exists i :: (0 <= i < |rs|
      && rs[i] == Failure(Collect(rs).error)
      && (forall j :: 0 <= j < i ==> rs[j].Success?))
  {
    var n := |rs| - 1;
    assert forall j :: 0 <= j < n ==> rs[..n][j] == rs[j];
    if Collect(rs[..n]).Failure? {
      CollectFirstError(rs[..n]);
      var i :| 0 <= i < n
        && rs[..n][i] == Failure(Collect(rs[..n]).error)
        && (forall j :: 0 <= j < i ==> rs[..n][j].Success?);
      assert rs[i] == Failure(Collect(rs).error);
    } else {
      CollectAll(rs[..n]);
      assert rs[n] == Failure(Collect(rs).error);
    }
  }

  /** The validator accepts a list exactly when it accepts every element, and
      then returns one record per element, in order; otherwise it reports the
      error of the first rejected element. */
  lemma ValidatedRecords(items: seq<Item>, os: Os)
    ensures var r := ValidateConfig(ArrayConfig(items), os);
      && (r.Success? <==> forall i :: 0 <= i < |items| ==> ValidateItem(items[i], os).Success?)
      && (r.Success? ==> |r.value| == |items| && forall i :: 0 <= i < |items| ==> r.value[i] == ValidateItem(items[i], os).value)
      && (r.Failure? ==> exists i :: (0 <= i < |items|
            && ValidateItem(items[i], os) == Failure(r.error)
            && (forall j :: 0 <= j < i ==> ValidateItem(items[j], os).Success?)))
  {
    var rs := Checked(items, os);
    CollectAll(rs);
    if Collect(rs).Failure? {
      CollectFirstError(rs);
    }
  }

  /** A single object is validated as a one-element list; anything that is
      neither an object nor an array is a `TypeError`. */
  lemma ConfigShapes(f: map<string, Value>, os: Os)
    ensures ValidateConfig(ObjectConfig(f), os) == ValidateConfig(ArrayConfig([Object(f)]), os)
    ensures ValidateConfig(OtherConfig, os) == Failure(TypeError)
    ensures ValidateConfig(ArrayConfig([]), os) == Success([])
  {
  }

  /** A missing or falsy field is reported as a `KeyError` for the first such
      field in the order oss_type, oss_config, local_dir, direction, before
      any value is looked at. */
  lemma KeyErrorOrder(f: map<string, Value>, os: Os)
    ensures FirstMissing(f, RequiredFields).Some? <==> ValidateItem(Object(f), os).Failure? && ValidateItem(Object(f), os).error.KeyError?
    ensures FirstMissing(f, RequiredFields).Some? ==>
      ValidateItem(Object(f), os) == Failure(KeyError(RequiredFields[FirstMissing(f, RequiredFields).value]))
  {
    var names := RequiredFields;
    assert names[1..] == ["oss_config", "local_dir", "direction"];
    assert names[1..][1..] == ["local_dir", "direction"];
    assert names[1..][1..][1..] == ["direction"];
    assert names[1..][1..][1..][1..] == [];
    if !Truthy(Get(f, "oss_type")) {
      assert FirstMissing(f, names) == Some(0);
    } else if !Truthy(Get(f, "oss_config")) {
      assert FirstMissing(f, names[1..]) == Some(0);
    } else if !Truthy(Get(f, "local_dir")) {
      assert FirstMissing(f, names[1..][1..]) == Some(0);
      assert FirstMissing(f, names[1..]) == Some(1);
    } else if !Truthy(Get(f, "direction")) {
      assert FirstMissing(f, names[1..][1..][1..]) == Some(0);
      assert FirstMissing(f, names[1..][1..]) == Some(1);
      assert FirstMissing(f, names[1..]) == Some(2);
    } else {
      assert FirstMissing(f, names[1..][1..][1..]) == None;
      assert FirstMissing(f, names[1..][1..]) == None;
      assert FirstMissing(f, names[1..]) == None;
      assert CheckValues(Normalise(f, os), os).Success? || CheckValues(Normalise(f, os), os).error.ValueError?;
    }
  }

  /** Every accepted record names a known service and direction, a config
      path the oracle calls a file, and a local path it calls a directory. */
  lemma AcceptedRecord(item: Item, os: Os)
    requires ValidateItem(item, os).Success?
    ensures var v := ValidateItem(item, os).value;
      && v.ossType in OssTypes && v.direction in Directions
      && os.isFile(v.ossConfig) && os.isDir(v.localDir)
      && item.Object? && forall k :: k in RequiredFields ==> Truthy(Get(item.fields, k))
  {
  }

  /** Changing one field to a value with the same truth value and the same
      normal form changes nothing about the validation. */
  lemma SameValidation(f: map<string, Value>, os: Os, field: string, v1: Value, v2: Value)
    requires field == "oss_type" || field == "oss_config" || field == "local_dir" || field == "direction"
    requires Truthy(Some(v1)) == Truthy(Some(v2))
    requires field == "oss_type" || field == "direction" ==> Strip(Lower(PyStr(v1))) == Strip(Lower(PyStr(v2)))
    requires field == "oss_config" || field == "local_dir" ==> Strip(PyStr(v1)) == Strip(PyStr(v2))
    ensures ValidateItem(Object(f[field := v1]), os) == ValidateItem(Object(f[field := v2]), os)
  {
    var f1 := f[field := v1];
    var f2 := f[field := v2];
    assert Truthy(Get(f1, "oss_type")) == Truthy(Get(f2, "oss_type"));
    assert Truthy(Get(f1, "oss_config")) == Truthy(Get(f2, "oss_config"));
    assert Truthy(Get(f1, "local_dir")) == Truthy(Get(f2, "local_dir"));
    assert Truthy(Get(f1, "direction")) == Truthy(Get(f2, "direction"));
    if "oss_type" in f1 && "oss_config" in f1 && "local_dir" in f1 && "direction" in f1 {
      assert Normalise(f1, os) == Normalise(f2, os);
    }
  }

  /** Case and surrounding white space do not matter for the service and the
      direction: a spelling `s` of a known name, with any white space `a`
      before it and `b` after it, validates exactly like the name itself. */
  lemma NormalisedSpelling(f: map<string, Value>, os: Os, field: string, a: string, s: string, b: string)
    requires field == "oss_type" || field == "direction"
    requires forall i :: 0 <= i < |a| ==> IsSpace(a[i])
    requires forall i :: 0 <= i < |b| ==> IsSpace(b[i])
    requires Lower(s) in OssTypes || Lower(s) in Directions
    ensures ValidateItem(Object(f[field := Str(a + s + b)]), os)
         == ValidateItem(Object(f[field := Str(Lower(s))]), os)
  {
    var n := Lower(s);
    KnownNameNormal(n);
    KnownNameEnds(n);
    LowerConcat(a, s, b);
    LowerSpaces(a);
    LowerSpaces(b);
    StripPadded(a, n, b);
    SameValidation(f, os, field, Str(a + s + b), Str(n));
  }

  /** Surrounding white space does not matter for the two paths either: they
      are stripped before `abspath` sees them. */
  lemma PaddedPath(f: map<string, Value>, os: Os, field: string, a: string, p: string, b: string)
    requires field == "oss_config" || field == "local_dir"
    requires forall i :: 0 <= i < |a| ==> IsSpace(a[i])
    requires forall i :: 0 <= i < |b| ==> IsSpace(b[i])
    requires p != [] && !IsSpace(p[0]) && !IsSpace(p[|p| - 1])
    ensures ValidateItem(Object(f[field := Str(a + p + b)]), os)
         == ValidateItem(Object(f[field := Str(p)]), os)
  {
    StripPadded(a, p, b);
    StripFixed(p);
    SameValidation(f, os, field, Str(a + p + b), Str(p));
  }

  /** The known names start and end with a letter. */
  lemma KnownNameEnds(n: string)
    requires n in OssTypes || n in Directions
    ensures n != [] && !IsSpace(n[0]) && !IsSpace(n[|n| - 1])
  {
  }

  // ---------------------------------------------------------------------------
  // Validating again
  // ---------------------------------------------------------------------------

  /** A validated record written back as an object of four strings. */
  function AsObject(v: UnitConfig): Item
  {
    Object(map["oss_type" := Str(v.ossType), "oss_config" := Str(v.ossConfig),
               "local_dir" := Str(v.localDir), "direction" := Str(v.direction)])
  }

  function AsObjects(vs: seq<UnitConfig>): (r: seq<Item>)
    ensures |r| == |vs| && forall i :: 0 <= i < |vs| ==> r[i] == AsObject(vs[i])
  {
    seq(|vs|, i requires 0 <= i < |vs| => AsObject(vs[i]))
  }

  /** An absolute path the oracle leaves alone: non-empty, no surrounding
      white space, its own `abspath`. */
  predicate Settled(os: Os, p: string)
  {
    p != "" && Strip(p) == p && os.abspath(p) == p
  }

  lemma StripFixed(s: string)
    requires s == [] || (!IsSpace(s[0]) && !IsSpace(s[|s| - 1]))
    ensures Strip(s) == s
  {
  }

  /** A spelling without capitals or surrounding white space is its own
      normal form. */
  lemma NormalFixed(s: string)
    requires s != [] && !IsSpace(s[0]) && !IsSpace(s[|s| - 1])
    requires forall i :: 0 <= i < |s| ==> !('A' <= s[i] <= 'Z')
    ensures Strip(Lower(s)) == s
  {
    assert Lower(s) == s;
    StripFixed(s);
  }

  /** The known services and directions are their own normal forms. */
  lemma KnownNameNormal(s: string)
    requires s in OssTypes || s in Directions
    ensures Strip(Lower(s)) == s
  {
    if s == "tencent-cos" {
      NormalFixed("tencent-cos");
    } else if s == "aliyun-oss" {
      NormalFixed("aliyun-oss");
    } else if s == "local-to-remote" {
      NormalFixed("local-to-remote");
    } else {
      NormalFixed("remote-to-local");
    }
  }

  lemma AsObjectFields(v: UnitConfig)
    ensures var f := AsObject(v).fields;
      && f.Keys == {"oss_type", "oss_config", "local_dir", "direction"}
      && "oss_type" in f && f["oss_type"] == Str(v.ossType)
      && "oss_config" in f && f["oss_config"] == Str(v.ossConfig)
      && "local_dir" in f && f["local_dir"] == Str(v.localDir)
      && "direction" in f && f["direction"] == Str(v.direction)
  {
  }

  lemma NormaliseAsObject(v: UnitConfig, os: Os)
    requires v.ossType in OssTypes && v.direction in Directions
    requires Settled(os, v.ossConfig) && Settled(os, v.localDir)
    ensures Normalise(AsObject(v).fields, os) == v
  {
    AsObjectFields(v);
    KnownNameNormal(v.ossType);
    KnownNameNormal(v.direction);
  }

  /** Validating the validator's own output again gives it back, when the
      oracle leaves the absolute paths it returned alone. */
  lemma RevalidateRecord(v: UnitConfig, os: Os)
    requires v.ossType in OssTypes && v.direction in Directions
    requires os.isFile(v.ossConfig) && os.isDir(v.localDir)
    requires Settled(os, v.ossConfig) && Settled(os, v.localDir)
    ensures ValidateItem(AsObject(v), os) == Success(v)
  {
    var f := AsObject(v).fields;
    assert v.ossType != "" && v.direction != "";
    assert Truthy(Get(f, "oss_type")) && Truthy(Get(f, "oss_config"));
    assert Truthy(Get(f, "local_dir")) && Truthy(Get(f, "direction"));
    NormaliseAsObject(v, os);
  }

  /** The validator is idempotent on its own output. */
  lemma ValidatorIdempotent(config: Config, os: Os)
    requires ValidateConfig(config, os).Success?
    requires forall v :: v in ValidateConfig(config, os).value ==> Settled(os, v.ossConfig) && Settled(os, v.localDir)
    ensures var vs := ValidateConfig(config, os).value;
      ValidateConfig(ArrayConfig(AsObjects(vs)), os) == Success(vs)
  {
    var items := ItemsOf(config);
    var vs := ValidateConfig(config, os).value;
    CollectAll(Checked(items, os));
    var again := AsObjects(vs);
    var rs := Checked(again, os);
    forall i | 0 <= i < |rs|
      ensures rs[i] == Success(vs[i])
    {
      AcceptedRecord(items[i], os);
      assert vs[i] in vs;
      RevalidateRecord(vs[i], os);
    }
    CollectAll(rs);
    assert Collect(rs).value == vs;
  }

  // ---------------------------------------------------------------------------
  // load_configs
  // ---------------------------------------------------------------------------

  /** What `load_configs` ends with: the configuration, `None`, or an
      exception that escapes it. */
  datatype Loaded = Loaded(config: Config) | NotLoaded | Raised(error: LoadError)

  datatype LoadError = AssertionError | Uncaught(error: ConfigError)

  /** The decoded configuration after validation, as `load_configs` returns it. */
  function AsConfig(vs: seq<UnitConfig>): Config
  {
    ArrayConfig(AsObjects(vs))
  }

  /** `load_configs(path, validator, encoding)`: `decoded` is what
      `json.load` produced (`None` for a decoding error); `validate` says
      whether `main_config_validator` is passed. */
  function LoadConfigs(path: string, encoding: string, os: Os, decoded: Option<Config>, validate: bool): (r: Loaded)
    ensures r == Raised(AssertionError) <==> path == "" || !os.isFile(path) || encoding == ""
    ensures r.Raised? && r.error.Uncaught? ==> r.error.error == AttributeError
    ensures r.Loaded? && validate ==> decoded.Some? && ValidateConfig(decoded.value, os).Success?
  {
    if path == "" || !os.isFile(path) || encoding == "" then Raised(AssertionError)
    else if decoded.None? then NotLoaded
    else if !validate then Loaded(decoded.value)
    else
      match ValidateConfig(decoded.value, os)
      case Success(vs) => Loaded(AsConfig(vs))
      case Failure(AttributeError) => Raised(Uncaught(AttributeError))
      case Failure(_) => NotLoaded
  }

  /** The caught errors: a decoding error or a type, key or value error
      gives `None`; nothing is loaded half-way. */
  lemma LoadOutcomes(path: string, encoding: string, os: Os, decoded: Option<Config>)
    requires path != "" && os.isFile(path) && encoding != ""
    ensures decoded.None? ==> LoadConfigs(path, encoding, os, decoded, true) == NotLoaded
    ensures decoded.Some? ==>
      var v := ValidateConfig(decoded.value, os);
      && (LoadConfigs(path, encoding, os, decoded, true) == NotLoaded <==> v.Failure? && v.error != AttributeError)
      && (LoadConfigs(path, encoding, os, decoded, true).Loaded? <==> v.Success?)
      && (v.Success? ==> LoadConfigs(path, encoding, os, decoded, true) == Loaded(AsConfig(v.value)))
  {
  }

  lemma RequiredFieldSet()
    ensures Elems(RequiredFields) == {"oss_type", "oss_config", "local_dir", "direction"}
  {
    var e := Elems(RequiredFields);
    assert RequiredFields[0] in e && RequiredFields[1] in e;
    assert RequiredFields[2] in e && RequiredFields[3] in e;
  }

  /** A loaded main configuration is an array of valid records, each with
      exactly the four normalised fields. */
  lemma LoadedRecordsValid(path: string, encoding: string, os: Os, decoded: Option<Config>)
    requires LoadConfigs(path, encoding, os, decoded, true).Loaded?
    ensures var c := LoadConfigs(path, encoding, os, decoded, true).config;
      && c.ArrayConfig?
      && |c.items| == |ItemsOf(decoded.value)|
      && forall i :: 0 <= i < |c.items| ==>
           && c.items[i].Object?
           && c.items[i].fields.Keys == Elems(RequiredFields)
           && exists v :: ValidateItem(ItemsOf(decoded.value)[i], os) == Success(v) && c.items[i] == AsObject(v)
  {
    var items := ItemsOf(decoded.value);
    var rs := Checked(items, os);
    var vs := ValidateConfig(decoded.value, os).value;
    CollectAll(rs);
    RequiredFieldSet();
    forall i | 0 <= i < |vs|
      ensures AsObject(vs[i]).fields.Keys == Elems(RequiredFields)
      ensures ValidateItem(items[i], os) == Success(vs[i])
    {
      AsObjectFields(vs[i]);
    }
  }
}
