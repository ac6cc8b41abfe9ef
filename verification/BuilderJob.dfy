/** The environment of the image builder's job. */
module BuilderJob {
  import opened Runs
  import opened GoStrings

  datatype EnvVar = EnvVar(name: string, value: string)

  /** A configuration value of the application, its value already printed. */
  datatype ConfigValue = ConfigValue(group: string, name: string, value: string)

  // ---------------------------------------------------------------- the process environment

  /** What is before and after the first equals sign. */
  function KeyOf(entry: string): (k: string)
    requires '=' in entry
    ensures '=' !in k && |k| < |entry| && entry[|k|] == '=' && k <= entry
  {
    if entry[0] == '=' then "" else [entry[0]] + KeyOf(entry[1..])
  }

  function ValueOf(entry: string): (v: string)
    requires '=' in entry
    ensures KeyOf(entry) + "=" + v == entry
  {
    entry[|KeyOf(entry)| + 1..]
  }

  predicate Entries(environ: seq<string>)
  {
    forall i :: 0 <= i < |environ| ==> '=' in environ[i]
  }

  /** The value of the first entry for `key`. */
  function FirstValue(environ: seq<string>, key: string): (r: Option<string>)
    requires Entries(environ)
  {
    if environ == [] then None
    else
      match FirstValue(environ[..|environ| - 1], key)
      case Some(v) => Some(v)
      case None =>
        var e := environ[|environ| - 1];
        if KeyOf(e) == key then Some(ValueOf(e)) else None
  }

  /** By position: the value of the first entry with that key, or none if there is no such entry. */
  lemma {:induction false} FirstValueIs(environ: seq<string>, key: string)
    requires Entries(environ)
    ensures var r := FirstValue(environ, key);
            if r == None then forall i :: 0 <= i < |environ| ==> KeyOf(environ[i]) != key
            else exists i :: 0 <= i < |environ| && KeyOf(environ[i]) == key && environ[i] == key + "=" + r.value
                             && forall j :: 0 <= j < i ==> KeyOf(environ[j]) != key
  {
    if environ == [] {
    } else {
      var front, last := environ[..|environ| - 1], environ[|environ| - 1];
      FirstValueIs(front, key);
      assert environ == front + [last];
    }
  }

  predicate HasAnyPrefix(key: string, prefixes: seq<string>)
  {
    exists p :: p in prefixes && HasPrefix(key, p)
  }

  /** The filtered environment: for each key with one of the prefixes, its first value. */
  ghost predicate IsFiltered(envs: map<string, string>, environ: seq<string>, prefixes: seq<string>)
    requires Entries(environ)
  {
    forall k ::
      && (k in envs <==> HasAnyPrefix(k, prefixes) && FirstValue(environ, k).Some?)
      && (k in envs ==> FirstValue(environ, k) == Some(envs[k]))
  }

  method Environ(environ: seq<string>, prefixes: seq<string>) returns (envs: map<string, string>)
    requires Entries(environ)
    ensures IsFiltered(envs, environ, prefixes)
  {
    envs := map[];
    for n := 0 to |environ|
      invariant IsFiltered(envs, environ[..n], prefixes)
    {
      var key, value := KeyOf(environ[n]), ValueOf(environ[n]);
      ghost var before := envs;
      for index := 0 to |prefixes|
        invariant envs == if key !in before && HasAnyPrefix(key, prefixes[..index]) then before[key := value] else before
      {
        assert prefixes[..index + 1] == prefixes[..index] + [prefixes[index]];
        if key !in envs && HasPrefix(key, prefixes[index]) {
          envs := envs[key := value];
        }
      }
      assert prefixes[..|prefixes|] == prefixes;
      assert environ[..n + 1][..n] == environ[..n];
    }
    assert environ[..|environ|] == environ;
  }

  // ---------------------------------------------------------------- registry settings

  const REGISTRY_PREFIX: string := "DRYCC_REGISTRY_"
  const STORAGE_PREFIX: string := "DRYCC_STORAGE_"
  const REQUIRED: seq<string> :=
    ["DRYCC_STORAGE_BUCKET", "DRYCC_STORAGE_ENDPOINT", "DRYCC_STORAGE_PATH_STYLE", "DRYCC_REGISTRY_HOST"]

  /** Reading a Go map: a missing key reads as the empty string. */
  function Get(m: map<string, string>, key: string): string
  {
    if key in m then m[key] else ""
  }

  predicate OffCluster(env: map<string, string>)
  {
    Get(env, "DRYCC_REGISTRY_LOCATION") == "off-cluster"
  }

  /** The variable on which the registry's location makes the build depend. */
  function LocationKey(env: map<string, string>): string
  {
    if OffCluster(env) then "DRYCC_REGISTRY_ORGANIZATION" else "DRYCC_REGISTRY_PROXY_HOST"
  }

  predicate Complete(env: map<string, string>)
  {
    (forall i :: 0 <= i < |REQUIRED| ==> REQUIRED[i] in env) && Get(env, LocationKey(env)) != ""
  }

  /** What is asked for, by name. */
  lemma CompleteIff(env: map<string, string>)
    ensures Complete(env) <==>
              && "DRYCC_STORAGE_BUCKET" in env && "DRYCC_STORAGE_ENDPOINT" in env
              && "DRYCC_STORAGE_PATH_STYLE" in env && "DRYCC_REGISTRY_HOST" in env
              && (if "DRYCC_REGISTRY_LOCATION" in env && env["DRYCC_REGISTRY_LOCATION"] == "off-cluster"
                  then "DRYCC_REGISTRY_ORGANIZATION" in env && env["DRYCC_REGISTRY_ORGANIZATION"] != ""
                  else "DRYCC_REGISTRY_PROXY_HOST" in env && env["DRYCC_REGISTRY_PROXY_HOST"] != "")
  {
    assert REQUIRED[0] == "DRYCC_STORAGE_BUCKET" && REQUIRED[1] == "DRYCC_STORAGE_ENDPOINT";
    assert REQUIRED[2] == "DRYCC_STORAGE_PATH_STYLE" && REQUIRED[3] == "DRYCC_REGISTRY_HOST";
  }

  /** Returns the first variable found missing, if any; in the order required names, then the one the
      location asks for. */
  method CheckImagebuilderRequiredEnv(env: map<string, string>) returns (missing: Option<string>)
    ensures missing == None <==> Complete(env)
    ensures missing.Some? ==>
              || (exists i :: 0 <= i < |REQUIRED| && missing.value == REQUIRED[i] && REQUIRED[i] !in env
                              && forall j :: 0 <= j < i ==> REQUIRED[j] in env)
              || ((forall j :: 0 <= j < |REQUIRED| ==> REQUIRED[j] in env)
                  && missing.value == LocationKey(env) && Get(env, missing.value) == "")
  {
    for index := 0 to |REQUIRED|
      invariant forall j :: 0 <= j < index ==> REQUIRED[j] in env
    {
      var envName := REQUIRED[index];
      if envName !in env {
        return Some(envName);
      }
    }
    if Get(env, "DRYCC_REGISTRY_LOCATION") == "off-cluster" {
      if Get(env, "DRYCC_REGISTRY_ORGANIZATION") == "" {
        return Some("DRYCC_REGISTRY_ORGANIZATION");
      }
    } else {
      if Get(env, "DRYCC_REGISTRY_PROXY_HOST") == "" {
        return Some("DRYCC_REGISTRY_PROXY_HOST");
      }
    }
    return None;
  }

  class StringCell {
    var value: string

    constructor (value: string)
      ensures this.value == value
    {
      this.value := value;
    }
  }

  /** The settings handed to the builder; succeeds exactly when the filtered environment is complete,
      and then completes the image name in place. */
  method GetImagebuilderEnv(image: StringCell, app: string, environ: seq<string>)
    returns (r: Option<map<string, string>>, ghost env: map<string, string>)
    requires Entries(environ)
    modifies image
    ensures IsFiltered(env, environ, ["DRYCC_REGISTRY_", "DRYCC_STORAGE_"])
    ensures r == if !Complete(env) then None
                 else if OffCluster(env) then Some(env)
                 else Some(env["DRYCC_REGISTRY_ORGANIZATION" := app])
    ensures image.value == if r.None? then old(image.value)
                           else Get(env, if OffCluster(env) then "DRYCC_REGISTRY_HOST" else "DRYCC_REGISTRY_PROXY_HOST")
                                + "/" + Get(r.value, "DRYCC_REGISTRY_ORGANIZATION") + "/" + old(image.value)
  {
    var imagebuilderEnv := Environ(environ, [REGISTRY_PREFIX, STORAGE_PREFIX]);
    env := imagebuilderEnv;
    var missing := CheckImagebuilderRequiredEnv(imagebuilderEnv);
    if missing.Some? {
      r := None;
      return;
    }
    var host;
    if Get(imagebuilderEnv, "DRYCC_REGISTRY_LOCATION") == "off-cluster" {
      host := Get(imagebuilderEnv, "DRYCC_REGISTRY_HOST");
    } else {
      imagebuilderEnv := imagebuilderEnv["DRYCC_REGISTRY_ORGANIZATION" := app];
      host := Get(imagebuilderEnv, "DRYCC_REGISTRY_PROXY_HOST");
      assert host == Get(env, "DRYCC_REGISTRY_PROXY_HOST");
    }
    image.value := host + "/" + Get(imagebuilderEnv, "DRYCC_REGISTRY_ORGANIZATION") + "/" + image.value;
    r := Some(imagebuilderEnv);
  }

  // ---------------------------------------------------------------- the job

  datatype Container = Container(name: string, image: string, env: seq<EnvVar>)

  /** A job is passed by value, but its containers are a slice: copies share the backing array. */
  datatype Job = Job(containers: array<Container>)

  method AddEnvToJob(job: Job, key: string, value: string)
    modifies job.containers
    ensures job.containers.Length > 0 ==>
              job.containers[0] == old(job.containers[0]).(env := old(job.containers[0].env) + [EnvVar(key, value)])
    ensures forall i :: 0 < i < job.containers.Length ==> job.containers[i] == old(job.containers[i])
  {
    if job.containers.Length > 0 {
      job.containers[0] := job.containers[0].(env := job.containers[0].env + [EnvVar(key, value)]);
    }
  }

  /** The values of the global group, in order. */
  function Globals(values: seq<ConfigValue>): (r: seq<EnvVar>)
  {
    if values == [] then []
    else
      var v := values[|values| - 1];
      Globals(values[..|values| - 1]) + if v.group == "global" then [EnvVar(v.name, v.value)] else []
  }

  lemma {:induction false} GlobalsConcat(a: seq<ConfigValue>, b: seq<ConfigValue>)
    ensures Globals(a + b) == Globals(a) + Globals(b)
  {
    if b == [] {
      assert a + b == a;
    } else {
      var front := b[..|b| - 1];
      assert (a + b)[..|a + b| - 1] == a + front;
      GlobalsConcat(a, front);
    }
  }

  /** The globals are exactly the values of the group `global`, each as often as it is given and in
      the given order. */
  lemma GlobalsAre(a: seq<ConfigValue>, v: ConfigValue, b: seq<ConfigValue>)
    ensures Globals(a + [v] + b) == Globals(a) + (if v.group == "global" then [EnvVar(v.name, v.value)] else []) + Globals(b)
    ensures Globals([]) == []
  {
    GlobalsConcat(a + [v], b);
    assert (a + [v])[..|a|] == a;
  }

  lemma {:induction false} GlobalsMembers(values: seq<ConfigValue>, name: string, value: string)
    ensures EnvVar(name, value) in Globals(values) <==> ConfigValue("global", name, value) in values
  {
    if values == [] {
    } else {
      var front, last := values[..|values| - 1], values[|values| - 1];
      GlobalsMembers(front, name, value);
      assert values == front + [last];
    }
  }

  function DebugVars(debug: bool): (r: seq<EnvVar>)
  {
    if debug then [EnvVar("DRYCC_DEBUG", "1")] else []
  }

  method BuildJob(debug: bool, values: seq<ConfigValue>) returns (job: Job)
    ensures fresh(job.containers) && job.containers.Length == 1
    ensures job.containers[0].env == Globals(values) + DebugVars(debug)
  {
    var containers := new Container[1](_ => Container("", "", []));
    job := Job(containers);
    var cvs: seq<EnvVar> := [];
    for i := 0 to |values|
      invariant cvs == Globals(values[..i])
    {
      assert values[..i + 1][..i] == values[..i];
      if values[i].group == "global" {
        cvs := cvs + [EnvVar(values[i].name, values[i].value)];
      }
    }
    assert values[..|values|] == values;
    for i := 0 to |cvs|
      invariant job.containers[0].env == cvs[..i]
    {
      job.containers[0] := job.containers[0].(env := job.containers[0].env + [cvs[i]]);
    }
    assert cvs[..|cvs|] == cvs;
    if debug {
      AddEnvToJob(job, "DRYCC_DEBUG", "1");
    }
  }

  function Fixed(debug: bool, values: seq<ConfigValue>, tarKey: string, sha: string, imageName: string): (r: seq<EnvVar>)
  {
    Globals(values) + DebugVars(debug) +
    [EnvVar("TAR_PATH", tarKey), EnvVar("SOURCE_VERSION", sha), EnvVar("IMAGE_NAME", imageName)]
  }

  /** An order in which a Go loop may visit the keys of `m`. */
  ghost predicate VisitsOnce(order: seq<string>, m: map<string, string>)
  {
    && (forall i, j :: 0 <= i < j < |order| ==> order[i] != order[j])
    && (forall k :: k in order <==> k in m)
  }

  function Listed(order: seq<string>, m: map<string, string>): (r: seq<EnvVar>)
    requires forall k :: k in order ==> k in m
    ensures |r| == |order| && forall i :: 0 <= i < |r| ==> r[i] == EnvVar(order[i], m[order[i]])
  {
    seq(|order|, i requires 0 <= i < |order| => EnvVar(order[i], m[order[i]]))
  }

  method AddImageEnv(job: Job, imageEnv: map<string, string>) returns (order: seq<string>)
    requires job.containers.Length > 0
    modifies job.containers
    ensures VisitsOnce(order, imageEnv)
    ensures job.containers[0] == old(job.containers[0]).(env := old(job.containers[0].env) + Listed(order, imageEnv))
  {
    order := [];
    var keys := imageEnv.Keys;
    while keys != {}
      invariant keys <= imageEnv.Keys && forall k :: k in order <==> k in imageEnv && k !in keys
      invariant forall i, j :: 0 <= i < j < |order| ==> order[i] != order[j]
      invariant job.containers[0] == old(job.containers[0]).(env := old(job.containers[0].env) + Listed(order, imageEnv))
      decreases keys
    {
      var key :| key in keys;
      AddEnvToJob(job, key, imageEnv[key]);
      assert Listed(order + [key], imageEnv) == Listed(order, imageEnv) + [EnvVar(key, imageEnv[key])];
      order := order + [key];
      keys := keys - {key};
    }
  }

  /** The map is visited in an arbitrary order, which is returned. */
  method CreateBuilderJob(
      debug: bool, values: seq<ConfigValue>, tarKey: string, gitShortHash: string, imageName: string,
      builderName: string, builderImage: string, imageEnv: map<string, string>)
    returns (job: Job, order: seq<string>)
    ensures fresh(job.containers) && job.containers.Length == 1 && VisitsOnce(order, imageEnv)
    ensures job.containers[0] == Container(builderName, builderImage,
              Fixed(debug, values, tarKey, gitShortHash, imageName) + Listed(order, imageEnv))
  {
    job := BuildJob(debug, values);
    job.containers[0] := job.containers[0].(name := builderName);
    job.containers[0] := job.containers[0].(image := builderImage);
    AddEnvToJob(job, "TAR_PATH", tarKey);
    AddEnvToJob(job, "SOURCE_VERSION", gitShortHash);
    AddEnvToJob(job, "IMAGE_NAME", imageName);
    ghost var fixed_ := Fixed(debug, values, tarKey, gitShortHash, imageName);
    assert job.containers[0].env == fixed_;
    order := AddImageEnv(job, imageEnv);
  }

  // ---------------------------------------------------------------- what the builder sees

  /** The value a container sees: of entries with the same name, the last counts. */
  function LastValue(env: seq<EnvVar>, name: string): (r: Option<string>)
  {
    if env == [] then None
    else if env[|env| - 1].name == name then Some(env[|env| - 1].value)
    else LastValue(env[..|env| - 1], name)
  }

  lemma {:induction false} LastValueListed(base: seq<EnvVar>, order: seq<string>, m: map<string, string>, name: string)
    requires forall k :: k in order ==> k in m
    ensures LastValue(base + Listed(order, m), name) == if name in order then Some(m[name]) else LastValue(base, name)
  {
    var env := base + Listed(order, m);
    if order == [] {
      assert env == base;
    } else {
      var front := order[..|order| - 1];
      assert order == front + [order[|order| - 1]];
      assert env[..|env| - 1] == base + Listed(front, m);
      LastValueListed(base, front, m, name);
    }
  }

  lemma {:induction false} ListedOnce(order: seq<string>, m: map<string, string>, v: EnvVar)
    requires forall k :: k in order ==> k in m
    requires forall i, j :: 0 <= i < j < |order| ==> order[i] != order[j]
    ensures multiset(Listed(order, m))[v] == if v.name in order && m[v.name] == v.value then 1 else 0
  {
    if order == [] {
    } else {
      var front, last := order[..|order| - 1], order[|order| - 1];
      assert order == front + [last];
      ListedOnce(front, m, v);
      assert Listed(order, m) == Listed(front, m) + [EnvVar(last, m[last])];
    }
  }

  /** What a variable reads as does not depend on the order in which Go visits the map. */
  lemma OrderDoesNotMatter(base: seq<EnvVar>, order: seq<string>, other: seq<string>, m: map<string, string>, name: string)
    requires VisitsOnce(order, m) && VisitsOnce(other, m)
    ensures LastValue(base + Listed(order, m), name) == LastValue(base + Listed(other, m), name)
    ensures multiset(Listed(order, m)) == multiset(Listed(other, m))
  {
    LastValueListed(base, order, m, name);
    LastValueListed(base, other, m, name);
    forall v ensures multiset(Listed(order, m))[v] == multiset(Listed(other, m))[v] {
      ListedOnce(order, m, v);
      ListedOnce(other, m, v);
    }
  }

  /** The names of the settings the build passes on. */
  predicate ImageKey(k: string)
  {
    HasPrefix(k, REGISTRY_PREFIX) || HasPrefix(k, STORAGE_PREFIX) || k == "DRYCC_STACK"
  }

  lemma ImageKeysStartAlike(k: string)
    requires ImageKey(k)
    ensures k != "" && k[0] == 'D'
  {
  }

  lemma LastValueAppend(env: seq<EnvVar>, v: EnvVar, name: string)
    ensures LastValue(env + [v], name) == if v.name == name then Some(v.value) else LastValue(env, name)
  {
  }

  lemma LastOfNoneOrOne(base: seq<EnvVar>, debug: bool, name: string)
    ensures LastValue(base + DebugVars(debug), name)
            == if debug && name == "DRYCC_DEBUG" then Some("1") else LastValue(base, name)
  {
    if debug {
      LastValueAppend(base, EnvVar("DRYCC_DEBUG", "1"), name);
    } else {
      assert base + DebugVars(debug) == base;
    }
  }

  lemma LastOfThreeMore(base: seq<EnvVar>, t: EnvVar, s: EnvVar, i: EnvVar, name: string)
    ensures LastValue(base + [t, s, i], name)
            == if name == i.name then Some(i.value) else if name == s.name then Some(s.value)
               else if name == t.name then Some(t.value) else LastValue(base, name)
  {
    assert base + [t, s, i] == base + [t] + [s] + [i];
    LastValueAppend(base + [t] + [s], i, name);
    LastValueAppend(base + [t], s, name);
    LastValueAppend(base, t, name);
  }

  /** The value of the last entry of the group `global` with the given name. */
  lemma {:induction false} LastGlobal(values: seq<ConfigValue>, name: string)
    ensures LastValue(Globals(values), name) == None <==>
              forall i :: 0 <= i < |values| ==> !(values[i].group == "global" && values[i].name == name)
    ensures LastValue(Globals(values), name).Some? ==>
              exists i :: 0 <= i < |values|
                && values[i] == ConfigValue("global", name, LastValue(Globals(values), name).value)
                && forall j :: i < j < |values| ==> !(values[j].group == "global" && values[j].name == name)
  {
    if values == [] {
    } else {
      var front, last := values[..|values| - 1], values[|values| - 1];
      LastGlobal(front, name);
      assert values == front + [last];
      if last.group == "global" {
        LastValueAppend(Globals(front), EnvVar(last.name, last.value), name);
      } else {
        assert Globals(values) == Globals(front);
      }
    }
  }

  /** What any variable reads as inside the builder, for whatever order the settings are visited in: a
      setting that is passed on counts most, then the three variables of the job, then the debug flag,
      and then the last global value of the application's configuration. */
  lemma WhatTheBuilderSees(
      debug: bool, values: seq<ConfigValue>, tarKey: string, sha: string, imageName: string,
      order: seq<string>, imageEnv: map<string, string>, name: string)
    requires VisitsOnce(order, imageEnv)
    ensures LastValue(Fixed(debug, values, tarKey, sha, imageName) + Listed(order, imageEnv), name)
            == if name in imageEnv then Some(imageEnv[name])
               else if name == "IMAGE_NAME" then Some(imageName)
               else if name == "SOURCE_VERSION" then Some(sha)
               else if name == "TAR_PATH" then Some(tarKey)
               else if debug && name == "DRYCC_DEBUG" then Some("1")
               else LastValue(Globals(values), name)
  {
    LastValueListed(Fixed(debug, values, tarKey, sha, imageName), order, imageEnv, name);
    LastOfThreeMore(Globals(values) + DebugVars(debug), EnvVar("TAR_PATH", tarKey), EnvVar("SOURCE_VERSION", sha),
                    EnvVar("IMAGE_NAME", imageName), name);
    LastOfNoneOrOne(Globals(values), debug, name);
  }

  /** Neither the application's configuration nor the passed-on settings hide the three variables the
      builder works from, in whatever order the map is visited. */
  lemma JobVariablesNotShadowed(
      debug: bool, values: seq<ConfigValue>, tarKey: string, sha: string, imageName: string,
      order: seq<string>, imageEnv: map<string, string>)
    requires VisitsOnce(order, imageEnv) && forall k :: k in imageEnv ==> ImageKey(k)
    ensures var env := Fixed(debug, values, tarKey, sha, imageName) + Listed(order, imageEnv);
            && LastValue(env, "TAR_PATH") == Some(tarKey)
            && LastValue(env, "SOURCE_VERSION") == Some(sha)
            && LastValue(env, "IMAGE_NAME") == Some(imageName)
  {
    forall k | k in imageEnv ensures k != "" && k[0] == 'D' {
      ImageKeysStartAlike(k);
    }
    assert "TAR_PATH"[0] == 'T' && "SOURCE_VERSION"[0] == 'S' && "IMAGE_NAME"[0] == 'I';
    WhatTheBuilderSees(debug, values, tarKey, sha, imageName, order, imageEnv, "TAR_PATH");
    WhatTheBuilderSees(debug, values, tarKey, sha, imageName, order, imageEnv, "SOURCE_VERSION");
    WhatTheBuilderSees(debug, values, tarKey, sha, imageName, order, imageEnv, "IMAGE_NAME");
  }

  /** The settings of the registry and of the storage are kept, and nothing else. */
  lemma FilteredByName(env: map<string, string>, environ: seq<string>, name: string)
    requires Entries(environ) && IsFiltered(env, environ, ["DRYCC_REGISTRY_", "DRYCC_STORAGE_"])
    ensures name in env <==>
              && ("DRYCC_REGISTRY_" <= name || "DRYCC_STORAGE_" <= name)
              && exists i :: 0 <= i < |environ| && KeyOf(environ[i]) == name
  {
    FirstValueIs(environ, name);
    var prefixes := ["DRYCC_REGISTRY_", "DRYCC_STORAGE_"];
    assert prefixes[0] in prefixes && prefixes[1] in prefixes;
    if FirstValue(environ, name).Some? {
      var i :| 0 <= i < |environ| && KeyOf(environ[i]) == name;
    }
  }

  /** The settings read from any process environment, with the stack added, are of that kind. */
  lemma SettingsAreImageKeys(env: map<string, string>, environ: seq<string>, app: string, stack: string)
    requires Entries(environ) && IsFiltered(env, environ, [REGISTRY_PREFIX, STORAGE_PREFIX])
    ensures forall k :: k in env["DRYCC_REGISTRY_ORGANIZATION" := app]["DRYCC_STACK" := stack] ==> ImageKey(k)
    ensures forall k :: k in env["DRYCC_STACK" := stack] ==> ImageKey(k)
  {
  }
}
