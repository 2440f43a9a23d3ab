/** The configuration object and the manager that swaps it (`config.go`). */
module Config {
  import opened Prelude
  import opened Schema
  import opened Secrets
  import opened ConfigSpec

  class Config {
    var global: Global
    var modules: map<string, Module>
    var targets: seq<Target>
    var defaultTarget: Option<Target>
    const path: string

    constructor (d: ConfigData)
      ensures Data() == d
    {
      global := d.global;
      modules := d.modules;
      targets := d.targets;
      defaultTarget := d.defaultTarget;
      path := d.path;
    }

    function Data(): ConfigData
      reads this
    {
      ConfigData(global, modules, targets, defaultTarget, path)
    }

    method ApplyDefaults()
      modifies this
      ensures Data() == Defaulted(old(Data()))
    {
      global := DefaultedGlobal(global);
      ghost var before := modules;
      var unvisited := modules.Keys;
      while unvisited != {}
        invariant unvisited <= before.Keys && modules.Keys == before.Keys
        invariant forall name :: name in before ==>
                    modules[name] ==
                    if name in unvisited then before[name] else DefaultedModule(before[name], global.scrapeTimeout)
        invariant global == DefaultedGlobal(old(global))
        invariant targets == old(targets) && defaultTarget == old(defaultTarget)
        decreases unvisited
      {
        var name :| name in unvisited;
        unvisited := unvisited - {name};
        modules := modules[name := DefaultedModule(modules[name], global.scrapeTimeout)];
      }
      var n := |targets|;
      for i := 0 to n
        invariant |targets| == n == |old(targets)|
        invariant forall j :: 0 <= j < n ==>
                    targets[j] == if j < i then DefaultedTarget(old(targets)[j]) else old(targets)[j]
        invariant global == DefaultedGlobal(old(global)) && modules == Defaulted(old(Data())).modules
        invariant defaultTarget == old(defaultTarget)
      {
        targets := targets[i := DefaultedTarget(targets[i])];
      }
      if defaultTarget.Some? {
        defaultTarget := Some(DefaultedTarget(defaultTarget.value));
      }
    }

    /** A map is ranged over in any order, so which unknown collector is reported is not determined. */
    method CheckModules() returns (r: Option<ConfigError>)
      ensures r.None? <==> CollectorsKnown(modules)
      ensures r.Some? ==> r.value.UnknownCollector? && r.value.collector !in COLLECTORS
                          && Mentions(modules, r.value.moduleName, r.value.collector)
    {
      var unvisited := modules.Keys;
      while unvisited != {}
        invariant unvisited <= modules.Keys
        invariant forall name, c :: Mentions(modules, name, c) && name !in unvisited ==> c in COLLECTORS
        decreases unvisited
      {
        var name :| name in unvisited;
        unvisited := unvisited - {name};
        var unknown := FirstUnknown(modules[name].collectors.Keys);
        if unknown.Some? {
          assert Mentions(modules, name, unknown.value);
          return Some(UnknownCollector(name, unknown.value));
        }
        unknown := FirstUnknown(modules[name].perCollectorTimeout.Keys);
        if unknown.Some? {
          assert Mentions(modules, name, unknown.value);
          return Some(UnknownCollector(name, unknown.value));
        }
      }
      return None;
    }

    method Validate(w: World) returns (r: Option<ConfigError>)
      modifies this`targets
      ensures r.None? <==> Accepted(old(Data()), w)
      ensures r.None? ==> Data() == WithModules(old(Data()))
      ensures modules == map[] ==> r == Some(NoModules)
      ensures modules != map[] && global.defaultModule !in modules ==> r == Some(DefaultModuleUndefined)
      ensures modules != map[] && global.defaultModule in modules && CollectorsKnown(modules) ==>
                r == CheckTargets(old(Data()), 0, w)
    {
      if modules == map[] {
        return Some(NoModules);
      }
      if global.defaultModule !in modules {
        return Some(DefaultModuleUndefined);
      }
      r := CheckModules();
      if r.None? {
        r := ValidateTargets(w);
      }
    }

    /** The loop of `validate` over the targets, writing module names as it goes, and the default target after it. */
    method ValidateTargets(w: World) returns (r: Option<ConfigError>)
      modifies this`targets
      ensures r == CheckTargets(old(Data()), 0, w)
      ensures r.None? ==> Data() == WithModules(old(Data()))
    {
      ghost var before := Data();
      var seen: set<string> := {};
      var n := |targets|;
      for i := 0 to n
        invariant |targets| == n == |before.targets|
        invariant forall j :: 0 <= j < n ==>
                    targets[j] == if j < i then WithModules(before).targets[j] else before.targets[j]
        invariant forall s :: s in seen <==> exists j :: 0 <= j < i && before.targets[j].name == s
        invariant CheckTargets(before, 0, w) == CheckTargets(before, i, w)
      {
        var t := targets[i];
        if t.name == "" {
          return Some(NameMissing(i));
        }
        if t.name in seen {
          return Some(NameTwice(t.name));
        }
        seen := seen + {t.name};
        if t.address == "" {
          return Some(AddressMissing(t.name));
        }
        if t.moduleName == "" {
          t := t.(moduleName := global.defaultModule);
          targets := targets[i := t];
        }
        if t.moduleName !in modules {
          return Some(ModuleUndefined(t.name, t.moduleName));
        }
        var bolt := CheckBolt(t.address, t.bolt, w);
        if bolt.Some? {
          return Some(BadBolt(t.name, bolt.value));
        }
        if t.jolokia.Some? {
          var jolokia := CheckJolokia(t.jolokia.value, w);
          if jolokia.Some? {
            return Some(BadJolokia(t.name, jolokia.value));
          }
        }
      }
      if defaultTarget.Some? {
        var bolt := CheckBolt(DEFAULT_LABEL, defaultTarget.value.bolt, w);
        if bolt.Some? {
          return Some(BadDefaultTarget(bolt.value));
        }
      }
      return None;
    }

    method Find(query: string) returns (r: Option<Target>)
      ensures r == FindTarget(Data(), query)
    {
      for i := 0 to |targets|
        invariant ByName(targets, query) == ByName(targets[i..], query)
      {
        if targets[i].name == query {
          return Some(targets[i]);
        }
        assert targets[i..][1..] == targets[i + 1..];
      }
      var address := WithPort(query);
      for i := 0 to |targets|
        invariant ByAddress(targets, address) == ByAddress(targets[i..], address)
      {
        if targets[i].address == address {
          return Some(targets[i]);
        }
        assert targets[i..][1..] == targets[i + 1..];
      }
      if defaultTarget.Some? {
        var t := defaultTarget.value.(address := address);
        if t.moduleName == "" {
          t := t.(moduleName := global.defaultModule);
        }
        return Some(DefaultedTarget(t));
      }
      return None;
    }
  }

  method FirstUnknown(names: set<string>) returns (r: Option<string>)
    ensures r.None? <==> names <= COLLECTORS
    ensures r.Some? ==> r.value in names && r.value !in COLLECTORS
  {
    var unvisited := names;
    while unvisited != {}
      invariant unvisited <= names && names - unvisited <= COLLECTORS
      decreases unvisited
    {
      var c :| c in unvisited;
      if c !in COLLECTORS {
        return Some(c);
      }
      unvisited := unvisited - {c};
    }
    return None;
  }

  method LoadFile(path: string, w: World, parse: Parser) returns (r: Result<Config, ConfigError>)
    ensures r.Ok? <==> Load(path, w, parse).Some?
    ensures r.Ok? ==> fresh(r.value) && r.value.Data() == Load(path, w, parse).value
  {
    if path !in w.files {
      return Err(FileUnreadable(path));
    }
    var text := ExpandSecrets(w.files[path], w);
    if text.Err? {
      return Err(SecretUnreadable(text.error));
    }
    var parsed := parse(text.value);
    if parsed.None? {
      return Err(Unparsable);
    }
    var c := new Config(parsed.value.(path := path));
    c.ApplyDefaults();
    var bad := c.Validate(w);
    if bad.Some? {
      return Err(bad.value);
    }
    return Ok(c);
  }

  /** `Manager`: holds the active configuration; a reload swaps it or leaves it. */
  class Manager {
    var current: Config

    constructor (initial: Config)
      ensures current == initial
    {
      current := initial;
    }

    method Reload(w: World, parse: Parser) returns (r: Result<(), ConfigError>)
      modifies this
      ensures current.Data() == Reloaded(old(current.Data()), w, LoaderOf(parse))
      ensures r.Ok? <==> old(current.path) != "" && Load(old(current.path), w, parse).Some?
      ensures r.Err? ==> current == old(current)
    {
      if current.path == "" {
        return Err(NoPath);
      }
      var next := LoadFile(current.path, w, parse);
      if next.Err? {
        return Err(next.error);
      }
      current := next.value;
      return Ok(());
    }
  }
}
