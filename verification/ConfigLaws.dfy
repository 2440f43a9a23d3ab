/** What holds of every configuration that was loaded, and over every run of reloads. */
module ConfigLaws {
  import opened Prelude
  import opened Schema
  import opened Secrets
  import opened ConfigSpec

  // ----- what validation accepts, said without the order of its checks -----

  predicate BoltOk(local: bool, b: Bolt, w: World) {
    && b.scheme in SCHEMES
    && if b.auth == "none" then local
       else b.username != "" && (b.password == "" <==> b.passwordFile != "") && FileOk(b.passwordFile, w)
  }

  predicate FileOk(path: string, w: World) {
    path != "" ==> path in w.acceptedModes
  }

  predicate JolokiaOk(j: Jolokia, w: World) {
    && j.url != ""
    && (j.auth.Some? ==>
          var a := j.auth.value;
          a.username != "" && (a.password != "" || a.passwordFile != "") && FileOk(a.passwordFile, w))
  }

  predicate TargetOk(t: Target, d: ConfigData, w: World) {
    && t.name != "" && t.address != ""
    && ModuleOf(t, d.global) in d.modules
    && BoltOk(IsLocalhost(t.address), t.bolt, w)
    && (t.jolokia.Some? ==> JolokiaOk(t.jolokia.value, w))
  }

  ghost predicate NamesDistinct(targets: seq<Target>) {
    forall i, j :: 0 <= i < j < |targets| ==> targets[i].name != targets[j].name
  }

  ghost predicate WellFormed(d: ConfigData, w: World) {
    && d.global.defaultModule in d.modules
    && CollectorsKnown(d.modules)
    && NamesDistinct(d.targets)
    && (forall i :: 0 <= i < |d.targets| ==> TargetOk(d.targets[i], d, w))
    && (d.defaultTarget.Some? ==> BoltOk(true, d.defaultTarget.value.bolt, w))
  }

  lemma BoltCheckIff(address: string, b: Bolt, w: World)
    ensures CheckBolt(address, b, w).None? <==> BoltOk(IsLocalhost(address), b, w)
  {
  }

  lemma TargetCheckIff(d: ConfigData, i: nat, w: World)
    requires i < |d.targets|
    ensures CheckTarget(d, i, w).None? <==> TargetOk(d.targets[i], d, w) && !NamedBefore(d.targets, i)
  {
    BoltCheckIff(d.targets[i].address, d.targets[i].bolt, w);
  }

  lemma {:induction false} TargetsCheckIff(d: ConfigData, i: nat, w: World)
    requires i <= |d.targets|
    ensures CheckTargets(d, i, w).None? <==>
            && (forall k :: i <= k < |d.targets| ==> TargetOk(d.targets[k], d, w) && !NamedBefore(d.targets, k))
            && (d.defaultTarget.Some? ==> BoltOk(true, d.defaultTarget.value.bolt, w))
    decreases |d.targets| - i
  {
    if i < |d.targets| {
      TargetCheckIff(d, i, w);
      TargetsCheckIff(d, i + 1, w);
    } else if d.defaultTarget.Some? {
      BoltCheckIff(DEFAULT_LABEL, d.defaultTarget.value.bolt, w);
    }
  }

  lemma DistinctIff(targets: seq<Target>)
    ensures NamesDistinct(targets) <==> forall i :: 0 <= i < |targets| ==> !NamedBefore(targets, i)
  {
    if forall i :: 0 <= i < |targets| ==> !NamedBefore(targets, i) {
      forall i, j | 0 <= i < j < |targets|
        ensures targets[i].name != targets[j].name
      {
        assert !NamedBefore(targets, j);
      }
    }
  }

  /** Validation passes exactly the well-formed configurations. */
  lemma {:induction false} AcceptedIff(d: ConfigData, w: World)
    ensures Accepted(d, w) <==> WellFormed(d, w)
  {
    TargetsCheckIff(d, 0, w);
    DistinctIff(d.targets);
  }

  // ----- the normal form -----

  /** Filling in defaults a second time changes nothing. */
  lemma {:induction false} DefaultsIdempotent(d: ConfigData)
    ensures Defaulted(Defaulted(d)) == Defaulted(d)
  {
    assert Defaulted(Defaulted(d)).modules == Defaulted(d).modules;
    assert Defaulted(Defaulted(d)).targets == Defaulted(d).targets;
  }

  /** Once defaults are in, no target can be refused for lack of an address. */
  lemma {:induction false} AddressNeverMissing(d: ConfigData, i: nat, w: World)
    requires i < |d.targets|
    ensures CheckTarget(Defaulted(d), i, w).Some? ==> !CheckTarget(Defaulted(d), i, w).value.AddressMissing?
  {
    assert Defaulted(d).targets[i] == DefaultedTarget(d.targets[i]);
  }

  /** Loading again would change nothing in it: defaults are in and every target names its module. */
  ghost predicate Normal(d: ConfigData) {
    && Defaulted(d) == d
    && WithModules(d) == d
    && d.global.defaultModule != ""
  }

  lemma NamedModulesKeepWellFormed(d: ConfigData, w: World)
    requires WellFormed(d, w)
    ensures WellFormed(WithModules(d), w)
  {
    var e := WithModules(d);
    forall i | 0 <= i < |e.targets|
      ensures TargetOk(e.targets[i], e, w)
    {
      assert TargetOk(d.targets[i], d, w);
      assert e.targets[i] == d.targets[i].(moduleName := ModuleOf(d.targets[i], d.global));
    }
  }

  lemma NamedModulesAreNormal(d: ConfigData)
    requires Defaulted(d) == d
    ensures Normal(WithModules(d))
  {
    var e := WithModules(d);
    forall i | 0 <= i < |e.targets|
      ensures DefaultedTarget(e.targets[i]) == e.targets[i]
      ensures ModuleOf(e.targets[i], e.global) == e.targets[i].moduleName
    {
      assert Defaulted(d).targets[i] == DefaultedTarget(d.targets[i]);
    }
    assert Defaulted(e).targets == e.targets;
    assert Defaulted(e).modules == Defaulted(d).modules;
    assert WithModules(e).targets == e.targets;
  }

  /** A loaded configuration is a well-formed normal form: defaulting and validating it again gives it back. */
  lemma {:induction false} LoadedIsFixpoint(path: string, w: World, parse: Parser)
    ensures Load(path, w, parse).Some? ==>
              var d := Load(path, w, parse).value;
              WellFormed(d, w) && Normal(d) && Accepted(Defaulted(d), w) && d.path == path
  {
    if Load(path, w, parse).None? {
      return;
    }
    var d := Defaulted(parse(Expanded(w.files[path], w).value).value.(path := path));
    assert Load(path, w, parse) == Some(WithModules(d));
    AcceptedIff(d, w);
    NamedModulesKeepWellFormed(d, w);
    DefaultsIdempotent(parse(Expanded(w.files[path], w).value).value.(path := path));
    NamedModulesAreNormal(d);
    AcceptedIff(WithModules(d), w);
  }

  // ----- runs of reloads -----

  /** Some world passed it, and it is in normal form. */
  ghost predicate Sound(d: ConfigData) {
    && Normal(d)
    && exists w :: WellFormed(d, w)
  }

  lemma LoadedIsSound(path: string, w: World, parse: Parser)
    ensures Load(path, w, parse).Some? ==>
              Sound(Load(path, w, parse).value) && Load(path, w, parse).value.path == path
  {
    LoadedIsFixpoint(path, w, parse);
  }

  /** Reading an empty file at this path changes nothing that validation looks at. */
  function WithEmptyFile(w: World, path: string): World {
    w.(files := w.files[path := ""])
  }

  /** The sound configurations are exactly those that some file can be loaded as. */
  lemma {:induction false} LoadableIff(d: ConfigData)
    ensures Sound(d) <==> exists w, parse :: Load(d.path, w, parse) == Some(d)
  {
    if Sound(d) {
      var w :| WellFormed(d, w);
      SoundIsLoaded(d, WithEmptyFile(w, d.path), _ => Some(d));
    }
    if w, parse :| Load(d.path, w, parse) == Some(d) {
      LoadedIsSound(d.path, w, parse);
    }
  }

  lemma SoundIsLoaded(d: ConfigData, w: World, parse: Parser)
    requires Normal(d) && WellFormed(d, w) && d.path in w.files && w.files[d.path] == "" && parse("") == Some(d)
    ensures Load(d.path, w, parse) == Some(d)
  {
    EmptyExpands(w);
    AcceptedIff(d, w);
  }

  lemma EmptyExpands(w: World)
    ensures Expanded("", w) == Ok("")
  {
    assert Factor(Env, "") == [] && Factor(File, "") == [];
  }

  ghost predicate KeepsPath(load: Loader) {
    forall path, w :: load(path, w).Some? ==> load(path, w).value.path == path
  }

  /**
   Whatever the file turns into between reloads, the active configuration is the one
   read by the last reload that could read one, or else the initial one.
   */
  lemma {:induction false} LastGoodLoadWins(d: ConfigData, worlds: seq<World>, load: Loader) returns (k: nat)
    requires d.path != "" && KeepsPath(load)
    ensures k <= |worlds|
    ensures forall j :: k <= j < |worlds| ==> load(d.path, worlds[j]).None?
    ensures if k == 0 then ReloadedAll(d, worlds, load) == d
            else load(d.path, worlds[k - 1]) == Some(ReloadedAll(d, worlds, load))
    ensures ReloadedAll(d, worlds, load).path == d.path
    decreases |worlds|
  {
    if |worlds| == 0 {
      k := 0;
    } else {
      var n := |worlds| - 1;
      k := LastGoodLoadWins(d, worlds[..n], load);
      if load(d.path, worlds[n]).Some? {
        k := |worlds|;
      }
    }
  }

  /** Starting from a loaded configuration, every run of reloads leaves a sound one active. */
  lemma {:induction false} AlwaysSound(path: string, first: World, worlds: seq<World>, parse: Parser)
    requires path != ""
    ensures Load(path, first, parse).Some? ==>
              Sound(ReloadedAll(Load(path, first, parse).value, worlds, LoaderOf(parse)))
  {
    if Load(path, first, parse).None? {
      return;
    }
    var d, load := Load(path, first, parse).value, LoaderOf(parse);
    LoadedIsSound(path, first, parse);
    forall p, w | load(p, w).Some?
      ensures load(p, w).value.path == p
    {
      LoadedIsSound(p, w, parse);
    }
    var k := LastGoodLoadWins(d, worlds, load);
    if k > 0 {
      assert load(path, worlds[k - 1]) == Load(path, worlds[k - 1], parse);
      LoadedIsSound(path, worlds[k - 1], parse);
    }
  }

  /** Every target of a sound configuration, spelt out. */
  lemma {:induction false} SoundTarget(d: ConfigData, i: nat)
    requires Sound(d) && i < |d.targets|
    ensures var t := d.targets[i];
            && t.name != "" && t.moduleName in d.modules
            && ':' in t.address && t.bolt.scheme in SCHEMES && t.bolt.database != ""
            && (t.bolt.auth == "none" ==> Host(t.address) in {"localhost", "127.0.0.1", "::1", ""})
    ensures forall j :: 0 <= j < |d.targets| && j != i ==> d.targets[j].name != d.targets[i].name
  {
    var w :| WellFormed(d, w);
    assert TargetOk(d.targets[i], d, w);
    assert Defaulted(d).targets[i] == DefaultedTarget(d.targets[i]);
    assert WithModules(d).targets[i].moduleName == ModuleOf(d.targets[i], d.global);
    assert ':' in d.targets[i].address by {
      PortIsWritten(d.targets[i].address);
    }
    assert d.targets[i].address != DEFAULT_LABEL by {
      assert ':' !in DEFAULT_LABEL;
    }
  }

  lemma PortIsWritten(address: string)
    ensures ':' in WithPort(address)
  {
    if ':' !in address {
      assert WithPort(address)[|address|] == ':';
    }
  }

  // ----- passwords -----

  /** For a listed target both password lookups can fail in one way only: the file cannot be read. */
  lemma {:induction false} ListedPasswords(d: ConfigData, i: nat, now: World)
    requires Sound(d) && i < |d.targets|
    ensures var b := d.targets[i].bolt;
            ResolveBoltPassword(b, now).Err? <==> b.auth != "none" && b.password == "" && b.passwordFile !in now.files
    ensures ResolveBoltPassword(d.targets[i].bolt, now).Err? ==>
              ResolveBoltPassword(d.targets[i].bolt, now) == Err(Unreadable(d.targets[i].bolt.passwordFile))
    ensures var j := d.targets[i].jolokia;
            j.Some? && ResolveJolokiaPassword(j.value.auth, now).Err? ==>
              j.value.auth.Some?
              && ResolveJolokiaPassword(j.value.auth, now) == Err(Unreadable(j.value.auth.value.passwordFile))
  {
    var w :| WellFormed(d, w);
    assert TargetOk(d.targets[i], d, w);
  }

  lemma {:induction false} DefaultTargetPassword(d: ConfigData, now: World)
    requires Sound(d) && d.defaultTarget.Some?
    ensures var b := d.defaultTarget.value.bolt;
            ResolveBoltPassword(b, now).Err? ==> ResolveBoltPassword(b, now) == Err(Unreadable(b.passwordFile))
  {
  }

  // ----- the defaults, by value -----

  /** What an absent setting becomes; durations are in nanoseconds. */
  lemma {:induction false} DefaultValues(d: ConfigData)
    ensures var g, h := d.global, Defaulted(d).global;
            && h.defaultModule == (if |g.defaultModule| > 0 then g.defaultModule else "default")
            && h.scrapeTimeout == (if g.scrapeTimeout != 0 then g.scrapeTimeout else 10_000_000_000)
            && h.collectConcurrency == (if g.collectConcurrency != 0 then g.collectConcurrency else 8)
            && h.driver.maxPoolSize == (if g.driver.maxPoolSize != 0 then g.driver.maxPoolSize else 4)
            && h.driver.maxLifetime == (if g.driver.maxLifetime != 0 then g.driver.maxLifetime else 3_600_000_000_000)
            && h.driver.acquisitionTimeout
            == (if g.driver.acquisitionTimeout != 0 then g.driver.acquisitionTimeout else 5_000_000_000)
    ensures forall name :: name in d.modules ==>
              name in Defaulted(d).modules
              && ModuleFilled(d.modules[name], Defaulted(d).modules[name], Defaulted(d).global.scrapeTimeout)
    ensures |Defaulted(d).targets| == |d.targets|
    ensures forall i :: 0 <= i < |d.targets| ==> TargetFilled(d.targets[i], Defaulted(d).targets[i])
  {
    forall i | 0 <= i < |d.targets|
      ensures TargetFilled(d.targets[i], Defaulted(d).targets[i])
    {
      TargetIsFilled(d.targets[i]);
    }
  }

  predicate ModuleFilled(m: Module, n: Module, scrapeTimeout: int) {
    && n.collectors == m.collectors && n.perCollectorTimeout == m.perCollectorTimeout
    && n.timeout == (if m.timeout != 0 then m.timeout else scrapeTimeout)
    && n.slowQuery.enabled == m.slowQuery.enabled && n.slowQuery.exposeQueryText == m.slowQuery.exposeQueryText
    && n.slowQuery.top == (if m.slowQuery.top != 0 then m.slowQuery.top else 10)
    && n.slowQuery.minSeconds == (if m.slowQuery.minSeconds != 0.0 then m.slowQuery.minSeconds else 5.0)
    && n.slowQuery.timeout == (if m.slowQuery.timeout != 0 then m.slowQuery.timeout else 5_000_000_000)
  }

  predicate TargetFilled(t: Target, u: Target) {
    && u.name == t.name && u.moduleName == t.moduleName && u.jolokia == t.jolokia
    && u.bolt.username == t.bolt.username && u.bolt.password == t.bolt.password
    && u.bolt.passwordFile == t.bolt.passwordFile && u.bolt.auth == t.bolt.auth
    && u.bolt.scheme == (if |t.bolt.scheme| > 0 then t.bolt.scheme else "neo4j")
    && u.bolt.database == (if |t.bolt.database| > 0 then t.bolt.database else "neo4j")
    && if exists i :: 0 <= i < |t.address| && t.address[i] == ':' then u.address == t.address
       else u.address == t.address + ":7687"
  }

  lemma TargetIsFilled(t: Target)
    ensures TargetFilled(t, DefaultedTarget(t))
  {
  }
}
