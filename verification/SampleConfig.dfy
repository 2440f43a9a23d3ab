/** Small configurations that can really be loaded, to stand as concrete inputs. */
module SampleConfig {
  import opened Prelude
  import opened Schema
  import opened ConfigSpec
  import opened ConfigLaws

  const NO_FILES := World(map[], map[], {})

  const DEFAULTS :=
    Global("default", 10 * SECOND, 8, DriverConfig(4, 3600 * SECOND, 5 * SECOND))

  const MODULE :=
    Module(10 * SECOND, map[], SlowQuery(false, 5.0, 10, false, 5 * SECOND), map[])

  /** One module, these targets, and a default target or none. */
  function Sample(targets: seq<Target>, defaultTarget: Option<Target>): ConfigData {
    ConfigData(DEFAULTS, map["default" := MODULE], targets, defaultTarget, "config.yml")
  }

  predicate Complete(t: Target) {
    ':' in t.address && t.bolt.scheme in SCHEMES && t.bolt.scheme != "" && t.bolt.database != ""
  }

  /** A target the sample configuration may list: a name, a port, a user and a password. */
  predicate Listable(t: Target) {
    && Complete(t) && t.name != "" && t.moduleName == "default" && t.jolokia.None?
    && t.bolt.auth != "none" && t.bolt.username != "" && t.bolt.password != "" && t.bolt.passwordFile == ""
  }

  lemma CompleteIsDefaulted(t: Target)
    requires Complete(t)
    ensures DefaultedTarget(t) == t
  {
  }

  lemma SampleIsNormal(targets: seq<Target>, defaultTarget: Option<Target>)
    requires forall i :: 0 <= i < |targets| ==> Complete(targets[i]) && targets[i].moduleName == "default"
    requires defaultTarget.Some? ==> Complete(defaultTarget.value)
    ensures Normal(Sample(targets, defaultTarget))
  {
    var d := Sample(targets, defaultTarget);
    assert Defaulted(d).modules == d.modules;
    assert Defaulted(d).targets == d.targets;
    assert WithModules(d).targets == d.targets;
  }

  lemma SampleIsWellFormed(targets: seq<Target>, defaultTarget: Option<Target>, w: World)
    requires NamesDistinct(targets) && forall i :: 0 <= i < |targets| ==> Listable(targets[i])
    requires defaultTarget.Some? ==> Complete(defaultTarget.value) && BoltOk(true, defaultTarget.value.bolt, w)
    ensures Normal(Sample(targets, defaultTarget)) && WellFormed(Sample(targets, defaultTarget), w)
  {
    var d := Sample(targets, defaultTarget);
    SampleIsNormal(targets, defaultTarget);
    forall i | 0 <= i < |targets|
      ensures TargetOk(targets[i], d, w)
    {
      assert Listable(targets[i]);
    }
    assert CollectorsKnown(d.modules);
  }

  lemma SampleIsSound(targets: seq<Target>, defaultTarget: Option<Target>)
    requires NamesDistinct(targets) && forall i :: 0 <= i < |targets| ==> Listable(targets[i])
    requires defaultTarget.Some? ==> Complete(defaultTarget.value) && BoltOk(true, defaultTarget.value.bolt, NO_FILES)
    ensures Sound(Sample(targets, defaultTarget))
  {
    SampleIsWellFormed(targets, defaultTarget, NO_FILES);
  }
}
