/** What a reload can do to the drivers of a configuration that another reload has put in place meanwhile. */
module ReloadOverlap {
  import opened Prelude
  import opened Schema
  import opened ConfigSpec
  import opened ConfigLaws
  import opened Lookup
  import opened SampleConfig
  import opened ServerProtocol
  import opened PoolSpec
  import DriverPool
  import P = PoolProtocol

  function Current(s: State): ConfigData
    requires s.configs != []
  {
    s.configs[|s.configs| - 1]
  }

  /** The locked part of this reconcile drops a live driver that the current configuration lists. */
  ghost predicate DropsCurrent(grace: int, s: State, t: P.Thread, order: seq<P.Key>, w: World)
    requires s.configs != [] && P.Enabled(s.pool, P.LockedReconcile(t, order))
  {
    exists key ::
      key in s.pool.entries && key in DriverPool.KeysOf(Current(s).targets, w)
      && key !in P.ReconcileStep(grace, s.pool, t, order).entries
  }

  /**
   In every interleaving a reconcile drops a driver of the current configuration exactly when
   a live key is listed there but not in the configuration the thread had read; so never when
   it had read the current one, its passwords being what they were.
   */
  lemma {:induction false} DropsCurrentIff(
      grace: int, parse: Parser, d: ConfigData, clock: int, run: seq<Action>, s: State,
      t: P.Thread, order: seq<P.Key>) returns (hashed: World)
    requires Sound(d) && Reaches(grace, LoaderOf(parse), Init(d, clock), run, s)
    requires P.Enabled(s.pool, P.LockedReconcile(t, order))
    ensures s.configs != [] && HasRead(s, t)
    ensures forall w :: DropsCurrent(grace, s, t, order, w) <==>
              exists key :: key in s.pool.entries && key in DriverPool.KeysOf(Current(s).targets, w)
                            && key !in DriverPool.KeysOf(s.configs[s.read[t]].targets, hashed)
    ensures s.read[t] == |s.configs| - 1 ==> !DropsCurrent(grace, s, t, order, hashed)
  {
    LiveKeysHaveAnOrigin(grace, parse, d, clock, run, s);
    assert PcTied(s.configs, s.read, t, P.PcOf(s.pool, t));
    hashed :| P.PcOf(s.pool, t).keep == DriverPool.KeysOf(s.configs[s.read[t]].targets, hashed);
    forall key | key in s.pool.entries
      ensures key !in P.ReconcileStep(grace, s.pool, t, order).entries <==>
              key !in DriverPool.KeysOf(s.configs[s.read[t]].targets, hashed)
    {
    }
  }

  // ----- a run in which it happens -----

  const NEWCOMER := Target("new", "h:1", "default", Bolt("bolt", "u", "p", "", "neo4j", ""), None)

  const OLD := Sample([], None)

  const NEW := Sample([NEWCOMER], None)

  const FILE := World(map[], map["config.yml" := ""], {})

  lemma NewIsLoaded(parse: Parser)
    requires parse("") == Some(NEW)
    ensures Load("config.yml", FILE, parse) == Some(NEW)
  {
    NewIsSound();
    SoundIsLoaded(NEW, FILE, parse);
  }

  lemma NewIsSound()
    ensures Normal(NEW) && WellFormed(NEW, FILE) && Sound(NEW)
  {
    assert "h:1"[1] == ':' && NEWCOMER.address[1] == ':';
    SampleIsWellFormed([NEWCOMER], None, FILE);
  }

  function NewKey(): P.Key {
    DriverPool.AuthHash(NEWCOMER, NO_FILES).value
  }

  lemma NewcomerIsProbed()
    ensures ProbeKey(NEW, "new", NO_FILES, NewKey())
  {
    NewIsSound();
    assert NEW.targets[0] == NEWCOMER;
    FoundByName(NEW, 0);
  }

  /** The first reload has read the old list and the clock. */
  lemma FirstReload(grace: int, load: Loader) returns (run: seq<Action>, s: State)
    ensures Reaches(grace, load, Init(OLD, 0), run, s)
    ensures s.configs == [OLD] && s.pool.entries == map[] && s.pool.made == {} && s.pool.stale == []
    ensures 0 in s.read && s.read[0] == 0
    ensures P.PcOf(s.pool, 0) == P.Timed({}, 0) && P.PcOf(s.pool, 1) == P.Idle
  {
    run, s := [], Init(OLD, 0);
    run, s := Do(grace, load, Init(OLD, 0), run, s, ReadConfig(0));
    run, s := Do(grace, load, Init(OLD, 0), run, s, PoolStep(P.HashTargets(0, {}), "", NO_FILES));
    run, s := Do(grace, load, Init(OLD, 0), run, s, PoolStep(P.ReadClock(0), "", NO_FILES));
  }

  /** The second one puts the new list in place, and its target is probed. */
  lemma ProbeOfNew(grace: int, load: Loader) returns (run: seq<Action>, s: State)
    requires load("config.yml", FILE) == Some(NEW)
    ensures Reaches(grace, load, Init(OLD, 0), run, s)
    ensures s.configs == [OLD, NEW] && s.pool.entries == map[NewKey() := 0]
    ensures 0 in s.read && s.read[0] == 0 && P.PcOf(s.pool, 0) == P.Timed({}, 0)
  {
    run, s := FirstReload(grace, load);
    run, s := Do(grace, load, Init(OLD, 0), run, s, Reload(FILE));
    assert s.configs == [OLD, NEW];
    run, s := Do(grace, load, Init(OLD, 0), run, s, ReadConfig(1));
    NewcomerIsProbed();
    run, s := Do(grace, load, Init(OLD, 0), run, s, PoolStep(P.HashForGet(1, NewKey()), "new", NO_FILES));
    run, s := Do(grace, load, Init(OLD, 0), run, s, PoolStep(P.LockedGet(1, 0), "", NO_FILES));
  }

  /** Two overlapping reloads: the older one's reconcile drops the driver of a target the newer one has added. */
  lemma {:induction false} OverlapDropsCurrent(grace: int, parse: Parser) returns (run: seq<Action>, s: State)
    requires parse("") == Some(NEW)
    ensures Sound(OLD) && Reaches(grace, LoaderOf(parse), Init(OLD, 0), run, s)
    ensures s.configs != [] && P.Enabled(s.pool, P.LockedReconcile(0, [NewKey()]))
    ensures DropsCurrent(grace, s, 0, [NewKey()], NO_FILES)
  {
    SampleIsSound([], None);
    NewIsLoaded(parse);
    run, s := ProbeOfNew(grace, LoaderOf(parse));
    assert Current(s).targets[0] == NEWCOMER;
    assert NewKey() in DriverPool.KeysOf(Current(s).targets, NO_FILES);
    assert NewKey() !in P.ReconcileStep(grace, s.pool, 0, [NewKey()]).entries;
  }
}
