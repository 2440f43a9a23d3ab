/**
 Manager and pool together under concurrent use: reloads from the endpoint and from the
 signal, and probes. Each of them reads the active configuration once and works with what it read.
 */
module ServerProtocol {
  import opened Prelude
  import opened Schema
  import opened ConfigSpec
  import opened ConfigLaws
  import opened PoolSharing
  import opened PoolSpec
  import DriverPool
  import P = PoolProtocol

  datatype State = State(
    configs: seq<ConfigData>,      // every configuration that has been active, the last one is
    read: map<P.Thread, nat>,      // which of them a thread read, before it turned to the pool
    pool: P.State)

  datatype Action =
    | Reload(w: World)                              // under the manager's lock
    | ReadConfig(t: P.Thread)
    | PoolStep(a: P.Action, query: string, w: World)  // a step of the pool; query and files if it hashes

  function Init(d: ConfigData, clock: int): State {
    State([d], map[], P.Init(clock))
  }

  /** `key` is what a probe of `query` hashes under configuration `d`. */
  predicate ProbeKey(d: ConfigData, query: string, w: World, key: P.Key) {
    FindTarget(d, query).Some? && DriverPool.AuthHash(FindTarget(d, query).value, w) == Ok(key)
  }

  predicate HasRead(s: State, t: P.Thread) {
    t in s.read && s.read[t] < |s.configs|
  }

  ghost predicate Enabled(s: State, a: Action) {
    match a
    case Reload(_) => s.configs != []
    case ReadConfig(t) => s.configs != [] && P.PcOf(s.pool, t) == P.Idle
    case PoolStep(a, query, w) =>
      && P.Enabled(s.pool, a)
      && (a.HashForGet? ==> HasRead(s, a.t) && ProbeKey(s.configs[s.read[a.t]], query, w, a.key))
      && (a.HashTargets? ==> HasRead(s, a.t) && a.keep == DriverPool.KeysOf(s.configs[s.read[a.t]].targets, w))
  }

  ghost function Apply(grace: int, load: Loader, s: State, a: Action): State
    requires Enabled(s, a)
  {
    match a
    case Reload(w) => s.(configs := s.configs + [Reloaded(s.configs[|s.configs| - 1], w, load)])
    case ReadConfig(t) => s.(read := s.read[t := |s.configs| - 1])
    case PoolStep(a, _, _) => s.(pool := P.Apply(grace, s.pool, a))
  }

  ghost predicate Reaches(grace: int, load: Loader, s: State, run: seq<Action>, u: State)
    decreases |run|
  {
    if run == [] then s == u
    else Enabled(s, run[0]) && Reaches(grace, load, Apply(grace, load, s, run[0]), run[1..], u)
  }

  lemma {:induction false} OneMoreStep(grace: int, load: Loader, s: State, run: seq<Action>, s': State, a: Action)
    requires Reaches(grace, load, s, run, s') && Enabled(s', a)
    ensures Reaches(grace, load, s, run + [a], Apply(grace, load, s', a))
    decreases |run|
  {
    if run == [] {
      assert [a][1..] == [];
    } else {
      OneMoreStep(grace, load, Apply(grace, load, s, run[0]), run[1..], s', a);
      assert (run + [a])[1..] == run[1..] + [a];
    }
  }

  lemma Do(grace: int, load: Loader, start: State, run: seq<Action>, s: State, a: Action)
    returns (run': seq<Action>, s': State)
    requires Reaches(grace, load, start, run, s) && Enabled(s, a)
    ensures Reaches(grace, load, start, run', s') && s' == Apply(grace, load, s, a)
  {
    OneMoreStep(grace, load, start, run, s, a);
    run', s' := run + [a], Apply(grace, load, s, a);
  }

  // ----- the pool's part of a run -----

  function PoolRun(run: seq<Action>): seq<P.Action> {
    if run == [] then []
    else (if run[0].PoolStep? then [run[0].a] else []) + PoolRun(run[1..])
  }

  /** Seen from the pool, a run of the server is a run of the pool: everything proved of those holds here. */
  lemma {:induction false} PoolReaches(grace: int, load: Loader, s: State, run: seq<Action>, u: State)
    requires Reaches(grace, load, s, run, u)
    ensures P.Reaches(grace, s.pool, PoolRun(run), u.pool)
    decreases |run|
  {
    if run != [] {
      PoolReaches(grace, load, Apply(grace, load, s, run[0]), run[1..], u);
      if run[0].PoolStep? {
        var rest := PoolRun(run[1..]);
        assert ([run[0].a] + rest)[1..] == rest;
      } else {
        assert PoolRun(run) == PoolRun(run[1..]);
      }
    }
  }

  // ----- where keys come from -----

  /** The key of a probe under some configuration that has been active. */
  ghost predicate FromProbe(configs: seq<ConfigData>, key: P.Key) {
    exists k, query, w :: 0 <= k < |configs| && ProbeKey(configs[k], query, w, key)
  }

  /** The keys of the targets of the very configuration this thread read. */
  ghost predicate FromOwnRead(configs: seq<ConfigData>, read: map<P.Thread, nat>, t: P.Thread, keep: set<P.Key>) {
    t in read && read[t] < |configs| && exists w :: keep == DriverPool.KeysOf(configs[read[t]].targets, w)
  }

  ghost predicate PcTied(configs: seq<ConfigData>, read: map<P.Thread, nat>, t: P.Thread, pc: P.Pc) {
    match pc
    case Keyed(key) => FromProbe(configs, key)
    case Hashed(keep) => FromOwnRead(configs, read, t, keep)
    case Timed(keep, _) => FromOwnRead(configs, read, t, keep)
    case _ => true
  }

  ghost predicate Tied(s: State) {
    && s.configs != []
    && (forall k :: 0 <= k < |s.configs| ==> Sound(s.configs[k]))
    && (forall t :: PcTied(s.configs, s.read, t, P.PcOf(s.pool, t)))
    && (forall key :: key in s.pool.entries ==> FromProbe(s.configs, key))
  }

  ghost predicate LoadsSound(load: Loader) {
    forall path, w :: load(path, w).Some? ==> Sound(load(path, w).value)
  }

  lemma MoreConfigs(configs: seq<ConfigData>, d: ConfigData, read: map<P.Thread, nat>, t: P.Thread, pc: P.Pc)
    requires PcTied(configs, read, t, pc)
    ensures PcTied(configs + [d], read, t, pc)
  {
    match pc
    case Keyed(key) => ProbeStays(configs, d, key);
    case Hashed(keep) => assert (configs + [d])[read[t]] == configs[read[t]];
    case Timed(keep, _) => assert (configs + [d])[read[t]] == configs[read[t]];
    case _ =>
  }

  lemma ProbeStays(configs: seq<ConfigData>, d: ConfigData, key: P.Key)
    requires FromProbe(configs, key)
    ensures FromProbe(configs + [d], key)
  {
    var k, query, w :| 0 <= k < |configs| && ProbeKey(configs[k], query, w, key);
    assert ProbeKey((configs + [d])[k], query, w, key);
  }

  /** What a pool step puts at the thread that takes it. */
  lemma OwnPcTied(grace: int, s: State, a: P.Action, query: string, w: World)
    requires Tied(s) && Enabled(s, PoolStep(a, query, w)) && !a.Tick?
    ensures PcTied(s.configs, s.read, a.t, P.PcOf(P.Apply(grace, s.pool, a), a.t))
  {
    assert PcTied(s.configs, s.read, a.t, P.PcOf(s.pool, a.t));
    if a.HashForGet? {
      assert ProbeKey(s.configs[s.read[a.t]], query, w, a.key);
    } else if a.HashTargets? {
      assert a.keep == DriverPool.KeysOf(s.configs[s.read[a.t]].targets, w);
    }
  }

  lemma OtherPcs(grace: int, s: P.State, a: P.Action, u: P.Thread)
    requires P.Enabled(s, a) && (a.Tick? || a.t != u)
    ensures P.PcOf(P.Apply(grace, s, a), u) == P.PcOf(s, u)
  {
  }

  /** A step adds a key only for a probe that had hashed it. */
  lemma NewKeys(grace: int, s: P.State, a: P.Action, key: P.Key)
    requires P.Enabled(s, a) && key in P.Apply(grace, s, a).entries && key !in s.entries
    ensures a.LockedGet? && P.PcOf(s, a.t) == P.Keyed(key)
  {
  }

  lemma PoolStepTied(grace: int, s: State, a: P.Action, query: string, w: World)
    requires Tied(s) && Enabled(s, PoolStep(a, query, w))
    ensures Tied(s.(pool := P.Apply(grace, s.pool, a)))
  {
    var pool := P.Apply(grace, s.pool, a);
    forall t
      ensures PcTied(s.configs, s.read, t, P.PcOf(pool, t))
    {
      if a.Tick? || a.t != t {
        OtherPcs(grace, s.pool, a, t);
      } else {
        OwnPcTied(grace, s, a, query, w);
      }
    }
    forall key | key in pool.entries
      ensures FromProbe(s.configs, key)
    {
      if key !in s.pool.entries {
        NewKeys(grace, s.pool, a, key);
        assert PcTied(s.configs, s.read, a.t, P.PcOf(s.pool, a.t));
      }
    }
  }

  lemma ReloadTied(s: State, d: ConfigData)
    requires Tied(s) && Sound(d)
    ensures Tied(s.(configs := s.configs + [d]))
  {
    forall t
      ensures PcTied(s.configs + [d], s.read, t, P.PcOf(s.pool, t))
    {
      MoreConfigs(s.configs, d, s.read, t, P.PcOf(s.pool, t));
    }
    forall key | key in s.pool.entries
      ensures FromProbe(s.configs + [d], key)
    {
      ProbeStays(s.configs, d, key);
    }
  }

  lemma ReadTied(s: State, t: P.Thread, k: nat)
    requires Tied(s) && P.PcOf(s.pool, t) == P.Idle
    ensures Tied(s.(read := s.read[t := k]))
  {
    forall u
      ensures PcTied(s.configs, s.read[t := k], u, P.PcOf(s.pool, u))
    {
      assert PcTied(s.configs, s.read, u, P.PcOf(s.pool, u));
    }
  }

  lemma LatestIsSound(load: Loader, configs: seq<ConfigData>, w: World)
    requires configs != [] && (forall k :: 0 <= k < |configs| ==> Sound(configs[k])) && LoadsSound(load)
    ensures Sound(Reloaded(configs[|configs| - 1], w, load))
  {
    assert Sound(configs[|configs| - 1]);
  }

  lemma TiedKept(grace: int, load: Loader, s: State, a: Action)
    requires Tied(s) && LoadsSound(load) && Enabled(s, a)
    ensures Tied(Apply(grace, load, s, a))
  {
    match a
    case Reload(w) =>
      LatestIsSound(load, s.configs, w);
      ReloadTied(s, Reloaded(s.configs[|s.configs| - 1], w, load));
    case ReadConfig(t) => ReadTied(s, t, |s.configs| - 1);
    case PoolStep(b, query, w) => PoolStepTied(grace, s, b, query, w);
  }

  lemma ConfigsGrow(grace: int, load: Loader, s: State, a: Action)
    requires Enabled(s, a)
    ensures s.configs <= Apply(grace, load, s, a).configs
  {
  }

  lemma {:induction false} TiedAlways(grace: int, load: Loader, s: State, run: seq<Action>, u: State)
    requires Tied(s) && LoadsSound(load) && Reaches(grace, load, s, run, u)
    ensures Tied(u) && s.configs <= u.configs
    decreases |run|
  {
    if run != [] {
      TiedKept(grace, load, s, run[0]);
      ConfigsGrow(grace, load, s, run[0]);
      TiedAlways(grace, load, Apply(grace, load, s, run[0]), run[1..], u);
    }
  }

  /**
   In every interleaving of reloads and probes, each live key is what some probe hashes under a
   well-formed configuration that has been active, and every driver is at exactly one place.
   */
  lemma {:induction false} LiveKeysHaveAnOrigin(
      grace: int, parse: Parser, d: ConfigData, clock: int, run: seq<Action>, s: State)
    requires Sound(d) && Reaches(grace, LoaderOf(parse), Init(d, clock), run, s)
    ensures forall key :: key in s.pool.entries ==> FromProbe(s.configs, key)
    ensures forall k :: 0 <= k < |s.configs| ==> Sound(s.configs[k])
    ensures Tied(s) && P.Custody(s.pool)
  {
    LoaderIsSound(parse);
    TiedAlways(grace, LoaderOf(parse), Init(d, clock), run, s);
    PoolReaches(grace, LoaderOf(parse), Init(d, clock), run, s);
    P.CustodyAlways(grace, P.Init(clock), PoolRun(run), s.pool);
  }

  lemma LoaderIsSound(parse: Parser)
    ensures LoadsSound(LoaderOf(parse))
  {
    forall path, w | LoaderOf(parse)(path, w).Some?
      ensures Sound(LoaderOf(parse)(path, w).value)
    {
      LoadedIsSound(path, w, parse);
    }
  }

  /** Thread `t` read a well-formed configuration that lists a target with this key. */
  ghost predicate ListedInRead(s: State, t: P.Thread, key: P.Key) {
    HasRead(s, t) && Sound(s.configs[s.read[t]])
    && exists i, w :: 0 <= i < |s.configs[s.read[t]].targets|
                      && DriverPool.AuthHash(s.configs[s.read[t]].targets[i], w) == Ok(key)
  }

  /**
   A driver that outlives a reconcile, in whatever interleaving, was kept by it on purpose: its
   key is that of a target listed in the configuration which the reconciling thread had read.
   */
  lemma {:induction false} SurvivorsAreListed(
      grace: int, parse: Parser, d: ConfigData, clock: int, before: seq<Action>, s: State,
      t: P.Thread, order: seq<P.Key>, after: seq<Action>, u: State, key: P.Key)
    requires Sound(d) && Reaches(grace, LoaderOf(parse), Init(d, clock), before, s)
    requires P.Enabled(s.pool, P.LockedReconcile(t, order))
    requires Reaches(grace, LoaderOf(parse), s.(pool := P.ReconcileStep(grace, s.pool, t, order)), after, u)
    requires key in u.pool.entries && u.pool.entries[key] in s.pool.made
    ensures key in P.PcOf(s.pool, t).keep && ListedInRead(s, t, key)
  {
    LiveKeysHaveAnOrigin(grace, parse, d, clock, before, s);
    SurvivorsOf(grace, LoaderOf(parse), s, t, order, after, u, key);
  }

  lemma SurvivorsOf(
      grace: int, load: Loader, s: State, t: P.Thread, order: seq<P.Key>, after: seq<Action>, u: State, key: P.Key)
    requires key in u.pool.entries && u.pool.entries[key] in s.pool.made
    requires P.Enabled(s.pool, P.LockedReconcile(t, order))
    requires Reaches(grace, load, s.(pool := P.ReconcileStep(grace, s.pool, t, order)), after, u)
    requires P.Custody(s.pool) && Tied(s)
    ensures key in P.PcOf(s.pool, t).keep && ListedInRead(s, t, key)
  {
    PoolReaches(grace, load, s.(pool := P.ReconcileStep(grace, s.pool, t, order)), after, u);
    LiveKeysWereKept(grace, s.pool, t, order, PoolRun(after), u.pool, key);
    KeptIsListed(s, t, key);
  }

  lemma KeptIsListed(s: State, t: P.Thread, key: P.Key)
    requires Tied(s) && P.PcOf(s.pool, t).Timed? && key in P.PcOf(s.pool, t).keep
    ensures ListedInRead(s, t, key)
  {
    assert PcTied(s.configs, s.read, t, P.PcOf(s.pool, t));
    var targets := s.configs[s.read[t]].targets;
    var w :| P.PcOf(s.pool, t).keep == DriverPool.KeysOf(targets, w);
    var i :| 0 <= i < |targets| && DriverPool.AuthHash(targets[i], w).Ok?
             && DriverPool.AuthHash(targets[i], w).value == key;
    assert DriverPool.AuthHash(s.configs[s.read[t]].targets[i], w) == Ok(key);
  }
}
