/** The reload endpoint and the probe's way to a driver (`main.go`, `handler.go`): manager and pool together. */
module Server {
  import opened Prelude
  import opened Schema
  import opened ConnectionIdentity
  import opened PoolSpec
  import opened Capability
  import DriverPool
  import opened ConfigSpec
  import opened ConfigLaws
  import opened Lookup
  import Config

  datatype ProbeError = NoSuchTarget | NoSuchModule | NoDriver(reason: DriverPool.PoolError)

  class Server {
    const manager: Config.Manager
    const pool: DriverPool.Pool

    ghost predicate Valid()
      reads manager, manager.current, pool, pool.stale
    {
      && pool.Valid()
      && Sound(manager.current.Data())
      && manager.current.Data().path != ""
    }

    constructor (initial: Config.Config, grace: int)
      requires Sound(initial.Data()) && initial.path != ""
      ensures Valid() && fresh(manager) && fresh(pool) && fresh(pool.stale)
      ensures manager.current == initial && pool.entries == map[] && pool.grace == grace
    {
      manager := new Config.Manager(initial);
      pool := new DriverPool.Pool(grace);
    }

    /**
     Reload, then reconcile the pool with the targets now current. `loaded` and
     `hashed` are what the two steps see of the machine.
     */
    method HandleReload(loaded: World, hashed: World, now: int, parse: Parser)
      returns (r: Result<(), ConfigError>, ghost order: seq<string>)
      requires Valid()
      modifies manager, pool`entries, pool`stale, pool`staleLen, pool`closed, pool.stale
      ensures Valid()
      ensures manager.current.Data() == Reloaded(old(manager.current.Data()), loaded, LoaderOf(parse))
      ensures r.Ok? <==> Load(old(manager.current.path), loaded, parse).Some?
      ensures r.Err? ==> manager.current == old(manager.current)
      ensures r.Err? ==> pool.entries == old(pool.entries) && pool.stale == old(pool.stale)
                         && pool.StaleList() == old(pool.StaleList()) && pool.closed == old(pool.closed)
      ensures r.Ok? ==> pool.entries == Restrict(old(pool.entries), DriverPool.KeysOf(manager.current.targets, hashed))
      ensures r.Ok? ==> RangeOrder(old(pool.entries), DriverPool.KeysOf(manager.current.targets, hashed), order)
      ensures r.Ok? ==> pool.StaleList() ==
                        Retained(old(pool.StaleList()) + Retire(old(pool.entries), order, now + pool.grace), now)
      ensures r.Ok? ==> pool.closed ==
                        old(pool.closed)
                        + Due(old(pool.StaleList()) + Retire(old(pool.entries), order, now + pool.grace), now)
    {
      ghost var before := manager.current.Data();
      r := manager.Reload(loaded, parse);
      order := [];
      if r.Ok? {
        LoadedIsSound(before.path, loaded, parse);
        order := KeepListed(hashed, now);
      }
    }

    /** Reconcile the pool with the targets now current. */
    method KeepListed(hashed: World, now: int) returns (ghost order: seq<string>)
      requires Valid()
      modifies pool`entries, pool`stale, pool`staleLen, pool`closed, pool.stale
      ensures Valid()
      ensures RangeOrder(old(pool.entries), DriverPool.KeysOf(manager.current.targets, hashed), order)
      ensures pool.entries == Restrict(old(pool.entries), DriverPool.KeysOf(manager.current.targets, hashed))
      ensures pool.StaleList() ==
              Retained(old(pool.StaleList()) + Retire(old(pool.entries), order, now + pool.grace), now)
      ensures pool.closed ==
              old(pool.closed) + Due(old(pool.StaleList()) + Retire(old(pool.entries), order, now + pool.grace), now)
    {
      order := pool.Reconcile(manager.current.targets, hashed, now);
    }

    /** The first part of a probe: its target, and its module. */
    method Aim(query: string, moduleParam: string) returns (r: Result<Target, ProbeError>)
      requires Valid()
      ensures var d := manager.current.Data();
              && (r == Err(NoSuchTarget) <==> FindTarget(d, query).None?)
              && (r == Err(NoSuchModule) <==>
                  FindTarget(d, query).Some? && ModuleInForce(d, FindTarget(d, query).value, moduleParam) !in d.modules)
              && (r.Ok? ==> FindTarget(d, query) == Some(r.value))
              && (r.Err? ==> !r.error.NoDriver?)
    {
      var c := manager.current;
      var t := c.Find(query);
      if t.None? {
        return Err(NoSuchTarget);
      }
      var moduleName := moduleParam;
      if moduleName == "" {
        moduleName := t.value.moduleName;
      }
      if moduleName == "" {
        moduleName := c.global.defaultModule;
      }
      if moduleName !in c.modules {
        return Err(NoSuchModule);
      }
      return Ok(t.value);
    }

    /** What a probe does before its collectors start: find the target, its module, then its driver. */
    method HandleProbe(query: string, moduleParam: string, hashed: World, dialled: World, dialable: bool)
      returns (r: Result<Entry, ProbeError>)
      requires Valid()
      modifies pool`entries, pool`created
      ensures Valid()
      ensures r == Err(NoSuchTarget) <==> FindTarget(manager.current.Data(), query).None?
      ensures var d := manager.current.Data();
              r == Err(NoSuchModule) <==>
              FindTarget(d, query).Some? && ModuleInForce(d, FindTarget(d, query).value, moduleParam) !in d.modules
      ensures r.Ok? <==> Aimed(manager.current.Data(), query, moduleParam)
                         && Servable(FindTarget(manager.current.Data(), query).value,
                                     hashed, dialled, dialable, old(pool.entries))
      ensures r.Err? && r.error.NoDriver? ==>
                Aimed(manager.current.Data(), query, moduleParam)
                && r.error.reason == WhyNot(FindTarget(manager.current.Data(), query).value, hashed, dialled)
      ensures r.Ok? ==>
                var key := DriverPool.AuthHash(FindTarget(manager.current.Data(), query).value, hashed);
                && key.Ok? && key.value in pool.entries && pool.entries[key.value] == r.value
                && (key.value in old(pool.entries) ==> pool.entries == old(pool.entries))
                && (key.value !in old(pool.entries) ==> pool.entries == old(pool.entries)[key.value := r.value])
      ensures r.Err? ==> pool.entries == old(pool.entries)
    {
      var t := Aim(query, moduleParam);
      if t.Err? {
        return Err(t.error);
      }
      var e := pool.Get(t.value, hashed, dialled, dialable);
      if e.Err? {
        return Err(NoDriver(e.error));
      }
      return Ok(e.value);
    }
  }

  /** The module a probe runs: the one asked for, else the target's, else the default one. */
  function ModuleInForce(d: ConfigData, t: Target, moduleParam: string): string {
    if moduleParam != "" then moduleParam else if t.moduleName != "" then t.moduleName else d.global.defaultModule
  }

  predicate Aimed(d: ConfigData, query: string, moduleParam: string) {
    FindTarget(d, query).Some? && ModuleInForce(d, FindTarget(d, query).value, moduleParam) in d.modules
  }

  /** The pool has a driver for this target or can make one. */
  predicate Servable(t: Target, hashed: World, dialled: World, dialable: bool, entries: map<string, Entry>) {
    DriverPool.AuthHash(t, hashed).Ok?
    && (DriverPool.AuthHash(t, hashed).value in entries || (dialable && ResolveBoltPassword(t.bolt, dialled).Ok?))
  }

  /** Why there is no driver: the password at one of its two readings, or else the library. */
  function WhyNot(t: Target, hashed: World, dialled: World): DriverPool.PoolError {
    if ResolveBoltPassword(t.bolt, hashed).Err? then
      DriverPool.BadPassword(ResolveBoltPassword(t.bolt, hashed).error)
    else if ResolveBoltPassword(t.bolt, dialled).Err? then
      DriverPool.BadPassword(ResolveBoltPassword(t.bolt, dialled).error)
    else DriverPool.DialFailed
  }

  /** Under an active configuration nothing listed lacks its module, and only password files go missing. */
  lemma {:induction false} ProbeErrors(d: ConfigData, query: string, moduleParam: string, hashed: World, dialled: World)
    requires Sound(d) && FindTarget(d, query).Some?
    ensures moduleParam == "" && !Unlisted(d, query) ==> Aimed(d, query, moduleParam)
    ensures ModuleInForce(d, FindTarget(d, query).value, moduleParam)
         == if moduleParam == "" then FindTarget(d, query).value.moduleName else moduleParam
    ensures var why := WhyNot(FindTarget(d, query).value, hashed, dialled);
            why.DialFailed? || why.reason == Unreadable(FindTarget(d, query).value.bolt.passwordFile)
  {
    FoundIsComplete(d, query);
    FoundPassword(d, query, hashed);
    FoundPassword(d, query, dialled);
    if !Unlisted(d, query) {
      FoundListed(d, query);
    }
  }

  /** The separator does not occur in a target's fields, its password aside. */
  predicate Separable(t: Target) {
    DriverPool.NoSeparator(t.bolt, t.address)
  }

  /**
   A key survives a reload exactly when some listed target still has the identity it
   was made from, its password being read again at the reload.
   */
  lemma {:induction false} KeptIff(t: Target, probed: World, targets: seq<Target>, hashed: World)
    requires DriverPool.AuthHash(t, probed).Ok? && Separable(t)
    requires forall i :: 0 <= i < |targets| ==> Separable(targets[i])
    ensures DriverPool.AuthHash(t, probed).value in DriverPool.KeysOf(targets, hashed) <==>
            exists i :: 0 <= i < |targets| && DriverPool.AuthHash(targets[i], hashed).Ok?
                        && DriverPool.Credential(targets[i], hashed) == DriverPool.Credential(t, probed)
  {
    forall i | 0 <= i < |targets| && DriverPool.AuthHash(targets[i], hashed).Ok?
      ensures DriverPool.AuthHash(targets[i], hashed).value == DriverPool.AuthHash(t, probed).value <==>
              DriverPool.Credential(targets[i], hashed) == DriverPool.Credential(t, probed)
    {
      assert Separable(targets[i]);
      KeyDeterminesIdentity(DriverPool.Credential(targets[i], hashed), DriverPool.Credential(t, probed));
    }
  }

  /**
   A driver made through the default target is dropped by the next reload that
   succeeds, unless the new list has its address: the default target itself keeps nothing.
   */
  lemma {:induction false} DefaultTargetDriversDropped(
      d: ConfigData, query: string, probed: World, next: ConfigData, hashed: World)
    requires Unlisted(d, query) && d.defaultTarget.Some?
    requires DriverPool.AuthHash(FindTarget(d, query).value, probed).Ok? && Separable(FindTarget(d, query).value)
    requires forall i :: 0 <= i < |next.targets| ==> Separable(next.targets[i])
    ensures DriverPool.AuthHash(FindTarget(d, query).value, probed).value in DriverPool.KeysOf(next.targets, hashed) ==>
              IsAddress(next, WithPort(query))
  {
    LookupTotalIff(d, query);
    FoundFrom(d, query);
    KeptIff(FindTarget(d, query).value, probed, next.targets, hashed);
  }
}
