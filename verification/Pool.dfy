/** The driver pool (`pool.go`, `driver.go`), updated in place. */
module DriverPool {
  import opened Prelude
  import opened Schema
  import opened ConnectionIdentity
  import opened PoolSpec
  import opened Capability

  const THIRTY_SECONDS := 30_000_000_000

  datatype PoolError = BadPassword(reason: PasswordError) | DialFailed

  function IdentityOf(t: Target, password: string): Identity {
    Identity(t.bolt.scheme, t.address, t.bolt.username, password, t.bolt.auth)
  }

  /** `authHash`: the password is resolved at the moment of the call. */
  function AuthHash(t: Target, w: World): Result<string, PasswordError> {
    match ResolveBoltPassword(t.bolt, w)
    case Ok(password) => Ok(Preimage(IdentityOf(t, password)))
    case Err(e) => Err(e)
  }

  /** The keys of the targets whose password can be read; the others are passed over. */
  function KeysOf(targets: seq<Target>, w: World): set<string> {
    set i | 0 <= i < |targets| && AuthHash(targets[i], w).Ok? :: AuthHash(targets[i], w).value
  }

  /** `dialable` is the driver library's verdict on the address and settings. */
  method NewDriver(t: Target, w: World, dialable: bool) returns (r: Result<Driver, PoolError>)
    ensures r.Ok? <==> ResolveBoltPassword(t.bolt, w).Ok? && dialable
    ensures ResolveBoltPassword(t.bolt, w).Err? ==> r == Err(BadPassword(ResolveBoltPassword(t.bolt, w).error))
    ensures r.Err? && ResolveBoltPassword(t.bolt, w).Ok? ==> r.error == DialFailed
    ensures r.Ok? ==> fresh(r.value)
    ensures r.Ok? ==> r.value.uri == t.bolt.scheme + "://" + t.address
    ensures r.Ok? ==> r.value.credentials ==
                      if t.bolt.auth == "none" then None
                      else Some((t.bolt.username, ResolveBoltPassword(t.bolt, w).value))
  {
    var password := ResolveBoltPassword(t.bolt, w);
    if password.Err? {
      return Err(BadPassword(password.error));
    }
    if !dialable {
      return Err(DialFailed);
    }
    var d := new Driver(t.bolt.scheme + "://" + t.address,
                        if t.bolt.auth == "none" then None else Some((t.bolt.username, password.value)));
    return Ok(d);
  }

  /** An entry's driver goes to the entry's own server, as the entry's own user. */
  predicate Opened(e: Entry) {
    && e.driver.uri == e.bolt.scheme + "://" + e.address
    && if e.bolt.auth == "none" then e.driver.credentials == None
       else e.driver.credentials.Some? && e.driver.credentials.value.0 == e.bolt.username
  }

  /** With some password, this is the key of the entry's own connection. */
  ghost predicate KeyFits(key: string, e: Entry) {
    exists password ::
      key == Preimage(Identity(e.bolt.scheme, e.address, e.bolt.username, password, e.bolt.auth))
  }

  ghost predicate AllOpened(created: set<Entry>) {
    forall e {:trigger Opened(e)} :: e in created ==> Opened(e)
  }

  ghost predicate AllKeysFit(entries: map<string, Entry>) {
    forall key {:trigger KeyFits(key, entries[key])} :: key in entries ==> KeyFits(key, entries[key])
  }

  class Pool {
    var entries: map<string, Entry>
    /** The backing array of the stale slice; its first `staleLen` slots are in use. */
    var stale: array<Stale<Entry>>
    var staleLen: nat
    /** How long a dropped driver is kept open; set once, when the pool is made. */
    const grace: int
    /** Every entry this pool has made. */
    ghost var created: set<Entry>
    /** The entries whose driver has been closed, one element per call of `Close`. */
    ghost var closed: seq<Entry>

    ghost function StaleList(): seq<Stale<Entry>>
      reads this, stale
      requires staleLen <= stale.Length
    {
      stale[..staleLen]
    }

    /** No entry is lost and none is closed twice; each goes where its key says. */
    ghost predicate Valid()
      reads this, stale
    {
      && staleLen <= stale.Length
      && Accounted(entries, StaleList(), closed, created)
      && (forall e, e' :: e in created && e' in created && e != e' ==> e.driver != e'.driver)
      && AllOpened(created) && AllKeysFit(entries)
    }

    constructor (grace: int := THIRTY_SECONDS)
      ensures Valid() && fresh(stale)
      ensures entries == map[] && StaleList() == [] && created == {} && closed == [] && this.grace == grace
    {
      entries := map[];
      stale := new Stale<Entry>[0];
      staleLen := 0;
      this.grace := grace;
      created := {};
      closed := [];
    }

    /** `hashed` and `dialled` are the file system at the two moments the password is read. */
    method Get(t: Target, hashed: World, dialled: World, dialable: bool) returns (r: Result<Entry, PoolError>)
      requires Valid()
      modifies this`entries, this`created
      ensures Valid()
      ensures AuthHash(t, hashed).Err? ==> r == Err(BadPassword(AuthHash(t, hashed).error))
      ensures AuthHash(t, hashed).Ok? && AuthHash(t, hashed).value !in old(entries) && r.Err? ==>
                r.error == match ResolveBoltPassword(t.bolt, dialled)
                           case Err(reason) => BadPassword(reason)
                           case Ok(_) => DialFailed
      ensures r.Err? ==> entries == old(entries) && created == old(created)
      ensures r.Ok? ==> AuthHash(t, hashed).Ok? && AuthHash(t, hashed).value in entries
                        && entries[AuthHash(t, hashed).value] == r.value
      ensures r.Ok? && AuthHash(t, hashed).value in old(entries) ==>
                entries == old(entries) && created == old(created)
      ensures AuthHash(t, hashed).Ok? && AuthHash(t, hashed).value !in old(entries) ==>
                (r.Ok? <==> dialable && ResolveBoltPassword(t.bolt, dialled).Ok?)
      ensures r.Ok? && AuthHash(t, hashed).value !in old(entries) ==>
                && fresh(r.value) && fresh(r.value.driver) && r.value.caps == None
                && r.value.address == t.address && r.value.bolt == t.bolt
                && r.value.driver.uri == t.bolt.scheme + "://" + t.address
                && r.value.driver.credentials ==
                   (if t.bolt.auth == "none" then None
                    else Some((t.bolt.username, ResolveBoltPassword(t.bolt, dialled).value)))
                && entries == old(entries)[AuthHash(t, hashed).value := r.value]
                && created == old(created) + {r.value}
      ensures AuthHash(t, hashed).Ok? && AuthHash(t, hashed).value in old(entries) ==> r.Ok?
    {
      var key := AuthHash(t, hashed);
      if key.Err? {
        return Err(BadPassword(key.error));
      }
      if key.value in entries {
        return Ok(entries[key.value]);
      }
      var d := NewDriver(t, dialled, dialable);
      if d.Err? {
        return Err(d.error);
      }
      var e := new Entry(d.value, t.address, t.bolt);
      AccountedAfterGet(entries, StaleList(), closed, created, key.value, e);
      assert Opened(e);
      assert KeyFits(key.value, e) by {
        assert key.value == Preimage(IdentityOf(t, ResolveBoltPassword(t.bolt, hashed).value));
      }
      entries := entries[key.value := e];
      created := created + {e};
      return Ok(e);
    }

    /**
     `hashed` is the file system when the targets are hashed and `now` the clock
     read after that; both precede the lock.
     */
    method Reconcile(targets: seq<Target>, hashed: World, now: int) returns (ghost order: seq<string>)
      requires Valid()
      modifies this`entries, this`stale, this`staleLen, this`closed, stale
      ensures Valid()
      ensures RangeOrder(old(entries), KeysOf(targets, hashed), order)
      ensures entries == Restrict(old(entries), KeysOf(targets, hashed))
      ensures StaleList() == Retained(old(StaleList()) + Retire(old(entries), order, now + grace), now)
      ensures closed == old(closed) + Due(old(StaleList()) + Retire(old(entries), order, now + grace), now)
    {
      var keep := KeepSet(targets, hashed);
      order := ReconcileLocked(keep, now);
    }

    /** The part of `Reconcile` that runs under the lock. */
    method ReconcileLocked(keep: set<string>, now: int) returns (ghost order: seq<string>)
      requires Valid()
      modifies this`entries, this`stale, this`staleLen, this`closed, stale
      ensures Valid()
      ensures RangeOrder(old(entries), keep, order)
      ensures entries == Restrict(old(entries), keep)
      ensures StaleList() == Retained(old(StaleList()) + Retire(old(entries), order, now + grace), now)
      ensures closed == old(closed) + Due(old(StaleList()) + Retire(old(entries), order, now + grace), now)
    {
      order := RetireDropped(keep, now + grace);
      ghost var list := StaleList();
      Compact(now, list);
      assert list == old(StaleList()) + Retire(old(entries), order, now + grace);
      assert Accounted(entries, StaleList(), closed, created) by {
        AccountedAfterReconcile(old(entries), old(StaleList()), old(closed), created, keep, order, now + grace, now);
      }
    }

    /** Shutdown: the maps are swapped out under the lock, the drivers closed after it. */
    method CloseAll() returns (ghost order: seq<string>)
      requires Valid()
      modifies this`entries, this`stale, this`staleLen, this`closed
      ensures Valid()
      ensures entries == map[] && StaleList() == []
      ensures RangeOrder(old(entries), {}, order)
      ensures closed == old(closed) + Ids(Retire(old(entries), order, 0)) + Ids(old(StaleList()))
    {
      var live, slots, n := entries, stale, staleLen;
      ghost var list, shut := slots[..n], closed;
      entries := map[];
      stale := new Stale<Entry>[0];
      staleLen := 0;
      order := CloseEntries(live);
      CloseRecords(slots[..n]);
      AccountedAfterCloseAll(live, list, shut, created, order);
    }

    method CloseEntries(live: map<string, Entry>) returns (ghost order: seq<string>)
      modifies this`closed
      ensures RangeOrder(live, {}, order)
      ensures closed == old(closed) + Ids(Retire(live, order, 0))
    {
      order := [];
      var unvisited := live.Keys;
      while unvisited != {}
        invariant unvisited <= live.Keys
        invariant PartialOrder(live, {}, order, unvisited)
        invariant closed == old(closed) + Ids(Retire(live, order, 0))
        decreases unvisited
      {
        var k :| k in unvisited;
        unvisited := unvisited - {k};
        Close(live[k]);
        assert Ids(Retire(live, order + [k], 0)) == Ids(Retire(live, order, 0)) + [live[k]];
        order := order + [k];
      }
    }

    method CloseRecords(list: seq<Stale<Entry>>)
      modifies this`closed
      ensures closed == old(closed) + Ids(list)
    {
      for i := 0 to |list|
        invariant closed == old(closed) + Ids(list[..i])
      {
        Close(list[i].entry);
        assert Ids(list[..i + 1]) == Ids(list[..i]) + [list[i].entry];
      }
      assert list[..|list|] == list;
    }

    /** `Driver.Close`: the call is recorded; its error is ignored. */
    method Close(e: Entry)
      modifies this`closed
      ensures closed == old(closed) + [e]
    {
      closed := closed + [e];
    }

    /** `append(p.stale, s)`: a full backing array is replaced by a larger copy. */
    method Append(s: Stale<Entry>)
      requires staleLen <= stale.Length
      modifies this`stale, this`staleLen, stale
      ensures staleLen <= stale.Length
      ensures StaleList() == old(StaleList()) + [s]
      ensures stale == old(stale) || fresh(stale)
    {
      if staleLen == stale.Length {
        var full := stale;
        var grown := new Stale<Entry>[2 * full.Length + 1](
          i requires 0 <= i reads full => if i < full.Length then full[i] else s);
        stale := grown;
      }
      stale[staleLen] := s;
      staleLen := staleLen + 1;
    }

    /** The first loop under the lock: range over the map, deleting as it goes. */
    method RetireDropped(keep: set<string>, deadline: int) returns (ghost order: seq<string>)
      requires staleLen <= stale.Length
      modifies this`entries, this`stale, this`staleLen, stale
      ensures staleLen <= stale.Length
      ensures stale == old(stale) || fresh(stale)
      ensures RangeOrder(old(entries), keep, order)
      ensures entries == Restrict(old(entries), keep)
      ensures StaleList() == old(StaleList()) + Retire(old(entries), order, deadline)
    {
      order := [];
      var unvisited := entries.Keys;
      while unvisited != {}
        invariant staleLen <= stale.Length
        invariant stale == old(stale) || fresh(stale)
        invariant unvisited <= old(entries).Keys
        invariant PartialOrder(old(entries), keep, order, unvisited)
        invariant entries == map k | k in old(entries) && (k in unvisited || k in keep) :: old(entries)[k]
        invariant StaleList() == old(StaleList()) + Retire(old(entries), order, deadline)
        decreases unvisited
      {
        var k :| k in unvisited;
        unvisited := unvisited - {k};
        if k !in keep {
          Append(Stale(entries[k], deadline));
          entries := entries - {k};
          assert Retire(old(entries), order + [k], deadline)
              == Retire(old(entries), order, deadline) + [Stale(old(entries)[k], deadline)];
          order := order + [k];
        }
      }
    }

    /**
     The second loop under the lock: filter the stale slice over its own backing
     array, closing what is overdue. The write position never passes the read position.
     */
    method Compact(now: int, ghost list: seq<Stale<Entry>>)
      requires staleLen <= stale.Length && StaleList() == list
      modifies this`staleLen, this`closed, stale
      ensures staleLen <= stale.Length
      ensures StaleList() == Retained(list, now)
      ensures closed == old(closed) + Due(list, now)
    {
      ghost var survivors: seq<Stale<Entry>> := [];
      var slots, n, kept := stale, staleLen, 0;
      for i := 0 to n
        invariant |survivors| == kept <= i
        invariant survivors == RetainedTo(list, i, now)
        invariant closed == old(closed) + DueTo(list, i, now)
        invariant forall p :: 0 <= p < kept ==> slots[p] == survivors[p]
        invariant forall p :: i <= p < n ==> slots[p] == list[p]
      {
        var s := slots[i];
        survivors := RetainedTo(list, i + 1, now);
        if now > s.deadline {
          Close(s.entry);
        } else {
          slots[kept] := s;
          kept := kept + 1;
        }
      }
      staleLen := kept;
    }
  }

  method KeepSet(targets: seq<Target>, w: World) returns (keep: set<string>)
    ensures keep == KeysOf(targets, w)
  {
    keep := {};
    for i := 0 to |targets|
      invariant keep == KeysOf(targets[..i], w)
    {
      assert targets[..i + 1] == targets[..i] + [targets[i]];
      var key := AuthHash(targets[i], w);
      if key.Ok? {
        keep := keep + {key.value};
      }
    }
    assert targets[..|targets|] == targets;
  }

  /** The password a target resolves to, when it can be read. */
  function Credential(t: Target, w: World): Identity
    requires AuthHash(t, w).Ok?
  {
    IdentityOf(t, ResolveBoltPassword(t.bolt, w).value)
  }

  /** The separator occurs in none of these, the parts of an identity besides its password. */
  predicate NoSeparator(b: Bolt, address: string) {
    PipeFree(b.scheme) && PipeFree(address) && PipeFree(b.username) && PipeFree(b.auth)
  }

  /**
   Whatever entry the pool holds for a target, made now or long ago, was opened for the target's
   own scheme, address, user and authentication, if no separator occurs outside passwords.
   */
  lemma {:induction false} HeldEntryIsForTarget(p: Pool, t: Target, hashed: World, e: Entry)
    requires p.Valid() && AuthHash(t, hashed).Ok? && AuthHash(t, hashed).value in p.entries
    requires p.entries[AuthHash(t, hashed).value] == e
    requires NoSeparator(t.bolt, t.address) && NoSeparator(e.bolt, e.address)
    ensures e.driver.uri == t.bolt.scheme + "://" + t.address
    ensures e.driver.credentials.None? <==> t.bolt.auth == "none"
    ensures t.bolt.auth != "none" ==> e.driver.credentials.value.0 == t.bolt.username
    ensures e.bolt.scheme == t.bolt.scheme && e.address == t.address
    ensures e.bolt.username == t.bolt.username && e.bolt.auth == t.bolt.auth
  {
    var key := AuthHash(t, hashed).value;
    assert KeyFits(key, e);
    var password :| key == Preimage(Identity(e.bolt.scheme, e.address, e.bolt.username, password, e.bolt.auth));
    var made := Identity(e.bolt.scheme, e.address, e.bolt.username, password, e.bolt.auth);
    KeyDeterminesIdentity(made, Credential(t, hashed));
    assert e in p.created && Opened(e);
  }
}
