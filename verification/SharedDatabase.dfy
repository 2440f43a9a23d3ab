/**
 Which database a probe reads. An entry queries the database of the target it was made
 for (`query.go`), while a collector labels the rows with the probed target's (`indexes.go`).
 */
module SharedDatabase {
  import opened Prelude
  import opened Schema
  import opened PoolSpec
  import opened Capability
  import opened DriverPool

  /** A lookup, with what its two password reads find and whether the library accepts the driver. */
  datatype Request = Request(target: Target, hashed: World, dialled: World, dialable: bool)

  function KeyOf(q: Request): Result<string, PasswordError> {
    AuthHash(q.target, q.hashed)
  }

  /** The database a query without one runs against; the label is chosen the same way. */
  function DatabaseOf(b: Bolt): string {
    if b.database == "" then "neo4j" else b.database
  }

  predicate CanMake(q: Request, key: string) {
    KeyOf(q) == Ok(key) && q.dialable && ResolveBoltPassword(q.target.bolt, q.dialled).Ok?
  }

  /** The first of `n` requests that can make an entry for this key. */
  function Maker(requests: seq<Request>, n: nat, key: string): (m: Option<nat>)
    requires n <= |requests|
    ensures m.Some? ==> m.value < n
  {
    if n == 0 then None
    else if Maker(requests, n - 1, key).Some? then Maker(requests, n - 1, key)
    else if CanMake(requests[n - 1], key) then Some(n - 1)
    else None
  }

  lemma {:induction false} MakerIsFirst(requests: seq<Request>, n: nat, key: string)
    requires n <= |requests|
    ensures Maker(requests, n, key).None? <==> forall i :: 0 <= i < n ==> !CanMake(requests[i], key)
    ensures var m := Maker(requests, n, key);
            m.Some? ==> CanMake(requests[m.value], key) && forall i :: 0 <= i < m.value ==> !CanMake(requests[i], key)
  {
    if n > 0 {
      MakerIsFirst(requests, n - 1, key);
    }
  }

  lemma {:induction false} MakerStays(requests: seq<Request>, i: nat, n: nat, key: string)
    requires i <= n <= |requests| && Maker(requests, i, key).Some?
    ensures Maker(requests, n, key) == Maker(requests, i, key)
  {
    if i < n {
      MakerStays(requests, i, n - 1, key);
    }
  }

  /** The settings of the entry that request `j` is given. */
  ghost predicate SettingsOfMaker(requests: seq<Request>, j: nat, r: Result<Entry, PoolError>)
    requires j < |requests|
  {
    r.Ok? ==>
      && KeyOf(requests[j]).Ok?
      && var m := Maker(requests, j + 1, KeyOf(requests[j]).value);
         m.Some? && r.value.bolt == requests[m.value].target.bolt
  }

  ghost predicate AllOfMakers(requests: seq<Request>, results: seq<Result<Entry, PoolError>>) {
    |results| <= |requests| && forall j :: 0 <= j < |results| ==> SettingsOfMaker(requests, j, results[j])
  }

  ghost predicate HeldByMakers(entries: map<string, Entry>, requests: seq<Request>, n: nat)
    requires n <= |requests|
  {
    forall key ::
      (key in entries <==> Maker(requests, n, key).Some?)
      && (key in entries ==> entries[key].bolt == requests[Maker(requests, n, key).value].target.bolt)
  }

  /** The entries returned are the ones held under the keys they were asked for. */
  ghost predicate AllHeld(entries: map<string, Entry>, requests: seq<Request>, results: seq<Result<Entry, PoolError>>) {
    |results| <= |requests|
    && forall j :: 0 <= j < |results| && results[j].Ok? ==> HeldFor(entries, requests[j], results[j].value)
  }

  predicate HeldFor(entries: map<string, Entry>, q: Request, e: Entry) {
    KeyOf(q).Ok? && KeyOf(q).value in entries && entries[KeyOf(q).value] == e
  }

  /** No entry is held under two keys, so what two lookups return is the same exactly when their keys are. */
  lemma SameEntryIffSameKey(p: Pool, q: Request, e: Entry, q': Request, e': Entry)
    requires p.Valid() && HeldFor(p.entries, q, e) && HeldFor(p.entries, q', e')
    ensures e == e' <==> KeyOf(q) == KeyOf(q')
  {
  }

  /**
   Any number of lookups on an empty pool: two of them return the same entry exactly when
   their keys are equal, and each entry has the settings of the first request that could make it.
   */
  method Serve(p: Pool, requests: seq<Request>) returns (results: seq<Result<Entry, PoolError>>)
    requires p.Valid() && p.entries == map[]
    modifies p`entries, p`created
    ensures p.Valid() && |results| == |requests| && HeldByMakers(p.entries, requests, |requests|)
    ensures AllOfMakers(requests, results) && AllHeld(p.entries, requests, results)
    ensures forall i, j :: 0 <= i < |results| && 0 <= j < |results| && results[i].Ok? && results[j].Ok? ==>
              (results[i] == results[j] <==> KeyOf(requests[i]) == KeyOf(requests[j]))
  {
    results := [];
    for i := 0 to |requests|
      invariant p.Valid() && HeldByMakers(p.entries, requests, i)
      invariant |results| == i && AllOfMakers(requests, results) && AllHeld(p.entries, requests, results)
    {
      var r := ServeNext(p, requests, i);
      results := results + [r];
    }
    forall i, j | 0 <= i < |results| && 0 <= j < |results| && results[i].Ok? && results[j].Ok?
      ensures results[i] == results[j] <==> KeyOf(requests[i]) == KeyOf(requests[j])
    {
      SameEntryIffSameKey(p, requests[i], results[i].value, requests[j], results[j].value);
    }
  }

  method ServeNext(p: Pool, requests: seq<Request>, i: nat) returns (r: Result<Entry, PoolError>)
    requires i < |requests| && p.Valid() && HeldByMakers(p.entries, requests, i)
    modifies p`entries, p`created
    ensures p.Valid() && HeldByMakers(p.entries, requests, i + 1) && SettingsOfMaker(requests, i, r)
    ensures forall key :: key in old(p.entries) ==> key in p.entries && p.entries[key] == old(p.entries)[key]
    ensures r.Ok? ==> HeldFor(p.entries, requests[i], r.value)
  {
    var q := requests[i];
    ghost var before := p.entries;
    r := p.Get(q.target, q.hashed, q.dialled, q.dialable);
    NextHeld(before, p.entries, requests, i);
  }

  /** One more lookup: nothing new, or an entry with the settings of this request. */
  lemma NextHeld(before: map<string, Entry>, after: map<string, Entry>, requests: seq<Request>, i: nat)
    requires i < |requests| && HeldByMakers(before, requests, i)
    requires var q := requests[i];
             if KeyOf(q).Ok? && KeyOf(q).value !in before && CanMake(q, KeyOf(q).value) then
               KeyOf(q).value in after && after[KeyOf(q).value].bolt == q.target.bolt
               && after == before[KeyOf(q).value := after[KeyOf(q).value]]
             else after == before
    ensures HeldByMakers(after, requests, i + 1)
  {
  }

  /**
   What a probe reports about its database was read from that database exactly when the
   first request that could make the shared entry named the same one.
   */
  lemma {:induction false} LabelIsRightIff(requests: seq<Request>, j: nat, r: Result<Entry, PoolError>)
    requires j < |requests| && SettingsOfMaker(requests, j, r) && r.Ok?
    ensures KeyOf(requests[j]).Ok?
    ensures DatabaseOf(r.value.bolt) == DatabaseOf(requests[j].target.bolt) <==>
            exists m :: 0 <= m <= j && CanMake(requests[m], KeyOf(requests[j]).value)
                        && (forall i :: 0 <= i < m ==> !CanMake(requests[i], KeyOf(requests[j]).value))
                        && DatabaseOf(requests[m].target.bolt) == DatabaseOf(requests[j].target.bolt)
  {
    var key := KeyOf(requests[j]).value;
    MakerIsFirst(requests, j + 1, key);
    var first := Maker(requests, j + 1, key).value;
    assert CanMake(requests[first], key);
  }
}
