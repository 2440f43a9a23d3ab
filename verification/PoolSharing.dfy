/** What two lookups share, and what reloads keep, over runs in which other threads use the pool too. */
module PoolSharing {
  import opened ConnectionIdentity
  import opened PoolSpec
  import opened PoolProtocol

  /** What the locked part of `Get` returns. */
  function GetResult(s: State, t: Thread, id: DriverId): DriverId
    requires PcOf(s, t).Keyed?
  {
    if PcOf(s, t).key in s.entries then s.entries[PcOf(s, t).key] else id
  }

  /** Nothing in between takes entries out of the pool. */
  predicate KeepsEntries(run: seq<Action>) {
    forall i :: 0 <= i < |run| ==> !run[i].LockedReconcile? && !run[i].SwapAll?
  }

  lemma StepKeepsEntries(grace: int, s: State, a: Action)
    requires Enabled(s, a) && !a.LockedReconcile? && !a.SwapAll?
    ensures forall k :: k in s.entries ==>
              k in Apply(grace, s, a).entries && Apply(grace, s, a).entries[k] == s.entries[k]
  {
  }

  lemma {:induction false} EntriesStay(grace: int, s: State, run: seq<Action>, u: State)
    requires Reaches(grace, s, run, u) && KeepsEntries(run)
    ensures forall k :: k in s.entries ==> k in u.entries && u.entries[k] == s.entries[k]
    decreases |run|
  {
    if run != [] {
      StepKeepsEntries(grace, s, run[0]);
      EntriesStay(grace, Apply(grace, s, run[0]), run[1..], u);
    }
  }

  /** A driver that has been made never moves to another key. */
  lemma OldDriverStep(grace: int, s: State, a: Action)
    requires Custody(s) && Enabled(s, a)
    ensures s.made <= Apply(grace, s, a).made
    ensures forall k :: k in Apply(grace, s, a).entries && Apply(grace, s, a).entries[k] in s.made ==>
              k in s.entries && s.entries[k] == Apply(grace, s, a).entries[k]
  {
  }

  lemma {:induction false} OldDriversKeepTheirKey(grace: int, s: State, run: seq<Action>, u: State)
    requires Custody(s) && Reaches(grace, s, run, u)
    ensures Custody(u) && s.made <= u.made
    ensures forall k :: k in u.entries && u.entries[k] in s.made ==> k in s.entries && s.entries[k] == u.entries[k]
    decreases |run|
  {
    if run != [] {
      CustodyKept(grace, s, run[0]);
      OldDriverStep(grace, s, run[0]);
      OldDriversKeepTheirKey(grace, Apply(grace, s, run[0]), run[1..], u);
    }
  }

  // ----- two lookups -----

  lemma LiveIsMade(s: State, k: Key)
    requires Custody(s) && k in s.entries
    ensures s.entries[k] in s.made
  {
    PlaceTells(s, s.entries[k], Live(k));
  }

  lemma OneKeyEach(s: State, k: Key, l: Key)
    requires Custody(s) && k in s.entries && l in s.entries && s.entries[k] == s.entries[l]
    ensures k == l
  {
    PlaceUnique(s, s.entries[k], Live(k), Live(l));
  }

  /** Whatever happens in between, reloads and shutdowns included, an entry is only ever returned for one key. */
  lemma {:induction false} SameEntrySameKey(
      grace: int, s: State, t: Thread, id: DriverId, run: seq<Action>, u: State, t': Thread, id': DriverId)
    requires Custody(s) && Enabled(s, LockedGet(t, id))
    requires Reaches(grace, GetStep(s, t, id), run, u) && Enabled(u, LockedGet(t', id'))
    ensures GetResult(s, t, id) == GetResult(u, t', id') ==> PcOf(s, t).key == PcOf(u, t').key
  {
    var after, k, l := GetStep(s, t, id), PcOf(s, t).key, PcOf(u, t').key;
    CustodyAfterGet(s, t, id);
    LiveIsMade(after, k);
    OldDriversKeepTheirKey(grace, after, run, u);
    if l in u.entries && u.entries[l] == after.entries[k] {
      OneKeyEach(after, k, l);
    }
  }

  /**
   Two lookups with no reconcile and no shutdown between them, but any number of other
   lookups by any threads, return the same entry exactly when their keys are equal.
   */
  lemma {:induction false} SharedEntryIff(
      grace: int, s: State, t: Thread, id: DriverId, run: seq<Action>, u: State, t': Thread, id': DriverId)
    requires Custody(s) && Enabled(s, LockedGet(t, id))
    requires Reaches(grace, GetStep(s, t, id), run, u) && KeepsEntries(run) && Enabled(u, LockedGet(t', id'))
    ensures GetResult(s, t, id) == GetResult(u, t', id') <==> PcOf(s, t).key == PcOf(u, t').key
  {
    SameEntrySameKey(grace, s, t, id, run, u, t', id');
    EntriesStay(grace, GetStep(s, t, id), run, u);
  }

  /** In terms of connections: the same entry exactly when all five identity fields agree. */
  lemma {:induction false} SharedConnectionIff(
      grace: int, clock: int, before: seq<Action>, s: State, t: Thread, id: DriverId, a: Identity,
      run: seq<Action>, u: State, t': Thread, id': DriverId, b: Identity)
    requires Reaches(grace, Init(clock), before, s) && Enabled(s, LockedGet(t, id)) && PcOf(s, t).key == Preimage(a)
    requires Reaches(grace, GetStep(s, t, id), run, u) && KeepsEntries(run)
    requires Enabled(u, LockedGet(t', id')) && PcOf(u, t').key == Preimage(b)
    requires PipesWithin(Fields(a), {3}) && PipesWithin(Fields(b), {3})
    ensures GetResult(s, t, id) == GetResult(u, t', id') <==> a == b
  {
    CustodyAlways(grace, Init(clock), before, s);
    SharedEntryIff(grace, s, t, id, run, u, t', id');
    KeyDeterminesIdentity(a, b);
  }

  // ----- reconciles -----

  /**
   In every interleaving, however reloads and lookups overlap: a driver that is live and was
   made before a locked reconcile has its key in that reconcile's set of kept keys.
   */
  lemma {:induction false} LiveKeysWereKept(
      grace: int, s: State, t: Thread, order: seq<Key>, run: seq<Action>, u: State, key: Key)
    requires Custody(s) && Enabled(s, LockedReconcile(t, order))
    requires Reaches(grace, ReconcileStep(grace, s, t, order), run, u)
    requires key in u.entries && u.entries[key] in s.made
    ensures key in PcOf(s, t).keep && key in s.entries && s.entries[key] == u.entries[key]
  {
    CustodyAfterReconcile(grace, s, t, order);
    OldDriversKeepTheirKey(grace, ReconcileStep(grace, s, t, order), run, u);
  }
}
