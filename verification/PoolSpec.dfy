/**
 The pool's state as values. `E` is whatever stands for a pool entry: an object
 in the class of Pool.dfy, a number in the step machine of PoolProtocol.dfy.
 */
module PoolSpec {
  import opened Prelude

  datatype Stale<+E> = Stale(entry: E, deadline: int)

  function Restrict<K, E>(entries: map<K, E>, keep: set<K>): map<K, E> {
    map k | k in entries && k in keep :: entries[k]
  }

  predicate Overdue<E>(s: Stale<E>, now: int) {
    now > s.deadline
  }

  /** What stays on the stale list when it is compacted at `now`. */
  function Retained<E>(stale: seq<Stale<E>>, now: int): seq<Stale<E>> {
    RetainedTo(stale, |stale|, now)
  }

  /** What is closed when the stale list is compacted at `now`, in closing order. */
  function Due<E>(stale: seq<Stale<E>>, now: int): seq<E> {
    DueTo(stale, |stale|, now)
  }

  /** `Retained` of the first `n` records. */
  function RetainedTo<E>(stale: seq<Stale<E>>, n: nat, now: int): seq<Stale<E>>
    requires n <= |stale|
  {
    if n == 0 then []
    else RetainedTo(stale, n - 1, now) + if Overdue(stale[n - 1], now) then [] else [stale[n - 1]]
  }

  /** `Due` of the first `n` records. */
  function DueTo<E>(stale: seq<Stale<E>>, n: nat, now: int): seq<E>
    requires n <= |stale|
  {
    if n == 0 then []
    else DueTo(stale, n - 1, now) + if Overdue(stale[n - 1], now) then [stale[n - 1].entry] else []
  }

  function Ids<E>(stale: seq<Stale<E>>): seq<E> {
    seq(|stale|, i requires 0 <= i < |stale| => stale[i].entry)
  }

  /** `order` lists exactly the keys that are not kept, each once: one order in which a map may be ranged over. */
  ghost predicate RangeOrder<K, E>(entries: map<K, E>, keep: set<K>, order: seq<K>) {
    && (forall i :: 0 <= i < |order| ==> order[i] in entries && order[i] !in keep)
    && (forall i, j :: 0 <= i < j < |order| ==> order[i] != order[j])
    && (forall k :: k in entries && k !in keep ==> k in order)
  }

  /** A `RangeOrder` of the keys visited so far. */
  ghost predicate PartialOrder<K, E>(entries: map<K, E>, keep: set<K>, order: seq<K>, unvisited: set<K>) {
    && (forall i :: 0 <= i < |order| ==> order[i] in entries && order[i] !in keep && order[i] !in unvisited)
    && (forall i, j :: 0 <= i < j < |order| ==> order[i] != order[j])
    && (forall k :: k in entries && k !in keep && k !in unvisited ==> k in order)
  }

  /** The records appended for the dropped keys, in ranging order. */
  function Retire<K, E>(entries: map<K, E>, order: seq<K>, deadline: int): seq<Stale<E>>
    requires forall i :: 0 <= i < |order| ==> order[i] in entries
  {
    seq(|order|, i requires 0 <= i < |order| => Stale(entries[order[i]], deadline))
  }

  predicate NoDup<T(==)>(s: seq<T>) {
    forall i, j :: 0 <= i < j < |s| ==> s[i] != s[j]
  }

  /** Compaction loses nothing: what is kept and what is closed make up the old list. */
  lemma {:induction false} CompactionConserves<E>(stale: seq<Stale<E>>, now: int)
    ensures multiset(Ids(Retained(stale, now))) + multiset(Due(stale, now)) == multiset(Ids(stale))
  {
    PrefixConserves(stale, |stale|, now);
    assert stale[..|stale|] == stale;
  }

  lemma {:induction false} PrefixConserves<E>(stale: seq<Stale<E>>, n: nat, now: int)
    requires n <= |stale|
    ensures multiset(Ids(RetainedTo(stale, n, now))) + multiset(DueTo(stale, n, now)) == multiset(Ids(stale[..n]))
  {
    if n == 0 {
      assert Ids(stale[..0]) == [] && Ids(RetainedTo(stale, 0, now)) == [];
    } else {
      var left, gone, last := RetainedTo(stale, n - 1, now), DueTo(stale, n - 1, now), stale[n - 1];
      PrefixConserves(stale, n - 1, now);
      assert Ids(stale[..n]) == Ids(stale[..n - 1]) + [last.entry] by {
        assert stale[..n] == stale[..n - 1] + [last];
        IdsSnoc(stale[..n - 1], last);
      }
      ConserveStep(Ids(stale[..n - 1]), Ids(left), gone, last.entry);
      if Overdue(last, now) {
        assert RetainedTo(stale, n, now) == left;
      } else {
        assert DueTo(stale, n, now) == gone;
        IdsSnoc(left, last);
      }
    }
  }

  lemma ConserveStep<E>(ids: seq<E>, left: seq<E>, gone: seq<E>, e: E)
    requires multiset(left) + multiset(gone) == multiset(ids)
    ensures multiset(left + [e]) + multiset(gone) == multiset(ids + [e])
    ensures multiset(left) + multiset(gone + [e]) == multiset(ids + [e])
  {
  }

  lemma IdsSnoc<E>(stale: seq<Stale<E>>, last: Stale<E>)
    ensures Ids(stale + [last]) == Ids(stale) + [last.entry]
  {
  }

  /** Compaction keeps exactly the records that are not overdue and closes exactly the others. */
  lemma {:induction false} CompactionPartitions<E>(stale: seq<Stale<E>>, now: int)
    ensures forall s :: s in Retained(stale, now) <==> s in stale && !Overdue(s, now)
    ensures forall e :: e in Due(stale, now) <==> exists s :: s in stale && Overdue(s, now) && s.entry == e
  {
    PrefixRetains(stale, |stale|, now);
    PrefixCloses(stale, |stale|, now);
    assert stale[..|stale|] == stale;
  }

  lemma {:induction false} PrefixRetains<E>(stale: seq<Stale<E>>, n: nat, now: int)
    requires n <= |stale|
    ensures forall s :: s in RetainedTo(stale, n, now) <==> s in stale[..n] && !Overdue(s, now)
  {
    if n > 0 {
      PrefixRetains(stale, n - 1, now);
      assert stale[..n] == stale[..n - 1] + [stale[n - 1]];
    }
  }

  lemma {:induction false} PrefixCloses<E>(stale: seq<Stale<E>>, n: nat, now: int)
    requires n <= |stale|
    ensures forall e :: e in DueTo(stale, n, now) <==> exists s :: s in stale[..n] && Overdue(s, now) && s.entry == e
  {
    if n > 0 {
      PrefixCloses(stale, n - 1, now);
      assert stale[..n] == stale[..n - 1] + [stale[n - 1]];
    }
  }

  /** The positions of the survivors among the first `n` records. */
  function SurvivorPositions<E>(stale: seq<Stale<E>>, n: nat, now: int): (at: seq<int>)
    requires n <= |stale|
  {
    if n == 0 then []
    else SurvivorPositions(stale, n - 1, now) + if Overdue(stale[n - 1], now) then [] else [n - 1]
  }

  lemma {:induction false} PositionsIncrease<E>(stale: seq<Stale<E>>, n: nat, now: int)
    requires n <= |stale|
    ensures forall i :: 0 <= i < |SurvivorPositions(stale, n, now)| ==> 0 <= SurvivorPositions(stale, n, now)[i] < n
    ensures forall i, j :: 0 <= i < j < |SurvivorPositions(stale, n, now)| ==>
              SurvivorPositions(stale, n, now)[i] < SurvivorPositions(stale, n, now)[j]
  {
    if n > 0 {
      PositionsIncrease(stale, n - 1, now);
    }
  }

  lemma {:induction false} PositionsLocate<E>(stale: seq<Stale<E>>, n: nat, now: int)
    requires n <= |stale|
    ensures |RetainedTo(stale, n, now)| == |SurvivorPositions(stale, n, now)|
    ensures forall i :: 0 <= i < |RetainedTo(stale, n, now)| ==>
              0 <= SurvivorPositions(stale, n, now)[i] < |stale|
              && RetainedTo(stale, n, now)[i] == stale[SurvivorPositions(stale, n, now)[i]]
  {
    if n > 0 {
      PositionsLocate(stale, n - 1, now);
    }
  }

  lemma {:induction false} CompactionKeepsOrder<E>(stale: seq<Stale<E>>, now: int) returns (at: seq<int>)
    ensures Subsequence(Retained(stale, now), stale, at)
  {
    at := SurvivorPositions(stale, |stale|, now);
    PositionsIncrease(stale, |stale|, now);
    PositionsLocate(stale, |stale|, now);
  }

  /** With a non-negative grace period nothing is closed by the call that retires it. */
  lemma {:induction false} FreshlyRetiredSurvives<E>(stale: seq<Stale<E>>, retired: seq<Stale<E>>, now: int)
    requires forall i :: 0 <= i < |retired| ==> retired[i].deadline >= now
    ensures Retained(stale + retired, now) == Retained(stale, now) + retired
    ensures Due(stale + retired, now) == Due(stale, now)
  {
    SurvivorsAppend(stale, retired, |stale| + |retired|, now);
    assert retired[..|retired|] == retired;
  }

  lemma {:induction false} SurvivorsAppend<E>(stale: seq<Stale<E>>, retired: seq<Stale<E>>, n: nat, now: int)
    requires forall i :: 0 <= i < |retired| ==> retired[i].deadline >= now
    requires n <= |stale| + |retired|
    ensures n <= |stale| ==> RetainedTo(stale + retired, n, now) == RetainedTo(stale, n, now)
                             && DueTo(stale + retired, n, now) == DueTo(stale, n, now)
    ensures n > |stale| ==> RetainedTo(stale + retired, n, now) == Retained(stale, now) + retired[..n - |stale|]
                            && DueTo(stale + retired, n, now) == Due(stale, now)
  {
    if n > 0 {
      SurvivorsAppend(stale, retired, n - 1, now);
      var m := n - |stale|;
      if m > 0 {
        assert (stale + retired)[n - 1] == retired[m - 1];
        assert retired[..m] == retired[..m - 1] + [retired[m - 1]];
      }
    }
  }

  /** No entry is held twice: not by two keys, not by two stale records, not by a key and a stale record. */
  ghost predicate Placed<K, E>(entries: map<K, E>, stale: seq<Stale<E>>) {
    && (forall k, k' :: k in entries && k' in entries && k != k' ==> entries[k] != entries[k'])
    && (forall i, j :: 0 <= i < j < |stale| ==> stale[i].entry != stale[j].entry)
    && (forall k, i :: k in entries && 0 <= i < |stale| ==> entries[k] != stale[i].entry)
  }

  predicate OnStale<E(==)>(stale: seq<Stale<E>>, e: E) {
    exists s :: s in stale && s.entry == e
  }

  predicate IsLive<K(!new), E(==)>(entries: map<K, E>, e: E) {
    exists k :: k in entries && entries[k] == e
  }

  lemma RetirePlaced<K, E>(entries: map<K, E>, stale: seq<Stale<E>>, keep: set<K>, order: seq<K>, deadline: int)
    requires Placed(entries, stale) && RangeOrder(entries, keep, order)
    ensures Placed(Restrict(entries, keep), stale + Retire(entries, order, deadline))
  {
    var retired := Retire(entries, order, deadline);
    forall i | 0 <= i < |retired|
      ensures retired[i].entry == entries[order[i]]
    {
    }
    assert forall i :: |stale| <= i < |stale + retired| ==> (stale + retired)[i] == retired[i - |stale|];
  }

  ghost predicate DistinctEntries<E>(stale: seq<Stale<E>>) {
    forall i, j :: 0 <= i < j < |stale| ==> stale[i].entry != stale[j].entry
  }

  lemma DueWasStale<E>(stale: seq<Stale<E>>, now: int, e: E)
    requires e in Due(stale, now)
    ensures exists i :: 0 <= i < |stale| && stale[i].entry == e
  {
    CompactionPartitions(stale, now);
    var s :| s in stale && Overdue(s, now) && s.entry == e;
    var i :| 0 <= i < |stale| && stale[i] == s;
  }

  lemma DueDistinct<E>(stale: seq<Stale<E>>, now: int)
    requires DistinctEntries(stale)
    ensures NoDup(Due(stale, now))
  {
    PrefixDueDistinct(stale, |stale|, now);
  }

  lemma {:induction false} PrefixDueDistinct<E>(stale: seq<Stale<E>>, n: nat, now: int)
    requires DistinctEntries(stale) && n <= |stale|
    ensures NoDup(DueTo(stale, n, now))
    ensures forall e :: e in DueTo(stale, n, now) ==> exists i :: 0 <= i < n && stale[i].entry == e
  {
    if n > 0 {
      var before, last := DueTo(stale, n - 1, now), stale[n - 1].entry;
      PrefixDueDistinct(stale, n - 1, now);
      forall e | e in before
        ensures e != last
      {
        var i :| 0 <= i < n - 1 && stale[i].entry == e;
      }
      NoDupConcat(before, if Overdue(stale[n - 1], now) then [last] else []);
    }
  }

  lemma DueNotRetained<E>(stale: seq<Stale<E>>, now: int, e: E)
    requires DistinctEntries(stale) && e in Due(stale, now)
    ensures !OnStale(Retained(stale, now), e)
  {
    CompactionPartitions(stale, now);
    var at := CompactionKeepsOrder(stale, now);
    var s :| s in stale && Overdue(s, now) && s.entry == e;
    var i :| 0 <= i < |stale| && stale[i] == s;
    forall p | 0 <= p < |at|
      ensures Retained(stale, now)[p].entry != e
    {
      assert Retained(stale, now)[p] in Retained(stale, now);
      assert stale[at[p]] == Retained(stale, now)[p];
    }
  }

  lemma DueByRecord<E>(stale: seq<Stale<E>>, now: int, p: nat)
    requires DistinctEntries(stale) && p < |stale|
    ensures stale[p].entry in Due(stale, now) <==> Overdue(stale[p], now)
  {
    CompactionPartitions(stale, now);
    assert stale[p] in stale;
    if stale[p].entry in Due(stale, now) {
      var s :| s in stale && Overdue(s, now) && s.entry == stale[p].entry;
      var i :| 0 <= i < |stale| && stale[i] == s;
    }
  }

  lemma CompactPlaced<K, E>(entries: map<K, E>, stale: seq<Stale<E>>, now: int)
    requires Placed(entries, stale)
    ensures Placed(entries, Retained(stale, now))
  {
    var at := CompactionKeepsOrder(stale, now);
    forall i | 0 <= i < |at|
      ensures stale[at[i]] == Retained(stale, now)[i]
    {
    }
  }

  predicate Held<K(!new), E(==)>(entries: map<K, E>, stale: seq<Stale<E>>, e: E) {
    IsLive(entries, e) || OnStale(stale, e)
  }

  /**
   Nothing is lost and nothing is let go twice: of the entries ever made, each is
   either held at one place or has been released once. `released` lists what has
   left the pool, in the order in which it left.
   */
  ghost predicate Accounted<K(!new), E>(entries: map<K, E>, stale: seq<Stale<E>>, released: seq<E>, created: set<E>) {
    && Placed(entries, stale)
    && NoDup(released)
    && (forall k :: k in entries ==> entries[k] in created && entries[k] !in released)
    && (forall i :: 0 <= i < |stale| ==> stale[i].entry in created && stale[i].entry !in released)
    && (forall i :: 0 <= i < |released| ==> released[i] in created)
    && (forall e :: e in created ==> Held(entries, stale, e) || e in released)
  }

  lemma AccountedAfterGet<K(!new), E>(
    entries: map<K, E>, stale: seq<Stale<E>>, released: seq<E>, created: set<E>, key: K, e: E)
    requires Accounted(entries, stale, released, created)
    requires key !in entries && e !in created
    ensures Accounted(entries[key := e], stale, released, created + {e})
  {
    var after := entries[key := e];
    forall x | x in created + {e}
      ensures Held(after, stale, x) || x in released
    {
      if x == e {
        assert after[key] == e;
      } else if k :| k in entries && entries[k] == x {
        assert after[k] == x;
      }
    }
  }

  /** One `Reconcile` lets go of exactly the entries it closes. */
  lemma {:induction false} HeldAfterReconcile<K(!new), E>(
    entries: map<K, E>, stale: seq<Stale<E>>, keep: set<K>, order: seq<K>, deadline: int, now: int, e: E)
    requires Placed(entries, stale) && RangeOrder(entries, keep, order)
    ensures Held(Restrict(entries, keep), Retained(stale + Retire(entries, order, deadline), now), e)
            <==> Held(entries, stale, e) && e !in Due(stale + Retire(entries, order, deadline), now)
  {
    var retired := Retire(entries, order, deadline);
    var all := stale + retired;
    RetirePlaced(entries, stale, keep, order, deadline);
    CompactionPartitions(all, now);
    if e in Due(all, now) {
      DueNotRetained(all, now, e);
      DueWasStale(all, now, e);
    }
    if IsLive(entries, e) {
      var k :| k in entries && entries[k] == e;
      if k in keep {
        assert Restrict(entries, keep)[k] == e;
      } else {
        var i :| 0 <= i < |order| && order[i] == k;
        assert all[|stale| + i] == retired[i] && retired[i].entry == e;
        assert retired[i] in all;
      }
    }
    if OnStale(stale, e) {
      var s :| s in stale && s.entry == e;
      assert s in all;
    }
    if OnStale(Retained(all, now), e) {
      var s :| s in Retained(all, now) && s.entry == e;
      assert s in all;
      if s in retired {
        var i :| 0 <= i < |order| && retired[i] == s;
        assert entries[order[i]] == e;
      }
    }
  }

  /** What is appended to the stale list was held before. */
  lemma RetiredWasHeld<K(!new), E>(entries: map<K, E>, stale: seq<Stale<E>>, order: seq<K>, deadline: int, p: nat)
    requires forall i :: 0 <= i < |order| ==> order[i] in entries
    requires p < |stale| + |order|
    ensures Held(entries, stale, (stale + Retire(entries, order, deadline))[p].entry)
  {
    if p < |stale| {
      assert stale[p] in stale;
    } else {
      assert entries[order[p - |stale|]] == Retire(entries, order, deadline)[p - |stale|].entry;
    }
  }

  lemma HeldIsPending<K(!new), E>(entries: map<K, E>, stale: seq<Stale<E>>, released: seq<E>, created: set<E>, e: E)
    requires Accounted(entries, stale, released, created) && Held(entries, stale, e)
    ensures e in created && e !in released
  {
    if k :| k in entries && entries[k] == e {
    } else {
      var s :| s in stale && s.entry == e;
      var i :| 0 <= i < |stale| && stale[i] == s;
    }
  }

  lemma DueWasHeld<K(!new), E>(
    entries: map<K, E>, stale: seq<Stale<E>>, released: seq<E>, created: set<E>,
    order: seq<K>, deadline: int, now: int, e: E)
    requires Accounted(entries, stale, released, created)
    requires forall i :: 0 <= i < |order| ==> order[i] in entries
    requires e in Due(stale + Retire(entries, order, deadline), now)
    ensures e in created && e !in released
  {
    var all := stale + Retire(entries, order, deadline);
    DueWasStale(all, now, e);
    var p :| 0 <= p < |all| && all[p].entry == e;
    RetiredWasHeld(entries, stale, order, deadline, p);
    HeldIsPending(entries, stale, released, created, e);
  }

  lemma NoDupConcat<T>(a: seq<T>, b: seq<T>)
    requires NoDup(a) && NoDup(b)
    requires forall x :: x in b ==> x !in a
    ensures NoDup(a + b)
  {
    forall i, j | 0 <= i < j < |a + b|
      ensures (a + b)[i] != (a + b)[j]
    {
      if i < |a| <= j {
        assert (a + b)[j] in b;
      }
    }
  }

  lemma {:induction false} AccountedAfterReconcile<K(!new), E>(
    entries: map<K, E>, stale: seq<Stale<E>>, released: seq<E>, created: set<E>,
    keep: set<K>, order: seq<K>, deadline: int, now: int)
    requires Accounted(entries, stale, released, created) && RangeOrder(entries, keep, order)
    ensures Accounted(Restrict(entries, keep), Retained(stale + Retire(entries, order, deadline), now),
                      released + Due(stale + Retire(entries, order, deadline), now), created)
  {
    var all := stale + Retire(entries, order, deadline);
    var kept, left, gone := Restrict(entries, keep), Retained(all, now), Due(all, now);
    RetirePlaced(entries, stale, keep, order, deadline);
    CompactPlaced(kept, all, now);
    DueDistinct(all, now);
    forall e | e in gone
      ensures e in created && e !in released && Held(entries, stale, e)
    {
      DueWasHeld(entries, stale, released, created, order, deadline, now, e);
    }
    NoDupConcat(released, gone);
    forall e
      ensures Held(kept, left, e) ==> e in created && e !in released + gone
      ensures e in created ==> Held(kept, left, e) || e in released + gone
    {
      HeldAfterReconcile(entries, stale, keep, order, deadline, now, e);
      if Held(entries, stale, e) {
        HeldIsPending(entries, stale, released, created, e);
      }
    }
    forall k | k in kept
      ensures kept[k] in created && kept[k] !in released + gone
    {
      assert Held(kept, left, kept[k]);
    }
    forall i | 0 <= i < |left|
      ensures left[i].entry in created && left[i].entry !in released + gone
    {
      assert left[i] in left && Held(kept, left, left[i].entry);
    }
  }

  lemma AccountedAfterCloseAll<K(!new), E>(
    entries: map<K, E>, stale: seq<Stale<E>>, released: seq<E>, created: set<E>, order: seq<K>)
    requires Accounted(entries, stale, released, created) && RangeOrder(entries, {}, order)
    ensures Accounted<K, E>(map[], [], released + Ids(Retire(entries, order, 0)) + Ids(stale), created)
  {
    var live, waiting := Ids(Retire(entries, order, 0)), Ids(stale);
    assert forall i :: 0 <= i < |live| ==> live[i] == entries[order[i]];
    NoDupConcat(released, live);
    NoDupConcat(released + live, waiting);
    forall e | e in created
      ensures e in released + live + waiting
    {
      if k :| k in entries && entries[k] == e {
        var i :| 0 <= i < |order| && order[i] == k;
        assert live[i] == e;
      } else if s :| s in stale && s.entry == e {
        var i :| 0 <= i < |stale| && stale[i] == s;
        assert waiting[i] == e;
      }
    }
  }
}
