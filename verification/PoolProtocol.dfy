/**
 The pool under concurrent use. Every step is one stretch of a call between two
 points at which another thread can run: hashing before the lock, reading the
 clock before the lock, the locked part, each `Close` that `CloseAll` makes after
 releasing the lock. A driver is known by a number that no earlier driver had.
 */
module PoolProtocol {
  import opened PoolSpec

  type Key = string
  type Thread = nat
  type DriverId = nat

  datatype Pc =
    | Idle
    | Keyed(key: Key)                     // Get: key computed
    | Hashed(keep: set<Key>)              // Reconcile: keys of the targets computed
    | Timed(keep: set<Key>, now: int)     // Reconcile: clock read
    | Closing(pending: seq<DriverId>)     // CloseAll: pool emptied, drivers still to close

  datatype State = State(
    entries: map<Key, DriverId>,
    stale: seq<Stale<DriverId>>,
    made: set<DriverId>,
    pcs: map<Thread, Pc>,
    clock: int,
    history: History)

  /** What has happened so far; no step depends on it. */
  datatype History = History(
    released: seq<DriverId>,           // left the pool, in order
    closed: seq<DriverId>,             // one element per Close
    handed: set<(DriverId, int)>,      // returned by Get, with the time
    retiredAt: map<DriverId, int>,     // clock reading of the Reconcile that dropped it
    expiredAt: map<DriverId, int>,     // time at which a Reconcile closed it
    swapped: set<DriverId>)            // taken over by a CloseAll

  datatype Action =
    | HashForGet(t: Thread, key: Key)
    | LockedGet(t: Thread, id: DriverId)  // id: the driver made if there is none yet
    | FailedGet(t: Thread)
    | HashTargets(t: Thread, keep: set<Key>)
    | ReadClock(t: Thread)
    | LockedReconcile(t: Thread, order: seq<Key>)
    | SwapAll(t: Thread, order: seq<Key>)
    | CloseOne(t: Thread)
    | Tick(to: int)

  function Init(clock: int): State {
    State(map[], [], {}, map[], clock, History([], [], {}, map[], map[], {}))
  }

  function PcOf(s: State, t: Thread): Pc {
    if t in s.pcs then s.pcs[t] else Idle
  }

  function Pending(s: State, t: Thread): seq<DriverId> {
    if PcOf(s, t).Closing? then PcOf(s, t).pending else []
  }

  ghost predicate Enabled(s: State, a: Action) {
    match a
    case HashForGet(t, _) => PcOf(s, t) == Idle
    case LockedGet(t, id) => PcOf(s, t).Keyed? && id !in s.made
    case FailedGet(t) => PcOf(s, t).Keyed? && PcOf(s, t).key !in s.entries
    case HashTargets(t, _) => PcOf(s, t) == Idle
    case ReadClock(t) => PcOf(s, t).Hashed?
    case LockedReconcile(t, order) => PcOf(s, t).Timed? && RangeOrder(s.entries, PcOf(s, t).keep, order)
    case SwapAll(t, order) => PcOf(s, t) == Idle && RangeOrder(s.entries, {}, order)
    case CloseOne(t) => PcOf(s, t).Closing?
    case Tick(to) => s.clock <= to
  }

  function GetStep(s: State, t: Thread, id: DriverId): State
    requires PcOf(s, t).Keyed?
  {
    var key := PcOf(s, t).key;
    var d := if key in s.entries then s.entries[key] else id;
    s.(entries := s.entries[key := d],
       made := s.made + {d},
       pcs := s.pcs[t := Idle],
       history := s.history.(handed := s.history.handed + {(d, s.clock)}))
  }

  function Dropped(s: State, order: seq<Key>): set<DriverId>
    requires forall i :: 0 <= i < |order| ==> order[i] in s.entries
  {
    set k | k in order :: s.entries[k]
  }

  ghost function ReconcileStep(grace: int, s: State, t: Thread, order: seq<Key>): State
    requires PcOf(s, t).Timed? && RangeOrder(s.entries, PcOf(s, t).keep, order)
  {
    var Timed(keep, now) := PcOf(s, t);
    var list := s.stale + Retire(s.entries, order, now + grace);
    var due := Due(list, now);
    s.(entries := Restrict(s.entries, keep),
       stale := Retained(list, now),
       pcs := s.pcs[t := Idle],
       history := s.history.(
         released := s.history.released + due,
         closed := s.history.closed + due,
         retiredAt := s.history.retiredAt + map d | d in Dropped(s, order) :: now,
         expiredAt := s.history.expiredAt + map d | d in due :: s.clock))
  }

  function SwapStep(s: State, t: Thread, order: seq<Key>): State
    requires forall i :: 0 <= i < |order| ==> order[i] in s.entries
  {
    var taken := Ids(Retire(s.entries, order, 0)) + Ids(s.stale);
    s.(entries := map[],
       stale := [],
       pcs := s.pcs[t := Closing(taken)],
       history := s.history.(
         released := s.history.released + taken,
         swapped := s.history.swapped + set d | d in taken))
  }

  function CloseStep(s: State, t: Thread): State
    requires PcOf(s, t).Closing?
  {
    var pending := PcOf(s, t).pending;
    if pending == [] then s.(pcs := s.pcs[t := Idle])
    else s.(pcs := s.pcs[t := Closing(pending[1..])],
            history := s.history.(closed := s.history.closed + [pending[0]]))
  }

  ghost function Apply(grace: int, s: State, a: Action): State
    requires Enabled(s, a)
  {
    match a
    case HashForGet(t, key) => s.(pcs := s.pcs[t := Keyed(key)])
    case LockedGet(t, id) => GetStep(s, t, id)
    case FailedGet(t) => s.(pcs := s.pcs[t := Idle])
    case HashTargets(t, keep) => s.(pcs := s.pcs[t := Hashed(keep)])
    case ReadClock(t) => s.(pcs := s.pcs[t := Timed(PcOf(s, t).keep, s.clock)])
    case LockedReconcile(t, order) => ReconcileStep(grace, s, t, order)
    case SwapAll(t, order) => SwapStep(s, t, order)
    case CloseOne(t) => CloseStep(s, t)
    case Tick(to) => s.(clock := to)
  }

  /** `run` leads from `s` to `s'`. */
  ghost predicate Reaches(grace: int, s: State, run: seq<Action>, s': State)
    decreases |run|
  {
    if run == [] then s == s'
    else Enabled(s, run[0]) && Reaches(grace, Apply(grace, s, run[0]), run[1..], s')
  }

  // ----- every driver is in exactly one place -----

  ghost predicate Custody(s: State) {
    && Accounted(s.entries, s.stale, s.history.released, s.made)
    && Settled(s)
  }

  /** What has left the pool is closed once, or waits for one thread to close it. */
  ghost predicate Settled(s: State) {
    && NoDup(s.history.closed)
    && (forall d :: d in s.history.closed ==> d in s.history.released)
    && (forall t :: NoDup(Pending(s, t)))
    && (forall t, d :: d in Pending(s, t) ==> d in s.history.released && d !in s.history.closed)
    && (forall t, t', d :: d in Pending(s, t) && d in Pending(s, t') ==> t == t')
    && (forall d :: d in s.history.released ==> d in s.history.closed || exists t :: d in Pending(s, t))
  }

  lemma SettledExtends(s: State, s': State, due: seq<DriverId>)
    requires Settled(s) && NoDup(due) && forall d :: d in due ==> d !in s.history.released
    requires s'.history.released == s.history.released + due && s'.history.closed == s.history.closed + due
    requires forall u :: Pending(s', u) == Pending(s, u)
    ensures Settled(s')
  {
    NoDupConcat(s.history.closed, due);
  }

  lemma CustodyAfterGet(s: State, t: Thread, id: DriverId)
    requires Custody(s) && Enabled(s, LockedGet(t, id))
    ensures Custody(GetStep(s, t, id))
  {
    var key := PcOf(s, t).key;
    var s' := GetStep(s, t, id);
    if key in s.entries {
      assert s'.entries == s.entries && s'.made == s.made;
    } else {
      AccountedAfterGet(s.entries, s.stale, s.history.released, s.made, key, id);
    }
    SamePending(s, s', t);
  }

  /** A step of a thread that owns nothing before or after leaves every pending list alone. */
  lemma SamePending(s: State, s': State, t: Thread)
    requires s'.pcs == s.pcs[t := PcOf(s', t)]
    requires Pending(s, t) == Pending(s', t)
    ensures forall u :: Pending(s', u) == Pending(s, u)
  {
  }

  lemma AccountedAfterLocked(grace: int, s: State, t: Thread, order: seq<Key>)
    requires Custody(s) && Enabled(s, LockedReconcile(t, order))
    ensures var s' := ReconcileStep(grace, s, t, order);
            Accounted(s'.entries, s'.stale, s'.history.released, s'.made)
  {
    var Timed(keep, now) := PcOf(s, t);
    var list, s' := s.stale + Retire(s.entries, order, now + grace), ReconcileStep(grace, s, t, order);
    assert s'.entries == Restrict(s.entries, keep) && s'.stale == Retained(list, now);
    assert s'.history.released == s.history.released + Due(list, now) && s'.made == s.made;
    AccountedAfterReconcile(s.entries, s.stale, s.history.released, s.made, keep, order, now + grace, now);
  }

  lemma SettledAfterLocked(grace: int, s: State, t: Thread, order: seq<Key>)
    requires Custody(s) && Enabled(s, LockedReconcile(t, order))
    ensures Settled(ReconcileStep(grace, s, t, order))
  {
    var Timed(keep, now) := PcOf(s, t);
    var s' := ReconcileStep(grace, s, t, order);
    SamePending(s, s', t);
    DueIsFresh(s, keep, order, now + grace, now);
    SettledExtends(s, s', Due(s.stale + Retire(s.entries, order, now + grace), now));
  }

  lemma CustodyAfterReconcile(grace: int, s: State, t: Thread, order: seq<Key>)
    requires Custody(s) && Enabled(s, LockedReconcile(t, order))
    ensures Custody(ReconcileStep(grace, s, t, order))
  {
    AccountedAfterLocked(grace, s, t, order);
    SettledAfterLocked(grace, s, t, order);
  }

  /** What a compaction closes had not been let go before, and is closed once. */
  lemma DueIsFresh(s: State, keep: set<Key>, order: seq<Key>, deadline: int, now: int)
    requires Custody(s) && RangeOrder(s.entries, keep, order)
    ensures var due := Due(s.stale + Retire(s.entries, order, deadline), now);
            NoDup(due) && forall d :: d in due ==> d !in s.history.released
  {
    var list := s.stale + Retire(s.entries, order, deadline);
    forall d | d in Due(list, now)
      ensures d !in s.history.released
    {
      DueWasHeld(s.entries, s.stale, s.history.released, s.made, order, deadline, now, d);
    }
    RetirePlaced(s.entries, s.stale, keep, order, deadline);
    DueDistinct(list, now);
  }

  lemma CustodyAfterSwap(s: State, t: Thread, order: seq<Key>)
    requires Custody(s) && Enabled(s, SwapAll(t, order))
    ensures Custody(SwapStep(s, t, order))
  {
    var s' := SwapStep(s, t, order);
    var taken := Ids(Retire(s.entries, order, 0)) + Ids(s.stale);
    AccountedAfterCloseAll(s.entries, s.stale, s.history.released, s.made, order);
    assert s'.history.released == s.history.released + Ids(Retire(s.entries, order, 0)) + Ids(s.stale);
    assert Pending(s, t) == [] && Pending(s', t) == taken;
    assert forall u :: u != t ==> Pending(s', u) == Pending(s, u);
    NoDupSplit(s.history.released, taken);
  }

  lemma NoDupSplit<T>(a: seq<T>, b: seq<T>)
    requires NoDup(a + b)
    ensures NoDup(b) && forall x :: x in b ==> x !in a
  {
    assert forall i :: 0 <= i < |b| ==> b[i] == (a + b)[|a| + i];
    assert forall i :: 0 <= i < |a| ==> a[i] == (a + b)[i];
  }

  lemma CustodyAfterClose(s: State, t: Thread)
    requires Custody(s) && PcOf(s, t).Closing?
    ensures Custody(CloseStep(s, t))
  {
    var s' := CloseStep(s, t);
    var pending := Pending(s, t);
    assert forall u :: u != t ==> Pending(s', u) == Pending(s, u);
    if pending == [] {
      SamePending(s, s', t);
    } else {
      assert pending == [pending[0]] + pending[1..];
      assert Pending(s', t) == pending[1..];
      NoDupSplit([pending[0]], pending[1..]);
      assert pending[0] in Pending(s, t);
      NoDupConcat(s.history.closed, [pending[0]]);
    }
  }

  lemma CustodyKept(grace: int, s: State, a: Action)
    requires Custody(s) && Enabled(s, a)
    ensures Custody(Apply(grace, s, a))
  {
    match a
    case HashForGet(t, _) => SamePending(s, Apply(grace, s, a), t);
    case LockedGet(t, id) => CustodyAfterGet(s, t, id);
    case FailedGet(t) => SamePending(s, Apply(grace, s, a), t);
    case HashTargets(t, _) => SamePending(s, Apply(grace, s, a), t);
    case ReadClock(t) => SamePending(s, Apply(grace, s, a), t);
    case LockedReconcile(t, order) => CustodyAfterReconcile(grace, s, t, order);
    case SwapAll(t, order) => CustodyAfterSwap(s, t, order);
    case CloseOne(t) => CustodyAfterClose(s, t);
    case Tick(to) => assert forall u :: Pending(s.(clock := to), u) == Pending(s, u);
  }

  lemma {:induction false} CustodyAlways(grace: int, s: State, run: seq<Action>, s': State)
    requires Custody(s) && Reaches(grace, s, run, s')
    ensures Custody(s')
    decreases |run|
  {
    if run != [] {
      CustodyKept(grace, s, run[0]);
      CustodyAlways(grace, Apply(grace, s, run[0]), run[1..], s');
    }
  }

  datatype Place =
    | Live(key: Key)
    | Waiting(position: nat)
    | Owned(t: Thread, position: nat)
    | Shut(position: nat)

  ghost predicate Occupies(s: State, d: DriverId, p: Place) {
    match p
    case Live(key) => key in s.entries && s.entries[key] == d
    case Waiting(i) => i < |s.stale| && s.stale[i].entry == d
    case Owned(t, i) => i < |Pending(s, t)| && Pending(s, t)[i] == d
    case Shut(i) => i < |s.history.closed| && s.history.closed[i] == d
  }

  lemma PlaceExists(s: State, d: DriverId) returns (p: Place)
    requires Custody(s) && d in s.made
    ensures Occupies(s, d, p)
  {
    if d in s.history.closed {
      var i :| 0 <= i < |s.history.closed| && s.history.closed[i] == d;
      p := Shut(i);
    } else if d in s.history.released {
      var t :| d in Pending(s, t);
      var i :| 0 <= i < |Pending(s, t)| && Pending(s, t)[i] == d;
      p := Owned(t, i);
    } else if k :| k in s.entries && s.entries[k] == d {
      p := Live(k);
    } else {
      var r :| r in s.stale && r.entry == d;
      var i :| 0 <= i < |s.stale| && s.stale[i] == r;
      p := Waiting(i);
    }
  }

  lemma PlaceTells(s: State, d: DriverId, p: Place)
    requires Custody(s) && Occupies(s, d, p)
    ensures d in s.made
    ensures p.Live? || p.Waiting? ==> d !in s.history.released
    ensures p.Owned? ==> d in s.history.released && d in Pending(s, p.t) && d !in s.history.closed
    ensures p.Shut? ==> d in s.history.released && d in s.history.closed
  {
    match p
    case Live(_) =>
    case Waiting(_) =>
    case Owned(t, i) => ReleasedWasMade(s, d);
    case Shut(i) => ReleasedWasMade(s, d);
  }

  lemma ReleasedWasMade(s: State, d: DriverId)
    requires Custody(s) && (d in s.history.closed || exists t :: d in Pending(s, t))
    ensures d in s.made && d in s.history.released
  {
    var i :| 0 <= i < |s.history.released| && s.history.released[i] == d;
  }

  lemma PlaceUnique(s: State, d: DriverId, p: Place, q: Place)
    requires Custody(s) && Occupies(s, d, p) && Occupies(s, d, q)
    ensures p == q && d in s.made
  {
    PlaceTells(s, d, p);
    PlaceTells(s, d, q);
    if p.Owned? && q.Owned? {
      assert p.t == q.t;
    }
  }

  /**
   In every reachable state each driver ever made sits in exactly one place: live
   under one key, at one position of the stale list, at one position of what one
   running `CloseAll` has still to close, or at one position of the log of closings.
   */
  lemma {:induction false} EveryDriverInOnePlace(grace: int, clock: int, run: seq<Action>, s: State)
    requires Reaches(grace, Init(clock), run, s)
    ensures forall d :: d in s.made ==> exists p :: Occupies(s, d, p)
    ensures forall d, p, q :: Occupies(s, d, p) && Occupies(s, d, q) ==> p == q && d in s.made
  {
    CustodyAlways(grace, Init(clock), run, s);
    forall d | d in s.made
      ensures exists p :: Occupies(s, d, p)
    {
      var p := PlaceExists(s, d);
    }
    forall d, p, q | Occupies(s, d, p) && Occupies(s, d, q)
      ensures p == q && d in s.made
    {
      PlaceUnique(s, d, p, q);
    }
  }

  // ----- the grace period -----

  ghost predicate Timely(grace: int, s: State) {
    && (forall t :: PcOf(s, t).Timed? ==> PcOf(s, t).now <= s.clock)
    && RetiredTimely(grace, s)
    && ExpiredTimely(grace, s)
  }

  ghost predicate RetiredTimely(grace: int, s: State) {
    && (forall i :: 0 <= i < |s.stale| ==> RetiredFor(grace, s, s.stale[i]))
    && (forall d :: d in s.history.retiredAt ==> s.history.retiredAt[d] <= s.clock && d in s.made)
    && (forall k :: k in s.entries ==> s.entries[k] !in s.history.retiredAt)
  }

  ghost predicate ExpiredTimely(grace: int, s: State) {
    && (forall d :: d in s.history.expiredAt ==> ExpiredInTime(grace, s, d))
    && (forall d :: d in s.history.closed ==> d in s.history.expiredAt || d in s.history.swapped)
    && (forall t, d :: d in Pending(s, t) ==> d in s.history.swapped)
  }

  ghost predicate RetiredFor(grace: int, s: State, r: Stale<DriverId>) {
    r.entry in s.history.retiredAt && r.deadline == s.history.retiredAt[r.entry] + grace
  }

  ghost predicate ExpiredInTime(grace: int, s: State, d: DriverId) {
    d in s.history.retiredAt && d in s.history.expiredAt && d in s.history.released
    && s.history.retiredAt[d] + grace < s.history.expiredAt[d] <= s.clock
  }

  /** A record that `Reconcile` looks at: it was on the list, or has just been put there. */
  predicate Considered(grace: int, s: State, now: int, dropped: set<DriverId>, r: Stale<DriverId>) {
    r in s.stale || (r.entry in dropped && r.deadline == now + grace)
  }

  /** What the grace argument needs to know about one locked `Reconcile`. */
  ghost predicate Reconciled(grace: int, s: State, now: int, dropped: set<DriverId>, due: seq<DriverId>, s': State) {
    LeavesRest(s, now, dropped, due, s') && Sorts(grace, s, now, dropped, due, s')
  }

  ghost predicate LeavesRest(s: State, now: int, dropped: set<DriverId>, due: seq<DriverId>, s': State) {
    && now <= s.clock == s'.clock && s'.made == s.made
    && s'.history == s.history.(
      released := s.history.released + due,
      closed := s.history.closed + due,
      retiredAt := s.history.retiredAt + map d | d in dropped :: now,
      expiredAt := s.history.expiredAt + map d | d in due :: s.clock)
    && (forall u :: Pending(s', u) == Pending(s, u))
  }

  ghost predicate Sorts(grace: int, s: State, now: int, dropped: set<DriverId>, due: seq<DriverId>, s': State) {
    && (forall d :: d in dropped ==> d in s.made && d !in s.history.retiredAt && d !in s.history.released)
    && (forall k :: k in s'.entries ==> k in s.entries && s'.entries[k] == s.entries[k] && s.entries[k] !in dropped)
    && (forall i :: 0 <= i < |s'.stale| ==> Considered(grace, s, now, dropped, s'.stale[i]))
    && (forall d :: d in due ==> exists r :: Considered(grace, s, now, dropped, r) && Overdue(r, now) && r.entry == d)
  }

  lemma ListConsidered(grace: int, s: State, now: int, order: seq<Key>)
    requires forall i :: 0 <= i < |order| ==> order[i] in s.entries
    ensures forall r :: r in s.stale + Retire(s.entries, order, now + grace) ==>
              Considered(grace, s, now, Dropped(s, order), r)
  {
    forall r | r in Retire(s.entries, order, now + grace)
      ensures Considered(grace, s, now, Dropped(s, order), r)
    {
      var i :| 0 <= i < |order| && Retire(s.entries, order, now + grace)[i] == r;
      assert order[i] in order;
    }
  }

  lemma CompactionConsidered(grace: int, s: State, now: int, dropped: set<DriverId>, list: seq<Stale<DriverId>>)
    requires forall r :: r in list ==> Considered(grace, s, now, dropped, r)
    ensures forall i :: 0 <= i < |Retained(list, now)| ==> Considered(grace, s, now, dropped, Retained(list, now)[i])
    ensures forall d :: d in Due(list, now) ==>
              exists r :: Considered(grace, s, now, dropped, r) && Overdue(r, now) && r.entry == d
  {
    CompactionPartitions(list, now);
    assert forall i :: 0 <= i < |Retained(list, now)| ==> Retained(list, now)[i] in Retained(list, now);
    forall d | d in Due(list, now)
      ensures exists r :: Considered(grace, s, now, dropped, r) && Overdue(r, now) && r.entry == d
    {
      var r :| r in list && Overdue(r, now) && r.entry == d;
    }
  }

  lemma DroppedAreNew(grace: int, s: State, keep: set<Key>, order: seq<Key>)
    requires Custody(s) && Timely(grace, s) && RangeOrder(s.entries, keep, order)
    ensures forall d :: d in Dropped(s, order) ==> d in s.made && d !in s.history.retiredAt && d !in s.history.released
    ensures forall k :: k in s.entries && k in keep ==> s.entries[k] !in Dropped(s, order)
  {
    assert forall k :: k in order ==> k in s.entries && k !in keep;
  }

  lemma TimelyAfterLocked(grace: int, s: State, t: Thread, order: seq<Key>)
    requires Custody(s) && Timely(grace, s) && Enabled(s, LockedReconcile(t, order))
    ensures RetiredTimely(grace, ReconcileStep(grace, s, t, order))
    ensures ExpiredTimely(grace, ReconcileStep(grace, s, t, order))
  {
    var due := LockedReconciles(grace, s, t, order);
    TimelyAfterReconcile(grace, s, PcOf(s, t).now, Dropped(s, order), due, ReconcileStep(grace, s, t, order));
  }

  lemma LockedReconciles(grace: int, s: State, t: Thread, order: seq<Key>) returns (due: seq<DriverId>)
    requires Custody(s) && Timely(grace, s) && Enabled(s, LockedReconcile(t, order))
    ensures Reconciled(grace, s, PcOf(s, t).now, Dropped(s, order), due, ReconcileStep(grace, s, t, order))
  {
    var Timed(keep, now) := PcOf(s, t);
    var s', dropped := ReconcileStep(grace, s, t, order), Dropped(s, order);
    var list := s.stale + Retire(s.entries, order, now + grace);
    due := Due(list, now);
    assert LeavesRest(s, now, dropped, due, s') by {
      SamePending(s, s', t);
    }
    assert Sorts(grace, s, now, dropped, due, s') by {
      ListConsidered(grace, s, now, order);
      CompactionConsidered(grace, s, now, dropped, list);
      DroppedAreNew(grace, s, keep, order);
    }
  }

  lemma ConsideredIsRetired(
      grace: int, s: State, now: int, dropped: set<DriverId>, due: seq<DriverId>, s': State, r: Stale<DriverId>)
    requires Custody(s) && Timely(grace, s) && Reconciled(grace, s, now, dropped, due, s')
    requires Considered(grace, s, now, dropped, r)
    ensures RetiredFor(grace, s', r)
  {
    if r in s.stale {
      var i :| 0 <= i < |s.stale| && s.stale[i] == r;
      assert RetiredFor(grace, s, s.stale[i]);
    }
  }

  lemma TimelyAfterReconcile(grace: int, s: State, now: int, dropped: set<DriverId>, due: seq<DriverId>, s': State)
    requires Custody(s) && Timely(grace, s) && Reconciled(grace, s, now, dropped, due, s')
    ensures RetiredTimely(grace, s') && ExpiredTimely(grace, s')
  {
    forall i | 0 <= i < |s'.stale|
      ensures RetiredFor(grace, s', s'.stale[i])
    {
      ConsideredIsRetired(grace, s, now, dropped, due, s', s'.stale[i]);
    }
    forall d | d in s'.history.expiredAt
      ensures ExpiredInTime(grace, s', d)
    {
      if d in due {
        var r :| Considered(grace, s, now, dropped, r) && Overdue(r, now) && r.entry == d;
        ConsideredIsRetired(grace, s, now, dropped, due, s', r);
      } else {
        assert ExpiredInTime(grace, s, d);
      }
    }
  }

  /** A step that retires and closes nothing keeps the records in order. */
  lemma TimelyFrame(grace: int, s: State, s': State)
    requires RetiredTimely(grace, s) && ExpiredTimely(grace, s)
    requires s'.stale == s.stale && s.clock <= s'.clock && s.made <= s'.made
    requires forall k :: k in s'.entries ==> s'.entries[k] !in s.history.retiredAt
    requires forall t, d :: d in Pending(s', t) ==> d in s.history.swapped
    requires s'.history == s.history.(handed := s'.history.handed)
    ensures RetiredTimely(grace, s') && ExpiredTimely(grace, s')
  {
    assert forall d :: d in s.history.expiredAt ==> ExpiredInTime(grace, s, d);
    assert forall i :: 0 <= i < |s.stale| ==> RetiredFor(grace, s, s.stale[i]);
  }

  lemma TimelyAfterSwap(grace: int, s: State, t: Thread, order: seq<Key>)
    requires Custody(s) && Timely(grace, s) && Enabled(s, SwapAll(t, order))
    ensures Timely(grace, SwapStep(s, t, order))
  {
    var s' := SwapStep(s, t, order);
    assert forall u :: u != t ==> Pending(s', u) == Pending(s, u) && PcOf(s', u) == PcOf(s, u);
    assert forall d :: d in s.history.expiredAt ==> ExpiredInTime(grace, s, d);
  }

  lemma TimelyAfterClose(grace: int, s: State, t: Thread)
    requires Custody(s) && Timely(grace, s) && PcOf(s, t).Closing?
    ensures Timely(grace, CloseStep(s, t))
  {
    var s' := CloseStep(s, t);
    assert forall u :: u != t ==> Pending(s', u) == Pending(s, u) && PcOf(s', u) == PcOf(s, u);
    assert forall d :: d in s.history.expiredAt ==> ExpiredInTime(grace, s, d);
    assert forall i :: 0 <= i < |s.stale| ==> RetiredFor(grace, s, s.stale[i]);
    if Pending(s, t) != [] {
      assert Pending(s, t)[0] in Pending(s, t);
      assert Pending(s', t) == Pending(s, t)[1..];
    }
  }

  lemma TimelyKept(grace: int, s: State, a: Action)
    requires Custody(s) && Timely(grace, s) && Enabled(s, a)
    ensures Timely(grace, Apply(grace, s, a))
  {
    var s' := Apply(grace, s, a);
    match a
    case LockedReconcile(t, order) =>
      TimelyAfterLocked(grace, s, t, order);
      assert forall u :: u != t ==> PcOf(s', u) == PcOf(s, u);
    case SwapAll(t, order) => TimelyAfterSwap(grace, s, t, order);
    case CloseOne(t) => TimelyAfterClose(grace, s, t);
    case Tick(to) =>
      assert forall u :: Pending(s', u) == Pending(s, u) && PcOf(s', u) == PcOf(s, u);
      TimelyFrame(grace, s, s');
    case _ =>
      SamePending(s, s', a.t);
      assert forall u :: u != a.t ==> PcOf(s', u) == PcOf(s, u);
      TimelyFrame(grace, s, s');
  }

  lemma {:induction false} TimelyAlways(grace: int, s: State, run: seq<Action>, s': State)
    requires Custody(s) && Timely(grace, s) && Reaches(grace, s, run, s')
    ensures Custody(s') && Timely(grace, s')
    decreases |run|
  {
    if run != [] {
      CustodyKept(grace, s, run[0]);
      TimelyKept(grace, s, run[0]);
      TimelyAlways(grace, Apply(grace, s, run[0]), run[1..], s');
    }
  }

  /**
   Over every run: a driver is closed only by a `CloseAll` that took it over, or by
   a `Reconcile` more than the grace period after the clock reading that retired it.
   So whoever was handed the driver no later than that reading has the whole grace
   period to use it.
   */
  lemma {:induction false} GracePeriodHonoured(grace: int, clock: int, run: seq<Action>, s: State)
    requires Reaches(grace, Init(clock), run, s)
    ensures forall d :: d in s.history.closed && d !in s.history.swapped ==>
              d in s.history.retiredAt && d in s.history.expiredAt
              && s.history.retiredAt[d] + grace < s.history.expiredAt[d] <= s.clock
    ensures forall d, since :: (d, since) in s.history.handed && d in s.history.closed && d !in s.history.swapped
                               && since <= s.history.retiredAt[d] ==>
              since + grace < s.history.expiredAt[d]
  {
    TimelyAlways(grace, Init(clock), run, s);
    assert forall d :: d in s.history.expiredAt ==> ExpiredInTime(grace, s, d);
  }
}
