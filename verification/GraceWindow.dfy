/** How far the grace period reaches, and when the closing it announces really happens. */
module GraceWindow {
  import opened PoolSpec
  import opened PoolProtocol

  lemma {:induction false} OneMoreStep(grace: int, s: State, run: seq<Action>, s': State, a: Action)
    requires Reaches(grace, s, run, s') && Enabled(s', a)
    ensures Reaches(grace, s, run + [a], Apply(grace, s', a))
    decreases |run|
  {
    if run == [] {
      assert [a][1..] == [];
    } else {
      OneMoreStep(grace, Apply(grace, s, run[0]), run[1..], s', a);
      assert (run + [a])[1..] == run[1..] + [a];
    }
  }

  ghost predicate HandedAndExpired(s: State, d: DriverId, since: int, r: int, closing: int) {
    && (d, since) in s.history.handed && d in s.history.closed && d !in s.history.swapped
    && d in s.history.retiredAt && s.history.retiredAt[d] == r
    && d in s.history.expiredAt && s.history.expiredAt[d] == closing
  }

  /** In every run, a driver handed out at `since` and retired at `r` is closed only after `since` + grace. */
  ghost predicate WindowSafe(grace: int, r: int, since: int) {
    forall clock, run, s, d, closing ::
      Reaches(grace, Init(clock), run, s) && HandedAndExpired(s, d, since, r, closing) ==> since + grace < closing
  }

  lemma FirstProbe(grace: int, r: int) returns (run: seq<Action>, s: State)
    ensures Reaches(grace, Init(r), run, s)
    ensures s == Init(r).(entries := map["k" := 0], made := {0}, pcs := map[0 := Idle], history := s.history)
    ensures s.history == Init(r).history.(handed := {(0, r)})
  {
    run, s := [], Init(r);
    run, s := Do(grace, Init(r), run, s, HashForGet(0, "k"));
    run, s := Do(grace, Init(r), run, s, LockedGet(0, 0));
    assert s.pcs == map[0 := Idle] && s.entries == map["k" := 0];
  }

  /** A reload has read the clock at `r`; before it takes the lock, a probe is handed the driver at `since`. */
  lemma LateProbe(grace: int, r: int, since: int) returns (run: seq<Action>, s: State)
    requires r <= since
    ensures Reaches(grace, Init(r), run, s)
    ensures s.clock == since && s.entries == map["k" := 0] && s.stale == [] && PcOf(s, 1) == Timed({}, r)
    ensures (0, since) in s.history.handed
    ensures s.history.swapped == {} && s.history.retiredAt == map[] && s.history.expiredAt == map[]
  {
    run, s := FirstProbe(grace, r);
    run, s := Do(grace, Init(r), run, s, HashTargets(1, {}));
    run, s := Do(grace, Init(r), run, s, ReadClock(1));
    run, s := Do(grace, Init(r), run, s, Tick(since));
    run, s := Do(grace, Init(r), run, s, HashForGet(0, "k"));
    run, s := Do(grace, Init(r), run, s, LockedGet(0, 1));
    assert s.entries == map["k" := 0];
  }

  lemma Do(grace: int, start: State, run: seq<Action>, s: State, a: Action) returns (run': seq<Action>, s': State)
    requires Reaches(grace, start, run, s) && Enabled(s, a)
    ensures Reaches(grace, start, run', s') && s' == Apply(grace, s, a)
  {
    OneMoreStep(grace, start, run, s, a);
    run', s' := run + [a], Apply(grace, s, a);
  }

  /** A compaction of one record. */
  lemma OneRecord(r: Stale<DriverId>, now: int)
    ensures Retained([r], now) == if Overdue(r, now) then [] else [r]
    ensures Due([r], now) == if Overdue(r, now) then [r.entry] else []
  {
    assert RetainedTo([r], 0, now) == [] && DueTo([r], 0, now) == [];
  }

  lemma RetireEffect(grace: int, s: State, r: int)
    requires 0 <= grace && s.entries == map["k" := 0] && s.stale == [] && PcOf(s, 1) == Timed({}, r)
    requires s.history.retiredAt == map[] && s.history.expiredAt == map[]
    ensures Enabled(s, LockedReconcile(1, ["k"]))
    ensures var s' := ReconcileStep(grace, s, 1, ["k"]);
            && s' == s.(entries := map[], stale := [Stale(0, r + grace)], pcs := s.pcs[1 := Idle],
                        history := s'.history)
            && s'.history == s.history.(retiredAt := map[0 := r])
  {
    assert s.stale + Retire(s.entries, ["k"], r + grace) == [Stale(0, r + grace)];
    assert Dropped(s, ["k"]) == {0} by {
      assert "k" in ["k"];
    }
    OneRecord(Stale(0, r + grace), r);
    var h := ReconcileStep(grace, s, 1, ["k"]).history;
    assert h.retiredAt == map[0 := r] && h.expiredAt == map[];
    assert h.released == s.history.released && h.closed == s.history.closed;
  }

  lemma ExpireEffect(grace: int, s: State, deadline: int, now: int)
    requires deadline < now && s.entries == map[] && s.stale == [Stale(0, deadline)] && PcOf(s, 1) == Timed({}, now)
    requires s.history.expiredAt == map[]
    ensures Enabled(s, LockedReconcile(1, []))
    ensures var h := ReconcileStep(grace, s, 1, []).history;
            && h.closed == s.history.closed + [0] && h.expiredAt == map[0 := s.clock]
            && h.handed == s.history.handed && h.swapped == s.history.swapped && h.retiredAt == s.history.retiredAt
  {
    assert s.stale + Retire(s.entries, [], now + grace) == [Stale(0, deadline)];
    assert Dropped(s, []) == {};
    OneRecord(Stale(0, deadline), now);
    var h := ReconcileStep(grace, s, 1, []).history;
    assert h.expiredAt == map[0 := s.clock] by {
      assert 0 in [0];
    }
    assert h.retiredAt == s.history.retiredAt;
  }

  /** The reload then retires the driver with the old reading. */
  lemma LateRetire(grace: int, r: int, since: int) returns (run: seq<Action>, s: State)
    requires 0 <= grace && r <= since
    ensures Reaches(grace, Init(r), run, s)
    ensures s.clock == since && s.entries == map[] && s.stale == [Stale(0, r + grace)] && PcOf(s, 1) == Idle
    ensures (0, since) in s.history.handed && s.history.swapped == {}
    ensures s.history.retiredAt == map[0 := r] && s.history.expiredAt == map[]
  {
    run, s := LateProbe(grace, r, since);
    RetireEffect(grace, s, r);
    run, s := Do(grace, Init(r), run, s, LockedReconcile(1, ["k"]));
  }

  /** A later reload closes it too soon. */
  lemma {:induction false} ClosedTooSoon(grace: int, r: int, since: int)
    returns (run: seq<Action>, s: State, closing: int)
    requires 0 <= grace && r < since
    ensures Reaches(grace, Init(r), run, s) && HandedAndExpired(s, 0, since, r, closing)
    ensures closing <= since + grace
  {
    closing := if since <= r + grace then r + grace + 1 else since;
    run, s := LateRetire(grace, r, since);
    run, s := Do(grace, Init(r), run, s, HashTargets(1, {}));
    run, s := Do(grace, Init(r), run, s, Tick(closing));
    run, s := Do(grace, Init(r), run, s, ReadClock(1));
    ExpireEffect(grace, s, r + grace, closing);
    run, s := Do(grace, Init(r), run, s, LockedReconcile(1, []));
  }

  /**
   The documented drain window covers exactly the probes that got their driver no
   later than the clock reading of the reload. A probe that gets it between that
   reading and the lock can see it closed inside the window.
   */
  lemma {:induction false} WindowSafeIff(grace: int, r: int, since: int)
    requires 0 <= grace
    ensures WindowSafe(grace, r, since) <==> since <= r
  {
    if since <= r {
      forall clock, run, s, d, closing
        | Reaches(grace, Init(clock), run, s) && HandedAndExpired(s, d, since, r, closing)
        ensures since + grace < closing
      {
        GracePeriodHonoured(grace, clock, run, s);
      }
    } else {
      var run, s, closing := ClosedTooSoon(grace, r, since);
    }
  }

  predicate ClosesDrivers(a: Action) {
    a.LockedReconcile? || a.CloseOne?
  }

  /**
   Nothing is closed by the passing of time: whatever else happens, a retired
   driver stays open until the next `Reconcile`, or until a `CloseAll` gets to it.
   */
  lemma {:induction false} OnlyReloadsClose(grace: int, s: State, run: seq<Action>, s': State)
    requires Reaches(grace, s, run, s')
    requires forall i :: 0 <= i < |run| ==> !ClosesDrivers(run[i])
    ensures s'.history.closed == s.history.closed
    decreases |run|
  {
    if run != [] {
      OnlyReloadsClose(grace, Apply(grace, s, run[0]), run[1..], s');
    }
  }

  /** And at that `Reconcile` exactly the records whose deadline its reading has passed are closed. */
  lemma {:induction false} NextReloadCloses(grace: int, s: State, t: Thread, order: seq<Key>, r: Stale<DriverId>)
    requires Custody(s) && Enabled(s, LockedReconcile(t, order)) && r in s.stale
    ensures r.entry in ReconcileStep(grace, s, t, order).history.closed <==> r.deadline < PcOf(s, t).now
  {
    var Timed(keep, now) := PcOf(s, t);
    var list := s.stale + Retire(s.entries, order, now + grace);
    RetirePlaced(s.entries, s.stale, keep, order, now + grace);
    var i :| 0 <= i < |s.stale| && s.stale[i] == r;
    assert r.entry !in s.history.closed;
    DueByRecord(list, now, i);
  }
  // ----- when a retired driver is closed -----

  /** Some locked `Reconcile` of the run had read a clock that was past the deadline. */
  ghost predicate PassedBy(grace: int, s: State, run: seq<Action>, deadline: int)
    decreases |run|
  {
    run != [] && Enabled(s, run[0])
    && (Passes(s, run[0], deadline) || PassedBy(grace, Apply(grace, s, run[0]), run[1..], deadline))
  }

  predicate Passes(s: State, a: Action, deadline: int) {
    a.LockedReconcile? && PcOf(s, a.t).Timed? && deadline < PcOf(s, a.t).now
  }

  lemma StaysStale(grace: int, s: State, a: Action, r: Stale<DriverId>)
    requires Enabled(s, a) && !a.SwapAll? && r in s.stale && !Passes(s, a, r.deadline)
    ensures r in Apply(grace, s, a).stale
  {
    if a.LockedReconcile? {
      var now := PcOf(s, a.t).now;
      CompactionPartitions(s.stale + Retire(s.entries, a.order, now + grace), now);
    }
  }

  lemma {:induction false} ClosedGrows(grace: int, s: State, run: seq<Action>, u: State)
    requires Reaches(grace, s, run, u)
    ensures s.history.closed <= u.history.closed
    decreases |run|
  {
    if run != [] {
      ClosedGrows(grace, Apply(grace, s, run[0]), run[1..], u);
    }
  }

  lemma StaleIsOpen(s: State, r: Stale<DriverId>)
    requires Custody(s) && r in s.stale
    ensures r.entry !in s.history.closed
  {
    var i :| 0 <= i < |s.stale| && s.stale[i] == r;
    PlaceTells(s, r.entry, Waiting(i));
  }

  /**
   Over every run without a shutdown: a retired driver ends up closed exactly when some
   reconcile in between had a clock reading past its deadline. Time alone closes nothing.
   */
  lemma {:induction false} RetiredClosedIff(grace: int, s: State, run: seq<Action>, u: State, r: Stale<DriverId>)
    requires Custody(s) && r in s.stale && Reaches(grace, s, run, u)
    requires forall i :: 0 <= i < |run| ==> !run[i].SwapAll?
    ensures r.entry in u.history.closed <==> PassedBy(grace, s, run, r.deadline)
    decreases |run|
  {
    if run == [] {
      StaleIsOpen(s, r);
    } else {
      var next := Apply(grace, s, run[0]);
      if Passes(s, run[0], r.deadline) {
        NextReloadCloses(grace, s, run[0].t, run[0].order, r);
        ClosedGrows(grace, next, run[1..], u);
      } else {
        CustodyKept(grace, s, run[0]);
        StaysStale(grace, s, run[0], r);
        RetiredClosedIff(grace, next, run[1..], u, r);
      }
    }
  }

  /** However late: a driver retired at `r` that no one has closed. */
  lemma {:induction false} OpenPastDeadline(grace: int, r: int, late: int) returns (run: seq<Action>, s: State)
    requires 0 <= grace && r <= late
    ensures Reaches(grace, Init(r), run, s) && s.clock == late
    ensures s.stale == [Stale(0, r + grace)] && 0 !in s.history.closed && s.history.retiredAt == map[0 := r]
  {
    run, s := LateRetire(grace, r, r);
    run, s := Do(grace, Init(r), run, s, Tick(late));
    CustodyAlways(grace, Init(r), run, s);
    assert Stale(0, r + grace) in s.stale;
    StaleIsOpen(s, Stale(0, r + grace));
  }
}
