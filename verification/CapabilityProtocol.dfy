/**
 The capability cache under concurrent use: the cache is checked under the lock,
 the server is asked without it, the result is stored under the lock again.
 */
module CapabilityProtocol {
  import opened Prelude
  import opened Capability

  type Thread = nat

  datatype Pc = Idle | Asking | Answered(probe: Probe)

  datatype State = State(
    cache: Option<Caps>,
    pcs: map<Thread, Pc>,
    probes: seq<Probe>,             // finished, in order
    returned: seq<Option<Caps>>,    // results of the calls, in order
    invalidations: nat)

  datatype Action =
    | Check(t: Thread)
    | Ask(t: Thread, answer: Probe)
    | Store(t: Thread)
    | Invalidate

  const INITIAL := State(None, map[], [], [], 0)

  function PcOf(s: State, t: Thread): Pc {
    if t in s.pcs then s.pcs[t] else Idle
  }

  predicate Enabled(s: State, a: Action) {
    match a
    case Check(t) => PcOf(s, t) == Idle
    case Ask(t, _) => PcOf(s, t) == Asking
    case Store(t) => PcOf(s, t).Answered? && Derive(PcOf(s, t).probe).Some?
    case Invalidate => true
  }

  function Apply(s: State, a: Action): State
    requires Enabled(s, a)
  {
    match a
    case Check(t) =>
      if s.cache.Some? then s.(returned := s.returned + [s.cache]) else s.(pcs := s.pcs[t := Asking])
    case Ask(t, answer) =>
      if Derive(answer).None? then
        s.(pcs := s.pcs[t := Idle], probes := s.probes + [answer], returned := s.returned + [None])
      else
        s.(pcs := s.pcs[t := Answered(answer)], probes := s.probes + [answer])
    case Store(t) =>
      var found := Derive(PcOf(s, t).probe);
      s.(cache := found, pcs := s.pcs[t := Idle], returned := s.returned + [found])
    case Invalidate =>
      s.(cache := None, invalidations := s.invalidations + 1)
  }

  ghost predicate Reaches(s: State, run: seq<Action>, s': State)
    decreases |run|
  {
    if run == [] then s == s'
    else Enabled(s, run[0]) && Reaches(Apply(s, run[0]), run[1..], s')
  }

  /** `c` is what one of the probes from number `from` on said. */
  ghost predicate Probed(s: State, from: nat, c: Caps) {
    exists i :: from <= i < |s.probes| && Derive(s.probes[i]) == Some(c)
  }

  /** Whatever is cached, under way, or returned after the first `m` returns, was probed from number `from` on. */
  ghost predicate Sourced(s: State, from: nat, m: nat) {
    && from <= |s.probes| && m <= |s.returned|
    && (s.cache.Some? ==> Probed(s, from, s.cache.value))
    && (forall t :: PcOf(s, t).Answered? ==>
          Derive(PcOf(s, t).probe).Some? && Probed(s, from, Derive(PcOf(s, t).probe).value))
    && (forall i :: m <= i < |s.returned| && s.returned[i].Some? ==> Probed(s, from, s.returned[i].value))
  }

  lemma SourcedKept(s: State, a: Action, from: nat, m: nat)
    requires Sourced(s, from, m) && Enabled(s, a)
    ensures Sourced(Apply(s, a), from, m)
  {
    var s' := Apply(s, a);
    forall c | Probed(s, from, c)
      ensures Probed(s', from, c)
    {
      var i :| from <= i < |s.probes| && Derive(s.probes[i]) == Some(c);
      assert s'.probes[i] == s.probes[i];
    }
    if a.Ask? && Derive(a.answer).Some? {
      assert s'.probes[|s.probes|] == a.answer;
      assert Probed(s', from, Derive(a.answer).value);
    }
    if !a.Invalidate? {
      assert forall t :: t != a.t ==> PcOf(s', t) == PcOf(s, t);
    } else {
      assert forall t :: PcOf(s', t) == PcOf(s, t);
    }
  }

  lemma {:induction false} SourcedAlways(s: State, run: seq<Action>, s': State, from: nat, m: nat)
    requires Sourced(s, from, m) && Reaches(s, run, s')
    ensures Sourced(s', from, m)
    decreases |run|
  {
    if run != [] {
      SourcedKept(s, run[0], from, m);
      SourcedAlways(Apply(s, run[0]), run[1..], s', from, m);
    }
  }

  /**
   Over every interleaving, a call that succeeds returns the outcome of one complete
   probe of this entry, with the extended flag telling whether a monitor procedure was listed.
   */
  lemma {:induction false} EveryAnswerWasProbed(run: seq<Action>, s: State)
    requires Reaches(INITIAL, run, s)
    ensures forall i :: 0 <= i < |s.returned| && s.returned[i].Some? ==> Probed(s, 0, s.returned[i].value)
    ensures forall i :: 0 <= i < |s.returned| && s.returned[i].Some? ==>
              var c := s.returned[i].value;
              c.apocExtended == (c.monitorKernel || c.monitorStore || c.monitorTx || c.monitorIds)
    ensures s.cache.Some? ==> Probed(s, 0, s.cache.value)
  {
    SourcedAlways(INITIAL, run, s, 0, 0);
    forall i | 0 <= i < |s.returned| && s.returned[i].Some?
      ensures var c := s.returned[i].value;
              c.apocExtended == (c.monitorKernel || c.monitorStore || c.monitorTx || c.monitorIds)
    {
      var p :| 0 <= p < |s.probes| && Derive(s.probes[p]) == s.returned[i];
      ExtendedIsDisjunction(s.probes[p]);
    }
  }

  /** The cache changes in two ways only: it is emptied by an invalidation, or a successful probe is stored. */
  lemma {:induction false} CacheWrites(s: State, a: Action)
    requires Enabled(s, a) && Apply(s, a).cache != s.cache
    ensures a.Invalidate? || a.Store?
    ensures a.Invalidate? ==> Apply(s, a).cache == None
    ensures a.Store? ==> Derive(PcOf(s, a.t).probe).Some? && Apply(s, a).cache == Derive(PcOf(s, a.t).probe)
  {
  }

  /** Without an invalidation a full cache stays full; without a stored success it stays what it is. */
  lemma {:induction false} CacheStaysFull(s: State, run: seq<Action>, s': State)
    requires Reaches(s, run, s')
    requires forall i :: 0 <= i < |run| ==> !run[i].Invalidate?
    ensures s.cache.Some? ==> s'.cache.Some?
    ensures (forall i :: 0 <= i < |run| ==> !run[i].Store?) ==> s'.cache == s.cache
    decreases |run|
  {
    if run != [] {
      if Apply(s, run[0]).cache != s.cache {
        CacheWrites(s, run[0]);
      }
      CacheStaysFull(Apply(s, run[0]), run[1..], s');
    }
  }

  // ----- how often the server is asked -----

  function Successes(probes: seq<Probe>): nat {
    if probes == [] then 0
    else Successes(probes[..|probes| - 1]) + if Derive(probes[|probes| - 1]).Some? then 1 else 0
  }

  /** Calls do not overlap: each one begins when no other is under way. */
  ghost predicate Serial(s: State, run: seq<Action>)
    decreases |run|
  {
    run == []
    || (Enabled(s, run[0])
        && (run[0].Check? ==> forall t :: PcOf(s, t) == Idle)
        && Serial(Apply(s, run[0]), run[1..]))
  }

  /** At most one call is under way, and every success but the latest was paid for by an invalidation. */
  ghost predicate Economical(s: State) {
    && (forall t, u :: PcOf(s, t) != Idle && PcOf(s, u) != Idle ==> t == u)
    && (forall t :: PcOf(s, t) == Asking ==> Successes(s.probes) <= s.invalidations)
    && Successes(s.probes) <= s.invalidations
       + if s.cache.Some? || exists t :: PcOf(s, t).Answered? then 1 else 0
  }

  lemma EconomicalKept(s: State, a: Action)
    requires Economical(s) && Enabled(s, a)
    requires a.Check? ==> forall t :: PcOf(s, t) == Idle
    ensures Economical(Apply(s, a))
  {
    var s' := Apply(s, a);
    match a
    case Check(t) =>
      assert forall u :: u != t ==> PcOf(s', u) == PcOf(s, u);
    case Ask(t, answer) =>
      assert forall u :: u != t ==> PcOf(s', u) == PcOf(s, u);
      assert s'.probes[..|s'.probes| - 1] == s.probes;
      if Derive(answer).Some? {
        assert PcOf(s', t).Answered?;
      }
    case Store(t) =>
      assert forall u :: u != t ==> PcOf(s', u) == PcOf(s, u);
    case Invalidate =>
      assert forall u :: PcOf(s', u) == PcOf(s, u);
  }

  /** Without overlap the server is asked successfully at most once, and once more for each invalidation. */
  lemma {:induction false} SerialProbesOnce(s: State, run: seq<Action>, s': State)
    requires Economical(s) && Serial(s, run) && Reaches(s, run, s')
    ensures Economical(s') && Successes(s'.probes) <= s'.invalidations + 1
    decreases |run|
  {
    if run != [] {
      EconomicalKept(s, run[0]);
      SerialProbesOnce(Apply(s, run[0]), run[1..], s');
    }
  }

  lemma {:induction false} SerialProbesOncePerInvalidation(run: seq<Action>, s: State)
    requires Serial(INITIAL, run) && Reaches(INITIAL, run, s)
    ensures Successes(s.probes) <= s.invalidations + 1
  {
    SerialProbesOnce(INITIAL, run, s);
  }

  lemma {:induction false} OneMoreStep(s: State, run: seq<Action>, s': State, a: Action)
    requires Reaches(s, run, s') && Enabled(s', a)
    ensures Reaches(s, run + [a], Apply(s', a))
    decreases |run|
  {
    if run == [] {
      assert [a][1..] == [];
    } else {
      OneMoreStep(Apply(s, run[0]), run[1..], s', a);
      assert (run + [a])[1..] == run[1..] + [a];
    }
  }

  /** One step from the start state on. */
  lemma Do(run: seq<Action>, s: State, a: Action) returns (run': seq<Action>, s': State)
    requires Reaches(INITIAL, run, s) && Enabled(s, a)
    ensures Reaches(INITIAL, run', s') && run' == run + [a] && s' == Apply(s, a)
  {
    OneMoreStep(INITIAL, run, s, a);
    run', s' := run + [a], Apply(s, a);
  }

  /** Two first calls both find the cache empty. */
  lemma BothAsk() returns (run: seq<Action>, s: State)
    ensures Reaches(INITIAL, run, s)
    ensures s == INITIAL.(pcs := map[0 := Asking, 1 := Asking])
  {
    run, s := Do([], INITIAL, Check(0));
    run, s := Do(run, s, Check(1));
    assert s.pcs == map[0 := Asking, 1 := Asking];
  }

  lemma BothAreAnswered(p: Probe, q: Probe) returns (run: seq<Action>, s: State)
    requires Derive(p).Some? && Derive(q).Some?
    ensures Reaches(INITIAL, run, s)
    ensures s == INITIAL.(pcs := map[0 := Answered(p), 1 := Answered(q)], probes := [p, q])
  {
    run, s := BothAsk();
    run, s := Do(run, s, Ask(0, p));
    run, s := Do(run, s, Ask(1, q));
    assert s.pcs == map[0 := Answered(p), 1 := Answered(q)];
  }

  lemma TwoSuccesses(p: Probe, q: Probe)
    requires Derive(p).Some? && Derive(q).Some?
    ensures Successes([p, q]) == 2
  {
    var both, one := [p, q], [p];
    assert both[..1] == one && one[..0] == [];
    assert Successes(one) == 1;
  }

  /** With overlap two first calls both ask, and can return different answers. */
  lemma {:induction false} OverlappingCallsBothProbe(p: Probe, q: Probe) returns (run: seq<Action>, s: State)
    requires Derive(p).Some? && Derive(q).Some?
    ensures Reaches(INITIAL, run, s) && s.invalidations == 0
    ensures Successes(s.probes) == 2 && s.returned == [Derive(p), Derive(q)] && s.cache == Derive(q)
  {
    run, s := BothAreAnswered(p, q);
    run, s := Do(run, s, Store(0));
    run, s := Do(run, s, Store(1));
    TwoSuccesses(p, q);
  }

  // ----- what an invalidation achieves -----

  /** Everything returned after invalidating `s`, in whatever continuation, comes from a probe finished after it. */
  ghost predicate InvalidationTakesEffect(s: State) {
    forall run, s', i ::
      Reaches(Apply(s, Invalidate), run, s') && |s.returned| <= i < |s'.returned| && s'.returned[i].Some? ==>
        Probed(s', |s.probes|, s'.returned[i].value)
  }

  /** An invalidation is lost exactly when some call has been answered and has yet to store. */
  lemma {:induction false} InvalidationEffectiveIff(s: State)
    requires Sourced(s, 0, 0)
    ensures InvalidationTakesEffect(s) <==> forall t :: !PcOf(s, t).Answered?
  {
    var cleared := Apply(s, Invalidate);
    assert forall t :: PcOf(cleared, t) == PcOf(s, t);
    if t :| PcOf(s, t).Answered? {
      var run := [Store(t)];
      var s' := Apply(cleared, Store(t));
      assert run[1..] == [];
      assert Reaches(cleared, run, s');
      assert s'.returned[|s.returned|] == Derive(PcOf(s, t).probe);
      assert !Probed(s', |s.probes|, s'.returned[|s.returned|].value);
    } else {
      forall run, s', i
        | Reaches(cleared, run, s') && |s.returned| <= i < |s'.returned| && s'.returned[i].Some?
        ensures Probed(s', |s.probes|, s'.returned[i].value)
      {
        SourcedAlways(cleared, run, s', |s.probes|, |s.returned|);
      }
    }
  }

  /** The state after a first call has been answered can be reached, and an invalidation there is lost. */
  lemma {:induction false} InvalidationLost(p: Probe) returns (run: seq<Action>, s: State)
    requires Derive(p).Some?
    ensures Reaches(INITIAL, run, s) && run == [Check(0), Ask(0, p)]
    ensures !InvalidationTakesEffect(s)
  {
    run, s := Do([], INITIAL, Check(0));
    run, s := Do(run, s, Ask(0, p));
    SourcedAlways(INITIAL, run, s, 0, 0);
    InvalidationEffectiveIff(s);
    assert PcOf(s, 0).Answered?;
  }
}
