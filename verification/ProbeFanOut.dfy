/**
 One probe: which collectors run (`selectCollectors`), and the goroutines that run
 them side by side until `wg.Wait` returns. A goroutine is a sequence of atomic
 steps. `recordError` takes no lock; it is modelled both as one step and as the
 nil check, the allocation, the load of the map and the write that it consists of.
 */
module ProbeFanOut {
  import opened Prelude
  import opened Schema
  import opened Capability
  import CapabilityProtocol

  type Name = string
  type Err = string

  const BOLT: Name := "bolt"

  // ----- selection -----

  function ProcedureOf(name: Name): Option<string> {
    match name
    case "apoc_kernel" => Some("apoc.monitor.kernel")
    case "apoc_store" => Some("apoc.monitor.store")
    case "apoc_tx" => Some("apoc.monitor.tx")
    case "apoc_ids" => Some("apoc.monitor.ids")
    case "apoc_meta" => Some("apoc.meta.stats")
    case _ => None
  }

  function Flag(name: Name, caps: Caps): bool {
    match name
    case "apoc_kernel" => caps.monitorKernel
    case "apoc_store" => caps.monitorStore
    case "apoc_tx" => caps.monitorTx
    case "apoc_ids" => caps.monitorIds
    case "apoc_meta" => caps.metaStats
    case _ => true
  }

  predicate Wanted(name: Name, m: Module, caps: Caps, hasJolokia: bool) {
    && name in m.collectors
    && m.collectors[name] != Disabled
    && (ProcedureOf(name).Some? && m.collectors[name] == Auto ==> Flag(name, caps))
    && (name == "jolokia" ==> hasJolokia)
  }

  /** The collectors that `auto` makes depend on a procedure. */
  const APOC: set<Name> := {"apoc_kernel", "apoc_store", "apoc_tx", "apoc_ids", "apoc_meta"}

  predicate Toggled(n: Name, registered: set<Name>, m: Module, mode: EnableMode) {
    n in registered && n in m.collectors && m.collectors[n] == mode
  }

  /** What the toggles promise of the collectors that run. */
  ghost predicate Selection(out: set<Name>, registered: set<Name>, m: Module, caps: Caps, hasJolokia: bool) {
    && (forall n :: n in out ==> n in registered && n in m.collectors && m.collectors[n] != EnableMode.Disabled)
    && (forall n :: Toggled(n, registered, m, EnableMode.Enabled) && n != "jolokia" ==> n in out)
    && (forall n :: Toggled(n, registered, m, EnableMode.Auto) && n != "jolokia" && n !in APOC ==> n in out)
    && (Toggled("jolokia", registered, m, EnableMode.Enabled) || Toggled("jolokia", registered, m, EnableMode.Auto) ==>
          ("jolokia" in out <==> hasJolokia))
    && (Toggled("apoc_kernel", registered, m, EnableMode.Auto) ==> ("apoc_kernel" in out <==> caps.monitorKernel))
    && (Toggled("apoc_store", registered, m, EnableMode.Auto) ==> ("apoc_store" in out <==> caps.monitorStore))
    && (Toggled("apoc_tx", registered, m, EnableMode.Auto) ==> ("apoc_tx" in out <==> caps.monitorTx))
    && (Toggled("apoc_ids", registered, m, EnableMode.Auto) ==> ("apoc_ids" in out <==> caps.monitorIds))
    && (Toggled("apoc_meta", registered, m, EnableMode.Auto) ==> ("apoc_meta" in out <==> caps.metaStats))
  }

  /** The toggles, capabilities and target decide the selection: no two sets meet the promise. */
  lemma {:induction false} SelectionIsUnique(
      a: set<Name>, b: set<Name>, registered: set<Name>, m: Module, caps: Caps, hasJolokia: bool)
    requires Selection(a, registered, m, caps, hasJolokia) && Selection(b, registered, m, caps, hasJolokia)
    ensures a == b
  {
    forall n
      ensures n in a <==> n in b
    {
      if n in m.collectors {
        assert Toggled(n, registered, m, m.collectors[n]) <==> n in registered;
      }
    }
  }

  lemma WantedIsSelected(out: set<Name>, registered: set<Name>, m: Module, caps: Caps, hasJolokia: bool)
    requires forall n :: n in out <==> n in registered && Wanted(n, m, caps, hasJolokia)
    ensures Selection(out, registered, m, caps, hasJolokia)
  {
  }

  /** `registered` is ranged over in an arbitrary order. */
  method SelectCollectors(registered: set<Name>, m: Module, caps: Caps, hasJolokia: bool) returns (out: seq<Name>)
    ensures forall i, j :: 0 <= i < j < |out| ==> out[i] != out[j]
    ensures forall n :: n in out <==> n in registered && Wanted(n, m, caps, hasJolokia)
    ensures Selection((set n | n in out), registered, m, caps, hasJolokia)
  {
    out := [];
    var unvisited := registered;
    while unvisited != {}
      invariant unvisited <= registered
      invariant forall i, j :: 0 <= i < j < |out| ==> out[i] != out[j]
      invariant forall n :: n in out <==> n in registered && n !in unvisited && Wanted(n, m, caps, hasJolokia)
      decreases unvisited
    {
      var name :| name in unvisited;
      unvisited := unvisited - {name};
      if name !in m.collectors || m.collectors[name] == Disabled {
        continue;
      }
      if ProcedureOf(name).Some? {
        if m.collectors[name] == Auto && !Flag(name, caps) {
          continue;
        }
      } else if name == "jolokia" && !hasJolokia {
        continue;
      }
      out := out + [name];
    }
    WantedIsSelected((set n | n in out), registered, m, caps, hasJolokia);
  }

  /** The capabilities a probe works with: none when the server could not be asked. */
  function CapsOrNone(answer: Option<Caps>): Caps {
    if answer.Some? then answer.value else NO_CAPS
  }

  predicate ApocOnAuto(name: Name, m: Module) {
    ProcedureOf(name).Some? && name in m.collectors && m.collectors[name] == Auto
  }

  /** The APOC collectors on `auto` are selected just as one probe listed their procedures. */
  ghost predicate Follows(m: Module, caps: Caps, hasJolokia: bool, p: Probe) {
    forall name :: ApocOnAuto(name, m) ==> (Wanted(name, m, caps, hasJolokia) <==> Listed(p, ProcedureOf(name).value))
  }

  /**
   However calls for the capabilities interleave: on an answer, a single probe of the entry
   decides which APOC collectors on `auto` run; without one, none of them does.
   */
  lemma {:induction false} AutoSelectedIffListed(
      run: seq<CapabilityProtocol.Action>, s: CapabilityProtocol.State, i: nat, m: Module, hasJolokia: bool)
    requires CapabilityProtocol.Reaches(CapabilityProtocol.INITIAL, run, s) && i < |s.returned|
    ensures s.returned[i].Some? ==>
              exists k :: 0 <= k < |s.probes| && Follows(m, CapsOrNone(s.returned[i]), hasJolokia, s.probes[k])
    ensures s.returned[i].None? ==>
              forall name :: ApocOnAuto(name, m) ==> !Wanted(name, m, CapsOrNone(s.returned[i]), hasJolokia)
  {
    CapabilityProtocol.EveryAnswerWasProbed(run, s);
    if s.returned[i].Some? {
      var k :| 0 <= k < |s.probes| && Derive(s.probes[k]) == Some(s.returned[i].value);
      DerivedFollows(m, s.probes[k], s.returned[i].value, hasJolokia);
    }
  }

  lemma DerivedFollows(m: Module, p: Probe, caps: Caps, hasJolokia: bool)
    requires Derive(p) == Some(caps)
    ensures Follows(m, caps, hasJolokia, p)
  {
  }

  // ----- the goroutines -----

  datatype Pc =
    | Ready
    | Collected           // Collect has returned
    | Timed               // duration gauge set
    | Failing             // success gauge set to 0, error not yet recorded
    | NilSeen             // recordError: the map was nil
    | Checked             // recordError: past the nil check
    | Loaded(m: nat)      // recordError: about to write into map number m
    | Done

  datatype State = State(
    script: map<Name, Option<Err>>,   // the selected collectors and what Collect returns for each
    pcs: map<Name, Pc>,
    upDecided: bool,
    up: bool,
    duration: map<Name, int>,
    success: map<Name, int>,
    maps: seq<map<Name, Err>>,        // every error map allocated so far
    errors: Option<nat>,              // which of them ProbeResult.Errors points to
    result: Option<int>)              // Up, read after the join

  datatype Action =
    | Collect(c: Name)
    | SetDuration(c: Name, elapsed: int)
    | SetSuccess(c: Name)
    | Record(c: Name)
    | CheckNil(c: Name)
    | Allocate(c: Name)
    | Load(c: Name)
    | Write(c: Name)
    | Join

  /** Is `recordError` one step, or its four? */
  datatype Mode = Atomic | Split

  function Init(script: map<Name, Option<Err>>): State {
    State(script, map c | c in script :: Ready, false, false, map[], map[], [], None, None)
  }

  predicate At(s: State, c: Name, pc: Pc) {
    c in s.script && c in s.pcs && s.pcs[c] == pc
  }

  predicate Enabled(mode: Mode, s: State, a: Action) {
    match a
    case Collect(c) => At(s, c, Ready)
    case SetDuration(c, _) => At(s, c, Collected)
    case SetSuccess(c) => At(s, c, Timed)
    case Record(c) =>
      mode == Atomic && At(s, c, Failing) && s.script[c].Some? && (s.errors.Some? ==> s.errors.value < |s.maps|)
    case CheckNil(c) => mode == Split && At(s, c, Failing)
    case Allocate(c) => mode == Split && At(s, c, NilSeen)
    case Load(c) => mode == Split && At(s, c, Checked) && s.errors.Some?
    case Write(c) =>
      mode == Split && c in s.script && c in s.pcs && s.pcs[c].Loaded? && s.script[c].Some? && s.pcs[c].m < |s.maps|
    case Join => s.result.None? && forall c :: c in s.script ==> At(s, c, Done)
  }

  /** `ProbeContext.Up`. */
  function Up(s: State): int {
    if s.upDecided && s.up then 1 else 0
  }

  /** Where the goroutine that takes the step gets to. */
  function NextPc(s: State, a: Action): Pc
    requires !a.Join? && a.c in s.script && a.c in s.pcs
  {
    match a
    case Collect(_) => Collected
    case SetDuration(_, _) => Timed
    case SetSuccess(c) => if s.script[c].None? then Done else Failing
    case CheckNil(_) => if s.errors.None? then NilSeen else Checked
    case Allocate(_) => Checked
    case Load(_) => if s.errors.Some? then Loaded(s.errors.value) else Checked
    case _ => Done
  }

  /** What the step does to the state that the goroutines share. */
  function Effect(mode: Mode, s: State, a: Action): State
    requires Enabled(mode, s, a)
  {
    match a
    case Collect(c) =>
      // The bolt collector alone signals: up as its last act on success, down before it returns an error.
      if c == BOLT then s.(upDecided := true, up := s.script[c].None?) else s
    case SetDuration(c, elapsed) => s.(duration := s.duration[c := elapsed])
    case SetSuccess(c) => s.(success := s.success[c := if s.script[c].None? then 1 else 0])
    case Record(c) =>
      if s.errors.None? then s.(maps := s.maps + [map[c := s.script[c].value]], errors := Some(|s.maps|))
      else s.(maps := s.maps[s.errors.value := s.maps[s.errors.value][c := s.script[c].value]])
    case Allocate(_) => s.(maps := s.maps + [map[]], errors := Some(|s.maps|))
    case Write(c) => s.(maps := s.maps[s.pcs[c].m := s.maps[s.pcs[c].m][c := s.script[c].value]])
    case Join => s.(result := Some(Up(s)))
    case _ => s
  }

  function Apply(mode: Mode, s: State, a: Action): State
    requires Enabled(mode, s, a)
  {
    if a.Join? then Effect(mode, s, a) else Effect(mode, s, a).(pcs := s.pcs[a.c := NextPc(s, a)])
  }

  ghost predicate Reaches(mode: Mode, s: State, run: seq<Action>, s': State)
    decreases |run|
  {
    if run == [] then s == s'
    else Enabled(mode, s, run[0]) && Reaches(mode, Apply(mode, s, run[0]), run[1..], s')
  }

  /** `ProbeResult.Errors` as a reader sees it. */
  function Errors(s: State): map<Name, Err> {
    if s.errors.Some? && s.errors.value < |s.maps| then s.maps[s.errors.value] else map[]
  }

  /** What it is meant to hold. */
  function Failures(script: map<Name, Option<Err>>): map<Name, Err> {
    map c | c in script && script[c].Some? :: script[c].value
  }

  // ----- gauges and the up flag -----

  predicate PastCollect(s: State, c: Name) {
    c in s.pcs && s.pcs[c] != Ready
  }

  predicate PastDuration(s: State, c: Name) {
    PastCollect(s, c) && s.pcs[c] != Collected
  }

  predicate PastSuccess(s: State, c: Name) {
    PastDuration(s, c) && s.pcs[c] != Timed
  }

  /** The gauges of one collector tell how far it is. */
  predicate GaugeAt(s: State, c: Name) {
    && (c in s.duration <==> PastDuration(s, c))
    && (c in s.success <==> PastSuccess(s, c))
    && (c in s.success && c in s.script ==> s.success[c] == if s.script[c].None? then 1 else 0)
  }

  ghost predicate Gauged(s: State) {
    s.pcs.Keys == s.script.Keys && forall c :: GaugeAt(s, c)
  }

  ghost predicate Signalled(s: State) {
    && (s.upDecided <==> PastCollect(s, BOLT))
    && (s.upDecided ==> BOLT in s.script && (s.up <==> s.script[BOLT].None?))
    && (s.result.Some? ==> s.result == Some(Up(s)) && forall c :: c in s.script ==> At(s, c, Done))
  }

  lemma OthersStay(mode: Mode, s: State, a: Action)
    requires s.pcs.Keys == s.script.Keys && Enabled(mode, s, a) && !a.Join?
    ensures var s' := Apply(mode, s, a);
            && s'.pcs.Keys == s.pcs.Keys && s'.script == s.script
            && forall c :: c in s.pcs && c != a.c ==> s'.pcs[c] == s.pcs[c]
  {
    assert Apply(mode, s, a).pcs.Keys == s.pcs.Keys;
  }

  lemma GaugeElsewhere(mode: Mode, s: State, a: Action, c: Name)
    requires GaugeAt(s, c) && Enabled(mode, s, a) && (a.Join? || a.c != c)
    ensures GaugeAt(Apply(mode, s, a), c)
  {
  }

  lemma GaugeHere(mode: Mode, s: State, a: Action)
    requires !a.Join? && Enabled(mode, s, a) && GaugeAt(s, a.c)
    ensures GaugeAt(Apply(mode, s, a), a.c)
  {
    var c, s' := a.c, Apply(mode, s, a);
    match a
    case Collect(_) => assert s'.duration == s.duration && s'.success == s.success && s'.pcs[c] == Collected;
    case SetDuration(_, _) => assert s'.success == s.success && c in s'.duration && s'.pcs[c] == Timed;
    case SetSuccess(_) => assert s'.duration == s.duration && c in s'.success && s'.pcs[c] in {Done, Failing};
    case Join =>
    case _ => assert s'.duration == s.duration && s'.success == s.success && PastSuccess(s', c);
  }

  lemma GaugedKept(mode: Mode, s: State, a: Action)
    requires Gauged(s) && Enabled(mode, s, a)
    ensures Gauged(Apply(mode, s, a)) && Apply(mode, s, a).script == s.script
  {
    if !a.Join? {
      OthersStay(mode, s, a);
    }
    forall c
      ensures GaugeAt(Apply(mode, s, a), c)
    {
      if a.Join? || a.c != c {
        GaugeElsewhere(mode, s, a, c);
      } else {
        GaugeHere(mode, s, a);
      }
    }
  }

  lemma SignalledKept(mode: Mode, s: State, a: Action)
    requires Gauged(s) && Signalled(s) && Enabled(mode, s, a)
    ensures Signalled(Apply(mode, s, a))
  {
    if !a.Join? {
      OthersStay(mode, s, a);
      assert s.result.Some? ==> At(s, a.c, Done);
    }
  }

  lemma {:induction false} GaugedAlways(mode: Mode, s: State, run: seq<Action>, s': State)
    requires Gauged(s) && Signalled(s) && Reaches(mode, s, run, s')
    ensures Gauged(s') && Signalled(s') && s'.script == s.script
    decreases |run|
  {
    if run != [] {
      GaugedKept(mode, s, run[0]);
      SignalledKept(mode, s, run[0]);
      GaugedAlways(mode, Apply(mode, s, run[0]), run[1..], s');
    }
  }

  /**
   When the wait is over, under either reading of `recordError` and in every
   interleaving: each selected collector has one success value, 1 exactly if its
   `Collect` returned nil, and the probe is up exactly if bolt ran and succeeded.
   */
  lemma {:induction false} JoinedGauges(mode: Mode, script: map<Name, Option<Err>>, run: seq<Action>, s: State)
    requires Reaches(mode, Init(script), run, s) && s.result.Some?
    ensures s.success.Keys == script.Keys && s.duration.Keys == script.Keys
    ensures forall c :: c in script ==> s.success[c] == if script[c].None? then 1 else 0
    ensures s.result.value == if BOLT in script && script[BOLT].None? then 1 else 0
  {
    GaugedAlways(mode, Init(script), run, s);
    GaugesWhenDone(s);
  }

  lemma GaugesWhenDone(s: State)
    requires Gauged(s) && Signalled(s) && s.result.Some?
    ensures s.success.Keys == s.script.Keys && s.duration.Keys == s.script.Keys
    ensures forall c :: c in s.script ==> s.success[c] == if s.script[c].None? then 1 else 0
    ensures s.result.value == if BOLT in s.script && s.script[BOLT].None? then 1 else 0
  {
    forall c
      ensures c in s.success <==> c in s.script
      ensures c in s.duration <==> c in s.script
      ensures c in s.script ==> s.success[c] == if s.script[c].None? then 1 else 0
    {
      assert GaugeAt(s, c) && (c in s.script ==> At(s, c, Done));
    }
  }

  /** At the join exactly the collectors that the toggles promise have their two gauges. */
  lemma {:induction false} SelectedHaveGauges(
      mode: Mode, registered: set<Name>, m: Module, caps: Caps, hasJolokia: bool,
      script: map<Name, Option<Err>>, run: seq<Action>, s: State)
    requires Selection(script.Keys, registered, m, caps, hasJolokia)
    requires Reaches(mode, Init(script), run, s) && s.result.Some?
    ensures Selection(s.success.Keys, registered, m, caps, hasJolokia)
    ensures Selection(s.duration.Keys, registered, m, caps, hasJolokia)
  {
    JoinedGauges(mode, script, run, s);
  }

  // ----- durations -----

  lemma DurationStays(mode: Mode, s: State, a: Action, c: Name)
    requires Gauged(s) && Enabled(mode, s, a) && c in s.duration
    ensures !(a.SetDuration? && a.c == c) && c in Apply(mode, s, a).duration
    ensures Apply(mode, s, a).duration[c] == s.duration[c]
  {
    assert GaugeAt(s, c);
  }

  lemma {:induction false} DurationKept(mode: Mode, s: State, run: seq<Action>, s': State, c: Name)
    requires Gauged(s) && Reaches(mode, s, run, s') && c in s.duration
    ensures c in s'.duration && s'.duration[c] == s.duration[c]
    ensures forall i :: 0 <= i < |run| ==> !(run[i].SetDuration? && run[i].c == c)
    decreases |run|
  {
    if run != [] {
      GaugedKept(mode, s, run[0]);
      DurationStays(mode, s, run[0], c);
      DurationKept(mode, Apply(mode, s, run[0]), run[1..], s', c);
    }
  }

  lemma DurationSet(mode: Mode, s: State, a: Action, c: Name)
    requires Enabled(mode, s, a) && c !in s.duration
    ensures c in Apply(mode, s, a).duration <==> a.SetDuration? && a.c == c
    ensures a.SetDuration? && a.c == c ==> Apply(mode, s, a).duration[c] == a.elapsed
  {
  }

  /** The only step of a run that measures collector `c`. */
  ghost predicate MeasuredAt(run: seq<Action>, i: nat, c: Name, elapsed: int) {
    && i < |run| && run[i] == SetDuration(c, elapsed)
    && forall j :: 0 <= j < |run| && run[j].SetDuration? && run[j].c == c ==> j == i
  }

  lemma MeasuredLater(run: seq<Action>, i: nat, c: Name, elapsed: int)
    requires run != [] && MeasuredAt(run[1..], i, c, elapsed) && !(run[0].SetDuration? && run[0].c == c)
    ensures MeasuredAt(run, i + 1, c, elapsed)
  {
    assert forall j :: 0 < j < |run| ==> run[j] == run[1..][j - 1];
  }

  lemma MeasuredNow(run: seq<Action>, c: Name, elapsed: int)
    requires run != [] && run[0] == SetDuration(c, elapsed)
    requires forall i :: 0 <= i < |run[1..]| ==> !(run[1..][i].SetDuration? && run[1..][i].c == c)
    ensures MeasuredAt(run, 0, c, elapsed)
  {
    assert forall j :: 0 < j < |run| ==> run[j] == run[1..][j - 1];
  }

  lemma {:induction false} DurationSince(mode: Mode, s: State, run: seq<Action>, s': State, c: Name) returns (i: nat)
    requires Gauged(s) && Reaches(mode, s, run, s') && c !in s.duration && c in s'.duration
    ensures MeasuredAt(run, i, c, s'.duration[c])
    decreases |run|
  {
    var next := Apply(mode, s, run[0]);
    GaugedKept(mode, s, run[0]);
    DurationSet(mode, s, run[0], c);
    if c in next.duration {
      i := 0;
      DurationKept(mode, next, run[1..], s', c);
      MeasuredNow(run, c, s'.duration[c]);
    } else {
      var k := DurationSince(mode, next, run[1..], s', c);
      i := k + 1;
      MeasuredLater(run, k, c, s'.duration[c]);
    }
  }

  /** The duration shown for a collector is the one it measured, and it measured one. */
  lemma {:induction false} DurationIsMeasured(
      mode: Mode, script: map<Name, Option<Err>>, run: seq<Action>, s: State, c: Name) returns (i: nat)
    requires Reaches(mode, Init(script), run, s) && s.result.Some? && c in script
    ensures c in s.duration && MeasuredAt(run, i, c, s.duration[c])
  {
    JoinedGauges(mode, script, run, s);
    i := DurationSince(mode, Init(script), run, s, c);
  }
}
