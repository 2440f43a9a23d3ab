/** What `ProbeResult.Errors` holds at the join, with and without a lock around `recordError`. */
module ErrorMap {
  import opened Prelude
  import opened ProbeFanOut

  // ----- recordError as one step -----

  /** The failures recorded so far. */
  function Recorded(s: State): map<Name, Err> {
    map c | c in s.script && At(s, c, Done) && s.script[c].Some? :: s.script[c].value
  }

  ghost predicate AtomicErrors(s: State) {
    && s.pcs.Keys == s.script.Keys
    && (s.errors.None? ==> s.maps == [])
    && (s.errors.Some? ==> s.errors.value == 0 && |s.maps| == 1)
    && Errors(s) == Recorded(s)
    && (forall c :: c in s.pcs && s.pcs[c] == Failing ==> s.script[c].Some?)
  }

  /** A step that records nothing and completes no failing collector leaves the record alone. */
  lemma RecordedStays(s: State, a: Action)
    requires AtomicErrors(s) && Enabled(Atomic, s, a) && !a.Record?
    ensures Recorded(Apply(Atomic, s, a)) == Recorded(s)
  {
    var s' := Apply(Atomic, s, a);
    if !a.Join? {
      OthersStay(Atomic, s, a);
      assert s'.pcs[a.c] == Done ==> s.script[a.c].None?;
    }
  }

  lemma RecordedGrows(s: State, c: Name)
    requires AtomicErrors(s) && Enabled(Atomic, s, Record(c))
    ensures Recorded(Apply(Atomic, s, Record(c))) == Recorded(s)[c := s.script[c].value]
    ensures Errors(Apply(Atomic, s, Record(c))) == Errors(s)[c := s.script[c].value]
  {
    OthersStay(Atomic, s, Record(c));
  }

  lemma AtomicKept(s: State, a: Action)
    requires AtomicErrors(s) && Enabled(Atomic, s, a)
    ensures AtomicErrors(Apply(Atomic, s, a)) && Apply(Atomic, s, a).script == s.script
  {
    if a.Record? {
      RecordedGrows(s, a.c);
    } else {
      RecordedStays(s, a);
    }
    if !a.Join? {
      OthersStay(Atomic, s, a);
    }
  }

  lemma {:induction false} AtomicAlways(s: State, run: seq<Action>, s': State)
    requires AtomicErrors(s) && Reaches(Atomic, s, run, s')
    ensures AtomicErrors(s') && s'.script == s.script
    decreases |run|
  {
    if run != [] {
      AtomicKept(s, run[0]);
      AtomicAlways(Apply(Atomic, s, run[0]), run[1..], s');
    }
  }

  /** If recording were atomic, the map would hold exactly the failing collectors and their errors. */
  lemma {:induction false} AtomicRecordingIsExact(script: map<Name, Option<Err>>, run: seq<Action>, s: State)
    requires Reaches(Atomic, Init(script), run, s) && s.result.Some?
    ensures Errors(s) == Failures(script)
  {
    AtomicAlways(Init(script), run, s);
    GaugedAlways(Atomic, Init(script), run, s);
    assert forall c :: c in script ==> At(s, c, Done);
  }

  // ----- recordError as it is -----

  ghost predicate Recording(pc: Pc) {
    pc.Failing? || pc.NilSeen? || pc.Checked? || pc.Loaded?
  }

  ghost predicate SubMap(m: map<Name, Err>, of: map<Name, Err>) {
    forall n :: n in m ==> n in of && m[n] == of[n]
  }

  predicate AboutToWrite(s: State, pc: Pc) {
    pc == Checked || (pc.Loaded? && pc.m == |s.maps| - 1)
  }

  /** Somebody has written, or is about to write, into the map that `Errors` points to. */
  ghost predicate Promised(s: State) {
    s.errors.Some? ==>
      (|s.maps| > 0 && s.maps[|s.maps| - 1] != map[])
      || exists c :: c in s.pcs && AboutToWrite(s, s.pcs[c])
  }

  ghost predicate SplitErrors(s: State) {
    s.pcs.Keys == s.script.Keys && MapsRight(s) && CountersRight(s)
  }

  ghost predicate MapsRight(s: State) {
    && (forall i :: 0 <= i < |s.maps| ==> SubMap(s.maps[i], Failures(s.script)))
    && (if s.errors.None? then s.maps == [] else s.errors.value == |s.maps| - 1)
  }

  ghost predicate CountersRight(s: State) {
    && (forall c :: c in s.pcs && c in s.script && Recording(s.pcs[c]) ==> s.script[c].Some?)
    && (forall c :: c in s.pcs && s.pcs[c].Loaded? ==> s.pcs[c].m < |s.maps|)
    && (forall c ::
          c in s.pcs && c in s.script && (s.pcs[c] == Checked || (s.pcs[c] == Done && s.script[c].Some?)) ==>
            s.errors.Some?)
  }

  lemma SplitKept(s: State, a: Action)
    requires SplitErrors(s) && Enabled(Split, s, a)
    ensures SplitErrors(Apply(Split, s, a)) && Apply(Split, s, a).script == s.script
  {
    if !a.Join? {
      OthersStay(Split, s, a);
    }
    MapsKept(s, a);
    CountersKept(s, a);
  }

  lemma MapsKept(s: State, a: Action)
    requires SplitErrors(s) && Enabled(Split, s, a)
    ensures MapsRight(Apply(Split, s, a))
  {
  }

  lemma CountersKept(s: State, a: Action)
    requires SplitErrors(s) && Enabled(Split, s, a)
    ensures CountersRight(Apply(Split, s, a))
  {
    if !a.Join? {
      OthersStay(Split, s, a);
    }
  }

  lemma PromisedKept(s: State, a: Action)
    requires SplitErrors(s) && Promised(s) && Enabled(Split, s, a)
    ensures Promised(Apply(Split, s, a))
  {
    var s' := Apply(Split, s, a);
    if a.Join? || s'.errors.None? {
    } else if a.Allocate? || a.Load? {
      assert a.c in s'.pcs && AboutToWrite(s', s'.pcs[a.c]);
    } else if s.maps[|s.maps| - 1] == map[] {
      WriterKeepsPromise(s, a);
    } else {
      ContentStays(s, a);
    }
  }

  lemma ContentStays(s: State, a: Action)
    requires SplitErrors(s) && Enabled(Split, s, a) && !a.Join? && !a.Allocate? && !a.Load?
    requires |s.maps| > 0 && s.maps[|s.maps| - 1] != map[]
    ensures var s' := Apply(Split, s, a);
            |s'.maps| > 0 && s'.maps[|s'.maps| - 1] != map[]
  {
    var n :| n in s.maps[|s.maps| - 1];
    var s' := Apply(Split, s, a);
    assert n in s'.maps[|s'.maps| - 1];
  }

  lemma WriterKeepsPromise(s: State, a: Action)
    requires SplitErrors(s) && Promised(s) && Enabled(Split, s, a) && !a.Join? && !a.Allocate? && !a.Load?
    requires s.errors.Some? && s.maps[|s.maps| - 1] == map[]
    ensures Promised(Apply(Split, s, a))
  {
    var s' := Apply(Split, s, a);
    var w :| w in s.pcs && AboutToWrite(s, s.pcs[w]);
    if w == a.c {
      assert a.Write? && a.c in s'.maps[|s'.maps| - 1];
    } else {
      assert w in s'.pcs && AboutToWrite(s', s'.pcs[w]);
    }
  }

  lemma {:induction false} SplitAlways(s: State, run: seq<Action>, s': State)
    requires SplitErrors(s) && Promised(s) && Reaches(Split, s, run, s')
    ensures SplitErrors(s') && Promised(s') && s'.script == s.script
    decreases |run|
  {
    if run != [] {
      SplitKept(s, run[0]);
      PromisedKept(s, run[0]);
      SplitAlways(Apply(Split, s, run[0]), run[1..], s');
    }
  }

  lemma SplitAtJoin(script: map<Name, Option<Err>>, run: seq<Action>, s: State)
    requires Reaches(Split, Init(script), run, s) && s.result.Some?
    ensures SplitErrors(s) && Promised(s) && s.script == script && forall c :: c in script ==> At(s, c, Done)
  {
    assert SplitErrors(s) && Promised(s) && s.script == script by {
      SplitAlways(Init(script), run, s);
    }
    assert forall c :: c in script ==> At(s, c, Done) by {
      GaugedAlways(Split, Init(script), run, s);
    }
  }

  /**
   What survives without the lock: nothing wrong is recorded, and something is
   recorded exactly when some collector failed.
   */
  lemma {:induction false} UnlockedRecordingKeepsSome(script: map<Name, Option<Err>>, run: seq<Action>, s: State)
    requires Reaches(Split, Init(script), run, s) && s.result.Some?
    ensures SubMap(Errors(s), Failures(script))
    ensures Errors(s) == map[] <==> Failures(script) == map[]
  {
    SplitAtJoin(script, run, s);
    AllDone(s);
  }

  /** With everybody done, whoever was about to write has written. */
  lemma AllDone(s: State)
    requires SplitErrors(s) && Promised(s) && forall c :: c in s.script ==> At(s, c, Done)
    ensures SubMap(Errors(s), Failures(s.script))
    ensures Errors(s) == map[] <==> Failures(s.script) == map[]
  {
    if c :| c in Failures(s.script) {
      assert At(s, c, Done);
      assert s.errors.Some?;
    }
  }
}
