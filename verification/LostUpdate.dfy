/** Exactly when the missing lock around `recordError` can lose an error. */
module LostUpdate {
  import opened Prelude
  import opened ProbeFanOut
  import opened ErrorMap

  ghost predicate Next(s: State, a: Action, s': State) {
    Enabled(Split, s, a) && s' == Apply(Split, s, a)
  }

  /** A run with the states it passes through. */
  datatype Trace = Trace(states: seq<State>, run: seq<Action>)

  ghost predicate Leads(s: State, t: Trace, s': State) {
    && |t.states| == |t.run| + 1 && t.states[0] == s && t.states[|t.run|] == s'
    && forall i :: 0 <= i < |t.run| ==> Next(t.states[i], t.run[i], t.states[i + 1])
  }

  lemma {:induction false} TraceReaches(s: State, t: Trace, s': State)
    requires Leads(s, t, s')
    ensures Reaches(Split, s, t.run, s')
    decreases |t.run|
  {
    if t.run != [] {
      TraceReaches(t.states[1], Trace(t.states[1..], t.run[1..]), s');
    }
  }

  lemma Chain(s: State, t: Trace, mid: State, u: Trace, s': State) returns (all: Trace)
    requires Leads(s, t, mid) && Leads(mid, u, s')
    ensures Leads(s, all, s')
  {
    all := Trace(t.states + u.states[1..], t.run + u.run);
    forall i | 0 <= i < |all.run|
      ensures Next(all.states[i], all.run[i], all.states[i + 1])
    {
      if i >= |t.run| {
        assert Next(u.states[i - |t.run|], u.run[i - |t.run|], u.states[i - |t.run| + 1]);
        assert all.states[i] == u.states[i - |t.run|];
      } else {
        assert all.states[i + 1] == t.states[i + 1];
      }
    }
  }

  /** One step, with what it does to the fields that matter here. */
  lemma Do(s: State, a: Action) returns (s': State)
    requires Enabled(Split, s, a) && !a.Join? && s.pcs.Keys == s.script.Keys
    ensures Next(s, a, s')
    ensures s'.script == s.script && s'.result == s.result && s'.pcs == s.pcs[a.c := NextPc(s, a)]
    ensures s'.pcs.Keys == s'.script.Keys
    ensures s'.errors == if a.Allocate? then Some(|s.maps|) else s.errors
    ensures s'.maps == if a.Allocate? then s.maps + [map[]]
                       else if a.Write? then s.maps[s.pcs[a.c].m := s.maps[s.pcs[a.c].m][a.c := s.script[a.c].value]]
                       else s.maps
  {
    s' := Apply(Split, s, a);
    OthersStay(Split, s, a);
  }

  /** `c` runs up to the point where it is about to record its error. */
  lemma FailUpTo(s: State, c: Name) returns (t: Trace, s': State)
    requires At(s, c, Ready) && s.script[c].Some? && s.pcs.Keys == s.script.Keys
    ensures Leads(s, t, s') && s'.pcs == s.pcs[c := Failing]
    ensures s'.script == s.script && s'.maps == s.maps && s'.errors == s.errors && s'.result == s.result
  {
    var s1 := Do(s, Collect(c));
    var s2 := Do(s1, SetDuration(c, 0));
    s' := Do(s2, SetSuccess(c));
    t := Trace([s, s1, s2, s'], [Collect(c), SetDuration(c, 0), SetSuccess(c)]);
  }

  /** Alone at work with a map in place, `c` writes into that map. */
  lemma RecordAlone(s: State, c: Name) returns (t: Trace, s': State)
    requires At(s, c, Failing) && s.script[c].Some? && s.pcs.Keys == s.script.Keys
    requires s.errors.Some? && s.errors.value < |s.maps|
    ensures Leads(s, t, s') && s'.pcs == s.pcs[c := Done]
    ensures s'.script == s.script && s'.errors == s.errors && s'.result == s.result
    ensures s'.maps == s.maps[s.errors.value := s.maps[s.errors.value][c := s.script[c].value]]
  {
    var s1 := Do(s, CheckNil(c));
    var s2 := Do(s1, Load(c));
    s' := Do(s2, Write(c));
    t := Trace([s, s1, s2, s'], [CheckNil(c), Load(c), Write(c)]);
  }

  /** Having seen no map, `c` puts in a new one and writes into it, whatever map is there by now. */
  lemma RecordAfresh(s: State, c: Name) returns (t: Trace, s': State)
    requires At(s, c, NilSeen) && s.script[c].Some? && s.pcs.Keys == s.script.Keys
    ensures Leads(s, t, s') && s'.pcs == s.pcs[c := Done]
    ensures s'.script == s.script && s'.errors == Some(|s.maps|) && s'.result == s.result
    ensures s'.maps == s.maps + [map[c := s.script[c].value]]
  {
    var s1 := Do(s, Allocate(c));
    var s2 := Do(s1, Load(c));
    s' := Do(s2, Write(c));
    t := Trace([s, s1, s2, s'], [Allocate(c), Load(c), Write(c)]);
  }

  /** Both are about to record, and both have seen that there is no map. */
  lemma BothSeeNil(s: State, a: Name, b: Name) returns (t: Trace, s': State)
    requires At(s, a, Failing) && At(s, b, Failing) && a != b && s.pcs.Keys == s.script.Keys && s.errors.None?
    ensures Leads(s, t, s') && s'.pcs == s.pcs[a := NilSeen][b := NilSeen]
    ensures s'.script == s.script && s'.errors == s.errors && s'.result == s.result && s'.maps == s.maps
  {
    var s1 := Do(s, CheckNil(a));
    s' := Do(s1, CheckNil(b));
    t := Trace([s, s1, s'], [CheckNil(a), CheckNil(b)]);
  }

  /** A map is in place that lacks the error of a collector that is done. */
  ghost predicate Overwritten(s: State, lost: Name) {
    && s.errors.Some? && s.errors.value < |s.maps| && lost !in s.maps[s.errors.value]
    && At(s, lost, Done) && s.pcs.Keys == s.script.Keys && s.result.None?
    && forall c :: c in s.pcs ==> s.pcs[c] == Ready || s.pcs[c] == Done
  }

  /** Two failing collectors get to the point where both are about to record. */
  lemma BothFail(s: State, a: Name, b: Name) returns (t: Trace, s': State)
    requires At(s, a, Ready) && At(s, b, Ready) && a != b && s.script[a].Some? && s.script[b].Some?
    requires s.pcs.Keys == s.script.Keys
    ensures Leads(s, t, s') && s'.pcs == s.pcs[a := Failing][b := Failing]
    ensures s'.script == s.script && s'.maps == s.maps && s'.errors == s.errors && s'.result == s.result
  {
    var t1, s1 := FailUpTo(s, a);
    var t2, s2 := FailUpTo(s1, b);
    t := Chain(s, t1, s1, t2, s2);
    s' := s2;
  }

  /** Having both seen no map, each puts in its own; only the second one is kept. */
  lemma BothRecord(s: State, a: Name, b: Name) returns (t: Trace, s': State)
    requires At(s, a, NilSeen) && At(s, b, NilSeen) && a != b && s.script[a].Some? && s.script[b].Some?
    requires s.pcs.Keys == s.script.Keys && s.maps == []
    ensures Leads(s, t, s') && s'.pcs == s.pcs[a := Done][b := Done]
    ensures s'.script == s.script && s'.result == s.result
    ensures s'.errors == Some(1) && |s'.maps| == 2 && a !in s'.maps[1]
  {
    var t1, s1 := RecordAfresh(s, a);
    var t2, s2 := RecordAfresh(s1, b);
    t := Chain(s, t1, s1, t2, s2);
    s' := s2;
  }

  lemma {:induction false} Race(script: map<Name, Option<Err>>, a: Name, b: Name) returns (t: Trace, s: State)
    requires a in Failures(script) && b in Failures(script) && a != b
    ensures Leads(Init(script), t, s) && Overwritten(s, a) && s.script == script
  {
    var s0 := Init(script);
    var t1, s1 := BothFail(s0, a, b);
    var t2, s2 := BothSeeNil(s1, a, b);
    t := Chain(s0, t1, s1, t2, s2);
    var t3, s3 := BothRecord(s2, a, b);
    t := Chain(s0, t, s2, t3, s3);
    s := s3;
    assert s.pcs == s0.pcs[a := Done][b := Done];
  }

  lemma FailThrough(s: State, lost: Name, c: Name) returns (t: Trace, s': State)
    requires Overwritten(s, lost) && At(s, c, Ready) && s.script[c].Some?
    ensures Leads(s, t, s') && s'.pcs == s.pcs[c := Done] && s'.script == s.script && s'.result == s.result
    ensures s'.errors == s.errors && |s'.maps| == |s.maps| && lost !in s'.maps[s'.errors.value]
  {
    var t1, s1 := FailUpTo(s, c);
    var t2, s2 := RecordAlone(s1, c);
    t := Chain(s, t1, s1, t2, s2);
    s' := s2;
  }

  lemma PassThrough(s: State, c: Name) returns (t: Trace, s': State)
    requires At(s, c, Ready) && s.script[c].None? && s.pcs.Keys == s.script.Keys
    ensures Leads(s, t, s') && s'.pcs == s.pcs[c := Done] && s'.script == s.script && s'.result == s.result
    ensures s'.errors == s.errors && s'.maps == s.maps
  {
    var s1 := Do(s, Collect(c));
    var s2 := Do(s1, SetDuration(c, 0));
    s' := Do(s2, SetSuccess(c));
    t := Trace([s, s1, s2, s'], [Collect(c), SetDuration(c, 0), SetSuccess(c)]);
  }

  /** Once a map is there, a collector that runs on its own puts nobody else's error into it. */
  lemma RunThrough(s: State, lost: Name, c: Name) returns (t: Trace, s': State)
    requires Overwritten(s, lost) && At(s, c, Ready)
    ensures Leads(s, t, s') && Overwritten(s', lost)
    ensures s'.pcs == s.pcs[c := Done] && s'.script == s.script
  {
    if s.script[c].Some? {
      t, s' := FailThrough(s, lost, c);
    } else {
      t, s' := PassThrough(s, c);
    }
  }

  lemma {:induction false} Finish(s: State, lost: Name, waiting: set<Name>) returns (t: Trace, s': State)
    requires Overwritten(s, lost)
    requires forall c :: c in waiting <==> c in s.pcs && s.pcs[c] == Ready
    ensures Leads(s, t, s') && s'.result.Some? && s'.script == s.script
    ensures lost !in Errors(s')
    decreases waiting
  {
    if waiting == {} {
      assert forall c :: c in s.script ==> c !in waiting && At(s, c, Done);
      s' := Apply(Split, s, Join);
      t := Trace([s, s'], [Join]);
    } else {
      var c :| c in waiting;
      var t1, s1 := RunThrough(s, lost, c);
      var t2, s2 := Finish(s1, lost, waiting - {c});
      t := Chain(s, t1, s1, t2, s2);
      s' := s2;
    }
  }

  /** In every interleaving the map ends up holding exactly the failing collectors and their errors. */
  ghost predicate RecordingIsExact(script: map<Name, Option<Err>>) {
    forall run, s ::
      Reaches(Split, Init(script), run, s) && s.result.Some? ==> Errors(s) == Failures(script)
  }

  /** Without the lock no error is lost in any interleaving exactly when at most one selected collector fails. */
  lemma {:induction false} RecordingExactIff(script: map<Name, Option<Err>>)
    ensures RecordingIsExact(script) <==> |Failures(script)| <= 1
  {
    if a, b :| a in Failures(script) && b in Failures(script) && a != b {
      assert {a, b} <= Failures(script).Keys;
      AtLeastTwo(Failures(script).Keys, a, b);
      var t1, s1 := Race(script, a, b);
      var t2, s2 := Finish(s1, a, set c | c in s1.pcs && s1.pcs[c] == Ready);
      var t := Chain(Init(script), t1, s1, t2, s2);
      TraceReaches(Init(script), t, s2);
      assert Errors(s2) != Failures(script);
    } else {
      AtMostOne(Failures(script).Keys);
      forall run, s | Reaches(Split, Init(script), run, s) && s.result.Some?
        ensures Errors(s) == Failures(script)
      {
        UnlockedRecordingKeepsSome(script, run, s);
        if c :| c in Failures(script) {
          var e :| e in Errors(s);
          assert e == c;
        }
      }
    }
  }

  lemma AtLeastTwo(s: set<Name>, a: Name, b: Name)
    requires a in s && b in s && a != b
    ensures |s| > 1
  {
    assert |s - {a}| == |s| - 1 && b in s - {a};
  }

  lemma AtMostOne(s: set<Name>)
    requires forall a, b :: a in s && b in s ==> a == b
    ensures |s| <= 1
  {
    if a :| a in s {
      assert s == {a};
    }
  }
}
