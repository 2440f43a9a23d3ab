/** What collapsing white space (`truncateForLog`) leaves, said without how it is done. */
module CollapsedText {
  import opened Prelude
  import opened Utf8
  import opened LogText

  type Rune = seq<byte>

  function Concat(runes: seq<Rune>): seq<byte> {
    if runes == [] then [] else runes[0] + Concat(runes[1..])
  }

  /** `at` lists, in order, positions of runes that are no white space. */
  ghost predicate Listed(space: Rune -> bool, runes: seq<Rune>, at: seq<nat>) {
    && (forall j :: 0 <= j < |at| ==> at[j] < |runes| && !space(runes[at[j]]))
    && (forall i, j :: 0 <= i < j < |at| ==> at[i] < at[j])
  }

  /** It lists them all. */
  ghost predicate Complete(space: Rune -> bool, runes: seq<Rune>, at: seq<nat>) {
    forall i :: 0 <= i < |runes| && !space(runes[i]) ==> i in at
  }

  ghost predicate SameRunes(runes: seq<Rune>, out: seq<Rune>, p: seq<nat>, q: seq<nat>) {
    |p| == |q| && forall j :: 0 <= j < |p| ==> p[j] < |runes| && q[j] < |out| && out[q[j]] == runes[p[j]]
  }

  /** Between two solid runes: one blank if there was anything between them, and nothing if there was not. */
  ghost predicate Spaced(out: seq<Rune>, p: seq<nat>, q: seq<nat>) {
    |p| == |q| && forall j :: 0 < j < |q| ==> Step(out, p[j - 1], p[j], q[j - 1], q[j])
  }

  predicate Step(out: seq<Rune>, p0: nat, p1: nat, q0: nat, q1: nat) {
    if p1 == p0 + 1 then q1 == q0 + 1 else q1 == q0 + 2 && q0 + 1 < |out| && out[q0 + 1] == [SPACE]
  }

  /**
   `out` is `runes` collapsed: the same solid runes in order; nothing before the first and nothing
   after the last; between two of them one blank if there was white space, and nothing if there was none.
   */
  ghost predicate Collapsed(space: Rune -> bool, runes: seq<Rune>, out: seq<Rune>, p: seq<nat>, q: seq<nat>) {
    && Listed(space, runes, p) && Complete(space, runes, p) && Listed(space, out, q) && Complete(space, out, q)
    && SameRunes(runes, out, p, q) && Spaced(out, p, q)
    && if q == [] then out == [] else q[0] == 0 && q[|q| - 1] == |out| - 1
  }

  // ----- collapsing rune by rune -----

  /** What is still to be written, `started` telling if something has been and `gap` if white space came since. */
  function Rest(space: Rune -> bool, runes: seq<Rune>, started: bool, gap: bool): seq<Rune> {
    if runes == [] then []
    else if space(runes[0]) then Rest(space, runes[1..], started, true)
    else BlankIf(started && gap) + ([runes[0]] + Rest(space, runes[1..], true, false))
  }

  function Shifted(at: seq<nat>): seq<nat> {
    seq(|at|, j requires 0 <= j < |at| => at[j] + 1)
  }

  function Pushed(at: seq<nat>): seq<nat> {
    [0] + Shifted(at)
  }

  /** Where what is still to be written begins and ends: it may begin with a blank. */
  predicate Ends(out: seq<Rune>, started: bool, gap: bool, p: seq<nat>, q: seq<nat>) {
    |p| == |q|
    && if q == [] then out == []
       else
         && out != [] && q[|q| - 1] == |out| - 1
         && if started && (gap || p[0] > 0) then q[0] == 1 && out[0] == [SPACE] else q[0] == 0
  }

  lemma ShiftListed(space: Rune -> bool, r: Rune, rest: seq<Rune>, at: seq<nat>)
    requires Listed(space, rest, at)
    ensures Listed(space, [r] + rest, Shifted(at))
    ensures !space(r) ==> Listed(space, [r] + rest, Pushed(at))
  {
  }

  lemma ShiftComplete(space: Rune -> bool, r: Rune, rest: seq<Rune>, at: seq<nat>)
    requires Complete(space, rest, at)
    ensures space(r) ==> Complete(space, [r] + rest, Shifted(at))
    ensures Complete(space, [r] + rest, Pushed(at))
  {
    forall i | 0 < i < |[r] + rest| && !space(([r] + rest)[i])
      ensures i in Shifted(at) && i in Pushed(at)
    {
      assert ([r] + rest)[i] == rest[i - 1];
      var j :| 0 <= j < |at| && at[j] == i - 1;
      assert Shifted(at)[j] == i && Pushed(at)[j + 1] == i;
    }
    assert Pushed(at)[0] == 0;
  }

  lemma ShiftIn(r: Rune, runes: seq<Rune>, out: seq<Rune>, p: seq<nat>, q: seq<nat>)
    requires SameRunes(runes, out, p, q)
    ensures SameRunes([r] + runes, out, Shifted(p), q)
    ensures SameRunes([r] + runes, [r] + out, Pushed(p), Pushed(q))
  {
  }

  lemma ShiftOut(c: Rune, runes: seq<Rune>, out: seq<Rune>, p: seq<nat>, q: seq<nat>)
    requires SameRunes(runes, out, p, q)
    ensures SameRunes(runes, [c] + out, p, Shifted(q))
  {
  }

  lemma ShiftSpaced(c: Rune, out: seq<Rune>, p: seq<nat>, q: seq<nat>)
    requires Spaced(out, p, q)
    ensures Spaced(out, Shifted(p), q) && Spaced([c] + out, p, Shifted(q))
  {
    forall j | 0 < j < |q|
      ensures Step(out, Shifted(p)[j - 1], Shifted(p)[j], q[j - 1], q[j])
      ensures Step([c] + out, p[j - 1], p[j], Shifted(q)[j - 1], Shifted(q)[j])
    {
      assert Step(out, p[j - 1], p[j], q[j - 1], q[j]);
    }
  }

  lemma PushSpaced(c: Rune, out: seq<Rune>, p: seq<nat>, q: seq<nat>)
    requires Spaced(out, p, q) && Ends(out, true, false, p, q)
    ensures Spaced([c] + out, Pushed(p), Pushed(q))
  {
    var p', q' := Pushed(p), Pushed(q);
    forall j | 0 < j < |q'|
      ensures Step([c] + out, p'[j - 1], p'[j], q'[j - 1], q'[j])
    {
      assert p'[j] == p[j - 1] + 1 && q'[j] == q[j - 1] + 1;
      if j > 1 {
        assert Step(out, p[j - 2], p[j - 1], q[j - 2], q[j - 1]);
        assert p'[j - 1] == p[j - 2] + 1 && q'[j - 1] == q[j - 2] + 1;
      }
    }
  }

  /** `Collapsed` for what is still to be written. */
  ghost predicate RestOf(
      space: Rune -> bool, runes: seq<Rune>, out: seq<Rune>, started: bool, gap: bool, p: seq<nat>, q: seq<nat>)
  {
    && Listed(space, runes, p) && Complete(space, runes, p) && Listed(space, out, q) && Complete(space, out, q)
    && SameRunes(runes, out, p, q) && Spaced(out, p, q) && Ends(out, started, gap, p, q)
  }

  lemma SkipSpace(
      space: Rune -> bool, c: Rune, runes: seq<Rune>, out: seq<Rune>, started: bool, gap: bool,
      p: seq<nat>, q: seq<nat>)
    requires space(c) && RestOf(space, runes, out, started, true, p, q)
    ensures RestOf(space, [c] + runes, out, started, gap, Shifted(p), q)
  {
    ShiftListed(space, c, runes, p);
    ShiftComplete(space, c, runes, p);
    ShiftIn(c, runes, out, p, q);
    ShiftSpaced(c, out, p, q);
  }

  lemma TakeRune(
      space: Rune -> bool, c: Rune, runes: seq<Rune>, out: seq<Rune>, started: bool, p: seq<nat>, q: seq<nat>)
    requires !space(c) && RestOf(space, runes, out, true, false, p, q)
    ensures RestOf(space, [c] + runes, [c] + out, started, false, Pushed(p), Pushed(q))
  {
    ShiftListed(space, c, runes, p);
    ShiftComplete(space, c, runes, p);
    ShiftListed(space, c, out, q);
    ShiftComplete(space, c, out, q);
    ShiftIn(c, runes, out, p, q);
    PushSpaced(c, out, p, q);
    PushEnds(c, out, started, p, q);
  }

  lemma PushEnds(c: Rune, out: seq<Rune>, started: bool, p: seq<nat>, q: seq<nat>)
    requires Ends(out, true, false, p, q)
    ensures Ends([c] + out, started, false, Pushed(p), Pushed(q))
  {
  }

  lemma PutBlank(space: Rune -> bool, runes: seq<Rune>, out: seq<Rune>, p: seq<nat>, q: seq<nat>)
    requires space([SPACE]) && q != [] && p != [] && p[0] == 0 && RestOf(space, runes, out, true, false, p, q)
    ensures RestOf(space, runes, [[SPACE]] + out, true, true, p, Shifted(q))
  {
    ShiftListed(space, [SPACE], out, q);
    ShiftComplete(space, [SPACE], out, q);
    ShiftOut([SPACE], runes, out, p, q);
    ShiftSpaced([SPACE], out, p, q);
  }

  lemma GapMatters(space: Rune -> bool, runes: seq<Rune>, out: seq<Rune>, p: seq<nat>, q: seq<nat>)
    requires RestOf(space, runes, out, false, false, p, q)
    ensures RestOf(space, runes, out, false, true, p, q)
  {
  }

  function BlankIf(gap: bool): seq<Rune> {
    if gap then [[SPACE]] else []
  }

  lemma TakeAndBlank(
      space: Rune -> bool, c: Rune, runes: seq<Rune>, out: seq<Rune>, started: bool, gap: bool,
      p: seq<nat>, q: seq<nat>)
    returns (p': seq<nat>, q': seq<nat>)
    requires space([SPACE]) && !space(c) && RestOf(space, runes, out, true, false, p, q)
    ensures RestOf(space, [c] + runes, BlankIf(started && gap) + ([c] + out), started, gap, p', q')
  {
    TakeRune(space, c, runes, out, started, p, q);
    p', q' := Pushed(p), Pushed(q);
    assert BlankIf(false) + ([c] + out) == [c] + out;
    if started && gap {
      PutBlank(space, [c] + runes, [c] + out, p', q');
      q' := Shifted(q');
    } else if gap {
      GapMatters(space, [c] + runes, [c] + out, p', q');
    }
  }

  lemma NothingLeft(space: Rune -> bool, started: bool, gap: bool)
    ensures RestOf(space, [], [], started, gap, [], [])
  {
  }

  lemma {:induction false} RestIsCollapsed(space: Rune -> bool, runes: seq<Rune>, started: bool, gap: bool)
    returns (p: seq<nat>, q: seq<nat>)
    requires space([SPACE])
    ensures RestOf(space, runes, Rest(space, runes, started, gap), started, gap, p, q)
    decreases |runes|
  {
    if runes == [] {
      p, q := [], [];
      NothingLeft(space, started, gap);
    } else {
      var c, others := runes[0], runes[1..];
      assert runes == [c] + others;
      if space(c) {
        p, q := RestIsCollapsed(space, others, started, true);
        SkipSpace(space, c, others, Rest(space, others, started, true), started, gap, p, q);
        p := Shifted(p);
      } else {
        p, q := RestIsCollapsed(space, others, true, false);
        p, q := TakeAndBlank(space, c, others, Rest(space, others, true, false), started, gap, p, q);
      }
    }
  }

  // ----- the fields, joined -----

  lemma ConcatCons(r: Rune, rest: seq<Rune>)
    ensures Concat([r] + rest) == r + Concat(rest)
  {
    assert ([r] + rest)[1..] == rest;
  }

  lemma JoinCons(word: seq<byte>, words: seq<seq<byte>>)
    ensures Join([word] + words) == if words == [] then word else word + [SPACE] + Join(words)
  {
    assert ([word] + words)[1..] == words;
  }

  ghost predicate NonEmptyRunes(runes: seq<Rune>) {
    forall i :: 0 <= i < |runes| ==> runes[i] != []
  }

  /** After white space: nothing, or a blank and the remaining fields. */
  lemma {:induction false} AfterGap(runes: seq<Rune>)
    requires NonEmptyRunes(runes)
    ensures Concat(Rest(IsSpace, runes, true, true))
         == if Fields(runes, []) == [] then [] else [SPACE] + Join(Fields(runes, []))
    decreases |runes|, 0
  {
    if runes != [] {
      if IsSpace(runes[0]) {
        AfterGap(runes[1..]);
        assert Fields(runes, []) == Fields(runes[1..], []);
      } else {
        InWord(runes[1..], runes[0]);
        assert [] + runes[0] == runes[0];
        assert Rest(IsSpace, runes, true, true) == [[SPACE]] + ([runes[0]] + Rest(IsSpace, runes[1..], true, false));
        ConcatCons([SPACE], [runes[0]] + Rest(IsSpace, runes[1..], true, false));
        ConcatCons(runes[0], Rest(IsSpace, runes[1..], true, false));
      }
    }
  }

  /** Within a field. */
  lemma {:induction false} InWord(runes: seq<Rune>, word: seq<byte>)
    requires NonEmptyRunes(runes) && word != []
    ensures Fields(runes, word) != []
    ensures Join(Fields(runes, word)) == word + Concat(Rest(IsSpace, runes, true, false))
    decreases |runes|, 1
  {
    if runes == [] {
      assert Fields(runes, word) == [word];
    } else if IsSpace(runes[0]) {
      AfterGap(runes[1..]);
      JoinCons(word, Fields(runes[1..], []));
      Associative(word, [SPACE], Join(Fields(runes[1..], [])));
    } else {
      InWord(runes[1..], word + runes[0]);
      assert Rest(IsSpace, runes, true, false) == [runes[0]] + Rest(IsSpace, runes[1..], true, false);
      ConcatCons(runes[0], Rest(IsSpace, runes[1..], true, false));
      Associative(word, runes[0], Concat(Rest(IsSpace, runes[1..], true, false)));
    }
  }

  lemma {:induction false} FieldsJoined(runes: seq<Rune>, gap: bool)
    requires NonEmptyRunes(runes)
    ensures Join(Fields(runes, [])) == Concat(Rest(IsSpace, runes, false, gap))
    decreases |runes|
  {
    if runes != [] {
      if IsSpace(runes[0]) {
        FieldsJoined(runes[1..], true);
        assert Fields(runes, []) == Fields(runes[1..], []);
      } else {
        InWord(runes[1..], runes[0]);
        assert [] + runes[0] == runes[0];
        assert Rest(IsSpace, runes, false, gap) == [runes[0]] + Rest(IsSpace, runes[1..], true, false);
        ConcatCons(runes[0], Rest(IsSpace, runes[1..], true, false));
      }
    }
  }

  // ----- decoding what was written -----

  /** At `k` a text ends or goes on with a byte that is no tail. */
  predicate Stops(s: seq<byte>, k: nat) {
    k <= |s| && (k == |s| || !Tail(s[k]))
  }

  /** Two texts that agree up to such a place begin with the same rune. */
  lemma SameRune(s: seq<byte>, t: seq<byte>, k: nat)
    requires 0 < k && Stops(s, k) && Stops(t, k) && s[..k] == t[..k]
    ensures RuneLength(s) == RuneLength(t)
  {
    assert s[0] == s[..k][0] && t[0] == t[..k][0];
    var w := Width(s[0]);
    if w <= k {
      assert s[..w] == s[..k][..w] && t[..w] == t[..k][..w];
    } else {
      NoCodePoint(s, k);
      NoCodePoint(t, k);
    }
  }

  lemma TailsFollow(c: seq<byte>)
    ensures CodePoint(c) ==> forall i :: 0 < i < |c| ==> Tail(c[i])
  {
  }

  lemma NoCodePoint(s: seq<byte>, k: nat)
    requires 0 < k && Stops(s, k) && s != [] && k < Width(s[0])
    ensures RuneLength(s) == 1
  {
    var w := Width(s[0]);
    if w <= |s| {
      assert s[..w][k] == s[k];
      TailsFollow(s[..w]);
    }
  }

  lemma RunesCons(r: Rune, rest: seq<byte>)
    requires r != [] && RuneLength(r + rest) == |r|
    ensures Runes(r + rest) == [r] + Runes(rest)
  {
    assert (r + rest)[..|r|] == r && (r + rest)[|r|..] == rest;
  }

  /** These are the runes that their bytes are decoded into. */
  ghost predicate Decoded(runes: seq<Rune>) {
    NonEmptyRunes(runes) && Runes(Concat(runes)) == runes
  }

  lemma DecodedTail(runes: seq<Rune>)
    requires Decoded(runes) && runes != []
    ensures RuneLength(runes[0] + Concat(runes[1..])) == |runes[0]| && Decoded(runes[1..])
  {
    var s := Concat(runes);
    assert Runes(s)[0] == s[..RuneLength(s)] == runes[0];
    assert s[|runes[0]|..] == Concat(runes[1..]);
    assert Runes(s)[1..] == Runes(s[RuneLength(s)..]);
  }

  lemma SpaceStops(c: Rune, rest: seq<byte>)
    requires IsSpace(c)
    ensures c != [] && Stops(c + rest, 0)
  {
  }

  /** How far the original and what is written agree: to the end of the field. */
  lemma {:induction false} Agree(runes: seq<Rune>) returns (k: nat)
    requires NonEmptyRunes(runes)
    ensures var x, y := Concat(runes), Concat(Rest(IsSpace, runes, true, false));
            Stops(x, k) && Stops(y, k) && x[..k] == y[..k]
    decreases |runes|
  {
    if runes == [] {
      k := 0;
    } else if IsSpace(runes[0]) {
      k := 0;
      SpaceStops(runes[0], Concat(runes[1..]));
      BlankOrNothing(runes[1..]);
    } else {
      var n := Agree(runes[1..]);
      var x, y := Concat(runes[1..]), Concat(Rest(IsSpace, runes[1..], true, false));
      k := |runes[0]| + n;
      assert Rest(IsSpace, runes, true, false) == [runes[0]] + Rest(IsSpace, runes[1..], true, false);
      ConcatCons(runes[0], Rest(IsSpace, runes[1..], true, false));
      assert (runes[0] + x)[..k] == runes[0] + x[..n] && (runes[0] + y)[..k] == runes[0] + y[..n];
    }
  }

  lemma {:induction false} BlankOrNothing(runes: seq<Rune>)
    ensures Stops(Concat(Rest(IsSpace, runes, true, true)), 0)
    decreases |runes|
  {
    if runes != [] {
      if IsSpace(runes[0]) {
        BlankOrNothing(runes[1..]);
      } else {
        assert Rest(IsSpace, runes, true, true)[0] == [SPACE];
      }
    }
  }

  lemma SolidDecoded(r: Rune, runes: seq<Rune>, rest: seq<Rune>)
    requires rest == Rest(IsSpace, runes, true, false) && Decoded(rest) && NonEmptyRunes(runes)
    requires r != [] && RuneLength(r + Concat(runes)) == |r|
    ensures Decoded([r] + rest)
  {
    var n := Agree(runes);
    var x, y := Concat(runes), Concat(rest);
    SamePrefix(r, x, y, n);
    SameRune(r + x, r + y, |r| + n);
    DecodedCons(r, rest);
  }

  lemma SamePrefix(r: seq<byte>, x: seq<byte>, y: seq<byte>, n: nat)
    requires Stops(x, n) && Stops(y, n) && x[..n] == y[..n]
    ensures Stops(r + x, |r| + n) && Stops(r + y, |r| + n) && (r + x)[..|r| + n] == (r + y)[..|r| + n]
  {
    assert (r + x)[..|r| + n] == r + x[..n] && (r + y)[..|r| + n] == r + y[..n];
  }

  lemma BlankDecoded(gap: bool, rest: seq<Rune>)
    requires Decoded(rest)
    ensures Decoded(BlankIf(gap) + rest)
  {
    if gap {
      DecodedCons([SPACE], rest);
    } else {
      assert BlankIf(gap) + rest == rest;
    }
  }

  lemma {:induction false} RestIsDecoded(runes: seq<Rune>, started: bool, gap: bool)
    requires Decoded(runes)
    ensures Decoded(Rest(IsSpace, runes, started, gap))
    decreases |runes|
  {
    if runes != [] {
      DecodedTail(runes);
      if IsSpace(runes[0]) {
        RestIsDecoded(runes[1..], started, true);
      } else {
        RestIsDecoded(runes[1..], true, false);
        SolidDecoded(runes[0], runes[1..], Rest(IsSpace, runes[1..], true, false));
        BlankDecoded(started && gap, [runes[0]] + Rest(IsSpace, runes[1..], true, false));
      }
    }
  }

  lemma DecodedCons(r: Rune, rest: seq<Rune>)
    requires Decoded(rest) && r != [] && RuneLength(r + Concat(rest)) == |r|
    ensures Decoded([r] + rest)
  {
    ConcatCons(r, rest);
    RunesCons(r, Concat(rest));
  }

  lemma {:induction false} RunesAreDecoded(s: seq<byte>)
    ensures Decoded(Runes(s)) && Concat(Runes(s)) == s
    decreases |s|
  {
    if s != [] {
      var n := RuneLength(s);
      RunesAreDecoded(s[n..]);
      assert s == s[..n] + s[n..];
      ConcatCons(s[..n], Runes(s[n..]));
    }
  }

  // ----- line breaks -----

  function BlankedRune(c: Rune): Rune {
    if c == [0x0A] || c == [0x0D] then [SPACE] else c
  }

  lemma BlankedHead(s: seq<byte>)
    requires s != []
    ensures Blanked(s) != [] && RuneLength(Blanked(s)) == RuneLength(s)
    ensures Blanked(s)[..RuneLength(s)] == BlankedRune(s[..RuneLength(s)])
    ensures Blanked(s)[RuneLength(s)..] == Blanked(s[RuneLength(s)..])
  {
    var n := RuneLength(s);
    BlankedConcat(s[..n], s[n..]);
    assert s == s[..n] + s[n..];
    BlankedLength(s[..n]);
    BlankedLength(s);
    BlankedByte(s);
  }

  lemma {:induction false} BlankedLength(s: seq<byte>)
    ensures |Blanked(s)| == |s|
    ensures forall i :: 0 <= i < |s| ==> Blanked(s)[i] == if s[i] == 0x0A || s[i] == 0x0D then SPACE else s[i]
  {
    if s != [] {
      BlankedLength(s[1..]);
    }
  }

  lemma SamePoint(a: seq<byte>, b: seq<byte>)
    requires |a| == |b| && forall i :: 0 <= i < |a| ==> b[i] == if a[i] == 0x0A || a[i] == 0x0D then SPACE else a[i]
    ensures CodePoint(a) <==> CodePoint(b)
    ensures a != [] ==> Width(a[0]) == Width(b[0])
  {
  }

  lemma BlankedByte(s: seq<byte>)
    requires s != []
    ensures Blanked(s) != [] && RuneLength(Blanked(s)) == RuneLength(s)
    ensures Blanked(s[..RuneLength(s)]) == BlankedRune(s[..RuneLength(s)])
  {
    var b, w := Blanked(s), Width(s[0]);
    BlankedLength(s);
    SamePoint([s[0]], [b[0]]);
    if w <= |s| {
      SamePoint(s[..w], b[..w]);
    }
    BlankedRuneIs(s[..RuneLength(s)]);
  }

  lemma BlankedRuneIs(c: Rune)
    requires |c| == 1 || CodePoint(c)
    ensures Blanked(c) == BlankedRune(c)
  {
    if |c| == 1 {
      assert Blanked(c[1..]) == [];
    } else {
      NoBreakIn(c);
      BlankedSame(c);
    }
  }

  lemma {:induction false} BlankedRunes(s: seq<byte>)
    ensures |Runes(Blanked(s))| == |Runes(s)|
    ensures forall i :: 0 <= i < |Runes(s)| ==> Runes(Blanked(s))[i] == BlankedRune(Runes(s)[i])
    decreases |s|
  {
    if s != [] {
      BlankedHead(s);
      BlankedRunes(s[RuneLength(s)..]);
    }
  }

  // ----- what collapsing does -----

  lemma BreaksAreSpace(c: Rune)
    ensures IsSpace(BlankedRune(c)) <==> IsSpace(c)
    ensures !IsSpace(c) ==> BlankedRune(c) == c
  {
  }

  /** For any bytes, valid or not: the runes of the collapsed text are those of the text, collapsed. */
  lemma {:induction false} CollapseIsCollapsed(s: seq<byte>) returns (p: seq<nat>, q: seq<nat>)
    ensures Collapsed(IsSpace, Runes(s), Runes(Collapse(s)), p, q)
  {
    var b := Runes(Blanked(s));
    RunesAreDecoded(Blanked(s));
    FieldsJoined(b, false);
    RestIsDecoded(b, false, false);
    p, q := RestIsCollapsed(IsSpace, b, false, false);
    BlankedRunes(s);
    Unblanked(Runes(s), b, p);
    UnblankedSame(Runes(s), b, Runes(Collapse(s)), p, q);
  }

  lemma Unblanked(runes: seq<Rune>, blanked: seq<Rune>, at: seq<nat>)
    requires |runes| == |blanked| && forall i :: 0 <= i < |runes| ==> blanked[i] == BlankedRune(runes[i])
    ensures Listed(IsSpace, blanked, at) ==> Listed(IsSpace, runes, at)
    ensures Complete(IsSpace, blanked, at) ==> Complete(IsSpace, runes, at)
  {
    forall i | 0 <= i < |runes|
      ensures IsSpace(blanked[i]) <==> IsSpace(runes[i])
    {
      BreaksAreSpace(runes[i]);
    }
  }

  lemma UnblankedSame(runes: seq<Rune>, blanked: seq<Rune>, out: seq<Rune>, p: seq<nat>, q: seq<nat>)
    requires |runes| == |blanked| && forall i :: 0 <= i < |runes| ==> blanked[i] == BlankedRune(runes[i])
    requires Listed(IsSpace, blanked, p) && SameRunes(blanked, out, p, q)
    ensures SameRunes(runes, out, p, q)
  {
    forall j | 0 <= j < |p|
      ensures runes[p[j]] == blanked[p[j]]
    {
      BreaksAreSpace(runes[p[j]]);
    }
  }

  // ----- what follows -----

  ghost predicate Increasing(at: seq<nat>) {
    forall i, j :: 0 <= i < j < |at| ==> at[i] < at[j]
  }

  /** Two increasing lists of the same numbers are one. */
  lemma {:induction false} IncreasingSame(p: seq<nat>, q: seq<nat>)
    requires Increasing(p) && Increasing(q) && forall x :: x in p <==> x in q
    ensures p == q
    decreases |p|
  {
    FirstIsIn(p);
    FirstIsIn(q);
    if p != [] && q != [] {
      var n, m := |p| - 1, |q| - 1;
      assert p[n] in q && q[m] in p;
      assert p[n] == q[m];
      forall x
        ensures x in p[..n] <==> x in q[..m]
      {
        WithoutLast(p, x);
        WithoutLast(q, x);
      }
      IncreasingSame(p[..n], q[..m]);
      assert p == p[..n] + [p[n]] && q == q[..m] + [q[m]];
    }
  }

  lemma FirstIsIn(p: seq<nat>)
    ensures p != [] ==> p[0] in p
  {
  }

  lemma WithoutLast(p: seq<nat>, x: nat)
    requires p != [] && Increasing(p)
    ensures x in p[..|p| - 1] <==> x in p && x != p[|p| - 1]
  {
    assert p == p[..|p| - 1] + [p[|p| - 1]];
  }

  /** The positions of the solid runes are determined. */
  lemma SamePositions(space: Rune -> bool, runes: seq<Rune>, p: seq<nat>, q: seq<nat>)
    requires Listed(space, runes, p) && Complete(space, runes, p)
    requires Listed(space, runes, q) && Complete(space, runes, q)
    ensures p == q
  {
    forall x
      ensures x in p <==> x in q
    {
      if x in p {
        var j :| 0 <= j < |p| && p[j] == x;
      }
      if x in q {
        var j :| 0 <= j < |q| && q[j] == x;
      }
    }
    IncreasingSame(p, q);
  }

  /** No white space at either end, and a single blank wherever there is some. */
  ghost predicate Tidy(space: Rune -> bool, runes: seq<Rune>, at: seq<nat>) {
    && Listed(space, runes, at) && Complete(space, runes, at)
    && (if at == [] then runes == [] else at[0] == 0 && at[|at| - 1] == |runes| - 1)
    && TidyGaps(runes, at)
  }

  ghost predicate TidyGaps(runes: seq<Rune>, at: seq<nat>) {
    forall j :: 0 < j < |at| ==> TidyGap(runes, at[j - 1], at[j])
  }

  predicate TidyGap(runes: seq<Rune>, i: nat, j: nat) {
    j == i + 1 || (j == i + 2 && i + 1 < |runes| && runes[i + 1] == [SPACE])
  }

  lemma CollapsedIsTidy(space: Rune -> bool, runes: seq<Rune>, out: seq<Rune>, p: seq<nat>, q: seq<nat>)
    requires Collapsed(space, runes, out, p, q)
    ensures Tidy(space, out, q)
  {
    forall j | 0 < j < |q|
      ensures TidyGap(out, q[j - 1], q[j])
    {
      assert Step(out, p[j - 1], p[j], q[j - 1], q[j]);
    }
  }

  /** Collapsing a tidy text moves nothing. */
  lemma {:induction false} NothingMoves(runes: seq<Rune>, out: seq<Rune>, p: seq<nat>, q: seq<nat>, n: nat)
    requires Spaced(out, p, q) && TidyGaps(runes, p) && n < |p| && p[0] == q[0] == 0
    ensures q[n] == p[n]
  {
    if n > 0 {
      NothingMoves(runes, out, p, q, n - 1);
      assert Step(out, p[n - 1], p[n], q[n - 1], q[n]);
      assert TidyGap(runes, p[n - 1], p[n]);
    }
  }

  /** Every position is that of a solid rune or lies between two neighbours. */
  lemma {:induction false} Between(at: seq<nat>, n: nat, k: nat) returns (j: nat)
    requires 0 < n <= |at| && at[0] <= k <= at[n - 1]
    ensures j < n && (at[j] == k || (0 < j && at[j - 1] < k < at[j]))
  {
    if n == 1 || at[n - 2] < k {
      j := n - 1;
    } else {
      j := Between(at, n - 1, k);
    }
  }

  lemma SameAt(space: Rune -> bool, runes: seq<Rune>, out: seq<Rune>, p: seq<nat>, k: nat)
    requires Tidy(space, runes, p) && Tidy(space, out, p) && SameRunes(runes, out, p, p)
    requires p != [] && k < |runes| && |out| == |runes|
    ensures out[k] == runes[k]
  {
    var j := Between(p, |p|, k);
    if p[j] != k {
      assert TidyGap(runes, p[j - 1], p[j]) && TidyGap(out, p[j - 1], p[j]);
    }
  }

  lemma TidyIsFixed(space: Rune -> bool, runes: seq<Rune>, out: seq<Rune>, p: seq<nat>, q: seq<nat>)
    requires Tidy(space, runes, p) && Collapsed(space, runes, out, p, q)
    ensures out == runes
  {
    forall j | 0 <= j < |p|
      ensures q[j] == p[j]
    {
      NothingMoves(runes, out, p, q, j);
    }
    assert q == p;
    CollapsedIsTidy(space, runes, out, p, q);
    if p != [] {
      forall k | 0 <= k < |runes|
        ensures out[k] == runes[k]
      {
        SameAt(space, runes, out, p, k);
      }
    }
  }

  /** A text without white space at its ends and with single blanks only is left as it is. */
  lemma {:induction false} TidyUnchanged(s: seq<byte>, at: seq<nat>)
    requires Tidy(IsSpace, Runes(s), at)
    ensures Collapse(s) == s
  {
    var p, q := CollapseIsCollapsed(s);
    SamePositions(IsSpace, Runes(s), p, at);
    TidyIsFixed(IsSpace, Runes(s), Runes(Collapse(s)), p, q);
    RunesAreDecoded(s);
    RunesAreDecoded(Collapse(s));
  }

  /** Collapsing twice is collapsing once. */
  lemma {:induction false} CollapseTwice(s: seq<byte>)
    ensures Collapse(Collapse(s)) == Collapse(s)
  {
    var p, q := CollapseIsCollapsed(s);
    CollapsedIsTidy(IsSpace, Runes(s), Runes(Collapse(s)), p, q);
    TidyUnchanged(Collapse(s), q);
  }
}
