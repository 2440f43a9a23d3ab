/** Placeholder expansion in the raw configuration text (`expandSecrets`). */
module Secrets {
  import opened Prelude
  import opened Schema

  /** `${NAME}` and `${file:path}`. */
  datatype Pattern = Env | File

  predicate NameStart(c: char) {
    'A' <= c <= 'Z' || c == '_'
  }

  predicate NameChar(c: char) {
    NameStart(c) || '0' <= c <= '9'
  }

  predicate PathChar(c: char) {
    c != '}'
  }

  function Prefix(p: Pattern): string {
    match p
    case Env => "${"
    case File => "${file:"
  }

  predicate BodyChar(p: Pattern, c: char) {
    match p
    case Env => NameChar(c)
    case File => PathChar(c)
  }

  /** The texts that the pattern stands for. */
  predicate IsPlaceholder(p: Pattern, t: string) {
    && |t| >= |Prefix(p)| + 2
    && t[..|Prefix(p)|] == Prefix(p)
    && t[|t| - 1] == '}'
    && (forall i :: |Prefix(p)| <= i < |t| - 1 ==> BodyChar(p, t[i]))
    && (p == Env ==> NameStart(t[2]))
  }

  /** The name or path inside a placeholder. */
  function Body(p: Pattern, t: string): string
    requires IsPlaceholder(p, t)
  {
    t[|Prefix(p)|..|t| - 1]
  }

  // ----- matching -----

  /** How many of the next characters can belong to a name or path. */
  function Run(p: Pattern, s: string): (n: nat)
    ensures n <= |s|
    ensures forall i :: 0 <= i < n ==> BodyChar(p, s[i])
    ensures n < |s| ==> !BodyChar(p, s[n])
  {
    if s != [] && BodyChar(p, s[0]) then 1 + Run(p, s[1..]) else 0
  }

  /** The length of the placeholder that `s` begins with; 0 if there is none. */
  function MatchLen(p: Pattern, s: string): (n: nat)
    ensures n <= |s|
  {
    var k := |Prefix(p)|;
    if |s| < k || s[..k] != Prefix(p) then 0
    else
      var n := Run(p, s[k..]);
      if n == 0 || k + n >= |s| || s[k + n] != '}' || (p == Env && !NameStart(s[k])) then 0
      else k + n + 1
  }

  lemma MatchIsPlaceholder(p: Pattern, s: string)
    requires MatchLen(p, s) > 0
    ensures IsPlaceholder(p, s[..MatchLen(p, s)])
  {
    var k, m := |Prefix(p)|, MatchLen(p, s);
    var t := s[..m];
    assert t[..k] == s[..k] && t[k] == s[k];
    forall i | k <= i < m - 1
      ensures BodyChar(p, t[i])
    {
      SameCharacter(s, m, k, i - k);
    }
  }

  lemma OnlyMatch(p: Pattern, s: string, n: nat)
    requires 0 < n <= |s| && IsPlaceholder(p, s[..n])
    ensures n == MatchLen(p, s)
  {
    var k, t := |Prefix(p)|, s[..n];
    assert t[..k] == s[..k] && t[k] == s[k];
    var rest, m := s[k..], n - 1 - k;
    forall j | 0 <= j < m
      ensures BodyChar(p, rest[j])
    {
      SameCharacter(s, n, k, j);
    }
    SameCharacter(s, n, k, m);
    RunIs(p, rest, m);
  }

  lemma SameCharacter(s: string, n: nat, k: nat, j: nat)
    requires k + j < n <= |s|
    ensures s[k..][j] == s[..n][k + j]
  {
  }

  lemma RunIs(p: Pattern, s: string, n: nat)
    requires n < |s| && !BodyChar(p, s[n]) && forall i :: 0 <= i < n ==> BodyChar(p, s[i])
    ensures Run(p, s) == n
  {
  }

  /** There is at most one placeholder to find at a position, so greediness does not matter. */
  lemma {:induction false} MatchIsUnique(p: Pattern, s: string, n: nat)
    requires 0 < n <= |s|
    ensures IsPlaceholder(p, s[..n]) <==> n == MatchLen(p, s)
  {
    if IsPlaceholder(p, s[..n]) {
      OnlyMatch(p, s, n);
    } else if n == MatchLen(p, s) {
      MatchIsPlaceholder(p, s);
    }
  }

  // ----- factorisation -----

  datatype Piece = Lit(c: char) | Hole(text: string)

  function Text(piece: Piece): string {
    match piece
    case Lit(c) => [c]
    case Hole(t) => t
  }

  function Flat(pieces: seq<Piece>): string {
    if pieces == [] then [] else Text(pieces[0]) + Flat(pieces[1..])
  }

  /** No placeholder stands at the front of `s`. */
  ghost predicate NoneBegins(p: Pattern, s: string) {
    forall n :: 0 < n <= |s| ==> !IsPlaceholder(p, s[..n])
  }

  lemma NoneBeginsIff(p: Pattern, s: string)
    ensures NoneBegins(p, s) <==> MatchLen(p, s) == 0
  {
    if MatchLen(p, s) > 0 {
      MatchIsPlaceholder(p, s);
    } else {
      forall n | 0 < n <= |s|
        ensures !IsPlaceholder(p, s[..n])
      {
        MatchIsUnique(p, s, n);
      }
    }
  }

  /** The holes are placeholders, and nowhere could a placeholder have begun earlier. */
  ghost predicate Leftmost(p: Pattern, pieces: seq<Piece>) {
    pieces == []
    || ((match pieces[0]
         case Hole(t) => IsPlaceholder(p, t)
         case Lit(_) => NoneBegins(p, Flat(pieces)))
        && Leftmost(p, pieces[1..]))
  }

  function Factor(p: Pattern, s: string): seq<Piece>
    decreases |s|
  {
    if s == [] then []
    else
      var n := MatchLen(p, s);
      if n > 0 then [Hole(s[..n])] + Factor(p, s[n..]) else [Lit(s[0])] + Factor(p, s[1..])
  }

  lemma FlatCons(head: Piece, tail: seq<Piece>)
    ensures Flat([head] + tail) == Text(head) + Flat(tail)
  {
    assert ([head] + tail)[1..] == tail;
  }

  lemma LeftmostCons(p: Pattern, head: Piece, tail: seq<Piece>)
    requires Leftmost(p, tail)
    requires head.Hole? ==> IsPlaceholder(p, head.text)
    requires head.Lit? ==> NoneBegins(p, Flat([head] + tail))
    ensures Leftmost(p, [head] + tail)
  {
    assert ([head] + tail)[1..] == tail;
  }

  lemma FlatStep(s: string, n: nat, head: Piece, tail: seq<Piece>)
    requires n <= |s| && Text(head) == s[..n] && Flat(tail) == s[n..]
    ensures Flat([head] + tail) == s
  {
    FlatCons(head, tail);
  }

  lemma {:induction false} FactorFlat(p: Pattern, s: string)
    ensures Flat(Factor(p, s)) == s
    decreases |s|
  {
    if s != [] {
      var n := MatchLen(p, s);
      if n > 0 {
        FactorFlat(p, s[n..]);
        FlatStep(s, n, Hole(s[..n]), Factor(p, s[n..]));
      } else {
        FactorFlat(p, s[1..]);
        FlatStep(s, 1, Lit(s[0]), Factor(p, s[1..]));
      }
    }
  }

  lemma {:induction false} FactorIsLeftmost(p: Pattern, s: string)
    ensures Leftmost(p, Factor(p, s))
    decreases |s|
  {
    if s != [] {
      var n := if MatchLen(p, s) > 0 then MatchLen(p, s) else 1;
      FactorIsLeftmost(p, s[n..]);
      FactorFlat(p, s);
      if MatchLen(p, s) > 0 {
        MatchIsPlaceholder(p, s);
        LeftmostCons(p, Hole(s[..n]), Factor(p, s[n..]));
      } else {
        NoneBeginsIff(p, s);
        LeftmostCons(p, Lit(s[0]), Factor(p, s[n..]));
      }
    }
  }

  /** Leftmost, non-overlapping: these two words leave no choice. */
  lemma {:induction false} LeftmostIsUnique(p: Pattern, a: seq<Piece>, b: seq<Piece>)
    requires Leftmost(p, a) && Leftmost(p, b) && Flat(a) == Flat(b)
    ensures a == b
    decreases |a|
  {
    if a == [] || b == [] {
      EmptyFlat(p, a);
      EmptyFlat(p, b);
    } else {
      var s := Flat(a);
      HeadTells(p, a);
      HeadTells(p, b);
      assert Text(a[0]) == Text(b[0]);
      var n := |Text(a[0])|;
      assert Flat(a[1..]) == s[n..] && Flat(b[1..]) == s[n..];
      LeftmostIsUnique(p, a[1..], b[1..]);
      assert a == [a[0]] + a[1..] && b == [b[0]] + b[1..];
    }
  }

  lemma EmptyFlat(p: Pattern, a: seq<Piece>)
    requires Leftmost(p, a)
    ensures Flat(a) == [] <==> a == []
  {
  }

  /** The first piece is what the matcher finds at the front of the text. */
  lemma HeadTells(p: Pattern, a: seq<Piece>)
    requires Leftmost(p, a) && a != []
    ensures var s := Flat(a);
            && s != []
            && a[0] == if MatchLen(p, s) > 0 then Hole(s[..MatchLen(p, s)]) else Lit(s[0])
  {
    var s := Flat(a);
    match a[0]
    case Hole(t) =>
      assert s[..|t|] == t;
      MatchIsUnique(p, s, |t|);
    case Lit(_) => NoneBeginsIff(p, s);
  }

  // ----- expansion -----

  /** What a placeholder turns into; an unreadable file leaves it as it is. */
  function Replacement(p: Pattern, t: string, w: World): string
    requires IsPlaceholder(p, t)
  {
    match p
    case Env => if Body(p, t) in w.env then w.env[Body(p, t)] else ""
    case File => if Body(p, t) in w.files then TrimRight(w.files[Body(p, t)]) else t
  }

  function Filled(p: Pattern, piece: Piece, w: World): string {
    match piece
    case Lit(c) => [c]
    case Hole(t) => if IsPlaceholder(p, t) then Replacement(p, t, w) else t
  }

  function Fill(p: Pattern, pieces: seq<Piece>, w: World): string {
    if pieces == [] then [] else Filled(p, pieces[0], w) + Fill(p, pieces[1..], w)
  }

  /** The path of the leftmost file placeholder whose file cannot be read. */
  function FirstUnreadable(p: Pattern, pieces: seq<Piece>, w: World): Option<string> {
    if pieces == [] then None
    else if p == File && pieces[0].Hole? && IsPlaceholder(p, pieces[0].text) && Body(p, pieces[0].text) !in w.files
    then Some(Body(p, pieces[0].text))
    else FirstUnreadable(p, pieces[1..], w)
  }

  /** The environment pass, then the file pass over its outcome. */
  function Expanded(s: string, w: World): Result<string, string> {
    var mid := Fill(Env, Factor(Env, s), w);
    var pieces := Factor(File, mid);
    match FirstUnreadable(File, pieces, w)
    case Some(path) => Err(path)
    case None => Ok(Fill(File, pieces, w))
  }

  /** One turn of the scanner: the next `n` characters become `filled`. */
  method ReplaceNext(p: Pattern, rest: string, w: World) returns (n: nat, filled: string, err: Option<string>)
    requires rest != []
    ensures 0 < n <= |rest|
    ensures Fill(p, Factor(p, rest), w) == filled + Fill(p, Factor(p, rest[n..]), w)
    ensures FirstUnreadable(p, Factor(p, rest), w)
         == if err.Some? then err else FirstUnreadable(p, Factor(p, rest[n..]), w)
  {
    n, err := MatchLen(p, rest), None;
    if n == 0 {
      n, filled := 1, [rest[0]];
      assert Factor(p, rest)[1..] == Factor(p, rest[1..]);
    } else {
      MatchIsPlaceholder(p, rest);
      var t := rest[..n];
      if p == File && Body(p, t) !in w.files {
        err := Some(Body(p, t));
      }
      filled := Replacement(p, t, w);
      assert Factor(p, rest)[1..] == Factor(p, rest[n..]);
    }
  }

  /** `ReplaceAllStringFunc` with the callback of either pass. */
  method ReplaceAll(p: Pattern, s: string, w: World) returns (out: string, firstErr: Option<string>)
    ensures out == Fill(p, Factor(p, s), w)
    ensures firstErr == FirstUnreadable(p, Factor(p, s), w)
  {
    out, firstErr := [], None;
    var rest := s;
    while rest != []
      invariant out + Fill(p, Factor(p, rest), w) == Fill(p, Factor(p, s), w)
      invariant FirstUnreadable(p, Factor(p, s), w)
             == if firstErr.Some? then firstErr else FirstUnreadable(p, Factor(p, rest), w)
      decreases |rest|
    {
      var n, filled, err := ReplaceNext(p, rest, w);
      Associative(out, filled, Fill(p, Factor(p, rest[n..]), w));
      out, rest := out + filled, rest[n..];
      if firstErr.None? {
        firstErr := err;
      }
    }
  }

  method ExpandSecrets(s: string, w: World) returns (r: Result<string, string>)
    ensures r == Expanded(s, w)
  {
    var mid, none := ReplaceAll(Env, s, w);
    var out, firstErr := ReplaceAll(File, mid, w);
    if firstErr.Some? {
      return Err(firstErr.value);
    }
    return Ok(out);
  }

  // ----- what the two passes amount to -----

  /** Any leftmost factorisation of the text is the one the scanner works from. */
  lemma {:induction false} FactorisationDecides(p: Pattern, s: string, pieces: seq<Piece>)
    requires Leftmost(p, pieces) && Flat(pieces) == s
    ensures Factor(p, s) == pieces
  {
    FactorFlat(p, s);
    FactorIsLeftmost(p, s);
    LeftmostIsUnique(p, Factor(p, s), pieces);
  }

  /** Filling goes piece by piece: what surrounds a piece does not affect what it becomes. */
  lemma {:induction false} FillConcat(p: Pattern, a: seq<Piece>, b: seq<Piece>, w: World)
    ensures Fill(p, a + b, w) == Fill(p, a, w) + Fill(p, b, w)
  {
    if a == [] {
      assert a + b == b;
    } else {
      FillConcat(p, a[1..], b, w);
      assert (a + b)[0] == a[0] && (a + b)[1..] == a[1..] + b;
      Associative(Filled(p, a[0], w), Fill(p, a[1..], w), Fill(p, b, w));
    }
  }

  lemma {:induction false} HolesAreFilled(p: Pattern, before: seq<Piece>, t: string, after: seq<Piece>, w: World)
    requires Leftmost(p, before + [Hole(t)] + after)
    ensures IsPlaceholder(p, t)
    ensures Fill(p, before + [Hole(t)] + after, w) == Fill(p, before, w) + Replacement(p, t, w) + Fill(p, after, w)
  {
    HoleIsPlaceholder(p, before, t, after);
    FillConcat(p, before + [Hole(t)], after, w);
    FillConcat(p, before, [Hole(t)], w);
    FillOne(p, Hole(t), w);
  }

  lemma FillOne(p: Pattern, piece: Piece, w: World)
    ensures Fill(p, [piece], w) == Filled(p, piece, w)
  {
    assert Fill(p, [piece][1..], w) == [];
  }

  lemma {:induction false} HoleIsPlaceholder(p: Pattern, before: seq<Piece>, t: string, after: seq<Piece>)
    requires Leftmost(p, before + [Hole(t)] + after)
    ensures IsPlaceholder(p, t)
  {
    var all := before + [Hole(t)] + after;
    if before == [] {
      assert all[0] == Hole(t);
    } else {
      assert all[1..] == before[1..] + [Hole(t)] + after;
      HoleIsPlaceholder(p, before[1..], t, after);
    }
  }

  /** `a` is the text as the environment pass takes it apart, `b` what that leaves as the file pass does. */
  ghost predicate TakenApart(s: string, w: World, a: seq<Piece>, b: seq<Piece>) {
    && Leftmost(Env, a) && Flat(a) == s
    && Leftmost(File, b) && Flat(b) == Fill(Env, a, w)
  }

  /** When every file can be read, the text is the second factorisation with its holes filled. */
  lemma {:induction false} ExpansionIs(s: string, w: World, a: seq<Piece>, b: seq<Piece>)
    requires TakenApart(s, w, a, b) && forall i :: 0 <= i < |b| ==> !Unfilled(b[i], w)
    ensures Expanded(s, w) == Ok(Fill(File, b, w))
  {
    FactorisationDecides(Env, s, a);
    FactorisationDecides(File, Flat(b), b);
    FailsIffUnreadable(b, w);
  }

  /** In any surrounding text: the trimmed content of a file stands verbatim where its placeholder stood. */
  lemma {:induction false} FileTextInPlace(
      s: string, w: World, a: seq<Piece>, before: seq<Piece>, t: string, after: seq<Piece>)
    requires TakenApart(s, w, a, before + [Hole(t)] + after)
    requires forall piece :: piece in before + [Hole(t)] + after ==> !Unfilled(piece, w)
    ensures IsPlaceholder(File, t) && Body(File, t) in w.files
    ensures Expanded(s, w) == Ok(Fill(File, before, w) + TrimRight(w.files[Body(File, t)]) + Fill(File, after, w))
  {
    var b := before + [Hole(t)] + after;
    HolesAreFilled(File, before, t, after, w);
    assert Hole(t) in b && !Unfilled(Hole(t), w);
    ExpansionIs(s, w, a, b);
  }

  /** In any surrounding text: the second pass finds an environment value verbatim where its placeholder stood. */
  lemma {:induction false} EnvTextInPlace(
      s: string, w: World, before: seq<Piece>, t: string, after: seq<Piece>, b: seq<Piece>)
    requires TakenApart(s, w, before + [Hole(t)] + after, b)
    ensures IsPlaceholder(Env, t)
    ensures var value := if Body(Env, t) in w.env then w.env[Body(Env, t)] else "";
            Flat(b) == Fill(Env, before, w) + value + Fill(Env, after, w)
  {
    HolesAreFilled(Env, before, t, after, w);
  }

  ghost predicate HasNo(p: Pattern, s: string) {
    forall i :: 0 <= i <= |s| ==> NoneBegins(p, s[i..])
  }

  lemma {:induction false} NothingToFill(p: Pattern, s: string, w: World)
    requires HasNo(p, s)
    ensures Fill(p, Factor(p, s), w) == s && FirstUnreadable(p, Factor(p, s), w) == None
    decreases |s|
  {
    if s != [] {
      assert NoneBegins(p, s[0..]) && s[0..] == s;
      NoneBeginsIff(p, s);
      forall i | 0 <= i <= |s[1..]|
        ensures NoneBegins(p, s[1..][i..])
      {
        assert s[1..][i..] == s[i + 1..];
      }
      NothingToFill(p, s[1..], w);
      assert Factor(p, s)[1..] == Factor(p, s[1..]);
    }
  }

  /** Text without placeholders passes through unchanged. */
  lemma {:induction false} PlainTextUnchanged(s: string, w: World)
    requires HasNo(Env, s) && HasNo(File, s)
    ensures Expanded(s, w) == Ok(s)
  {
    NothingToFill(Env, s, w);
    NothingToFill(File, s, w);
  }

  /** The expansion fails exactly when some file placeholder left by the first pass names an unreadable file. */
  lemma {:induction false} FailsIffUnreadable(pieces: seq<Piece>, w: World)
    ensures FirstUnreadable(File, pieces, w).Some? <==>
            exists i :: 0 <= i < |pieces| && Unfilled(pieces[i], w)
    ensures FirstUnreadable(File, pieces, w).Some? ==>
            exists i :: 0 <= i < |pieces| && Unfilled(pieces[i], w)
                        && FirstUnreadable(File, pieces, w) == Some(Body(File, pieces[i].text))
                        && forall j :: 0 <= j < i ==> !Unfilled(pieces[j], w)
  {
    if pieces != [] {
      FailsIffUnreadable(pieces[1..], w);
      if !Unfilled(pieces[0], w) {
        assert forall i :: 0 < i < |pieces| ==> pieces[i] == pieces[1..][i - 1];
        if i :| 0 <= i < |pieces[1..]| && Unfilled(pieces[1..][i], w)
                && FirstUnreadable(File, pieces[1..], w) == Some(Body(File, pieces[1..][i].text))
                && forall j :: 0 <= j < i ==> !Unfilled(pieces[1..][j], w)
        {
          assert Unfilled(pieces[i + 1], w);
        }
      } else {
        assert Unfilled(pieces[0], w);
      }
    }
  }

  predicate Unfilled(piece: Piece, w: World) {
    piece.Hole? && IsPlaceholder(File, piece.text) && Body(File, piece.text) !in w.files
  }

  /**
   `expandSecrets` fails exactly when a file placeholder of the text that the environment
   pass leaves names an unreadable file, and it reports the leftmost of them.
   */
  lemma {:induction false} ExpansionFailsIff(s: string, w: World, pieces: seq<Piece>)
    requires Leftmost(File, pieces) && Flat(pieces) == Fill(Env, Factor(Env, s), w)
    ensures Expanded(s, w).Err? <==> exists i :: 0 <= i < |pieces| && Unfilled(pieces[i], w)
    ensures Expanded(s, w).Err? ==>
              exists i :: 0 <= i < |pieces| && Unfilled(pieces[i], w)
                          && Expanded(s, w) == Err(Body(File, pieces[i].text))
                          && forall j :: 0 <= j < i ==> !Unfilled(pieces[j], w)
  {
    FactorisationDecides(File, Flat(pieces), pieces);
    FailsIffUnreadable(pieces, w);
  }

  predicate InEnvName(c: char) {
    'A' <= c <= 'Z' || '0' <= c <= '9' || c == '_'
  }

  /** The two patterns, written out: capitals, underscores and, not first, digits; any path without a brace. */
  lemma {:induction false} PlaceholderIs(body: string)
    ensures IsPlaceholder(Env, "${" + body + "}") <==>
            body != "" && !('0' <= body[0] <= '9') && forall i :: 0 <= i < |body| ==> InEnvName(body[i])
    ensures IsPlaceholder(File, "${file:" + body + "}") <==> body != "" && '}' !in body
    ensures IsPlaceholder(Env, "${" + body + "}") ==> Body(Env, "${" + body + "}") == body
    ensures IsPlaceholder(File, "${file:" + body + "}") ==> Body(File, "${file:" + body + "}") == body
  {
    EnvPlaceholderIs(body);
    FilePlaceholderIs(body);
  }

  lemma EnvPlaceholderIs(body: string)
    ensures IsPlaceholder(Env, "${" + body + "}") <==>
            body != "" && !('0' <= body[0] <= '9') && forall i :: 0 <= i < |body| ==> InEnvName(body[i])
    ensures IsPlaceholder(Env, "${" + body + "}") ==> Body(Env, "${" + body + "}") == body
  {
    var t := "${" + body + "}";
    assert t[..2] == "${" && |t| == |body| + 3 && t[|t| - 1] == '}';
    assert forall i :: 0 <= i < |body| ==> t[i + 2] == body[i];
    assert forall i :: 2 <= i < |t| - 1 ==> t[i] == body[i - 2];
  }

  lemma FilePlaceholderIs(body: string)
    ensures IsPlaceholder(File, "${file:" + body + "}") <==> body != "" && '}' !in body
    ensures IsPlaceholder(File, "${file:" + body + "}") ==> Body(File, "${file:" + body + "}") == body
  {
    var t := "${file:" + body + "}";
    assert t[..7] == "${file:" && |t| == |body| + 8 && t[|t| - 1] == '}';
    assert forall i :: 0 <= i < |body| ==> t[i + 7] == body[i];
    assert forall i :: 7 <= i < |t| - 1 ==> t[i] == body[i - 7];
  }
}
