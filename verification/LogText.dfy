/** `truncateForLog` (`slowqueries.go`) on bytes: collapse white space, then cut. */
module LogText {
  import opened Prelude
  import opened Utf8

  const SPACE: byte := 0x20

  /** Line feeds and carriage returns become blanks. */
  function Blanked(s: seq<byte>): seq<byte> {
    if s == [] then [] else [if s[0] == 0x0A || s[0] == 0x0D then SPACE else s[0]] + Blanked(s[1..])
  }

  /** How many bytes Go decodes at the front: a whole code point, or one byte that begins none. */
  function RuneLength(s: seq<byte>): (n: nat)
    requires s != []
    ensures 0 < n <= |s|
  {
    var w := Width(s[0]);
    if 0 < w <= |s| && CodePoint(s[..w]) then w else 1
  }

  function Runes(s: seq<byte>): seq<seq<byte>> {
    if s == [] then [] else [s[..RuneLength(s)]] + Runes(s[RuneLength(s)..])
  }

  /** `unicode.IsSpace`. */
  predicate IsSpace(c: seq<byte>) {
    || (|c| == 1 && (0x09 <= c[0] <= 0x0D || c[0] == SPACE))
    || c == [0xC2, 0x85] || c == [0xC2, 0xA0] || c == [0xE1, 0x9A, 0x80]
    || (|c| == 3 && c[0] == 0xE2 && c[1] == 0x80
        && (0x80 <= c[2] <= 0x8A || c[2] == 0xA8 || c[2] == 0xA9 || c[2] == 0xAF))
    || c == [0xE2, 0x81, 0x9F] || c == [0xE3, 0x80, 0x80]
  }

  /** `strings.Fields` of what is left to read, `word` being the field under way. */
  function Fields(runes: seq<seq<byte>>, word: seq<byte>): seq<seq<byte>> {
    var done := if word == [] then [] else [word];
    if runes == [] then done
    else if IsSpace(runes[0]) then done + Fields(runes[1..], [])
    else Fields(runes[1..], word + runes[0])
  }

  /** `strings.Join` with a blank. */
  function Join(words: seq<seq<byte>>): seq<byte> {
    if words == [] then [] else if |words| == 1 then words[0] else words[0] + [SPACE] + Join(words[1..])
  }

  function Collapse(s: seq<byte>): seq<byte> {
    Join(Fields(Runes(Blanked(s)), []))
  }

  function TruncateForLog(s: seq<byte>, n: nat): seq<byte> {
    CutForLog(Collapse(s), n)
  }

  // ----- validity -----

  lemma {:induction false} BlankedConcat(a: seq<byte>, b: seq<byte>)
    ensures Blanked(a + b) == Blanked(a) + Blanked(b)
  {
    if a == [] {
      assert a + b == b;
    } else {
      var t, head := a[1..], if a[0] == 0x0A || a[0] == 0x0D then SPACE else a[0];
      assert (a + b)[0] == a[0] && (a + b)[1..] == t + b;
      BlankedConcat(t, b);
      Associative([head], Blanked(t), Blanked(b));
    }
  }

  lemma NoBreakIn(c: seq<byte>)
    requires CodePoint(c) && |c| > 1
    ensures forall i :: 0 <= i < |c| ==> c[i] != 0x0A && c[i] != 0x0D
  {
    CodePointShape(c);
  }

  lemma {:induction false} BlankedSame(s: seq<byte>)
    requires forall i :: 0 <= i < |s| ==> s[i] != 0x0A && s[i] != 0x0D
    ensures Blanked(s) == s
  {
    if s != [] {
      BlankedSame(s[1..]);
    }
  }

  lemma BlankedCodePoint(c: seq<byte>)
    requires CodePoint(c)
    ensures CodePoint(Blanked(c))
  {
    if |c| == 1 {
      assert Blanked(c[1..]) == [];
    } else {
      NoBreakIn(c);
      BlankedSame(c);
    }
  }

  lemma {:induction false} BlankedValid(s: seq<byte>)
    requires Valid(s)
    ensures Valid(Blanked(s))
    decreases |s|
  {
    if s != [] {
      var c, t := Uncons(s);
      BlankedConcat(c, t);
      BlankedCodePoint(c);
      BlankedValid(t);
      ValidCons(Blanked(c), Blanked(t));
    }
  }

  lemma {:induction false} RunesAreCodePoints(s: seq<byte>)
    requires Valid(s)
    ensures forall i :: 0 <= i < |Runes(s)| ==> CodePoint(Runes(s)[i])
  {
    if s != [] {
      RunesAreCodePoints(s[RuneLength(s)..]);
    }
  }

  lemma CodePointIsValid(c: seq<byte>)
    requires CodePoint(c)
    ensures Valid(c)
  {
    ValidCons(c, []);
    assert c + [] == c;
  }

  lemma {:induction false} FieldsAreValid(runes: seq<seq<byte>>, word: seq<byte>)
    requires Valid(word) && forall i :: 0 <= i < |runes| ==> CodePoint(runes[i])
    ensures forall i :: 0 <= i < |Fields(runes, word)| ==> Valid(Fields(runes, word)[i])
    decreases |runes|
  {
    if runes != [] {
      if IsSpace(runes[0]) {
        FieldsAreValid(runes[1..], []);
      } else {
        CodePointIsValid(runes[0]);
        ValidConcat(word, runes[0]);
        FieldsAreValid(runes[1..], word + runes[0]);
      }
    }
  }

  lemma {:induction false} JoinIsValid(words: seq<seq<byte>>)
    requires forall i :: 0 <= i < |words| ==> Valid(words[i])
    ensures Valid(Join(words))
  {
    if |words| > 1 {
      JoinIsValid(words[1..]);
      CodePointIsValid([SPACE]);
      ValidConcat(words[0], [SPACE]);
      ValidConcat(words[0] + [SPACE], Join(words[1..]));
    }
  }

  /** Collapsing keeps valid text valid. */
  lemma {:induction false} CollapseKeepsValid(s: seq<byte>)
    requires Valid(s)
    ensures Valid(Collapse(s))
  {
    BlankedValid(s);
    RunesAreCodePoints(Blanked(s));
    FieldsAreValid(Runes(Blanked(s)), []);
    JoinIsValid(Fields(Runes(Blanked(s)), []));
  }

  /** The log form of valid text is valid exactly when the cut falls inside no code point of the collapsed text. */
  lemma {:induction false} TruncateValidIff(s: seq<byte>, n: nat)
    requires Valid(s)
    ensures Valid(TruncateForLog(s, n)) <==> |Collapse(s)| <= n || !Tail(Collapse(s)[n])
  {
    CollapseKeepsValid(s);
    LogCutValidIff(Collapse(s), n);
  }

  // ----- one line -----

  predicate OneLine(s: seq<byte>) {
    0x0A !in s && 0x0D !in s
  }

  lemma {:induction false} BlankedIsOneLine(s: seq<byte>)
    ensures OneLine(Blanked(s))
  {
    if s != [] {
      BlankedIsOneLine(s[1..]);
    }
  }

  lemma {:induction false} RunesAreOneLine(s: seq<byte>)
    requires OneLine(s)
    ensures forall i :: 0 <= i < |Runes(s)| ==> OneLine(Runes(s)[i])
  {
    if s != [] {
      RunesAreOneLine(s[RuneLength(s)..]);
    }
  }

  lemma {:induction false} FieldsAreOneLine(runes: seq<seq<byte>>, word: seq<byte>)
    requires OneLine(word) && forall i :: 0 <= i < |runes| ==> OneLine(runes[i])
    ensures forall i :: 0 <= i < |Fields(runes, word)| ==> OneLine(Fields(runes, word)[i])
    decreases |runes|
  {
    if runes != [] {
      if IsSpace(runes[0]) {
        FieldsAreOneLine(runes[1..], []);
      } else {
        FieldsAreOneLine(runes[1..], word + runes[0]);
      }
    }
  }

  lemma {:induction false} JoinIsOneLine(words: seq<seq<byte>>)
    requires forall i :: 0 <= i < |words| ==> OneLine(words[i])
    ensures OneLine(Join(words))
  {
    if |words| > 1 {
      JoinIsOneLine(words[1..]);
    }
  }

  /** Whatever the text, valid or not, its log form is a single line. */
  lemma {:induction false} TruncatedIsOneLine(s: seq<byte>, n: nat)
    ensures OneLine(TruncateForLog(s, n))
  {
    BlankedIsOneLine(s);
    RunesAreOneLine(Blanked(s));
    FieldsAreOneLine(Runes(Blanked(s)), []);
    JoinIsOneLine(Fields(Runes(Blanked(s)), []));
    assert 0x0A !in ELLIPSIS && 0x0D !in ELLIPSIS;
  }

  /** A text within the limit is kept; a longer one is its first bytes and an ellipsis, U+2026. */
  lemma {:induction false} TruncatedIs(s: seq<byte>, n: nat)
    ensures |Collapse(s)| <= n ==> TruncateForLog(s, n) == Collapse(s)
    ensures |Collapse(s)| > n ==> TruncateForLog(s, n) == Collapse(s)[..n] + [0xE2, 0x80, 0xA6]
  {
  }
}
