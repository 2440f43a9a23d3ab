/**
 The label text of the slow-query endpoint (`slowqueries.go`) and the reader that
 section "ABNF" of OpenMetrics 1.0.0 prescribes for it. Strings are sequences of
 Unicode scalar values.
 */
module OpenMetrics {
  import opened Prelude

  // ----- escaping -----

  /** `strings.ReplaceAll` for a one-character pattern. */
  function ReplaceAll(s: string, c: char, by_: string): string {
    if s == [] then [] else (if s[0] == c then by_ else [s[0]]) + ReplaceAll(s[1..], c, by_)
  }

  /** `openMetricsEscape`: three passes, backslashes first. */
  function OpenMetricsEscape(s: string): string {
    ReplaceAll(ReplaceAll(ReplaceAll(s, '\\', "\\\\"), '"', "\\\""), '\n', "\\n")
  }

  /** How section "Escaping" writes one character. */
  function EscapeChar(c: char): string {
    if c == '\\' then "\\\\" else if c == '"' then "\\\"" else if c == '\n' then "\\n" else [c]
  }

  function Escape(s: string): string {
    if s == [] then [] else EscapeChar(s[0]) + Escape(s[1..])
  }

  lemma {:induction false} ReplaceAllConcat(a: string, b: string, c: char, by_: string)
    ensures ReplaceAll(a + b, c, by_) == ReplaceAll(a, c, by_) + ReplaceAll(b, c, by_)
  {
    if a == [] {
      assert a + b == b;
    } else {
      var t, head := a[1..], if a[0] == c then by_ else [a[0]];
      assert (a + b)[0] == a[0] && (a + b)[1..] == t + b;
      ReplaceAllConcat(t, b, c, by_);
      Associative(head, ReplaceAll(t, c, by_), ReplaceAll(b, c, by_));
    }
  }

  lemma ReplaceAllChar(d: char, c: char, by_: string)
    ensures ReplaceAll([d], c, by_) == if d == c then by_ else [d]
  {
    assert ReplaceAll([d][1..], c, by_) == [];
  }

  lemma EscapeOneChar(d: char)
    ensures OpenMetricsEscape([d]) == EscapeChar(d)
  {
    ReplaceAllChar(d, '\\', "\\\\");
    if d == '\\' {
      ReplaceAllPair('\\', '\\', '"', "\\\"");
      ReplaceAllPair('\\', '\\', '\n', "\\n");
    } else {
      ReplaceAllChar(d, '"', "\\\"");
      if d == '"' {
        ReplaceAllPair('\\', '"', '\n', "\\n");
      } else {
        ReplaceAllChar(d, '\n', "\\n");
      }
    }
  }

  lemma ReplaceAllPair(d: char, e: char, c: char, by_: string)
    requires d != c && e != c
    ensures ReplaceAll([d, e], c, by_) == [d, e]
  {
    assert [d, e] == [d] + [e];
    ReplaceAllConcat([d], [e], c, by_);
    ReplaceAllChar(d, c, by_);
    ReplaceAllChar(e, c, by_);
  }

  /** The three passes do not get in each other's way: together they are the one-pass escape. */
  lemma {:induction false} ThreePassesAreOne(s: string)
    ensures OpenMetricsEscape(s) == Escape(s)
  {
    if s != [] {
      ThreePassesAreOne(s[1..]);
      EscapeOneChar(s[0]);
      assert s == [s[0]] + s[1..];
      ReplaceAllConcat([s[0]], s[1..], '\\', "\\\\");
      var a, b := ReplaceAll([s[0]], '\\', "\\\\"), ReplaceAll(s[1..], '\\', "\\\\");
      ReplaceAllConcat(a, b, '"', "\\\"");
      ReplaceAllConcat(ReplaceAll(a, '"', "\\\""), ReplaceAll(b, '"', "\\\""), '\n', "\\n");
    }
  }

  lemma {:induction false} EscapeHasNoNewline(s: string)
    ensures '\n' !in Escape(s)
  {
    if s != [] {
      EscapeHasNoNewline(s[1..]);
    }
  }

  /** Escaping is visible exactly on backslashes, quotes and newlines. */
  lemma {:induction false} EscapeIsIdentityIff(s: string)
    ensures |Escape(s)| >= |s|
    ensures Escape(s) == s <==> '\\' !in s && '"' !in s && '\n' !in s
  {
    if s != [] {
      EscapeIsIdentityIff(s[1..]);
      if EscapeChar(s[0]) == [s[0]] {
        assert Escape(s)[1..] == Escape(s[1..]);
        assert s == [s[0]] + s[1..];
      } else {
        assert |Escape(s)| > |s|;
      }
    }
  }

  // ----- reading -----

  /** What a backslash followed by `c` stands for; an undefined escape stands for itself. */
  function EscapeMeaning(c: char): Option<string> {
    if c == 'n' then Some("\n")
    else if c == '"' || c == '\\' then Some([c])
    else if c == '\n' then None
    else Some(['\\', c])
  }

  /** Reads `*escaped-char DQUOTE`: the text meant and what follows the quote. */
  function ReadString(s: string): (r: Option<(string, string)>)
    ensures r.Some? ==> |r.value.1| < |s|
  {
    if s == [] || s[0] == '\n' then None
    else if s[0] == '"' then Some(("", s[1..]))
    else if s[0] != '\\' then Prepend([s[0]], ReadString(s[1..]))
    else if |s| == 1 || EscapeMeaning(s[1]).None? then None
    else Prepend(EscapeMeaning(s[1]).value, ReadString(s[2..]))
  }

  function Prepend(head: string, r: Option<(string, string)>): Option<(string, string)> {
    if r.None? then None else Some((head + r.value.0, r.value.1))
  }

  predicate NameStart(c: char) {
    'a' <= c <= 'z' || 'A' <= c <= 'Z' || c == '_'
  }

  predicate NameChar(c: char) {
    NameStart(c) || '0' <= c <= '9'
  }

  predicate IsLabelName(s: string) {
    s != [] && NameStart(s[0]) && forall i :: 0 <= i < |s| ==> NameChar(s[i])
  }

  type Name = s: string | IsLabelName(s) witness "a"

  datatype Label = Label(key: Name, value: string)

  /** How many name characters a text starts with. */
  function NameLength(s: string): (n: nat)
    ensures n <= |s| && forall i :: 0 <= i < n ==> NameChar(s[i])
    ensures n < |s| ==> !NameChar(s[n])
  {
    if s == [] || !NameChar(s[0]) then 0 else 1 + NameLength(s[1..])
  }

  /** Reads `label-name "=" DQUOTE escaped-string DQUOTE`. */
  function ReadLabel(s: string): (r: Option<(Label, string)>)
    ensures r.Some? ==> |r.value.1| < |s|
  {
    var n := NameLength(s);
    if !IsLabelName(s[..n]) || |s| < n + 2 || s[n] != '=' || s[n + 1] != '"' then None
    else
      var v := ReadString(s[n + 2..]);
      if v.None? then None else Some((Label(s[..n], v.value.0), v.value.1))
  }

  /** Reads `label *("," label)`. */
  function ReadLabels(s: string): Option<(seq<Label>, string)>
    decreases |s|
  {
    var first := ReadLabel(s);
    if first.None? then None
    else if first.value.1 == [] || first.value.1[0] != ',' then Some(([first.value.0], first.value.1))
    else
      var others := ReadLabels(first.value.1[1..]);
      if others.None? then None else Some(([first.value.0] + others.value.0, others.value.1))
  }

  /** Reads a label set from after its opening brace to after its closing one. */
  function ReadLabelSet(s: string): Option<(seq<Label>, string)> {
    if s != [] && s[0] == '}' then Some(([], s[1..]))
    else
      var r := ReadLabels(s);
      if r.None? || r.value.1 == [] || r.value.1[0] != '}' then None else Some((r.value.0, r.value.1[1..]))
  }

  // ----- writing, and reading back -----

  function LabelText(l: Label): string {
    l.key + "=\"" + Escape(l.value) + "\""
  }

  function Joined(ls: seq<Label>): string {
    if ls == [] then "" else if |ls| == 1 then LabelText(ls[0]) else LabelText(ls[0]) + "," + Joined(ls[1..])
  }

  /** The labels that are written: those with a value. */
  function NonEmpty(ls: seq<Label>): seq<Label> {
    if ls == [] then []
    else NonEmpty(ls[..|ls| - 1]) + if ls[|ls| - 1].value == "" then [] else [ls[|ls| - 1]]
  }

  lemma {:induction false} JoinedSnoc(ls: seq<Label>, l: Label)
    requires ls != []
    ensures Joined(ls + [l]) == Joined(ls) + "," + LabelText(l)
  {
    if |ls| == 1 {
      assert (ls + [l])[1..] == [l];
    } else {
      JoinedSnoc(ls[1..], l);
      assert (ls + [l])[1..] == ls[1..] + [l];
    }
  }

  lemma NonEmptySnoc(ls: seq<Label>, l: Label)
    ensures NonEmpty(ls + [l]) == if l.value == "" then NonEmpty(ls) else NonEmpty(ls) + [l]
  {
    assert (ls + [l])[..|ls|] == ls;
  }

  lemma JoinedStep(ls: seq<Label>, l: Label)
    ensures l.value == "" ==> NonEmpty(ls + [l]) == NonEmpty(ls)
    ensures l.value != "" ==> NonEmpty(ls + [l]) != []
                              && Joined(NonEmpty(ls + [l]))
                              == Joined(NonEmpty(ls)) + (if NonEmpty(ls) == [] then "" else ",") + LabelText(l)
  {
    NonEmptySnoc(ls, l);
    if l.value != "" && NonEmpty(ls) != [] {
      JoinedSnoc(NonEmpty(ls), l);
    }
  }

  /** `joinLabels`. */
  method JoinLabels(ls: seq<Label>) returns (text: string)
    ensures text == Joined(NonEmpty(ls))
  {
    text := "";
    var first := true;
    for i := 0 to |ls|
      invariant first <==> NonEmpty(ls[..i]) == []
      invariant text == Joined(NonEmpty(ls[..i]))
    {
      assert ls[..i + 1] == ls[..i] + [ls[i]];
      JoinedStep(ls[..i], ls[i]);
      if ls[i].value == "" {
        continue;
      }
      if !first {
        text := text + ",";
      }
      first := false;
      ThreePassesAreOne(ls[i].value);
      text := text + (ls[i].key + "=\"" + OpenMetricsEscape(ls[i].value) + "\"");
    }
    assert ls[..|ls|] == ls;
  }

  lemma ReadEscapedChar(c: char, s: string)
    ensures ReadString(EscapeChar(c) + s) == Prepend([c], ReadString(s))
  {
    assert (EscapeChar(c) + s)[|EscapeChar(c)|..] == s;
  }

  /** What was escaped reads back as it was: the escape has a left inverse. */
  lemma {:induction false} StringReadsBack(v: string, rest: string)
    ensures ReadString(Escape(v) + "\"" + rest) == Some((v, rest))
  {
    if v == [] {
      assert Escape(v) + "\"" + rest == "\"" + rest;
    } else {
      var tail := Escape(v[1..]) + "\"" + rest;
      StringReadsBack(v[1..], rest);
      assert Escape(v) + "\"" + rest == EscapeChar(v[0]) + tail;
      ReadEscapedChar(v[0], tail);
      assert v == [v[0]] + v[1..];
    }
  }

  lemma {:induction false} NameLengthIs(k: string, rest: string)
    requires forall i :: 0 <= i < |k| ==> NameChar(k[i])
    requires rest != [] && !NameChar(rest[0])
    ensures NameLength(k + rest) == |k|
  {
    var n := NameLength(k + rest);
    assert (k + rest)[|k|] == rest[0];
    assert forall i :: 0 <= i < |k| ==> (k + rest)[i] == k[i];
  }

  lemma ReadLabelShape(k: Name, quoted: string)
    requires ReadString(quoted).Some?
    ensures ReadLabel(k + "=\"" + quoted) == Some((Label(k, ReadString(quoted).value.0), ReadString(quoted).value.1))
  {
    var s := k + "=\"" + quoted;
    Associative(k, "=\"", quoted);
    NameLengthIs(k, "=\"" + quoted);
    assert s[..|k|] == k && s[|k|] == '=' && s[|k| + 1] == '"' && s[|k| + 2..] == quoted;
  }

  lemma LabelReadsBack(l: Label, rest: string)
    ensures ReadLabel(LabelText(l) + rest) == Some((l, rest))
  {
    var quoted := Escape(l.value) + "\"" + rest;
    StringReadsBack(l.value, rest);
    ReadLabelShape(l.key, quoted);
    Regroup(l.key + "=\"", Escape(l.value), "\"", rest);
  }

  lemma LastLabelReadsBack(s: string, l: Label, rest: string)
    requires ReadLabel(s) == Some((l, rest)) && rest != [] && rest[0] != ','
    ensures ReadLabels(s) == Some(([l], rest))
  {
  }

  lemma FirstLabelReadsBack(l: Label, more: string)
    requires ReadLabels(more).Some?
    ensures ReadLabels(LabelText(l) + "," + more) == Some(([l] + ReadLabels(more).value.0, ReadLabels(more).value.1))
  {
    var rest := "," + more;
    assert rest[0] == ',' && rest[1..] == more;
    LabelReadsBack(l, rest);
    Associative(LabelText(l), ",", more);
  }

  lemma JoinedCons(ls: seq<Label>, rest: string)
    requires |ls| > 1
    ensures Joined(ls) + rest == LabelText(ls[0]) + "," + (Joined(ls[1..]) + rest)
  {
    Associative(LabelText(ls[0]) + ",", Joined(ls[1..]), rest);
  }

  lemma {:induction false} LabelsReadBack(ls: seq<Label>, rest: string)
    requires ls != []
    requires rest != [] && rest[0] != ','
    ensures ReadLabels(Joined(ls) + rest) == Some((ls, rest))
  {
    var l, others := ls[0], ls[1..];
    assert ls == [l] + others;
    if |ls| == 1 {
      assert ls == [l];
      LabelReadsBack(l, rest);
      LastLabelReadsBack(LabelText(l) + rest, l, rest);
    } else {
      LabelsReadBack(others, rest);
      JoinedCons(ls, rest);
      FirstLabelReadsBack(l, Joined(others) + rest);
    }
  }

  lemma StartsWithName(ls: seq<Label>)
    requires ls != []
    ensures Joined(ls) != "" && Joined(ls)[0] != '}'
  {
    assert Joined(ls)[0] == ls[0].key[0];
  }

  /** The labels kept are those with a value, in their order. */
  lemma {:induction false} NonEmptyKeepsOrder(ls: seq<Label>) returns (at: seq<int>)
    ensures Subsequence(NonEmpty(ls), ls, at)
    ensures forall k :: 0 <= k < |ls| ==> (ls[k].value != "" <==> k in at)
  {
    if ls == [] {
      at := [];
    } else {
      var init, last := ls[..|ls| - 1], ls[|ls| - 1];
      assert ls == init + [last];
      at := NonEmptyKeepsOrder(init);
      SubsequenceSnoc(NonEmpty(init), init, at, last);
      assert forall k :: 0 <= k < |init| ==> ls[k] == init[k];
      if last.value != "" {
        at := at + [|init|];
      }
    }
  }

  lemma SubsequenceSnoc<T>(sub: seq<T>, s: seq<T>, at: seq<int>, x: T)
    requires Subsequence(sub, s, at)
    ensures Subsequence(sub, s + [x], at) && Subsequence(sub + [x], s + [x], at + [|s|]) && |s| !in at
  {
  }

  /** Reading what `joinLabels` wrote gives the labels that have a value, in order, and nothing else. */
  lemma {:induction false} LabelSetReadsBack(ls: seq<Label>, rest: string)
    ensures ReadLabelSet(Joined(NonEmpty(ls)) + "}" + rest) == Some((NonEmpty(ls), rest))
  {
    var kept := NonEmpty(ls);
    if kept == [] {
      assert Joined(kept) + "}" + rest == "}" + rest;
    } else {
      LabelsReadBack(kept, "}" + rest);
      Associative(Joined(kept), "}", rest);
      StartsWithName(kept);
    }
  }

  lemma {:induction false} JoinedHasNoNewline(ls: seq<Label>)
    ensures '\n' !in Joined(ls)
  {
    if ls != [] {
      EscapeHasNoNewline(ls[0].value);
      JoinedHasNoNewline(ls[1..]);
    }
  }
}
