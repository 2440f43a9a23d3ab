/**
 Cutting UTF-8 text: `trimUTF8` (`client.go`), which looks for a code-point boundary, and the
 cut in `truncateForLog` (`slowqueries.go`), which does not. Validity is section 4 of RFC 3629.
 */
module Utf8 {
  import opened Prelude

  type byte = bv8

  /** The test the code makes: the two top bits are 10. */
  predicate Tail(b: byte) {
    b & 0xC0 == 0x80
  }

  /** The length a first byte announces; 0 for a byte that cannot come first. */
  function Width(b: byte): nat {
    if b <= 0x7F then 1
    else if 0xC2 <= b <= 0xDF then 2
    else if 0xE0 <= b <= 0xEF then 3
    else if 0xF0 <= b <= 0xF4 then 4
    else 0
  }

  /** `UTF8-char` of the syntax in section 4. */
  predicate CodePoint(c: seq<byte>) {
    || (|c| == 1 && c[0] <= 0x7F)
    || (|c| == 2 && 0xC2 <= c[0] <= 0xDF && Tail(c[1]))
    || (|c| == 3 && Tail(c[1]) && Tail(c[2])
        && (|| (c[0] == 0xE0 && 0xA0 <= c[1])
            || 0xE1 <= c[0] <= 0xEC
            || (c[0] == 0xED && c[1] <= 0x9F)
            || 0xEE <= c[0] <= 0xEF))
    || (|c| == 4 && Tail(c[1]) && Tail(c[2]) && Tail(c[3])
        && (|| (c[0] == 0xF0 && 0x90 <= c[1])
            || 0xF1 <= c[0] <= 0xF3
            || (c[0] == 0xF4 && c[1] <= 0x8F)))
  }

  /** `UTF8-octets`: a sequence of whole code points. */
  predicate Valid(s: seq<byte>) {
    s == [] || (0 < Width(s[0]) <= |s| && CodePoint(s[..Width(s[0])]) && Valid(s[Width(s[0])..]))
  }

  const ELLIPSIS: seq<byte> := [0xE2, 0x80, 0xA6]

  /** The first byte of a code point is no tail, all its others are. */
  lemma CodePointShape(c: seq<byte>)
    requires CodePoint(c)
    ensures 1 <= |c| <= 4 && Width(c[0]) == |c| && !Tail(c[0])
    ensures forall i :: 0 < i < |c| ==> Tail(c[i])
  {
  }

  lemma ValidCons(c: seq<byte>, t: seq<byte>)
    requires CodePoint(c) && Valid(t)
    ensures Valid(c + t)
  {
    CodePointShape(c);
    assert (c + t)[0] == c[0] && (c + t)[..|c|] == c && (c + t)[|c|..] == t;
  }

  lemma Uncons(s: seq<byte>) returns (c: seq<byte>, t: seq<byte>)
    requires Valid(s) && s != []
    ensures CodePoint(c) && Valid(t) && s == c + t && |t| < |s|
  {
    var w := Width(s[0]);
    c, t := s[..w], s[w..];
  }

  lemma {:induction false} ValidConcat(a: seq<byte>, b: seq<byte>)
    requires Valid(a) && Valid(b)
    ensures Valid(a + b)
    decreases |a|
  {
    if a == [] {
      assert a + b == b;
    } else {
      var c, t := Uncons(a);
      ValidConcat(t, b);
      ValidCons(c, t + b);
      Associative(c, t, b);
    }
  }

  /** Part of a code point is no valid text. */
  lemma PartInvalid(c: seq<byte>, i: nat)
    requires CodePoint(c) && 0 < i < |c|
    ensures !Valid(c[..i])
  {
    CodePointShape(c);
    assert c[..i][0] == c[0];
  }

  lemma ValidConsIff(c: seq<byte>, t: seq<byte>)
    requires CodePoint(c)
    ensures Valid(c + t) <==> Valid(t)
  {
    CodePointShape(c);
    assert (c + t)[0] == c[0] && (c + t)[..|c|] == c && (c + t)[|c|..] == t;
  }

  /** A prefix of a valid text is valid exactly when what follows it does not begin with a tail. */
  lemma {:induction false} PrefixValidIff(s: seq<byte>, i: nat)
    requires Valid(s) && i <= |s|
    ensures Valid(s[..i]) <==> i == |s| || !Tail(s[i])
    ensures Valid(s[..i]) ==> Valid(s[i..])
    decreases |s|
  {
    if i == |s| {
      assert s[..i] == s && s[i..] == [];
    } else {
      var c, t := Uncons(s);
      CodePointShape(c);
      if i == 0 {
        assert s[0] == c[0] && s[0..] == s;
      } else if i < |c| {
        assert s[i] == c[i] && s[..i] == c[..i];
        PartInvalid(c, i);
      } else {
        var k := i - |c|;
        assert s[i] == t[k] && s[i..] == t[k..];
        assert s[..i] == c + t[..k];
        PrefixValidIff(t, k);
        ValidConsIff(c, t[..k]);
      }
    }
  }

  /** No four bytes in a row are tails. */
  lemma {:induction false} NoFourTails(s: seq<byte>, i: nat)
    requires Valid(s) && i + 3 < |s|
    ensures !(Tail(s[i]) && Tail(s[i + 1]) && Tail(s[i + 2]) && Tail(s[i + 3]))
  {
    var w := Width(s[0]);
    CodePointShape(s[..w]);
    if i >= w {
      NoFourTails(s[w..], i - w);
    } else if w < |s| && w <= i + 3 {
      CodePointShape(s[w..][..Width(s[w])]);
      assert s[w] == s[w..][0] && !Tail(s[w]);
    }
  }

  lemma EllipsisIsValid()
    ensures Valid(ELLIPSIS)
  {
    assert ELLIPSIS[..3] == ELLIPSIS && ELLIPSIS[3..] == [];
    assert Valid(ELLIPSIS[3..]);
  }

  /** Putting an ellipsis after a text neither repairs nor breaks it. */
  lemma EllipsisKeepsValidity(a: seq<byte>)
    ensures Valid(a + ELLIPSIS) <==> Valid(a)
  {
    var b := a + ELLIPSIS;
    EllipsisIsValid();
    if Valid(a) {
      ValidConcat(a, ELLIPSIS);
    }
    if Valid(b) {
      assert b[|a|] == 0xE2 && b[..|a|] == a;
      PrefixValidIff(b, |a|);
    }
  }

  /** Where the loop of `trimUTF8` stops. */
  ghost predicate StopsAt(s: seq<byte>, n: nat, m: nat)
    requires n < |s|
  {
    && m <= n
    && (m == 0 || !Tail(s[m]))
    && forall k :: m < k <= n ==> Tail(s[k])
  }

  /** `trimUTF8`. */
  method TrimUTF8(s: seq<byte>, limit: nat) returns (r: seq<byte>, ghost m: nat)
    ensures |s| <= limit ==> r == s
    ensures |s| > limit ==> StopsAt(s, limit, m) && r == s[..m] + ELLIPSIS
  {
    m := 0;
    if |s| <= limit {
      return s, m;
    }
    var n: nat := limit;
    while n > 0 && Tail(s[n])
      invariant n <= limit
      invariant forall k :: n < k <= limit ==> Tail(s[k])
    {
      n := n - 1;
    }
    return s[..n] + ELLIPSIS, n;
  }

  /**
   On valid text longer than the limit, what stays is the longest prefix within the limit
   that is made of whole code points, at most three bytes below it.
   */
  lemma {:induction false} TrimIsLongestWhole(s: seq<byte>, limit: nat, m: nat)
    requires Valid(s) && limit < |s| && StopsAt(s, limit, m)
    ensures Valid(s[..m]) && Valid(s[..m] + ELLIPSIS)
    ensures forall k :: 0 <= k <= limit && Valid(s[..k]) ==> k <= m
    ensures limit - m <= 3
  {
    PrefixValidIff(s, m);
    if m == 0 {
      assert s[..0] == [];
    }
    EllipsisKeepsValidity(s[..m]);
    forall k | m < k <= limit
      ensures !Valid(s[..k])
    {
      PrefixValidIff(s, k);
    }
    if limit - m > 3 {
      NoFourTails(s, limit - 3);
    }
  }

  /** The cut of `truncateForLog`, once white space has been collapsed. */
  function CutForLog(s: seq<byte>, n: nat): seq<byte> {
    if |s| <= n then s else s[..n] + ELLIPSIS
  }

  /** The cut of `truncateForLog` leaves valid text valid exactly when it does not fall inside a code point. */
  lemma {:induction false} LogCutValidIff(s: seq<byte>, n: nat)
    requires Valid(s)
    ensures Valid(CutForLog(s, n)) <==> |s| <= n || !Tail(s[n])
  {
    if |s| > n {
      EllipsisKeepsValidity(s[..n]);
      PrefixValidIff(s, n);
    }
  }
}
