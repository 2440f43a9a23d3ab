/**
 The text that the pool hashes into a driver key. Five fields are written with a
 '|' between them; nothing escapes a '|' inside a field. SHA-256 is taken to be
 injective, so a key is identified with the text that is hashed.
 */
module ConnectionIdentity {

  datatype Identity = Identity(scheme: string, address: string, username: string, password: string, auth: string)

  const FIELD_COUNT: nat := 5

  function Fields(id: Identity): seq<string> {
    [id.scheme, id.address, id.username, id.password, id.auth]
  }

  /** What `authHash` feeds to the digest. */
  function Preimage(id: Identity): string {
    id.scheme + "|" + id.address + "|" + id.username + "|" + id.password + "|" + id.auth
  }

  function Join(fields: seq<string>): string
    requires |fields| > 0
  {
    if |fields| == 1 then fields[0] else fields[0] + "|" + Join(fields[1..])
  }

  predicate PipeFree(s: string) {
    '|' !in s
  }

  /** Only the fields whose position is in `open` may contain a '|'. */
  predicate PipesWithin(fields: seq<string>, open: set<int>) {
    forall i :: 0 <= i < |fields| && i !in open ==> PipeFree(fields[i])
  }

  lemma PreimageIsJoin(id: Identity)
    ensures Preimage(id) == Join(Fields(id))
  {
    var f := Fields(id);
    assert f[1..][1..][1..][1..] == [id.auth];
    assert Join(f[1..][1..][1..][1..]) == id.auth;
    assert Join(f[1..][1..][1..]) == id.password + "|" + id.auth;
    assert Join(f[1..][1..]) == id.username + "|" + (id.password + "|" + id.auth);
    assert Join(f[1..]) == id.address + "|" + (id.username + "|" + (id.password + "|" + id.auth));
  }

  lemma FirstPipe(a: string, b: string, c: string, d: string)
    requires a + "|" + b == c + "|" + d
    requires PipeFree(a) && PipeFree(c)
    ensures a == c && b == d
  {
    var s := a + "|" + b;
    assert s[|a|] == '|' && s[|c|] == '|';
    assert forall i :: 0 <= i < |a| ==> s[i] == a[i];
    assert forall i :: 0 <= i < |c| ==> s[i] == c[i];
    assert |a| == |c|;
    assert a == s[..|a|] && c == s[..|c|];
    assert b == s[|a| + 1..] && d == s[|c| + 1..];
  }

  lemma LastPipe(a: string, b: string, c: string, d: string)
    requires a + "|" + b == c + "|" + d
    requires PipeFree(b) && PipeFree(d)
    ensures a == c && b == d
  {
    var s := a + "|" + b;
    assert s[|a|] == '|' && s[|c|] == '|';
    assert forall i :: |a| < i < |s| ==> s[i] == b[i - |a| - 1];
    assert forall i :: |c| < i < |s| ==> s[i] == d[i - |c| - 1];
    assert |a| == |c|;
    assert a == s[..|a|] && c == s[..|c|];
    assert b == s[|a| + 1..] && d == s[|c| + 1..];
  }

  lemma {:induction false} JoinSnoc(fields: seq<string>)
    requires |fields| > 1
    ensures Join(fields) == Join(fields[..|fields| - 1]) + "|" + fields[|fields| - 1]
  {
    var n := |fields|;
    if n == 2 {
      assert Join(fields[1..]) == fields[1];
    } else {
      JoinSnoc(fields[1..]);
      assert fields[1..][..n - 2] == fields[..n - 1][1..];
    }
  }

  /** When one fixed position alone may hold a '|', the joined text determines every field. */
  lemma {:induction false} JoinInjective(f: seq<string>, g: seq<string>, open: nat)
    requires |f| == |g| > 0 && open < |f|
    requires PipesWithin(f, {open}) && PipesWithin(g, {open})
    requires Join(f) == Join(g)
    ensures f == g
    decreases |f|
  {
    var n := |f|;
    if n == 1 {
    } else if open > 0 {
      FirstPipe(f[0], Join(f[1..]), g[0], Join(g[1..]));
      JoinInjective(f[1..], g[1..], open - 1);
      assert f == [f[0]] + f[1..] && g == [g[0]] + g[1..];
    } else {
      JoinSnoc(f);
      JoinSnoc(g);
      LastPipe(Join(f[..n - 1]), f[n - 1], Join(g[..n - 1]), g[n - 1]);
      JoinInjective(f[..n - 1], g[..n - 1], 0);
      assert f == f[..n - 1] + [f[n - 1]] && g == g[..n - 1] + [g[n - 1]];
    }
  }

  /** The key determines the whole identity as long as only the password may contain a '|'. */
  lemma {:induction false} KeyDeterminesIdentity(a: Identity, b: Identity)
    requires PipesWithin(Fields(a), {3}) && PipesWithin(Fields(b), {3})
    ensures Preimage(a) == Preimage(b) <==> a == b
  {
    PreimageIsJoin(a);
    PreimageIsJoin(b);
    if Preimage(a) == Preimage(b) {
      JoinInjective(Fields(a), Fields(b), 3);
      assert a.scheme == Fields(a)[0] && a.address == Fields(a)[1] && a.username == Fields(a)[2];
      assert a.password == Fields(a)[3] && a.auth == Fields(a)[4];
    }
  }

  ghost predicate DeterminesIdentity(open: set<int>) {
    forall a: Identity, b: Identity ::
      PipesWithin(Fields(a), open) && PipesWithin(Fields(b), open) && Preimage(a) == Preimage(b) ==> a == b
  }

  /** The identity that holds "m" everywhere but "m|m" at position `i`. */
  function Witness(i: nat): Identity
  {
    Identity(if i == 0 then "m|m" else "m", if i == 1 then "m|m" else "m", if i == 2 then "m|m" else "m",
             if i == 3 then "m|m" else "m", if i == 4 then "m|m" else "m")
  }

  lemma WitnessPreimage(i: nat)
    requires i < FIELD_COUNT
    ensures Preimage(Witness(i)) == "m|m|m|m|m|m"
  {
    var w := Witness(i);
    var head := w.scheme + "|" + w.address + "|" + w.username;
    assert head == if i < 3 then "m|m|m|m" else "m|m|m";
    assert head + "|" + w.password == if i < 4 then "m|m|m|m|m" else "m|m|m|m";
  }

  lemma WitnessesCollide(i: nat, j: nat)
    requires i < j < FIELD_COUNT
    ensures Preimage(Witness(i)) == Preimage(Witness(j)) && Witness(i) != Witness(j)
  {
    WitnessPreimage(i);
    WitnessPreimage(j);
    assert |Fields(Witness(i))[i]| == 3 && |Fields(Witness(j))[i]| == 1;
  }

  /** Exactly when the unescaped separator is harmless: at most one field may hold a '|'. */
  lemma {:induction false} SeparatorSafeIff(open: set<int>)
    requires forall i :: i in open ==> 0 <= i < FIELD_COUNT
    ensures DeterminesIdentity(open) <==> |open| <= 1
  {
    if i, j :| i in open && j in open && i < j {
      CardinalityGrows({i, j}, open);
      WitnessesCollide(i, j);
      assert PipesWithin(Fields(Witness(i)), open) && PipesWithin(Fields(Witness(j)), open);
    } else {
      var p: nat := 0;
      if i :| i in open {
        p := i;
      }
      forall x | x in open
        ensures x == p
      {
        assert p in open && !(x < p) && !(p < x);
      }
      CardinalityGrows(open, {p});
      forall a: Identity, b: Identity
        | PipesWithin(Fields(a), open) && PipesWithin(Fields(b), open) && Preimage(a) == Preimage(b)
        ensures a == b
      {
        PreimageIsJoin(a);
        PreimageIsJoin(b);
        JoinInjective(Fields(a), Fields(b), p);
        assert a.scheme == Fields(a)[0] && a.address == Fields(a)[1] && a.username == Fields(a)[2];
        assert a.password == Fields(a)[3] && a.auth == Fields(a)[4];
      }
    }
  }

  lemma {:induction false} CardinalityGrows<T>(small: set<T>, big: set<T>)
    requires small <= big
    ensures |small| <= |big|
  {
    assert big == small + (big - small);
  }
}
