/** The pool key on the targets that a loaded configuration can list. */
module ListedIdentity {
  import opened Prelude
  import opened Schema
  import opened ConnectionIdentity
  import opened ConfigSpec
  import opened ConfigLaws
  import opened SampleConfig
  import DriverPool

  /** The positions of the fields that a configuration can put a '|' into; the scheme is one of six words. */
  const FREE_FIELDS: set<int> := {1, 2, 3, 4}

  ghost predicate ListedAs(d: ConfigData, i: nat, w: World, id: Identity) {
    && Sound(d) && i < |d.targets|
    && DriverPool.AuthHash(d.targets[i], w).Ok? && DriverPool.Credential(d.targets[i], w) == id
  }

  predicate SameKeyWithin(a: Identity, b: Identity, open: set<int>) {
    PipesWithin(Fields(a), open) && PipesWithin(Fields(b), open) && Preimage(a) == Preimage(b)
  }

  /** Any two targets listed together with equal keys are the same connection, if only these fields may hold a '|'. */
  ghost predicate KeysTellTargetsApart(open: set<int>) {
    forall d, i, j, w, a, b ::
      (ListedAs(d, i, w, a) && ListedAs(d, j, w, b) && SameKeyWithin(a, b, open)) ==> a == b
  }

  lemma SchemesHaveNoPipe(scheme: string)
    requires scheme in SCHEMES
    ensures PipeFree(scheme)
  {
  }

  lemma ListedFields(d: ConfigData, i: nat, w: World, id: Identity, open: set<int>)
    requires ListedAs(d, i, w, id) && PipesWithin(Fields(id), open)
    ensures PipesWithin(Fields(id), open * FREE_FIELDS)
  {
    SoundTarget(d, i);
    SchemesHaveNoPipe(id.scheme);
    forall k | 0 <= k < |Fields(id)| && k !in open * FREE_FIELDS
      ensures PipeFree(Fields(id)[k])
    {
      if k != 0 {
        assert k !in open;
      }
    }
  }

  // ----- two targets that share a key -----

  /** "h:1" everywhere but "h:1|h:1" in field `i`. */
  function Doubled(i: nat, k: nat): string {
    if i == k then "h:1|h:1" else "h:1"
  }

  function Twin(i: nat): Target {
    Target(if i == 1 then "one" else if i == 2 then "two" else if i == 3 then "three" else "four",
           Doubled(i, 1), "default",
           Bolt("bolt", Doubled(i, 2), Doubled(i, 3), "", "neo4j", Doubled(i, 4)), None)
  }

  function TwinIdentity(i: nat): Identity {
    Identity("bolt", Doubled(i, 1), Doubled(i, 2), Doubled(i, 3), Doubled(i, 4))
  }

  lemma TwinIsListable(i: nat)
    requires 1 <= i <= 4
    ensures Listable(Twin(i))
  {
    assert "h:1"[1] == ':' && "h:1|h:1"[1] == ':';
    assert Twin(i).address[1] == ':';
  }

  lemma TwinPreimage(i: nat)
    requires 1 <= i <= 4
    ensures Preimage(TwinIdentity(i)) == "bolt|" + "h:1|h:1|h:1|h:1|h:1"
  {
    var t := TwinIdentity(i);
    var head := t.scheme + "|" + t.address + "|" + t.username;
    assert head == "bolt|" + if i < 3 then "h:1|h:1|h:1" else "h:1|h:1";
    assert head + "|" + t.password == "bolt|" + if i < 4 then "h:1|h:1|h:1|h:1" else "h:1|h:1|h:1";
  }

  lemma TwinFields(i: nat, open: set<int>)
    requires 1 <= i <= 4 && i in open
    ensures PipesWithin(Fields(TwinIdentity(i)), open)
  {
    assert PipeFree("h:1") && PipeFree("bolt");
  }

  /** Whichever two of the free fields may hold a '|', some configuration lists two targets that share a key. */
  lemma {:induction false} TwinsCollide(i: nat, j: nat) returns (d: ConfigData)
    requires 1 <= i < j <= 4
    ensures ListedAs(d, 0, NO_FILES, TwinIdentity(i)) && ListedAs(d, 1, NO_FILES, TwinIdentity(j))
    ensures Preimage(TwinIdentity(i)) == Preimage(TwinIdentity(j)) && TwinIdentity(i) != TwinIdentity(j)
  {
    d := Sample([Twin(i), Twin(j)], None);
    TwinIsListable(i);
    TwinIsListable(j);
    assert Twin(i).name != Twin(j).name;
    SampleIsSound([Twin(i), Twin(j)], None);
    TwinPreimage(i);
    TwinPreimage(j);
    assert |Fields(TwinIdentity(i))[i]| == 7 && |Fields(TwinIdentity(j))[i]| == 3;
  }

  /**
   On the targets that can be listed, the unescaped separator is harmless exactly when at
   most one of address, user name, password and auth may hold it.
   */
  lemma {:induction false} ListedKeysSafeIff(open: set<int>)
    ensures KeysTellTargetsApart(open) <==> |open * FREE_FIELDS| <= 1
  {
    var free := open * FREE_FIELDS;
    if |free| <= 1 {
      SeparatorSafeIff(free);
      forall d, i, j, w, a, b
        | ListedAs(d, i, w, a) && ListedAs(d, j, w, b) && SameKeyWithin(a, b, open)
        ensures a == b
      {
        ListedFields(d, i, w, a, open);
        ListedFields(d, j, w, b, open);
      }
    } else {
      var i, j := TwoOf(free);
      var d := TwinsCollide(i, j);
      TwinFields(i, open);
      TwinFields(j, open);
    }
  }

  lemma TwoOf(s: set<int>) returns (i: int, j: int)
    requires |s| > 1
    ensures i in s && j in s && i < j
  {
    var x, y := TwoDistinct(s);
    i, j := if x < y then x else y, if x < y then y else x;
  }

  lemma TwoDistinct<T>(s: set<T>) returns (x: T, y: T)
    requires |s| > 1
    ensures x in s && y in s && x != y
  {
    x :| x in s;
    assert |s - {x}| > 0;
    y :| y in s - {x};
  }
}
