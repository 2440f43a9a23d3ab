/** Which target answers a probe (`FindTarget`). */
module Lookup {
  import opened Prelude
  import opened Schema
  import opened ConfigSpec
  import opened ConfigLaws

  lemma {:induction false} ByNameFirst(targets: seq<Target>, name: string)
    ensures ByName(targets, name).None? <==> forall i :: 0 <= i < |targets| ==> targets[i].name != name
    ensures ByName(targets, name).Some? ==>
              exists i :: 0 <= i < |targets| && ByName(targets, name) == Some(targets[i]) && targets[i].name == name
                          && forall j :: 0 <= j < i ==> targets[j].name != name
  {
    if targets != [] && targets[0].name != name {
      ByNameFirst(targets[1..], name);
      assert forall i :: 0 < i < |targets| ==> targets[i] == targets[1..][i - 1];
    }
  }

  lemma {:induction false} ByAddressFirst(targets: seq<Target>, address: string)
    ensures ByAddress(targets, address).None? <==> forall i :: 0 <= i < |targets| ==> targets[i].address != address
    ensures ByAddress(targets, address).Some? ==>
              exists i :: 0 <= i < |targets| && ByAddress(targets, address) == Some(targets[i])
                          && targets[i].address == address
                          && forall j :: 0 <= j < i ==> targets[j].address != address
  {
    if targets != [] && targets[0].address != address {
      ByAddressFirst(targets[1..], address);
      assert forall i :: 0 < i < |targets| ==> targets[i] == targets[1..][i - 1];
    }
  }

  predicate IsName(d: ConfigData, q: string) {
    exists i :: 0 <= i < |d.targets| && d.targets[i].name == q
  }

  predicate IsAddress(d: ConfigData, q: string) {
    exists i :: 0 <= i < |d.targets| && d.targets[i].address == q
  }

  /** No listed target answers to this. */
  predicate Unlisted(d: ConfigData, q: string) {
    !IsName(d, q) && !IsAddress(d, WithPort(q))
  }

  /** The lookup gives up exactly when nothing listed answers and there is no default target. */
  lemma {:induction false} LookupTotalIff(d: ConfigData, q: string)
    ensures FindTarget(d, q).None? <==> Unlisted(d, q) && d.defaultTarget.None?
  {
    ByNameFirst(d.targets, q);
    ByAddressFirst(d.targets, WithPort(q));
  }

  /** Every listed target is found by its name. */
  lemma {:induction false} FoundByName(d: ConfigData, i: nat)
    requires Sound(d) && i < |d.targets|
    ensures FindTarget(d, d.targets[i].name) == Some(d.targets[i])
  {
    ByNameFirst(d.targets, d.targets[i].name);
    SoundTarget(d, i);
  }

  /** A listed target is found by its address unless a name or an earlier address shadows it. */
  lemma {:induction false} FoundByAddressIff(d: ConfigData, i: nat)
    requires Sound(d) && i < |d.targets|
    ensures FindTarget(d, d.targets[i].address) == Some(d.targets[i]) <==>
            || d.targets[i].name == d.targets[i].address
            || (!IsName(d, d.targets[i].address)
                && forall j :: 0 <= j < i ==> d.targets[j].address != d.targets[i].address)
  {
    var q := d.targets[i].address;
    SoundTarget(d, i);
    ByNameFirst(d.targets, q);
    ByAddressFirst(d.targets, q);
    if IsName(d, q) {
      var k :| 0 <= k < |d.targets| && ByName(d.targets, q) == Some(d.targets[k]) && d.targets[k].name == q;
    } else {
      var k :| 0 <= k < |d.targets| && ByAddress(d.targets, q) == Some(d.targets[k]) && d.targets[k].address == q
               && forall j :: 0 <= j < k ==> d.targets[j].address != q;
      assert k <= i;
    }
  }

  /** A host without a port means the same as with the Bolt port, unless one of the two is a target's name. */
  lemma {:induction false} PortMayBeOmitted(d: ConfigData, h: string)
    requires ':' !in h && !IsName(d, h) && !IsName(d, h + ":7687")
    ensures FindTarget(d, h) == FindTarget(d, h + ":7687")
  {
    ByNameFirst(d.targets, h);
    ByNameFirst(d.targets, h + ":7687");
    assert (h + ":7687")[|h|] == ':';
  }

  /** Where the answer comes from. */
  lemma FoundFrom(d: ConfigData, q: string)
    requires FindTarget(d, q).Some?
    ensures if Unlisted(d, q) then FindTarget(d, q) == Fallback(d, WithPort(q)) && d.defaultTarget.Some?
            else FindTarget(d, q).value in d.targets
  {
    ByNameFirst(d.targets, q);
    ByAddressFirst(d.targets, WithPort(q));
  }

  lemma FoundListed(d: ConfigData, q: string)
    requires Sound(d) && !Unlisted(d, q)
    ensures FindTarget(d, q).Some?
    ensures var t := FindTarget(d, q).value;
            && t in d.targets && t.moduleName in d.modules && t.moduleName != ""
            && ':' in t.address && t.bolt.scheme in SCHEMES && t.bolt.database != ""
            && (t.bolt.auth == "none" ==> IsLocalhost(t.address))
  {
    LookupTotalIff(d, q);
    FoundFrom(d, q);
    var i :| 0 <= i < |d.targets| && d.targets[i] == FindTarget(d, q).value;
    SoundTarget(d, i);
    assert WithModules(d).targets[i] == d.targets[i];
  }

  /** The password of a found target is missing for one reason only: its file cannot be read now. */
  lemma {:induction false} FoundPassword(d: ConfigData, q: string, now: World)
    requires Sound(d) && FindTarget(d, q).Some?
    ensures var b := FindTarget(d, q).value.bolt;
            ResolveBoltPassword(b, now).Err? ==> ResolveBoltPassword(b, now) == Err(Unreadable(b.passwordFile))
  {
    FoundFrom(d, q);
    if !Unlisted(d, q) {
      var i :| 0 <= i < |d.targets| && d.targets[i] == FindTarget(d, q).value;
      ListedPasswords(d, i, now);
    } else {
      DefaultTargetPassword(d, now);
    }
  }

  /** Whatever the query, the target it yields can be dialled: port, scheme and database are filled in. */
  lemma {:induction false} FoundIsComplete(d: ConfigData, q: string)
    requires Sound(d) && FindTarget(d, q).Some?
    ensures var t := FindTarget(d, q).value;
            ':' in t.address && t.bolt.scheme in SCHEMES && t.bolt.database != "" && t.moduleName != ""
  {
    FoundFrom(d, q);
    PortIsWritten(q);
    if !Unlisted(d, q) {
      FoundListed(d, q);
    } else {
      var w :| WellFormed(d, w);
      assert d.defaultTarget.value.bolt.scheme != "";
    }
  }

  // ----- a query nothing listed answers to -----

  /** A length no listed name or address reaches. */
  function Longest(targets: seq<Target>): nat {
    if targets == [] then 0 else |targets[0].name| + |targets[0].address| + Longest(targets[1..])
  }

  lemma {:induction false} LongestBounds(targets: seq<Target>)
    ensures forall i :: 0 <= i < |targets| ==> |targets[i].name| + |targets[i].address| <= Longest(targets)
  {
    if targets != [] {
      LongestBounds(targets[1..]);
      assert forall i :: 0 < i < |targets| ==> targets[i] == targets[1..][i - 1];
    }
  }

  function Stranger(d: ConfigData): string {
    seq(Longest(d.targets) + 10, i => 'x') + ":"
  }

  lemma StrangerIsUnlisted(d: ConfigData)
    ensures Unlisted(d, Stranger(d)) && WithPort(Stranger(d)) == Stranger(d) && !IsLocalhost(Stranger(d))
  {
    var n, q := Longest(d.targets) + 10, Stranger(d);
    LongestBounds(d.targets);
    assert q[n] == ':';
    assert |q| > Longest(d.targets);
    assert q != DEFAULT_LABEL by {
      assert ':' !in DEFAULT_LABEL;
    }
    assert Host(q) == q[..n];
    assert |q[..n]| >= 10;
  }

  /** Every found target without authentication is local exactly when the default target does not do without. */
  lemma {:induction false} NoAuthStaysLocalIff(d: ConfigData)
    requires Sound(d)
    ensures (forall q :: FindTarget(d, q).Some? && FindTarget(d, q).value.bolt.auth == "none" ==>
                           IsLocalhost(FindTarget(d, q).value.address))
       <==> !(d.defaultTarget.Some? && d.defaultTarget.value.bolt.auth == "none")
  {
    forall q | FindTarget(d, q).Some?
      ensures FindTarget(d, q).value.bolt.auth == "none" ==>
                IsLocalhost(FindTarget(d, q).value.address)
                || (d.defaultTarget.Some? && d.defaultTarget.value.bolt.auth == "none")
    {
      FoundFrom(d, q);
      if !Unlisted(d, q) {
        FoundListed(d, q);
      }
    }
    var q := Stranger(d);
    StrangerIsUnlisted(d);
    LookupTotalIff(d, q);
    if d.defaultTarget.Some? {
      FoundFrom(d, q);
    }
  }

  /** Every found target names a defined module exactly when the default target does; nothing checks that it does. */
  lemma {:induction false} FoundModuleDefinedIff(d: ConfigData)
    requires Sound(d)
    ensures (forall q :: FindTarget(d, q).Some? ==> FindTarget(d, q).value.moduleName in d.modules)
       <==> (d.defaultTarget.Some? ==> ModuleOf(d.defaultTarget.value, d.global) in d.modules)
  {
    forall q | FindTarget(d, q).Some?
      ensures FindTarget(d, q).value.moduleName in d.modules
              || (d.defaultTarget.Some? && ModuleOf(d.defaultTarget.value, d.global) !in d.modules)
    {
      FoundFrom(d, q);
      if !Unlisted(d, q) {
        FoundListed(d, q);
      }
    }
    var q := Stranger(d);
    StrangerIsUnlisted(d);
    LookupTotalIff(d, q);
    if d.defaultTarget.Some? {
      FoundFrom(d, q);
    }
  }

  /** A query nothing listed answers gets the default target itself, at the query's address, with a module. */
  lemma {:induction false} FallbackIsDefaultTarget(d: ConfigData, q: string)
    requires Sound(d) && Unlisted(d, q) && d.defaultTarget.Some?
    ensures var t, u := d.defaultTarget.value, FindTarget(d, q);
            && u.Some? && u.value.bolt == t.bolt && u.value.jolokia == t.jolokia && u.value.name == t.name
            && u.value.moduleName == (if |t.moduleName| > 0 then t.moduleName else d.global.defaultModule)
            && u.value.address == (if ':' in q then q else q + ":7687")
  {
    LookupTotalIff(d, q);
    FoundFrom(d, q);
    assert DefaultedTarget(d.defaultTarget.value) == d.defaultTarget.value;
    PortIsWritten(q);
  }
}
