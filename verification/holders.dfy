/** The per-host plugin collection ("holder") and the list of registrations.

    A holder is a JavaScript object whose own properties map a normalised
    plugin name to a plugin instance. It is modelled as a sequence of
    (name, plugin) pairs in property insertion order, with at most one pair
    per name. Plugin instances are opaque identities. */
module Holders {

  datatype Option<T> = None | Some(value: T)

  /** Identity of a plugin instance. */
  type PluginId = nat

  /** Identity of a plugin class (the factory called with `new`). */
  type Factory = nat

  /** One registration: a normalised plugin name and its plugin class. */
  type Registration = (string, Factory)

  /** A host's plugins, name to instance, in insertion order. */
  type Holder = seq<(string, PluginId)>

  /** The holder's property names in insertion order, as `Object.keys` lists them. */
  function Keys(holder: Holder): (r: seq<string>)
    ensures |r| == |holder|
    ensures forall i :: 0 <= i < |holder| ==> r[i] == holder[i].0
  {
    seq(|holder|, i requires 0 <= i < |holder| => holder[i].0)
  }

  /** The holder's plugin instances, in insertion order. */
  function Ids(holder: Holder): seq<PluginId>
  {
    seq(|holder|, i requires 0 <= i < |holder| => holder[i].1)
  }

  /** The holder has a property named `name`. */
  predicate HasName(holder: Holder, name: string)
  {
    exists i :: 0 <= i < |holder| && holder[i].0 == name
  }

  /** A name is listed by `Keys` exactly when the holder has it. */
  lemma KeysAreNames(holder: Holder, name: string)
    ensures name in Keys(holder) <==> HasName(holder, name)
  {
    if HasName(holder, name) {
      var i :| 0 <= i < |holder| && holder[i].0 == name;
      assert Keys(holder)[i] == name;
    }
  }

  /** Property names are unique, as in any JavaScript object. */
  ghost predicate UniqueNames(holder: Holder)
  {
    forall i, j :: 0 <= i < j < |holder| ==> holder[i].0 != holder[j].0
  }

  /** No instance is stored twice. */
  ghost predicate UniqueIds(holder: Holder)
  {
    forall i, j :: 0 <= i < j < |holder| ==> holder[i].1 != holder[j].1
  }

  /** No element occurs twice. */
  ghost predicate NoDup<T>(s: seq<T>)
  {
    forall i, j :: 0 <= i < j < |s| ==> s[i] != s[j]
  }

  /** Property read `holder[name]`: the instance stored under `name`, if any. */
  function Find(holder: Holder, name: string): (r: Option<PluginId>)
    ensures r.None? <==> !HasName(holder, name)
    ensures r.Some? ==>
      exists i :: 0 <= i < |holder| && holder[i] == (name, r.value) &&
        forall j :: 0 <= j < i ==> holder[j].0 != name
  {
    if holder == [] then None
    else if holder[0].0 == name then Some(holder[0].1)
    else
      var r := Find(holder[1..], name);
      assert HasName(holder, name) ==> HasName(holder[1..], name) by {
        if HasName(holder, name) {
          var i :| 0 <= i < |holder| && holder[i].0 == name;
          assert holder[1..][i - 1].0 == name;
        }
      }
      assert r.Some? ==>
        exists i :: 0 <= i < |holder| && holder[i] == (name, r.value) &&
          forall j :: 0 <= j < i ==> holder[j].0 != name
      by {
        if r.Some? {
          var i :| 0 <= i < |holder[1..]| && holder[1..][i] == (name, r.value) &&
            forall j :: 0 <= j < i ==> holder[1..][j].0 != name;
          assert holder[i + 1] == (name, r.value);
          forall j | 0 <= j < i + 1 ensures holder[j].0 != name {
            if j > 0 { assert holder[j] == holder[1..][j - 1]; }
          }
        }
      }
      r
  }

  /** The reverse lookup by identity: the name of the LAST entry whose
      instance is `p`, as a forward scan that overwrites on every match gives. */
  function NameOf(holder: Holder, p: PluginId): (r: Option<string>)
    ensures r.None? <==> forall i :: 0 <= i < |holder| ==> holder[i].1 != p
    ensures r.Some? ==>
      exists i :: 0 <= i < |holder| && holder[i] == (r.value, p) &&
        forall j :: i < j < |holder| ==> holder[j].1 != p
  {
    if holder == [] then None
    else if holder[|holder| - 1].1 == p then Some(holder[|holder| - 1].0)
    else
      var init := holder[..|holder| - 1];
      var r := NameOf(init, p);
      assert forall i :: 0 <= i < |init| ==> init[i] == holder[i];
      assert r.Some? ==>
        exists i :: 0 <= i < |holder| && holder[i] == (r.value, p) &&
          forall j :: i < j < |holder| ==> holder[j].1 != p;
      r
  }

  /** One `construct` handler on one holder: store a new instance `id` under
      `name` unless the name is already present. Exactly one entry, the new
      one, is appended when the name is absent; none otherwise. */
  function Adopt(holder: Holder, name: string, id: PluginId): (r: Holder)
    ensures |r| == |holder| + (if HasName(holder, name) then 0 else 1)
    ensures !HasName(holder, name) ==> r[|holder|] == (name, id)
  {
    if HasName(holder, name) then holder else holder + [(name, id)]
  }

  /** Adopting keeps every name and adds `name`. */
  lemma AdoptKeepsNames(holder: Holder, name: string, id: PluginId)
    ensures HasName(Adopt(holder, name, id), name)
    ensures Adopt(holder, name, id)[..|holder|] == holder
    ensures forall n :: HasName(holder, n) ==> HasName(Adopt(holder, name, id), n)
  {
  }

  /** One `construct` handler on the running result of the earlier ones:
      the holder so far and the classes instantiated so far. */
  function Handle(acc: (Holder, seq<Factory>), reg: Registration, next: PluginId): (Holder, seq<Factory>)
  {
    if HasName(acc.0, reg.0) then acc
    else (Adopt(acc.0, reg.0, next + |acc.1|), acc.1 + [reg.1])
  }

  /** The `construct` handlers of the first `n` registrations, in
      registration order, on one holder. New instances get consecutive
      identities from `next`. Returns the new holder and the plugin classes
      that were instantiated, in call order. */
  function Spawn(holder: Holder, regs: seq<Registration>, n: nat, next: PluginId): (Holder, seq<Factory>)
    requires n <= |regs|
  {
    if n == 0 then (holder, [])
    else Handle(Spawn(holder, regs, n - 1, next), regs[n - 1], next)
  }

  /** A handler run adopts the registration's name with the next free identity. */
  lemma HandleAdopts(acc: (Holder, seq<Factory>), reg: Registration, next: PluginId)
    ensures Handle(acc, reg, next).0 == Adopt(acc.0, reg.0, next + |acc.1|)
    ensures Handle(acc, reg, next).1 == if HasName(acc.0, reg.0) then acc.1 else acc.1 + [reg.1]
  {
  }

  /** The plugin class of the first registration under `name`, if any. */
  function FirstFactory(regs: seq<Registration>, name: string): (r: Option<Factory>)
    ensures r.None? <==> forall j :: 0 <= j < |regs| ==> regs[j].0 != name
    ensures r.Some? ==>
      exists j :: 0 <= j < |regs| && regs[j] == (name, r.value) &&
        forall k :: 0 <= k < j ==> regs[k].0 != name
  {
    if regs == [] then None
    else
      var prev := FirstFactory(regs[..|regs| - 1], name);
      assert forall j :: 0 <= j < |regs| - 1 ==> regs[j] == regs[..|regs| - 1][j];
      if prev.Some? then prev
      else if regs[|regs| - 1].0 == name then Some(regs[|regs| - 1].1)
      else None
  }

  /** A later registration does not change which class is first under a name. */
  lemma FirstFactoryKept(regs: seq<Registration>, reg: Registration, name: string)
    requires FirstFactory(regs, name).Some?
    ensures FirstFactory(regs + [reg], name) == FirstFactory(regs, name)
  {
  }

  /** Running the handlers keeps every existing entry in place and appends the
      new ones with consecutive fresh identities, one per instantiated class. */
  lemma {:induction false} SpawnExtends(holder: Holder, regs: seq<Registration>, n: nat, next: PluginId)
    requires n <= |regs|
    ensures var s := Spawn(holder, regs, n, next);
      && |s.0| == |holder| + |s.1|
      && s.0[..|holder|] == holder
      && forall i :: |holder| <= i < |s.0| ==> s.0[i].1 == next + (i - |holder|)
  {
    if n > 0 {
      SpawnExtends(holder, regs, n - 1, next);
    }
  }

  /** After the handlers ran, every registered name is present, and every
      entry that was added carries a registered name. */
  lemma {:induction false} SpawnCovers(holder: Holder, regs: seq<Registration>, n: nat, next: PluginId)
    requires n <= |regs|
    ensures forall j :: 0 <= j < n ==> HasName(Spawn(holder, regs, n, next).0, regs[j].0)
    ensures forall i :: |holder| <= i < |Spawn(holder, regs, n, next).0| ==>
      exists j :: 0 <= j < n && regs[j].0 == Spawn(holder, regs, n, next).0[i].0
  {
    if n > 0 {
      var prev := Spawn(holder, regs, n - 1, next);
      var reg := regs[n - 1];
      SpawnCovers(holder, regs, n - 1, next);
      SpawnExtends(holder, regs, n - 1, next);
      var hs := Spawn(holder, regs, n, next).0;
      assert hs[..|prev.0|] == prev.0;
      forall j | 0 <= j < n ensures HasName(hs, regs[j].0) {
        if j < n - 1 {
          var i :| 0 <= i < |prev.0| && prev.0[i].0 == regs[j].0;
          assert hs[i] == prev.0[i];
        } else if !HasName(prev.0, reg.0) {
          assert hs[|prev.0|].0 == reg.0;
        }
      }
      forall i | |holder| <= i < |hs|
        ensures exists j :: 0 <= j < n && regs[j].0 == hs[i].0
      {
        if i < |prev.0| {
          assert hs[i] == prev.0[i];
        } else {
          assert regs[n - 1].0 == hs[i].0;
        }
      }
    } else {
      assert Spawn(holder, regs, n, next).0 == holder;
    }
  }

  /** When every registered name is already present, the handlers change
      nothing and instantiate nothing. */
  lemma {:induction false} SpawnIdle(holder: Holder, regs: seq<Registration>, n: nat, next: PluginId)
    requires n <= |regs|
    requires forall j :: 0 <= j < n ==> HasName(holder, regs[j].0)
    ensures Spawn(holder, regs, n, next) == (holder, [])
  {
    if n > 0 {
      SpawnIdle(holder, regs, n - 1, next);
      assert HasName(holder, regs[n - 1].0);
    }
  }

  /** Firing the handlers a second time on their own result is a no-op:
      construction is idempotent. */
  lemma SpawnSettles(holder: Holder, regs: seq<Registration>, next: PluginId, later: PluginId)
    ensures var s := Spawn(holder, regs, |regs|, next);
      Spawn(s.0, regs, |regs|, later) == (s.0, [])
  {
    SpawnCovers(holder, regs, |regs|, next);
    SpawnIdle(Spawn(holder, regs, |regs|, next).0, regs, |regs|, later);
  }

  /** Property reads and the reverse lookup by identity are inverse to each
      other on a holder with unique names and unique instances. */
  lemma FindNameOfInverse(holder: Holder, name: string, p: PluginId)
    requires UniqueNames(holder) && UniqueIds(holder)
    ensures Find(holder, name) == Some(p) <==> NameOf(holder, p) == Some(name)
  {
  }

  /** A second update of the same key replaces the first. */
  lemma MapUpdateTwice<K, V>(m: map<K, V>, k: K, a: V, b: V)
    ensures m[k := a][k := b] == m[k := b]
  {
  }

  /** Concatenation is associative. */
  lemma AppendAssoc<T>(a: seq<T>, b: seq<T>, c: seq<T>)
    ensures (a + b) + c == a + (b + c)
  {
  }

  /** A sequence without duplicates holds each of its elements exactly once. */
  lemma {:induction false} NoDupOccursOnce<T>(s: seq<T>, x: T)
    requires NoDup(s) && x in s
    ensures multiset(s)[x] == 1
  {
    if s[0] == x {
      assert x !in s[1..];
      assert s == [s[0]] + s[1..];
    } else {
      assert NoDup(s[1..]) && x in s[1..];
      NoDupOccursOnce(s[1..], x);
      assert s == [s[0]] + s[1..];
    }
  }
}
