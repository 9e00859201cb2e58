/** The plugin registry of `src/plugins.js`.

    `registerPlugin` adds one `construct` and one `afterDestroy` handler per
    registration; the lifecycle events run those handlers in registration
    order with the host as context. The module-level table from host to
    holder is the field `table`; `afterDestroy` is the only way an entry
    leaves it. */
module Plugins {
  import opened Names
  import opened Holders

  /** Identity of a host (a Handsontable instance). */
  type Host = nat

  /** A JavaScript value passed as a plugin name: a string, or anything else. */
  datatype JsValue = JsString(s: string) | JsOther

  datatype Error = InvalidArgument

  datatype Result<T> = Ok(value: T) | Err(error: Error)

  /** The host and class recorded for each instantiated plugin, in creation order. */
  function Tag(h: Host, factories: seq<Factory>): seq<(Host, Factory)>
  {
    seq(|factories|, k requires 0 <= k < |factories| => (h, factories[k]))
  }

  /** Tagging one more class appends one record. */
  lemma TagSnoc(h: Host, factories: seq<Factory>, f: Factory)
    ensures Tag(h, factories + [f]) == Tag(h, factories) + [(h, f)]
  {
  }

  /** Every plugin stored for host `h` was built for `h` by the first
      registration under its name, has a unique name and identity, and has not
      been destroyed; a holder is never empty. */
  ghost predicate HolderValid(h: Host, holder: Holder, regs: seq<Registration>,
                              built: seq<(Host, Factory)>, destroyed: seq<PluginId>)
  {
    && |holder| > 0
    && UniqueNames(holder)
    && UniqueIds(holder)
    && forall i :: 0 <= i < |holder| ==>
         && holder[i].1 < |built|
         && built[holder[i].1].0 == h
         && FirstFactory(regs, holder[i].0) == Some(built[holder[i].1].1)
         && holder[i].1 !in destroyed
  }

  /** Recording more instances does not disturb a valid holder. */
  lemma HolderValidMoreBuilt(h: Host, holder: Holder, regs: seq<Registration>,
                             built: seq<(Host, Factory)>, destroyed: seq<PluginId>,
                             more: seq<(Host, Factory)>)
    requires HolderValid(h, holder, regs, built, destroyed)
    ensures HolderValid(h, holder, regs, built + more, destroyed)
  {
  }

  /** The `construct` handler of the `j`-th registration adding its plugin
      keeps the holder valid, given that the earlier handlers already ran. */
  lemma HolderValidAdd(h: Host, holder: Holder, regs: seq<Registration>,
                       built: seq<(Host, Factory)>, destroyed: seq<PluginId>, j: nat)
    requires holder == [] || HolderValid(h, holder, regs, built, destroyed)
    requires j < |regs|
    requires forall k :: 0 <= k < j ==> HasName(holder, regs[k].0)
    requires !HasName(holder, regs[j].0)
    requires forall k :: 0 <= k < |destroyed| ==> destroyed[k] < |built|
    ensures HolderValid(h, holder + [(regs[j].0, |built|)], regs, built + [(h, regs[j].1)], destroyed)
  {
  }

  /** What a whole `construct` event does to one holder: existing entries
      stay, every registered name ends up present, and when every name was
      already present nothing happens. */
  lemma ConstructOutcome(start: Holder, regs: seq<Registration>, next: PluginId)
    ensures var s := Spawn(start, regs, |regs|, next);
      && |s.0| >= |start|
      && s.0[..|start|] == start
      && (forall j :: 0 <= j < |regs| ==> HasName(s.0, regs[j].0))
      && ((forall j :: 0 <= j < |regs| ==> HasName(start, regs[j].0)) ==> s == (start, []))
  {
    SpawnExtends(start, regs, |regs|, next);
    SpawnCovers(start, regs, |regs|, next);
    if forall j :: 0 <= j < |regs| ==> HasName(start, regs[j].0) {
      SpawnIdle(start, regs, |regs|, next);
    }
  }

  class Registry {
    /** The registrations, in the order `registerPlugin` was called; each
        contributes one `construct` and one `afterDestroy` handler. */
    var regs: seq<Registration>
    /** Host to holder (`registeredPlugins`). */
    var table: map<Host, Holder>
    /** Identity of the next plugin instance a factory call creates. */
    var nextId: PluginId
    /** For every instance ever created, the host and class it was built from. */
    ghost var built: seq<(Host, Factory)>
    /** The instances whose `destroy()` has been called, in call order. */
    ghost var destroyed: seq<PluginId>

    ghost predicate Valid()
      reads this
    {
      && nextId == |built|
      && (forall j :: 0 <= j < |regs| ==> ToUpperCaseFirst(regs[j].0) == regs[j].0)
      && (forall h {:trigger HolderValid(h, table[h], regs, built, destroyed)} ::
            h in table ==> HolderValid(h, table[h], regs, built, destroyed))
      && NoDup(destroyed)
      && (forall k :: 0 <= k < |destroyed| ==> destroyed[k] < nextId)
    }

    /** The host's holder, or the empty one when it has none. */
    function HolderOf(h: Host): Holder
      reads this
    {
      if h in table then table[h] else []
    }

    constructor ()
      ensures Valid()
      ensures regs == [] && table == map[] && nextId == 0
      ensures built == [] && destroyed == []
    {
      regs := [];
      table := map[];
      nextId := 0;
      built := [];
      destroyed := [];
    }

    /** `registerPlugin(pluginName, PluginClass)`: adds the two handlers of the
        normalised name. Hosts already constructed are not affected. */
    method RegisterPlugin(pluginName: string, factory: Factory)
      requires Valid()
      modifies this
      ensures Valid()
      ensures regs == old(regs) + [(ToUpperCaseFirst(pluginName), factory)]
      ensures table == old(table) && nextId == old(nextId)
      ensures built == old(built) && destroyed == old(destroyed)
    {
      var reg := (ToUpperCaseFirst(pluginName), factory);
      NormaliseIdempotent(pluginName);
      forall h | h in table
        ensures HolderValid(h, table[h], regs + [reg], built, destroyed)
      {
        assert HolderValid(h, table[h], regs, built, destroyed);
        forall i | 0 <= i < |table[h]|
          ensures FirstFactory(regs + [reg], table[h][i].0) == FirstFactory(regs, table[h][i].0)
        {
          FirstFactoryKept(regs, reg, table[h][i].0);
        }
      }
      regs := regs + [reg];
    }

    /** The `construct` handler of the `j`-th registration, run for host `h`:
        create the host's holder if it has none, then instantiate the plugin
        unless its name is already present. The handlers of earlier
        registrations have already run for this host. */
    method RunConstructHandler(h: Host, j: nat)
      requires Valid() && j < |regs|
      requires forall k :: 0 <= k < j ==> HasName(HolderOf(h), regs[k].0)
      modifies this
      ensures Valid()
      ensures regs == old(regs) && destroyed == old(destroyed)
      ensures var added := !HasName(old(HolderOf(h)), regs[j].0);
        && table == old(table)[h := Adopt(old(HolderOf(h)), regs[j].0, old(nextId))]
        && nextId == old(nextId) + (if added then 1 else 0)
        && built == old(built) + (if added then [(h, regs[j].1)] else [])
    {
      var name, factory := regs[j].0, regs[j].1;
      if h !in table {
        table := table[h := []];
      }
      var holder := table[h];
      if !HasName(holder, name) {
        HolderValidAdd(h, holder, regs, built, destroyed, j);
        forall h' | h' in table && h' != h
          ensures HolderValid(h', table[h'], regs, built + [(h, factory)], destroyed)
        {
          assert HolderValid(h', table[h'], regs, built, destroyed);
          HolderValidMoreBuilt(h', table[h'], regs, built, destroyed, [(h, factory)]);
        }
        table := table[h := holder + [(name, nextId)]];
        built := built + [(h, factory)];
        nextId := nextId + 1;
        assert HolderValid(h, table[h], regs, built, destroyed);
      } else {
        assert HolderValid(h, table[h], regs, built, destroyed);
      }
    }

    /** One step of the `construct` event: the handler of registration `i`,
        with the effect of the handlers run so far (`acc`, starting from
        holder `start`, table `t0`, counter `n0` and log `b0`) carried along. */
    method ConstructStep(h: Host, i: nat, ghost t0: map<Host, Holder>, ghost n0: PluginId,
                         ghost b0: seq<(Host, Factory)>, ghost start: Holder,
                         ghost acc: (Holder, seq<Factory>))
      returns (ghost acc': (Holder, seq<Factory>))
      requires Valid() && i < |regs|
      requires acc == Spawn(start, regs, i, n0)
      requires HolderOf(h) == acc.0
      requires i == 0 ==> table == t0
      requires i > 0 ==> table == t0[h := acc.0]
      requires nextId == n0 + |acc.1|
      requires built == b0 + Tag(h, acc.1)
      requires forall k :: 0 <= k < i ==> HasName(HolderOf(h), regs[k].0)
      modifies this
      ensures Valid()
      ensures regs == old(regs) && destroyed == old(destroyed)
      ensures acc' == Spawn(start, regs, i + 1, n0)
      ensures HolderOf(h) == acc'.0
      ensures table == t0[h := acc'.0]
      ensures nextId == n0 + |acc'.1|
      ensures built == b0 + Tag(h, acc'.1)
      ensures forall k :: 0 <= k < i + 1 ==> HasName(HolderOf(h), regs[k].0)
    {
      AdoptKeepsNames(HolderOf(h), regs[i].0, nextId);
      HandleAdopts(acc, regs[i], n0);
      MapUpdateTwice(t0, h, acc.0, Handle(acc, regs[i], n0).0);
      TagSnoc(h, acc.1, regs[i].1);
      AppendAssoc(b0, Tag(h, acc.1), [(h, regs[i].1)]);
      RunConstructHandler(h, i);
      acc' := Handle(acc, regs[i], n0);
    }

    /** The `construct` event for host `h`: every registration's handler, in
        registration order. With no registration there is no handler and the
        host gets no holder. */
    method Construct(h: Host)
      requires Valid()
      modifies this
      ensures Valid()
      ensures regs == old(regs) && destroyed == old(destroyed)
      ensures |regs| == 0 ==> table == old(table) && nextId == old(nextId) && built == old(built)
      ensures |regs| > 0 ==>
        var s := Spawn(old(HolderOf(h)), regs, |regs|, old(nextId));
        && table == old(table)[h := s.0]
        && nextId == old(nextId) + |s.1|
        && built == old(built) + Tag(h, s.1)
      // the host has a holder holding every registered name, each built for it
      ensures |regs| > 0 ==> h in table
      ensures forall j :: 0 <= j < |regs| ==> HasName(HolderOf(h), regs[j].0)
      ensures |regs| > 0 ==> HolderValid(h, table[h], regs, built, destroyed)
      // existing entries are never overwritten
      ensures |HolderOf(h)| >= |old(HolderOf(h))|
      ensures HolderOf(h)[..|old(HolderOf(h))|] == old(HolderOf(h))
      // a second `construct` for the same host changes nothing
      ensures old(forall j :: 0 <= j < |regs| ==> HasName(HolderOf(h), regs[j].0)) ==>
        table == old(table) && nextId == old(nextId) && built == old(built)
    {
      ghost var start := HolderOf(h);
      ghost var acc: (Holder, seq<Factory>) := (start, []);
      for i := 0 to |regs|
        invariant Valid()
        invariant regs == old(regs) && destroyed == old(destroyed)
        invariant acc == Spawn(start, regs, i, old(nextId))
        invariant HolderOf(h) == acc.0
        invariant i == 0 ==> table == old(table)
        invariant i > 0 ==> table == old(table)[h := acc.0]
        invariant nextId == old(nextId) + |acc.1|
        invariant built == old(built) + Tag(h, acc.1)
        invariant forall k :: 0 <= k < i ==> HasName(HolderOf(h), regs[k].0)
      {
        acc := ConstructStep(h, i, old(table), old(nextId), old(built), start, acc);
      }
      ConstructOutcome(start, regs, old(nextId));
      if h in old(table) {
        assert old(table)[h := start] == old(table);
      }
    }

    /** The `afterDestroy` handler of one registration, run for host `h`: if the
        host has a holder, call `destroy()` on each of its plugins in
        enumeration order, then drop the holder. */
    method RunAfterDestroyHandler(h: Host)
      requires Valid()
      modifies this
      ensures Valid()
      ensures regs == old(regs) && nextId == old(nextId) && built == old(built)
      ensures h in old(table) ==>
        table == old(table) - {h} && destroyed == old(destroyed) + Ids(old(table[h]))
      ensures h !in old(table) ==> table == old(table) && destroyed == old(destroyed)
    {
      if h in table {
        var holder := table[h];
        for i := 0 to |holder|
          invariant regs == old(regs) && nextId == old(nextId) && built == old(built)
          invariant table == old(table)
          invariant destroyed == old(destroyed) + Ids(holder)[..i]
        {
          destroyed := destroyed + [holder[i].1];
          assert Ids(holder)[..i + 1] == Ids(holder)[..i] + [holder[i].1];
        }
        assert Ids(holder)[..|holder|] == Ids(holder);
        table := table - {h};
        assert HolderValid(h, holder, regs, built, old(destroyed));
        forall a, b | 0 <= a < b < |destroyed| ensures destroyed[a] != destroyed[b] {
          var n := |old(destroyed)|;
          if a < n && n <= b {
            assert destroyed[b] == holder[b - n].1;
            assert destroyed[a] in old(destroyed);
          } else if n <= a {
            assert destroyed[a] == holder[a - n].1 && destroyed[b] == holder[b - n].1;
          }
        }
        forall h' | h' in table
          ensures HolderValid(h', table[h'], regs, built, destroyed)
        {
          assert HolderValid(h', table[h'], regs, built, old(destroyed));
          forall i | 0 <= i < |table[h']| ensures table[h'][i].1 !in destroyed {
            assert forall k :: 0 <= k < |holder| ==> holder[k].1 != table[h'][i].1;
          }
        }
      }
    }

    /** The `afterDestroy` event for host `h`: every registration's handler, in
        registration order. The first one destroys the plugins and drops the
        holder; the others then find no holder. */
    method AfterDestroy(h: Host)
      requires Valid()
      modifies this
      ensures Valid()
      ensures regs == old(regs) && nextId == old(nextId) && built == old(built)
      ensures h !in table
      ensures table == old(table) - {h}
      ensures h in old(table) ==> destroyed == old(destroyed) + Ids(old(table[h]))
      ensures h !in old(table) ==> destroyed == old(destroyed)
      // each of the host's plugins is destroyed exactly once, never before
      ensures h in old(table) ==> forall p :: p in Ids(old(table[h])) ==>
        p !in old(destroyed) && multiset(destroyed)[p] == 1
    {
      assert h in table ==> |regs| > 0 by {
        if h in table {
          assert HolderValid(h, table[h], regs, built, destroyed);
          assert FirstFactory(regs, table[h][0].0).Some?;
        }
      }
      for i := 0 to |regs|
        invariant Valid()
        invariant regs == old(regs) && nextId == old(nextId) && built == old(built)
        invariant i > 0 ==> table == old(table) - {h}
        invariant i > 0 && h in old(table) ==> destroyed == old(destroyed) + Ids(old(table[h]))
        invariant i == 0 || h !in old(table) ==> table == old(table) && destroyed == old(destroyed)
      {
        RunAfterDestroyHandler(h);
      }
      if h in old(table) {
        forall p | p in Ids(old(table[h]))
          ensures p !in old(destroyed) && multiset(destroyed)[p] == 1
        {
          var k :| 0 <= k < |old(table[h])| && old(table[h])[k].1 == p;
          NoDupOccursOnce(destroyed, p);
        }
      } else {
        assert old(table) - {h} == old(table);
      }
    }

    /** `getPlugin(instance, pluginName)`: throws on a non-string name;
        otherwise the plugin stored under the normalised name, or nothing. */
    function GetPlugin(h: Host, pluginName: JsValue): (r: Result<Option<PluginId>>)
      reads this
      ensures r.Err? <==> pluginName.JsOther?
      ensures r.Err? ==> r.error == InvalidArgument
      ensures pluginName.JsString? ==>
        (r == Ok(None) <==> h !in table || !HasName(table[h], ToUpperCaseFirst(pluginName.s)))
      ensures pluginName.JsString? && r.Ok? && r.value.Some? ==>
        h in table && (ToUpperCaseFirst(pluginName.s), r.value.value) in table[h]
    {
      match pluginName
      case JsOther => Err(InvalidArgument)
      case JsString(s) =>
        var key := ToUpperCaseFirst(s);
        if h !in table then Ok(None) else Ok(Find(table[h], key))
    }

    /** `getRegistredPluginNames(hotInstance)`: the holder's property names in
        insertion order, or none when the host has no holder. */
    function RegisteredPluginNames(h: Host): (names: seq<string>)
      reads this
      ensures h !in table ==> names == []
      ensures |names| == |HolderOf(h)|
      ensures forall i :: 0 <= i < |names| ==> names[i] == HolderOf(h)[i].0
    {
      if h in table then Keys(table[h]) else []
    }

    /** `getPluginName(hotInstance, plugin)`: scans the holder and remembers
        the name of every entry whose instance is `plugin`, so the last match
        wins; nothing when the host has no holder or no entry matches. */
    method GetPluginName(h: Host, plugin: PluginId) returns (pluginName: Option<string>)
      ensures pluginName == NameOf(HolderOf(h), plugin)
      ensures h !in table ==> pluginName == None
    {
      pluginName := None;
      if h in table {
        var holder := table[h];
        for i := 0 to |holder|
          invariant pluginName == NameOf(holder[..i], plugin)
        {
          if holder[i].1 == plugin {
            pluginName := Some(holder[i].0);
          }
          assert holder[..i + 1][..i] == holder[..i];
        }
        assert holder[..|holder|] == holder;
      }
    }

    /** Lookups ignore the case of the first letter of the name. */
    lemma GetPluginFirstLetterCase(h: Host, a: string, b: string)
      requires SameUpToFirstLetterCase(a, b)
      ensures GetPlugin(h, JsString(a)) == GetPlugin(h, JsString(b))
    {
    }

    /** Every listed name is a normalised key, and a lookup finds a plugin
        exactly when the normalised name is listed. */
    lemma ListedNamesAreLookupKeys(h: Host, s: string)
      requires Valid()
      ensures s in RegisteredPluginNames(h) ==> ToUpperCaseFirst(s) == s
      ensures GetPlugin(h, JsString(s)).value.Some? <==> ToUpperCaseFirst(s) in RegisteredPluginNames(h)
    {
      var names := RegisteredPluginNames(h);
      if s in names {
        var i :| 0 <= i < |names| && names[i] == s;
        assert HolderValid(h, table[h], regs, built, destroyed);
        var j :| 0 <= j < |regs| && regs[j].0 == s;
      }
      var key := ToUpperCaseFirst(s);
      if key in names {
        var i :| 0 <= i < |names| && names[i] == key;
        assert HasName(table[h], key);
      }
    }

    /** `getPluginName` inverts `getPlugin`: the plugin found under a name is
        reported back under the normalised name, and conversely. */
    lemma ReverseLookupInvertsLookup(h: Host, s: string, p: PluginId)
      requires Valid()
      ensures GetPlugin(h, JsString(s)) == Ok(Some(p)) <==> NameOf(HolderOf(h), p) == Some(ToUpperCaseFirst(s))
    {
      if h in table {
        assert HolderValid(h, table[h], regs, built, destroyed);
        FindNameOfInverse(table[h], ToUpperCaseFirst(s), p);
      }
    }

    /** Two distinct instances on the same host are reported under distinct
        names. */
    lemma ReverseLookupSeparates(h: Host, p: PluginId, q: PluginId)
      requires Valid() && p != q
      requires NameOf(HolderOf(h), p).Some?
      ensures NameOf(HolderOf(h), p) != NameOf(HolderOf(h), q)
    {
      var holder := HolderOf(h);
      assert h in table && HolderValid(h, holder, regs, built, destroyed);
      var n := NameOf(holder, p).value;
      FindNameOfInverse(holder, n, p);
      FindNameOfInverse(holder, n, q);
    }

    /** Only the first letter is folded: with "Foo" stored, "foo" finds it and
        "FOO" does not. */
    lemma WholeNameCaseMatters(h: Host, p: PluginId)
      requires h in table && table[h] == [("Foo", p)]
      ensures GetPlugin(h, JsString("foo")) == Ok(Some(p))
      ensures GetPlugin(h, JsString("FOO")) == Ok(None)
    {
      OnlyFirstLetterIsFolded();
      assert !HasName(table[h], "FOO");
    }
  }
}
