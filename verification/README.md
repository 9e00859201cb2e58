# Plugin registry of Handsontable (`src/plugins.js`), modelled in Dafny

`src/plugins.js` keeps a table from host (a Handsontable instance) to holder
(an object mapping a plugin name to the plugin instance). It has four
operations:

- `registerPlugin(pluginName, PluginClass)` normalises the name with
  `toUpperCaseFirst`. It then adds two lifecycle handlers:
  - on `construct`, it creates the host's holder if it is missing and
    instantiates the plugin unless its name is already present;
  - on `afterDestroy`, it calls `destroy()` on every stored plugin and then
    drops the host's holder.
- `getPlugin` looks up a plugin under the normalised name. It throws when
  given a non-string.
- `getRegistredPluginNames` lists the holder's names.
- `getPluginName` finds a plugin's name by identity.

The model has three modules.

- `Names` (`names.dfy`) covers first-letter normalisation and what it folds.
- `Holders` (`holders.dfy`):
  - A holder is a sequence of (name, instance) pairs in property insertion
    order.
  - `Find` models reading a property.
  - `NameOf` models the identity scan, where the last match wins.
  - `Adopt` and `Handle` are one `construct` handler.
  - `Spawn` is the handlers of the first `n` registrations run in order. New
    instances get consecutive identities.
  - `FirstFactory` gives the class that the first registration of a name
    contributes.
- `Plugins` (`plugins.dfy`): the class `Registry` holds the module-level
  state:
  - `regs` holds the registrations in order. Each contributes one
    `construct` and one `afterDestroy` handler.
  - `table` is `registeredPlugins`.
  - `nextId` is the identity the next `new PluginClass(this)` returns.
  - The ghost field `built` logs the host and class each instance was
    created for.
  - The ghost field `destroyed` logs the `destroy()` calls.
  - `Construct(h)` and `AfterDestroy(h)` model the two lifecycle events. Each
    runs every registration's handler in registration order, through
    `RunConstructHandler` and `RunAfterDestroyHandler`.
  - `Valid()` is the invariant every operation keeps. It requires:
    - every registered name is normalised;
    - every holder is non-empty;
    - names and instances in a holder are unique;
    - every stored instance was built for that host by the first
      registration under its name;
    - no stored instance has been destroyed;
    - no instance is destroyed twice.

The key function `toUpperCaseFirst` upper-cases only the first character. So
`"foo"` and `"Foo"` share the key `"Foo"`, but `"FOO"` keeps its own key.
Lookups are insensitive to the case of the first letter only, not of the whole
name. The model follows this behaviour of the code (see
`Plugins.Registry.WholeNameCaseMatters`). `src/helpers/string.js` is not part
of this model. `toUpperCaseFirst` is modelled as upper-casing the first
character when it is an ASCII letter.

## Model

| member | source | states |
|---|---|---|
| Names.ToUpperCaseFirst | src/plugins.js:17 | the key made from a plugin name has the name's length and keeps everything after the first character (SameKeyIffFirstLetterCase states what folding the first character identifies) |
| Names.NormaliseIdempotent | src/plugins.js:17 | normalising an already normalised name changes nothing, so stored keys are fixed points |
| Names.SameKeyIffFirstLetterCase | src/plugins.js:49 | two names give the same key if and only if they differ at most in the case of an ASCII first letter |
| Names.OnlyFirstLetterIsFolded | src/plugins.js:49 | "foo" becomes "Foo", "FOO" stays "FOO", and the two keys differ |
| Holders.Find | src/plugins.js:51-55 | a property read on a holder finds nothing exactly when no entry has that name; when it finds an instance, the holder has an entry with that name and instance |
| Holders.NameOf | src/plugins.js:79-83 | the scan by identity gives nothing exactly when no entry holds the instance; otherwise it gives the name of an entry holding it that no later entry holding it follows (the last match wins) |
| Holders.Keys | src/plugins.js:65 | `Object.keys` of a holder: one name per entry, the i-th being the name of the i-th entry in insertion order (KeysAreNames states which names are listed) |
| Holders.KeysAreNames | src/plugins.js:65 | a name is listed exactly when the holder has a property with that name |
| Holders.Adopt | src/plugins.js:26-28 | the conditional store of one handler: when the name is absent exactly one entry is appended, holding the name and the new instance; when it is present nothing is appended (AdoptKeepsNames states the rest) |
| Holders.AdoptKeepsNames | src/plugins.js:26-28 | after one handler's conditional store its name is present, the existing entries are unchanged in place, and every name present before is still present |
| Holders.Handle | src/plugins.js:19-29 | one construct handler applied to the running result of the earlier ones, as the definition: Adopt with the next free instance, logging the class exactly when the name was absent (no contract of its own; SpawnExtends and SpawnCovers state the effect of a run of handlers) |
| Holders.Spawn | src/plugins.js:19-29 | the construct handlers of the first n registrations run in registration order on one holder, as the definition (no contract of its own; SpawnExtends, SpawnCovers, SpawnIdle and SpawnSettles state its effect) |
| Holders.FirstFactory | src/plugins.js:26-27 | gives nothing exactly when no registration has the name; otherwise gives the class of the first registration under it, the one whose handler stores the instance |
| Holders.FirstFactoryKept | src/plugins.js:16-19 | a later registration does not change which class is first under a name that is already registered |
| Holders.SpawnExtends | src/plugins.js:19-29 | running the handlers keeps every existing entry in place and appends one entry per instantiated class, with consecutive fresh instances |
| Holders.SpawnCovers | src/plugins.js:19-29 | after the handlers run, every registered name is present, and every added entry carries a registered name |
| Holders.SpawnIdle | src/plugins.js:20-28 | when every registered name is already present, the handlers change nothing and call no class |
| Holders.SpawnSettles | src/plugins.js:20-28 | running the handlers a second time on their own result changes nothing and instantiates nothing |
| Holders.FindNameOfInverse | src/plugins.js:51-83 | on a holder with unique names and instances, reading the name gives an instance if and only if the scan by that instance gives the name |
| Holders.NoDupOccursOnce | src/plugins.js:34 | an instance logged in a duplicate-free destroy log was destroyed exactly once |
| Plugins.HolderValidMoreBuilt | src/plugins.js:27 | creating instances for some host leaves every existing holder valid |
| Plugins.HolderValidAdd | src/plugins.js:24-28 | the store made by the j-th handler, after the earlier handlers ran, leaves the holder valid: a fresh instance built for this host by the first class under that name |
| Plugins.ConstructOutcome | src/plugins.js:19-29 | a whole construct event keeps the holder's existing entries as a prefix and makes every registered name present; it is a no-op when all names were already present |
| Plugins.Registry.constructor | src/plugins.js:8 | the registry starts with no registrations, an empty table and empty logs, and is valid |
| Plugins.Registry.RegisterPlugin | src/plugins.js:16-19 | appends the normalised name and its class to the registrations; no holder, instance or log changes; validity is kept |
| Plugins.Registry.RunConstructHandler | src/plugins.js:19-29 | one construct handler: the host's holder becomes the old one (empty if missing) with the name stored under a fresh instance only when absent; other hosts, other names and existing instances are unchanged; exactly one class is instantiated when the name was absent, none otherwise; validity is kept |
| Plugins.Registry.ConstructStep | src/plugins.js:19-29 | the handler of registration i advances the running result from the handlers of the first i registrations to that of the first i+1 |
| Plugins.Registry.Construct | src/plugins.js:19-29 | the construct event: with registrations, the host gets a holder containing every registered name, each instance built for this host by the first class under its name; existing entries are never overwritten; other hosts are unchanged; a second construct changes nothing and calls no class; with no registrations nothing changes |
| Plugins.Registry.RunAfterDestroyHandler | src/plugins.js:30-37 | one afterDestroy handler: with a holder, logs destroy() for each of its instances in insertion order and removes only that host; without one, nothing changes; validity is kept |
| Plugins.Registry.AfterDestroy | src/plugins.js:30-37 | the afterDestroy event: the host has no holder afterwards and no other host changes; each of its instances is destroyed exactly once, and none had been destroyed before; a host without a holder leaves the log unchanged |
| Plugins.Registry.GetPlugin | src/plugins.js:45-56 | fails with an invalid-argument error exactly when the name is not a string; otherwise gives nothing exactly when the host has no holder or the normalised name is absent, and an instance only when it is stored under the normalised name |
| Plugins.Registry.RegisteredPluginNames | src/plugins.js:64-66 | the holder's names in insertion order, or the empty list when the host has no holder |
| Plugins.Registry.GetPluginName | src/plugins.js:75-87 | the loop gives the name of the last entry holding the instance, or nothing when there is no holder or no match |
| Plugins.Registry.GetPluginFirstLetterCase | src/plugins.js:49-55 | two names that differ only in the case of the first letter give the same lookup result |
| Plugins.Registry.ListedNamesAreLookupKeys | src/plugins.js:45-66 | every listed name is normalised, and a lookup finds a plugin exactly when the normalised name is listed |
| Plugins.Registry.ReverseLookupInvertsLookup | src/plugins.js:45-87 | in a valid registry, getPlugin gives instance p under a name if and only if getPluginName of p gives the normalised name |
| Plugins.Registry.ReverseLookupSeparates | src/plugins.js:75-87 | in a valid registry, distinct instances on one host are reported under distinct names |
| Plugins.Registry.WholeNameCaseMatters | src/plugins.js:49-55 | with "Foo" stored, "foo" finds it and "FOO" finds nothing |

## Left out

- The hook bus (`./pluginHooks`). It is not part of this model. The
  dispatcher is not modelled; it is assumed to run the global handlers in
  registration order, with the host as `this`, which is what `Construct` and
  `AfterDestroy` do.
- Weak references. `registeredPlugins` is a `WeakMap`, but it is modelled as
  an ordinary map. Garbage collection cannot be expressed, so `afterDestroy`
  is the only way an entry leaves the table.
- Plugin behaviour. A `new PluginClass(this)` call is modelled as returning a
  fresh identity. It is recorded in the ghost `built` log, together with the
  host it received. `destroy()` is recorded in the ghost `destroyed` log.
  What either call does to the plugin or the host is not modelled.
- Exceptions thrown by a plugin constructor or by `destroy()`, and the partly
  updated state they would leave, are not modelled.
- `src/helpers/string.js` and `src/helpers/object.js` are not part of this
  model. `toUpperCaseFirst` is modelled as ASCII upper-casing of the first
  character, with no Unicode case mapping. `objectEach` is modelled as
  iteration over the holder's entries in insertion order.
- JavaScript property order. `Object.keys` and property iteration list
  integer-like keys first, in numeric order. The model uses plain insertion
  order throughout.
- Inherited properties. A holder is a plain object, so a normalised name such
  as `__proto__` or `__defineGetter__` reads an inherited, truthy value. The
  code would then see the name as present and never store that plugin. The model treats only the holder's own
  entries as present.
- Truthiness. The checks at `src/plugins.js:26` and `src/plugins.js:51` are
  modelled as presence checks, since a stored instance is always an object.
- `getPlugin`'s error. The thrown `Error` and its message are modelled as the
  error value `InvalidArgument`. Every non-string value is one case,
  `JsOther`.
- Plugins.Registry.RegisterPlugin: the handlers are not stored as closures.
  The registration list stands for them, and `Construct` and `AfterDestroy`
  run their bodies. A registration made after a host was constructed
  therefore takes effect at that host's next `construct`.
