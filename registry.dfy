/** `Registry`: a named string-keyed map whose values may be null, and
    `DefaultedRegistry`: a registry whose lookups fall back on a default provider. */
module Registries {
  import opened Wrappers

  /** A `Registry<T>`. A Java `null` value is `None`; a registered key mapped to `null`
      is still registered. */
  class Registry<T(==)> {
    const name: string
    var entries: map<string, Option<T>>

    /** The constructor with a non-null name: an empty registry. */
    constructor (name: string)
      ensures this.name == name
      ensures entries == map[]
    {
      this.name := name;
      entries := map[];
    }

    /** The constructor as Java callers see it: a `null` name is rejected with a
        `NullPointerException`. */
    static method Create(name: Option<string>) returns (r: Result<Registry<T>, string>)
      ensures name.None? <==> r.Failure?
      ensures r.Success? ==> fresh(r.value) && r.value.name == name.value && r.value.entries == map[]
    {
      if name.None? {
        return Failure("Registry name cannot be null");
      }
      var reg := new Registry(name.value);
      return Success(reg);
    }

    /** `isRegistered`: the key has a mapping, even one to `null`. */
    predicate IsRegistered(key: string)
      reads this
    {
      key in entries
    }

    /** `get`: the mapped value, or `null` both for an absent key and for a key mapped
        to `null`. */
    function Get(key: string): (r: Option<T>)
      reads this
      ensures r.Some? ==> IsRegistered(key) && entries[key] == r
      ensures !IsRegistered(key) ==> r.None?
      ensures IsRegistered(key) ==> r == entries[key]
    {
      if key in entries then entries[key] else None
    }

    /** `getOrDefault`: the mapped value whenever the key is present, even when that value
        is `null`; the given default only for an absent key. */
    function GetOrDefault(key: string, def: Option<T>): (r: Option<T>)
      reads this
      ensures IsRegistered(key) ==> r == Get(key)
      ensures !IsRegistered(key) ==> r == def
    {
      if key in entries then entries[key] else def
    }

    /** `register`: maps the key to the value and returns the previous mapping (`null`
        when there was none); every other key keeps its mapping. */
    method Register(key: string, value: Option<T>) returns (previous: Option<T>)
      modifies this
      ensures entries == old(entries)[key := value]
      ensures previous == old(Get(key))
      ensures IsRegistered(key) && Get(key) == value
      ensures forall k :: k != key ==> (IsRegistered(k) <==> old(IsRegistered(k))) && Get(k) == old(Get(k))
      ensures Size() == old(Size()) + (if old(IsRegistered(key)) then 0 else 1)
    {
      previous := Get(key);
      SizeOfUpdate(entries, key, value);
      entries := entries[key := value];
    }

    /** `unregister`: removes the key and returns its previous mapping; every other key
        keeps its mapping. */
    method Unregister(key: string) returns (previous: Option<T>)
      modifies this
      ensures entries == old(entries) - {key}
      ensures previous == old(Get(key))
      ensures !IsRegistered(key) && Get(key).None?
      ensures forall k :: k != key ==> (IsRegistered(k) <==> old(IsRegistered(k))) && Get(k) == old(Get(k))
      ensures Size() == old(Size()) - (if old(IsRegistered(key)) then 1 else 0)
    {
      previous := Get(key);
      SizeOfRemoval(entries, key);
      entries := entries - {key};
    }

    /** `keys`: exactly the registered keys. */
    function Keys(): (r: set<string>)
      reads this
      ensures forall k :: k in r <==> IsRegistered(k)
    {
      entries.Keys
    }

    /** `items`: the values of the mappings, `null` included. */
    function Items(): (r: set<Option<T>>)
      reads this
      ensures forall k :: IsRegistered(k) ==> Get(k) in r
      ensures forall v :: v in r ==> exists k :: k in entries && entries[k] == v
    {
      entries.Values
    }

    /** `size`: the number of distinct registered keys. */
    function Size(): (r: nat)
      reads this
      ensures r == |Keys()|
    {
      |entries|
    }

    /** `isEmpty`: no key is registered. */
    predicate IsEmpty()
      reads this
      ensures IsEmpty() <==> Size() == 0
      ensures IsEmpty() <==> forall k :: !IsRegistered(k)
    {
      if |entries| == 0 then true
      else
        var k :| k in entries;
        assert IsRegistered(k);
        false
    }

    /** `mapView`: the current mappings. */
    function MapView(): (r: map<string, Option<T>>)
      reads this
      ensures forall k :: k in r <==> IsRegistered(k)
      ensures forall k :: k in r ==> r[k] == Get(k)
    {
      entries
    }
  }

  /** Adding a mapping grows the key count exactly when the key was new. */
  lemma SizeOfUpdate<V>(m: map<string, V>, key: string, value: V)
    ensures |m[key := value]| == |m| + (if key in m then 0 else 1)
  {
    if key in m {
      assert m[key := value].Keys == m.Keys;
    } else {
      assert m[key := value].Keys == m.Keys + {key};
    }
  }

  /** Removing a key shrinks the key count exactly when the key was present. */
  lemma SizeOfRemoval<V>(m: map<string, V>, key: string)
    ensures |m - {key}| == |m| - (if key in m then 1 else 0)
  {
    if key in m {
      assert (m - {key}).Keys + {key} == m.Keys;
    } else {
      assert (m - {key}).Keys == m.Keys;
    }
  }

  /** A `DefaultedRegistry<T>`: a `Registry<T>` (the `base`) whose `get` consults a
      default provider. In lightweight mode (after `setDefault(value)`) the provider is
      used only for absent keys; in provider mode (after `setDefault(function)`) also for
      keys mapped to `null`. */
  class DefaultedRegistry<T(==)> {
    const base: Registry<T>
    var lightweightProvider: bool
    var defaultProvider: string -> Option<T>

    /** The one-argument constructor: a lightweight default of `null`. */
    constructor (name: string)
      ensures fresh(base) && base.name == name && base.entries == map[]
      ensures lightweightProvider
      ensures forall k :: defaultProvider(k).None?
    {
      base := new Registry(name);
      lightweightProvider := true;
      defaultProvider := k => None;
    }

    /** The constructor with a default value: lightweight mode. */
    constructor WithValue(name: string, defaultValue: Option<T>)
      ensures fresh(base) && base.name == name && base.entries == map[]
      ensures lightweightProvider
      ensures forall k :: defaultProvider(k) == defaultValue
    {
      base := new Registry(name);
      lightweightProvider := true;
      defaultProvider := k => defaultValue;
    }

    /** The constructor with a (non-null) provider: provider mode. */
    constructor WithProvider(name: string, provider: string -> Option<T>)
      ensures fresh(base) && base.name == name && base.entries == map[]
      ensures !lightweightProvider
      ensures defaultProvider == provider
    {
      base := new Registry(name);
      lightweightProvider := false;
      defaultProvider := provider;
    }

    /** `getDefault`. */
    function GetDefault(): (r: string -> Option<T>)
      reads this
      ensures r == defaultProvider
    {
      defaultProvider
    }

    /** `setDefault(T)`: a provider answering the value for every key, in lightweight
        mode; the mappings are untouched. */
    method SetDefaultValue(defaultValue: Option<T>)
      modifies this
      ensures lightweightProvider
      ensures forall k :: defaultProvider(k) == defaultValue
    {
      defaultProvider := k => defaultValue;
      lightweightProvider := true;
    }

    /** `setDefault(Function)`: a `null` provider is rejected before anything changes;
        otherwise the provider is installed in provider mode. */
    method SetDefaultProvider(provider: Option<string -> Option<T>>) returns (ok: bool)
      modifies this
      ensures ok <==> provider.Some?
      ensures ok ==> defaultProvider == provider.value && !lightweightProvider
      ensures !ok ==> defaultProvider == old(defaultProvider) && lightweightProvider == old(lightweightProvider)
    {
      if provider.None? {
        return false;
      }
      defaultProvider := provider.value;
      lightweightProvider := false;
      return true;
    }

    /** `get`: a non-null mapping is answered in both modes; an absent key gets the
        provider's value; a key mapped to `null` stays `null` in lightweight mode and
        gets the provider's value in provider mode. */
    function Get(key: string): (r: Option<T>)
      reads this, base
      ensures base.Get(key).Some? ==> r == base.Get(key)
      ensures !base.IsRegistered(key) ==> r == defaultProvider(key)
      ensures base.IsRegistered(key) && base.Get(key).None? ==>
                r == (if lightweightProvider then None else defaultProvider(key))
    {
      if lightweightProvider then
        base.GetOrDefault(key, GetDefault()(key))
      else
        var t := base.Get(key);
        if t.None? then GetDefault()(key) else t
    }

    /** `register`, inherited. */
    method Register(key: string, value: Option<T>) returns (previous: Option<T>)
      modifies base
      ensures base.entries == old(base.entries)[key := value]
      ensures previous == old(base.Get(key))
    {
      previous := base.Register(key, value);
    }

    /** `unregister`, inherited. */
    method Unregister(key: string) returns (previous: Option<T>)
      modifies base
      ensures base.entries == old(base.entries) - {key}
      ensures previous == old(base.Get(key))
    {
      previous := base.Unregister(key);
    }
  }

}
