/** The configuration store of src/config.py, in memory: an
    insertion-ordered dictionary from keys to values.  Reading and writing
    the configuration file are not part of this model; the dictionary the
    file gave is a parameter of the constructor. */
module Configs {
  import opened Dicts

  class Config<V> {
    /** `__config`. */
    var config: Dict<string, V>

    ghost predicate Valid()
      reads this
    {
      config.Valid()
    }

    /** `Config()`: the dictionary loaded from the configuration file
      (empty when there was none or it could not be read). */
    constructor (loaded: Dict<string, V>)
      requires loaded.Valid()
      ensures Valid() && config == loaded
    {
      config := loaded;
    }

    /** `key in config`. */
    method Contains(key: string) returns (b: bool)
      requires Valid()
      ensures b <==> key in config.keys
    {
      b := key in config.vals;
    }

    /** `keys()`: the keys in the order they were first set. */
    method Keys() returns (ks: seq<string>)
      ensures ks == config.keys
    {
      ks := config.keys;
    }

    /** `set(key, value)`: `key` maps to `value`, every other key keeps its
      value, and a new key goes last. */
    method Set(key: string, value: V)
      requires Valid()
      modifies this`config
      ensures Valid()
      ensures config == old(config).Put(key, value)
      ensures key in config.keys && config.vals[key] == value
      ensures forall k :: k != key ==> (k in config.vals <==> k in old(config).vals)
      ensures forall k :: k != key && k in old(config).vals ==> config.vals[k] == old(config).vals[k]
    {
      config := config.Put(key, value);
    }

    /** `get(key, default, setDefault)`: the stored value of a present key,
      whatever the default; for an absent key the default, which is also
      stored when `setDefault` holds. */
    method Get(key: string, default: V, setDefault: bool) returns (r: V)
      requires Valid()
      modifies this`config
      ensures Valid()
      ensures key in old(config).vals ==> r == old(config).vals[key] && config == old(config)
      ensures key !in old(config).vals ==> r == default
      ensures key !in old(config).vals && !setDefault ==> config == old(config)
      ensures key !in old(config).vals && setDefault ==> config == old(config).Put(key, default)
    {
      if key !in config.vals {
        if setDefault {
          Set(key, default);
        }
        return default;
      }
      r := config.vals[key];
    }
  }

  /** After `set(key, value)`, `get(key, d)` gives `value` whatever `d`,
    `key in config` holds, and another key reads as before. */
  method SetThenGet<V>(c: Config<V>, key: string, value: V, other: string, d: V, setDefault: bool)
      returns (got: V, contained: bool, otherBefore: V, otherAfter: V)
    requires c.Valid() && other != key
    modifies c
    ensures got == value && contained
    ensures otherAfter == otherBefore
  {
    otherBefore := c.Get(other, d, false);
    c.Set(key, value);
    got := c.Get(key, d, setDefault);
    contained := c.Contains(key);
    otherAfter := c.Get(other, d, false);
  }

  /** `get(key, d, setDefault=True)` on an absent key makes it present with
    value `d`: a later `get(key, e)` gives `d`, not `e`. */
  method DefaultSticks<V>(c: Config<V>, key: string, d: V, e: V)
      returns (first: V, contained: bool, second: V)
    requires c.Valid() && key !in c.config.vals
    modifies c
    ensures first == d && contained && second == d
  {
    first := c.Get(key, d, true);
    contained := c.Contains(key);
    second := c.Get(key, e, false);
  }
}
