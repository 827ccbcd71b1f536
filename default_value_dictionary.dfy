/**
 * DefaultValueDictionary: a dictionary whose indexer answers a missing key
 * with the default value instead of throwing. The wrapped IDictionary is a
 * map field that the mutating members reassign; the default value, which C#
 * takes from default(TValue), is fixed when the dictionary is made.
 */
module DataStructures {

  class DefaultValueDictionary<K(==), V(==)> {
    var entries: map<K, V>
    /** default(TValue). */
    const defaultValue: V

    /** An empty dictionary. */
    constructor (defaultValue: V)
      ensures entries == map[] && this.defaultValue == defaultValue
    {
      entries := map[];
      this.defaultValue := defaultValue;
    }

    /** A dictionary over the given entries. */
    constructor FromDictionary(dictionary: map<K, V>, defaultValue: V)
      ensures entries == dictionary && this.defaultValue == defaultValue
    {
      entries := dictionary;
      this.defaultValue := defaultValue;
    }

    /** The indexer's getter: the stored value, or the default for a missing key. */
    function Get(key: K): (value: V)
      reads this
      ensures key in entries ==> value == entries[key]
      ensures key !in entries ==> value == defaultValue
    {
      if key in entries then entries[key] else defaultValue
    }

    /** The indexer's setter: inserts or overwrites. */
    method Set(key: K, value: V)
      modifies this
      ensures entries == old(entries)[key := value]
      ensures Get(key) == value && ContainsKey(key)
      ensures forall k :: k != key && k in old(entries) ==> Get(k) == old(entries)[k]
      ensures forall k :: k != key && k !in old(entries) ==> Get(k) == defaultValue
      ensures Count() == old(Count()) + (if key in old(entries) then 0 else 1)
    {
      entries := entries[key := value];
    }

    /** Add(key, value): an existing key makes IDictionary.Add throw, so the key must be new. */
    method Add(key: K, value: V)
      requires key !in entries
      modifies this
      ensures entries == old(entries)[key := value]
      ensures ContainsKey(key) && Count() == old(Count()) + 1
    {
      entries := entries[key := value];
    }

    /** Add(KeyValuePair): the same as Add(key, value). */
    method AddPair(item: (K, V))
      requires item.0 !in entries
      modifies this
      ensures entries == old(entries)[item.0 := item.1]
      ensures ContainsKey(item.0) && Count() == old(Count()) + 1
    {
      Add(item.0, item.1);
    }

    /** ContainsKey: a missing key reads as the default, and a present one means the dictionary is not empty. */
    predicate ContainsKey(key: K): (present: bool)
      reads this
      ensures !present ==> Get(key) == defaultValue
      ensures present ==> Count() > 0
    {
      key in entries
    }

    /** Contains(KeyValuePair): the key is present with exactly that value. */
    predicate Contains(item: (K, V)): (held: bool)
      reads this
      ensures held <==> ContainsKey(item.0) && Get(item.0) == item.1
    {
      item.0 in entries && entries[item.0] == item.1
    }

    /** Remove(key): true exactly when the key was present; afterwards it is absent. */
    method Remove(key: K) returns (removed: bool)
      modifies this
      ensures removed == (key in old(entries))
      ensures entries == old(entries) - {key}
      ensures !ContainsKey(key) && Get(key) == defaultValue
      ensures Count() == old(Count()) - (if removed then 1 else 0)
    {
      removed := key in entries;
      entries := entries - {key};
    }

    /** Remove(KeyValuePair): removes the key only when it holds exactly that value. */
    method RemovePair(item: (K, V)) returns (removed: bool)
      modifies this
      ensures removed == old(Contains(item))
      ensures entries == if removed then old(entries) - {item.0} else old(entries)
    {
      removed := Contains(item);
      if removed {
        entries := entries - {item.0};
      }
    }

    /** TryGetValue: whether the key is present, and its value or default(TValue). */
    method TryGetValue(key: K) returns (found: bool, value: V)
      ensures found == ContainsKey(key)
      ensures found ==> value == entries[key]
      ensures !found ==> value == defaultValue
    {
      found := key in entries;
      value := if found then entries[key] else defaultValue;
    }

    /** Count: the number of keys. */
    function Count(): (n: nat)
      reads this
      ensures n == |entries|
    {
      |entries|
    }

    /** Clear: no entries left, so every read gives the default. */
    method Clear()
      modifies this
      ensures entries == map[]
      ensures Count() == 0 && forall k :: Get(k) == defaultValue
    {
      entries := map[];
    }
  }
}
