/**
 * The hand-written keyed map that backs every axis: an object of items plus a
 * `length` counter that each operation keeps in step with the number of keys.
 */
module HashTables {
  import opened Wrappers
  import opened Dedup

  /** Adding a key that is not yet present grows a map by exactly one. */
  lemma {:induction false} SizeAfterInsert<K, V>(m: map<K, V>, k: K, v: V)
    requires k !in m
    ensures |m[k := v]| == |m| + 1
  {
    assert m[k := v].Keys == m.Keys + {k};
  }

  /** Removing a present key shrinks a map by exactly one. */
  lemma {:induction false} SizeAfterRemove<K, V>(m: map<K, V>, k: K)
    requires k in m
    ensures |m - {k}| == |m| - 1
  {
    assert (m - {k}).Keys == m.Keys - {k};
  }

  class HashTable<K(==), V> {
    /** The stored entries (the object `items`). */
    var items: map<K, V>
    /** The hand-maintained entry counter. */
    var length: int

    /** The counter agrees with the number of stored keys. */
    ghost predicate Valid()
      reads this
    {
      length == |items|
    }

    /** Copies every own property of `obj`, counting each one. */
    constructor (obj: map<K, V>)
      ensures Valid()
      ensures items == obj && length == |obj|
    {
      var copied: map<K, V> := map[];
      var count := 0;
      var rest := obj.Keys;
      while rest != {}
        invariant rest <= obj.Keys
        invariant copied.Keys == obj.Keys - rest
        invariant forall p :: p in copied ==> copied[p] == obj[p]
        invariant count + |rest| == |obj|
        decreases rest
      {
        var p :| p in rest;
        copied := copied[p := obj[p]];
        count := count + 1;
        rest := rest - {p};
      }
      items := copied;
      length := count;
    }

    /** Whether `key` is an own property of the items. */
    predicate HasItem(key: K)
      reads this
      ensures HasItem(key) <==> key in items.Keys
    {
      key in items
    }

    /** The stored value, or undefined for a missing key. */
    function GetItem(key: K): (r: Option<V>)
      reads this
      ensures r.Some? <==> key in items
      ensures r.Some? ==> r.value == items[key]
    {
      if HasItem(key) then Some(items[key]) else None
    }

    /** Stores `value` under `key`; returns the value it replaces, or undefined for a new key. */
    method SetItem(key: K, value: V) returns (previous: Option<V>)
      requires Valid()
      modifies this
      ensures Valid()
      ensures items == old(items)[key := value]
      ensures GetItem(key) == Some(value)
      ensures key in old(items) ==> previous == Some(old(items)[key]) && length == old(length)
      ensures key !in old(items) ==> previous == None && length == old(length) + 1
    {
      previous := None;
      if HasItem(key) {
        previous := Some(items[key]);
      } else {
        SizeAfterInsert(items, key, value);
        length := length + 1;
      }
      items := items[key := value];
    }

    /** Deletes `key`; returns its value, or undefined (changing nothing) when it is absent. */
    method RemoveItem(key: K) returns (previous: Option<V>)
      requires Valid()
      modifies this
      ensures Valid()
      ensures key in old(items) ==>
        previous == Some(old(items)[key]) && items == old(items) - {key} && length == old(length) - 1
      ensures key !in old(items) ==>
        previous == None && items == old(items) && length == old(length)
      ensures !HasItem(key)
    {
      if HasItem(key) {
        previous := Some(items[key]);
        SizeAfterRemove(items, key);
        length := length - 1;
        items := items - {key};
      } else {
        previous := None;
      }
    }

    /** Every stored key once; as many as `length` says. */
    method Keys() returns (keys: seq<K>)
      requires Valid()
      ensures |keys| == length
      ensures NoDuplicates(keys)
      ensures forall k :: k in keys <==> k in items
    {
      keys := [];
      var rest := items.Keys;
      while rest != {}
        invariant rest <= items.Keys
        invariant forall k :: k in keys <==> k in items.Keys - rest
        invariant NoDuplicates(keys)
        invariant |keys| + |rest| == |items|
        decreases rest
      {
        var k :| k in rest;
        if HasItem(k) {
          assert k !in keys;
          keys := keys + [k];
        }
        rest := rest - {k};
      }
    }

    /** The stored value of every key once, listed by an enumeration `order` of the keys. */
    method Values() returns (values: seq<V>, ghost order: seq<K>)
      requires Valid()
      ensures |values| == length
      ensures |order| == |values| && NoDuplicates(order)
      ensures forall k :: k in order <==> k in items
      ensures forall i :: 0 <= i < |order| ==> order[i] in items && values[i] == items[order[i]]
    {
      values, order := [], [];
      var rest := items.Keys;
      while rest != {}
        invariant rest <= items.Keys
        invariant |order| == |values|
        invariant forall k :: k in order <==> k in items.Keys - rest
        invariant NoDuplicates(order)
        invariant forall i :: 0 <= i < |order| ==> order[i] in items && values[i] == items[order[i]]
        invariant |order| + |rest| == |items|
        decreases rest
      {
        var k :| k in rest;
        if HasItem(k) {
          assert k !in order;
          values, order := values + [items[k]], order + [k];
        }
        rest := rest - {k};
      }
    }

    /** Drops every entry and resets the counter. */
    method Clear()
      modifies this
      ensures Valid()
      ensures items == map[] && length == 0
    {
      items := map[];
      length := 0;
    }
  }
}
