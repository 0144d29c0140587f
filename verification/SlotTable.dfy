/** The fixed tables of the packet dumper: a slot whose key fields are all zero is free, a key is looked up by
    scanning, and a new key takes the first free slot. Keys are nonzero. */
module SlotTable {

  datatype Slot<K, V> = Free | Used(key: K, val: V)

  ghost predicate Distinct<K, V>(slots: seq<Slot<K, V>>) {
    forall i, j :: 0 <= i < j < |slots| && slots[i].Used? && slots[j].Used? ==> slots[i].key != slots[j].key
  }

  /** The slot that holds `key`, or -1. */
  function Find<K(==), V>(slots: seq<Slot<K, V>>, key: K): (p: int)
    ensures -1 <= p < |slots|
    ensures p >= 0 ==> slots[p].Used? && slots[p].key == key
    ensures p < 0 ==> forall i :: 0 <= i < |slots| ==> !(slots[i].Used? && slots[i].key == key)
  {
    if slots == [] then -1
    else if slots[0].Used? && slots[0].key == key then 0
    else
      var p := Find(slots[1..], key);
      assert forall i :: 0 < i < |slots| ==> slots[i] == slots[1..][i - 1];
      if p < 0 then -1 else p + 1
  }

  /** The first free slot, or -1. */
  function FirstFree<K, V>(slots: seq<Slot<K, V>>): (p: int)
    ensures -1 <= p < |slots|
    ensures p >= 0 ==> slots[p].Free?
    ensures forall i :: 0 <= i < (if p < 0 then |slots| else p) ==> slots[i].Used?
  {
    if slots == [] then -1
    else if slots[0].Free? then 0
    else
      var p := FirstFree(slots[1..]);
      assert forall i :: 0 < i < |slots| ==> slots[i] == slots[1..][i - 1];
      if p < 0 then -1 else p + 1
  }

  /** The slot of the key if it has one, else the first free slot, else -1. */
  function Locate<K(==), V>(slots: seq<Slot<K, V>>, key: K): (p: int)
    ensures -1 <= p < |slots|
  {
    if Find(slots, key) >= 0 then Find(slots, key) else FirstFree(slots)
  }

  /** One scan that remembers the first free slot on the way. */
  method Scan<K(==), V>(slots: seq<Slot<K, V>>, key: K) returns (pos: int)
    requires Distinct(slots)
    ensures pos == Locate(slots, key)
  {
    pos := -1;
    var i := 0;
    while i < |slots|
      invariant 0 <= i <= |slots|
      invariant forall j :: 0 <= j < i ==> !(slots[j].Used? && slots[j].key == key)
      invariant -1 <= pos < i
      invariant pos >= 0 ==> slots[pos].Free?
      invariant forall j :: 0 <= j < (if pos < 0 then i else pos) ==> slots[j].Used?
    {
      if slots[i].Used? && slots[i].key == key {
        pos := i;
        return;
      }
      if pos < 0 && slots[i].Free? {
        pos := i;
      }
      i := i + 1;
    }
  }

  function Keys<K, V>(slots: seq<Slot<K, V>>): set<K> {
    set i | 0 <= i < |slots| && slots[i].Used? :: slots[i].key
  }

  lemma KeysFind<K, V>(slots: seq<Slot<K, V>>, key: K)
    ensures key in Keys(slots) <==> Find(slots, key) >= 0
  {
  }

  /** The finite map a table stands for. */
  ghost function AsMap<K, V>(slots: seq<Slot<K, V>>): map<K, V> {
    map k | k in Keys(slots) :: KeysFind(slots, k); slots[Find(slots, k)].val
  }

  lemma FindIs<K, V>(slots: seq<Slot<K, V>>, p: nat)
    requires Distinct(slots) && p < |slots| && slots[p].Used?
    ensures Find(slots, slots[p].key) == p
  {
  }

  /** Storing at the located slot is a map update. */
  lemma Stored<K(!new), V>(slots: seq<Slot<K, V>>, key: K, val: V)
    requires Distinct(slots) && Locate(slots, key) >= 0
    ensures var slots' := slots[Locate(slots, key) := Used(key, val)];
            Distinct(slots') && AsMap(slots') == AsMap(slots)[key := val]
  {
    var p := Locate(slots, key);
    var slots' := slots[p := Used(key, val)];
    assert Distinct(slots');
    FindIs(slots', p);
    KeysFind(slots', key);
    forall k | k != key
      ensures Find(slots', k) == Find(slots, k)
    {
      var q := Find(slots, k);
      if q >= 0 {
        FindIs(slots', q);
      }
    }
    forall k
      ensures k in Keys(slots') <==> k in Keys(slots) || k == key
    {
      KeysFind(slots', k);
      KeysFind(slots, k);
    }
  }

  /** Clearing the slot of a key is a map removal. */
  lemma Cleared<K(!new), V>(slots: seq<Slot<K, V>>, key: K)
    requires Distinct(slots) && Find(slots, key) >= 0
    ensures var slots' := slots[Find(slots, key) := Free];
            Distinct(slots') && AsMap(slots') == AsMap(slots) - {key}
  {
    hide AsMap, Keys;
    var p := Find(slots, key);
    var slots' := slots[p := Free];
    assert Find(slots', key) == -1;
    forall k | k != key
      ensures Find(slots', k) == Find(slots, k)
    {
      var q := Find(slots, k);
      if q >= 0 {
        FindIs(slots', q);
      }
    }
    forall k
      ensures k in Keys(slots') <==> k in Keys(slots) && k != key
    {
      KeysFind(slots', k);
      KeysFind(slots, k);
    }
    ClearedMap(slots, slots', key);
  }

  lemma ClearedMap<K(!new), V>(slots: seq<Slot<K, V>>, slots': seq<Slot<K, V>>, key: K)
    requires |slots'| == |slots| && forall i :: 0 <= i < |slots| ==> slots'[i] == slots[i] || slots'[i].Free?
    requires forall k :: k in Keys(slots') <==> k in Keys(slots) && k != key
    requires forall k :: k != key ==> Find(slots', k) == Find(slots, k)
    ensures AsMap(slots') == AsMap(slots) - {key}
  {
    hide Keys;
    forall k | k in Keys(slots')
      ensures AsMap(slots')[k] == AsMap(slots)[k]
    {
      KeysFind(slots', k);
    }
  }

  /** A table is full only when it holds as many keys as it has slots. */
  lemma {:induction false} FullTable<K, V>(slots: seq<Slot<K, V>>)
    requires Distinct(slots) && FirstFree(slots) < 0
    ensures |Keys(slots)| == |slots|
  {
    if slots != [] {
      var n := |slots| - 1;
      var pre := slots[..n];
      assert FirstFree(pre) < 0;
      FullTable(pre);
      assert Keys(slots) == Keys(pre) + {slots[n].key};
      assert slots[n].key !in Keys(pre);
    }
  }

  /** While the keys in use come from a set no larger than the table, there is always a slot. */
  lemma AlwaysRoom<K, V>(slots: seq<Slot<K, V>>, keys: set<K>, key: K)
    requires Distinct(slots) && Keys(slots) <= keys && key in keys && |keys| <= |slots|
    ensures Locate(slots, key) >= 0
  {
    if Find(slots, key) < 0 && FirstFree(slots) < 0 {
      FullTable(slots);
      KeysFind(slots, key);
      SubsetSize(Keys(slots), keys - {key});
    }
  }

  lemma {:induction false} SubsetSize<K>(a: set<K>, b: set<K>)
    requires a <= b
    ensures |a| <= |b|
  {
    if a != {} {
      var x :| x in a;
      SubsetSize(a - {x}, b - {x});
    }
  }

  lemma {:induction false} AtMostSlots<K, V>(slots: seq<Slot<K, V>>)
    ensures |Keys(slots)| <= |slots|
  {
    if slots != [] {
      var n := |slots| - 1;
      AtMostSlots(slots[..n]);
      if slots[n].Used? {
        assert Keys(slots) == Keys(slots[..n]) + {slots[n].key};
      } else {
        assert Keys(slots) == Keys(slots[..n]);
      }
    }
  }

  /** A table is full exactly when the map it stands for has as many keys as there are slots. */
  lemma FullIff<K, V>(slots: seq<Slot<K, V>>)
    requires Distinct(slots)
    ensures FirstFree(slots) < 0 <==> |AsMap(slots)| == |slots|
    ensures |AsMap(slots)| <= |slots|
  {
    assert AsMap(slots).Keys == Keys(slots);
    AtMostSlots(slots);
    if FirstFree(slots) < 0 {
      FullTable(slots);
    } else {
      FreeMeansFewer(slots, FirstFree(slots));
    }
  }

  lemma FreeMeansFewer<K, V>(slots: seq<Slot<K, V>>, p: nat)
    requires p < |slots| && slots[p].Free?
    ensures |Keys(slots)| < |slots|
  {
    var others := slots[..p] + slots[p + 1..];
    AtMostSlots(others);
    forall k | k in Keys(slots)
      ensures k in Keys(others)
    {
      var i :| 0 <= i < |slots| && slots[i].Used? && slots[i].key == k;
      assert others[if i < p then i else i - 1] == slots[i];
    }
    SubsetSize(Keys(slots), Keys(others));
  }
}
