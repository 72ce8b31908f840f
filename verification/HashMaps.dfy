/**
  The arrays of src/uvm/lhashmap.cpp: growable lists of entries, one list for each bucket in use, each
  operation tied to the one of `Buckets`.
 */
module HashMaps {
  import opened Options
  import opened Buckets

  const EXPANSION_SIZE: nat := 8

  /** LArrayList: `length` items in a block of `maxSize`. */
  class ArrayList<T(!new)> {
    var elements: array<Option<T>>
    var length: nat
    var maxSize: nat

    ghost predicate Valid()
      reads this, elements
    {
      length <= maxSize == elements.Length && forall i :: 0 <= i < length ==> elements[i].Some?
    }

    ghost function Contents(): (s: seq<T>)
      requires Valid()
      reads this, elements
      ensures |s| == length
    {
      seq(length, i requires 0 <= i < length && Valid() reads this, elements => elements[i].value)
    }

    constructor (initSize: nat)
      ensures Valid() && Contents() == [] && fresh(elements)
    {
      elements := new Option<T>[initSize](_ => None);
      length, maxSize := 0, initSize;
    }

    /** LArraylist_append: a full block is replaced by one with 8 more places. */
    method Append(data: T)
      requires Valid()
      modifies this, elements
      ensures Valid() && Contents() == old(Contents()) + [data]
      ensures elements == old(elements) || fresh(elements)
    {
      if length >= maxSize {
        Grow();
      }
      elements[length] := Some(data);
      length := length + 1;
    }

    method Grow()
      requires Valid() && length == maxSize
      modifies this
      ensures Valid() && Contents() == old(Contents()) && length < maxSize && fresh(elements)
    {
      var bigger := new Option<T>[maxSize + EXPANSION_SIZE](_ => None);
      var i := 0;
      while i < maxSize
        invariant i <= maxSize && bigger.Length == maxSize + EXPANSION_SIZE
        invariant forall j :: 0 <= j < i ==> bigger[j] == elements[j]
        modifies bigger
      {
        bigger[i] := elements[i];
        i := i + 1;
      }
      elements, maxSize := bigger, maxSize + EXPANSION_SIZE;
    }

    /** LArraylist_pop. */
    method Pop() returns (item: Option<T>)
      requires Valid()
      modifies this, elements
      ensures Valid() && elements == old(elements)
      ensures if old(length) == 0 then item == None && Contents() == []
              else item == Some(old(Contents())[old(length) - 1]) && Contents() == old(Contents())[..old(length) - 1]
    {
      if length < 1 {
        return None;
      }
      item := elements[length - 1];
      elements[length - 1] := None;
      length := length - 1;
    }

    /** LArraylist_set: out of range changes nothing. */
    method Set(index: nat, data: T)
      requires Valid()
      modifies elements
      ensures Valid()
      ensures Contents() == if index < length then old(Contents())[index := data] else old(Contents())
    {
      if length <= index {
        return;
      }
      elements[index] := Some(data);
    }
  }

  /** LHashMap, with the key comparison being equality of keys. */
  class HashMap<K(==, !new), V(==, !new)> {
    const hash: K -> nat
    const buckets: array<ArrayList?<Entry<K, V>>>
    ghost var table: Table<K, V>
    ghost var Repr: set<object>

    /** Bucket `b` is not there yet, or its list holds what the table says. */
    ghost predicate Keeps(b: nat)
      requires b < BUCKETS == buckets.Length
      reads this, buckets, Repr
    {
      var list := buckets[b];
      if list == null then table[b] == []
      else list in Repr && list.elements in Repr && list.Valid() && list.Contents() == table[b]
    }

    ghost predicate Valid()
      reads this, buckets, Repr
    {
      && this in Repr && buckets in Repr && buckets.Length == BUCKETS
      && (forall b :: 0 <= b < BUCKETS ==> Keeps(b))
      && (forall a, b :: 0 <= a < b < BUCKETS && Keeps(a) && Keeps(b) && buckets[a] != null && buckets[b] != null ==>
            buckets[a] != buckets[b] && buckets[a].elements != buckets[b].elements)
    }

    constructor (hash: K -> nat)
      ensures Valid() && table == Empty() && this.hash == hash && fresh(Repr)
    {
      this.hash := hash;
      buckets := new ArrayList?<Entry<K, V>>[BUCKETS](_ => null);
      table := Empty();
      new;
      Repr := {this, buckets};
    }

    /** LHashmap_get. */
    method Get(key: K) returns (r: Option<V>)
      requires Valid()
      ensures r == Buckets.Get(table, hash, key)
    {
      var list := buckets[hash(key) % BUCKETS];
      assert Keeps(hash(key) % BUCKETS);
      if list == null {
        return None;
      }
      var i := GetNode(list, hash(key), key);
      if i == -1 {
        return None;
      }
      r := Some(list.elements[i].value.data);
    }

    /** LHashmap_get_node. */
    method GetNode(list: ArrayList<Entry<K, V>>, h: nat, key: K) returns (at: int)
      requires list.Valid()
      ensures at == Position(list.Contents(), h, key)
    {
      var i := 0;
      while i < list.length
        invariant i <= list.length && Position(list.Contents()[..i], h, key) == -1
      {
        var node := list.elements[i].value;
        assert list.Contents()[..i + 1] == list.Contents()[..i] + [node];
        if node.hash == h && node.key == key {
          FirstAt(list.Contents(), h, key, i);
          return i;
        }
        i := i + 1;
      }
      assert list.Contents()[..i] == list.Contents();
      at := -1;
    }

    /** LHashmap_put: the entry is appended to the bucket of its hash, whatever is there. */
    method Put(key: K, data: V)
      requires Valid()
      modifies Repr
      ensures Valid() && fresh(Repr - old(Repr))
      ensures table == Buckets.Put(old(table), hash, key, data)
    {
      var b := hash(key) % BUCKETS;
      var list := FindOrCreate(b);
      assert Keeps(b);
      Append(list, b, Entry(key, data, hash(key)));
    }

    /** LHashmap_find_bucket, creating. */
    method FindOrCreate(b: nat) returns (list: ArrayList<Entry<K, V>>)
      requires Valid() && b < BUCKETS
      modifies this`Repr, buckets
      ensures Valid() && table == old(table) && fresh(Repr - old(Repr)) && old(Repr) <= Repr
      ensures buckets[b] == list
    {
      if buckets[b] == null {
        assert Keeps(b);
        list := new ArrayList(0);
        buckets[b] := list;
        Repr := Repr + {list, list.elements};
        forall c | 0 <= c < BUCKETS ensures Keeps(c) {
          assert c != b ==> old(Keeps(c));
        }
      } else {
        list := buckets[b];
      }
    }

    method Append(list: ArrayList<Entry<K, V>>, b: nat, e: Entry<K, V>)
      requires Valid() && b < BUCKETS && buckets[b] == list && Keeps(b)
      modifies this`Repr, this`table, list, list.elements
      ensures Valid() && table == old(table)[b := old(table[b]) + [e]] && fresh(Repr - old(Repr))
    {
      assert forall c :: 0 <= c < BUCKETS && c != b && buckets[c] != null ==>
          Keeps(c) && buckets[c] != list && buckets[c].elements != list.elements;
      list.Append(e);
      Repr := Repr + {list.elements};
      table := table[b := table[b] + [e]];
      forall c | 0 <= c < BUCKETS ensures Keeps(c) {
        assert c != b ==> old(Keeps(c));
      }
    }

    /** LHashmap_delete: the entry of the key goes, and the last entry of its bucket fills the gap. */
    method Delete(key: K) returns (r: Option<V>)
      requires Valid()
      modifies Repr
      ensures Valid() && fresh(Repr - old(Repr))
      ensures r == Buckets.Get(old(table), hash, key)
      ensures table == Buckets.Delete(old(table), hash, key)
    {
      var b := hash(key) % BUCKETS;
      var list := buckets[b];
      assert Keeps(b);
      if list == null {
        return None;
      }
      var i := GetNode(list, hash(key), key);
      if i == -1 {
        return None;
      }
      r := Some(list.elements[i].value.data);
      Remove(list, b, i);
    }

    method Remove(list: ArrayList<Entry<K, V>>, b: nat, i: nat)
      requires Valid() && b < BUCKETS && buckets[b] == list && Keeps(b) && i < list.length
      modifies this`table, list, list.elements
      ensures Valid() && table == old(table)[b := Swapped(old(table[b]), i)]
    {
      assert forall c :: 0 <= c < BUCKETS && c != b && buckets[c] != null ==>
          Keeps(c) && buckets[c] != list && buckets[c].elements != list.elements;
      var node := list.elements[i];
      var ending := list.Pop();
      if ending != node {
        list.Set(i, ending.value);
      }
      assert list.Contents() == Swapped(old(table[b]), i);
      table := table[b := Swapped(table[b], i)];
      forall c | 0 <= c < BUCKETS ensures Keeps(c) {
        assert c != b ==> old(Keeps(c));
      }
    }
  }
}
