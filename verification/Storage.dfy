// The item store of example/storage.cc: a circular doubly linked list that acts as a map.
module Storage {
  import opened Octets

  // The token counter is 64 bits wide.
  const CAS_MODULUS: nat := 0x1_0000_0000_0000_0000

  // struct item; nkey and size are the lengths.
  datatype Item = Item(cas: nat, key: Bytes, data: Bytes, flags: nat, exp: nat)

  // ---------------------------------------------------------------- a list of items as a map

  ghost predicate DistinctKeys(s: seq<Item>) {
    forall i, j :: 0 <= i < j < |s| ==> s[i].key != s[j].key
  }

  ghost function ToMap(s: seq<Item>): map<Bytes, Item> {
    if s == [] then map[] else ToMap(s[1..])[s[0].key := s[0]]
  }

  lemma {:induction false} ToMapHas(s: seq<Item>, i: nat)
    requires DistinctKeys(s) && i < |s|
    ensures s[i].key in ToMap(s) && ToMap(s)[s[i].key] == s[i]
  {
    if i > 0 {
      ToMapHas(s[1..], i - 1);
    }
  }

  lemma {:induction false} ToMapOnly(s: seq<Item>, key: Bytes) returns (i: nat)
    requires key in ToMap(s)
    ensures i < |s| && s[i].key == key
  {
    if s[0].key == key {
      return 0;
    }
    i := ToMapOnly(s[1..], key);
    i := i + 1;
  }

  lemma ToMapMissing(s: seq<Item>, key: Bytes)
    requires forall i :: 0 <= i < |s| ==> s[i].key != key
    ensures key !in ToMap(s)
  {
    if key in ToMap(s) {
      var i := ToMapOnly(s, key);
    }
  }

  lemma ToMapCons(it: Item, s: seq<Item>)
    ensures ToMap([it] + s) == ToMap(s)[it.key := it]
  {
    assert ([it] + s)[1..] == s;
  }

  // Taking item k out and starting the list behind it.
  ghost function Without<T>(s: seq<T>, k: nat): (r: seq<T>)
    requires k < |s|
    ensures |r| == |s| - 1
    ensures forall j :: 0 <= j < |r| ==> r[j] == s[Moved(|s|, k, j)]
  {
    s[k + 1..] + s[..k]
  }

  // Where entry j of the shortened list was before.
  ghost function Moved(n: nat, k: nat, j: nat): (i: nat)
    requires k < n && j < n - 1
    ensures i < n && i != k
  {
    if j < n - 1 - k then k + 1 + j else j - (n - 1 - k)
  }

  lemma WithoutDistinct(s: seq<Item>, k: nat)
    requires DistinctKeys(s) && k < |s|
    ensures DistinctKeys(Without(s, k))
  {
    hide Without;
  }

  lemma WithoutKeeps(s: seq<Item>, k: nat, i: nat)
    requires DistinctKeys(s) && k < |s| && i < |s| && i != k
    ensures s[i].key in ToMap(Without(s, k)) && ToMap(Without(s, k))[s[i].key] == s[i]
  {
    hide ToMap;
    WithoutDistinct(s, k);
    ToMapHas(Without(s, k), if i > k then i - k - 1 else |s| - 1 - k + i);
  }

  lemma ToMapWithout(s: seq<Item>, k: nat)
    requires DistinctKeys(s) && k < |s|
    ensures ToMap(Without(s, k)) == ToMap(s) - {s[k].key}
  {
    hide ToMap, Without;
    var r := Without(s, k);
    forall key | key in ToMap(r)
      ensures key in ToMap(s) && key != s[k].key
    {
      var j := ToMapOnly(r, key);
      ToMapHas(s, Moved(|s|, k, j));
    }
    forall key | key in ToMap(s) && key != s[k].key
      ensures key in ToMap(r) && ToMap(s)[key] == ToMap(r)[key]
    {
      var i := ToMapOnly(s, key);
      ToMapHas(s, i);
      WithoutKeeps(s, k, i);
    }
  }

  // ---------------------------------------------------------------- struct list_entry

  class Entry {
    var item: Item
    var next: Entry?
    var prev: Entry?

    // create_item, when calloc and malloc deliver.
    constructor (key: Bytes, data: Bytes, flags: nat, exp: nat)
      ensures item == Item(0, key, data, flags, exp) && next == null && prev == null
    {
      item := Item(0, key, data, flags, exp);
      next, prev := null, null;
    }
  }

  // ---------------------------------------------------------------- the static root and cas

  // No entry is listed or freed twice, and none is both.
  ghost predicate Apart(nodes: seq<Entry>, freed: seq<Entry>) {
    && Distinct(nodes) && Distinct(freed)
    && (forall i, j :: 0 <= i < |nodes| && 0 <= j < |freed| ==> nodes[i] != freed[j])
  }

  // next leads from each entry to the one behind it and from the last to the first; prev leads back.
  ghost predicate Cycle(s: seq<Entry>)
    reads s`next, s`prev
  {
    s != [] ==>
      && s[|s| - 1].next == s[0] && s[0].prev == s[|s| - 1]
      && (forall i {:trigger s[i].next} :: 0 <= i < |s| - 1 ==> s[i].next == s[i + 1])
      && (forall i {:trigger s[i].prev} :: 0 < i < |s| ==> s[i].prev == s[i - 1])
  }

  ghost predicate Distinct(s: seq<Entry>) {
    forall i, j :: 0 <= i < j < |s| ==> s[i] != s[j]
  }

  // A cycle can be entered anywhere.
  lemma CycleRotates(s: seq<Entry>, k: nat)
    requires Cycle(s) && k < |s|
    ensures Cycle(s[k..] + s[..k])
  {
    var r, n := s[k..] + s[..k], |s|;
    assert r[n - 1] == if k == 0 then s[n - 1] else s[k - 1];
    forall i | 0 <= i < n - 1
      ensures r[i].next == r[i + 1] && r[i + 1].prev == r[i]
    {
      if i < n - k - 1 {
        assert r[i] == s[k + i] && r[i + 1] == s[k + i + 1];
      } else if i == n - k - 1 {
        assert r[i] == s[n - 1] && r[i + 1] == s[0];
      } else {
        assert r[i] == s[i - (n - k)] && r[i + 1] == s[i - (n - k) + 1];
      }
    }
  }

  class Store {
    var root: Entry?
    var cas: nat
    // The entries from root along next, and the entries freed so far.
    ghost var nodes: seq<Entry>
    ghost var freed: seq<Entry>

    // next and prev are inverse to each other on one cycle through root; no entry is on it twice, and
    // none that was freed.
    ghost predicate Linked()
      reads this`root, this`nodes, this`freed, nodes`next, nodes`prev
    {
      && (root == if nodes == [] then null else nodes[0])
      && Cycle(nodes) && Apart(nodes, freed)
    }

    ghost function Items(): (s: seq<Item>)
      reads this, nodes
      ensures |s| == |nodes| && forall i :: 0 <= i < |s| ==> s[i] == nodes[i].item
    {
      seq(|nodes|, i requires 0 <= i < |nodes| reads this, nodes => nodes[i].item)
    }

    ghost predicate Valid()
      reads this, nodes
    {
      Linked() && DistinctKeys(Items()) && cas < 0x1_0000_0000_0000_0000
    }

    ghost function Contents(): map<Bytes, Item>
      requires Valid()
      reads this, nodes
    {
      ToMap(Items())
    }

    constructor ()
      ensures Valid() && Contents() == map[] && cas == 0 && nodes == [] && freed == []
    {
      root, cas, nodes, freed := null, 0, [], [];
    }

    // get_item.
    method GetItem(key: Bytes) returns (entry: Entry?)
      requires Valid()
      ensures entry == null <==> key !in Contents()
      ensures entry != null ==> entry in nodes && entry.item == Contents()[key]
    {
      if root == null {
        return null;
      }
      var walker := root;
      ghost var i := 0;
      while true
        invariant 0 <= i < |nodes| && walker == nodes[i]
        invariant forall j :: 0 <= j < i ==> nodes[j].item.key != key
        decreases |nodes| - i
      {
        if walker.item.key == key {
          ToMapHas(Items(), i);
          return walker;
        }
        walker := walker.next;
        i := i + 1;
        assert i < |nodes| ==> walker != nodes[0];
        if walker == root {
          break;
        }
      }
      ToMapMissing(Items(), key);
      return null;
    }

    // put_item, with update_cas.  The list still stands for a map exactly when the key was not there.
    method PutItem(entry: Entry)
      requires Valid() && entry !in nodes && entry !in freed
      modifies this, nodes, entry
      ensures Linked() && nodes == [entry] + old(nodes) && freed == old(freed)
      ensures cas == (old(cas) + 1) % 0x1_0000_0000_0000_0000 && entry.item == old(entry.item).(cas := cas)
      ensures Valid() <==> entry.item.key !in old(Contents())
      ensures Valid() ==> Contents() == old(Contents())[entry.item.key := entry.item]
    {
      hide ToMap, DistinctKeys, Linked;
      ghost var items := Items();
      cas := (cas + 1) % CAS_MODULUS;
      entry.item := entry.item.(cas := cas);
      assert Items() == items;
      LinkIn(entry);
      assert Items() == [entry.item] + items;
      OnlyIfAbsent(items, entry.item);
      ToMapCons(entry.item, items);
    }

    // The new entry goes in front of root, between it and its predecessor.
    method LinkIn(entry: Entry)
      requires Linked() && entry !in nodes && entry !in freed
      modifies this`root, this`nodes, nodes`next, nodes`prev, entry`next, entry`prev
      ensures Linked() && nodes == [entry] + old(nodes)
    {
      hide Apart;
      ApartCons(entry, nodes, freed);
      if root == null {
        entry.next, entry.prev := entry, entry;
      } else {
        InsertBefore(root, entry, nodes);
      }
      root := entry;
      nodes := [entry] + nodes;
    }

    // delete_item.
    method DeleteItem(key: Bytes) returns (found: bool)
      requires Valid()
      modifies this, nodes
      ensures Valid() && cas == old(cas)
      ensures found <==> key in old(Contents())
      ensures Contents() == old(Contents()) - {key}
      ensures !found ==> nodes == old(nodes) && freed == old(freed)
      ensures found ==> exists k :: 0 <= k < |old(nodes)| && nodes == Without(old(nodes), k)
                                    && freed == old(freed) + [old(nodes)[k]]
    {
      hide ToMap, DistinctKeys, Without;
      var entry := GetItem(key);
      found := entry != null;
      if found {
        ghost var k :| 0 <= k < |nodes| && nodes[k] == entry;
        ghost var items := Items();
        assert items[k].key == key by { ToMapHas(items, k); KeyOfItem(items, key); }
        Unlink(entry, k);
        assert Items() == Without(items, k);
        WithoutDistinct(items, k);
        ToMapWithout(items, k);
      }
    }

    // Take an entry out; the search start moves to the one behind it.
    method Unlink(entry: Entry, ghost k: nat)
      requires Linked() && k < |nodes| && entry == nodes[k]
      modifies this`root, this`nodes, this`freed, nodes`next, nodes`prev
      ensures Linked() && nodes == Without(old(nodes), k) && freed == old(freed) + [entry]
    {
      hide Apart, Cycle, Distinct;
      ghost var cycle := nodes[k..] + nodes[..k];
      CycleRotates(nodes, k);
      WithoutEntries(nodes, k, freed);
      assert cycle[1..] == Without(nodes, k);
      root := TakeOut(entry, cycle);
      nodes := cycle[1..];
      freed := freed + [entry];
    }

    // flush: the cycle is cut before root and walked to its end, freeing each entry once.
    method Flush()
      requires Valid()
      modifies this, nodes
      ensures Valid() && nodes == [] && Contents() == map[] && cas == old(cas)
      ensures freed == old(freed) + old(nodes)
    {
      if root == null {
        return;
      }
      ghost var was, first := nodes, freed;
      ghost var n := |was|;
      assert root.prev == was[n - 1];
      root.prev.next := null;
      assert forall j {:trigger was[j].next} :: 0 <= j < n ==> was[j].next == if j + 1 == n then null else was[j + 1];
      ghost var i := 0;
      while root != null
        invariant 0 <= i <= n && root == if i == n then null else was[i]
        invariant forall j {:trigger was[j].next} :: 0 <= j < n ==>
                    was[j].next == if j + 1 == n then null else was[j + 1]
        invariant freed == first + was[..i] && cas == old(cas)
        decreases n - i
      {
        ghost var tmp := root;
        root := root.next;
        freed := freed + [tmp];
        i := i + 1;
      }
      nodes := [];
      FlushedApart(was, first);
    }
  }

  // The pointer assignments of put_item.
  method InsertBefore(at: Entry, entry: Entry, ghost s: seq<Entry>)
    requires s != [] && Cycle(s) && Distinct(s) && at == s[0] && entry !in s
    modifies s`next, s`prev, entry`next, entry`prev
    ensures Cycle([entry] + s)
  {
    assert forall i :: 0 <= i < |s| ==> s[i] != entry;
    entry.prev := at.prev;
    entry.next := at;
    entry.prev.next := entry;
    entry.next.prev := entry;
    ghost var r := [entry] + s;
    forall i | 0 <= i < |s|
      ensures r[i].next == r[i + 1] && r[i + 1].prev == r[i]
    {
      assert r[i + 1] == s[i] && (i > 0 ==> r[i] == s[i - 1]);
    }
  }

  // The pointer assignments of delete_item; next is the new root.
  method TakeOut(entry: Entry, ghost s: seq<Entry>) returns (next: Entry?)
    requires s != [] && Cycle(s) && Distinct(s) && entry == s[0]
    modifies s`next, s`prev
    ensures Cycle(s[1..]) && next == if |s| == 1 then null else s[1]
  {
    if entry.next == entry {
      return null;
    }
    next := entry.next;
    entry.prev.next := entry.next;
    entry.next.prev := entry.prev;
    ghost var r, n := s[1..], |s|;
    assert r[0] == s[1] && r[n - 2] == s[n - 1];
    forall i | 0 <= i < n - 2
      ensures r[i].next == r[i + 1] && r[i + 1].prev == r[i]
    {
      assert r[i] == s[i + 1] && r[i + 1] == s[i + 2];
    }
  }

  lemma ApartCons(e: Entry, s: seq<Entry>, f: seq<Entry>)
    requires Apart(s, f) && e !in s && e !in f
    ensures Apart([e] + s, f) && Distinct(s)
  {
  }

  lemma FlushedApart(s: seq<Entry>, f: seq<Entry>)
    requires Apart(s, f)
    ensures Apart([], f + s)
  {
  }

  lemma KeyOfItem(s: seq<Item>, key: Bytes)
    requires DistinctKeys(s) && key in ToMap(s)
    ensures ToMap(s)[key].key == key
  {
    var i := ToMapOnly(s, key);
    ToMapHas(s, i);
  }

  lemma WithoutEntries(s: seq<Entry>, k: nat, f: seq<Entry>)
    requires k < |s| && Apart(s, f)
    ensures Apart(Without(s, k), f + [s[k]]) && Distinct(s[k..] + s[..k])
  {
    hide Without;
  }

  lemma OnlyIfAbsent(s: seq<Item>, it: Item)
    requires DistinctKeys(s)
    ensures DistinctKeys([it] + s) <==> it.key !in ToMap(s)
  {
    if it.key in ToMap(s) {
      var i := ToMapOnly(s, it.key);
      assert ([it] + s)[0].key == ([it] + s)[i + 1].key;
    } else {
      forall i | 0 <= i < |s|
        ensures s[i].key != it.key
      {
        ToMapHas(s, i);
      }
    }
  }
}
