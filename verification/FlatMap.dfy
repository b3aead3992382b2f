/** simple_flat_map: linear probing in a fixed array, without deletion or growth. */
module FlatMap {
  import opened Arith

  type Key = k: nat | k < 0x1_0000_0000_0000_0000

  /** Default-constructed entries hold the largest key and are not occupied. */
  datatype Entry<V> = Entry(key: Key, occupied: bool, value: V)

  const NO_KEY: Key := 0xffff_ffff_ffff_ffff

  /** mync's insert takes an int, which the comparison and the hash widen to 64 bits. */
  function Widen(key: int): (k: Key)
    requires -0x8000_0000 <= key < 0x8000_0000
    ensures key >= 0 ==> k == key
    ensures key < 0 ==> k - key == 0x1_0000_0000_0000_0000
  {
    if key >= 0 then key else key + 0x1_0000_0000_0000_0000
  }

  lemma WidenInjective(a: int, b: int)
    requires -0x8000_0000 <= a < 0x8000_0000 && -0x8000_0000 <= b < 0x8000_0000
    ensures Widen(a) == Widen(b) <==> a == b
  {
  }

  function Hash(key: Key, n: nat): (h: nat)
    requires n > 0
    ensures h < n
  {
    key % n
  }

  /** The slot d probes behind h, wrapping around. */
  function At(h: nat, d: nat, n: nat): (i: nat)
    requires h < n && d <= n
    ensures i < n
  {
    if h + d < n then h + d else h + d - n
  }

  /** How many probes lead from h to i. */
  function Dist(h: nat, i: nat, n: nat): (d: nat)
    requires h < n && i < n
    ensures d < n && At(h, d, n) == i
  {
    if i >= h then i - h else i + n - h
  }

  lemma NextSlot(h: nat, d: nat, n: nat)
    requires h < n && d < n
    ensures (At(h, d, n) + 1) % n == At(h, d + 1, n)
    ensures At(h, d + 1, n) == h <==> d + 1 == n
  {
    var i := At(h, d, n);
    if i + 1 < n {
      SmallMod(i + 1, n);
    } else {
      assert n % n == 0;
    }
  }

  lemma SmallMod(a: nat, n: nat)
    requires a < n
    ensures a % n == a
  {
  }

  predicate Distinct<V>(es: seq<Entry<V>>) {
    forall i, j :: 0 <= i < |es| && 0 <= j < |es| && es[i].occupied && es[j].occupied && es[i].key == es[j].key
      ==> i == j
  }

  /** Every slot probed before the one that holds an entry is occupied. */
  predicate NoGaps<V>(es: seq<Entry<V>>)
    requires |es| > 0
  {
    forall i, d :: 0 <= i < |es| && es[i].occupied && 0 <= d < Dist(Hash(es[i].key, |es|), i, |es|)
      ==> es[At(Hash(es[i].key, |es|), d, |es|)].occupied
  }

  predicate Ok<V>(es: seq<Entry<V>>) {
    |es| > 0 && Distinct(es) && NoGaps(es)
  }

  /** The finite map the table stands for. */
  function Contents<V>(es: seq<Entry<V>>): map<Key, V>
    requires Distinct(es)
  {
    map i | 0 <= i < |es| && es[i].occupied :: es[i].key := es[i].value
  }

  predicate Full<V>(es: seq<Entry<V>>) {
    forall i :: 0 <= i < |es| ==> es[i].occupied
  }

  /** The first d probes for key k met occupied slots with other keys. */
  predicate Passed<V>(es: seq<Entry<V>>, k: Key, d: nat)
    requires |es| > 0 && d <= |es|
  {
    var h := Hash(k, |es|);
    forall e :: 0 <= e < d ==> es[At(h, e, |es|)].occupied && es[At(h, e, |es|)].key != k
  }

  /** A probe that ends at an empty slot, or has gone all the way round, proves the key absent. */
  lemma Absent<V>(es: seq<Entry<V>>, k: Key, d: nat)
    requires Ok(es) && d <= |es| && Passed(es, k, d)
    requires d < |es| ==> !es[At(Hash(k, |es|), d, |es|)].occupied
    ensures k !in Contents(es)
    ensures d == |es| ==> Full(es)
  {
    var n := |es|;
    var h := Hash(k, n);
    forall i | 0 <= i < n
      ensures !(es[i].occupied && es[i].key == k)
      ensures d == n ==> es[i].occupied
    {
      var e := Dist(h, i, n);
      assert At(h, e, n) == i;
    }
  }

  /** The slot where the probe for k stopped is the only one that holds k or may take it. */
  lemma OnlySlot<V>(es: seq<Entry<V>>, k: Key, d: nat)
    requires Ok(es) && d < |es| && Passed(es, k, d)
    requires var e := es[At(Hash(k, |es|), d, |es|)]; e.occupied ==> e.key == k
    ensures forall j :: 0 <= j < |es| && es[j].occupied && j != At(Hash(k, |es|), d, |es|) ==> es[j].key != k
  {
    if !es[At(Hash(k, |es|), d, |es|)].occupied {
      Absent(es, k, d);
      forall j | 0 <= j < |es| && es[j].occupied ensures es[j].key != k {
        assert es[j].key in Contents(es);
      }
    }
  }

  lemma WriteKeepsOk<V>(es: seq<Entry<V>>, k: Key, v: V, d: nat)
    requires Ok(es) && d < |es| && Passed(es, k, d)
    requires var e := es[At(Hash(k, |es|), d, |es|)]; e.occupied ==> e.key == k
    ensures Ok(es[At(Hash(k, |es|), d, |es|) := Entry(k, true, v)])
  {
    var i := At(Hash(k, |es|), d, |es|);
    OnlySlot(es, k, d);
    assert Dist(Hash(k, |es|), i, |es|) == d;
  }

  lemma WriteUpdates<V>(es: seq<Entry<V>>, i: nat, k: Key, v: V)
    requires i < |es| && Distinct(es) && Distinct(es[i := Entry(k, true, v)])
    requires es[i].occupied ==> es[i].key == k
    requires forall j :: 0 <= j < |es| && es[j].occupied && j != i ==> es[j].key != k
    ensures Contents(es[i := Entry(k, true, v)]) == Contents(es)[k := v]
  {
    var after := es[i := Entry(k, true, v)];
    var m, m' := Contents(es), Contents(after);
    assert after[i].key in m';
    forall x: Key ensures x in m' <==> x in m[k := v] {
      if x in m && x != k {
        var j :| 0 <= j < |es| && es[j].occupied && es[j].key == x;
        assert after[j].occupied && after[j].key == x;
      }
    }
    forall x | x in m' ensures m'[x] == m[k := v][x] {
      var j :| 0 <= j < |es| && after[j].occupied && after[j].key == x && m'[x] == after[j].value;
      if x != k {
        assert es[j].occupied && es[j].key == x;
      }
    }
  }

  /** Writing the entry where the probe stopped keeps the invariant and updates the map at that key only. */
  lemma WriteOk<V>(es: seq<Entry<V>>, k: Key, v: V, d: nat)
    requires Ok(es) && d < |es| && Passed(es, k, d)
    requires var e := es[At(Hash(k, |es|), d, |es|)]; e.occupied ==> e.key == k
    ensures var after := es[At(Hash(k, |es|), d, |es|) := Entry(k, true, v)];
      Ok(after) && Contents(after) == Contents(es)[k := v]
  {
    WriteKeepsOk(es, k, v, d);
    OnlySlot(es, k, d);
    WriteUpdates(es, At(Hash(k, |es|), d, |es|), k, v);
  }

  // ---------------------------------------------------------------- where entries go

  /** The slot d behind the key's own, which is the key modulo the capacity. */
  function Slot(key: nat, d: nat, n: nat): nat
    requires n > 0
  {
    (key + d) % n
  }

  lemma SlotIsAt(key: nat, d: nat, n: nat)
    requires n > 0 && d < n
    ensures Slot(key, d, n) == At(key % n, d, n)
  {
    var q, r := key / n, key % n;
    assert key == q * n + r;
    if r + d < n {
      DivIs(key + d, n, q, r + d);
    } else {
      assert (q + 1) * n == q * n + n;
      DivIs(key + d, n, q + 1, r + d - n);
    }
  }

  /** The new key went into the first free slot from its own on. */
  ghost predicate Landed<V>(before: seq<Entry<V>>, after: seq<Entry<V>>, key: Key, val: V, d: nat) {
    var n := |before|;
    && d < n && Slot(key, d, n) < n && !before[Slot(key, d, n)].occupied
    && (forall e :: 0 <= e < d ==> Slot(key, e, n) < n && before[Slot(key, e, n)].occupied)
    && after == before[Slot(key, d, n) := Entry(key, true, val)]
  }

  /** The slot that held the key got the value. */
  ghost predicate Replaced<V>(before: seq<Entry<V>>, after: seq<Entry<V>>, key: Key, val: V, i: nat) {
    && i < |before| && before[i].occupied && before[i].key == key
    && after == before[i := Entry(key, true, val)]
  }

  ghost predicate Inserted<V>(before: seq<Entry<V>>, after: seq<Entry<V>>, key: Key, val: V)
    requires Distinct(before)
  {
    if key in Contents(before) then exists i :: Replaced(before, after, key, val, i)
    else if Full(before) then after == before
    else exists d :: Landed(before, after, key, val, d)
  }

  lemma WriteLands<V>(es: seq<Entry<V>>, k: Key, v: V, d: nat)
    requires |es| > 0 && d < |es| && Passed(es, k, d) && !es[At(Hash(k, |es|), d, |es|)].occupied
    ensures Landed(es, es[At(Hash(k, |es|), d, |es|) := Entry(k, true, v)], k, v, d)
  {
    SlotIsAt(k, d, |es|);
    forall e | 0 <= e < d ensures Slot(k, e, |es|) == At(Hash(k, |es|), e, |es|) {
      SlotIsAt(k, e, |es|);
    }
  }

  lemma WriteInserts<V>(es: seq<Entry<V>>, k: Key, v: V, d: nat)
    requires Ok(es) && d < |es| && Passed(es, k, d)
    requires var e := es[At(Hash(k, |es|), d, |es|)]; e.occupied ==> e.key == k
    ensures Inserted(es, es[At(Hash(k, |es|), d, |es|) := Entry(k, true, v)], k, v)
  {
    var i := At(Hash(k, |es|), d, |es|);
    if es[i].occupied {
      assert es[i].key in Contents(es);
      assert Replaced(es, es[i := Entry(k, true, v)], k, v, i);
    } else {
      Absent(es, k, d);
      WriteLands(es, k, v, d);
    }
  }

  // ---------------------------------------------------------------- counting

  function KeysBelow<V>(es: seq<Entry<V>>, n: nat): set<Key>
    requires n <= |es|
  {
    set i | 0 <= i < n && es[i].occupied :: es[i].key
  }

  lemma {:induction false} KeysBelowCount<V>(es: seq<Entry<V>>, n: nat)
    requires n <= |es| && Distinct(es)
    ensures |KeysBelow(es, n)| <= n
    ensures |KeysBelow(es, n)| == n <==> forall i :: 0 <= i < n ==> es[i].occupied
  {
    if n > 0 {
      KeysBelowCount(es, n - 1);
      var before := KeysBelow(es, n - 1);
      if es[n - 1].occupied {
        assert es[n - 1].key !in before;
        assert KeysBelow(es, n) == before + {es[n - 1].key};
      } else {
        assert KeysBelow(es, n) == before;
      }
    }
  }

  /** A table is full exactly when it holds as many keys as it has slots. */
  lemma FullWhenCountIsCapacity<V>(es: seq<Entry<V>>)
    requires Distinct(es)
    ensures |Contents(es)| <= |es|
    ensures Full(es) <==> |Contents(es)| == |es|
  {
    KeysBelowCount(es, |es|);
    assert Contents(es).Keys == KeysBelow(es, |es|);
    assert |Contents(es)| == |Contents(es).Keys|;
  }

  // ---------------------------------------------------------------- the object

  class Table<V> {
    const entries: array<Entry<V>>

    ghost predicate Valid()
      reads this, entries
    {
      Ok(entries[..])
    }

    ghost function View(): map<Key, V>
      reads this, entries
      requires Valid()
    {
      Contents(entries[..])
    }

    constructor (capacity: nat, blank: V)
      requires capacity > 0
      ensures Valid() && View() == map[] && fresh(entries) && entries.Length == capacity
    {
      entries := new Entry<V>[capacity](_ => Entry(NO_KEY, false, blank));
    }

    /** Updates or adds the key; a new key for a full table is dropped. */
    method Insert(key: Key, val: V)
      requires Valid()
      modifies entries
      ensures Valid()
      ensures View() == if key in old(View()) || !Full(old(entries[..])) then old(View())[key := val] else old(View())
      ensures Inserted(old(entries[..]), entries[..], key, val)
    {
      ghost var es := entries[..];
      var n := entries.Length;
      var index := Hash(key, n);
      var start := index;
      ghost var d := 0;
      while entries[index].occupied && entries[index].key != key
        invariant 0 <= d < n && index == At(start, d, n)
        invariant entries[..] == es && Passed(es, key, d)
        decreases n - d
      {
        NextSlot(start, d, n);
        index := (index + 1) % n;
        d := d + 1;
        if index == start {
          Absent(es, key, d);
          return;
        }
      }
      WriteOk(es, key, val, d);
      WriteInserts(es, key, val, d);
      assert es[index].occupied ==> es[index].key in Contents(es);
      entries[index] := Entry(key, true, val);
      assert entries[..] == es[index := Entry(key, true, val)];
    }

    /** The slot of the value, standing for the pointer returned, or -1 for a null pointer. */
    method Find(key: Key) returns (slot: int)
      requires Valid()
      ensures slot == -1 <==> key !in View()
      ensures slot != -1 ==> 0 <= slot < entries.Length && entries[slot].occupied && entries[slot].key == key
                             && View()[key] == entries[slot].value
    {
      var n := entries.Length;
      var index := Hash(key, n);
      var start := index;
      ghost var d := 0;
      while true
        invariant 0 <= d < n && index == At(start, d, n)
        invariant Passed(entries[..], key, d)
        decreases n - d
      {
        if !entries[index].occupied {
          Absent(entries[..], key, d);
          return -1;
        }
        if entries[index].key == key && entries[index].occupied {
          assert entries[..][index].key in View();
          return index;
        }
        NextSlot(start, d, n);
        index := (index + 1) % n;
        d := d + 1;
        if index == start {
          break;
        }
      }
      Absent(entries[..], key, n);
      slot := -1;
    }

    /** Assigning through the pointer that Find returned. */
    method Assign(slot: nat, val: V)
      requires Valid() && slot < entries.Length && entries[slot].occupied
      modifies entries
      ensures Valid() && View() == old(View())[old(entries[slot].key) := val]
    {
      ghost var before := entries[..];
      var key := entries[slot].key;
      ghost var d := Dist(Hash(key, entries.Length), slot, entries.Length);
      assert before[slot].key == key && At(Hash(key, entries.Length), d, entries.Length) == slot;
      forall e | 0 <= e < d
        ensures before[At(Hash(key, entries.Length), e, entries.Length)].occupied
                && before[At(Hash(key, entries.Length), e, entries.Length)].key != key
      {
        assert At(Hash(key, entries.Length), e, entries.Length) != slot;
      }
      WriteOk(before, key, val, d);
      entries[slot] := entries[slot].(value := val);
      assert entries[..] == before[slot := Entry(key, true, val)];
    }
  }

  // ---------------------------------------------------------------- twice the number of keys

  /** The map in which the last value listed for a key wins. */
  function FromList<V>(items: seq<(Key, V)>): map<Key, V> {
    if items == [] then map[]
    else
      var last := items[|items| - 1];
      FromList(items[..|items| - 1])[last.0 := last.1]
  }

  lemma {:induction false} FromListSize<V>(items: seq<(Key, V)>)
    ensures |FromList(items)| <= |items|
  {
    if items != [] {
      FromListSize(items[..|items| - 1]);
    }
  }

  /** Position i holds the last item listed for the key. */
  predicate LastOf<V>(items: seq<(Key, V)>, i: int, k: Key) {
    0 <= i < |items| && items[i].0 == k && forall j :: i < j < |items| ==> items[j].0 != k
  }

  /** The list's map has the keys listed, each with the value listed last. */
  lemma {:induction false} FromListLookup<V>(items: seq<(Key, V)>, k: Key)
    ensures k in FromList(items) <==> exists i :: LastOf(items, i, k)
    ensures forall i :: LastOf(items, i, k) ==> FromList(items)[k] == items[i].1
  {
    if items != [] {
      var n := |items| - 1;
      FromListLookup(items[..n], k);
      if items[n].0 == k {
        assert LastOf(items, n, k);
      } else {
        assert forall i :: LastOf(items, i, k) <==> LastOf(items[..n], i, k);
      }
    }
  }

  /** Filling a table of twice as many slots as there are keys drops nothing. */
  method Fill<V>(items: seq<(Key, V)>, blank: V) returns (t: Table<V>)
    requires items != []
    ensures fresh(t) && t.entries.Length == |items| * 2
    ensures t.Valid() && t.View() == FromList(items)
  {
    t := new Table<V>(|items| * 2, blank);
    for i := 0 to |items|
      invariant t.Valid() && fresh(t) && fresh(t.entries) && t.entries.Length == |items| * 2
      invariant t.View() == FromList(items[..i])
    {
      FromListSize(items[..i]);
      FullWhenCountIsCapacity(t.entries[..]);
      assert items[..i + 1][..i] == items[..i];
      t.Insert(items[i].0, items[i].1);
    }
    assert items[..|items|] == items;
  }
}
