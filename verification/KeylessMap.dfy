/**
 A hash multimap that stores values only: a hash set of small arrays, one for each key that is in
 use. The hash set is kept as the sequence of its arrays in the order of iteration, which new
 arrays may join anywhere.
 */
module KeylessMap {
  import opened Wrappers

  // All the values of the arrays
  ghost function Bag<V>(arrays: seq<seq<V>>): multiset<V> {
    if arrays == [] then multiset{} else multiset(arrays[0]) + Bag(arrays[1..])
  }

  lemma {:induction false} BagConcat<V>(a: seq<seq<V>>, b: seq<seq<V>>)
    ensures Bag(a + b) == Bag(a) + Bag(b)
  {
    if a == [] {
      assert a + b == b;
    } else {
      assert (a + b)[1..] == a[1..] + b;
      BagConcat(a[1..], b);
    }
  }

  // One array in the midst of the others
  lemma BagAt<V>(arrays: seq<seq<V>>, i: nat)
    requires i < |arrays|
    ensures Bag(arrays) == Bag(arrays[..i] + arrays[i + 1..]) + multiset(arrays[i])
  {
    var a, b, rest := arrays[..i], arrays[i + 1..], arrays[i..];
    assert arrays == a + rest && rest[1..] == b && rest[0] == arrays[i];
    BagConcat(a, rest);
    BagConcat(a, b);
  }

  lemma {:induction false} BagHas<V>(arrays: seq<seq<V>>, v: V)
    ensures v in Bag(arrays) <==> exists i :: 0 <= i < |arrays| && v in arrays[i]
  {
    if arrays != [] {
      BagHas(arrays[1..], v);
      if v in Bag(arrays[1..]) {
        var i :| 0 <= i < |arrays[1..]| && v in arrays[1..][i];
        assert v in arrays[i + 1];
      }
      if i :| 0 < i < |arrays| && v in arrays[i] {
        assert arrays[1..][i - 1] == arrays[i];
      }
    }
  }

  /** SmallIntArray::Erase: the element found is replaced by the last one. */
  method EraseValue<V(==)>(a: seq<V>, v: V) returns (erased: bool, a': seq<V>)
    ensures erased <==> v in a
    ensures erased ==> multiset(a') == multiset(a) - multiset{v} && |a'| == |a| - 1
    ensures !erased ==> a' == a
    ensures forall x :: x in a' ==> x in a
  {
    a' := a;
    for i := 0 to |a|
      invariant a' == a && forall j :: 0 <= j < i ==> a[j] != v
    {
      if a[i] == v {
        Swapped(a, i);
        a' := a'[i := a[|a| - 1]][|a| - 1 := a[i]];
        a' := a'[..|a| - 1];
        return true, a';
      }
    }
    erased := false;
  }

  lemma Swapped<V>(a: seq<V>, i: nat)
    requires i < |a|
    ensures var b := a[i := a[|a| - 1]][|a| - 1 := a[i]][..|a| - 1];
      multiset(b) == multiset(a) - multiset{a[i]} && forall x :: x in b ==> x in a
  {
    var n := |a| - 1;
    if i == n {
      LastOut(a);
    } else {
      SwapShape(a, i);
      SwapOut(a[..i], a[i], a[i + 1..n], a[n]);
    }
  }

  lemma LastOut<V>(a: seq<V>)
    requires a != []
    ensures var n := |a| - 1;
              var b := a[n := a[n]][n := a[n]][..n];
                multiset(b) == multiset(a) - multiset{a[n]} && forall x :: x in b ==> x in a
  {
    var n := |a| - 1;
    var b := a[n := a[n]][n := a[n]][..n];
    assert a == b + [a[n]];
  }

  lemma SwapShape<V>(a: seq<V>, i: nat)
    requires i < |a| - 1
    ensures var n := |a| - 1; var x, y := a[..i], a[i + 1..n];
      a == x + [a[i]] + y + [a[n]] && a[i := a[n]][n := a[i]][..n] == x + [a[n]] + y
  {
  }

  lemma SwapOut<V>(x: seq<V>, p: V, y: seq<V>, q: V)
    ensures multiset(x + [q] + y) == multiset(x + [p] + y + [q]) - multiset{p}
    ensures forall v :: v in x + [q] + y ==> v in x + [p] + y + [q]
  {
    var a, b := x + [p] + y + [q], x + [q] + y;
    var m := multiset(x) + multiset(y);
    assert multiset(a) == m + multiset{q} + multiset{p};
    assert multiset(b) == m + multiset{q};
  }

  class Map<Key(==,!new), Value(==,!new)> {
    const extract: Value -> Key
    const maxPerKey: nat
    var arrays: seq<seq<Value>>
    var size: nat

    ghost function Contents(): multiset<Value>
      reads this
    {
      Bag(arrays)
    }

    function KeyOf(i: nat): Key
      requires i < |arrays| && arrays[i] != []
      reads this
    {
      extract(arrays[i][0])
    }

    /** No array is empty, each holds the values of one key, no two of the same one, and the size is
        the total. */
    ghost predicate Valid()
      reads this
    {
      && maxPerKey > 0 && AllOneKey(extract, arrays, maxPerKey) && KeysDiffer(extract, arrays) && size == |Bag(arrays)|
    }

    constructor (extract: Value -> Key, maxPerKey: nat)
      requires maxPerKey > 0
      ensures Valid() && this.extract == extract && this.maxPerKey == maxPerKey && Contents() == multiset{}
    {
      this.extract, this.maxPerKey, arrays, size := extract, maxPerKey, [], 0;
    }

    // The lookup of the hash set: the array with this key
    method Lookup(key: Key) returns (r: Option<nat>)
      requires Valid()
      ensures r.Some? ==> r.value < |arrays| && arrays[r.value] != [] && KeyOf(r.value) == key
      ensures r.None? ==> forall i :: 0 <= i < |arrays| ==> arrays[i] != [] && KeyOf(i) != key
    {
      for i := 0 to |arrays|
        invariant forall j :: 0 <= j < i ==> arrays[j] != [] && KeyOf(j) != key
      {
        assert OneKey(extract, arrays[i], maxPerKey);
        if KeyOf(i) == key {
          return Some(i);
        }
      }
      r := None;
    }

    /** Insert; a new array goes to the place `at` in the order of iteration. */
    method Insert(value: Value, at: nat) returns (inserted: bool)
      requires Valid() && at <= |arrays|
      modifies this
      ensures Valid()
      ensures Contents() == if inserted then old(Contents()) + multiset{value} else old(Contents())
      ensures !inserted ==> arrays == old(arrays)
      ensures !inserted <==>
                exists i :: 0 <= i < |old(arrays)| && |old(arrays)[i]| == maxPerKey
                  && extract(old(arrays)[i][0]) == extract(value)
    {
      var r := Lookup(extract(value));
      if r.Some? {
        KeyOnce(extract, arrays, maxPerKey, r.value);
      }
      hide AllOneKey, KeysDiffer, Bag;
      if r.None? {
        NewArray(extract, arrays, maxPerKey, value, at);
        arrays := arrays[..at] + [[value]] + arrays[at..];
        size := size + 1;
        return true;
      }
      var i := r.value;
      inserted := |arrays[i]| < maxPerKey;
      if inserted {
        PushedBack(extract, arrays, maxPerKey, value, i);
        arrays := arrays[i := arrays[i] + [value]];
        size := size + 1;
      }
    }

    /** Erase by value */
    method Erase(value: Value) returns (erased: bool)
      requires Valid()
      modifies this
      ensures Valid() && (erased <==> value in old(Contents()))
      ensures Contents() == old(Contents()) - multiset{value}
    {
      BagHas(arrays, value);
      if size == 0 {
        return false;
      }
      var r := Lookup(extract(value));
      if r.None? {
        NotThere(extract, arrays, maxPerKey, value);
        return false;
      }
      InItsArray(extract, arrays, maxPerKey, value, r.value);
      hide AllOneKey, KeysDiffer, Bag;
      var a;
      erased, a := EraseValue(arrays[r.value], value);
      if erased {
        ErasedFrom(extract, arrays, maxPerKey, value, r.value, a);
        arrays := Shrunk(arrays, r.value, a);
        size := size - 1;
      }
    }

    /** Erase by iterator: the value it points to */
    method EraseAt(it: Place)
      requires Valid() && it.slot < |arrays| && it.idx < |arrays[it.slot]|
      modifies this
      ensures Valid() && Contents() == old(Contents()) - multiset{old(arrays)[it.slot][it.idx]}
    {
      var value := arrays[it.slot][it.idx];
      hide AllOneKey, KeysDiffer, Bag;
      var erased, a := EraseValue(arrays[it.slot], value);
      ErasedFrom(extract, arrays, maxPerKey, value, it.slot, a);
      arrays := Shrunk(arrays, it.slot, a);
      size := size - 1;
    }

    /** Find: an iterator at the first of the values with this key, all of which are in its array;
        the end if there is none. */
    method Find(key: Key) returns (it: Place)
      requires Valid()
      ensures it == End() <==> forall v :: v in Contents() ==> extract(v) != key
      ensures it != End() ==>
                it.slot < |arrays| && it.idx == 0
                  && forall v :: v in Contents() ==> (v in arrays[it.slot] <==> extract(v) == key)
    {
      if size == 0 {
        assert Bag(arrays) == multiset{};
        return End();
      }
      var r := Lookup(key);
      if r.None? {
        forall v | v in Contents() ensures extract(v) != key {
          BagHas(arrays, v);
          var i :| 0 <= i < |arrays| && v in arrays[i];
          assert OneKey(extract, arrays[i], maxPerKey);
        }
        return End();
      }
      it := Place(r.value, 0);
      FindsAll(extract, arrays, maxPerKey, r.value);
    }

    function Begin(): Place {
      Place(0, 0)
    }

    function End(): Place
      reads this
    {
      Place(|arrays|, 0)
    }

    // operator++
    function Next(it: Place): Place
      requires it.slot < |arrays| && it.idx < |arrays[it.slot]|
      reads this
    {
      if it.idx + 1 == |arrays[it.slot]| then Place(it.slot + 1, 0) else Place(it.slot, it.idx + 1)
    }

    /** From the beginning to the end every value is visited exactly as often as it was inserted. */
    method Iterate() returns (visited: seq<Value>)
      requires Valid()
      ensures multiset(visited) == Contents() && |visited| == size
    {
      hide Left, Bag, AllOneKey, KeysDiffer;
      visited := [];
      var it := Begin();
      LeftEnds(extract, arrays, maxPerKey);
      while it != End()
        invariant it.slot <= |arrays| && (if it.slot < |arrays| then it.idx < |arrays[it.slot]| else it.idx == 0)
        invariant multiset(visited) + Left(arrays, it) == Bag(arrays)
        decreases |arrays| - it.slot, if it.slot < |arrays| then |arrays[it.slot]| - it.idx else 0
      {
        LeftNext(arrays, it);
        var v := arrays[it.slot][it.idx];
        Visit(visited, v, Left(arrays, Next(it)));
        visited := visited + [v];
        it := Next(it);
      }
      assert multiset(visited) + multiset{} == multiset(visited);
    }

    /** Swap */
    method Swap(other: Map<Key, Value>)
      requires Valid() && other.Valid() && other.extract == extract && other.maxPerKey == maxPerKey
      modifies this, other
      ensures Valid() && other.Valid() && Contents() == old(other.Contents()) && other.Contents() == old(Contents())
    {
      var a, n := arrays, size;
      arrays, size := other.arrays, other.size;
      other.arrays, other.size := a, n;
    }
  }

  // A place among the values: an array and an index into it
  datatype Place = Place(slot: nat, idx: nat)

  // The values not visited yet
  ghost function Left<V>(arrays: seq<seq<V>>, it: Place): multiset<V>
    requires it.slot <= |arrays| && (it.slot < |arrays| ==> it.idx <= |arrays[it.slot]|)
  {
    if it.slot == |arrays| then multiset{} else multiset(arrays[it.slot][it.idx..]) + Bag(arrays[it.slot + 1..])
  }

  lemma LeftNext<V>(arrays: seq<seq<V>>, it: Place)
    requires it.slot < |arrays| && it.idx < |arrays[it.slot]|
    ensures var a := arrays[it.slot];
      Left(arrays, it) ==
        multiset{a[it.idx]} + Left(arrays,
                                   if it.idx + 1 == |a| then Place(it.slot + 1, 0) else Place(it.slot, it.idx + 1))
  {
    hide Bag;
    var a, b := arrays[it.slot], Bag(arrays[it.slot + 1..]);
    TakenOff(a, it.idx, b);
    if it.idx + 1 == |a| {
      assert a[it.idx + 1..] == [] && multiset{} + b == b;
      LeftStart(arrays, it.slot + 1);
    }
  }

  lemma TakenOff<V>(a: seq<V>, i: nat, b: multiset<V>)
    requires i < |a|
    ensures multiset(a[i..]) + b == multiset{a[i]} + (multiset(a[i + 1..]) + b)
  {
    assert a[i..] == [a[i]] + a[i + 1..];
  }

  lemma LeftStart<V>(arrays: seq<seq<V>>, slot: nat)
    requires slot <= |arrays|
    ensures Left(arrays, Place(slot, 0)) == Bag(arrays[slot..])
  {
    if slot < |arrays| {
      var rest := arrays[slot..];
      assert rest[1..] == arrays[slot + 1..] && rest[0][0..] == rest[0];
    }
  }

  lemma Visit<V>(visited: seq<V>, v: V, rest: multiset<V>)
    ensures multiset(visited + [v]) + rest == multiset(visited) + (multiset{v} + rest)
  {
    assert multiset(visited + [v]) == multiset(visited) + multiset{v};
  }

  lemma LeftEnds<Key(!new), Value(!new)>(extract: Value -> Key, arrays: seq<seq<Value>>, max: nat)
    requires AllOneKey(extract, arrays, max)
    ensures forall i :: 0 <= i < |arrays| ==> arrays[i] != []
    ensures multiset([]) + Left(arrays, Place(0, 0)) == Bag(arrays)
    ensures Left(arrays, Place(|arrays|, 0)) == multiset{}
  {
    forall i | 0 <= i < |arrays| ensures arrays[i] != [] {
      assert OneKey(extract, arrays[i], max);
    }
    if arrays != [] {
      assert arrays[0][0..] == arrays[0];
    }
  }

  lemma KeyOnce<Key(!new), Value(!new)>(extract: Value -> Key, arrays: seq<seq<Value>>, max: nat, i: nat)
    requires AllOneKey(extract, arrays, max) && KeysDiffer(extract, arrays) && i < |arrays|
    ensures 0 < |arrays[i]| <= max
    ensures forall j :: 0 <= j < |arrays| && extract(arrays[j][0]) == extract(arrays[i][0]) ==> j == i
  {
    assert OneKey(extract, arrays[i], max);
    forall j | 0 <= j < |arrays| && extract(arrays[j][0]) == extract(arrays[i][0]) ensures j == i {
      assert OneKey(extract, arrays[j], max);
    }
  }

  lemma NotThere<Key(!new), Value(!new)>(extract: Value -> Key, arrays: seq<seq<Value>>, max: nat, value: Value)
    requires AllOneKey(extract, arrays, max)
    requires forall i :: 0 <= i < |arrays| ==> arrays[i] != [] && extract(arrays[i][0]) != extract(value)
    ensures value !in Bag(arrays)
  {
    BagHas(arrays, value);
    forall i | 0 <= i < |arrays| ensures value !in arrays[i] {
      assert OneKey(extract, arrays[i], max);
    }
  }

  lemma InItsArray<Key(!new), Value(!new)>(extract: Value -> Key, arrays: seq<seq<Value>>, max: nat, value: Value,
                                           i: nat)
    requires AllOneKey(extract, arrays, max) && KeysDiffer(extract, arrays) && i < |arrays| && arrays[i] != []
             && extract(arrays[i][0]) == extract(value)
    ensures value in Bag(arrays) <==> value in arrays[i]
  {
    BagHas(arrays, value);
    forall j | 0 <= j < |arrays| && value in arrays[j] ensures j == i {
      assert OneKey(extract, arrays[j], max);
      KeyOnce(extract, arrays, max, i);
    }
  }

  lemma FindsAll<Key(!new), Value(!new)>(extract: Value -> Key, arrays: seq<seq<Value>>, max: nat, i: nat)
    requires AllOneKey(extract, arrays, max) && KeysDiffer(extract, arrays) && i < |arrays| && arrays[i] != []
    ensures arrays[i][0] in Bag(arrays)
    ensures forall v :: v in Bag(arrays) ==> (v in arrays[i] <==> extract(v) == extract(arrays[i][0]))
  {
    assert OneKey(extract, arrays[i], max);
    BagHas(arrays, arrays[i][0]);
    assert arrays[i][0] in arrays[i];
    forall v | v in Bag(arrays) ensures v in arrays[i] <==> extract(v) == extract(arrays[i][0]) {
      if extract(v) == extract(arrays[i][0]) {
        InItsArray(extract, arrays, max, v, i);
      }
    }
  }

  // An array with values of one key
  ghost predicate OneKey<Key(!new), Value(!new)>(extract: Value -> Key, a: seq<Value>, max: nat) {
    0 < |a| <= max && forall i :: 0 <= i < |a| ==> extract(a[i]) == extract(a[0])
  }

  ghost predicate AllOneKey<Key(!new), Value(!new)>(extract: Value -> Key, arrays: seq<seq<Value>>, max: nat) {
    forall i :: 0 <= i < |arrays| ==> OneKey(extract, arrays[i], max)
  }

  ghost predicate KeysDiffer<Key(!new), Value(!new)>(extract: Value -> Key, arrays: seq<seq<Value>>) {
    forall i, j ::
      0 <= i < j < |arrays| && arrays[i] != [] && arrays[j] != [] ==> extract(arrays[i][0]) != extract(arrays[j][0])
  }

  lemma NewArray<Key(!new), Value(!new)>(extract: Value -> Key, arrays: seq<seq<Value>>, max: nat, value: Value,
                                         at: nat)
    requires AllOneKey(extract, arrays, max) && KeysDiffer(extract, arrays) && at <= |arrays| && max > 0
    requires forall i :: 0 <= i < |arrays| ==> arrays[i] != [] && extract(arrays[i][0]) != extract(value)
    ensures var arrays' := arrays[..at] + [[value]] + arrays[at..];
      && AllOneKey(extract, arrays', max) && KeysDiffer(extract, arrays')
      && Bag(arrays') == Bag(arrays) + multiset{value} && |Bag(arrays')| == |Bag(arrays)| + 1
  {
    NewArrayKeys(extract, arrays, max, value, at);
    hide Bag, AllOneKey, KeysDiffer;
    NewArrayBag(arrays, value, at);
  }

  lemma NewArrayBag<V>(arrays: seq<seq<V>>, value: V, at: nat)
    requires at <= |arrays|
    ensures Bag(arrays[..at] + [[value]] + arrays[at..]) == Bag(arrays) + multiset{value}
  {
    hide Bag;
    var arrays' := arrays[..at] + [[value]] + arrays[at..];
    assert arrays'[..at] == arrays[..at] && arrays'[at + 1..] == arrays[at..] && arrays'[at] == [value];
    assert arrays[..at] + arrays[at..] == arrays;
    BagAt(arrays', at);
  }

  lemma NewArrayKeys<Key(!new), Value(!new)>(extract: Value -> Key, arrays: seq<seq<Value>>, max: nat, value: Value,
                                             at: nat)
    requires AllOneKey(extract, arrays, max) && KeysDiffer(extract, arrays) && at <= |arrays| && max > 0
    requires forall i :: 0 <= i < |arrays| ==> arrays[i] != [] && extract(arrays[i][0]) != extract(value)
    ensures var arrays' := arrays[..at] + [[value]] + arrays[at..];
              AllOneKey(extract, arrays', max) && KeysDiffer(extract, arrays')
  {
    var arrays' := arrays[..at] + [[value]] + arrays[at..];
    assert forall i :: 0 <= i < |arrays'| ==>
             arrays'[i] == if i < at then arrays[i] else if i == at then [value] else arrays[i - 1];
  }

  // The values of one array change.
  lemma BagUpdate<V>(arrays: seq<seq<V>>, i: nat, a: seq<V>)
    requires i < |arrays|
    ensures var rest := Bag(arrays[..i] + arrays[i + 1..]);
              Bag(arrays[i := a]) == rest + multiset(a) && Bag(arrays) == rest + multiset(arrays[i])
  {
    var arrays' := arrays[i := a];
    hide Bag;
    BagAt(arrays', i);
    BagAt(arrays, i);
    assert arrays'[..i] + arrays'[i + 1..] == arrays[..i] + arrays[i + 1..];
  }

  lemma AddOne<V>(m: multiset<V>, a: multiset<V>, v: V)
    ensures m + (a + multiset{v}) == m + a + multiset{v} && |m + a + multiset{v}| == |m + a| + 1
  {
  }

  lemma TakeOne<V>(m: multiset<V>, a: multiset<V>, v: V)
    requires v in a
    ensures m + (a - multiset{v}) == m + a - multiset{v} && |m + a - multiset{v}| == |m + a| - 1
  {
  }

  lemma PushedBack<Key(!new), Value(!new)>(extract: Value -> Key, arrays: seq<seq<Value>>, max: nat, value: Value,
                                           i: nat)
    requires AllOneKey(extract, arrays, max) && KeysDiffer(extract, arrays) && i < |arrays| && arrays[i] != []
             && |arrays[i]| < max
    requires extract(arrays[i][0]) == extract(value)
    ensures var arrays' := arrays[i := arrays[i] + [value]];
      && AllOneKey(extract, arrays', max) && KeysDiffer(extract, arrays')
      && Bag(arrays') == Bag(arrays) + multiset{value} && |Bag(arrays')| == |Bag(arrays)| + 1
  {
    hide Bag;
    BagUpdate(arrays, i, arrays[i] + [value]);
    AddOne(Bag(arrays[..i] + arrays[i + 1..]), multiset(arrays[i]), value);
  }

  // An array with one value less, which goes if that was the last one
  function Shrunk<V>(arrays: seq<seq<V>>, i: nat, a: seq<V>): seq<seq<V>>
    requires i < |arrays|
  {
    if a == [] then arrays[..i] + arrays[i + 1..] else arrays[i := a]
  }

  lemma ErasedFrom<Key(!new), Value(!new)>(extract: Value -> Key, arrays: seq<seq<Value>>, max: nat, value: Value,
                                           i: nat, a: seq<Value>)
    requires AllOneKey(extract, arrays, max) && KeysDiffer(extract, arrays) && i < |arrays| && value in arrays[i]
    requires multiset(a) == multiset(arrays[i]) - multiset{value} && |a| == |arrays[i]| - 1
             && forall x :: x in a ==> x in arrays[i]
    ensures var arrays' := Shrunk(arrays, i, a);
      && AllOneKey(extract, arrays', max) && KeysDiffer(extract, arrays')
      && Bag(arrays') == Bag(arrays) - multiset{value} && |Bag(arrays')| == |Bag(arrays)| - 1
  {
    ShrunkKeys(extract, arrays, max, i, a);
    hide Bag, AllOneKey, KeysDiffer;
    BagUpdate(arrays, i, a);
    var rest := Bag(arrays[..i] + arrays[i + 1..]);
    TakeOne(rest, multiset(arrays[i]), value);
    if a == [] {
      assert rest + multiset([]) == rest;
    }
  }

  lemma ShrunkKeys<Key(!new), Value(!new)>(extract: Value -> Key, arrays: seq<seq<Value>>, max: nat, i: nat,
                                           a: seq<Value>)
    requires AllOneKey(extract, arrays, max) && KeysDiffer(extract, arrays) && i < |arrays|
    requires |a| <= |arrays[i]| && forall x :: x in a ==> x in arrays[i]
    ensures AllOneKey(extract, Shrunk(arrays, i, a), max) && KeysDiffer(extract, Shrunk(arrays, i, a))
  {
    var arrays' := Shrunk(arrays, i, a);
    assert OneKey(extract, arrays[i], max);
    if a == [] {
      assert forall j :: 0 <= j < |arrays'| ==> arrays'[j] == if j < i then arrays[j] else arrays[j + 1];
    } else {
      forall k | 0 <= k < |a| ensures extract(a[k]) == extract(arrays[i][0]) {
        assert a[k] in arrays[i];
      }
    }
  }
}
