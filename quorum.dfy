/**
 * The quorum's "most common response" selector: `getMostCommon(data, unorderedArrays)`.
 *
 * The responses are partitioned into classes of equivalent values, classes
 * being opened in the order of their first occurrence; the winner is the
 * first response of the first class with the largest count. An empty list
 * has no winner (JavaScript's `null`).
 */
module Quorum {
  import opened Wrappers
  import opened Responses

  /** One equivalence class: its canonical form, the position of its first member, its size. */
  datatype Class<K> = Class(key: K, first: nat, size: nat)

  /** How many entries of `keys` equal `key`. */
  function CountKey<K(==)>(keys: seq<K>, key: K): nat
  {
    if keys == [] then 0
    else CountKey(keys[..|keys| - 1], key) + (if keys[|keys| - 1] == key then 1 else 0)
  }

  /** How many responses of `data` are equivalent to `v`. */
  function Count(data: seq<Value>, v: Value, unordered: bool): nat
  {
    CountKey(Keys(data, unordered), Key(v, unordered))
  }

  /** The sum of the class sizes. */
  function Total<K(==)>(cs: seq<Class<K>>): nat
  {
    if cs == [] then 0 else cs[0].size + Total(cs[1..])
  }

  /** The canonical forms of the classes, in order. */
  function ClassKeys<K(==)>(cs: seq<Class<K>>): (ks: seq<K>)
    ensures |ks| == |cs|
    ensures forall j :: 0 <= j < |cs| ==> ks[j] == cs[j].key
  {
    seq(|cs|, j requires 0 <= j < |cs| => cs[j].key)
  }

  /** The position of the class with canonical form `key`, or |cs| when there is none. */
  function Find<K(==)>(cs: seq<Class<K>>, key: K): (j: nat)
    ensures j <= |cs|
    ensures j < |cs| ==> cs[j].key == key
    ensures forall i :: 0 <= i < j ==> cs[i].key != key
  {
    if cs == [] then 0
    else if cs[0].key == key then 0
    else 1 + Find(cs[1..], key)
  }

  /** Adds the entry at position `at`, with canonical form `key`, to its class, or opens a new class. */
  function Insert<K(==)>(cs: seq<Class<K>>, key: K, at: nat): seq<Class<K>>
  {
    var j := Find(cs, key);
    if j < |cs| then cs[j := cs[j].(size := cs[j].size + 1)]
    else cs + [Class(key, at, 1)]
  }

  /** The classes of the canonical forms `keys`, in the order of their first occurrence. */
  function Group<K(==)>(keys: seq<K>): seq<Class<K>>
  {
    if keys == [] then []
    else Insert(Group(keys[..|keys| - 1]), keys[|keys| - 1], |keys| - 1)
  }

  /** Each class names a member as its first, and counts exactly the entries equal to its key. */
  ghost predicate ClassesCounted<K>(keys: seq<K>, cs: seq<Class<K>>)
  {
    forall j :: 0 <= j < |cs| ==>
      && cs[j].first < |keys|
      && cs[j].key == keys[cs[j].first]
      && cs[j].size == CountKey(keys, cs[j].key)
      && cs[j].size >= 1
  }

  /** Classes have distinct keys and are ordered by their first members. */
  ghost predicate ClassesOrdered<K>(cs: seq<Class<K>>)
  {
    forall j, k :: 0 <= j < k < |cs| ==> cs[j].first < cs[k].first && cs[j].key != cs[k].key
  }

  /** No entry before a class's first member belongs to it. */
  ghost predicate FirstsAreFirst<K>(keys: seq<K>, cs: seq<Class<K>>)
  {
    forall j, i :: 0 <= j < |cs| && 0 <= i < cs[j].first && i < |keys| ==> keys[i] != cs[j].key
  }

  /** Every entry has a class. */
  ghost predicate Covered<K>(keys: seq<K>, cs: seq<Class<K>>)
  {
    forall i :: 0 <= i < |keys| ==> keys[i] in ClassKeys(cs)
  }

  /**
   * `cs` partitions `keys`: each class names its first member, counts exactly
   * the entries equal to it, classes are distinct and ordered by first
   * occurrence, every entry has a class, and the sizes add up to |keys|.
   */
  ghost predicate Partition<K>(keys: seq<K>, cs: seq<Class<K>>)
  {
    && ClassesCounted(keys, cs)
    && ClassesOrdered(cs)
    && FirstsAreFirst(keys, cs)
    && Covered(keys, cs)
    && Total(cs) == |keys|
  }

  lemma {:induction false} CountKeyAbsent<K>(keys: seq<K>, key: K)
    requires forall i :: 0 <= i < |keys| ==> keys[i] != key
    ensures CountKey(keys, key) == 0
  {
    if keys != [] {
      CountKeyAbsent(keys[..|keys| - 1], key);
    }
  }

  lemma {:induction false} TotalAppend<K>(cs: seq<Class<K>>, c: Class<K>)
    ensures Total(cs + [c]) == Total(cs) + c.size
  {
    if cs != [] {
      assert (cs + [c])[1..] == cs[1..] + [c];
      TotalAppend(cs[1..], c);
    }
  }

  lemma {:induction false} TotalUpdate<K>(cs: seq<Class<K>>, j: nat, c: Class<K>)
    requires j < |cs|
    ensures Total(cs[j := c]) == Total(cs) - cs[j].size + c.size
  {
    if j > 0 {
      assert cs[j := c][1..] == cs[1..][j - 1 := c];
      TotalUpdate(cs[1..], j - 1, c);
    }
  }

  /** Grouping partitions the canonical forms into classes of equal entries. */
  lemma {:induction false} GroupPartition<K>(keys: seq<K>)
    ensures Partition(keys, Group(keys))
  {
    if keys != [] {
      var n := |keys| - 1;
      GroupPartition(keys[..n]);
      assert keys == keys[..n] + [keys[n]];
      InsertPreservesPartition(keys[..n], keys[n], Group(keys[..n]));
    }
  }

  lemma CountKeySnoc<K>(keys: seq<K>, x: K, key: K)
    ensures CountKey(keys + [x], key) == CountKey(keys, key) + (if x == key then 1 else 0)
  {
    assert (keys + [x])[..|keys|] == keys;
  }

  /** Adding one more entry keeps the classes a partition. */
  lemma InsertPreservesPartition<K>(keys: seq<K>, x: K, cs: seq<Class<K>>)
    requires Partition(keys, cs)
    ensures Partition(keys + [x], Insert(cs, x, |keys|))
  {
    var j := Find(cs, x);
    if j < |cs| {
      assert Insert(cs, x, |keys|) == cs[j := cs[j].(size := cs[j].size + 1)];
      InsertIntoClass(keys, x, cs, j);
    } else {
      assert Insert(cs, x, |keys|) == cs + [Class(x, |keys|, 1)];
      InsertNewClass(keys, x, cs);
    }
  }

  lemma InsertIntoClass<K>(keys: seq<K>, x: K, cs: seq<Class<K>>, j: nat)
    requires Partition(keys, cs)
    requires j < |cs| && cs[j].key == x
    ensures Partition(keys + [x], cs[j := cs[j].(size := cs[j].size + 1)])
  {
    OldClassCounted(keys, x, cs, j);
    OldClassOrdered(cs, j);
    OldClassFirst(keys, x, cs, j);
    OldClassCovered(keys, x, cs, j);
    TotalUpdate(cs, j, cs[j].(size := cs[j].size + 1));
  }

  lemma OldClassCounted<K>(keys: seq<K>, x: K, cs: seq<Class<K>>, j: nat)
    requires ClassesCounted(keys, cs) && ClassesOrdered(cs)
    requires j < |cs| && cs[j].key == x
    ensures ClassesCounted(keys + [x], cs[j := cs[j].(size := cs[j].size + 1)])
  {
    var keys', cs' := keys + [x], cs[j := cs[j].(size := cs[j].size + 1)];
    forall l | 0 <= l < |cs'|
      ensures cs'[l].first < |keys'| && cs'[l].key == keys'[cs'[l].first]
      ensures cs'[l].size == CountKey(keys', cs'[l].key) && cs'[l].size >= 1
    {
      CountKeySnoc(keys, x, cs[l].key);
      assert keys'[cs[l].first] == keys[cs[l].first];
      if l != j {
        assert cs'[l] == cs[l];
        assert cs[l].key != x;
      }
    }
  }

  lemma OldClassOrdered<K>(cs: seq<Class<K>>, j: nat)
    requires ClassesOrdered(cs) && j < |cs|
    ensures ClassesOrdered(cs[j := cs[j].(size := cs[j].size + 1)])
  {
    var cs' := cs[j := cs[j].(size := cs[j].size + 1)];
    assert forall l :: 0 <= l < |cs| ==> cs'[l].first == cs[l].first && cs'[l].key == cs[l].key;
  }

  lemma OldClassFirst<K>(keys: seq<K>, x: K, cs: seq<Class<K>>, j: nat)
    requires ClassesCounted(keys, cs) && FirstsAreFirst(keys, cs) && j < |cs|
    ensures FirstsAreFirst(keys + [x], cs[j := cs[j].(size := cs[j].size + 1)])
  {
    var keys', cs' := keys + [x], cs[j := cs[j].(size := cs[j].size + 1)];
    forall l, i | 0 <= l < |cs'| && 0 <= i < cs'[l].first && i < |keys'| ensures keys'[i] != cs'[l].key {
      assert cs'[l].first == cs[l].first && cs'[l].key == cs[l].key;
      assert keys'[i] == keys[i];
    }
  }

  lemma OldClassCovered<K>(keys: seq<K>, x: K, cs: seq<Class<K>>, j: nat)
    requires Covered(keys, cs) && j < |cs| && cs[j].key == x
    ensures Covered(keys + [x], cs[j := cs[j].(size := cs[j].size + 1)])
  {
    var keys', cs' := keys + [x], cs[j := cs[j].(size := cs[j].size + 1)];
    assert ClassKeys(cs') == ClassKeys(cs);
    forall i | 0 <= i < |keys'| ensures keys'[i] in ClassKeys(cs') {
      if i < |keys| {
        assert keys'[i] == keys[i];
      } else {
        assert ClassKeys(cs)[j] == x;
      }
    }
  }

  lemma InsertNewClass<K>(keys: seq<K>, x: K, cs: seq<Class<K>>)
    requires Partition(keys, cs)
    requires forall j :: 0 <= j < |cs| ==> cs[j].key != x
    ensures Partition(keys + [x], cs + [Class(x, |keys|, 1)])
  {
    assert x !in ClassKeys(cs);
    CountKeyAbsent(keys, x);
    NewClassCounted(keys, x, cs);
    NewClassOrdered(keys, x, cs);
    NewClassFirst(keys, x, cs);
    NewClassCovered(keys, x, cs);
    TotalAppend(cs, Class(x, |keys|, 1));
  }

  lemma NewClassCounted<K>(keys: seq<K>, x: K, cs: seq<Class<K>>)
    requires ClassesCounted(keys, cs)
    requires forall j :: 0 <= j < |cs| ==> cs[j].key != x
    requires CountKey(keys, x) == 0
    ensures ClassesCounted(keys + [x], cs + [Class(x, |keys|, 1)])
  {
    var keys', cs' := keys + [x], cs + [Class(x, |keys|, 1)];
    forall j | 0 <= j < |cs'|
      ensures cs'[j].first < |keys'| && cs'[j].key == keys'[cs'[j].first]
      ensures cs'[j].size == CountKey(keys', cs'[j].key) && cs'[j].size >= 1
    {
      CountKeySnoc(keys, x, cs'[j].key);
      if j < |cs| {
        assert cs'[j] == cs[j];
        assert keys'[cs[j].first] == keys[cs[j].first];
      }
    }
  }

  lemma NewClassOrdered<K>(keys: seq<K>, x: K, cs: seq<Class<K>>)
    requires ClassesCounted(keys, cs) && ClassesOrdered(cs)
    requires forall j :: 0 <= j < |cs| ==> cs[j].key != x
    ensures ClassesOrdered(cs + [Class(x, |keys|, 1)])
  {
  }

  lemma NewClassFirst<K>(keys: seq<K>, x: K, cs: seq<Class<K>>)
    requires ClassesCounted(keys, cs) && FirstsAreFirst(keys, cs) && Covered(keys, cs)
    requires x !in ClassKeys(cs)
    ensures FirstsAreFirst(keys + [x], cs + [Class(x, |keys|, 1)])
  {
    var keys', cs' := keys + [x], cs + [Class(x, |keys|, 1)];
    forall j, i | 0 <= j < |cs'| && 0 <= i < cs'[j].first ensures keys'[i] != cs'[j].key {
      assert keys'[i] == keys[i];
      if j == |cs| {
        assert keys[i] in ClassKeys(cs);
      }
    }
  }

  lemma NewClassCovered<K>(keys: seq<K>, x: K, cs: seq<Class<K>>)
    requires Covered(keys, cs)
    ensures Covered(keys + [x], cs + [Class(x, |keys|, 1)])
  {
    var keys', cs' := keys + [x], cs + [Class(x, |keys|, 1)];
    assert ClassKeys(cs') == ClassKeys(cs) + [x];
    forall i | 0 <= i < |keys'| ensures keys'[i] in ClassKeys(cs') {
      if i < |keys| {
        assert keys'[i] == keys[i];
      }
    }
  }

  /** An entry lies in exactly one class: the one `Find` names. */
  lemma ExactlyOneClass<K>(keys: seq<K>, i: nat)
    requires i < |keys|
    ensures Find(Group(keys), keys[i]) < |Group(keys)|
    ensures forall j :: 0 <= j < |Group(keys)| ==>
              (Group(keys)[j].key == keys[i] <==> j == Find(Group(keys), keys[i]))
  {
    GroupPartition(keys);
    assert keys[i] in ClassKeys(Group(keys));
  }

  /** The class sizes add up to the number of entries. */
  lemma ClassSizesSum<K>(keys: seq<K>)
    ensures Total(Group(keys)) == |keys|
  {
    GroupPartition(keys);
  }

  /** The position of the first class of largest size; ties go to the earliest class. */
  function Best<K(==)>(cs: seq<Class<K>>): (j: nat)
    requires cs != []
    ensures j < |cs|
    ensures forall k :: 0 <= k < |cs| ==> cs[k].size <= cs[j].size
    ensures forall k :: 0 <= k < j ==> cs[k].size < cs[j].size
  {
    if |cs| == 1 then 0
    else
      var j := Best(cs[..|cs| - 1]);
      if cs[|cs| - 1].size > cs[j].size then |cs| - 1 else j
  }

  /** The position of the winning response: the first member of the first largest class. */
  function Winner<K(==)>(keys: seq<K>): (w: nat)
    requires keys != []
    ensures w < |keys|
    ensures forall i :: 0 <= i < |keys| ==> CountKey(keys, keys[i]) <= CountKey(keys, keys[w])
    ensures forall i :: 0 <= i < w ==> CountKey(keys, keys[i]) < CountKey(keys, keys[w])
  {
    var cs := Group(keys);
    GroupPartition(keys);
    assert keys[0] in ClassKeys(cs);
    var b := Best(cs);
    WinnerIsFirstLargest(keys, cs, b);
    cs[b].first
  }

  lemma WinnerIsFirstLargest<K>(keys: seq<K>, cs: seq<Class<K>>, b: nat)
    requires Partition(keys, cs)
    requires b < |cs|
    requires forall k :: 0 <= k < |cs| ==> cs[k].size <= cs[b].size
    requires forall k :: 0 <= k < b ==> cs[k].size < cs[b].size
    ensures forall i :: 0 <= i < |keys| ==> CountKey(keys, keys[i]) <= CountKey(keys, keys[cs[b].first])
    ensures forall i :: 0 <= i < cs[b].first ==> CountKey(keys, keys[i]) < CountKey(keys, keys[cs[b].first])
  {
    forall i | 0 <= i < |keys|
      ensures CountKey(keys, keys[i]) <= CountKey(keys, keys[cs[b].first])
      ensures i < cs[b].first ==> CountKey(keys, keys[i]) < CountKey(keys, keys[cs[b].first])
    {
      var j :| 0 <= j < |cs| && ClassKeys(cs)[j] == keys[i];
      assert cs[j].size == CountKey(keys, keys[i]);
      if i < cs[b].first {
        assert j != b;
        assert cs[j].first <= i;
        assert j < b;
      }
    }
  }

  /**
   * `getMostCommon(data, unorderedArrays)`: `None` (null) for an empty list,
   * otherwise a response of `data` whose class is as large as any.
   */
  function MostCommon(data: seq<Value>, unorderedArrays: bool): (r: Option<Value>)
    ensures r.None? <==> data == []
    ensures r.Some? ==> r.value in data
    ensures r.Some? ==> forall v :: v in data ==> Count(data, v, unorderedArrays) <= Count(data, r.value, unorderedArrays)
  {
    if data == [] then None
    else
      var keys := Keys(data, unorderedArrays);
      var w := Winner(keys);
      assert forall v :: v in data ==> exists i :: 0 <= i < |data| && data[i] == v;
      Some(data[w])
  }

  /** The winner is the earliest response whose class is as large as any: every earlier
      response belongs to a strictly smaller class. */
  lemma FirstOccurrenceTieBreak(data: seq<Value>, unordered: bool)
    requires data != []
    ensures exists w :: 0 <= w < |data| && MostCommon(data, unordered) == Some(data[w])
              && forall i :: 0 <= i < w ==> Count(data, data[i], unordered) < Count(data, data[w], unordered)
  {
    var w := Winner(Keys(data, unordered));
    assert MostCommon(data, unordered) == Some(data[w]);
  }

  /** When one class is strictly larger than every other, a member of it wins. */
  lemma UniqueMaximumWins(data: seq<Value>, unordered: bool, x: Value)
    requires x in data
    requires forall v :: v in data && !Equivalent(v, x, unordered) ==> Count(data, v, unordered) < Count(data, x, unordered)
    ensures MostCommon(data, unordered).Some?
    ensures Equivalent(MostCommon(data, unordered).value, x, unordered)
  {
  }

  /** With list order significant, a strictly most common response is returned itself. */
  lemma UniqueMaximumWinsOrdered(data: seq<Value>, x: Value)
    requires x in data
    requires forall v :: v in data && v != x ==> Count(data, v, false) < Count(data, x, false)
    ensures MostCommon(data, false) == Some(x)
  {
    var r := MostCommon(data, false).value;
    OrderedEquivalenceIsEquality(r, x);
  }

  /** With list order significant, a response that occurs strictly more often than any
      other value is the one returned. */
  lemma MostFrequentWinsOrdered(data: seq<Value>, x: Value)
    requires forall v :: v != x ==> multiset(data)[v] < multiset(data)[x]
    ensures MostCommon(data, false) == Some(x)
  {
    var other := if x == Null then Bool(false) else Null;
    assert multiset(data)[other] < multiset(data)[x];
    forall v | v in data && v != x ensures Count(data, v, false) < Count(data, x, false) {
      CountOrderedIsMultiplicity(data, v);
      CountOrderedIsMultiplicity(data, x);
    }
    UniqueMaximumWinsOrdered(data, x);
  }

  /** When several classes tie for the largest size, the winner belongs to one of them:
      no class is larger than the winner's own. */
  lemma TieGoesToTiedClass(data: seq<Value>, unordered: bool, x: Value, y: Value)
    requires x in data && y in data
    requires forall v :: v in data ==> Count(data, v, unordered) <= Count(data, x, unordered)
    requires Count(data, y, unordered) == Count(data, x, unordered)
    ensures MostCommon(data, unordered).Some?
    ensures Count(data, MostCommon(data, unordered).value, unordered) == Count(data, x, unordered)
  {
  }

  /** Responses are counted into classes of equivalent values: the class counts of the
      distinct classes of `data` add up to |data|, and every response is in one of them. */
  lemma ResponsesPartitioned(data: seq<Value>, unordered: bool)
    ensures Total(Group(Keys(data, unordered))) == |data|
    ensures forall i :: 0 <= i < |data| ==>
              Key(data[i], unordered) in ClassKeys(Group(Keys(data, unordered)))
    ensures forall j, k :: 0 <= j < k < |Group(Keys(data, unordered))| ==>
              Group(Keys(data, unordered))[j].key != Group(Keys(data, unordered))[k].key
  {
    GroupPartition(Keys(data, unordered));
  }

  /** A class's size is the multiplicity of its canonical form among the entries. */
  lemma {:induction false} CountKeyIsMultiplicity<K>(keys: seq<K>, key: K)
    ensures CountKey(keys, key) == multiset(keys)[key]
  {
    if keys != [] {
      var n := |keys| - 1;
      CountKeyIsMultiplicity(keys[..n], key);
      assert keys == keys[..n] + [keys[n]];
    }
  }

  /** The count of `v` is the multiplicity of its canonical form among the responses' canonical forms. */
  lemma CountIsKeyMultiplicity(data: seq<Value>, v: Value, unordered: bool)
    ensures Count(data, v, unordered) == multiset(Keys(data, unordered))[Key(v, unordered)]
  {
    CountKeyIsMultiplicity(Keys(data, unordered), Key(v, unordered));
  }

  /** With list order significant, the count of `v` is simply how often `v` itself occurs. */
  lemma {:induction false} CountOrderedIsMultiplicity(data: seq<Value>, v: Value)
    ensures Count(data, v, false) == multiset(data)[v]
  {
    if data != [] {
      var n := |data| - 1;
      CountOrderedIsMultiplicity(data[..n], v);
      var ks := Keys(data, false);
      assert ks[..n] == Keys(data[..n], false);
      assert CountKey(ks, Key(v, false)) == CountKey(ks[..n], Key(v, false)) + (if ks[n] == Key(v, false) then 1 else 0);
      OrderedEquivalenceIsEquality(data[n], v);
      assert data == data[..n] + [data[n]];
    }
  }
}
