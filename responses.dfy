/**
 * Node responses as structured values, and the canonical form under which
 * two responses count as "the same answer".
 *
 * A response is what a node's JSON reply parses to: null, a boolean, a
 * number, a string, an ordered list or a string-keyed object. Numbers are
 * exact values (`real`) compared only for equality.
 *
 * Two responses are equivalent when their canonical forms are equal. The
 * canonical form keeps scalars as they are, compares objects by their key
 * sets and values (key order never matters), and keeps lists in position,
 * or, when list order is to be ignored, turns each list into the multiset
 * of its canonical elements.
 */
module Responses {

  datatype Value =
    | Null
    | Bool(b: bool)
    | Num(n: real)
    | Str(s: string)
    | List(items: seq<Value>)
    | Object(fields: map<string, Value>)

  /** Canonical forms. `CBag` only arises when list order is ignored. */
  datatype Canon =
    | CNull
    | CBool(b: bool)
    | CNum(n: real)
    | CStr(s: string)
    | CList(elems: seq<Canon>)
    | CBag(bag: multiset<Canon>)
    | CObject(entries: map<string, Canon>)

  /** The canonical form of `v`; `unordered` says whether list order is ignored. */
  function Key(v: Value, unordered: bool): Canon
  {
    match v
    case Null => CNull
    case Bool(b) => CBool(b)
    case Num(n) => CNum(n)
    case Str(s) => CStr(s)
    case List(items) =>
      var ks := seq(|items|, i requires 0 <= i < |items| => Key(items[i], unordered));
      if unordered then CBag(multiset(ks)) else CList(ks)
    case Object(m) => CObject(map k | k in m :: Key(m[k], unordered))
  }

  /** The canonical forms of a list's elements, in position. */
  function Keys(items: seq<Value>, unordered: bool): (ks: seq<Canon>)
    ensures |ks| == |items|
    ensures forall i :: 0 <= i < |items| ==> ks[i] == Key(items[i], unordered)
  {
    seq(|items|, i requires 0 <= i < |items| => Key(items[i], unordered))
  }

  /** Structural equality of two responses, the relation the quorum votes by. */
  predicate Equivalent(x: Value, y: Value, unordered: bool)
  {
    Key(x, unordered) == Key(y, unordered)
  }

  /** Reads a canonical form back as a response; a bag has no order to read back. */
  function Decode(c: Canon): Value
  {
    match c
    case CNull => Null
    case CBool(b) => Bool(b)
    case CNum(n) => Num(n)
    case CStr(s) => Str(s)
    case CList(es) => List(seq(|es|, i requires 0 <= i < |es| => Decode(es[i])))
    case CBag(_) => Null
    case CObject(m) => Object(map k | k in m :: Decode(m[k]))
  }

  /** With list order significant, nothing is lost: decoding the canonical form gives the response back. */
  lemma {:induction false} OrderedRoundTrip(v: Value)
    ensures Decode(Key(v, false)) == v
  {
    match v
    case Null =>
    case Bool(_) =>
    case Num(_) =>
    case Str(_) =>
    case List(items) =>
      var ks := Keys(items, false);
      assert Key(v, false) == CList(ks);
      var back := seq(|ks|, i requires 0 <= i < |ks| => Decode(ks[i]));
      forall i | 0 <= i < |items| ensures back[i] == items[i] {
        OrderedRoundTrip(items[i]);
      }
      assert back == items;
    case Object(m) =>
      var km := map k | k in m :: Key(m[k], false);
      assert Key(v, false) == CObject(km);
      var back := map k | k in km :: Decode(km[k]);
      forall k | k in m ensures back[k] == m[k] {
        OrderedRoundTrip(m[k]);
      }
      assert back == m;
  }

  /** With list order significant, equivalence is plain structural equality of responses. */
  lemma OrderedEquivalenceIsEquality(x: Value, y: Value)
    ensures Equivalent(x, y, false) <==> x == y
  {
    OrderedRoundTrip(x);
    OrderedRoundTrip(y);
  }

  /** Ignoring list order only ever merges classes: equal responses stay equivalent, and
      responses equivalent with order significant stay equivalent without it. */
  lemma UnorderedIsCoarser(x: Value, y: Value)
    ensures Equivalent(x, y, false) ==> Equivalent(x, y, true)
  {
    OrderedEquivalenceIsEquality(x, y);
  }

  /** Scalars are told apart by kind and exact value, in both modes. */
  lemma ScalarsDistinguished(x: Value, y: Value, unordered: bool)
    requires !x.List? && !x.Object?
    ensures Equivalent(x, y, unordered) <==> x == y
  {
  }

  /** Objects are equivalent exactly when they have the same keys and equivalent values under each key. */
  lemma ObjectEquivalence(m: map<string, Value>, m': map<string, Value>, unordered: bool)
    ensures Equivalent(Object(m), Object(m'), unordered)
        <==> m.Keys == m'.Keys && forall k :: k in m ==> Equivalent(m[k], m'[k], unordered)
  {
    if m.Keys == m'.Keys && forall k :: k in m ==> Equivalent(m[k], m'[k], unordered) {
      EquivalentFieldsMakeEquivalentObjects(m, m', unordered);
    }
    if Equivalent(Object(m), Object(m'), unordered) {
      EquivalentObjectsHaveEquivalentFields(m, m', unordered);
    }
  }

  lemma EquivalentFieldsMakeEquivalentObjects(m: map<string, Value>, m': map<string, Value>, unordered: bool)
    requires m.Keys == m'.Keys && forall k :: k in m ==> Equivalent(m[k], m'[k], unordered)
    ensures Equivalent(Object(m), Object(m'), unordered)
  {
    var km := map k | k in m :: Key(m[k], unordered);
    var km' := map k | k in m' :: Key(m'[k], unordered);
    assert km == km';
  }

  lemma EquivalentObjectsHaveEquivalentFields(m: map<string, Value>, m': map<string, Value>, unordered: bool)
    requires Equivalent(Object(m), Object(m'), unordered)
    ensures m.Keys == m'.Keys && forall k :: k in m ==> Equivalent(m[k], m'[k], unordered)
  {
    var km := map k | k in m :: Key(m[k], unordered);
    var km' := map k | k in m' :: Key(m'[k], unordered);
    assert km == km';
    assert m.Keys == km.Keys;
    forall k | k in m ensures Equivalent(m[k], m'[k], unordered) {
      assert km[k] == km'[k];
    }
  }

  /** With list order significant, lists are equivalent exactly when they are equivalent position by position. */
  lemma OrderedListEquivalence(s: seq<Value>, t: seq<Value>)
    ensures Equivalent(List(s), List(t), false)
        <==> |s| == |t| && forall i :: 0 <= i < |s| ==> Equivalent(s[i], t[i], false)
  {
    assert Key(List(s), false) == CList(Keys(s, false));
    assert Key(List(t), false) == CList(Keys(t, false));
    if |s| == |t| && forall i :: 0 <= i < |s| ==> Equivalent(s[i], t[i], false) {
      assert Keys(s, false) == Keys(t, false);
    }
  }

  /** With list order ignored, lists are equivalent exactly when every class of elements
      occurs equally often in both. */
  lemma UnorderedListEquivalence(s: seq<Value>, t: seq<Value>)
    ensures Equivalent(List(s), List(t), true)
        <==> multiset(Keys(s, true)) == multiset(Keys(t, true))
  {
    assert Key(List(s), true) == CBag(multiset(Keys(s, true)));
    assert Key(List(t), true) == CBag(multiset(Keys(t, true)));
  }

  /** With list order ignored, a list and any rearrangement of it are equivalent. */
  lemma PermutedListsEquivalent(s: seq<Value>, t: seq<Value>)
    requires multiset(s) == multiset(t)
    ensures Equivalent(List(s), List(t), true)
  {
    KeysMultiset(s, t);
    UnorderedListEquivalence(s, t);
  }

  lemma {:induction false} KeysMultiset(s: seq<Value>, t: seq<Value>)
    requires multiset(s) == multiset(t)
    ensures multiset(Keys(s, true)) == multiset(Keys(t, true))
    decreases |s|
  {
    if s == [] {
      assert t == [] by { assert |multiset(t)| == 0; }
    } else {
      var x, s1 := s[0], s[1..];
      assert x in multiset(t);
      var j :| 0 <= j < |t| && t[j] == x;
      var l, r := t[..j], t[j + 1..];
      assert s == [x] + s1;
      assert t == l + [x] + r;
      RemoveFromBoth(x, s1, l, r);
      KeysMultiset(s1, l + r);
      KeysSplit(x, s1, l, r);
    }
  }

  /** Taking one `x` out of two equal multisets leaves equal multisets. */
  lemma RemoveFromBoth<T>(x: T, s1: seq<T>, l: seq<T>, r: seq<T>)
    requires multiset([x] + s1) == multiset(l + [x] + r)
    ensures multiset(s1) == multiset(l + r)
  {
    assert multiset([x] + s1) == multiset{x} + multiset(s1);
    assert multiset(l + [x] + r) == multiset{x} + multiset(l + r);
    forall y ensures multiset(s1)[y] == multiset(l + r)[y] {
      assert (multiset{x} + multiset(s1))[y] == (multiset{x} + multiset(l + r))[y];
    }
  }

  lemma KeysSplit(x: Value, s1: seq<Value>, l: seq<Value>, r: seq<Value>)
    ensures multiset(Keys([x] + s1, true)) == multiset{Key(x, true)} + multiset(Keys(s1, true))
    ensures multiset(Keys(l + [x] + r, true)) == multiset{Key(x, true)} + multiset(Keys(l + r, true))
  {
    var kx := Keys([x], true);
    assert kx == [Key(x, true)];
    KeysConcat([x], s1);
    KeysConcat(l, [x]);
    KeysConcat(l + [x], r);
    KeysConcat(l, r);
    var kl, kr := Keys(l, true), Keys(r, true);
    assert multiset(kl + kx + kr) == multiset(kl) + multiset(kx) + multiset(kr);
    assert multiset(kl + kr) == multiset(kl) + multiset(kr);
  }

  lemma KeysConcat(a: seq<Value>, b: seq<Value>)
    ensures Keys(a + b, true) == Keys(a, true) + Keys(b, true)
  {
  }

  /** Lists are only ever equivalent to lists, objects only to objects with the same keys. */
  lemma KindPreserved(x: Value, y: Value, unordered: bool)
    ensures Equivalent(x, y, unordered) ==> (x.List? <==> y.List?) && (x.Object? <==> y.Object?)
    ensures Equivalent(x, y, unordered) && x.Object? ==> x.fields.Keys == y.fields.Keys
  {
    if x.Object? && y.Object? {
      ObjectEquivalence(x.fields, y.fields, unordered);
    }
  }
}
