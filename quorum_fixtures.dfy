/**
 * The five sample responses `a`-`e` of the quorum tests and the scenarios
 * the tests run on them.
 *
 * All five are objects with a `test` list of two objects. `a` has a key
 * `testobj` where the others have `w`; `b` differs from `c` in the nested
 * flag `c` and in the nested list `d` (`[true]` against `[false]`); `c` differs from `d` in the nested number `a` (0.01 against
 * 0.0099); `e` is `d` with its `test` list reversed.
 */
module QuorumFixtures {
  import opened Wrappers
  import opened Responses
  import opened Quorum

  /** `{ 'nested objects and arrays': 'xyz' }` */
  function Nested(): Value
  {
    Object(map["nested objects and arrays" := Str("xyz")])
  }

  /** `{ a: a, b: 1, c: c, d: [d] }` */
  function Inner(a: real, c: bool, d: bool): Value
  {
    Object(map["a" := Num(a), "b" := Num(1.0), "c" := Bool(c), "d" := List([Bool(d)])])
  }

  function A(): Value { Object(map["testobj" := Num(1.0), "test" := List([Nested(), Inner(0.01, true, false)])]) }
  function B(): Value { Object(map["w" := Num(1.0), "test" := List([Nested(), Inner(0.01, true, true)])]) }
  function C(): Value { Object(map["w" := Num(1.0), "test" := List([Nested(), Inner(0.01, false, false)])]) }
  function D(): Value { Object(map["w" := Num(1.0), "test" := List([Nested(), Inner(0.0099, false, false)])]) }
  function E(): Value { Object(map["w" := Num(1.0), "test" := List([Inner(0.0099, false, false), Nested()])]) }

  /** The five samples are pairwise different values. */
  lemma SamplesDistinct()
    ensures A() != B() && A() != C() && A() != D() && A() != E()
    ensures B() != C() && B() != D() && B() != E()
    ensures C() != D() && C() != E()
    ensures D() != E()
  {
    assert "testobj" in A().fields && "testobj" !in B().fields && "testobj" !in C().fields;
    assert "testobj" !in D().fields && "testobj" !in E().fields;
    assert B().fields["test"].items[1] != C().fields["test"].items[1] by {
      assert B().fields["test"].items[1].fields["c"] == Bool(true);
      assert C().fields["test"].items[1].fields["c"] == Bool(false);
    }
    assert B().fields["test"].items[1] != D().fields["test"].items[1] by {
      assert D().fields["test"].items[1].fields["c"] == Bool(false);
    }
    assert C().fields["test"].items[1] != D().fields["test"].items[1] by {
      assert C().fields["test"].items[1].fields["a"] == Num(0.01);
      assert D().fields["test"].items[1].fields["a"] == Num(0.0099);
    }
    assert Nested() != Inner(0.0099, false, false) by {
      assert "a" !in Nested().fields;
    }
    assert B().fields["test"].items[0] != E().fields["test"].items[0];
    assert C().fields["test"].items[0] != E().fields["test"].items[0];
    assert D().fields["test"].items[0] != E().fields["test"].items[0];
  }

  /** With list order ignored, `d` and `e` become one class. */
  lemma DEquivalentUnordered()
    ensures Equivalent(D(), E(), true)
  {
    var s, t := [Nested(), Inner(0.0099, false, false)], [Inner(0.0099, false, false), Nested()];
    assert multiset(s) == multiset(t);
    PermutedListsEquivalent(s, t);
    ObjectEquivalence(D().fields, E().fields, true);
  }

  /** Two objects whose values under some key are not equivalent are not equivalent. */
  lemma FieldsSeparate(x: Value, y: Value, k: string, unordered: bool)
    requires x.Object? && y.Object? && k in x.fields && k in y.fields
    requires !Equivalent(x.fields[k], y.fields[k], unordered)
    ensures !Equivalent(x, y, unordered)
  {
    ObjectEquivalence(x.fields, y.fields, unordered);
  }

  /** Two-element lists that share a first element and whose second elements are of
      different classes stay apart with list order ignored. */
  lemma PairsSeparate(p: Value, x: Value, y: Value)
    requires !Equivalent(x, y, true)
    ensures !Equivalent(List([p, x]), List([p, y]), true)
  {
    UnorderedListEquivalence([p, x], [p, y]);
    var kp, kx, ky := Key(p, true), Key(x, true), Key(y, true);
    assert Keys([p, x], true) == [kp, kx];
    assert Keys([p, y], true) == [kp, ky];
    if kx == kp {
      assert multiset([kp, kx])[kx] == 2 && multiset([kp, ky])[kx] == 1;
    } else {
      assert multiset([kp, kx])[kx] == 1 && multiset([kp, ky])[kx] == 0;
    }
  }

  /** With list order ignored, `a`, `b`, `c` and `d` stay four classes: a differing key
      (`testobj` against `w`), a differing nested flag, a differing nested number. */
  lemma SamplesApartUnordered()
    ensures !Equivalent(A(), B(), true) && !Equivalent(A(), C(), true) && !Equivalent(A(), D(), true)
    ensures !Equivalent(B(), C(), true) && !Equivalent(B(), D(), true)
    ensures !Equivalent(C(), D(), true)
  {
    TestobjSeparates();
    TestListsApart();
    FieldsSeparate(B(), C(), "test", true);
    FieldsSeparate(B(), D(), "test", true);
    FieldsSeparate(C(), D(), "test", true);
  }

  /** Only `a` has the key `testobj`. */
  lemma TestobjSeparates()
    ensures !Equivalent(A(), B(), true) && !Equivalent(A(), C(), true) && !Equivalent(A(), D(), true)
  {
    assert "testobj" in A().fields && "testobj" !in B().fields;
    KindPreserved(A(), B(), true);
    KindPreserved(A(), C(), true);
    KindPreserved(A(), D(), true);
  }

  /** The `test` lists of `b`, `c` and `d` stay apart with list order ignored. */
  lemma TestListsApart()
    ensures !Equivalent(B().fields["test"], C().fields["test"], true)
    ensures !Equivalent(B().fields["test"], D().fields["test"], true)
    ensures !Equivalent(C().fields["test"], D().fields["test"], true)
  {
    var n := Nested();
    var ib, ic, id := Inner(0.01, true, true), Inner(0.01, false, false), Inner(0.0099, false, false);
    InnersApart();
    PairsSeparate(n, ib, ic);
    PairsSeparate(n, ib, id);
    PairsSeparate(n, ic, id);
  }

  /** The inner objects of `b`, `c` and `d` differ from each other and from the nested one. */
  lemma InnersApart()
    ensures !Equivalent(Inner(0.01, true, true), Nested(), true)
    ensures !Equivalent(Inner(0.01, false, false), Nested(), true)
    ensures !Equivalent(Inner(0.0099, false, false), Nested(), true)
    ensures !Equivalent(Inner(0.01, true, true), Inner(0.01, false, false), true)
    ensures !Equivalent(Inner(0.01, true, true), Inner(0.0099, false, false), true)
    ensures !Equivalent(Inner(0.01, false, false), Inner(0.0099, false, false), true)
  {
    var n := Nested();
    var ib, ic, id := Inner(0.01, true, true), Inner(0.01, false, false), Inner(0.0099, false, false);
    forall i | i in [ib, ic, id] ensures !Equivalent(i, n, true) {
      assert "a" in i.fields && "a" !in n.fields;
      KindPreserved(i, n, true);
    }
    FieldsSeparate(ib, ic, "c", true);
    FieldsSeparate(ib, id, "c", true);
    FieldsSeparate(ic, id, "a", true);
  }

  /** `getMostCommon([])` is null. */
  lemma EmptyScenario(unordered: bool)
    ensures MostCommon([], unordered) == None
  {
  }

  /** With no duplicates, some input element is returned. */
  lemma NoDuplicatesScenario()
    ensures MostCommon([A(), B(), C(), D(), E()], false).Some?
    ensures MostCommon([A(), B(), C(), D(), E()], false).value in [A(), B(), C(), D(), E()]
  {
  }

  /** `[a, b, c, d, b, e, a]`: `a` and `b` tie with two each, and one of them is returned. */
  lemma TieScenario()
    ensures MostCommon([A(), B(), C(), D(), B(), E(), A()], false) in {Some(A()), Some(B())}
  {
    SamplesDistinct();
    TieOfTwo(A(), B(), C(), D(), E());
  }

  lemma TieOfTwo(a: Value, b: Value, c: Value, d: Value, e: Value)
    requires Distinct5(a, b, c, d, e)
    ensures MostCommon([a, b, c, d, b, e, a], false) in {Some(a), Some(b)}
  {
    var data := [a, b, c, d, b, e, a];
    TieCounts(a, b, c, d, e);
    var r := MostCommon(data, false).value;
    CountOrderedIsMultiplicity(data, a);
    CountOrderedIsMultiplicity(data, r);
  }

  /** In `[a, b, c, d, b, e, a]`, `a` occurs twice and only `a` and `b` occur that often. */
  lemma TieCounts<T>(a: T, b: T, c: T, d: T, e: T)
    requires Distinct5(a, b, c, d, e)
    ensures multiset([a, b, c, d, b, e, a])[a] == 2
    ensures forall v :: multiset([a, b, c, d, b, e, a])[v] >= 2 ==> v == a || v == b
  {
    var data := [a, b, c, d, b, e, a];
    forall v | v != a && v != b ensures multiset(data)[v] < 2 {
      if v == c {
        assert multiset(data)[v] == 1;
      } else if v == d {
        assert multiset(data)[v] == 1;
      } else if v == e {
        assert multiset(data)[v] == 1;
      } else {
        assert v !in data;
      }
    }
  }

  ghost predicate Distinct5<T>(a: T, b: T, c: T, d: T, e: T)
  {
    a != b && a != c && a != d && a != e && b != c && b != d && b != e && c != d && c != e && d != e
  }

  /** `[a, b, c, d, e, b, a, e, d, d, d, a, e, d]`: `d` occurs five times, more than any other, and is returned. */
  lemma UniqueMaximumScenario()
    ensures MostCommon([A(), B(), C(), D(), E(), B(), A(), E(), D(), D(), D(), A(), E(), D()], false) == Some(D())
  {
    SamplesDistinct();
    FiveOfD(A(), B(), C(), D(), E());
  }

  lemma FiveOfD(a: Value, b: Value, c: Value, d: Value, e: Value)
    requires Distinct5(a, b, c, d, e)
    ensures MostCommon([a, b, c, d, e, b, a, e, d, d, d, a, e, d], false) == Some(d)
  {
    var data := [a, b, c, d, e, b, a, e, d, d, d, a, e, d];
    FiveOfDCounts(a, b, c, d, e);
    assert forall v :: v != d ==> multiset(data)[v] < multiset(data)[d];
    MostFrequentWinsOrdered(data, d);
  }

  /** In `[a, b, c, d, e, b, a, e, d, d, d, a, e, d]`, `d` occurs five times and everything else less. */
  lemma FiveOfDCounts<T>(a: T, b: T, c: T, d: T, e: T)
    requires Distinct5(a, b, c, d, e)
    ensures forall v :: v != d ==> multiset([a, b, c, d, e, b, a, e, d, d, d, a, e, d])[v] < 5
    ensures multiset([a, b, c, d, e, b, a, e, d, d, d, a, e, d])[d] == 5
  {
    FiveOfDMultiplicities(a, b, c, d, e);
    FiveOfDOthersAbsent(a, b, c, d, e);
  }

  lemma FiveOfDMultiplicities<T>(a: T, b: T, c: T, d: T, e: T)
    requires Distinct5(a, b, c, d, e)
    ensures multiset([a, b, c, d, e, b, a, e, d, d, d, a, e, d])[a] == 3
    ensures multiset([a, b, c, d, e, b, a, e, d, d, d, a, e, d])[b] == 2
    ensures multiset([a, b, c, d, e, b, a, e, d, d, d, a, e, d])[c] == 1
    ensures multiset([a, b, c, d, e, b, a, e, d, d, d, a, e, d])[d] == 5
    ensures multiset([a, b, c, d, e, b, a, e, d, d, d, a, e, d])[e] == 3
  {
  }

  lemma FiveOfDOthersAbsent<T>(a: T, b: T, c: T, d: T, e: T)
    ensures forall v :: v != a && v != b && v != c && v != d && v != e ==>
              multiset([a, b, c, d, e, b, a, e, d, d, d, a, e, d])[v] == 0
  {
  }

  /** `[a×3, b×3, c×3, d×2, e×2]` with list order ignored: `d` and `e` form one class of
      four, larger than the three others, and one of them is returned. */
  lemma UnorderedScenario()
    ensures MostCommon([A(), A(), A(), B(), B(), B(), C(), C(), C(), D(), D(), E(), E()], true) in {Some(D()), Some(E())}
  {
    DEquivalentUnordered();
    SamplesApartUnordered();
    MergedPairWins(A(), B(), C(), D(), E());
  }

  lemma MergedPairWins(a: Value, b: Value, c: Value, d: Value, e: Value)
    requires Equivalent(d, e, true)
    requires !Equivalent(a, b, true) && !Equivalent(a, c, true) && !Equivalent(a, d, true)
    requires !Equivalent(b, c, true) && !Equivalent(b, d, true) && !Equivalent(c, d, true)
    ensures MostCommon([a, a, a, b, b, b, c, c, c, d, d, e, e], true) in {Some(d), Some(e)}
  {
    var data := [a, a, a, b, b, b, c, c, c, d, d, e, e];
    var ka, kb, kc, kd := Key(a, true), Key(b, true), Key(c, true), Key(d, true);
    ScenarioKeys(a, b, c, d, e);
    FourBeatsThrees(ka, kb, kc, kd);
    LargestClassWins(data, d, [ka, ka, ka, kb, kb, kb, kc, kc, kc, kd, kd, kd, kd]);
    ClassOfD(a, b, c, d, e, MostCommon(data, true).value);
  }

  /** Among the scenario's responses only `d` and `e` are equivalent to `d`. */
  lemma ClassOfD(a: Value, b: Value, c: Value, d: Value, e: Value, r: Value)
    requires r in [a, a, a, b, b, b, c, c, c, d, d, e, e] && Equivalent(r, d, true)
    requires !Equivalent(a, d, true) && !Equivalent(b, d, true) && !Equivalent(c, d, true)
    ensures r == d || r == e
  {
  }

  lemma ScenarioKeys(a: Value, b: Value, c: Value, d: Value, e: Value)
    requires Equivalent(d, e, true)
    ensures Keys([a, a, a, b, b, b, c, c, c, d, d, e, e], true)
         == [Key(a, true), Key(a, true), Key(a, true), Key(b, true), Key(b, true), Key(b, true),
             Key(c, true), Key(c, true), Key(c, true), Key(d, true), Key(d, true), Key(d, true), Key(d, true)]
  {
  }

  /** When the canonical forms show one class larger than every other, a member of it wins. */
  lemma LargestClassWins(data: seq<Value>, d: Value, ks: seq<Canon>)
    requires d in data && Keys(data, true) == ks
    requires forall k :: k != Key(d, true) ==> multiset(ks)[k] < multiset(ks)[Key(d, true)]
    ensures MostCommon(data, true).Some? && Equivalent(MostCommon(data, true).value, d, true)
  {
    CountIsKeyMultiplicity(data, d, true);
    forall v | v in data && !Equivalent(v, d, true) ensures Count(data, v, true) < Count(data, d, true) {
      CountIsKeyMultiplicity(data, v, true);
    }
    UniqueMaximumWins(data, true, d);
  }

  lemma FourBeatsThrees<K>(ka: K, kb: K, kc: K, kd: K)
    requires ka != kb && ka != kc && ka != kd && kb != kc && kb != kd && kc != kd
    ensures forall k :: k != kd ==>
              multiset([ka, ka, ka, kb, kb, kb, kc, kc, kc, kd, kd, kd, kd])[k]
              < multiset([ka, ka, ka, kb, kb, kb, kc, kc, kc, kd, kd, kd, kd])[kd]
  {
  }
}
