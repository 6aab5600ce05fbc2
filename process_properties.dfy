/**
 * Properties of the comparator of src/process.rs, stated about `Compare` (which `MatchJson`
 * is proved to compute) and about the triple it returns.
 */
module ComparatorProperties {
  import opened JsonValues
  import opened KeyNodes
  import opened Mismatches
  import opened Process
  import opened MapFacts

  /** The combined result is empty exactly when neither side has keys of its own and every shared key compares empty. */
  lemma CombineEmpty(keysA: set<string>, keysB: set<string>, sub: map<string, Mismatch>)
    ensures IsNoMismatch(Combine(keysA, keysB, sub)) <==>
      keysA - keysB == {} && keysB - keysA == {} && forall k :: k in sub ==> IsNoMismatch(sub[k])
  {
    var l := NilEntries(keysA - keysB) + Differing(sub, LeftOnly);
    var r := NilEntries(keysB - keysA) + Differing(sub, RightOnly);
    var u := Differing(sub, Both);
    assert l.Keys == (keysA - keysB) + Differing(sub, LeftOnly).Keys;
    assert r.Keys == (keysB - keysA) + Differing(sub, RightOnly).Keys;
    EmptyMap(l);
    EmptyMap(r);
    EmptyMap(u);
    assert (forall k :: k in sub ==> IsNoMismatch(sub[k])) <==>
      Differing(sub, LeftOnly).Keys == {} && Differing(sub, RightOnly).Keys == {} && u.Keys == {};
  }

  /**
   * The comparison reports no difference at all exactly when the two values are equal:
   * every difference is reported somewhere, and equal values report none.
   */
  lemma {:induction false} NoMismatchIffEqual(a: Json, b: Json)
    ensures IsNoMismatch(Compare(a, b)) <==> a == b
    decreases a
  {
    if a.Object? && b.Object? {
      var x, y := a.fields, b.fields;
      var sub := SharedResults(x, y);
      forall k | k in sub
        ensures IsNoMismatch(sub[k]) <==> x[k] == y[k]
      {
        NoMismatchIffEqual(x[k], y[k]);
      }
      CombineEmpty(x.Keys, y.Keys, sub);
      if IsNoMismatch(Compare(a, b)) {
        assert x.Keys == y.Keys;
        SameEntries(x, y);
      }
    }
  }

  /** `match_json(v, v)` finds nothing, for objects and non-objects alike. */
  lemma CompareReflexive(v: Json)
    ensures Compare(v, v) == New(Nil, Nil, Nil)
  {
    NoMismatchIffEqual(v, v);
  }

  /**
   * A pair that is not two objects is compared whole: equal values give three `Nil`s and
   * unequal ones `Value(a, b)` in the channel of differing keys. A `Value` in that channel
   * arises from such a pair only.
   */
  lemma WholeValueCompare(a: Json, b: Json)
    ensures !(a.Object? && b.Object?) && a == b ==> Compare(a, b) == New(Nil, Nil, Nil)
    ensures !(a.Object? && b.Object?) && a != b ==> Compare(a, b) == New(Nil, Nil, Value(a, b))
    ensures Compare(a, b).keysInBoth.Value? <==> !(a.Object? && b.Object?) && a != b
  {
  }

  /** A key both objects hold with equal values contributes nothing to their comparison. */
  lemma EqualEntryIgnored(x: map<string, Json>, y: map<string, Json>, k: string, w: Json)
    requires k !in x && k !in y
    ensures Compare(Object(x[k := w]), Object(y[k := w])) == Compare(Object(x), Object(y))
  {
    var sub := SharedResults(x, y);
    CompareReflexive(w);
    SharedEntryAdded(x, y, sub, k, w);
    CombineEqualEntry(x.Keys, y.Keys, sub, k, Compare(w, w));
  }

  /** Giving both objects one more key `k` adds the comparison of its two values to the shared results. */
  lemma SharedEntryAdded(x: map<string, Json>, y: map<string, Json>, sub: map<string, Mismatch>, k: string, w: Json)
    requires k !in x && k !in y
    requires sub.Keys == x.Keys * y.Keys && forall j :: j in sub ==> sub[j] == Compare(x[j], y[j])
    ensures Compare(Object(x[k := w]), Object(y[k := w])) == Combine(x.Keys + {k}, y.Keys + {k}, sub[k := Compare(w, w)])
  {
    var x', y', sub' := x[k := w], y[k := w], sub[k := Compare(w, w)];
    assert x'.Keys == x.Keys + {k} && y'.Keys == y.Keys + {k};
    assert x'.Keys * y'.Keys == sub'.Keys;
    forall j | j in sub'
      ensures sub'[j] == Compare(x'[j], y'[j])
    {
      if j != k {
        assert sub'[j] == sub[j] && x'[j] == x[j] && y'[j] == y[j];
      }
    }
    CompareObjects(x', y', sub');
  }

  /** Adding a shared key whose comparison is empty leaves the combined result as it was. */
  lemma CombineEqualEntry(keysA: set<string>, keysB: set<string>, sub: map<string, Mismatch>, k: string, same: Mismatch)
    requires k !in keysA && k !in keysB && k !in sub && IsNoMismatch(same)
    ensures Combine(keysA + {k}, keysB + {k}, sub[k := same]) == Combine(keysA, keysB, sub)
  {
    DifferingUpdate(sub, k, same, LeftOnly);
    DifferingUpdate(sub, k, same, RightOnly);
    DifferingUpdate(sub, k, same, Both);
    assert (keysA + {k}) - (keysB + {k}) == keysA - keysB;
    assert (keysB + {k}) - (keysA + {k}) == keysB - keysA;
  }

  /** The shape every comparison result has: no empty `Node`, and no `Value` in a one-sided channel. */
  ghost predicate Tidy(m: Mismatch)
  {
    Canonical(m.leftOnlyKeys) && OneSided(m.leftOnlyKeys) &&
    Canonical(m.rightOnlyKeys) && OneSided(m.rightOnlyKeys) &&
    Canonical(m.keysInBoth)
  }

  /**
   * One channel of a combined result is canonical when the children's results are tidy,
   * and a one-sided channel holds no `Value`.
   */
  lemma ChannelCanonical(base: map<string, KeyNode>, sub: map<string, Mismatch>, c: Channel)
    requires forall k :: k in base ==> base[k] == Nil
    requires forall k :: k in sub ==> Tidy(sub[k])
    ensures Canonical(Collect(base + Differing(sub, c)))
    ensures c != Both ==> OneSided(Collect(base + Differing(sub, c)))
  {
    var m := base + Differing(sub, c);
    assert forall k :: k in m ==> m[k] == Nil || (k in sub && m[k] == Part(sub[k], c));
  }

  /**
   * Every tree the comparator builds is canonical (no empty `Node` anywhere), and the two
   * one-sided channels never hold a `Value`.
   */
  lemma {:induction false} CompareCanonical(a: Json, b: Json)
    ensures Canonical(Compare(a, b).leftOnlyKeys) && OneSided(Compare(a, b).leftOnlyKeys)
    ensures Canonical(Compare(a, b).rightOnlyKeys) && OneSided(Compare(a, b).rightOnlyKeys)
    ensures Canonical(Compare(a, b).keysInBoth)
    decreases a
  {
    if a.Object? && b.Object? {
      var x, y := a.fields, b.fields;
      var sub := SharedResults(x, y);
      forall k | k in sub
        ensures Tidy(sub[k])
      {
        CompareCanonical(x[k], y[k]);
      }
      ChannelCanonical(NilEntries(x.Keys - y.Keys), sub, LeftOnly);
      ChannelCanonical(NilEntries(y.Keys - x.Keys), sub, RightOnly);
      ChannelCanonical(map[], sub, Both);
      EmptyUnion(Differing(sub, Both));
    }
  }

  /**
   * A key only the left object has is a `Nil` entry of the left-only channel at that level,
   * and appears in neither of the other two channels.
   */
  lemma LeftOnlyKeyPlacement(x: map<string, Json>, y: map<string, Json>, k: string)
    requires k in x && k !in y
    ensures Compare(Object(x), Object(y)).leftOnlyKeys.Node?
    ensures k in Compare(Object(x), Object(y)).leftOnlyKeys.children
    ensures Compare(Object(x), Object(y)).leftOnlyKeys.children[k] == Nil
    ensures Compare(Object(x), Object(y)).rightOnlyKeys.Node? ==> k !in Compare(Object(x), Object(y)).rightOnlyKeys.children
    ensures Compare(Object(x), Object(y)).keysInBoth.Node? ==> k !in Compare(Object(x), Object(y)).keysInBoth.children
    ensures !Compare(Object(x), Object(y)).rightOnlyKeys.Value? && !Compare(Object(x), Object(y)).keysInBoth.Value?
  {
    var sub := SharedResults(x, y);
    assert k in NilEntries(x.Keys - y.Keys);
  }

  /** The mirror-image statement for a key only the right object has. */
  lemma RightOnlyKeyPlacement(x: map<string, Json>, y: map<string, Json>, k: string)
    requires k !in x && k in y
    ensures Compare(Object(x), Object(y)).rightOnlyKeys.Node?
    ensures k in Compare(Object(x), Object(y)).rightOnlyKeys.children
    ensures Compare(Object(x), Object(y)).rightOnlyKeys.children[k] == Nil
    ensures Compare(Object(x), Object(y)).leftOnlyKeys.Node? ==> k !in Compare(Object(x), Object(y)).leftOnlyKeys.children
    ensures Compare(Object(x), Object(y)).keysInBoth.Node? ==> k !in Compare(Object(x), Object(y)).keysInBoth.children
    ensures !Compare(Object(x), Object(y)).leftOnlyKeys.Value? && !Compare(Object(x), Object(y)).keysInBoth.Value?
  {
    var sub := SharedResults(x, y);
    assert k in NilEntries(y.Keys - x.Keys);
  }

  /**
   * Flattened: a key only the left object has gives exactly one left-only line, at the path
   * made of that key alone, and no line of the other two channels lies below that key.
   */
  lemma LeftOnlyKeyFlattened(x: map<string, Json>, y: map<string, Json>, k: string)
    requires k in x && k !in y
    ensures ([k], Nil) in Leaves(Compare(Object(x), Object(y)).leftOnlyKeys)
    ensures forall e :: e in Leaves(Compare(Object(x), Object(y)).leftOnlyKeys) && |e.0| > 0 && e.0[0] == k ==> e == ([k], Nil)
    ensures forall e :: e in Leaves(Compare(Object(x), Object(y)).rightOnlyKeys) ==> e.0 == [] || e.0[0] != k
    ensures forall e :: e in Leaves(Compare(Object(x), Object(y)).keysInBoth) ==> e.0 == [] || e.0[0] != k
  {
    var m := Compare(Object(x), Object(y));
    LeftOnlyKeyPlacement(x, y, k);
    KeyLeaves(m.leftOnlyKeys, k);
    AbsentKeyLeaves(m.rightOnlyKeys, k);
    AbsentKeyLeaves(m.keysInBoth, k);
  }

  /** The mirror-image statement for a key only the right object has. */
  lemma RightOnlyKeyFlattened(x: map<string, Json>, y: map<string, Json>, k: string)
    requires k !in x && k in y
    ensures ([k], Nil) in Leaves(Compare(Object(x), Object(y)).rightOnlyKeys)
    ensures forall e :: e in Leaves(Compare(Object(x), Object(y)).rightOnlyKeys) && |e.0| > 0 && e.0[0] == k ==> e == ([k], Nil)
    ensures forall e :: e in Leaves(Compare(Object(x), Object(y)).leftOnlyKeys) ==> e.0 == [] || e.0[0] != k
    ensures forall e :: e in Leaves(Compare(Object(x), Object(y)).keysInBoth) ==> e.0 == [] || e.0[0] != k
  {
    var m := Compare(Object(x), Object(y));
    RightOnlyKeyPlacement(x, y, k);
    KeyLeaves(m.rightOnlyKeys, k);
    AbsentKeyLeaves(m.leftOnlyKeys, k);
    AbsentKeyLeaves(m.keysInBoth, k);
  }

  /** A `Nil` entry under `k` is the one leaf of the tree whose path starts with `k`, and its path is `[k]`. */
  lemma KeyLeaves(t: KeyNode, k: string)
    requires t.Node? && k in t.children && t.children[k] == Nil
    ensures ([k], Nil) in Leaves(t)
    ensures forall e :: e in Leaves(t) && |e.0| > 0 && e.0[0] == k ==> e == ([k], Nil)
  {
    NodeLeaf(t.children, ([k], Nil));
    assert ([k], Nil).0[1..] == [];
    forall e | e in Leaves(t) && |e.0| > 0 && e.0[0] == k
      ensures e == ([k], Nil)
    {
      NodeLeaf(t.children, e);
      assert (e.0[1..], e.1) in Leaves(Nil);
      assert e.0[1..] == [] && e.1 == Nil;
      assert e.0 == [k] + e.0[1..] == [k];
    }
  }

  /** A tree that is `Nil`, or a `Node` without the key `k`, has no leaf below `k`. */
  lemma AbsentKeyLeaves(t: KeyNode, k: string)
    requires t == Nil || (t.Node? && k !in t.children)
    ensures forall e :: e in Leaves(t) ==> e.0 == [] || e.0[0] != k
  {
    if t.Node? {
      NodeLeaves(t.children);
    }
  }
}
