/**
 * The structural comparator of two JSON values, after src/process.rs.
 *
 * `Compare` states what `match_json` computes, without an order of visiting keys;
 * `MatchJson` is the comparator as the source writes it, a loop over the shared keys
 * that folds each child result into three accumulators, and is proved equal to `Compare`.
 */
module Process {
  import opened Options
  import opened JsonValues
  import opened KeyNodes
  import opened Mismatches
  import opened MapFacts

  /** The keys an optional key set holds (`None` holds none). */
  function Elements(s: Option<set<string>>): set<string>
  {
    match s
    case Some(keys) => keys
    case None => {}
  }

  /** The source reports an empty key set as `None`, never as `Some` of nothing. */
  function NonEmpty(s: set<string>): (r: Option<set<string>>)
    ensures Elements(r) == s && r != Some({})
  {
    if |s| == 0 then None else Some(s)
  }

  /**
   * `intersect_maps(a, b)`: splits the keys of two objects into those only `a` has, those
   * only `b` has, and those both have. An empty group is `None`.
   */
  method IntersectMaps(a: map<string, Json>, b: map<string, Json>)
    returns (left: Option<set<string>>, right: Option<set<string>>, intersection: Option<set<string>>)
    ensures Elements(intersection) == a.Keys * b.Keys
    ensures Elements(left) == a.Keys - b.Keys
    ensures Elements(right) == b.Keys - a.Keys
    ensures left != Some({}) && right != Some({}) && intersection != Some({})
  {
    var both, onlyA, onlyB := {}, {}, {};
    var rest := a.Keys;
    ghost var done: set<string> := {};
    while rest != {}
      invariant rest !! done && rest + done == a.Keys
      invariant both == done * b.Keys && onlyA == done - b.Keys
      decreases rest
    {
      var key :| key in rest;
      if key in b {
        both := both + {key};
      } else {
        onlyA := onlyA + {key};
      }
      rest, done := rest - {key}, done + {key};
    }
    rest, done := b.Keys, {};
    while rest != {}
      invariant rest !! done && rest + done == b.Keys
      invariant onlyB == done - a.Keys
      decreases rest
    {
      var key :| key in rest;
      if key !in a {
        onlyB := onlyB + {key};
      }
      rest, done := rest - {key}, done + {key};
    }
    left, right, intersection := NonEmpty(onlyA), NonEmpty(onlyB), NonEmpty(both);
  }

  /** Every key of `keys`, each mapped to `Nil`. */
  function NilEntries(keys: set<string>): (r: map<string, KeyNode>)
    ensures r.Keys == keys && forall k :: k in r ==> r[k] == Nil
  {
    map k | k in keys :: Nil
  }

  /**
   * `get_map_of_keys`: no keys give `Nil`; a key set gives a `Node` over exactly those keys,
   * each leading to `Nil`.
   */
  function GetMapOfKeys(keys: Option<set<string>>): (r: KeyNode)
    ensures keys.None? ==> r == Nil
    ensures keys.Some? ==> r.Node? && r.children.Keys == keys.value
    ensures keys.Some? ==> forall k :: k in r.children ==> r.children[k] == Nil
  {
    match keys
    case Some(s) => Node(NilEntries(s))
    case None => Nil
  }

  /**
   * `insert_child_key_map`: folds a child result into its parent under `key`. A `Nil` child
   * adds nothing; a `Node` parent gains (or replaces) the entry; a `Nil` parent becomes a
   * one-entry `Node`; a `Value` parent is returned as it is.
   */
  function InsertChildKeyMap(parent: KeyNode, child: KeyNode, key: string): (r: KeyNode)
    ensures child == Nil ==> r == parent
    ensures child != Nil && parent.Node? ==>
      r.Node? && r.children.Keys == parent.children.Keys + {key} && r.children[key] == child &&
      forall k :: k in parent.children && k != key ==> r.children[k] == parent.children[k]
    ensures child != Nil && parent == Nil ==> r == Node(map[key := child])
    ensures parent.Value? ==> r == parent
  {
    if child == Nil then parent
    else match parent
      case Node(m) => Node(m[key := child])
      case Nil => Node(map[key := child])
      case Value(_, _) => parent
  }

  /** One of the three channels of a result. */
  datatype Channel = LeftOnly | RightOnly | Both

  function Part(m: Mismatch, c: Channel): KeyNode
  {
    match c
    case LeftOnly => m.leftOnlyKeys
    case RightOnly => m.rightOnlyKeys
    case Both => m.keysInBoth
  }

  /** The children results of one channel that are not `Nil`, under their keys. */
  function Differing(sub: map<string, Mismatch>, c: Channel): (r: map<string, KeyNode>)
    ensures r.Keys <= sub.Keys
    ensures forall k :: k in sub ==> (k in r <==> Part(sub[k], c) != Nil)
    ensures forall k :: k in r ==> r[k] == Part(sub[k], c)
  {
    map k | k in sub && Part(sub[k], c) != Nil :: Part(sub[k], c)
  }

  /** A key map as a tree: `Nil` when it is empty, a `Node` otherwise. */
  function Collect(m: map<string, KeyNode>): (r: KeyNode)
    ensures r == Nil <==> m == map[]
    ensures r != Nil ==> r == Node(m)
  {
    if m == map[] then Nil else Node(m)
  }

  /**
   * The result for two objects with key sets `keysA` and `keysB`, given the comparison
   * `sub` of every shared key: keys of one side only become `Nil` entries of that side's
   * channel, and every shared key contributes its comparison's non-`Nil` channels under it.
   */
  function Combine(keysA: set<string>, keysB: set<string>, sub: map<string, Mismatch>): Mismatch
  {
    Mismatch(
      Collect(NilEntries(keysA - keysB) + Differing(sub, LeftOnly)),
      Collect(NilEntries(keysB - keysA) + Differing(sub, RightOnly)),
      Collect(Differing(sub, Both)))
  }

  /**
   * What `match_json(a, b)` returns. Two objects are combined key by key; any other pair is
   * compared whole: equal values give three `Nil`s, unequal ones a `Value(a, b)` in the
   * channel of differing keys.
   */
  function Compare(a: Json, b: Json): Mismatch
    decreases a
  {
    if a.Object? && b.Object? then
      var x, y := a.fields, b.fields;
      Combine(x.Keys, y.Keys, map k | k in x.Keys * y.Keys :: Compare(x[k], y[k]))
    else if a == b then
      Mismatch(Nil, Nil, Nil)
    else
      Mismatch(Nil, Nil, Value(a, b))
  }

  /**
   * `match_json(value1, value2)`, with the object branch's loop over the shared keys and
   * its three accumulators; the shared keys are visited in an arbitrary order, as a
   * `HashSet` yields them.
   */
  method MatchJson(value1: Json, value2: Json) returns (m: Mismatch)
    ensures m == Compare(value1, value2)
    decreases value1
  {
    if value1.Object? && value2.Object? {
      var a, b := value1.fields, value2.fields;
      var leftOnly, rightOnly, intersection := IntersectMaps(a, b);
      var unequalKeys := Nil;
      var leftOnlyKeys := GetMapOfKeys(leftOnly);
      var rightOnlyKeys := GetMapOfKeys(rightOnly);
      ghost var sub: map<string, Mismatch> := map[];
      assert Combine(a.Keys, b.Keys, sub) == Mismatch(leftOnlyKeys, rightOnlyKeys, unequalKeys) by {
        KeyGroupTree(leftOnly, a.Keys - b.Keys);
        KeyGroupTree(rightOnly, b.Keys - a.Keys);
        EmptyCombine(a.Keys, b.Keys);
      }
      if intersection.Some? {
        var rest := intersection.value;
        while rest != {}
          invariant rest <= a.Keys * b.Keys
          invariant sub.Keys == a.Keys * b.Keys - rest
          invariant forall k :: k in sub ==> sub[k] == Compare(a[k], b[k])
          invariant Combine(a.Keys, b.Keys, sub) == Mismatch(leftOnlyKeys, rightOnlyKeys, unequalKeys)
          decreases rest
        {
          var key :| key in rest;
          var child := MatchJson(a[key], b[key]);
          assert Combine(a.Keys, b.Keys, sub[key := child]) == Mismatch(
            InsertChildKeyMap(leftOnlyKeys, child.leftOnlyKeys, key),
            InsertChildKeyMap(rightOnlyKeys, child.rightOnlyKeys, key),
            InsertChildKeyMap(unequalKeys, child.keysInBoth, key)) by {
            FoldChild(a.Keys, b.Keys, sub, key, child);
          }
          leftOnlyKeys := InsertChildKeyMap(leftOnlyKeys, child.leftOnlyKeys, key);
          rightOnlyKeys := InsertChildKeyMap(rightOnlyKeys, child.rightOnlyKeys, key);
          unequalKeys := InsertChildKeyMap(unequalKeys, child.keysInBoth, key);
          sub := sub[key := child];
          rest := rest - {key};
        }
      }
      CompareObjects(a, b, sub);
      m := New(leftOnlyKeys, rightOnlyKeys, unequalKeys);
    } else if value1 == value2 {
      m := New(Nil, Nil, Nil);
    } else {
      m := New(Nil, Nil, Value(value1, value2));
    }
  }

  /** The tree `get_map_of_keys` builds from a key group is the collected map of its `Nil` entries. */
  lemma KeyGroupTree(group: Option<set<string>>, keys: set<string>)
    requires Elements(group) == keys && group != Some({})
    ensures GetMapOfKeys(group) == Collect(NilEntries(keys))
  {
    if group.None? {
      assert NilEntries(keys) == map[];
    } else {
      assert keys != {};
      var k :| k in keys;
      assert k in NilEntries(keys);
    }
  }

  /** The comparisons of the shared keys of two objects, and the result they combine into. */
  lemma SharedResults(x: map<string, Json>, y: map<string, Json>) returns (sub: map<string, Mismatch>)
    ensures sub.Keys == x.Keys * y.Keys
    ensures forall k :: k in sub ==> sub[k] == Compare(x[k], y[k])
    ensures Compare(Object(x), Object(y)) == Combine(x.Keys, y.Keys, sub)
  {
    sub := map k | k in x.Keys * y.Keys :: Compare(x[k], y[k]);
  }

  /** Two objects compare as the combination of the comparisons of their shared keys. */
  lemma CompareObjects(x: map<string, Json>, y: map<string, Json>, sub: map<string, Mismatch>)
    requires sub.Keys == x.Keys * y.Keys
    requires forall k :: k in sub ==> sub[k] == Compare(x[k], y[k])
    ensures Compare(Object(x), Object(y)) == Combine(x.Keys, y.Keys, sub)
  {
    assert sub == map k | k in x.Keys * y.Keys :: Compare(x[k], y[k]);
  }

  /** Before any shared key is visited, the accumulators hold the one-sided keys only. */
  lemma EmptyCombine(keysA: set<string>, keysB: set<string>)
    ensures Combine(keysA, keysB, map[]) ==
      Mismatch(Collect(NilEntries(keysA - keysB)), Collect(NilEntries(keysB - keysA)), Nil)
  {
    var none: map<string, Mismatch> := map[];
    assert NilEntries(keysA - keysB) + Differing(none, LeftOnly) == NilEntries(keysA - keysB);
    assert NilEntries(keysB - keysA) + Differing(none, RightOnly) == NilEntries(keysB - keysA);
  }

  /** Folding the result of one more shared key into the three accumulators. */
  lemma FoldChild(keysA: set<string>, keysB: set<string>, sub: map<string, Mismatch>, key: string, child: Mismatch)
    requires key in keysA && key in keysB && key !in sub
    ensures var m := Combine(keysA, keysB, sub);
      Combine(keysA, keysB, sub[key := child]) == Mismatch(
        InsertChildKeyMap(m.leftOnlyKeys, child.leftOnlyKeys, key),
        InsertChildKeyMap(m.rightOnlyKeys, child.rightOnlyKeys, key),
        InsertChildKeyMap(m.keysInBoth, child.keysInBoth, key))
  {
    FoldChannel(keysA, keysB, sub, key, child, LeftOnly);
    FoldChannel(keysA, keysB, sub, key, child, RightOnly);
    FoldChannel(keysA, keysB, sub, key, child, Both);
  }

  lemma FoldChannel(keysA: set<string>, keysB: set<string>, sub: map<string, Mismatch>, key: string, child: Mismatch, c: Channel)
    requires key in keysA && key in keysB && key !in sub
    ensures Part(Combine(keysA, keysB, sub[key := child]), c)
         == InsertChildKeyMap(Part(Combine(keysA, keysB, sub), c), Part(child, c), key)
  {
    match c {
      case LeftOnly => InsertStep(NilEntries(keysA - keysB), sub, key, child, c);
      case RightOnly => InsertStep(NilEntries(keysB - keysA), sub, key, child, c);
      case Both =>
        InsertStep(map[], sub, key, child, c);
        EmptyUnion(Differing(sub, c));
        EmptyUnion(Differing(sub[key := child], c));
    }
  }

  /** Folding one more child into an accumulator matches adding that child to the collected map. */
  lemma InsertStep(base: map<string, KeyNode>, sub: map<string, Mismatch>, key: string, child: Mismatch, c: Channel)
    requires key !in base && key !in sub
    ensures InsertChildKeyMap(Collect(base + Differing(sub, c)), Part(child, c), key)
         == Collect(base + Differing(sub[key := child], c))
  {
    DifferingUpdate(sub, key, child, c);
    var d := Differing(sub, c);
    if Part(child, c) != Nil {
      assert base + d[key := Part(child, c)] == (base + d)[key := Part(child, c)];
    }
  }

  /** A new child result adds its channel under its key when that channel is not `Nil`. */
  lemma DifferingUpdate(sub: map<string, Mismatch>, key: string, child: Mismatch, c: Channel)
    requires key !in sub
    ensures Differing(sub[key := child], c)
         == if Part(child, c) == Nil then Differing(sub, c) else Differing(sub, c)[key := Part(child, c)]
  {
  }
}
