/**
 * The difference tree (`KeyNode`) and its flattener (`absolute_keys`), after src/ds/key_node.rs.
 *
 * One tree is built per channel of a comparison: keys found only on the left, keys found only
 * on the right, and keys whose values differ. The flattener renders every leaf of a tree as one
 * display line, with the keys on the path joined by " ->".
 */
module KeyNodes {
  import opened Options
  import opened JsonValues

  /**
   * `Nil` marks a position with nothing below it (or, inside a one-sided channel, a whole key
   * that the other side lacks); `Value` holds the two differing values; `Node` branches on keys.
   */
  datatype KeyNode =
    | Nil
    | Value(left: Json, right: Json)
    | Node(children: map<string, KeyNode>)

  /** The marker `truncate` appends after the characters it keeps. */
  const Snip: string := "//SNIP//"

  /** The display length `absolute_keys` uses when its caller gives none. */
  const DefaultDisplayLength: nat := 20

  /**
   * `truncate(s, max_chars)`: a string of at most `maxChars` characters is kept as it is;
   * a longer one keeps its first `maxChars` characters and gets the snip marker.
   */
  function Truncate(s: string, maxChars: nat): (r: string)
    ensures |s| <= maxChars ==> r == s
    ensures |s| > maxChars ==> |r| == maxChars + |Snip| && s[..maxChars] <= r && r[maxChars..] == Snip
    ensures |r| <= maxChars + |Snip|
  {
    if |s| <= maxChars then s else s[..maxChars] + Snip
  }

  /** Truncating an already truncated rendering changes nothing more. */
  lemma TruncateIdempotent(s: string, maxChars: nat)
    ensures Truncate(Truncate(s, maxChars), maxChars) == Truncate(s, maxChars)
  {
    if |s| > maxChars {
      var r := Truncate(s, maxChars);
      assert r[..maxChars] == s[..maxChars];
    }
  }

  /** The closure `val_key`: a path followed by " ->", or nothing at the root. */
  function ValKey(key: Option<string>): string
  {
    match key
    case Some(s) => s + " ->"
    case None => ""
  }

  /** The path handed to the child stored under `key`: `"<val_key(path)> <key>"`. */
  function ChildKey(keyFromRoot: Option<string>, key: string): string
  {
    ValKey(keyFromRoot) + " " + key
  }

  /** The rendered path reached from `keyFromRoot` by descending through the keys of `path`. */
  function PathKey(keyFromRoot: Option<string>, path: seq<string>): Option<string>
    decreases |path|
  {
    if path == [] then keyFromRoot else PathKey(Some(ChildKey(keyFromRoot, path[0])), path[1..])
  }

  /** The line pushed for a `Value(a, b)` leaf: `"<val_key(path)> [ <a> :: <b> ]"`. */
  function ValueLine(key: Option<string>, a: Json, b: Json, maxLen: nat, render: Json -> string): string
  {
    ValKey(key) + " [ " + Truncate(render(a), maxLen) + " :: " + Truncate(render(b), maxLen) + " ]"
  }

  /** A leaf of a tree: the keys leading to it and the `Nil` or `Value` found there. */
  type Leaf = (seq<string>, KeyNode)

  /** Every `Nil` or `Value` position below `t`, with its path of keys from `t`. */
  ghost function Leaves(t: KeyNode): set<Leaf>
  {
    match t
    case Nil => {([], Nil)}
    case Value(_, _) => {([], t)}
    case Node(m) => set k, e | k in m && e in Leaves(m[k]) :: ([k] + e.0, e.1)
  }

  /**
   * The canonical form the comparator keeps: no `Node` is empty, so `Nil` is the only way a
   * tree says "nothing here", at every level.
   */
  ghost predicate Canonical(t: KeyNode)
  {
    match t
    case Node(m) => m != map[] && forall k :: k in m ==> Canonical(m[k])
    case _ => true
  }

  /** A tree without any `Value`, as the left-only and right-only channels are. */
  ghost predicate OneSided(t: KeyNode)
  {
    match t
    case Value(_, _) => false
    case Nil => true
    case Node(m) => forall k :: k in m ==> OneSided(m[k])
  }

  /** The display line `absolute_keys` pushes for one leaf, below the path `keyFromRoot`. */
  function LeafLine(keyFromRoot: Option<string>, leaf: Leaf, maxLen: nat, render: Json -> string): string
  {
    var key := PathKey(keyFromRoot, leaf.0);
    match leaf.1
    case Value(a, b) => ValueLine(key, a, b, maxLen, render)
    case _ => key.UnwrapOr("")
  }

  ghost predicate NoDuplicates<T>(s: seq<T>)
  {
    forall i, j :: 0 <= i < j < |s| ==> s[i] != s[j]
  }

  /** The leaves of a child, seen from its parent: each path gains `key` in front. */
  function UnderKey(key: string, leaves: seq<Leaf>): (r: seq<Leaf>)
    ensures |r| == |leaves|
    ensures forall i :: 0 <= i < |r| ==> r[i] == ([key] + leaves[i].0, leaves[i].1)
  {
    seq(|leaves|, i requires 0 <= i < |leaves| => ([key] + leaves[i].0, leaves[i].1))
  }

  /**
   * `absolute_keys(keys, key_from_root, max_display_length)`. The `&mut Vec` accumulator is
   * threaded through as `keys` in and `out` back; `render` stands for serde's `to_string`.
   * The lines already in `keys` stay in front, and exactly one line per leaf of `t` is
   * appended; `order` is the (hash-map) order in which the leaves were visited.
   */
  method AbsoluteKeys(t: KeyNode, keys: seq<string>, keyFromRoot: Option<string>,
                      maxDisplayLength: Option<nat>, render: Json -> string)
    returns (out: seq<string>, ghost order: seq<Leaf>)
    ensures |out| == |keys| + |order| && out[..|keys|] == keys
    ensures forall i :: 0 <= i < |order| ==>
      out[|keys| + i] == LeafLine(keyFromRoot, order[i], maxDisplayLength.UnwrapOr(DefaultDisplayLength), render)
    ensures NoDuplicates(order)
    ensures forall e :: e in order <==> e in Leaves(t)
    ensures |out| == |keys| + |Leaves(t)|
    decreases t
  {
    var maxLen := maxDisplayLength.UnwrapOr(DefaultDisplayLength);
    match t {
      case Nil =>
        out, order := keys + [keyFromRoot.UnwrapOr("")], [([], Nil)];
      case Value(a, b) =>
        out, order := keys + [ValueLine(keyFromRoot, a, b, maxLen, render)], [([], t)];
      case Node(m) =>
        out, order := keys, [];
        var rest := m.Keys;
        ghost var done: set<string> := {};
        while rest != {}
          invariant rest + done == m.Keys && rest !! done
          invariant |out| == |keys| + |order| && out[..|keys|] == keys
          invariant forall i :: 0 <= i < |order| ==> out[|keys| + i] == LeafLine(keyFromRoot, order[i], maxLen, render)
          invariant NoDuplicates(order)
          invariant forall e :: e in order <==> VisitedLeaf(m, done, e)
          decreases rest
        {
          var key :| key in rest;
          var childOut;
          ghost var childOrder;
          childOut, childOrder := AbsoluteKeys(m[key], out, Some(ChildKey(keyFromRoot, key)), Some(maxLen), render);
          ghost var added := UnderKey(key, childOrder);
          AppendLines(keys, out, order, childOut, childOrder, keyFromRoot, key, maxLen, render);
          AppendVisited(m, done, key, order, childOrder);
          out, order := childOut, order + added;
          rest, done := rest - {key}, done + {key};
        }
        NodeLeaves(m);
    }
    DistinctCount(order, Leaves(t));
  }

  /** A `Nil` tree is one leaf, whose line is the path itself (`""` at the root). */
  lemma NilLine(keyFromRoot: Option<string>, maxLen: nat, render: Json -> string)
    ensures Leaves(Nil) == {([], Nil)}
    ensures LeafLine(keyFromRoot, ([], Nil), maxLen, render) == keyFromRoot.UnwrapOr("")
  {
  }

  /** A `Value(a, b)` tree is one leaf, whose line is the path with the two truncated renderings. */
  lemma ValueLeafLine(keyFromRoot: Option<string>, a: Json, b: Json, maxLen: nat, render: Json -> string)
    ensures Leaves(Value(a, b)) == {([], Value(a, b))}
    ensures LeafLine(keyFromRoot, ([], Value(a, b)), maxLen, render) == ValueLine(keyFromRoot, a, b, maxLen, render)
  {
  }

  /** An empty `Node` has no leaf, so flattening it appends nothing. */
  lemma EmptyNodeLeaves()
    ensures Leaves(Node(map[])) == {}
  {
  }

  /** `absolute_keys_to_vec`: flattens a whole tree from an empty vector and no root path. */
  method AbsoluteKeysToVec(t: KeyNode, maxDisplayLength: Option<nat>, render: Json -> string)
    returns (vec: seq<string>, ghost order: seq<Leaf>)
    ensures |vec| == |order| == |Leaves(t)|
    ensures forall i :: 0 <= i < |order| ==>
      vec[i] == LeafLine(None, order[i], maxDisplayLength.UnwrapOr(DefaultDisplayLength), render)
    ensures NoDuplicates(order)
    ensures forall e :: e in order <==> e in Leaves(t)
  {
    vec, order := AbsoluteKeys(t, [], None, maxDisplayLength, render);
  }

  /** The leaves below `Node(m)` that hang under one of the keys in `done`. */
  ghost predicate VisitedLeaf(m: map<string, KeyNode>, done: set<string>, e: Leaf)
  {
    |e.0| > 0 && e.0[0] in done && e.0[0] in m && (e.0[1..], e.1) in Leaves(m[e.0[0]])
  }

  /** A leaf of `Node(m)` is a leaf of one child, with that child's key in front of its path. */
  lemma NodeLeaves(m: map<string, KeyNode>)
    ensures forall e :: e in Leaves(Node(m)) <==> VisitedLeaf(m, m.Keys, e)
  {
    forall e
      ensures e in Leaves(Node(m)) <==> VisitedLeaf(m, m.Keys, e)
    {
      NodeLeaf(m, e);
    }
  }

  lemma NodeLeaf(m: map<string, KeyNode>, e: Leaf)
    ensures e in Leaves(Node(m)) <==> VisitedLeaf(m, m.Keys, e)
  {
    var all := Leaves(Node(m));
    if e in all {
      var k, c :| k in m && c in Leaves(m[k]) && e == ([k] + c.0, c.1);
      assert e.0[1..] == c.0;
    }
    if VisitedLeaf(m, m.Keys, e) {
      var k, c := e.0[0], (e.0[1..], e.1);
      assert e.0 == [k] + c.0;
      assert e == ([k] + c.0, c.1);
    }
  }

  lemma LeafLineUnderKey(keyFromRoot: Option<string>, key: string, e: Leaf, maxLen: nat, render: Json -> string)
    ensures LeafLine(keyFromRoot, ([key] + e.0, e.1), maxLen, render)
         == LeafLine(Some(ChildKey(keyFromRoot, key)), e, maxLen, render)
  {
    assert ([key] + e.0)[1..] == e.0;
  }

  /** The lines a child appends are the lines of its leaves, seen from the parent. */
  lemma AppendLines(keys: seq<string>, out: seq<string>, order: seq<Leaf>, childOut: seq<string>, childOrder: seq<Leaf>,
                    keyFromRoot: Option<string>, key: string, maxLen: nat, render: Json -> string)
    requires |out| == |keys| + |order|
    requires forall i :: 0 <= i < |order| ==> out[|keys| + i] == LeafLine(keyFromRoot, order[i], maxLen, render)
    requires |childOut| == |out| + |childOrder| && childOut[..|out|] == out
    requires forall i :: 0 <= i < |childOrder| ==>
      childOut[|out| + i] == LeafLine(Some(ChildKey(keyFromRoot, key)), childOrder[i], maxLen, render)
    ensures forall i :: 0 <= i < |order| + |childOrder| ==>
      childOut[|keys| + i] == LeafLine(keyFromRoot, (order + UnderKey(key, childOrder))[i], maxLen, render)
  {
    var added := UnderKey(key, childOrder);
    forall i | 0 <= i < |order| + |added|
      ensures childOut[|keys| + i] == LeafLine(keyFromRoot, (order + added)[i], maxLen, render)
    {
      if i < |order| {
        assert (order + added)[i] == order[i];
        assert childOut[|keys| + i] == childOut[..|out|][|keys| + i] == out[|keys| + i];
      } else {
        var j := i - |order|;
        assert (order + added)[i] == added[j] == ([key] + childOrder[j].0, childOrder[j].1);
        assert childOut[|keys| + i] == childOut[|out| + j];
        LeafLineUnderKey(keyFromRoot, key, childOrder[j], maxLen, render);
      }
    }
  }

  /** Appending the leaves of the child under a fresh key keeps the visited leaves distinct and complete. */
  lemma AppendVisited(m: map<string, KeyNode>, done: set<string>, key: string, order: seq<Leaf>, childOrder: seq<Leaf>)
    requires key in m && key !in done
    requires NoDuplicates(order) && forall e :: e in order <==> VisitedLeaf(m, done, e)
    requires NoDuplicates(childOrder) && forall e :: e in childOrder <==> e in Leaves(m[key])
    ensures NoDuplicates(order + UnderKey(key, childOrder))
    ensures forall e :: e in order + UnderKey(key, childOrder) <==> VisitedLeaf(m, done + {key}, e)
  {
    var added := UnderKey(key, childOrder);
    var all := order + added;
    forall i, j | 0 <= i < j < |all|
      ensures all[i] != all[j]
    {
      if j >= |order| && i >= |order| {
        assert childOrder[i - |order|] != childOrder[j - |order|];
        assert added[i - |order|].0[1..] == childOrder[i - |order|].0;
        assert added[j - |order|].0[1..] == childOrder[j - |order|].0;
      } else if j >= |order| {
        assert order[i] in order;
        assert all[i].0[0] in done;
        assert all[j].0[0] == key;
      }
    }
    forall e
      ensures e in all <==> VisitedLeaf(m, done + {key}, e)
    {
      if e in added {
        var i :| 0 <= i < |added| && added[i] == e;
        assert e.0[1..] == childOrder[i].0;
        assert childOrder[i] in childOrder;
      }
      if VisitedLeaf(m, done + {key}, e) && e.0[0] == key {
        var c := (e.0[1..], e.1);
        var i :| 0 <= i < |childOrder| && childOrder[i] == c;
        assert e.0 == [key] + c.0;
        assert added[i] == e;
      }
    }
  }

  /** A sequence without duplicates has as many elements as the set of its elements. */
  lemma {:induction false} DistinctCount<T>(s: seq<T>, elems: set<T>)
    requires NoDuplicates(s)
    requires forall e :: e in s <==> e in elems
    ensures |s| == |elems|
  {
    if s != [] {
      var rest := s[1..];
      forall e
        ensures e in rest <==> e in elems - {s[0]}
      {
        if e in rest {
          var j :| 0 <= j < |rest| && rest[j] == e;
          assert s[j + 1] == e;
        }
        if e in elems - {s[0]} {
          var j :| 0 <= j < |s| && s[j] == e;
          assert rest[j - 1] == e;
        }
      }
      DistinctCount(rest, elems - {s[0]});
    }
  }
}
