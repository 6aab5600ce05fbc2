# json-diff comparator, modelled in Dafny

This project models the core of `json-diff`, a tool that compares two JSON documents structurally.
The comparator (`match_json` in `src/process.rs`) walks both documents together. It reports the
differences as three trees of keys (`KeyNode`), one per channel:

- keys only the left document has;
- keys only the right document has;
- keys present on both sides whose values differ.

The triple is a `Mismatch` (`src/ds/mismatch.rs`). The flattener `absolute_keys`
(`src/ds/key_node.rs`) turns each tree into display lines, one per leaf, with the keys on the
path joined by `" ->"` and long values cut by `truncate`. `src/enums.rs` holds the small display
types `ValueType` and `DiffType`.

Modules:

- `JsonValues` (json.dfy): the JSON value the comparator reads.
- `KeyNodes` (key_node.dfy): the tree, `truncate`, and the flattener. `AbsoluteKeys` is a
  recursive method that threads the `&mut Vec<String>` accumulator and loops over the map of a
  `Node` in an arbitrary order.
- `Mismatches` (mismatch.dfy): the result triple and the caller's "no difference" verdict.
- `Process` (process.dfy): `intersect_maps`, `get_map_of_keys` and `insert_child_key_map`, as
  imperative or pure code as in the source. `Compare` is a pure, order-free statement of what
  `match_json` returns. `MatchJson` is the source's loop over the shared keys with its three
  accumulators, proved to return `Compare` for every visiting order.
- `ComparatorProperties` (process_properties.dfy): what the comparator promises, stated about
  `Compare`:
  - reflexivity;
  - "no difference iff equal";
  - whole-value comparison of non-objects;
  - equal keys are ignored;
  - the canonical form of the trees (no empty `Node`, no `Value` in a one-sided channel);
  - where a one-sided key ends up.
- `Enums` (enums.dfy): `ValueType`, its constructors, `get_key` and its display; `DiffType`'s labels.
- `Scenarios` (scenarios.dfy): the repository's nested-difference and no-difference tests. They
  are proved through general lemmas about objects of the same shape.
- `Options`, `MapFacts`: an option type and a few map facts used throughout.

## Model

| member | source | states |
|---|---|---|
| `Process.MatchJson` | src/process.rs:8-43 | Returns exactly `Compare(value1, value2)`, whatever order the shared keys are visited in. Two objects: one-sided keys become `Nil` entries, and each shared key's child result is folded into the three accumulators. Any other pair: three `Nil`s if equal, else `Value(a, b)` in the differing channel. |
| `Process.IntersectMaps` | src/process.rs:73-104 | The three results hold exactly: the keys of both objects; the keys of `a` only; the keys of `b` only. None of them is ever `Some` of an empty set: an empty group is `None`. |
| `Process.NonEmpty` | src/process.rs:96-102 | An empty key group is `None`; otherwise the group is kept. The keys held are exactly the group. |
| `Process.GetMapOfKeys` | src/process.rs:45-55 | `None` gives `Nil`. `Some(S)` gives a `Node` whose keys are exactly `S`, each mapped to `Nil`. |
| `Process.NilEntries` | src/process.rs:47-50 | The map built from a key set has exactly those keys, each leading to `Nil`. |
| `Process.InsertChildKeyMap` | src/process.rs:57-71 | A `Nil` child leaves the parent unchanged. For a `Node` parent, the key gets the child and every other entry stays. A `Nil` parent becomes a one-entry `Node`. A `Value` parent is returned unchanged. |
| `Process.KeyGroupTree` | src/process.rs:14-15 | The starting one-sided accumulators are the `Nil` entries of the one-sided keys: `Nil` when there are none, a `Node` otherwise. |
| `Process.EmptyCombine` | src/process.rs:13-15 | Before any shared key is visited, the three accumulators hold the one-sided key trees and `Nil`. |
| `Process.FoldChild` | src/process.rs:18-27 | Folding one more shared key's result into the three accumulators gives the combination over one more shared key. This is the loop invariant of `match_json`. |
| `Process.FoldChannel` | src/process.rs:24-26 | In each channel alone, folding one more shared key's result is `insert_child_key_map` on that channel. |
| `Process.InsertStep` | src/process.rs:57-71 | Inserting a child's channel into an accumulator equals collecting the accumulator's map with that key added, or unchanged when the child is `Nil`. |
| `Process.DifferingUpdate` | src/process.rs:58-62 | One more shared result adds its channel under its key when that channel is not `Nil`, and adds nothing otherwise. |
| `Process.CompareObjects` | src/process.rs:10-30 | Two objects compare as the combination of the comparisons of their shared keys, whatever map holds those comparisons. |
| `Process.SharedResults` | src/process.rs:17-23 | The comparisons of the shared keys exist, one per shared key, and two objects compare as their combination. |
| `ComparatorProperties.NoMismatchIffEqual` | src/process.rs:8-43 | The result is three `Nil`s exactly when the two values are equal. Every difference is reported, and equal values report none. |
| `ComparatorProperties.CompareReflexive` | src/process.rs:8-43 | Comparing a value with itself gives `Mismatch::new(Nil, Nil, Nil)`, for objects and non-objects alike. |
| `ComparatorProperties.WholeValueCompare` | src/process.rs:31-41 | A pair that is not two objects gives three `Nil`s when equal and `Value(a, b)` in the differing channel otherwise. A `Value` in that channel comes only from such a pair. |
| `ComparatorProperties.CombineEmpty` | src/process.rs:13-29 | The combined result of two objects is empty exactly when neither object has a key of its own and every shared key compares empty. |
| `ComparatorProperties.EqualEntryIgnored` | src/process.rs:17-27 | A key both objects hold with equal values changes nothing in their comparison. |
| `ComparatorProperties.SharedEntryAdded` | src/process.rs:10-27 | Giving both objects one more key adds that key's comparison to the shared results. |
| `ComparatorProperties.CombineEqualEntry` | src/process.rs:17-27 | A shared key whose comparison is empty leaves the combined result as it was. |
| `ComparatorProperties.ChannelCanonical` | src/process.rs:57-71 | A channel built from `Nil` entries and tidy child results is canonical. A one-sided channel built that way holds no `Value`. |
| `ComparatorProperties.CompareCanonical` | src/process.rs:8-43 | Every tree the comparator returns has no empty `Node` at any depth. The left-only and right-only trees never hold a `Value`. |
| `ComparatorProperties.LeftOnlyKeyPlacement` | src/process.rs:11-15 | A key only the left object has is a `Nil` entry of the left-only tree at that level, absent from the other two trees. Neither of those trees is a `Value`. |
| `ComparatorProperties.RightOnlyKeyPlacement` | src/process.rs:11-15 | A key only the right object has is a `Nil` entry of the right-only tree at that level, absent from the other two trees. Neither of those trees is a `Value`. |
| `ComparatorProperties.LeftOnlyKeyFlattened` | src/process.rs:11-15 | The left-only tree has exactly one leaf whose path starts with a left-only key, and that path is the key alone. No leaf of the other two trees starts with that key. |
| `ComparatorProperties.RightOnlyKeyFlattened` | src/process.rs:11-15 | The right-only tree has exactly one leaf whose path starts with a right-only key, and that path is the key alone. No leaf of the other two trees starts with that key. |
| `ComparatorProperties.KeyLeaves` | src/ds/key_node.rs:57-65 | A `Nil` entry under `k` is the single leaf whose path starts with `k`, and its path is `[k]`. |
| `ComparatorProperties.AbsentKeyLeaves` | src/ds/key_node.rs:57-65 | A tree without the key `k` has no leaf below `k`. |
| `KeyNodes.Truncate` | src/ds/key_node.rs:12-22 | A string of at most `max_chars` characters is returned unchanged. A longer one becomes its first `max_chars` characters followed by `//SNIP//`, `max_chars + 8` characters in all. |
| `KeyNodes.TruncateIdempotent` | src/ds/key_node.rs:12-22 | Truncating a truncated string again changes nothing. |
| `KeyNodes.AbsoluteKeys` | src/ds/key_node.rs:31-67 | The lines already in the vector stay in front. Exactly one line per `Nil` or `Value` leaf of the tree is appended, each leaf once, in the map's visiting order. A `Nil` leaf's line is its arrowed path; a `Value` leaf's line is `"<path> -> [ <a> :: <b> ]"` with both renderings truncated. The display length defaults to 20. |
| `KeyNodes.AbsoluteKeysToVec` | src/ds/key_node.rs:25-29 | Flattening from an empty vector and no root path gives one line per leaf, each rendered from the root. |
| `KeyNodes.NilLine` | src/ds/key_node.rs:46 | A `Nil` tree is one leaf, whose line is the path itself, or `""` at the root. |
| `KeyNodes.ValueLeafLine` | src/ds/key_node.rs:47-56 | A `Value(a, b)` tree is one leaf, whose line is the path with the two truncated renderings. |
| `KeyNodes.EmptyNodeLeaves` | src/ds/key_node.rs:57-65 | An empty `Node` has no leaf, so flattening it appends nothing. |
| `KeyNodes.NodeLeaves` | src/ds/key_node.rs:57-65 | The leaves of a `Node` are the leaves of its children, each with the child's key in front of its path. |
| `KeyNodes.NodeLeaf` | src/ds/key_node.rs:57-65 | One leaf at a time: a leaf of a `Node` is a leaf of the child under its first key, with that key removed from its path, and conversely. |
| `KeyNodes.DistinctCount` | src/ds/key_node.rs:57-65 | A sequence of distinct leaves that covers a set has exactly as many elements as the set, so the line count is the leaf count. |
| `KeyNodes.LeafLineUnderKey` | src/ds/key_node.rs:61 | A leaf of a child renders under the child's path (`"<prefix> -> <key>"`, or `" <key>"` at the root) as the matching leaf of the parent renders under the parent's path. |
| `KeyNodes.AppendLines` | src/ds/key_node.rs:58-64 | After one more child is flattened, the appended lines are still the lines of the visited leaves, in visiting order. |
| `KeyNodes.AppendVisited` | src/ds/key_node.rs:58-64 | After one more child is flattened, the visited leaves are still distinct and are exactly the leaves under the visited keys. |
| `Mismatches.New` | src/ds/mismatch.rs:11-17 | `l`, `r` and `u` go to the left-only, right-only and differing fields, in that order. |
| `Mismatches.IsNoMismatch` | src/lib.rs:17-25 | A result equals the all-`Nil` triple exactly when each of its three fields is `Nil`. |
| `Enums.Label` | src/enums.rs:21-30 | Each of the four kinds of difference has a non-empty label. |
| `Enums.LabelsDistinct` | src/enums.rs:21-30 | No two kinds of difference share a label. |
| `Enums.NewValue` | src/enums.rs:43-49 | `new_value(k, l, r)` builds a key-with-values entry with `l` on the left and `r` on the right. The reordered field list swaps nothing. |
| `Enums.NewKey` | src/enums.rs:50-52 | `new_key(k)` builds a bare-key entry holding `k`. |
| `Enums.GetKeyOfNew` | src/enums.rs:54-59 | `get_key` gives back the key each constructor was given. |
| `Enums.ToString` | src/enums.rs:62-74 | A bare key displays as exactly itself. Every entry's display starts with its key. A key-with-values display is 9 characters longer than its three parts together. |
| `Enums.ValueLineIsDisplay` | src/ds/key_node.rs:47-56 | The flattener's line for a `Value` leaf is the display of a key-with-values entry whose key is the arrowed path and whose values are the truncated renderings. |
| `Scenarios.NestedDiff` | src/lib.rs:74-147 | For the test's two documents, the three trees are exactly the expected ones. `b.c.f` and `b.c.h.j` are left-only; `b.c.g` and `b.c.h.k` are right-only; `b.c.e` differs as 5 against 6, and `b.c.h.i` as true against false. |
| `Scenarios.NoDiff` | src/lib.rs:149-185 | The test's document compared with an equal one reports three `Nil`s. |
| `Scenarios.CompareShape` | src/process.rs:10-30 | Two objects whose key sets split into the given shared and one-sided groups compare as the combination of those groups. |
| `Scenarios.OneSharedShape` | src/process.rs:10-41 | Two objects sharing one key with unequal scalars, each with one key of its own, give one `Nil` entry per side and one `Value`. |
| `Scenarios.TwoSharedShape` | src/process.rs:10-41 | Two objects sharing a differing scalar key and a key that differs in all three channels, each with one key of its own: the result has the expected three trees. |
| `Scenarios.InnerShape` | src/process.rs:8-43 | The shape of the test's `b.c` objects gives the expected three trees, whatever the keys and scalars are. |
| `Scenarios.OuterShape` | src/process.rs:8-43 | The shape of the test's whole documents puts the comparison of the `b.c` objects two levels down. The equal key `a` does not appear. |
| `Scenarios.SingleShared` | src/process.rs:17-27 | Two one-key objects over the same key compare as their values do, placed under that key. A `Nil` channel stays `Nil`. |

## Left out

- Input and output are not modelled: command-line parsing, file reading, JSON text parsing, buffered writing to stdout and process exit (src/main.rs, src/lib.rs). Their tests appear only as the scenarios above.
- src/constants.rs and the colour styling in `absolute_keys` are not modelled. Both only change how text looks on a terminal; the model treats styling as the identity.
- The `Error` enum of src/enums.rs is not modelled. It wraps error types of other crates.
- serde's `Value::to_string` is a parameter `render: Json -> string` of the flattener. Its output format belongs to another crate.
- Numbers are modelled as an integer or a real (`Int` / `Float`), compared by plain equality. serde's own number representation and float equality are not modelled.
- `HashMap` and `HashSet` iteration order is nondeterministic. The loops choose their next key arbitrarily (`:|`). `AbsoluteKeys` states its lines against a ghost visiting order `order`, which covers every leaf exactly once, instead of one fixed order.
- Arrays are compared as whole values by equality (src/process.rs:31-41); the code has no element-wise alignment of arrays, and neither has the model.
- `usize` display lengths are modelled as `nat`; no bound is modelled.
- Strings are sequences of characters. `truncate` counts Unicode scalar values (`char_indices`), as the model counts sequence elements; UTF-8 byte offsets are not modelled.
- `MatchJson`: the source's `a.get(&key).unwrap()` cannot fail, because the key is shared. The model indexes the maps directly.
- `Enums.Label`: the contract states only that labels are non-empty. Distinctness is `Enums.LabelsDistinct`; the four exact texts are in the function body only.
- `Enums.ToString`: for a key-with-values entry, the contract states the key prefix and the length, not the whole text. The template is tied to the flattener's line by `Enums.ValueLineIsDisplay`.
