/**
 * The comparison scenarios of the source's tests (src/lib.rs and src/main.rs), as lemmas
 * about `Compare`, which `MatchJson` computes.
 */
module Scenarios {
  import opened JsonValues
  import opened KeyNodes
  import opened Mismatches
  import opened Process
  import opened MapFacts
  import opened ComparatorProperties

  /** The innermost objects `h` of the two documents. */
  function H1(): Json { Object(map["i" := Bool(true), "j" := Bool(false)]) }
  function H2(): Json { Object(map["i" := Bool(false), "k" := Bool(false)]) }

  /** The objects under `b.c`. */
  function C1(): Json { Object(map["e" := Number(Int(5)), "f" := Number(Int(9)), "h" := H1()]["d" := Bool(true)]) }
  function C2(): Json { Object(map["e" := Number(Int(6)), "g" := Number(Int(0)), "h" := H2()]["d" := Bool(true)]) }

  /** The two whole documents of the nested-difference test (key order is immaterial in a map). */
  function Data1(): Json { Object(map["b" := Object(map["c" := C1()]), "a" := String("b")]) }
  function Data2(): Json { Object(map["b" := Object(map["c" := C2()]), "a" := String("b")]) }

  /** `t` placed under the single key `k`, or `Nil` when `t` is. */
  function Under(k: string, t: KeyNode): (r: KeyNode)
    ensures r == Nil <==> t == Nil
  {
    if t == Nil then Nil else Node(map[k := t])
  }

  /**
   * Two objects whose shared keys compare as `sub` and whose own keys are `onlyA` and
   * `onlyB` give these three channels.
   */
  lemma CompareShape(x: map<string, Json>, y: map<string, Json>, onlyA: set<string>, onlyB: set<string>, sub: map<string, Mismatch>)
    requires x.Keys == sub.Keys + onlyA && y.Keys == sub.Keys + onlyB
    requires sub.Keys !! onlyA && sub.Keys !! onlyB && onlyA !! onlyB
    requires forall k :: k in sub ==> sub[k] == Compare(x[k], y[k])
    ensures Compare(Object(x), Object(y)) == Mismatch(
      Collect(NilEntries(onlyA) + Differing(sub, LeftOnly)),
      Collect(NilEntries(onlyB) + Differing(sub, RightOnly)),
      Collect(Differing(sub, Both)))
  {
    assert x.Keys * y.Keys == sub.Keys;
    CompareObjects(x, y, sub);
    assert x.Keys - y.Keys == onlyA;
    assert y.Keys - x.Keys == onlyB;
  }

  /**
   * Two objects sharing one key `ki` with unequal non-object values, each with one key of
   * its own (`kj` on the left, `kk` on the right).
   */
  lemma OneSharedShape(x: map<string, Json>, y: map<string, Json>, ki: string, kj: string, kk: string, p1: Json, p2: Json)
    requires ki != kj && ki != kk && kj != kk
    requires x.Keys == {ki, kj} && y.Keys == {ki, kk}
    requires x[ki] == p1 && y[ki] == p2 && !p1.Object? && p1 != p2
    ensures Compare(Object(x), Object(y)) ==
      Mismatch(Node(map[kj := Nil]), Node(map[kk := Nil]), Node(map[ki := Value(p1, p2)]))
  {
    var mi := Mismatch(Nil, Nil, Value(p1, p2));
    assert map[ki := mi].Keys == {ki};
    CompareShape(x, y, {kj}, {kk}, map[ki := mi]);
    OneSharedCombined(ki, kj, kk, mi);
  }

  /** The three channels, collected, when the one shared key differs as `mi` does. */
  lemma OneSharedCombined(ki: string, kj: string, kk: string, mi: Mismatch)
    requires mi.leftOnlyKeys == Nil && mi.rightOnlyKeys == Nil && mi.keysInBoth != Nil
    ensures var sub := map[ki := mi];
      Mismatch(Collect(NilEntries({kj}) + Differing(sub, LeftOnly)),
        Collect(NilEntries({kk}) + Differing(sub, RightOnly)),
        Collect(Differing(sub, Both))) ==
      Mismatch(Node(map[kj := Nil]), Node(map[kk := Nil]), Node(map[ki := mi.keysInBoth]))
  {
    NilEntriesSingle(kj);
    NilEntriesSingle(kk);
    DifferingDropped(ki, mi, LeftOnly);
    DifferingDropped(ki, mi, RightOnly);
    DifferingKept(ki, mi, Both, mi.keysInBoth);
    UnionEmpty(map[kj := Nil]);
    UnionEmpty(map[kk := Nil]);
    CollectNonEmpty(map[kj := Nil], kj);
    CollectNonEmpty(map[kk := Nil], kk);
    CollectNonEmpty(map[ki := mi.keysInBoth], ki);
  }

  /**
   * Two objects sharing a key `ke` with unequal non-object values and a key `kh` whose values
   * compare as `mh` (differing in all three channels), each with one key of its own.
   */
  lemma TwoSharedShape(x: map<string, Json>, y: map<string, Json>, ke: string, kf: string, kg: string, kh: string,
                       ve1: Json, ve2: Json, mh: Mismatch)
    requires ke != kf && ke != kg && ke != kh && kf != kg && kf != kh && kg != kh
    requires x.Keys == {ke, kf, kh} && y.Keys == {ke, kg, kh}
    requires x[ke] == ve1 && y[ke] == ve2 && !ve1.Object? && ve1 != ve2
    requires Compare(x[kh], y[kh]) == mh
    requires mh.leftOnlyKeys != Nil && mh.rightOnlyKeys != Nil && mh.keysInBoth != Nil
    ensures Compare(Object(x), Object(y)) ==
      Mismatch(Node(map[kf := Nil, kh := mh.leftOnlyKeys]), Node(map[kg := Nil, kh := mh.rightOnlyKeys]),
        Node(map[ke := Value(ve1, ve2), kh := mh.keysInBoth]))
  {
    TwoSharedCompare(x, y, ke, kf, kg, kh, ve1, ve2, mh);
    TwoSharedCombined(ke, kf, kg, kh, Mismatch(Nil, Nil, Value(ve1, ve2)), mh);
  }

  lemma TwoSharedCompare(x: map<string, Json>, y: map<string, Json>, ke: string, kf: string, kg: string, kh: string,
                         ve1: Json, ve2: Json, mh: Mismatch)
    requires ke != kf && ke != kg && ke != kh && kf != kg && kf != kh && kg != kh
    requires x.Keys == {ke, kf, kh} && y.Keys == {ke, kg, kh}
    requires x[ke] == ve1 && y[ke] == ve2 && !ve1.Object? && ve1 != ve2
    requires Compare(x[kh], y[kh]) == mh
    ensures var sub := map[ke := Mismatch(Nil, Nil, Value(ve1, ve2)), kh := mh];
      Compare(Object(x), Object(y)) == Mismatch(
        Collect(NilEntries({kf}) + Differing(sub, LeftOnly)),
        Collect(NilEntries({kg}) + Differing(sub, RightOnly)),
        Collect(Differing(sub, Both)))
  {
    var sub := map[ke := Mismatch(Nil, Nil, Value(ve1, ve2)), kh := mh];
    assert sub.Keys == {ke, kh};
    CompareShape(x, y, {kf}, {kg}, sub);
  }

  /** The three channels, collected, for the results `me` (a differing value) and `mh` of two shared keys. */
  lemma TwoSharedCombined(ke: string, kf: string, kg: string, kh: string, me: Mismatch, mh: Mismatch)
    requires ke != kh && kf != kh && kg != kh
    requires me.leftOnlyKeys == Nil && me.rightOnlyKeys == Nil && me.keysInBoth != Nil
    requires mh.leftOnlyKeys != Nil && mh.rightOnlyKeys != Nil && mh.keysInBoth != Nil
    ensures var sub := map[ke := me, kh := mh];
      Mismatch(Collect(NilEntries({kf}) + Differing(sub, LeftOnly)),
        Collect(NilEntries({kg}) + Differing(sub, RightOnly)),
        Collect(Differing(sub, Both))) ==
      Mismatch(Node(map[kf := Nil, kh := mh.leftOnlyKeys]), Node(map[kg := Nil, kh := mh.rightOnlyKeys]),
        Node(map[ke := me.keysInBoth, kh := mh.keysInBoth]))
  {
    TwoSharedChannels(ke, kf, kg, kh, me, mh);
    CollectNonEmpty(map[kf := Nil, kh := mh.leftOnlyKeys], kh);
    CollectNonEmpty(map[kg := Nil, kh := mh.rightOnlyKeys], kh);
    CollectNonEmpty(map[ke := me.keysInBoth, kh := mh.keysInBoth], kh);
  }

  lemma TwoSharedChannels(ke: string, kf: string, kg: string, kh: string, me: Mismatch, mh: Mismatch)
    requires ke != kh && kf != kh && kg != kh
    requires me.leftOnlyKeys == Nil && me.rightOnlyKeys == Nil && me.keysInBoth != Nil
    requires mh.leftOnlyKeys != Nil && mh.rightOnlyKeys != Nil && mh.keysInBoth != Nil
    ensures NilEntries({kf}) + Differing(map[ke := me, kh := mh], LeftOnly) == map[kf := Nil, kh := mh.leftOnlyKeys]
    ensures NilEntries({kg}) + Differing(map[ke := me, kh := mh], RightOnly) == map[kg := Nil, kh := mh.rightOnlyKeys]
    ensures Differing(map[ke := me, kh := mh], Both) == map[ke := me.keysInBoth, kh := mh.keysInBoth]
  {
    assert NilEntries({kf}) + Differing(map[ke := me, kh := mh], LeftOnly) == map[kf := Nil, kh := mh.leftOnlyKeys] by {
      NilEntriesSingle(kf);
      DifferingUpdate(map[ke := me], kh, mh, LeftOnly);
      DifferingDropped(ke, me, LeftOnly);
      UnionSingle(map[kf := Nil], kh, mh.leftOnlyKeys);
    }
    assert NilEntries({kg}) + Differing(map[ke := me, kh := mh], RightOnly) == map[kg := Nil, kh := mh.rightOnlyKeys] by {
      NilEntriesSingle(kg);
      DifferingUpdate(map[ke := me], kh, mh, RightOnly);
      DifferingDropped(ke, me, RightOnly);
      UnionSingle(map[kg := Nil], kh, mh.rightOnlyKeys);
    }
    DifferingUpdate(map[ke := me], kh, mh, Both);
    DifferingKept(ke, me, Both, me.keysInBoth);
  }

  /**
   * The shape of the objects under `b.c`: an equal key `kd`, a differing scalar under `ke`, a
   * key of each side's own (`kf`, `kg`), and under `kh` two objects of the `OneSharedShape` form.
   */
  lemma InnerShape(kd: string, ke: string, kf: string, kg: string, kh: string, ki: string, kj: string, kk: string,
                   vd: Json, ve1: Json, ve2: Json, vf: Json, vg: Json, p1: Json, p2: Json, q1: Json, q2: Json)
    requires kd != ke && kd != kf && kd != kg && kd != kh
    requires ke != kf && ke != kg && ke != kh && kf != kg && kf != kh && kg != kh
    requires ki != kj && ki != kk && kj != kk
    requires !ve1.Object? && ve1 != ve2 && !p1.Object? && p1 != p2
    ensures Compare(
        Object(map[ke := ve1, kf := vf, kh := Object(map[ki := p1, kj := q1])][kd := vd]),
        Object(map[ke := ve2, kg := vg, kh := Object(map[ki := p2, kk := q2])][kd := vd])) ==
      Mismatch(Node(map[kf := Nil, kh := Node(map[kj := Nil])]), Node(map[kg := Nil, kh := Node(map[kk := Nil])]),
        Node(map[ke := Value(ve1, ve2), kh := Node(map[ki := Value(p1, p2)])]))
  {
    var h1, h2 := map[ki := p1, kj := q1], map[ki := p2, kk := q2];
    var x, y := map[ke := ve1, kf := vf, kh := Object(h1)], map[ke := ve2, kg := vg, kh := Object(h2)];
    TwoEntries(ki, kj, p1, q1);
    TwoEntries(ki, kk, p2, q2);
    OneSharedShape(h1, h2, ki, kj, kk, p1, p2);
    ThreeEntries(ke, kf, kh, ve1, vf, Object(h1));
    ThreeEntries(ke, kg, kh, ve2, vg, Object(h2));
    EqualEntryIgnored(x, y, kd, vd);
    TwoSharedShape(x, y, ke, kf, kg, kh, ve1, ve2, Compare(Object(h1), Object(h2)));
  }

  lemma TwoEntries<V>(a: string, b: string, u: V, v: V)
    requires a != b
    ensures var m := map[a := u, b := v];
      m.Keys == {a, b} && m[a] == u
  {
  }

  lemma ThreeEntries<V>(a: string, b: string, c: string, u: V, v: V, w: V)
    requires a != b && a != c && b != c
    ensures var m := map[a := u, b := v, c := w];
      m.Keys == {a, b, c} && m[a] == u && m[c] == w
  {
  }

  /**
   * The shape of the whole documents: an equal key `ka`, and under `kb` then `kc` the two
   * objects `c1`, `c2`, whose comparison is placed two levels down.
   */
  lemma OuterShape(ka: string, kb: string, kc: string, va: Json, c1: Json, c2: Json)
    requires ka != kb
    ensures var m := Compare(c1, c2);
      Compare(Object(map[kb := Object(map[kc := c1])][ka := va]), Object(map[kb := Object(map[kc := c2])][ka := va])) ==
      Mismatch(Under(kb, Under(kc, m.leftOnlyKeys)), Under(kb, Under(kc, m.rightOnlyKeys)), Under(kb, Under(kc, m.keysInBoth)))
  {
    EqualEntryIgnored(map[kb := Object(map[kc := c1])], map[kb := Object(map[kc := c2])], ka, va);
    SingleShared(kc, c1, c2);
    SingleShared(kb, Object(map[kc := c1]), Object(map[kc := c2]));
  }

  /** Two one-key objects over the same key compare as their values do, one level down. */
  lemma SingleShared(k: string, u: Json, v: Json)
    ensures var m := Compare(u, v);
      Compare(Object(map[k := u]), Object(map[k := v])) ==
        Mismatch(Under(k, m.leftOnlyKeys), Under(k, m.rightOnlyKeys), Under(k, m.keysInBoth))
  {
    var m := Compare(u, v);
    var sub := map[k := m];
    var none: set<string> := {};
    CompareShape(map[k := u], map[k := v], none, none, sub);
    assert NilEntries(none) == map[] by {
      EmptyMap(NilEntries(none));
    }
    EmptyUnion(Differing(sub, LeftOnly));
    EmptyUnion(Differing(sub, RightOnly));
    CollectSingle(k, m, LeftOnly);
    CollectSingle(k, m, RightOnly);
    CollectSingle(k, m, Both);
  }

  lemma CollectSingle(k: string, m: Mismatch, c: Channel)
    ensures Collect(Differing(map[k := m], c)) == Under(k, Part(m, c))
  {
    if Part(m, c) == Nil {
      DifferingDropped(k, m, c);
    } else {
      DifferingKept(k, m, c, Part(m, c));
      assert k in Differing(map[k := m], c);
    }
  }

  lemma NilEntriesSingle(k: string)
    ensures NilEntries({k}) == map[k := Nil]
  {
    SameEntries(NilEntries({k}), map[k := Nil]);
  }

  /** A single child whose channel is `Nil` contributes nothing to that channel. */
  lemma DifferingDropped(k: string, m: Mismatch, c: Channel)
    requires Part(m, c) == Nil
    ensures Differing(map[k := m], c) == map[]
  {
    EmptyMap(Differing(map[k := m], c));
  }

  /** A single child whose channel is not `Nil` contributes that channel under its key. */
  lemma DifferingKept(k: string, m: Mismatch, c: Channel, t: KeyNode)
    requires Part(m, c) == t && t != Nil
    ensures Differing(map[k := m], c) == map[k := t]
  {
    SameEntries(Differing(map[k := m], c), map[k := t]);
  }

  lemma CollectNonEmpty(m: map<string, KeyNode>, k: string)
    requires k in m
    ensures Collect(m) == Node(m)
  {
  }

  /**
   * The nested-difference test: the two documents differ in `b.c.e` (5 against 6) and in
   * `b.c.h.i` (true against false), only the left has `b.c.f` and `b.c.h.j`, only the right
   * has `b.c.g` and `b.c.h.k`; `a` and `b.c.d` are equal and appear nowhere.
   */
  lemma NestedDiff()
    ensures Compare(Data1(), Data2()) == New(
      Node(map["b" := Node(map["c" := Node(map["f" := Nil, "h" := Node(map["j" := Nil])])])]),
      Node(map["b" := Node(map["c" := Node(map["g" := Nil, "h" := Node(map["k" := Nil])])])]),
      Node(map["b" := Node(map["c" := Node(map[
        "e" := Value(Number(Int(5)), Number(Int(6))),
        "h" := Node(map["i" := Value(Bool(true), Bool(false))])])])]))
  {
    assert "a"[0] != "b"[0];
    assert "d"[0] != "e"[0] && "d"[0] != "f"[0] && "d"[0] != "g"[0] && "d"[0] != "h"[0];
    assert "e"[0] != "f"[0] && "e"[0] != "g"[0] && "e"[0] != "h"[0];
    assert "f"[0] != "g"[0] && "f"[0] != "h"[0] && "g"[0] != "h"[0];
    assert "i"[0] != "j"[0] && "i"[0] != "k"[0] && "j"[0] != "k"[0];
    InnerShape("d", "e", "f", "g", "h", "i", "j", "k", Bool(true), Number(Int(5)), Number(Int(6)),
      Number(Int(9)), Number(Int(0)), Bool(true), Bool(false), Bool(false), Bool(false));
    OuterShape("a", "b", "c", String("b"), C1(), C2());
  }

  /** The no-difference test: a document compared with an equal one reports nothing. */
  lemma NoDiff()
    ensures Compare(Data1(), Data1()) == New(Nil, Nil, Nil)
  {
    CompareReflexive(Data1());
  }
}
