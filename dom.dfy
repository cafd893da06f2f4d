/**
 * The part of the browser document the layer core drives, as an abstract tree: element nodes
 * with an ordered child list, a tag and a map of symbolic attribute and style values.
 * `appendChild` and `insertBefore` MOVE a node: it leaves whatever list held it first.
 */
module Dom {
  import opened Wrappers
  import opened Sequences
  import opened Colors

  type NodeId = nat

  datatype Tag = Svg | G | Rect | ClipPath | Div

  /** Attributes and style properties the layer sets. */
  datatype Attr =
    | Fill | Width | Height | Transform | Rx | Ry | ClipPathRef | Id
    | StyleDisplay | StyleOpacity | StyleFillOpacity | StyleStrokeWidth | StyleStroke
    | StyleBorderRadius | StyleBoxShadow

  /** Attribute values, kept symbolic rather than as formatted strings. */
  datatype Value =
    | Transparent
    | Paint(color: UIColor)
    | Number(v: real)
    | Translation(tx: int, ty: int)
    | DisplayNone
    | Url(uuid: nat)
    | Ident(uuid: nat)
    | Shadow(dx: real, dy: real, blur: real, color: UIColor)

  /** A style map with property `k` set to `v`, or removed when there is no value. */
  function WithStyle(m: map<Attr, Value>, k: Attr, v: Option<Value>): map<Attr, Value> {
    match v
    case Some(x) => m[k := x]
    case None => m - {k}
  }

  type ChildMap = map<NodeId, seq<NodeId>>
  type AttrMap = map<NodeId, map<Attr, Value>>

  /** The attributes of `n` in `a`; none for a node without an entry. */
  function AttrsIn(a: AttrMap, n: NodeId): map<Attr, Value> {
    if n in a then a[n] else map[]
  }

  /** One `setAttribute`-style write: attribute `key` of `node` becomes `val`. */
  datatype AttrWrite = AttrWrite(node: NodeId, key: Attr, val: Value)

  function Write(a: AttrMap, w: AttrWrite): AttrMap {
    a[w.node := AttrsIn(a, w.node)[w.key := w.val]]
  }

  /** The writes of `ws` done in order. */
  function WriteAll(a: AttrMap, ws: seq<AttrWrite>): AttrMap
    decreases |ws|
  {
    if ws == [] then a else Write(WriteAll(a, ws[..|ws| - 1]), ws[|ws| - 1])
  }

  /** Writing `s` then `t` is writing `s + t`. */
  lemma {:induction false} WriteAllConcat(a: AttrMap, s: seq<AttrWrite>, t: seq<AttrWrite>)
    ensures WriteAll(a, s + t) == WriteAll(WriteAll(a, s), t)
    decreases |t|
  {
    if t == [] {
      assert s + t == s;
    } else {
      assert (s + t)[..|s + t| - 1] == s + t[..|t| - 1];
      WriteAllConcat(a, s, t[..|t| - 1]);
    }
  }

  /** The writes of one and two entries, spelt out. */
  lemma WriteAllShort(a: AttrMap, w1: AttrWrite, w2: AttrWrite)
    ensures WriteAll(a, [w1]) == Write(a, w1)
    ensures WriteAll(a, [w1, w2]) == Write(Write(a, w1), w2)
  {
    assert [w1, w2][..1] == [w1];
    assert [w1][..0] == [];
  }

  /** Two neighbouring writes of different attributes can trade places, wherever they sit. */
  lemma SwapWrites(a: AttrMap, s: seq<AttrWrite>, w1: AttrWrite, w2: AttrWrite, t: seq<AttrWrite>)
    requires w1.key != w2.key
    ensures WriteAll(a, s + [w1, w2] + t) == WriteAll(a, s + [w2, w1] + t)
  {
    WriteAllConcat(a, s + [w1, w2], t);
    WriteAllConcat(a, s + [w2, w1], t);
    WriteAllConcat(a, s, [w1, w2]);
    WriteAllConcat(a, s, [w2, w1]);
    var b: AttrMap := WriteAll(a, s);
    WriteAllShort(b, w1, w2);
    WriteAllShort(b, w2, w1);
    WriteCommute(b, w1, w2);
  }

  /** Two writes of different attributes commute. */
  lemma WriteCommute(b: AttrMap, w1: AttrWrite, w2: AttrWrite)
    requires w1.key != w2.key
    ensures Write(Write(b, w1), w2) == Write(Write(b, w2), w1)
  {
    var u1: map<Attr, Value>, u2: map<Attr, Value> := AttrsIn(b, w1.node)[w1.key := w1.val], AttrsIn(b, w2.node)[w2.key := w2.val];
    if w1.node == w2.node {
      var n := w1.node;
      assert Write(Write(b, w1), w2) == b[n := u1[w2.key := w2.val]];
      assert Write(Write(b, w2), w1) == b[n := u2[w1.key := w1.val]];
      assert u1[w2.key := w2.val] == u2[w1.key := w1.val];
    } else {
      assert Write(Write(b, w1), w2) == b[w1.node := u1][w2.node := u2];
      assert Write(Write(b, w2), w1) == b[w2.node := u2][w1.node := u1];
      assert b[w1.node := u1][w2.node := u2] == b[w2.node := u2][w1.node := u1];
    }
  }

  function KidsIn(m: ChildMap, n: NodeId): seq<NodeId> {
    if n in m then m[n] else []
  }

  /** Every list with `c` taken out of it. */
  function Detached(m: ChildMap, c: NodeId): (r: ChildMap)
    ensures r.Keys == m.Keys
    ensures forall n :: n in m ==> r[n] == Detach(m[n], c)
  {
    map n | n in m :: Detach(m[n], c)
  }

  /** `p.appendChild(c)`: `c` leaves its list and becomes the last child of `p`. */
  function Appended(m: ChildMap, p: NodeId, c: NodeId): (r: ChildMap)
    ensures p in r && |r[p]| > 0 && Last(r[p]) == c
  {
    Detached(m, c)[p := Detach(KidsIn(m, p), c) + [c]]
  }

  /** `p.insertBefore(c, p.children[0])`: `c` leaves its list and becomes the first child of `p`. */
  function Prepended(m: ChildMap, p: NodeId, c: NodeId): (r: ChildMap)
    ensures p in r && |r[p]| > 0 && r[p][0] == c
  {
    Detached(m, c)[p := [c] + Detach(KidsIn(m, p), c)]
  }

  /** After `appendChild` or `insertBefore`, any other list only lost the moved node. */
  lemma KidsAfterMove(m: ChildMap, p: NodeId, c: NodeId, n: NodeId)
    ensures KidsIn(Appended(m, p, c), n) == if n == p then Detach(KidsIn(m, p), c) + [c] else Detach(KidsIn(m, n), c)
    ensures KidsIn(Prepended(m, p, c), n) == if n == p then [c] + Detach(KidsIn(m, p), c) else Detach(KidsIn(m, n), c)
  {
  }

  /** Filling a new, unattached node `s` with `a` then `b` leaves it holding exactly `[a, b]`,
      takes `a` and `b` out of every other list, and leaves `s` in no list. */
  lemma {:induction false} FillNewNode(m: ChildMap, s: NodeId, a: NodeId, b: NodeId)
    requires s != a && s != b && a != b
    requires KidsIn(m, s) == [] && forall n :: s !in KidsIn(m, n)
    ensures var r := Appended(Appended(m, s, a), s, b);
      && KidsIn(r, s) == [a, b]
      && (forall n :: n != s ==> KidsIn(r, n) == Detach(Detach(KidsIn(m, n), a), b))
      && (forall n :: s !in KidsIn(r, n))
  {
    var m1 := Appended(m, s, a);
    var r := Appended(m1, s, b);
    KidsAfterMove(m, s, a, s);
    KidsAfterMove(m1, s, b, s);
    forall n ensures (n != s ==> KidsIn(r, n) == Detach(Detach(KidsIn(m, n), a), b)) && s !in KidsIn(r, n) {
      KidsAfterMove(m, s, a, n);
      KidsAfterMove(m1, s, b, n);
      if n != s {
        assert s !in KidsIn(m, n);
      }
    }
  }

  /** Appending a node that was already taken out of every list is the same as appending it. */
  lemma AppendAfterDetach(m: ChildMap, p: NodeId, c: NodeId)
    ensures Appended(Detached(m, c), p, c) == Appended(m, p, c)
  {
    var d := Detached(m, c);
    assert Detached(d, c) == d;
    assert Detach(KidsIn(d, p), c) == Detach(KidsIn(m, p), c);
  }

  /**
   * Every list except those of the nodes in `except` only lost the nodes in `lost`, keeping
   * the order of the rest: the frame of a sequence of moves.
   */
  ghost predicate OnlyLost(m0: ChildMap, m1: ChildMap, except: set<NodeId>, lost: set<NodeId>) {
    forall n {:trigger KidsIn(m1, n)} :: n !in except ==> KidsIn(m1, n) == Without(KidsIn(m0, n), lost)
  }

  /** Nothing changed is nothing lost. */
  lemma OnlyLostSame(m: ChildMap)
    ensures OnlyLost(m, m, {}, {})
  {
    forall n ensures KidsIn(m, n) == Without(KidsIn(m, n), {}) {
      WithoutNothing(KidsIn(m, n), {});
    }
  }

  /** Two steps of moves lose what either step lost, and touch what either touched. */
  lemma OnlyLostThen(m0: ChildMap, m1: ChildMap, m2: ChildMap, e1: set<NodeId>, l1: set<NodeId>, e2: set<NodeId>, l2: set<NodeId>)
    requires OnlyLost(m0, m1, e1, l1) && OnlyLost(m1, m2, e2, l2)
    ensures OnlyLost(m0, m2, e1 + e2, l1 + l2)
  {
    forall n | n !in e1 + e2 ensures KidsIn(m2, n) == Without(KidsIn(m0, n), l1 + l2) {
      WithoutTwice(KidsIn(m0, n), l1, l2);
    }
  }

  /** `appendChild` and `insertBefore` change the parent's list and take the node out of the others;
      `removeChild` only takes it out. */
  lemma MovesOnlyLose(m: ChildMap, p: NodeId, c: NodeId)
    ensures OnlyLost(m, Appended(m, p, c), {p}, {c})
    ensures OnlyLost(m, Prepended(m, p, c), {p}, {c})
    ensures OnlyLost(m, Detached(m, c), {}, {c})
  {
    forall n ensures KidsIn(Detached(m, c), n) == Without(KidsIn(m, n), {c}) {
      DetachIsWithout(KidsIn(m, n), c);
    }
    forall n | n != p
      ensures KidsIn(Appended(m, p, c), n) == Without(KidsIn(m, n), {c})
      ensures KidsIn(Prepended(m, p, c), n) == Without(KidsIn(m, n), {c})
    {
      KidsAfterMove(m, p, c, n);
      DetachIsWithout(KidsIn(m, n), c);
    }
  }

  /** Taking `c` out of every list first changes nothing when `c` is among the nodes lost afterwards. */
  lemma DetachedThenLost(m0: ChildMap, m: ChildMap, c: NodeId, e: set<NodeId>, l: set<NodeId>)
    requires c in l && OnlyLost(Detached(m0, c), m, e, l)
    ensures OnlyLost(m0, m, e, l)
  {
    MovesOnlyLose(m0, 0, c);
    OnlyLostThen(m0, Detached(m0, c), m, {}, {c}, e, l);
    assert {} + e == e && {c} + l == l;
  }

  /** Lists that did not change lost nothing. */
  lemma KeptOnlyLoses(m0: ChildMap, m1: ChildMap, except: set<NodeId>)
    requires forall n :: n !in except ==> KidsIn(m1, n) == KidsIn(m0, n)
    ensures OnlyLost(m0, m1, except, {})
  {
    forall n | n !in except ensures KidsIn(m1, n) == Without(KidsIn(m0, n), {}) {
      WithoutNothing(KidsIn(m0, n), {});
    }
  }

  /** Emptying one list touches that list only. */
  lemma ClearedOnlyLoses(m: ChildMap, n: NodeId)
    ensures OnlyLost(m, m[n := []], {n}, {})
  {
    forall o | o != n ensures KidsIn(m[n := []], o) == Without(KidsIn(m, o), {}) {
      WithoutNothing(KidsIn(m, o), {});
    }
  }

  /** Every node tagged in `t0` carries the same tag in `t1`. */
  ghost predicate TagsKept(t0: map<NodeId, Tag>, t1: map<NodeId, Tag>) {
    forall n :: n in t0 ==> n in t1 && t1[n] == t0[n]
  }

  /** Tags kept over two steps are kept over both. */
  lemma TagsKeptThen(t0: map<NodeId, Tag>, t1: map<NodeId, Tag>, t2: map<NodeId, Tag>)
    requires TagsKept(t0, t1) && TagsKept(t1, t2)
    ensures TagsKept(t0, t2)
  {
  }

  /**
   * The document's tree shape: only allocated nodes (ids below `count`) appear, no list holds
   * a node twice, and a node sits in at most one parent's list.
   */
  ghost predicate WellFormed(m: ChildMap, count: nat) {
    && (forall n :: n in m ==> n < count)
    && (forall p, c :: p in m && c in m[p] ==> c < count)
    && (forall p :: p in m ==> NoDup(m[p]))
    && (forall p, q, c :: p in m && q in m && c in m[p] && c in m[q] ==> p == q)
  }

  /** Taking a node out of every list keeps the tree well formed, and leaves it in none. */
  lemma {:induction false} DetachedWellFormed(m: ChildMap, count: nat, c: NodeId)
    requires WellFormed(m, count)
    ensures WellFormed(Detached(m, c), count)
    ensures forall n :: n in Detached(m, c) ==> c !in Detached(m, c)[n]
  {
    var r := Detached(m, c);
    forall p | p in r ensures NoDup(r[p]) { DetachNoDup(m[p], c); }
  }

  /** `appendChild` keeps the tree well formed: the moved node ends up in exactly one list. */
  lemma {:induction false} AppendedWellFormed(m: ChildMap, count: nat, p: NodeId, c: NodeId)
    requires WellFormed(m, count) && p < count && c < count
    ensures WellFormed(Appended(m, p, c), count)
    ensures forall n :: n in Appended(m, p, c) && n != p ==> c !in Appended(m, p, c)[n]
  {
    var d := Detached(m, c);
    DetachedWellFormed(m, count, c);
    var l := Detach(KidsIn(m, p), c);
    DetachNoDup(KidsIn(m, p), c);
    assert c !in l;
    var r := Appended(m, p, c);
    assert r == d[p := l + [c]];
    assert NoDup(l + [c]) by {
      forall i, j | 0 <= i < j < |l + [c]| ensures (l + [c])[i] != (l + [c])[j] {
        if j == |l| { assert (l + [c])[i] == l[i]; assert l[i] in l; }
      }
    }
    forall q, x | q in r && x in r[q] ensures x < count {
      if q == p && x in l { assert x in KidsIn(m, p); }
    }
    forall q1, q2, x | q1 in r && q2 in r && x in r[q1] && x in r[q2] ensures q1 == q2 {
      if x != c {
        assert x in KidsIn(m, q1) && x in KidsIn(m, q2);
      }
    }
  }

  /** `insertBefore` at the front keeps the tree well formed. */
  lemma {:induction false} PrependedWellFormed(m: ChildMap, count: nat, p: NodeId, c: NodeId)
    requires WellFormed(m, count) && p < count && c < count
    ensures WellFormed(Prepended(m, p, c), count)
  {
    var d := Detached(m, c);
    DetachedWellFormed(m, count, c);
    var l := Detach(KidsIn(m, p), c);
    DetachNoDup(KidsIn(m, p), c);
    assert c !in l;
    var r := Prepended(m, p, c);
    assert r == d[p := [c] + l];
    assert NoDup([c] + l) by {
      forall i, j | 0 <= i < j < |[c] + l| ensures ([c] + l)[i] != ([c] + l)[j] {
        if i == 0 { assert ([c] + l)[j] == l[j - 1]; assert l[j - 1] in l; }
      }
    }
    forall q, x | q in r && x in r[q] ensures x < count {
      if q == p && x in l { assert x in KidsIn(m, p); }
    }
    forall q1, q2, x | q1 in r && q2 in r && x in r[q1] && x in r[q2] ensures q1 == q2 {
      if x != c {
        assert x in KidsIn(m, q1) && x in KidsIn(m, q2);
      }
    }
  }

  /** Nodes other than the two whose attributes were replaced keep theirs. */
  lemma ElsewhereAfterTwo(a0: AttrMap, x: NodeId, u: map<Attr, Value>, y: NodeId, v: map<Attr, Value>)
    ensures forall n :: n != x && n != y ==> AttrsIn(a0[x := u][y := v], n) == AttrsIn(a0, n)
  {
  }

  /** Nodes other than the three whose attributes were replaced keep theirs. */
  lemma ElsewhereAfterThree(a0: AttrMap, x: NodeId, u: map<Attr, Value>, y: NodeId, v: map<Attr, Value>,
                            z: NodeId, w: map<Attr, Value>)
    ensures forall n :: n != x && n != y && n != z ==> AttrsIn(a0[x := u][y := v][z := w], n) == AttrsIn(a0, n)
  {
  }

  /** The next node to be allocated has no list and is in none. */
  lemma FreshNode(m: ChildMap, count: nat)
    requires WellFormed(m, count)
    ensures count !in m && KidsIn(m, count) == []
    ensures forall n :: n in m ==> count !in m[n]
  {
  }

  /** Appending a node that is in no list only extends the parent's list. */
  lemma AppendFresh(m: ChildMap, p: NodeId, c: NodeId)
    requires forall n :: c !in KidsIn(m, n)
    ensures Appended(m, p, c) == m[p := KidsIn(m, p) + [c]]
  {
    var d := Detached(m, c);
    forall n | n in m ensures d[n] == m[n] { assert c !in KidsIn(m, n); }
    assert d == m;
    assert c !in KidsIn(m, p);
  }

  /** Inserting a node that is in no list at the front only extends the parent's list. */
  lemma PrependFresh(m: ChildMap, p: NodeId, c: NodeId)
    requires forall n :: c !in KidsIn(m, n)
    ensures Prepended(m, p, c) == m[p := [c] + KidsIn(m, p)]
  {
    var d := Detached(m, c);
    forall n | n in m ensures d[n] == m[n] { assert c !in KidsIn(m, n); }
    assert d == m;
    assert c !in KidsIn(m, p);
  }

  /**
   * The next node, `count`, made and filled with `a` then `b`: it holds exactly `[a, b]`, is
   * in no list, and every other list only lost `a` and `b`.
   */
  lemma {:induction false} FreshFilled(m0: ChildMap, count: nat, a: NodeId, b: NodeId)
    requires WellFormed(m0, count) && a < count && b < count && a != b
    ensures var r := Appended(Appended(m0[count := []], count, a), count, b);
      && KidsIn(r, count) == [a, b]
      && (forall n :: count !in KidsIn(r, n))
      && OnlyLost(m0, r, {count}, {a, b})
  {
    var m := m0[count := []];
    FreshNode(m0, count);
    assert forall n :: count !in KidsIn(m, n);
    FillNewNode(m, count, a, b);
    var r := Appended(Appended(m, count, a), count, b);
    forall n | n !in {count} ensures KidsIn(r, n) == Without(KidsIn(m0, n), {a, b}) {
      var k := KidsIn(m0, n);
      assert KidsIn(m, n) == k;
      DetachIsWithout(k, a);
      DetachIsWithout(Detach(k, a), b);
      WithoutTwice(k, {a}, {b});
      assert {a} + {b} == {a, b};
    }
  }

  /** The node `s`, in no list, put at the front of `h`'s list. */
  lemma HostedFirst(m0: ChildMap, r: ChildMap, s: NodeId, h: NodeId, lost: set<NodeId>)
    requires h != s && OnlyLost(m0, r, {s}, lost)
    ensures var r2 := r[h := [s] + KidsIn(r, h)];
      && OnlyLost(m0, r2, {s, h}, lost)
      && KidsIn(r2, h) == [s] + Without(KidsIn(m0, h), lost)
      && KidsIn(r2, s) == KidsIn(r, s)
  {
    var r2 := r[h := [s] + KidsIn(r, h)];
    assert KidsIn(r, h) == Without(KidsIn(m0, h), lost);
    forall n | n !in {s, h} ensures KidsIn(r2, n) == Without(KidsIn(m0, n), lost) {
      assert KidsIn(r2, n) == KidsIn(r, n);
    }
  }

  /** Lists that kept their children, or belong to nodes allocated since and are empty, lost nothing. */
  lemma FreshListsKept(m0: ChildMap, count: nat, m1: ChildMap, except: set<NodeId>)
    requires WellFormed(m0, count)
    requires forall n: NodeId :: n !in except ==> KidsIn(m1, n) == KidsIn(m0, n) || (count <= n && KidsIn(m1, n) == [])
    ensures OnlyLost(m0, m1, except, {})
  {
    forall n | n !in except ensures KidsIn(m1, n) == Without(KidsIn(m0, n), {}) {
      WithoutNothing(KidsIn(m0, n), {});
      if count <= n { assert n !in m0; }
    }
  }

  /**
   * A list `x` emptied and refilled with the new node `f`, then moved to the end of `s`'s list:
   * only `s` and `x` get new lists, which lose or gain `x` alone elsewhere.
   */
  lemma {:induction false} RefilledMovedLast(m0: ChildMap, count: nat, s: NodeId, x: NodeId)
    requires WellFormed(m0, count) && s != x && s < count && x < count
    ensures var r := Appended(m0[count := []][x := [count]], s, x);
      && OnlyLost(m0, r, {s, x}, {x})
      && KidsIn(r, s) == Without(KidsIn(m0, s), {x}) + [x]
      && KidsIn(r, x) == [count]
  {
    var f := count;
    var m1 := m0[f := []][x := [f]];
    var r := Appended(m1, s, x);
    assert OnlyLost(m0, m1, {x}, {}) by {
      FreshListsKept(m0, count, m1, {x});
    }
    assert OnlyLost(m1, r, {s}, {x}) by { MovesOnlyLose(m1, s, x); }
    OnlyLostThen(m0, m1, r, {x}, {}, {s}, {x});
    assert {x} + {s} == {s, x} && {} + {x} == {x};
    KidsAfterMove(m1, s, x, s);
    KidsAfterMove(m1, s, x, x);
    DetachIsWithout(KidsIn(m0, s), x);
    assert Detach([f], x) == [f];
  }

  /** In a well-formed tree no list but its parent's holds a node. */
  lemma OnlyParent(m: ChildMap, count: nat, p: NodeId, c: NodeId)
    requires WellFormed(m, count) && p in m && c in m[p]
    ensures NoDup(m[p])
    ensures forall n :: n in m && n != p ==> c !in m[n]
  {
  }

  /** Appending a node that is already its parent's last child changes nothing. */
  lemma {:induction false} AppendLastIsNoop(m: ChildMap, count: nat, p: NodeId, c: NodeId)
    requires WellFormed(m, count) && |KidsIn(m, p)| > 0 && Last(KidsIn(m, p)) == c
    ensures Appended(m, p, c) == m
  {
    assert p in m && c in m[p];
    OnlyParent(m, count, p, c);
    LastIsOnlyMove(m, p, c);
  }

  lemma {:induction false} LastIsOnlyMove(m: ChildMap, p: NodeId, c: NodeId)
    requires p in m && NoDup(m[p]) && |m[p]| > 0 && Last(m[p]) == c
    requires forall n :: n in m && n != p ==> c !in m[n]
    ensures Appended(m, p, c) == m
  {
    DetachLast(m[p], c);
    assert m[p][..|m[p]| - 1] + [c] == m[p];
    var d := Detached(m, c);
    forall n | n in m && n != p ensures d[n] == m[n] {
      assert c !in m[n];
    }
    assert d[p := m[p]] == m;
  }

  /** In a well-formed tree, taking `c` out of its parent's list is the same as detaching it
      everywhere: no other list held it. */
  lemma {:induction false} RemovedFromParent(m: ChildMap, count: nat, p: NodeId, c: NodeId)
    requires WellFormed(m, count) && p in m && c in m[p]
    ensures Detached(m, c) == m[p := Detach(m[p], c)]
    ensures WellFormed(m[p := Detach(m[p], c)], count)
  {
    OnlyParent(m, count, p, c);
    var d := Detached(m, c);
    var e := m[p := Detach(m[p], c)];
    forall n | n in m ensures d[n] == e[n] {
      if n != p { assert c !in m[n]; }
    }
    assert d.Keys == e.Keys;
    assert d == e;
    DetachedWellFormed(m, count, c);
  }

  /** The document: node allocation, the child lists, tags and attributes, and a counter
      that hands out layer identities. */
  class Document {
    var count: nat
    var layerCount: nat
    var tags: map<NodeId, Tag>
    var children: ChildMap
    var attrs: AttrMap

    ghost predicate Valid()
      reads this`children, this`count, this`tags
    {
      && WellFormed(children, count)
      && (forall n :: n in tags ==> n < count)
      && (forall n: nat :: n < count ==> n in tags)
    }

    function Kids(n: NodeId): seq<NodeId>
      reads this`children
    {
      KidsIn(children, n)
    }

    function Attrs(n: NodeId): map<Attr, Value>
      reads this`attrs
    {
      AttrsIn(attrs, n)
    }

    /** Nodes are only ever added: the counter never goes back and every node keeps its tag. */
    ghost predicate Extends(count0: nat, tags0: map<NodeId, Tag>)
      reads this`count, this`tags
    {
      count0 <= count && TagsKept(tags0, tags)
    }

    /** Nodes `a` and `b` exist and carry the same tag. */
    ghost predicate SameTag(a: NodeId, b: NodeId)
      reads this`tags
    {
      a in tags && b in tags && tags[a] == tags[b]
    }

    /** The value of attribute `k` on `n`, if set. */
    function Get(n: NodeId, k: Attr): Option<Value>
      reads this`attrs
    {
      if k in Attrs(n) then Some(Attrs(n)[k]) else None
    }

    constructor ()
      ensures Valid() && count == 0 && layerCount == 0
      ensures children == map[] && attrs == map[] && tags == map[]
    {
      count, layerCount := 0, 0;
      tags, children, attrs := map[], map[], map[];
    }

    /** `document.createElementNS`: a node no list holds yet. */
    method CreateElement(tag: Tag) returns (n: NodeId)
      requires Valid()
      modifies this`count, this`tags, this`children, this`attrs
      ensures Valid()
      ensures n == old(count) && count == old(count) + 1 && layerCount == old(layerCount)
      ensures tags == old(tags)[n := tag]
      ensures children == old(children)[n := []]
      ensures attrs == old(attrs)[n := map[]]
    {
      n := count;
      tags := tags[n := tag];
      children := children[n := []];
      attrs := attrs[n := map[]];
      count := count + 1;
    }

    /** `src.cloneNode(true)` of a childless node: a new node with the same tag and attributes. */
    method CloneNode(src: NodeId) returns (n: NodeId)
      requires Valid() && src < count
      modifies this`count, this`tags, this`children, this`attrs
      ensures Valid()
      ensures n == old(count) && count == old(count) + 1
      ensures tags == old(tags)[n := old(tags)[src]]
      ensures children == old(children)[n := []]
      ensures attrs == old(attrs)[n := AttrsIn(old(attrs), src)]
    {
      n := count;
      tags := tags[n := tags[src]];
      children := children[n := []];
      attrs := attrs[n := Attrs(src)];
      count := count + 1;
    }

    /** `p.appendChild(c)`. */
    method AppendChild(p: NodeId, c: NodeId)
      requires Valid() && p < count && c < count
      modifies this`children
      ensures Valid()
      ensures children == Appended(old(children), p, c)
    {
      AppendedWellFormed(children, count, p, c);
      children := Appended(children, p, c);
    }

    /** `p.insertBefore(c, p.children[0])`. */
    method InsertAsFirstChild(p: NodeId, c: NodeId)
      requires Valid() && p < count && c < count && |Kids(p)| > 0
      modifies this`children
      ensures Valid()
      ensures children == Prepended(old(children), p, c)
    {
      PrependedWellFormed(children, count, p, c);
      children := Prepended(children, p, c);
    }

    /** `p.removeChild(c)` for a child of `p`. */
    method RemoveChild(p: NodeId, c: NodeId)
      requires Valid() && c in Kids(p)
      modifies this`children
      ensures Valid()
      ensures children == old(children)[p := Detach(KidsIn(old(children), p), c)]
      ensures children == Detached(old(children), c)
    {
      RemovedFromParent(children, count, p, c);
      children := children[p := Detach(children[p], c)];
    }

    /** `n.innerHTML = ""`: every child of `n` leaves it. */
    method ClearChildren(n: NodeId)
      requires Valid() && n < count
      modifies this`children
      ensures Valid()
      ensures children == old(children)[n := []]
    {
      children := children[n := []];
    }

    /** `n.setAttribute(k, v)`, or `n.style.k = v`. */
    method SetAttribute(n: NodeId, k: Attr, v: Value)
      modifies this`attrs
      ensures attrs == old(attrs)[n := AttrsIn(old(attrs), n)[k := v]]
    {
      attrs := attrs[n := Attrs(n)[k := v]];
    }

    /** `n.style.k = null`: the property is no longer set. */
    method RemoveAttribute(n: NodeId, k: Attr)
      modifies this`attrs
      ensures attrs == old(attrs)[n := AttrsIn(old(attrs), n) - {k}]
    {
      attrs := attrs[n := Attrs(n) - {k}];
    }

    /** A style property set to a value, or cleared (`= null`) when there is none. */
    method SetStyle(n: NodeId, k: Attr, v: Option<Value>)
      modifies this`attrs
      ensures attrs == old(attrs)[n := WithStyle(AttrsIn(old(attrs), n), k, v)]
      ensures Get(n, k) == v
    {
      match v
      case Some(x) => SetAttribute(n, k, x);
      case None => RemoveAttribute(n, k);
    }

    /** A fresh layer identity, standing for the source's random `_uuid`. */
    method NewLayerId() returns (u: nat)
      modifies this`layerCount
      ensures u == old(layerCount) && layerCount == old(layerCount) + 1
    {
      u := layerCount;
      layerCount := layerCount + 1;
    }
  }
}
