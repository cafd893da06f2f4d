/** Option type shared by the colour, document and layer models. */
module Wrappers {
  datatype Option<+T> = None | Some(value: T)
}

/**
 * Sequence operations the source relies on: JavaScript's `Array.prototype.indexOf`,
 * `splice(i, 1)` and the "take a node out of whatever list holds it" step of the DOM.
 */
module Sequences {

  /** No element occurs twice. */
  ghost predicate NoDup<T>(s: seq<T>) {
    forall i, j :: 0 <= i < j < |s| ==> s[i] != s[j]
  }

  /** `s.indexOf(x)`: the first position of `x` in `s`, or -1 when it does not occur. */
  function IndexOf<T(==)>(s: seq<T>, x: T): (i: int)
    ensures -1 <= i < |s|
    ensures i == -1 <==> x !in s
    ensures 0 <= i ==> s[i] == x && x !in s[..i]
  {
    if |s| == 0 then -1
    else if s[0] == x then 0
    else
      var j := IndexOf(s[1..], x);
      assert s[1..][..j + 1] == s[1..j + 2] by { }
      if j < 0 then -1 else j + 1
  }

  /** `s.splice(i, 1)`: the entry at `i` is dropped and the others keep their order. */
  function RemoveAt<T>(s: seq<T>, i: nat): (r: seq<T>)
    requires i < |s|
    ensures |r| == |s| - 1
    ensures forall k :: 0 <= k < i ==> r[k] == s[k]
    ensures forall k :: i <= k < |r| ==> r[k] == s[k + 1]
  {
    s[..i] + s[i + 1..]
  }

  /** `s.splice(s.indexOf(x), 1)` guarded by `x` being listed; an unlisted `x` leaves `s` as is. */
  function SpliceOut<T(==)>(s: seq<T>, x: T): (r: seq<T>)
    ensures x !in s ==> r == s
    ensures x in s ==> |r| == |s| - 1
    ensures forall k :: 0 <= k < |r| ==> r[k] in s
  {
    var i := IndexOf(s, x);
    if i < 0 then s else RemoveAt(s, i)
  }

  /** Splicing out drops exactly the first occurrence of `x`; every other entry keeps its order. */
  lemma SpliceOutKeepsOrder<T>(s: seq<T>, x: T)
    requires x in s
    ensures var i := IndexOf(s, x); var r := SpliceOut(s, x);
      && s[i] == x && x !in s[..i]
      && (forall k :: 0 <= k < i ==> r[k] == s[k])
      && (forall k :: i <= k < |r| ==> r[k] == s[k + 1])
    ensures s[0] == x ==> SpliceOut(s, x) == s[1..]
  {
    if s[0] == x {
      assert IndexOf(s, x) == 0 by { assert x in s[..1]; }
    }
  }

  /** Every occurrence of `x` taken out of `s`, the rest in order. */
  function Detach<T(==)>(s: seq<T>, x: T): (r: seq<T>)
    ensures forall k :: 0 <= k < |r| ==> r[k] in s && r[k] != x
    ensures forall k :: 0 <= k < |s| && s[k] != x ==> s[k] in r
    ensures |r| <= |s|
    ensures x !in s ==> r == s
  {
    if |s| == 0 then []
    else if s[0] == x then Detach(s[1..], x)
    else [s[0]] + Detach(s[1..], x)
  }

  /** `s` with every element of `d` taken out, the rest in order. */
  function Without<T(==)>(s: seq<T>, d: set<T>): (r: seq<T>)
    ensures forall k :: 0 <= k < |r| ==> r[k] in s && r[k] !in d
    ensures forall k :: 0 <= k < |s| && s[k] !in d ==> s[k] in r
    ensures |r| <= |s|
  {
    if |s| == 0 then []
    else if s[0] in d then Without(s[1..], d)
    else [s[0]] + Without(s[1..], d)
  }

  /** Taking out elements that do not occur changes nothing. */
  lemma {:induction false} WithoutNothing<T>(s: seq<T>, d: set<T>)
    requires forall k :: 0 <= k < |s| ==> s[k] !in d
    ensures Without(s, d) == s
  {
    if |s| > 0 {
      WithoutNothing(s[1..], d);
      assert [s[0]] + s[1..] == s;
    }
  }

  /** Taking out `a`, then `b`, is taking out both at once. */
  lemma {:induction false} WithoutTwice<T>(s: seq<T>, a: set<T>, b: set<T>)
    ensures Without(Without(s, a), b) == Without(s, a + b)
  {
    if |s| > 0 {
      WithoutTwice(s[1..], a, b);
      if s[0] !in a {
        assert Without(s, a) == [s[0]] + Without(s[1..], a);
        assert Without(s, a)[1..] == Without(s[1..], a);
      }
    }
  }

  /** Filtering a concatenation filters each part. */
  lemma {:induction false} WithoutConcat<T>(s: seq<T>, t: seq<T>, d: set<T>)
    ensures Without(s + t, d) == Without(s, d) + Without(t, d)
  {
    if |s| > 0 {
      assert (s + t)[1..] == s[1..] + t;
      WithoutConcat(s[1..], t, d);
    } else {
      assert s + t == t;
    }
  }

  /** Detaching one element is filtering by the singleton set. */
  lemma {:induction false} DetachIsWithout<T>(s: seq<T>, x: T)
    ensures Detach(s, x) == Without(s, {x})
  {
    if |s| > 0 {
      DetachIsWithout(s[1..], x);
    }
  }

  /** The last element of a non-empty sequence. */
  function Last<T>(s: seq<T>): T
    requires |s| > 0
  {
    s[|s| - 1]
  }

  /** Taking `x` out first changes nothing when `x` is taken out anyway. */
  lemma WithoutDetached<T>(s: seq<T>, x: T, d: set<T>)
    requires x in d
    ensures Without(Detach(s, x), d) == Without(s, d)
  {
    DetachIsWithout(s, x);
    WithoutTwice(s, {x}, d);
    assert {x} + d == d;
  }

  /** Taking out a set `d` that holds the last entry `x` and nothing else of `s + [x]` leaves `s`. */
  lemma WithoutDropsLast<T>(s: seq<T>, x: T, d: set<T>)
    requires x in d && forall k :: 0 <= k < |s| ==> s[k] !in d
    ensures Without(s + [x], d) == s
  {
    WithoutConcat(s, [x], d);
    WithoutNothing(s, d);
    assert Without([x], d) == [];
  }

  /** In a duplicate-free sequence ending in `x`, taking `x` out drops just that last entry. */
  lemma {:induction false} DetachLast<T>(s: seq<T>, x: T)
    requires NoDup(s) && |s| > 0 && Last(s) == x
    ensures Detach(s, x) == s[..|s| - 1]
  {
    if |s| > 1 {
      assert s[0] != x by { assert s[0] != s[|s| - 1]; }
      assert NoDup(s[1..]) by {
        forall i, j | 0 <= i < j < |s[1..]| ensures s[1..][i] != s[1..][j] { assert s[i + 1] != s[j + 1]; }
      }
      DetachLast(s[1..], x);
      assert s[..|s| - 1] == [s[0]] + s[1..][..|s[1..]| - 1];
    }
  }

  /** Taking out the single occurrence of `x` from a duplicate-free `s` is `splice(indexOf(x), 1)`. */
  lemma {:induction false} DetachIsSplice<T>(s: seq<T>, x: T)
    requires NoDup(s) && x in s
    ensures Detach(s, x) == RemoveAt(s, IndexOf(s, x))
  {
    NoDupTail(s);
    if s[0] == x {
      assert x !in s[1..];
      assert IndexOf(s, x) == 0 && Detach(s, x) == Detach(s[1..], x) == s[1..];
      assert RemoveAt(s, 0) == s[1..];
    } else {
      DetachIsSplice(s[1..], x);
      var j := IndexOf(s[1..], x);
      assert IndexOf(s, x) == j + 1;
      assert Detach(s, x) == [s[0]] + Detach(s[1..], x);
      RemoveAtAfterHead(s, j);
    }
  }

  /** The tail of a duplicate-free sequence is duplicate-free and lacks the head. */
  lemma NoDupTail<T>(s: seq<T>)
    requires NoDup(s) && |s| > 0
    ensures NoDup(s[1..]) && s[0] !in s[1..]
  {
    forall i, j | 0 <= i < j < |s[1..]| ensures s[1..][i] != s[1..][j] { assert s[i + 1] != s[j + 1]; }
    forall k | 0 <= k < |s[1..]| ensures s[1..][k] != s[0] { assert s[k + 1] != s[0]; }
  }

  /** Splicing out a position after the head keeps the head in front. */
  lemma RemoveAtAfterHead<T>(s: seq<T>, j: nat)
    requires j + 1 < |s|
    ensures [s[0]] + RemoveAt(s[1..], j) == RemoveAt(s, j + 1)
  {
    assert s[..j + 1] == [s[0]] + s[1..][..j];
    assert s[j + 2..] == s[1..][j + 1..];
  }

  /** Removing elements never creates duplicates. */
  lemma {:induction false} DetachNoDup<T>(s: seq<T>, x: T)
    requires NoDup(s)
    ensures NoDup(Detach(s, x))
  {
    if |s| > 0 {
      assert NoDup(s[1..]) by {
        forall i, j | 0 <= i < j < |s[1..]| ensures s[1..][i] != s[1..][j] { assert s[i + 1] != s[j + 1]; }
      }
      DetachNoDup(s[1..], x);
      if s[0] != x {
        assert s[0] !in s[1..] by {
          forall k | 0 <= k < |s[1..]| ensures s[1..][k] != s[0] { assert s[k + 1] != s[0]; }
        }
        var r := Detach(s[1..], x);
        assert s[0] !in r;
        forall i, j | 0 <= i < j < |[s[0]] + r| ensures ([s[0]] + r)[i] != ([s[0]] + r)[j] {
          if i == 0 { assert ([s[0]] + r)[j] == r[j - 1]; assert r[j - 1] in r; }
        }
      }
    }
  }

  /** Splicing out the first occurrence of `x` from a duplicate-free sequence leaves no `x`
      and keeps every other element and the absence of duplicates. */
  lemma RemoveAtIndexOf<T>(s: seq<T>, x: T)
    requires NoDup(s) && x in s
    ensures var r := RemoveAt(s, IndexOf(s, x));
      && NoDup(r) && x !in r && (forall y :: y != x ==> (y in r <==> y in s))
  {
    DetachIsSplice(s, x);
    DetachNoDup(s, x);
  }
}

/** The value types `UIRect` and `UISize` used by the layer and the tab bar controller. */
module Geometry {
  datatype UIRect = UIRect(x: real, y: real, width: real, height: real)

  /** `UIRectZero`. */
  const UIRectZero: UIRect := UIRect(0.0, 0.0, 0.0, 0.0)

  datatype UISize = UISize(width: real, height: real)
}
