/**
 * `CALayer`: a node of the layer tree. It keeps an ordered list of sublayers and a back
 * reference to its superlayer, stores visual properties, and on demand creates its document
 * container (an `svg` element when it has a host view, a `g` group otherwise) holding its
 * background rect, its content group, its border group and its clip path.
 */
module CoreGraphics {
  import opened Wrappers
  import opened Sequences
  import opened Geometry
  import opened Colors
  import opened Dom

  /** The host view. Only its document element is used by the layer. */
  class UIView {
    const domElement: NodeId

    constructor (domElement: NodeId)
      ensures this.domElement == domElement
    {
      this.domElement := domElement;
    }
  }

  /** The background fill for a background colour: no colour means "transparent", never omitted. */
  function FillFor(c: Option<UIColor>): (v: Value)
    ensures v == Transparent <==> c.None?
    ensures c.Some? ==> v == Paint(c.value)
  {
    match c
    case None => Transparent
    case Some(color) => Paint(color)
  }

  /** `resetBorder` shows the container exactly when the border has a positive width and a colour. */
  predicate BorderShown(width: real, color: Option<UIColor>) {
    width > 0.0 && color.Some?
  }

  /**
   * The host's box shadow as `resetShadow` computes it: present only for a positive opacity and
   * a colour whose alpha is positive, with that colour's alpha scaled by the opacity.
   */
  function ShadowFor(opacity: real, color: Option<UIColor>, offset: UISize, radius: real): (s: Option<Value>)
    ensures s.Some? <==> opacity > 0.0 && color.Some? && color.value.a > 0.0
    ensures s.Some? ==>
      && s.value.Shadow? && s.value.dx == offset.width && s.value.dy == offset.height
      && s.value.blur == radius
    ensures s.Some? ==>
      && s.value.color.a == color.value.a * opacity && s.value.color.a > 0.0
      && s.value.color.r == color.value.r && s.value.color.g == color.value.g
      && s.value.color.b == color.value.b
  {
    if opacity > 0.0 && color.Some? && color.value.a > 0.0 then
      assert color.value.a * opacity > 0.0;
      Some(Shadow(offset.width, offset.height, radius, color.value.ColorWithAlphaComponent(opacity)))
    else
      None
  }
  /**
   * With the defaults (opacity 0, offset (0, -3), radius 3) a shadow colour alone draws no
   * shadow; an opacity of 0.5 with black then draws a half-transparent black shadow 3 points up.
   */
  lemma DefaultShadowNeedsOpacity()
    ensures ShadowFor(0.0, Some(Black), UISize(0.0, -3.0), 3.0).None?
    ensures ShadowFor(0.5, Some(Black), UISize(0.0, -3.0), 3.0)
      == Some(Shadow(0.0, -3.0, 3.0, UIColor(0.0, 0.0, 0.0, 0.5)))
    ensures ShadowFor(0.5, Some(Clear), UISize(0.0, -3.0), 3.0).None?
  {
  }


  /**
   * `x.toFixed()`: the nearest integer, a tie going away from zero (the digits are formed from
   * the magnitude and the sign is put back).
   */
  function RoundToInteger(x: real): (n: int)
    ensures x >= 0.0 ==> x - 0.5 < n as real <= x + 0.5
    ensures x < 0.0 ==> x - 0.5 <= n as real < x + 0.5
  {
    if x >= 0.0 then (x + 0.5).Floor else -((-x + 0.5).Floor)
  }

  /** Attributes `m` with the width and height of the rectangle `r`. */
  function Sized(m: map<Attr, Value>, r: UIRect): map<Attr, Value> {
    m[Width := Number(r.width)][Height := Number(r.height)]
  }

  /** Attributes `m` with the translation to the rounded origin of `r`, then its size. */
  function Placed(m: map<Attr, Value>, r: UIRect): map<Attr, Value> {
    Sized(m[Transform := Translation(RoundToInteger(r.x), RoundToInteger(r.y))], r)
  }

  /**
   * The hierarchy invariant over a set of layers: a layer's superlayer lists it, every listed
   * layer names the lister as its superlayer, and no list holds a layer twice.
   */
  ghost predicate TreeConsistent(U: set<CALayer>)
    reads U`superlayer, U`sublayers
  {
    && (forall l :: l in U && l.superlayer != null ==> l.superlayer in U && l in l.superlayer.sublayers)
    && (forall p, l :: p in U && l in p.sublayers ==> l in U && l.superlayer == p)
    && (forall p :: p in U ==> NoDup(p.sublayers))
  }

  /** In a consistent tree a layer is listed by at most one layer, its superlayer. */
  lemma OneParent(U: set<CALayer>, l: CALayer, p: CALayer, q: CALayer)
    requires TreeConsistent(U) && p in U && q in U
    requires l in p.sublayers && l in q.sublayers
    ensures p == q && l.superlayer == p
  {
    assert l.superlayer == p;
    assert l.superlayer == q;
  }

  /**
   * The container's list after the child's container and then the border group are appended
   * to it: the list without those two, followed by them.
   */
  lemma {:induction false} NestedKids(k: seq<NodeId>, c: NodeId, border: NodeId)
    requires c != border
    ensures Detach(Detach(k, c) + [c], border) + [border] == Without(k, {c, border}) + [c, border]
  {
    DetachIsWithout(k, c);
    DetachIsWithout(Detach(k, c) + [c], border);
    WithoutConcat(Detach(k, c), [c], {border});
    WithoutTwice(k, {c}, {border});
    assert Without([c], {border}) == [c] by { WithoutNothing([c], {border}); }
    assert {c} + {border} == {c, border};
  }

  /**
   * The lists the `frame` setter leaves, from the lists `m0` it started with, when the
   * materialisation before its document steps left `m1` having lost only `moves` outside
   * `lists`: the clip path `clip` gains the new node `count1`, the border group `border` holds
   * only the new node `count1 + 1`, the container `svg` keeps its list, and every other list
   * still only lost `moves`.
   */
  lemma FrameRefilled(m0: ChildMap, m1: ChildMap, m: ChildMap, count1: nat,
                      svg: NodeId, clip: NodeId, border: NodeId, lists: set<NodeId>, moves: set<NodeId>)
    requires WellFormed(m1, count1) && OnlyLost(m0, m1, lists, moves)
    requires clip != border && svg != clip && svg != border && svg < count1 && clip < count1 && border < count1
    requires m == m1[count1 := []][clip := KidsIn(m1, clip) + [count1]][count1 + 1 := []][border := [count1 + 1]]
    ensures OnlyLost(m0, m, lists + {clip, border}, moves)
    ensures KidsIn(m, svg) == KidsIn(m1, svg)
    ensures KidsIn(m, clip) == KidsIn(m1, clip) + [count1]
    ensures clip !in lists ==> KidsIn(m, clip) == Without(KidsIn(m0, clip), moves) + [count1]
    ensures KidsIn(m, border) == [count1 + 1]
  {
    FreshListsKept(m1, count1, m, {clip, border});
    OnlyLostThen(m0, m1, m, lists, moves, {clip, border}, {});
    assert moves + {} == moves;
  }

  /** The four elements every layer creates up front: a clip path, a background rect, and the
      content and border groups, all new, distinct, childless, without attributes and in no list. */
  method CreateLayerElements(doc: Document) returns (clip: NodeId, bg: NodeId, content: NodeId, border: NodeId)
    requires doc.Valid()
    modifies doc`count, doc`tags, doc`children, doc`attrs
    ensures doc.Valid() && doc.count == old(doc.count) + 4
    ensures clip == old(doc.count) && bg == clip + 1 && content == clip + 2 && border == clip + 3
    ensures doc.tags == old(doc.tags)[clip := ClipPath][bg := Rect][content := G][border := G]
    ensures doc.children == old(doc.children)[clip := []][bg := []][content := []][border := []]
    ensures doc.attrs == old(doc.attrs)[clip := map[]][bg := map[]][content := map[]][border := map[]]
    ensures forall n :: doc.Kids(n) == old(doc.Kids(n))
    ensures forall n :: clip !in doc.Kids(n) && bg !in doc.Kids(n) && content !in doc.Kids(n) && border !in doc.Kids(n)
  {
    clip := doc.CreateElement(ClipPath);
    bg := doc.CreateElement(Rect);
    content := doc.CreateElement(G);
    border := doc.CreateElement(G);
  }

  class CALayer {
    const doc: Document
    /** Stands for the random `_uuid`; names the clip path. */
    const uuid: nat
    const clipPathElement: NodeId
    const bgElement: NodeId
    const contentElement: NodeId
    const borderElement: NodeId
    /** `_svgElement`: the container, absent until the layer is materialised. */
    var svgElement: Option<NodeId>
    /** `_view`. */
    var ownView: UIView?
    var frame: UIRect
    var hidden: bool
    var cornerRadius: real
    var borderWidth: real
    var borderColor: Option<UIColor>
    var superlayer: CALayer?
    var sublayers: seq<CALayer>
    var backgroundColor: Option<UIColor>
    var opacity: real
    var masksToBounds: bool
    var shadowColor: Option<UIColor>
    var shadowOpacity: real
    var shadowOffset: UISize
    var shadowRadius: real

    /** The layer's own elements are distinct nodes of its document, as are its container and host. */
    ghost predicate Valid()
      reads this`svgElement, this`ownView, doc`count, doc`tags, doc`children
    {
      && doc.Valid()
      && clipPathElement < doc.count && bgElement < doc.count
      && contentElement < doc.count && borderElement < doc.count
      && (svgElement.Some? ==> svgElement.value < doc.count)
      && (ownView != null ==> ownView.domElement < doc.count)
      && Distinct()
    }

    /** The four elements, and the container once made, are five different nodes. */
    ghost predicate Distinct()
      reads this`svgElement
    {
      && clipPathElement != bgElement && clipPathElement != contentElement
      && clipPathElement != borderElement && bgElement != contentElement
      && bgElement != borderElement && contentElement != borderElement
      && (svgElement.Some? ==>
            && svgElement.value != clipPathElement && svgElement.value != bgElement
            && svgElement.value != contentElement && svgElement.value != borderElement)
    }

    /** A bare layer with the documented defaults and four new elements that are childless, have
        no attributes and sit in no list; every existing node keeps its children and attributes. */
    constructor (doc: Document)
      requires doc.Valid()
      modifies doc`count, doc`tags, doc`children, doc`attrs, doc`layerCount
      ensures Valid() && this.doc == doc
      ensures svgElement.None? && ownView == null && superlayer == null && sublayers == []
      ensures frame == UIRectZero && !hidden && cornerRadius == 0.0
      ensures borderWidth == 0.0 && borderColor.None? && backgroundColor.None?
      ensures opacity == 1.0 && !masksToBounds
      ensures shadowColor.None? && shadowOpacity == 0.0
      ensures shadowOffset == UISize(0.0, -3.0) && shadowRadius == 3.0
      ensures uuid == old(doc.layerCount) && doc.layerCount == old(doc.layerCount) + 1
      ensures doc.count == old(doc.count) + 4
      ensures clipPathElement == old(doc.count) && bgElement == old(doc.count) + 1
      ensures contentElement == old(doc.count) + 2 && borderElement == old(doc.count) + 3
      ensures doc.tags
              == old(doc.tags)[clipPathElement := ClipPath][bgElement := Rect][contentElement := G][borderElement := G]
      ensures doc.children
              == old(doc.children)[clipPathElement := []][bgElement := []][contentElement := []][borderElement := []]
      ensures doc.attrs
              == old(doc.attrs)[clipPathElement := map[]][bgElement := map[]][contentElement := map[]][borderElement := map[]]
      ensures doc.Kids(clipPathElement) == [] && doc.Kids(bgElement) == []
      ensures doc.Kids(contentElement) == [] && doc.Kids(borderElement) == []
      ensures forall n :: doc.Kids(n) == old(doc.Kids(n))
      ensures forall n ::
        && clipPathElement !in doc.Kids(n) && bgElement !in doc.Kids(n)
        && contentElement !in doc.Kids(n) && borderElement !in doc.Kids(n)
    {
      this.doc := doc;
      var u := doc.NewLayerId();
      var clip, bg, content, border := CreateLayerElements(doc);
      uuid := u;
      clipPathElement, bgElement, contentElement, borderElement := clip, bg, content, border;
      svgElement := None;
      ownView := null;
      frame := UIRectZero;
      hidden := false;
      cornerRadius := 0.0;
      borderWidth := 0.0;
      borderColor := None;
      superlayer := null;
      sublayers := [];
      backgroundColor := None;
      opacity := 1.0;
      masksToBounds := false;
      shadowColor := None;
      shadowOpacity := 0.0;
      shadowOffset := UISize(0.0, -3.0);
      shadowRadius := 3.0;
    }

    /**
     * The `view` getter. With a superlayer it answers that superlayer's OWN `_view`: one level
     * up only, without looking further up the chain, and ignoring this layer's own `_view`.
     */
    function View(): (v: UIView?)
      reads this, superlayer
      ensures superlayer != null ==> v == superlayer.ownView
      ensures superlayer == null ==> v == ownView
    {
      if superlayer != null then superlayer.ownView else ownView
    }

    /**
     * The getter looks one level up only: under a superlayer that hosts no view a layer reports
     * none, even when a layer further up hosts one, and a layer's own view is ignored while it
     * has a superlayer.
     */
    static lemma ViewLooksOneLevelUp(c: CALayer, p: CALayer, g: CALayer, v: UIView)
      requires c.superlayer == p && p.superlayer == g && p.ownView == null && g.ownView == v
      ensures c.View() == null && p.View() == v
      ensures c.ownView != null ==> c.View() != c.ownView
    {
    }

    /** The `view` setter: only `_view` changes, so a root layer now reports the new view, and so
        does every layer whose superlayer is this one. */
    method SetView(value: UIView?)
      requires Valid()
      requires value != null ==> value.domElement < doc.count
      modifies this`ownView
      ensures Valid() && ownView == value
      ensures superlayer == null ==> View() == value
      ensures forall l: CALayer :: l.superlayer == this ==> l.View() == value
    {
      ownView := value;
    }

    /** A layer stays valid while the document only grows, here from `count0` nodes. */
    lemma ValidAsDocGrows(count0: nat)
      requires doc.Valid() && count0 <= doc.count && Distinct()
      requires clipPathElement < count0 && bgElement < count0 && contentElement < count0 && borderElement < count0
      requires svgElement.Some? ==> svgElement.value < count0
      requires ownView != null ==> ownView.domElement < count0
      ensures Valid()
    {
    }

    /** The host element, as a set: empty for a layer without a view. */
    function Hosts(): set<NodeId>
      reads this`ownView
    {
      if ownView == null then {} else {ownView.domElement}
    }

    /** The lists a first materialisation writes: the new container's and the host's. */
    function MaterialiseLists(bare: bool): set<NodeId>
      reads this`svgElement, this`ownView
      requires svgElement.Some?
    {
      if bare then {svgElement.value} + Hosts() else {}
    }

    /** The nodes a first materialisation moves into the new container. */
    function MaterialiseMoves(bare: bool): set<NodeId> {
      if bare then {bgElement, contentElement} else {}
    }

    /** The container's children once materialised: the background then the content in a
        container just made, the list held in `m0` otherwise. */
    function ContainerStart(m0: ChildMap, bare: bool): seq<NodeId>
      reads this`svgElement
      requires svgElement.Some?
    {
      if bare then [bgElement, contentElement] else KidsIn(m0, svgElement.value)
    }

    /** The background's attributes once materialised: a first materialisation re-applies the fill. */
    function BgStart(a0: AttrMap, bare: bool): map<Attr, Value>
      reads this`backgroundColor
    {
      if bare then AttrsIn(a0, bgElement)[Fill := FillFor(backgroundColor)] else AttrsIn(a0, bgElement)
    }

    /** The container's attributes once materialised: a new hosted container is sized to the
        frame, a new nested one has none. */
    function SvgStart(a0: AttrMap, bare: bool): map<Attr, Value>
      reads this`svgElement, this`ownView, this`frame
      requires svgElement.Some?
    {
      if !bare then AttrsIn(a0, svgElement.value)
      else if ownView != null then Sized(map[], frame)
      else map[]
    }

    /**
     * What `createSVGElement` leaves in the child lists `m` and attributes `a`, from the lists
     * `m0` and attributes `a0` it started with; `bare` says whether there was no container yet.
     * A new container holds the background then the content, which left every other list; a
     * hosted one is first in the host's list. The background's fill is re-applied; no other
     * attribute changes. An existing container leaves everything as it was.
     */
    ghost predicate MaterialisedIn(m: ChildMap, a: AttrMap, m0: ChildMap, a0: AttrMap, bare: bool)
      reads this`svgElement, this`ownView, this`backgroundColor, this`frame
      requires svgElement.Some?
    {
      && KidsIn(m, svgElement.value) == ContainerStart(m0, bare)
      && OnlyLost(m0, m, MaterialiseLists(bare), MaterialiseMoves(bare))
      && (bare && ownView != null ==>
            KidsIn(m, ownView.domElement)
            == [svgElement.value] + Without(KidsIn(m0, ownView.domElement), MaterialiseMoves(bare)))
      && (!bare ==> m == m0 && a == a0)
      && AttrsIn(a, bgElement) == BgStart(a0, bare)
      && AttrsIn(a, svgElement.value) == SvgStart(a0, bare)
      && (forall n :: n != svgElement.value && n != bgElement ==> AttrsIn(a, n) == AttrsIn(a0, n))
    }

    /** Writes the fill the background colour calls for (`this.backgroundColor = this.backgroundColor`). */
    method ApplyBackgroundFill()
      requires Valid()
      modifies doc`attrs
      ensures Valid()
      ensures doc.attrs == old(doc.attrs)[bgElement := AttrsIn(old(doc.attrs), bgElement)[Fill := FillFor(backgroundColor)]]
    {
      doc.SetAttribute(bgElement, Fill, FillFor(backgroundColor));
    }

    /**
     * `createSVGElement`: a no-op once the container exists. Otherwise it creates the
     * container (an `svg` for a hosted layer, a `g` for a nested one), re-applies the
     * background fill and puts the background then the content inside it. A hosted
     * container is sized to the frame and becomes the host element's first child.
     */
    method CreateSVGElement()
      requires Valid()
      modifies this`svgElement, doc`count, doc`tags, doc`children, doc`attrs
      ensures Valid() && svgElement.Some?
      ensures doc.Extends(old(doc.count), old(doc.tags))
      ensures old(svgElement).Some? ==> svgElement == old(svgElement) && unchanged(doc)
      ensures old(svgElement).None? ==>
        && svgElement == Some(old(doc.count)) && doc.count == old(doc.count) + 1
        && doc.tags == old(doc.tags)[svgElement.value := if ownView != null then Svg else G]
      ensures MaterialisedIn(doc.children, doc.attrs, old(doc.children), old(doc.attrs), old(svgElement).None?)
    {
      if svgElement.Some? {
        OnlyLostSame(doc.children);
        return;
      }
      if ownView != null {
        MaterialiseHosted();
      } else {
        MaterialiseNested();
      }
    }

    /** A new container holding, in order, the background then the content. */
    method MakeContainer(tag: Tag) returns (s: NodeId)
      requires Valid() && svgElement.None?
      modifies this`svgElement, doc`count, doc`tags, doc`children, doc`attrs
      ensures Valid() && svgElement == Some(s) && s == old(doc.count)
      ensures doc.count == old(doc.count) + 1
      ensures doc.tags == old(doc.tags)[s := tag]
      ensures doc.children
              == Appended(Appended(old(doc.children)[s := []], s, bgElement), s, contentElement)
      ensures doc.attrs
              == old(doc.attrs)[s := map[]][bgElement := AttrsIn(old(doc.attrs), bgElement)[Fill := FillFor(backgroundColor)]]
    {
      s := NewContainer(tag);
      ApplyBackgroundFill();
      FillContainer(s);
    }

    /** `document.createElementNS` for the container, recorded as `_svgElement`. */
    method NewContainer(tag: Tag) returns (s: NodeId)
      requires Valid() && svgElement.None?
      modifies this`svgElement, doc`count, doc`tags, doc`children, doc`attrs
      ensures Valid() && svgElement == Some(s) && s == old(doc.count)
      ensures doc.count == old(doc.count) + 1
      ensures doc.tags == old(doc.tags)[s := tag]
      ensures doc.children == old(doc.children)[s := []]
      ensures doc.attrs == old(doc.attrs)[s := map[]]
    {
      s := doc.CreateElement(tag);
      svgElement := Some(s);
    }

    /** Puts the background then the content into the container `s`. */
    method FillContainer(s: NodeId)
      requires Valid() && svgElement == Some(s)
      modifies doc`children
      ensures Valid()
      ensures doc.children == Appended(Appended(old(doc.children), s, bgElement), s, contentElement)
    {
      doc.AppendChild(s, bgElement);
      doc.AppendChild(s, contentElement);
    }

    /** The hosted branch: an `svg` sized to the frame, put first in the host element. */
    method MaterialiseHosted()
      requires Valid() && svgElement.None? && ownView != null
      modifies this`svgElement, doc`count, doc`tags, doc`children, doc`attrs
      ensures Valid() && svgElement == Some(old(doc.count))
      ensures doc.count == old(doc.count) + 1
      ensures doc.tags == old(doc.tags)[svgElement.value := Svg]
      ensures MaterialisedIn(doc.children, doc.attrs, old(doc.children), old(doc.attrs), true)
    {
      var host := ownView.domElement;
      ghost var m0: ChildMap, a0: AttrMap, count0 := doc.children, doc.attrs, doc.count;
      FreshFilled(m0, count0, bgElement, contentElement);
      var s := MakeContainer(Svg);
      ghost var m1: ChildMap, a1: AttrMap := doc.children, doc.attrs;
      SetSize(s);
      AttachFirst(host, s);
      HostedIn(m0, a0, count0, m1, a1, doc.children, doc.attrs);
    }

    /** The steps of the hosted branch put together: `m1`, `a1` are what the new container
        left, from `m0`, `a0` with `count0` nodes, and `m`, `a` what sizing it and putting it
        first in the host left. */
    lemma HostedIn(m0: ChildMap, a0: AttrMap, count0: nat, m1: ChildMap, a1: AttrMap, m: ChildMap, a: AttrMap)
      requires Distinct() && svgElement == Some(count0) && ownView != null
      requires WellFormed(m0, count0) && bgElement < count0 && contentElement < count0
      requires ownView.domElement < count0
      requires m1 == Appended(Appended(m0[count0 := []], count0, bgElement), count0, contentElement)
      requires m == m1[ownView.domElement := [count0] + KidsIn(m1, ownView.domElement)]
      requires a1 == a0[count0 := map[]][bgElement := AttrsIn(a0, bgElement)[Fill := FillFor(backgroundColor)]]
      requires a == a1[count0 := Sized(AttrsIn(a1, count0), frame)]
      ensures MaterialisedIn(m, a, m0, a0, true)
    {
      var s, host := count0, ownView.domElement;
      FreshFilled(m0, count0, bgElement, contentElement);
      HostedFirst(m0, m1, s, host, {bgElement, contentElement});
      assert {s, host} == MaterialiseLists(true);
      ElsewhereAfterThree(a0, s, map[], bgElement, AttrsIn(a0, bgElement)[Fill := FillFor(backgroundColor)],
        s, SvgStart(a0, true));
    }

    /** `appendChild` into an empty host, `insertBefore` its first child otherwise: either way
        the node `s`, which no list holds, becomes the host's first child. */
    method AttachFirst(host: NodeId, s: NodeId)
      requires Valid() && host < doc.count && s < doc.count
      requires forall n :: s !in doc.Kids(n)
      modifies doc`children
      ensures Valid()
      ensures doc.children == old(doc.children)[host := [s] + KidsIn(old(doc.children), host)]
    {
      ghost var m: ChildMap := doc.children;
      forall n ensures s !in KidsIn(m, n) { assert KidsIn(m, n) == doc.Kids(n); }
      if |doc.Kids(host)| == 0 {
        AppendFresh(m, host, s);
        doc.AppendChild(host, s);
        assert [] + [s] == [s] + [];
      } else {
        PrependFresh(m, host, s);
        doc.InsertAsFirstChild(host, s);
      }
    }

    /** The nested branch: a `g` group, unsized, attached nowhere yet. */
    method MaterialiseNested()
      requires Valid() && svgElement.None? && ownView == null
      modifies this`svgElement, doc`count, doc`tags, doc`children, doc`attrs
      ensures Valid() && svgElement == Some(old(doc.count))
      ensures doc.count == old(doc.count) + 1
      ensures doc.tags == old(doc.tags)[svgElement.value := G]
      ensures MaterialisedIn(doc.children, doc.attrs, old(doc.children), old(doc.attrs), true)
    {
      ghost var m0: ChildMap, a0: AttrMap, count0 := doc.children, doc.attrs, doc.count;
      FreshFilled(m0, count0, bgElement, contentElement);
      var s := MakeContainer(G);
      assert {s} + Hosts() == {s};
      ElsewhereAfterTwo(a0, s, map[], bgElement, AttrsIn(a0, bgElement)[Fill := FillFor(backgroundColor)]);
    }

    /**
     * `moveBorderElementToFront`: the border group becomes the container's last child. When it
     * already is, nothing moves; either way the child lists end as `appendChild(border)` leaves them.
     */
    method MoveBorderElementToFront()
      requires Valid()
      modifies doc`children
      ensures Valid()
      ensures svgElement.None? ==> doc.children == old(doc.children)
      ensures svgElement.Some? ==> doc.children == Appended(old(doc.children), svgElement.value, borderElement)
    {
      if svgElement.None? { return; }
      var s := svgElement.value;
      var kids := doc.Kids(s);
      if |kids| == 0 || Last(kids) != borderElement {
        AppendBorder(s);
      } else {
        assert KidsIn(doc.children, s) == kids;
        AppendLastIsNoop(doc.children, doc.count, s, borderElement);
      }
    }

    /** The `contains`/`removeChild` step followed by `appendChild(border)`. */
    method AppendBorder(s: NodeId)
      requires Valid() && svgElement == Some(s)
      modifies doc`children
      ensures Valid()
      ensures doc.children == Appended(old(doc.children), s, borderElement)
    {
      if borderElement in doc.Kids(s) {
        ghost var m := doc.children;
        doc.RemoveChild(s, borderElement);
        AppendAfterDetach(m, s, borderElement);
      }
      doc.AppendChild(s, borderElement);
    }

    /** The superlayer, as a set: empty for a root layer. */
    function Parents(): set<CALayer>
      reads this`superlayer
    {
      if superlayer == null then {} else {superlayer}
    }

    /**
     * `removeFromSuperlayer`: with a superlayer that lists this layer, the entry at `indexOf(this)`
     * is spliced out, and this container leaves the superlayer's container when it is a child
     * of it. The superlayer link is cleared in every case where there was one.
     */
    method RemoveFromSuperlayer(ghost U: set<CALayer>)
      requires Valid()
      requires superlayer != null ==> superlayer.doc == doc
      modifies this`superlayer, Parents()`sublayers, doc`children
      ensures Valid() && superlayer == null
      ensures old(superlayer) != null ==> old(superlayer).sublayers == SpliceOut(old(superlayer.sublayers), this)
      ensures doc.children ==
        if old(superlayer) != null && this in old(superlayer.sublayers)
           && old(superlayer.svgElement).Some? && svgElement.Some?
           && svgElement.value in old(doc.Kids(superlayer.svgElement.value))
        then Detached(old(doc.children), svgElement.value)
        else old(doc.children)
      ensures old(TreeConsistent(U)) && this in U ==> TreeConsistent(U)
    {
      if superlayer != null {
        var p := superlayer;
        var listed := Unparent(p, U);
        if listed {
          UnlinkContainer(p.svgElement);
        }
      }
    }

    /** The hierarchy half of `removeFromSuperlayer`: the entry spliced out of the superlayer's
        list and the link cleared. `listed` says whether an entry went. */
    method Unparent(p: CALayer, ghost U: set<CALayer>) returns (listed: bool)
      requires superlayer == p
      modifies this`superlayer, p`sublayers
      ensures superlayer == null
      ensures listed == (this in old(p.sublayers))
      ensures p.sublayers == SpliceOut(old(p.sublayers), this)
      ensures old(TreeConsistent(U)) && this in U ==> TreeConsistent(U)
    {
      ghost var wasConsistent := TreeConsistent(U) && this in U;
      listed := SpliceSelf(p);
      superlayer := null;
      if wasConsistent {
        forall l | l in U && l.superlayer != null ensures l.superlayer in U && l in l.superlayer.sublayers {
          assert l != this && l.superlayer == old(l.superlayer);
          assert l in old(l.superlayer.sublayers);
        }
        forall q, l | q in U && l in q.sublayers ensures l in U && l.superlayer == q {
          if q == p { assert l in old(p.sublayers) && l != this; }
          else { assert l in old(q.sublayers); }
        }
        forall q | q in U ensures NoDup(q.sublayers) {
          if q != p { assert q.sublayers == old(q.sublayers); }
        }
        assert TreeConsistent(U);
      }
    }

    /** `splice(indexOf(this), 1)` on `p`'s list, when this layer is listed. */
    method SpliceSelf(p: CALayer) returns (listed: bool)
      modifies p`sublayers
      ensures listed == (this in old(p.sublayers))
      ensures p.sublayers == SpliceOut(old(p.sublayers), this)
      ensures NoDup(old(p.sublayers)) ==>
        && NoDup(p.sublayers) && this !in p.sublayers
        && forall l :: l != this ==> (l in p.sublayers <==> l in old(p.sublayers))
    {
      var idx := IndexOf(p.sublayers, this);
      listed := idx >= 0;
      if listed {
        if NoDup(p.sublayers) { RemoveAtIndexOf(p.sublayers, this); }
        p.sublayers := RemoveAt(p.sublayers, idx);
      }
    }

    /** The container leaves the container `parent` when it is a child of it. */
    method UnlinkContainer(parent: Option<NodeId>)
      requires Valid()
      modifies doc`children
      ensures Valid()
      ensures doc.children ==
        if parent.Some? && svgElement.Some? && svgElement.value in old(doc.Kids(parent.value))
        then Detached(old(doc.children), svgElement.value)
        else old(doc.children)
    {
      if parent.Some? && svgElement.Some? && svgElement.value in doc.Kids(parent.value) {
        doc.RemoveChild(parent.value, svgElement.value);
      }
    }

    /**
     * Both containers as `addSublayer` leaves them, from the containers `s0` and `c0`, the
     * `count0` nodes and the tags `tags0` before it: an existing container is kept, a missing
     * one is made, this layer's first, no other node is allocated and every node keeps its tag.
     */
    ghost predicate ContainersFrom(layer: CALayer, s0: Option<NodeId>, c0: Option<NodeId>, count0: nat,
                                   tags0: map<NodeId, Tag>)
      reads this`svgElement, layer`svgElement, doc`count, doc`tags
    {
      && svgElement.Some? && layer.svgElement.Some?
      && (s0.Some? ==> svgElement == s0)
      && (s0.None? ==> svgElement.value == count0)
      && (c0.Some? ==> layer.svgElement == c0)
      && (c0.None? ==> layer.svgElement.value == count0 + (if s0.None? then 1 else 0))
      && doc.count == count0 + (if s0.None? then 1 else 0) + (if c0.None? then 1 else 0)
      && doc.Extends(count0, tags0)
    }

    /**
     * The child lists `m` that `addSublayer` leaves, from the lists `m0` it started with; `bare`
     * and `lbare` say whether this layer and the child had no container yet. Only this
     * container, the child's new container and the hosts of new containers get new lists; every
     * other list only loses the nodes moved (the backgrounds and contents of new containers, the
     * child's container and the border group), keeping its order. This container ends with the
     * child's container then the border group, after its earlier children in their order.
     */
    ghost predicate NestedIn(layer: CALayer, m: ChildMap, m0: ChildMap, bare: bool, lbare: bool)
      reads this`svgElement, this`ownView, layer`svgElement, layer`ownView
      requires svgElement.Some? && layer.svgElement.Some?
    {
      && OnlyLost(m0, m,
                  MaterialiseLists(bare) + {svgElement.value} + layer.MaterialiseLists(lbare),
                  MaterialiseMoves(bare) + layer.MaterialiseMoves(lbare) + {layer.svgElement.value, borderElement})
      && (layer.svgElement.value != borderElement ==>
            KidsIn(m, svgElement.value)
            == Without(ContainerStart(m0, bare), layer.MaterialiseMoves(lbare) + {layer.svgElement.value, borderElement})
               + [layer.svgElement.value, borderElement])
      && (lbare ==>
            KidsIn(m, layer.svgElement.value) == Without([layer.bgElement, layer.contentElement], {borderElement}))
    }

    /**
     * `addSublayer(layer)`: the layer first leaves any superlayer it has (this one included),
     * is pushed at the end of this layer's list and linked back to it; both layers are then
     * materialised, the child's container is appended to this container, and the border group
     * is moved back to the end. Only the backgrounds of new containers, and new nodes, get new
     * attributes.
     */
    method AddSublayer(layer: CALayer, ghost U: set<CALayer>)
      requires Valid() && layer.Valid() && layer != this && layer.doc == doc
      requires layer.superlayer != null ==> layer.superlayer.doc == doc
      modifies this`sublayers, this`svgElement, layer`superlayer, layer`svgElement
      modifies layer.Parents()`sublayers, doc`count, doc`tags, doc`children, doc`attrs
      ensures Valid() && layer.Valid()
      ensures sublayers ==
        (if old(layer.superlayer) == this then SpliceOut(old(sublayers), layer) else old(sublayers)) + [layer]
      ensures layer.superlayer == this
      ensures old(layer.superlayer) != null && old(layer.superlayer) != this ==>
        old(layer.superlayer).sublayers == SpliceOut(old(layer.superlayer.sublayers), layer)
      ensures old(TreeConsistent(U)) && this in U && layer in U ==> TreeConsistent(U)
      ensures ContainersFrom(layer, old(svgElement), old(layer.svgElement), old(doc.count), old(doc.tags))
      ensures |doc.Kids(svgElement.value)| > 0 && Last(doc.Kids(svgElement.value)) == borderElement
      ensures NestedIn(layer, doc.children, old(doc.children), old(svgElement).None?, old(layer.svgElement).None?)
      ensures forall n: NodeId :: n < old(doc.count) && n != bgElement && n != layer.bgElement ==>
        doc.Attrs(n) == AttrsIn(old(doc.attrs), n)
      ensures old(svgElement).Some? && old(layer.svgElement).Some? ==>
        && doc.children
           == Appended(Appended(old(doc.children), svgElement.value, layer.svgElement.value), svgElement.value, borderElement)
        && doc.attrs == old(doc.attrs)
    {
      ghost var m0: ChildMap, a0: AttrMap := doc.children, doc.attrs;
      ghost var bare, lbare, c0 := svgElement.None?, layer.svgElement.None?, layer.svgElement;
      Adopt(layer, U);
      ghost var m1: ChildMap := doc.children;
      assert m1 == m0 || (c0.Some? && m1 == Detached(m0, c0.value));
      assert doc.attrs == a0;
      AttachContainers(layer);
      AdoptedNested(layer, m0, m1, doc.children, bare, lbare);
    }

    /** The detach that `addSublayer`'s first step may make, put together with the rest. */
    lemma AdoptedNested(layer: CALayer, m0: ChildMap, m1: ChildMap, m: ChildMap, bare: bool, lbare: bool)
      requires svgElement.Some? && layer.svgElement.Some?
      requires m1 == m0 || (!lbare && m1 == Detached(m0, layer.svgElement.value))
      requires NestedIn(layer, m, m1, bare, lbare)
      requires !bare && !lbare ==>
        m == Appended(Appended(m1, svgElement.value, layer.svgElement.value), svgElement.value, borderElement)
      ensures NestedIn(layer, m, m0, bare, lbare)
      ensures !bare && !lbare ==>
        m == Appended(Appended(m0, svgElement.value, layer.svgElement.value), svgElement.value, borderElement)
    {
      if m1 != m0 {
        var s, c := svgElement.value, layer.svgElement.value;
        var l := MaterialiseMoves(bare) + layer.MaterialiseMoves(lbare) + {c, borderElement};
        assert c in l;
        DetachedThenLost(m0, m, c, MaterialiseLists(bare) + {s} + layer.MaterialiseLists(lbare), l);
        if !bare {
          WithoutDetached(KidsIn(m0, s), c, layer.MaterialiseMoves(lbare) + {c, borderElement});
        }
        AppendAfterDetach(m0, s, c);
      }
    }

    /** The hierarchy half of `addSublayer`. */
    method Adopt(layer: CALayer, ghost U: set<CALayer>)
      requires Valid() && layer.Valid() && layer != this && layer.doc == doc
      requires layer.superlayer != null ==> layer.superlayer.doc == doc
      modifies this`sublayers, layer`superlayer, layer.Parents()`sublayers, doc`children
      ensures Valid() && layer.Valid()
      ensures sublayers ==
        (if old(layer.superlayer) == this then SpliceOut(old(sublayers), layer) else old(sublayers)) + [layer]
      ensures layer.superlayer == this
      ensures old(layer.superlayer) != null && old(layer.superlayer) != this ==>
        old(layer.superlayer).sublayers == SpliceOut(old(layer.superlayer.sublayers), layer)
      ensures old(TreeConsistent(U)) && this in U && layer in U ==> TreeConsistent(U)
      ensures doc.children == old(doc.children)
        || (layer.svgElement.Some? && doc.children == Detached(old(doc.children), layer.svgElement.value))
    {
      if layer.superlayer != null {
        layer.RemoveFromSuperlayer(U);
      }
      Push(layer, U);
    }

    /** The document half of `addSublayer`: both layers materialised, the child's container
        nested in this one, the border group last. */
    method AttachContainers(layer: CALayer)
      requires Valid() && layer.Valid() && layer != this && layer.doc == doc
      modifies this`svgElement, layer`svgElement, doc`count, doc`tags, doc`children, doc`attrs
      ensures Valid() && layer.Valid()
      ensures ContainersFrom(layer, old(svgElement), old(layer.svgElement), old(doc.count), old(doc.tags))
      ensures |doc.Kids(svgElement.value)| > 0 && Last(doc.Kids(svgElement.value)) == borderElement
      ensures NestedIn(layer, doc.children, old(doc.children), old(svgElement).None?, old(layer.svgElement).None?)
      ensures forall n: NodeId :: n < old(doc.count) && n != bgElement && n != layer.bgElement ==>
        doc.Attrs(n) == AttrsIn(old(doc.attrs), n)
      ensures old(svgElement).Some? && old(layer.svgElement).Some? ==>
        && doc.children
           == Appended(Appended(old(doc.children), svgElement.value, layer.svgElement.value), svgElement.value, borderElement)
        && doc.attrs == old(doc.attrs)
    {
      ghost var m0: ChildMap, bare, lbare := doc.children, svgElement.None?, layer.svgElement.None?;
      MaterialiseBoth(layer);
      NestContainer(layer, m0, bare, lbare);
    }

    /**
     * The child lists `m` after both materialisations of `addSublayer`, from the lists `m0`
     * before them: only the new containers and their hosts have new lists, the others only lost
     * the moved backgrounds and contents; this container, the child's container and the border
     * group set aside, holds what it started with less what moved; a new child container holds
     * its background then its content.
     */
    ghost predicate SettledIn(layer: CALayer, m: ChildMap, m0: ChildMap, bare: bool, lbare: bool)
      reads this`svgElement, this`ownView, layer`svgElement, layer`ownView
      requires svgElement.Some? && layer.svgElement.Some?
    {
      && OnlyLost(m0, m, MaterialiseLists(bare) + layer.MaterialiseLists(lbare),
                  MaterialiseMoves(bare) + layer.MaterialiseMoves(lbare))
      && Without(KidsIn(m, svgElement.value), {layer.svgElement.value, borderElement})
         == Without(ContainerStart(m0, bare), layer.MaterialiseMoves(lbare) + {layer.svgElement.value, borderElement})
      && (lbare ==> KidsIn(m, layer.svgElement.value) == [layer.bgElement, layer.contentElement])
    }

    /** The two `createSVGElement` calls of `addSublayer`, this layer's first. */
    method MaterialiseBoth(layer: CALayer)
      requires Valid() && layer.Valid() && layer != this && layer.doc == doc
      modifies this`svgElement, layer`svgElement, doc`count, doc`tags, doc`children, doc`attrs
      ensures Valid() && layer.Valid()
      ensures ContainersFrom(layer, old(svgElement), old(layer.svgElement), old(doc.count), old(doc.tags))
      ensures SettledIn(layer, doc.children, old(doc.children), old(svgElement).None?, old(layer.svgElement).None?)
      ensures forall n: NodeId :: n < old(doc.count) && n != bgElement && n != layer.bgElement ==>
        AttrsIn(doc.attrs, n) == AttrsIn(old(doc.attrs), n)
      ensures old(svgElement).Some? && old(layer.svgElement).Some? ==>
        doc.children == old(doc.children) && doc.attrs == old(doc.attrs)
    {
      ghost var m0: ChildMap, a0: AttrMap, count0, t0 := doc.children, doc.attrs, doc.count, doc.tags;
      ghost var bare, lbare := svgElement.None?, layer.svgElement.None?;
      CreateSVGElement();
      ghost var m1: ChildMap, a1: AttrMap, t1 := doc.children, doc.attrs, doc.tags;
      ghost var s1, n1 := svgElement, doc.count;
      assert MaterialisedIn(m1, a1, m0, a0, bare);
      layer.CreateSVGElement();
      assert svgElement == s1;
      ValidAsDocGrows(n1);
      TagsKeptThen(t0, t1, doc.tags);
      SettledFrom(layer, m0, a0, count0, m1, a1, doc.children, doc.attrs, bare, lbare);
    }

    /** The two materialisations of `addSublayer` put together: `m1`, `a1` are what this
        layer's materialisation left from `m0`, `a0` with `count0` nodes, the child's left `m2`
        and `a2`. */
    lemma SettledFrom(layer: CALayer, m0: ChildMap, a0: AttrMap, count0: nat, m1: ChildMap, a1: AttrMap,
                      m2: ChildMap, a2: AttrMap, bare: bool, lbare: bool)
      requires Distinct() && layer.Distinct() && layer != this
      requires svgElement.Some? && layer.svgElement.Some?
      requires bare ==> svgElement.value == count0
      requires lbare ==> layer.svgElement.value > svgElement.value && layer.svgElement.value >= count0
      requires MaterialisedIn(m1, a1, m0, a0, bare)
      requires layer.MaterialisedIn(m2, a2, m1, a1, lbare)
      ensures SettledIn(layer, m2, m0, bare, lbare)
      ensures forall n: NodeId :: n < count0 && n != bgElement && n != layer.bgElement ==> AttrsIn(a2, n) == AttrsIn(a0, n)
    {
      AttachSettled(layer, m0, m1, m2, bare, lbare);
    }

    /** The two materialisations of `addSublayer` together: the lists that only lost nodes, and
        this container's list once the child's container and the border group are set aside. */
    lemma AttachSettled(layer: CALayer, m0: ChildMap, m1: ChildMap, m2: ChildMap, bare: bool, lbare: bool)
      requires svgElement.Some? && layer.svgElement.Some? && layer != this
      requires lbare ==> svgElement.value != layer.svgElement.value
      requires OnlyLost(m0, m1, MaterialiseLists(bare), MaterialiseMoves(bare))
      requires OnlyLost(m1, m2, layer.MaterialiseLists(lbare), layer.MaterialiseMoves(lbare))
      requires KidsIn(m1, svgElement.value) == ContainerStart(m0, bare)
      requires !lbare ==> m2 == m1
      requires lbare && layer.ownView != null ==>
        KidsIn(m2, layer.ownView.domElement)
        == [layer.svgElement.value] + Without(KidsIn(m1, layer.ownView.domElement), layer.MaterialiseMoves(lbare))
      ensures OnlyLost(m0, m2, MaterialiseLists(bare) + layer.MaterialiseLists(lbare),
                       MaterialiseMoves(bare) + layer.MaterialiseMoves(lbare))
      ensures Without(KidsIn(m2, svgElement.value), {layer.svgElement.value, borderElement})
              == Without(ContainerStart(m0, bare), layer.MaterialiseMoves(lbare) + {layer.svgElement.value, borderElement})
    {
      var s, c := svgElement.value, layer.svgElement.value;
      var l := layer.MaterialiseMoves(lbare);
      OnlyLostThen(m0, m1, m2, MaterialiseLists(bare), MaterialiseMoves(bare), layer.MaterialiseLists(lbare), l);
      var k1 := KidsIn(m1, s);
      if !lbare {
        assert l == {};
        WithoutNothing(k1, {});
      } else if layer.ownView != null && s == layer.ownView.domElement {
        WithoutConcat([c], Without(k1, l), {c, borderElement});
        assert Without([c], {c, borderElement}) == [];
      } else {
        assert s !in layer.MaterialiseLists(lbare);
      }
      WithoutTwice(k1, l, {c, borderElement});
    }

    /** The nesting step of `addSublayer`, put together with the materialisations before it. */
    lemma AttachNested(layer: CALayer, m0: ChildMap, m2: ChildMap, m3: ChildMap, bare: bool, lbare: bool)
      requires svgElement.Some? && layer.svgElement.Some? && layer != this
      requires SettledIn(layer, m2, m0, bare, lbare)
      requires m3 == Appended(Appended(m2, svgElement.value, layer.svgElement.value), svgElement.value, borderElement)
      requires lbare ==> layer.svgElement.value != svgElement.value
      requires lbare ==> layer.svgElement.value != layer.bgElement && layer.svgElement.value != layer.contentElement
      ensures NestedIn(layer, m3, m0, bare, lbare)
    {
      var s, c := svgElement.value, layer.svgElement.value;
      var m := Appended(m2, s, c);
      MovesOnlyLose(m2, s, c);
      MovesOnlyLose(m, s, borderElement);
      OnlyLostThen(m2, m, m3, {s}, {c}, {s}, {borderElement});
      assert {s} + {s} == {s} && {c} + {borderElement} == {c, borderElement};
      OnlyLostThen(m0, m2, m3, MaterialiseLists(bare) + layer.MaterialiseLists(lbare),
        MaterialiseMoves(bare) + layer.MaterialiseMoves(lbare), {s}, {c, borderElement});
      assert MaterialiseLists(bare) + layer.MaterialiseLists(lbare) + {s}
        == MaterialiseLists(bare) + {s} + layer.MaterialiseLists(lbare);
      if c != borderElement {
        KidsAfterMove(m2, s, c, s);
        KidsAfterMove(m, s, borderElement, s);
        NestedKids(KidsIn(m2, s), c, borderElement);
      }
      if lbare {
        KidsAfterMove(m2, s, c, c);
        KidsAfterMove(m, s, borderElement, c);
        assert Detach([layer.bgElement, layer.contentElement], c) == [layer.bgElement, layer.contentElement];
        DetachIsWithout([layer.bgElement, layer.contentElement], borderElement);
      }
    }

    /** `sublayers.push(layer)` and `layer.superlayer = this` for a layer without a superlayer. */
    method Push(layer: CALayer, ghost U: set<CALayer>)
      requires layer.superlayer == null && layer != this
      modifies this`sublayers, layer`superlayer
      ensures sublayers == old(sublayers) + [layer] && layer.superlayer == this
      ensures old(TreeConsistent(U)) && this in U && layer in U ==> TreeConsistent(U)
    {
      ghost var wasConsistent := TreeConsistent(U) && this in U && layer in U;
      sublayers := sublayers + [layer];
      layer.superlayer := this;
      if wasConsistent {
        assert layer !in old(sublayers);
        forall l | l in U && l.superlayer != null ensures l.superlayer in U && l in l.superlayer.sublayers {
          if l != layer {
            assert l.superlayer == old(l.superlayer);
            assert l in old(l.superlayer.sublayers);
          }
        }
        forall q, l | q in U && l in q.sublayers ensures l in U && l.superlayer == q {
          if q == this && l != layer { assert l in old(sublayers); }
          else if q != this { assert l in old(q.sublayers); }
        }
        forall q | q in U ensures NoDup(q.sublayers) {
          if q == this {
            forall i, j | 0 <= i < j < |sublayers| ensures sublayers[i] != sublayers[j] {
              if j == |sublayers| - 1 { assert sublayers[i] in old(sublayers); }
            }
          } else {
            assert q.sublayers == old(q.sublayers);
          }
        }
        assert TreeConsistent(U);
      }
    }

    /** Appends the child's container to this container, then moves the border group to the end. */
    method NestContainer(layer: CALayer, ghost m0: ChildMap, ghost bare: bool, ghost lbare: bool)
      requires Valid() && layer.Valid() && layer.doc == doc && layer != this
      requires svgElement.Some? && layer.svgElement.Some?
      requires lbare ==> layer.svgElement.value != svgElement.value
      requires SettledIn(layer, doc.children, m0, bare, lbare)
      modifies doc`children
      ensures Valid() && layer.Valid()
      ensures doc.children ==
        Appended(Appended(old(doc.children), svgElement.value, layer.svgElement.value), svgElement.value, borderElement)
      ensures NestedIn(layer, doc.children, m0, bare, lbare)
    {
      ghost var m2 := doc.children;
      doc.AppendChild(svgElement.value, layer.svgElement.value);
      MoveBorderElementToFront();
      AttachNested(layer, m0, m2, doc.children, bare, lbare);
    }

    /** The border group as `resetBorder` draws it when a border is shown: stroked with the
        width and colour, holding one copy of the background (same tag, zero fill opacity), and
        last in the container. */
    ghost predicate BorderDrawn()
      reads this`svgElement, this`borderWidth, this`borderColor, doc`attrs, doc`children, doc`tags
      requires svgElement.Some?
    {
      && doc.Get(borderElement, StyleStrokeWidth) == Some(Number(borderWidth))
      && borderColor.Some? && doc.Get(borderElement, StyleStroke) == Some(Paint(borderColor.value))
      && |doc.Kids(borderElement)| == 1
      && doc.Attrs(doc.Kids(borderElement)[0]) == doc.Attrs(bgElement)[StyleFillOpacity := Number(0.0)]
      && doc.SameTag(doc.Kids(borderElement)[0], bgElement)
      && |doc.Kids(svgElement.value)| > 0 && Last(doc.Kids(svgElement.value)) == borderElement
    }

    /** What `resetBorder` leaves: the container hidden exactly when no border is shown, and the
        border drawn when it is. */
    ghost predicate BorderApplied()
      reads this`svgElement, this`borderWidth, this`borderColor, doc`attrs, doc`children, doc`tags
    {
      && svgElement.Some?
      && doc.Get(svgElement.value, StyleDisplay)
         == (if BorderShown(borderWidth, borderColor) then None else Some(DisplayNone))
      && (BorderShown(borderWidth, borderColor) ==> BorderDrawn())
    }

    /**
     * What `resetBorder` leaves, from the child lists `m0`, attributes `a0`, node count `count0`
     * and container `s0` it started with. A shown border moves the border group to the end of
     * the container, which keeps its other children in order; every list but the container's,
     * the border group's and those a first materialisation writes only loses what was moved.
     * Hiding moves nothing. Only the container's display, the border's stroke and the
     * background's re-applied fill change among the existing nodes' attributes.
     */
    ghost predicate BorderResetFrom(m0: ChildMap, a0: AttrMap, count0: nat, s0: Option<NodeId>)
      reads this`svgElement, this`ownView, this`backgroundColor, this`frame, this`borderWidth, this`borderColor, doc`attrs, doc`children, doc`tags
    {
      && BorderApplied()
      && (s0.Some? ==> svgElement == s0)
      && (BorderShown(borderWidth, borderColor) ==>
            && OnlyLost(m0, doc.children, MaterialiseLists(s0.None?) + {svgElement.value, borderElement},
                        MaterialiseMoves(s0.None?) + {borderElement})
            && doc.Kids(svgElement.value) == Without(ContainerStart(m0, s0.None?), {borderElement}) + [borderElement]
            && doc.Attrs(borderElement) == Stroked(AttrsIn(a0, borderElement))
            && doc.Attrs(svgElement.value) == SvgStart(a0, s0.None?) - {StyleDisplay})
      && (!BorderShown(borderWidth, borderColor) ==>
            && OnlyLost(m0, doc.children, MaterialiseLists(s0.None?), MaterialiseMoves(s0.None?))
            && (s0.Some? ==> doc.children == m0)
            && doc.Attrs(borderElement) == AttrsIn(a0, borderElement)
            && doc.Attrs(svgElement.value) == SvgStart(a0, s0.None?)[StyleDisplay := DisplayNone])
      && doc.Attrs(bgElement) == BgStart(a0, s0.None?)
      && (forall n: NodeId :: n < count0 && n != svgElement.value && n != bgElement && n != borderElement ==>
            doc.Attrs(n) == AttrsIn(a0, n))
    }

    /** The border group's attributes `m` with the stroke width and colour. */
    function Stroked(m: map<Attr, Value>): map<Attr, Value>
      reads this`borderWidth, this`borderColor
      requires borderColor.Some?
    {
      m[StyleStrokeWidth := Number(borderWidth)][StyleStroke := Paint(borderColor.value)]
    }

    /**
     * `resetBorder`. After materialising, a shown border is re-stroked, refilled with a fresh
     * copy of the background and moved to the end of the container, and the container is
     * displayed; otherwise the WHOLE container, background and content included, is hidden.
     */
    method ResetBorder()
      requires Valid()
      modifies this`svgElement, doc`count, doc`tags, doc`children, doc`attrs
      ensures Valid()
      ensures doc.Extends(old(doc.count), old(doc.tags))
      ensures BorderResetFrom(old(doc.children), old(doc.attrs), old(doc.count), old(svgElement))
    {
      ghost var m0: ChildMap, a0: AttrMap, count0, s0 := doc.children, doc.attrs, doc.count, svgElement;
      ghost var t0 := doc.tags;
      CreateSVGElement();
      var s := svgElement.value;
      ghost var m1: ChildMap, a1: AttrMap, count1 := doc.children, doc.attrs, doc.count;
      ghost var t1 := doc.tags;
      if BorderShown(borderWidth, borderColor) {
        DrawBorder(s);
        TagsKeptThen(t0, t1, doc.tags);
        BorderShownAfter(m0, a0, count0, s0, m1, a1, count1);
      } else {
        doc.SetAttribute(s, StyleDisplay, DisplayNone);
        BorderHiddenAfter(m0, a0, count0, s0, m1, a1);
      }
    }

    /** The shown-border branch of `resetBorder`: stroke, a fresh copy of the background as the
        border group's only child, the container's display cleared and the border group last. */
    method DrawBorder(s: NodeId)
      requires Valid() && svgElement == Some(s) && BorderShown(borderWidth, borderColor)
      modifies doc`count, doc`tags, doc`children, doc`attrs
      ensures Valid() && doc.count == old(doc.count) + 1
      ensures doc.Extends(old(doc.count), old(doc.tags))
      ensures doc.tags == old(doc.tags)[old(doc.count) := old(doc.tags)[bgElement]]
      ensures doc.children
              == Appended(old(doc.children)[old(doc.count) := []][borderElement := [old(doc.count)]], s, borderElement)
      ensures doc.attrs
              == old(doc.attrs)[borderElement := Stroked(AttrsIn(old(doc.attrs), borderElement))]
                               [old(doc.count) := AttrsIn(old(doc.attrs), bgElement)[StyleFillOpacity := Number(0.0)]]
                               [s := AttrsIn(old(doc.attrs), s) - {StyleDisplay}]
    {
      Stroke();
      var f := RefillBorder();
      ShowOnTop(s);
    }

    /**
     * The drawing steps put together with the materialisation before them: `m1`, `a1` and
     * `count1` are what the materialisation left from `m0`, `a0` and `count0`.
     */
    lemma BorderShownAfter(m0: ChildMap, a0: AttrMap, count0: nat, s0: Option<NodeId>,
                           m1: ChildMap, a1: AttrMap, count1: nat)
      requires Distinct() && svgElement.Some? && BorderShown(borderWidth, borderColor)
      requires s0.Some? ==> svgElement == s0 && count1 == count0
      requires s0.None? ==> svgElement == Some(count0) && count1 == count0 + 1
      requires MaterialisedIn(m1, a1, m0, a0, s0.None?)
      requires WellFormed(m1, count1) && svgElement.value < count1
      requires borderElement < count1 && bgElement < count1
      requires doc.children
               == Appended(m1[count1 := []][borderElement := [count1]], svgElement.value, borderElement)
      requires doc.attrs
               == a1[borderElement := Stroked(AttrsIn(a1, borderElement))]
                    [count1 := AttrsIn(a1, bgElement)[StyleFillOpacity := Number(0.0)]]
                    [svgElement.value := AttrsIn(a1, svgElement.value) - {StyleDisplay}]
      requires doc.SameTag(count1, bgElement)
      ensures BorderResetFrom(m0, a0, count0, s0)
    {
      var s, bare := svgElement.value, s0.None?;
      RefilledMovedLast(m1, count1, s, borderElement);
      OnlyLostThen(m0, m1, doc.children, MaterialiseLists(bare), MaterialiseMoves(bare),
        {s, borderElement}, {borderElement});
      ShownAttrsAfter(m0, a0, count0, s0, m1, a1, count1);
    }

    /** The attribute half of `BorderShownAfter`. */
    lemma ShownAttrsAfter(m0: ChildMap, a0: AttrMap, count0: nat, s0: Option<NodeId>, m1: ChildMap, a1: AttrMap, count1: nat)
      requires Distinct() && svgElement.Some? && borderColor.Some?
      requires s0.Some? ==> svgElement == s0 && count1 == count0
      requires s0.None? ==> svgElement == Some(count0) && count1 == count0 + 1
      requires MaterialisedIn(m1, a1, m0, a0, s0.None?)
      requires svgElement.value < count1 && borderElement < count1 && bgElement < count1
      requires doc.attrs
               == a1[borderElement := Stroked(AttrsIn(a1, borderElement))]
                    [count1 := AttrsIn(a1, bgElement)[StyleFillOpacity := Number(0.0)]]
                    [svgElement.value := AttrsIn(a1, svgElement.value) - {StyleDisplay}]
      ensures doc.Attrs(borderElement) == Stroked(AttrsIn(a0, borderElement))
      ensures doc.Attrs(svgElement.value) == SvgStart(a0, s0.None?) - {StyleDisplay}
      ensures doc.Attrs(bgElement) == BgStart(a0, s0.None?)
      ensures forall n: NodeId :: n < count0 && n != svgElement.value && n != bgElement && n != borderElement ==>
        doc.Attrs(n) == AttrsIn(a0, n)
    {
      var s := svgElement.value;
      ElsewhereAfterThree(a1, borderElement, Stroked(AttrsIn(a1, borderElement)),
        count1, AttrsIn(a1, bgElement)[StyleFillOpacity := Number(0.0)], s, AttrsIn(a1, s) - {StyleDisplay});
    }

    /** The hidden-border branch put together with the materialisation before it. */
    lemma BorderHiddenAfter(m0: ChildMap, a0: AttrMap, count0: nat, s0: Option<NodeId>, m1: ChildMap, a1: AttrMap)
      requires Distinct() && svgElement.Some? && !BorderShown(borderWidth, borderColor)
      requires s0.Some? ==> svgElement == s0
      requires s0.None? ==> svgElement == Some(count0)
      requires MaterialisedIn(m1, a1, m0, a0, s0.None?)
      requires svgElement.value != borderElement
      requires doc.children == m1
      requires doc.attrs == a1[svgElement.value := AttrsIn(a1, svgElement.value)[StyleDisplay := DisplayNone]]
      ensures BorderResetFrom(m0, a0, count0, s0)
    {
      var s := svgElement.value;
      forall n: NodeId | n < count0 && n != s && n != bgElement && n != borderElement
        ensures doc.Attrs(n) == AttrsIn(a0, n)
      {
        assert doc.Attrs(n) == AttrsIn(a1, n);
      }
    }

    /** The border group's stroke width and colour. */
    method Stroke()
      requires Valid() && borderColor.Some?
      modifies doc`attrs
      ensures Valid()
      ensures doc.attrs == old(doc.attrs)[borderElement := Stroked(AttrsIn(old(doc.attrs), borderElement))]
    {
      doc.SetAttribute(borderElement, StyleStrokeWidth, Number(borderWidth));
      doc.SetAttribute(borderElement, StyleStroke, Paint(borderColor.value));
    }

    /** Clears the container's display style and appends the border group to it. */
    method ShowOnTop(s: NodeId)
      requires Valid() && svgElement == Some(s)
      modifies doc`attrs, doc`children
      ensures Valid()
      ensures doc.attrs == old(doc.attrs)[s := AttrsIn(old(doc.attrs), s) - {StyleDisplay}]
      ensures doc.children == Appended(old(doc.children), s, borderElement)
    {
      doc.RemoveAttribute(s, StyleDisplay);
      doc.AppendChild(s, borderElement);
    }

    /** Appends a copy of the background (same tag and attributes, no children) to `target`. */
    method CloneBackgroundInto(target: NodeId) returns (c: NodeId)
      requires Valid() && target < doc.count
      modifies doc`count, doc`tags, doc`children, doc`attrs
      ensures Valid() && c == old(doc.count) && doc.count == old(doc.count) + 1
      ensures doc.tags == old(doc.tags)[c := old(doc.tags)[bgElement]]
      ensures doc.Extends(old(doc.count), old(doc.tags))
      ensures doc.children == old(doc.children)[c := []][target := KidsIn(old(doc.children), target) + [c]]
      ensures doc.attrs == old(doc.attrs)[c := AttrsIn(old(doc.attrs), bgElement)]
    {
      FreshNode(doc.children, doc.count);
      c := doc.CloneNode(bgElement);
      AppendFresh(doc.children, target, c);
      doc.AppendChild(target, c);
    }

    /** `border.innerHTML = ""`, then a copy of the background with zero fill opacity appended. */
    method RefillBorder() returns (f: NodeId)
      requires Valid()
      modifies doc`count, doc`tags, doc`children, doc`attrs
      ensures Valid() && f == old(doc.count) && doc.count == old(doc.count) + 1
      ensures doc.tags == old(doc.tags)[f := old(doc.tags)[bgElement]]
      ensures doc.Extends(old(doc.count), old(doc.tags))
      ensures doc.children == old(doc.children)[f := []][borderElement := [f]]
      ensures doc.attrs == old(doc.attrs)[f := AttrsIn(old(doc.attrs), bgElement)[StyleFillOpacity := Number(0.0)]]
    {
      ghost var m0: ChildMap := doc.children;
      doc.ClearChildren(borderElement);
      ghost var m1: ChildMap := doc.children;
      assert m1 == m0[borderElement := []];
      f := CloneBackgroundInto(borderElement);
      assert doc.children == m1[f := []][borderElement := [] + [f]];
      assert [] + [f] == [f];
      doc.SetAttribute(f, StyleFillOpacity, Number(0.0));
      assert doc.children == m0[borderElement := []][f := []][borderElement := [f]];
    }

    /** The `borderWidth` setter. */
    method SetBorderWidth(value: real)
      requires Valid()
      modifies this`borderWidth, this`svgElement, doc`count, doc`tags, doc`children, doc`attrs
      ensures Valid() && borderWidth == value
      ensures doc.Extends(old(doc.count), old(doc.tags))
      ensures BorderResetFrom(old(doc.children), old(doc.attrs), old(doc.count), old(svgElement))
    {
      borderWidth := value;
      ResetBorder();
    }

    /** The `borderColor` setter. */
    method SetBorderColor(value: Option<UIColor>)
      requires Valid()
      modifies this`borderColor, this`svgElement, doc`count, doc`tags, doc`children, doc`attrs
      ensures Valid() && borderColor == value
      ensures doc.Extends(old(doc.count), old(doc.tags))
      ensures BorderResetFrom(old(doc.children), old(doc.attrs), old(doc.count), old(svgElement))
    {
      borderColor := value;
      ResetBorder();
    }

    /** What `masksToBounds = true` leaves: the clip path named by the layer's id holds one copy
        of the background (same tag and attributes), is the container's last child, and the
        container refers to it. */
    ghost predicate ClipApplied()
      reads this`svgElement, doc`attrs, doc`children, doc`tags
    {
      && svgElement.Some?
      && doc.Get(clipPathElement, Id) == Some(Ident(uuid))
      && |doc.Kids(clipPathElement)| == 1
      && doc.Attrs(doc.Kids(clipPathElement)[0]) == doc.Attrs(bgElement)
      && doc.SameTag(doc.Kids(clipPathElement)[0], bgElement)
      && |doc.Kids(svgElement.value)| > 0 && Last(doc.Kids(svgElement.value)) == clipPathElement
      && doc.Get(svgElement.value, ClipPathRef) == Some(Url(uuid))
    }

    /**
     * What `masksToBounds = true` leaves, from the child lists `m0`, attributes `a0`, node
     * count `count0` and container `s0` it started with: the clip path moves to the end of the
     * container, which keeps its other children in order, and every list but theirs and those a
     * first materialisation writes only loses what was moved. Among the existing nodes only the
     * clip path's id, the container's reference and the background's re-applied fill change.
     */
    ghost predicate ClipSetFrom(m0: ChildMap, a0: AttrMap, count0: nat, s0: Option<NodeId>)
      reads this`svgElement, this`ownView, this`backgroundColor, this`frame, doc`attrs, doc`children, doc`tags
    {
      && ClipApplied()
      && (s0.Some? ==> svgElement == s0)
      && OnlyLost(m0, doc.children, MaterialiseLists(s0.None?) + {svgElement.value, clipPathElement},
                  MaterialiseMoves(s0.None?) + {clipPathElement})
      && doc.Kids(svgElement.value) == Without(ContainerStart(m0, s0.None?), {clipPathElement}) + [clipPathElement]
      && doc.Attrs(clipPathElement) == AttrsIn(a0, clipPathElement)[Id := Ident(uuid)]
      && doc.Attrs(svgElement.value) == SvgStart(a0, s0.None?)[ClipPathRef := Url(uuid)]
      && doc.Attrs(bgElement) == BgStart(a0, s0.None?)
      && (forall n: NodeId :: n < count0 && n != svgElement.value && n != bgElement && n != clipPathElement ==>
            doc.Attrs(n) == AttrsIn(a0, n))
    }

    /**
     * The `masksToBounds` setter. Turning masking on materialises the layer and (re)builds the
     * clip path; turning it off stores the flag and leaves the document as it is, so an applied
     * clip stays in place.
     */
    method SetMasksToBounds(value: bool)
      requires Valid()
      modifies this`masksToBounds, this`svgElement, doc`count, doc`tags, doc`children, doc`attrs
      ensures Valid() && masksToBounds == value
      ensures doc.Extends(old(doc.count), old(doc.tags))
      ensures value ==> ClipSetFrom(old(doc.children), old(doc.attrs), old(doc.count), old(svgElement))
      ensures !value ==> svgElement == old(svgElement) && unchanged(doc)
    {
      masksToBounds := value;
      if value {
        ghost var m0: ChildMap, a0: AttrMap, count0, s0 := doc.children, doc.attrs, doc.count, svgElement;
        ghost var t0 := doc.tags;
        CreateSVGElement();
        var s := svgElement.value;
        ghost var m1: ChildMap, a1: AttrMap, count1 := doc.children, doc.attrs, doc.count;
        ghost var t1 := doc.tags;
        ApplyClip(s);
        TagsKeptThen(t0, t1, doc.tags);
        ClipSetAfter(m0, a0, count0, s0, m1, a1, count1);
      }
    }

    /** The masking branch: id, one copy of the background, appended, referenced. */
    method ApplyClip(s: NodeId)
      requires Valid() && svgElement == Some(s)
      modifies doc`count, doc`tags, doc`children, doc`attrs
      ensures Valid() && doc.count == old(doc.count) + 1
      ensures doc.Extends(old(doc.count), old(doc.tags))
      ensures doc.tags == old(doc.tags)[old(doc.count) := old(doc.tags)[bgElement]]
      ensures doc.children
              == Appended(old(doc.children)[old(doc.count) := []][clipPathElement := [old(doc.count)]], s, clipPathElement)
      ensures doc.attrs
              == old(doc.attrs)[clipPathElement := AttrsIn(old(doc.attrs), clipPathElement)[Id := Ident(uuid)]]
                               [old(doc.count) := AttrsIn(old(doc.attrs), bgElement)]
                               [s := AttrsIn(old(doc.attrs), s)[ClipPathRef := Url(uuid)]]
    {
      var c := RebuildClip();
      AppendClip(s);
    }

    /**
     * The masking steps put together with the materialisation before them: `m1`, `a1` and
     * `count1` are what the materialisation left from `m0`, `a0` and `count0`.
     */
    lemma ClipSetAfter(m0: ChildMap, a0: AttrMap, count0: nat, s0: Option<NodeId>,
                       m1: ChildMap, a1: AttrMap, count1: nat)
      requires Distinct() && svgElement.Some?
      requires s0.Some? ==> svgElement == s0 && count1 == count0
      requires s0.None? ==> svgElement == Some(count0) && count1 == count0 + 1
      requires MaterialisedIn(m1, a1, m0, a0, s0.None?)
      requires WellFormed(m1, count1) && svgElement.value < count1
      requires clipPathElement < count1 && bgElement < count1
      requires doc.children
               == Appended(m1[count1 := []][clipPathElement := [count1]], svgElement.value, clipPathElement)
      requires doc.attrs
               == a1[clipPathElement := AttrsIn(a1, clipPathElement)[Id := Ident(uuid)]]
                    [count1 := AttrsIn(a1, bgElement)]
                    [svgElement.value := AttrsIn(a1, svgElement.value)[ClipPathRef := Url(uuid)]]
      requires doc.SameTag(count1, bgElement)
      ensures ClipSetFrom(m0, a0, count0, s0)
    {
      var s, bare := svgElement.value, s0.None?;
      RefilledMovedLast(m1, count1, s, clipPathElement);
      OnlyLostThen(m0, m1, doc.children, MaterialiseLists(bare), MaterialiseMoves(bare),
        {s, clipPathElement}, {clipPathElement});
      ElsewhereAfterThree(a1, clipPathElement, AttrsIn(a1, clipPathElement)[Id := Ident(uuid)],
        count1, AttrsIn(a1, bgElement), s, AttrsIn(a1, s)[ClipPathRef := Url(uuid)]);
    }

    /** The clip path named by the layer's id, emptied and refilled with one copy of the background. */
    method RebuildClip() returns (c: NodeId)
      requires Valid()
      modifies doc`count, doc`tags, doc`children, doc`attrs
      ensures Valid() && c == old(doc.count) && doc.count == old(doc.count) + 1
      ensures doc.tags == old(doc.tags)[c := old(doc.tags)[bgElement]]
      ensures doc.children == old(doc.children)[c := []][clipPathElement := [c]]
      ensures doc.attrs == old(doc.attrs)[clipPathElement := AttrsIn(old(doc.attrs), clipPathElement)[Id := Ident(uuid)]]
                                         [c := AttrsIn(old(doc.attrs), bgElement)]
    {
      ghost var m0: ChildMap := doc.children;
      doc.SetAttribute(clipPathElement, Id, Ident(uuid));
      doc.ClearChildren(clipPathElement);
      ghost var m1: ChildMap := doc.children;
      assert m1 == m0[clipPathElement := []];
      c := CloneBackgroundInto(clipPathElement);
      assert doc.children == m1[c := []][clipPathElement := [] + [c]];
      assert [] + [c] == [c];
    }

    /** Appends the clip path to the container and points the container at it. */
    method AppendClip(s: NodeId)
      requires Valid() && svgElement == Some(s)
      modifies doc`attrs, doc`children
      ensures Valid()
      ensures doc.attrs == old(doc.attrs)[s := AttrsIn(old(doc.attrs), s)[ClipPathRef := Url(uuid)]]
      ensures doc.children == Appended(old(doc.children), s, clipPathElement)
    {
      doc.AppendChild(s, clipPathElement);
      doc.SetAttribute(s, ClipPathRef, Url(uuid));
    }

    /** What the `frame` setter leaves on a materialised layer: the geometry, the newest copy of
        the background last in the clip path, and one fresh copy in the border group. */
    ghost predicate FrameApplied()
      reads this`svgElement, this`frame, doc`attrs, doc`children, doc`tags
    {
      && svgElement.Some?
      && doc.Get(svgElement.value, Transform) == Some(Translation(RoundToInteger(frame.x), RoundToInteger(frame.y)))
      && doc.Get(svgElement.value, Width) == Some(Number(frame.width))
      && doc.Get(svgElement.value, Height) == Some(Number(frame.height))
      && doc.Get(bgElement, Width) == Some(Number(frame.width))
      && doc.Get(bgElement, Height) == Some(Number(frame.height))
      && doc.Get(contentElement, Width) == Some(Number(frame.width))
      && doc.Get(contentElement, Height) == Some(Number(frame.height))
      && |doc.Kids(clipPathElement)| > 0 && doc.Attrs(Last(doc.Kids(clipPathElement))) == doc.Attrs(bgElement)
      && doc.SameTag(Last(doc.Kids(clipPathElement)), bgElement)
      && |doc.Kids(borderElement)| == 1
      && doc.Attrs(doc.Kids(borderElement)[0]) == doc.Attrs(bgElement)[StyleFillOpacity := Number(0.0)]
      && doc.SameTag(doc.Kids(borderElement)[0], bgElement)
    }

    /**
     * What the `frame` setter leaves on the path that materialises, from the child lists `m0`,
     * attributes `a0`, node count `count0` and container `s0` it started with: the geometry
     * applied, two new nodes, and the lists and attributes below.
     */
    ghost predicate FrameSetFrom(m0: ChildMap, a0: AttrMap, count0: nat, s0: Option<NodeId>)
      reads this`svgElement, this`ownView, this`backgroundColor, this`frame, doc`count, doc`attrs, doc`children, doc`tags
    {
      && FrameApplied()
      && (s0.Some? ==> svgElement == s0)
      && doc.count == count0 + (if s0.None? then 3 else 2)
      && FrameListsFrom(m0, count0, s0)
      && FrameAttrsFrom(a0, count0, s0)
    }

    /** The container keeps its children; only the clip path and border group get new lists
        besides those a first materialisation writes. The clip path keeps its earlier copies
        (less the background and content a new nested container took) and gains the first new
        node after the container; the border group holds only the node after that. */
    ghost predicate FrameListsFrom(m0: ChildMap, count0: nat, s0: Option<NodeId>)
      reads this`svgElement, this`ownView, this`backgroundColor, this`frame, doc`attrs, doc`children, doc`tags
      requires svgElement.Some?
    {
      && OnlyLost(m0, doc.children, MaterialiseLists(s0.None?) + {clipPathElement, borderElement},
                  MaterialiseMoves(s0.None?))
      && doc.Kids(svgElement.value) == ContainerStart(m0, s0.None?)
      && (s0.Some? ==> doc.Kids(clipPathElement) == KidsIn(m0, clipPathElement) + [count0])
      && (s0.None? && ownView == null ==>
            doc.Kids(clipPathElement)
            == Without<NodeId>(KidsIn(m0, clipPathElement), {bgElement, contentElement}) + [count0 + 1])
      && doc.Kids(borderElement) == [count0 + if s0.None? then 2 else 1]
    }

    /** Among the nodes below `count0` only the container's, the background's and the content's
        attributes change, each by exactly the geometry (and the background's re-applied fill). */
    ghost predicate FrameAttrsFrom(a0: AttrMap, count0: nat, s0: Option<NodeId>)
      reads this`svgElement, this`ownView, this`backgroundColor, this`frame, doc`attrs, doc`children, doc`tags
      requires svgElement.Some?
    {
      && doc.Attrs(svgElement.value) == Placed(SvgStart(a0, s0.None?), frame)
      && doc.Attrs(bgElement) == Sized(BgStart(a0, s0.None?), frame)
      && doc.Attrs(contentElement) == Sized(AttrsIn(a0, contentElement), frame)
      && (forall n: NodeId :: n < count0 && n != svgElement.value && n != bgElement && n != contentElement ==>
            doc.Attrs(n) == AttrsIn(a0, n))
    }

    /**
     * The `frame` setter. It stores the rectangle, and unless the layer has a host view but no
     * container yet, it materialises the layer and re-derives the geometry: the container's
     * translation and size, the background and content sizes, one more copy of the background
     * in the clip path (earlier copies stay), and a fresh copy in the border group.
     */
    method SetFrame(value: UIRect)
      requires Valid()
      modifies this`frame, this`svgElement, doc`count, doc`tags, doc`children, doc`attrs
      ensures Valid() && frame == value
      ensures doc.Extends(old(doc.count), old(doc.tags))
      ensures ownView != null && old(svgElement).None? ==> svgElement.None? && unchanged(doc)
      ensures ownView == null || old(svgElement).Some? ==>
        FrameSetFrom(old(doc.children), old(doc.attrs), old(doc.count), old(svgElement))
    {
      frame := value;
      if ownView == null || svgElement.Some? {
        Reframe();
      }
    }

    /** The `frame` setter once it goes on to the document: materialise, then re-derive the geometry. */
    method Reframe()
      requires Valid()
      modifies this`svgElement, doc`count, doc`tags, doc`children, doc`attrs
      ensures Valid()
      ensures doc.Extends(old(doc.count), old(doc.tags))
      ensures FrameSetFrom(old(doc.children), old(doc.attrs), old(doc.count), old(svgElement))
    {
      ghost var m0: ChildMap, a0: AttrMap, count0, s0 := doc.children, doc.attrs, doc.count, svgElement;
      ghost var t0 := doc.tags;
      CreateSVGElement();
      var s := svgElement.value;
      ghost var m1: ChildMap, a1: AttrMap, count1 := doc.children, doc.attrs, doc.count;
      ghost var t1 := doc.tags;
      ApplyFrame(s);
      TagsKeptThen(t0, t1, doc.tags);
      FrameAppliedAfter(m1, a1, count1);
      FrameListsAfter(m0, a0, count0, s0, m1, a1, count1);
      FrameAttrsAfter(m0, a0, count0, s0, m1, a1, count1);
    }

    /** The document steps of the `frame` setter on the materialised container `s`. */
    method ApplyFrame(s: NodeId)
      requires Valid() && svgElement == Some(s)
      modifies doc`count, doc`tags, doc`children, doc`attrs
      ensures Valid() && doc.count == old(doc.count) + 2
      ensures doc.Extends(old(doc.count), old(doc.tags))
      ensures doc.tags
              == old(doc.tags)[old(doc.count) := old(doc.tags)[bgElement]][old(doc.count) + 1 := old(doc.tags)[bgElement]]
      ensures doc.children
              == old(doc.children)[old(doc.count) := []]
                   [clipPathElement := KidsIn(old(doc.children), clipPathElement) + [old(doc.count)]]
                   [old(doc.count) + 1 := []][borderElement := [old(doc.count) + 1]]
      ensures doc.attrs
              == old(doc.attrs)[s := Placed(AttrsIn(old(doc.attrs), s), frame)]
                   [bgElement := Sized(AttrsIn(old(doc.attrs), bgElement), frame)]
                   [old(doc.count) := Sized(AttrsIn(old(doc.attrs), bgElement), frame)]
                   [old(doc.count) + 1 := Sized(AttrsIn(old(doc.attrs), bgElement), frame)[StyleFillOpacity := Number(0.0)]]
                   [contentElement := Sized(AttrsIn(old(doc.attrs), contentElement), frame)]
    {
      var c := PlaceAndClip(s);
      var f := RefillBorder();
      SetSize(contentElement);
    }

    /** The first two document steps of the `frame` setter: the container placed and sized,
        the background sized, and a copy of it appended to the clip path. */
    method PlaceAndClip(s: NodeId) returns (c: NodeId)
      requires Valid() && svgElement == Some(s)
      modifies doc`count, doc`tags, doc`children, doc`attrs
      ensures Valid() && c == old(doc.count) && doc.count == old(doc.count) + 1
      ensures doc.tags == old(doc.tags)[c := old(doc.tags)[bgElement]]
      ensures doc.Extends(old(doc.count), old(doc.tags))
      ensures doc.children == old(doc.children)[c := []][clipPathElement := KidsIn(old(doc.children), clipPathElement) + [c]]
      ensures doc.attrs
              == old(doc.attrs)[s := Placed(AttrsIn(old(doc.attrs), s), frame)]
                   [bgElement := Sized(AttrsIn(old(doc.attrs), bgElement), frame)]
                   [c := Sized(AttrsIn(old(doc.attrs), bgElement), frame)]
    {
      PlaceContainer(s);
      c := CloneBackgroundInto(clipPathElement);
    }

    /** The geometry the `frame` setter's document steps apply, read off the lists `m1`,
        attributes `a1` and `count1` nodes they start from. */
    lemma FrameAppliedAfter(m1: ChildMap, a1: AttrMap, count1: nat)
      requires Distinct() && svgElement.Some?
      requires svgElement.value < count1 && bgElement < count1 && contentElement < count1
      requires clipPathElement < count1 && borderElement < count1
      requires doc.children
               == m1[count1 := []][clipPathElement := KidsIn(m1, clipPathElement) + [count1]]
                    [count1 + 1 := []][borderElement := [count1 + 1]]
      requires doc.attrs
               == a1[svgElement.value := Placed(AttrsIn(a1, svgElement.value), frame)]
                    [bgElement := Sized(AttrsIn(a1, bgElement), frame)]
                    [count1 := Sized(AttrsIn(a1, bgElement), frame)]
                    [count1 + 1 := Sized(AttrsIn(a1, bgElement), frame)[StyleFillOpacity := Number(0.0)]]
                    [contentElement := Sized(AttrsIn(a1, contentElement), frame)]
      requires doc.SameTag(count1, bgElement) && doc.SameTag(count1 + 1, bgElement)
      ensures FrameApplied()
    {
    }

    /**
     * The child lists the `frame` setter's document steps leave, put together with the
     * materialisation before them: `m1`, `a1` and `count1` are what it left from `m0`, `a0`
     * and `count0`.
     */
    lemma FrameListsAfter(m0: ChildMap, a0: AttrMap, count0: nat, s0: Option<NodeId>,
                          m1: ChildMap, a1: AttrMap, count1: nat)
      requires Distinct() && svgElement.Some?
      requires s0.Some? ==> svgElement == s0 && count1 == count0
      requires s0.None? ==> svgElement == Some(count0) && count1 == count0 + 1
      requires MaterialisedIn(m1, a1, m0, a0, s0.None?)
      requires svgElement.value < count1 && clipPathElement < count1 && borderElement < count1
      requires bgElement < count1 && contentElement < count1
      requires WellFormed(m1, count1)
      requires doc.children
               == m1[count1 := []][clipPathElement := KidsIn(m1, clipPathElement) + [count1]]
                    [count1 + 1 := []][borderElement := [count1 + 1]]
      ensures FrameListsFrom(m0, count0, s0)
    {
      var bare := s0.None?;
      FrameRefilled(m0, m1, doc.children, count1, svgElement.value, clipPathElement, borderElement,
        MaterialiseLists(bare), MaterialiseMoves(bare));
      if bare && ownView == null {
        assert clipPathElement !in MaterialiseLists(bare);
        assert MaterialiseMoves(bare) == {bgElement, contentElement};
      }
    }

    /** The attributes the `frame` setter's document steps leave, put together with the
        materialisation before them. */
    lemma FrameAttrsAfter(m0: ChildMap, a0: AttrMap, count0: nat, s0: Option<NodeId>,
                          m1: ChildMap, a1: AttrMap, count1: nat)
      requires Distinct() && svgElement.Some?
      requires s0.Some? ==> svgElement == s0 && count1 == count0
      requires s0.None? ==> svgElement == Some(count0) && count1 == count0 + 1
      requires MaterialisedIn(m1, a1, m0, a0, s0.None?)
      requires svgElement.value < count1 && clipPathElement < count1 && borderElement < count1
      requires bgElement < count1 && contentElement < count1
      requires doc.attrs
               == a1[svgElement.value := Placed(AttrsIn(a1, svgElement.value), frame)]
                    [bgElement := Sized(AttrsIn(a1, bgElement), frame)]
                    [count1 := Sized(AttrsIn(a1, bgElement), frame)]
                    [count1 + 1 := Sized(AttrsIn(a1, bgElement), frame)[StyleFillOpacity := Number(0.0)]]
                    [contentElement := Sized(AttrsIn(a1, contentElement), frame)]
      ensures FrameAttrsFrom(a0, count0, s0)
    {
      var s := svgElement.value;
      var sized := Sized(AttrsIn(a1, bgElement), frame);
      var a2 := a1[s := Placed(AttrsIn(a1, s), frame)][bgElement := sized][count1 := sized];
      ElsewhereAfterThree(a1, s, Placed(AttrsIn(a1, s), frame), bgElement, sized, count1, sized);
      ElsewhereAfterTwo(a2, count1 + 1, sized[StyleFillOpacity := Number(0.0)],
        contentElement, Sized(AttrsIn(a1, contentElement), frame));
    }

    /** The container's translation and size, then the background's size. */
    method PlaceContainer(s: NodeId)
      requires Valid() && svgElement == Some(s)
      modifies doc`attrs
      ensures Valid()
      ensures doc.attrs
              == old(doc.attrs)[s := Placed(AttrsIn(old(doc.attrs), s), frame)]
                               [bgElement := Sized(AttrsIn(old(doc.attrs), bgElement), frame)]
    {
      ghost var a0: AttrMap := doc.attrs;
      doc.SetAttribute(s, Transform, Translation(RoundToInteger(frame.x), RoundToInteger(frame.y)));
      doc.SetAttribute(s, Width, Number(frame.width));
      doc.SetAttribute(s, Height, Number(frame.height));
      assert doc.attrs == a0[s := Placed(AttrsIn(a0, s), frame)];
      SetSize(bgElement);
    }

    /** Node `n` sized to the frame. */
    method SetSize(n: NodeId)
      requires Valid()
      modifies doc`attrs
      ensures Valid()
      ensures doc.attrs == old(doc.attrs)[n := Sized(AttrsIn(old(doc.attrs), n), frame)]
    {
      doc.SetAttribute(n, Width, Number(frame.width));
      doc.SetAttribute(n, Height, Number(frame.height));
    }

    /** The `hidden` setter: background and content get `display: none`, or lose it. */
    method SetHidden(value: bool)
      requires Valid()
      modifies this`hidden, doc`attrs
      ensures Valid() && hidden == value
      ensures doc.Get(bgElement, StyleDisplay) == (if value then Some(DisplayNone) else None)
      ensures doc.Get(contentElement, StyleDisplay) == (if value then Some(DisplayNone) else None)
      ensures var d := if value then Some(DisplayNone) else None;
        doc.attrs == old(doc.attrs)[bgElement := WithStyle(AttrsIn(old(doc.attrs), bgElement), StyleDisplay, d)]
                                   [contentElement := WithStyle(AttrsIn(old(doc.attrs), contentElement), StyleDisplay, d)]
    {
      hidden := value;
      var d := if value then Some(DisplayNone) else None;
      doc.SetStyle(bgElement, StyleDisplay, d);
      doc.SetStyle(contentElement, StyleDisplay, d);
    }

    /**
     * The `cornerRadius` setter: a layer with a host view rounds the host element's corners;
     * any other layer sets both radii of its background rect.
     */
    method SetCornerRadius(value: real)
      requires Valid()
      modifies this`cornerRadius, doc`attrs
      ensures Valid() && cornerRadius == value
      ensures ownView != null ==>
        doc.attrs == old(doc.attrs)[ownView.domElement :=
                                      AttrsIn(old(doc.attrs), ownView.domElement)[StyleBorderRadius := Number(value)]]
      ensures ownView == null ==>
        doc.attrs == old(doc.attrs)[bgElement := AttrsIn(old(doc.attrs), bgElement)[Rx := Number(value)][Ry := Number(value)]]
    {
      cornerRadius := value;
      if ownView != null {
        doc.SetAttribute(ownView.domElement, StyleBorderRadius, Number(value));
      } else {
        doc.SetAttribute(bgElement, Rx, Number(value));
        doc.SetAttribute(bgElement, Ry, Number(value));
      }
    }

    /** The `opacity` setter: background and content both get the opacity style. */
    method SetOpacity(value: real)
      requires Valid()
      modifies this`opacity, doc`attrs
      ensures Valid() && opacity == value
      ensures doc.attrs == old(doc.attrs)[bgElement := AttrsIn(old(doc.attrs), bgElement)[StyleOpacity := Number(value)]]
                                         [contentElement := AttrsIn(old(doc.attrs), contentElement)[StyleOpacity := Number(value)]]
    {
      opacity := value;
      doc.SetAttribute(bgElement, StyleOpacity, Number(value));
      doc.SetAttribute(contentElement, StyleOpacity, Number(value));
    }

    /** The `backgroundColor` setter: the background's fill, "transparent" for no colour. */
    method SetBackgroundColor(value: Option<UIColor>)
      requires Valid()
      modifies this`backgroundColor, doc`attrs
      ensures Valid() && backgroundColor == value
      ensures doc.attrs == old(doc.attrs)[bgElement := AttrsIn(old(doc.attrs), bgElement)[Fill := FillFor(value)]]
    {
      backgroundColor := value;
      ApplyBackgroundFill();
    }

    /** The host's box shadow is the one the shadow properties call for. */
    ghost predicate ShadowApplied()
      reads this`ownView, this`shadowOpacity, this`shadowColor, this`shadowOffset, this`shadowRadius, doc`attrs
    {
      ownView != null ==>
        doc.Get(ownView.domElement, StyleBoxShadow) == ShadowFor(shadowOpacity, shadowColor, shadowOffset, shadowRadius)
    }

    /** What `resetShadow` leaves, from the attributes `a0` it started with: the host's box
        shadow set or cleared, and nothing else; no change at all without a host view. */
    ghost predicate ShadowResetFrom(a0: AttrMap)
      reads this`ownView, this`shadowOpacity, this`shadowColor, this`shadowOffset, this`shadowRadius, doc`attrs
    {
      && ShadowApplied()
      && (ownView == null ==> doc.attrs == a0)
      && (ownView != null ==>
            doc.attrs
            == a0[ownView.domElement := WithStyle(AttrsIn(a0, ownView.domElement), StyleBoxShadow,
                                                  ShadowFor(shadowOpacity, shadowColor, shadowOffset, shadowRadius))])
    }

    /** `resetShadow`: only a layer with a host view has a shadow, drawn on the host element. */
    method ResetShadow()
      requires Valid()
      modifies doc`attrs
      ensures Valid() && ShadowResetFrom(old(doc.attrs))
    {
      if ownView != null {
        var h := ownView.domElement;
        doc.SetStyle(h, StyleBoxShadow, ShadowFor(shadowOpacity, shadowColor, shadowOffset, shadowRadius));
      }
    }

    /** The `shadowColor` setter. */
    method SetShadowColor(value: Option<UIColor>)
      requires Valid()
      modifies this`shadowColor, doc`attrs
      ensures Valid() && shadowColor == value && ShadowResetFrom(old(doc.attrs))
    {
      shadowColor := value;
      ResetShadow();
    }

    /** The `shadowOpacity` setter. */
    method SetShadowOpacity(value: real)
      requires Valid()
      modifies this`shadowOpacity, doc`attrs
      ensures Valid() && shadowOpacity == value && ShadowResetFrom(old(doc.attrs))
    {
      shadowOpacity := value;
      ResetShadow();
    }

    /** The `shadowOffset` setter. */
    method SetShadowOffset(value: UISize)
      requires Valid()
      modifies this`shadowOffset, doc`attrs
      ensures Valid() && shadowOffset == value && ShadowResetFrom(old(doc.attrs))
    {
      shadowOffset := value;
      ResetShadow();
    }

    /** The `shadowRadius` setter. */
    method SetShadowRadius(value: real)
      requires Valid()
      modifies this`shadowRadius, doc`attrs
      ensures Valid() && shadowRadius == value && ShadowResetFrom(old(doc.attrs))
    {
      shadowRadius := value;
      ResetShadow();
    }
  }

  /**
   * `p.addSublayer(l)` for a layer `l` that has no superlayer and no container yet: `l` goes last
   * in `p`'s list, `l`'s new container is the document's newest node, and it goes just before
   * `p`'s border group.
   */
  method AddLone(p: CALayer, l: CALayer, ghost U: set<CALayer>)
    requires p.Valid() && l.Valid() && l != p && l.doc == p.doc
    requires l.superlayer == null && l.svgElement.None?
    modifies p`sublayers, p`svgElement, l`superlayer, l`svgElement
    modifies p.doc`count, p.doc`tags, p.doc`children, p.doc`attrs
    ensures p.Valid() && l.Valid()
    ensures p.sublayers == old(p.sublayers) + [l] && l.superlayer == p
    ensures old(TreeConsistent(U)) && p in U && l in U ==> TreeConsistent(U)
    ensures p.svgElement == (if old(p.svgElement).None? then Some(old(p.doc.count)) else old(p.svgElement))
    ensures p.doc.count == old(p.doc.count) + (if old(p.svgElement).None? then 2 else 1)
    ensures l.svgElement == Some(p.doc.count - 1)
    ensures p.doc.Kids(p.svgElement.value)
            == Without(if old(p.svgElement).None? then [p.bgElement, p.contentElement]
                       else old(p.doc.Kids(p.svgElement.value)),
                       l.MaterialiseMoves(true) + {l.svgElement.value, p.borderElement})
               + [l.svgElement.value, p.borderElement]
  {
    p.AddSublayer(l, U);
  }

  /**
   * `p.addSublayer(l)` for a materialised layer `l` under another layer `q`, into a layer `p`
   * with no container yet and no view: `l` leaves `q`'s list and its container leaves `q`'s,
   * which otherwise keeps its children; `p`'s new container holds `p`'s background and content,
   * then `l`'s container, then `p`'s border group.
   */
  method MoveToBare(p: CALayer, l: CALayer, q: CALayer, ghost U: set<CALayer>)
    requires p.Valid() && l.Valid() && q.Valid() && l != p && q != p && l != q
    requires l.doc == p.doc && q.doc == p.doc
    requires p.svgElement.None? && p.ownView == null && l.svgElement.Some? && q.svgElement.Some?
    requires l.superlayer == q && l.svgElement.value != p.borderElement
    modifies p`sublayers, p`svgElement, l`superlayer, l`svgElement, q`sublayers
    modifies p.doc`count, p.doc`tags, p.doc`children, p.doc`attrs
    ensures p.Valid() && l.Valid() && q.Valid()
    ensures p.sublayers == old(p.sublayers) + [l] && l.superlayer == p
    ensures q.sublayers == SpliceOut(old(q.sublayers), l)
    ensures old(TreeConsistent(U)) && p in U && l in U ==> TreeConsistent(U)
    ensures p.svgElement == Some(old(p.doc.count)) && p.doc.count == old(p.doc.count) + 1
    ensures l.svgElement == old(l.svgElement)
    ensures p.doc.Kids(q.svgElement.value)
            == Without(old(p.doc.Kids(q.svgElement.value)),
                       p.MaterialiseMoves(true) + {l.svgElement.value, p.borderElement})
    ensures p.doc.Kids(p.svgElement.value)
            == Without([p.bgElement, p.contentElement], {l.svgElement.value, p.borderElement})
               + [l.svgElement.value, p.borderElement]
  {
    ghost var qs := q.svgElement.value;
    p.AddSublayer(l, U);
    assert qs != p.svgElement.value;
    ghost var moved := {l.svgElement.value, p.borderElement};
    assert p.MaterialiseMoves(true) + l.MaterialiseMoves(false) + moved == p.MaterialiseMoves(true) + moved;
    assert l.MaterialiseMoves(false) + moved == moved;
  }

  /**
   * `A.addSublayer(B); A.addSublayer(C)` on three new layers: the sublayers are `[B, C]` in
   * that order, and so are the containers inside A's container, between A's background and
   * content and A's border group, which stays last.
   */
  method AddTwo(doc: Document) returns (a: CALayer, b: CALayer, c: CALayer)
    requires doc.Valid()
    modifies doc`count, doc`tags, doc`children, doc`attrs, doc`layerCount
    ensures fresh(a) && fresh(b) && fresh(c)
    ensures a.sublayers == [b, c] && b.superlayer == a && c.superlayer == a
    ensures TreeConsistent({a, b, c})
    ensures a.svgElement.Some? && b.svgElement.Some? && c.svgElement.Some?
    ensures doc.Kids(a.svgElement.value)
            == [a.bgElement, a.contentElement, b.svgElement.value, c.svgElement.value, a.borderElement]
  {
    a, b, c := OneAdded(doc);
    ghost var bs, k1 := b.svgElement.value, doc.Kids(a.svgElement.value);
    AddLone(a, c, {a, b, c});
    TwoAddsOrder(a, b, c, bs, c.svgElement.value, k1, doc.Kids(a.svgElement.value));
  }

  /** The list arithmetic of `AddTwo`: each add keeps A's background and content, and puts the
      new container just before A's border group. */
  lemma TwoAddsOrder(a: CALayer, b: CALayer, c: CALayer, bs: NodeId, cs: NodeId, k1: seq<NodeId>, k2: seq<NodeId>)
    requires Packed(a) && Packed(b) && Packed(c)
    requires a.borderElement < b.clipPathElement && b.borderElement < c.clipPathElement
    requires c.borderElement < bs < cs
    requires k1 == Without([a.bgElement, a.contentElement], b.MaterialiseMoves(true) + {bs, a.borderElement})
                   + [bs, a.borderElement]
    requires k2 == Without(k1, c.MaterialiseMoves(true) + {cs, a.borderElement}) + [cs, a.borderElement]
    ensures k2 == [a.bgElement, a.contentElement, bs, cs, a.borderElement]
  {
    var s := [a.bgElement, a.contentElement];
    WithoutNothing(s, b.MaterialiseMoves(true) + {bs, a.borderElement});
    assert k1 == (s + [bs]) + [a.borderElement];
    WithoutDropsLast(s + [bs], a.borderElement, c.MaterialiseMoves(true) + {cs, a.borderElement});
  }

  /** Three new layers A, B and C, after `A.addSublayer(B)`. */
  method OneAdded(doc: Document) returns (a: CALayer, b: CALayer, c: CALayer)
    requires doc.Valid()
    modifies doc`count, doc`tags, doc`children, doc`attrs, doc`layerCount
    ensures fresh(a) && fresh(b) && fresh(c) && a != b && b != c && a != c
    ensures a.doc == doc && b.doc == doc && c.doc == doc
    ensures a.Valid() && b.Valid() && c.Valid()
    ensures a.sublayers == [b] && b.superlayer == a && b.sublayers == []
    ensures c.sublayers == [] && c.superlayer == null && c.svgElement.None? && c.ownView == null
    ensures TreeConsistent({a, b, c})
    ensures a.svgElement.Some? && b.svgElement.Some?
    ensures Packed(a) && Packed(b) && Packed(c)
    ensures a.borderElement < b.clipPathElement && b.borderElement < c.clipPathElement
    ensures c.borderElement < b.svgElement.value
    ensures doc.Kids(a.svgElement.value)
            == Without([a.bgElement, a.contentElement], b.MaterialiseMoves(true) + {b.svgElement.value, a.borderElement})
               + [b.svgElement.value, a.borderElement]
  {
    a, b, c := ThreeLayers(doc);
    ghost var n0 := doc.count;
    AddLone(a, b, {a, b, c});
    c.ValidAsDocGrows(n0);
  }

  /** The four elements of `l` are allocated one after another, from the clip path to the border group. */
  ghost predicate Packed(l: CALayer) {
    && l.bgElement == l.clipPathElement + 1 && l.contentElement == l.clipPathElement + 2
    && l.borderElement == l.clipPathElement + 3
  }

  /** Three new layers on `doc`, each valid, none in a tree yet. */
  method ThreeLayers(doc: Document) returns (a: CALayer, b: CALayer, c: CALayer)
    requires doc.Valid()
    modifies doc`count, doc`tags, doc`children, doc`attrs, doc`layerCount
    ensures fresh(a) && fresh(b) && fresh(c) && a != b && b != c && a != c
    ensures a.doc == doc && b.doc == doc && c.doc == doc
    ensures a.Valid() && b.Valid() && c.Valid()
    ensures a.svgElement.None? && b.svgElement.None? && c.svgElement.None?
    ensures a.ownView == null && b.ownView == null && c.ownView == null
    ensures a.sublayers == [] && b.sublayers == [] && c.sublayers == []
    ensures a.superlayer == null && b.superlayer == null && c.superlayer == null
    ensures Packed(a) && Packed(b) && Packed(c)
    ensures a.borderElement < b.clipPathElement && b.borderElement < c.clipPathElement
    ensures c.borderElement < doc.count
    ensures TreeConsistent({a, b, c})
  {
    a := NewLayer(doc);
    b := NewLayer(doc);
    a.ValidAsDocGrows(b.clipPathElement);
    c := NewLayer(doc);
    a.ValidAsDocGrows(c.clipPathElement);
    b.ValidAsDocGrows(c.clipPathElement);
    LoneLayersConsistent(a, b, c);
  }

  /** `new CALayer()`, with only what the scenarios use of its contract. */
  method NewLayer(doc: Document) returns (l: CALayer)
    requires doc.Valid()
    modifies doc`count, doc`tags, doc`children, doc`attrs, doc`layerCount
    ensures fresh(l) && l.doc == doc && l.Valid()
    ensures l.svgElement.None? && l.ownView == null && l.sublayers == [] && l.superlayer == null
    ensures old(doc.count) == l.clipPathElement && doc.count == old(doc.count) + 4 && Packed(l)
  {
    l := new CALayer(doc);
  }

  /** Three layers with no superlayer and no sublayers form a consistent tree. */
  lemma LoneLayersConsistent(a: CALayer, b: CALayer, c: CALayer)
    requires a.superlayer == null && b.superlayer == null && c.superlayer == null
    requires a.sublayers == [] && b.sublayers == [] && c.sublayers == []
    ensures TreeConsistent({a, b, c})
  {
  }

  /**
   * Re-parenting: after `A.addSublayer(B)`, `C.addSublayer(B)` takes B out of A's list and B's
   * container out of A's container, and nests it in C's, before C's border group.
   */
  method Reparent(doc: Document) returns (a: CALayer, b: CALayer, c: CALayer)
    requires doc.Valid()
    modifies doc`count, doc`tags, doc`children, doc`attrs, doc`layerCount
    ensures fresh(a) && fresh(b) && fresh(c)
    ensures a.sublayers == [] && c.sublayers == [b] && b.superlayer == c
    ensures TreeConsistent({a, b, c})
    ensures a.svgElement.Some? && b.svgElement.Some? && c.svgElement.Some?
    ensures doc.Kids(a.svgElement.value) == [a.bgElement, a.contentElement, a.borderElement]
    ensures doc.Kids(c.svgElement.value) == [c.bgElement, c.contentElement, b.svgElement.value, c.borderElement]
  {
    a, b, c := OneAdded(doc);
    ghost var bs, k1 := b.svgElement.value, doc.Kids(a.svgElement.value);
    MoveToBare(c, b, a, {a, b, c});
    ReparentLists(a, b, c, bs, k1, doc.Kids(a.svgElement.value), doc.Kids(c.svgElement.value));
  }

  /** The list arithmetic of `Reparent`: B's container leaves A's container and lands before C's
      border group. */
  lemma ReparentLists(a: CALayer, b: CALayer, c: CALayer, bs: NodeId, k1: seq<NodeId>, ka: seq<NodeId>, kc: seq<NodeId>)
    requires Packed(a) && Packed(b) && Packed(c)
    requires a.borderElement < b.clipPathElement && b.borderElement < c.clipPathElement && c.borderElement < bs
    requires k1 == Without([a.bgElement, a.contentElement], b.MaterialiseMoves(true) + {bs, a.borderElement})
                   + [bs, a.borderElement]
    requires ka == Without(k1, c.MaterialiseMoves(true) + {bs, c.borderElement})
    requires kc == Without([c.bgElement, c.contentElement], {bs, c.borderElement}) + [bs, c.borderElement]
    ensures ka == [a.bgElement, a.contentElement, a.borderElement]
    ensures kc == [c.bgElement, c.contentElement, bs, c.borderElement]
  {
    var s, d := [a.bgElement, a.contentElement], c.MaterialiseMoves(true) + {bs, c.borderElement};
    WithoutNothing(s, b.MaterialiseMoves(true) + {bs, a.borderElement});
    assert k1 == s + [bs] + [a.borderElement];
    WithoutConcat(s + [bs], [a.borderElement], d);
    WithoutConcat(s, [bs], d);
    WithoutNothing(s, d);
    WithoutNothing([a.borderElement], d);
    assert Without([bs], d) == [];
    WithoutNothing([c.bgElement, c.contentElement], {bs, c.borderElement});
  }

  /** The background fill write of the `backgroundColor` setter. */
  function FillWrites(bg: NodeId, v: Value): seq<AttrWrite> {
    [AttrWrite(bg, Fill, v)]
  }

  /** The two opacity writes of the `opacity` setter. */
  function OpacityWrites(bg: NodeId, content: NodeId, v: Value): seq<AttrWrite> {
    [AttrWrite(bg, StyleOpacity, v), AttrWrite(content, StyleOpacity, v)]
  }

  /** The corner writes of the `cornerRadius` setter: the host's border radius, or the
      background's two corner radii for a layer without a view. */
  function RadiusWrites(bg: NodeId, host: Option<NodeId>, v: Value): seq<AttrWrite> {
    if host.Some? then [AttrWrite(host.value, StyleBorderRadius, v)] else [AttrWrite(bg, Rx, v), AttrWrite(bg, Ry, v)]
  }

  /** What the three setters' contracts state of the attribute map, as their writes. */
  lemma SettersAsWrites(a: AttrMap, bg: NodeId, content: NodeId, host: Option<NodeId>, fill: Value, op: Value, r: Value)
    requires bg != content
    ensures a[bg := AttrsIn(a, bg)[Fill := fill]] == WriteAll(a, FillWrites(bg, fill))
    ensures a[bg := AttrsIn(a, bg)[StyleOpacity := op]][content := AttrsIn(a, content)[StyleOpacity := op]]
            == WriteAll(a, OpacityWrites(bg, content, op))
    ensures host.Some? ==>
      a[host.value := AttrsIn(a, host.value)[StyleBorderRadius := r]] == WriteAll(a, RadiusWrites(bg, host, r))
    ensures host.None? ==> a[bg := AttrsIn(a, bg)[Rx := r][Ry := r]] == WriteAll(a, RadiusWrites(bg, host, r))
  {
    WriteAllShort(a, AttrWrite(bg, Fill, fill), AttrWrite(bg, Fill, fill));
    WriteAllShort(a, AttrWrite(bg, StyleOpacity, op), AttrWrite(content, StyleOpacity, op));
    if host.Some? {
      WriteAllShort(a, AttrWrite(host.value, StyleBorderRadius, r), AttrWrite(host.value, StyleBorderRadius, r));
    } else {
      WriteAllShort(a, AttrWrite(bg, Rx, r), AttrWrite(bg, Ry, r));
    }
  }

  /** The fill, opacity and corner writes touch different attributes, so doing them in the
      reverse order leaves the same attribute map. */
  lemma StyleWritesCommute(a: AttrMap, bg: NodeId, content: NodeId, host: Option<NodeId>, fill: Value, op: Value, r: Value)
    ensures WriteAll(a, FillWrites(bg, fill) + OpacityWrites(bg, content, op) + RadiusWrites(bg, host, r))
            == WriteAll(a, RadiusWrites(bg, host, r) + OpacityWrites(bg, content, op) + FillWrites(bg, fill))
  {
    var f, o1, o2 := AttrWrite(bg, Fill, fill), AttrWrite(bg, StyleOpacity, op), AttrWrite(content, StyleOpacity, op);
    if host.Some? {
      var h := AttrWrite(host.value, StyleBorderRadius, r);
      assert [f] + [o1, o2] + [h] == [f, o1, o2] + [h];
      HostedWritesCommute(a, f, o1, o2, h);
    } else {
      var x, y := AttrWrite(bg, Rx, r), AttrWrite(bg, Ry, r);
      assert [f] + [o1, o2] + [x, y] == [f, o1, o2] + [x, y];
      BareWritesCommute(a, f, o1, o2, x, y);
    }
  }

  /** The corner write on the host moved from last to first, and the fill from first to last. */
  lemma HostedWritesCommute(a: AttrMap, f: AttrWrite, o1: AttrWrite, o2: AttrWrite, h: AttrWrite)
    requires f.key == Fill && o1.key == StyleOpacity && o2.key == StyleOpacity && h.key == StyleBorderRadius
    ensures WriteAll(a, [f, o1, o2] + [h]) == WriteAll(a, [h] + [o1, o2] + [f])
  {
    calc {
      WriteAll(a, [f, o1, o2] + [h]);
      { SwapWrites(a, [f, o1], o2, h, []); assert [f, o1, o2] + [h] == [f, o1] + [o2, h] + []; }
      WriteAll(a, [f, o1] + [h, o2] + []);
      { SwapWrites(a, [f], o1, h, [o2]); assert [f, o1] + [h, o2] + [] == [f] + [o1, h] + [o2]; }
      WriteAll(a, [f] + [h, o1] + [o2]);
      { SwapWrites(a, [], f, h, [o1, o2]); assert [f] + [h, o1] + [o2] == [] + [f, h] + [o1, o2]; }
      WriteAll(a, [] + [h, f] + [o1, o2]);
      { SwapWrites(a, [h], f, o1, [o2]); assert [] + [h, f] + [o1, o2] == [h] + [f, o1] + [o2]; }
      WriteAll(a, [h] + [o1, f] + [o2]);
      { SwapWrites(a, [h, o1], f, o2, []); assert [h] + [o1, f] + [o2] == [h, o1] + [f, o2] + []; }
      WriteAll(a, [h, o1] + [o2, f] + []);
      { assert [h, o1] + [o2, f] + [] == [h] + [o1, o2] + [f]; }
      WriteAll(a, [h] + [o1, o2] + [f]);
    }
  }

  /** The two corner writes on the background moved from last to first, and the fill from
      first to last. */
  lemma BareWritesCommute(a: AttrMap, f: AttrWrite, o1: AttrWrite, o2: AttrWrite, x: AttrWrite, y: AttrWrite)
    requires f.key == Fill && o1.key == StyleOpacity && o2.key == StyleOpacity && x.key == Rx && y.key == Ry
    ensures WriteAll(a, [f, o1, o2] + [x, y]) == WriteAll(a, [x, y] + [o1, o2] + [f])
  {
    calc {
      WriteAll(a, [f, o1, o2] + [x, y]);
      { SwapWrites(a, [f, o1], o2, x, [y]); assert [f, o1, o2] + [x, y] == [f, o1] + [o2, x] + [y]; }
      WriteAll(a, [f, o1] + [x, o2] + [y]);
      { SwapWrites(a, [f], o1, x, [o2, y]); assert [f, o1] + [x, o2] + [y] == [f] + [o1, x] + [o2, y]; }
      WriteAll(a, [f] + [x, o1] + [o2, y]);
      { SwapWrites(a, [], f, x, [o1, o2, y]); assert [f] + [x, o1] + [o2, y] == [] + [f, x] + [o1, o2, y]; }
      WriteAll(a, [] + [x, f] + [o1, o2, y]);
      { SwapWrites(a, [x, f, o1], o2, y, []); assert [] + [x, f] + [o1, o2, y] == [x, f, o1] + [o2, y] + []; }
      WriteAll(a, [x, f, o1] + [y, o2] + []);
      { SwapWrites(a, [x, f], o1, y, [o2]); assert [x, f, o1] + [y, o2] + [] == [x, f] + [o1, y] + [o2]; }
      WriteAll(a, [x, f] + [y, o1] + [o2]);
      { SwapWrites(a, [x], f, y, [o1, o2]); assert [x, f] + [y, o1] + [o2] == [x] + [f, y] + [o1, o2]; }
      WriteAll(a, [x] + [y, f] + [o1, o2]);
      { SwapWrites(a, [x, y], f, o1, [o2]); assert [x] + [y, f] + [o1, o2] == [x, y] + [f, o1] + [o2]; }
      WriteAll(a, [x, y] + [o1, f] + [o2]);
      { SwapWrites(a, [x, y, o1], f, o2, []); assert [x, y] + [o1, f] + [o2] == [x, y, o1] + [f, o2] + []; }
      WriteAll(a, [x, y, o1] + [o2, f] + []);
      { assert [x, y, o1] + [o2, f] + [] == [x, y] + [o1, o2] + [f]; }
      WriteAll(a, [x, y] + [o1, o2] + [f]);
    }
  }

  /** The host element of `l`'s view, if it has one. */
  ghost function HostOf(l: CALayer): Option<NodeId>
    reads l`ownView
  {
    if l.ownView == null then None else Some(l.ownView.domElement)
  }

  /** The background colour, then the opacity, then the corner radius, as writes. */
  method StylesForward(l: CALayer, color: Option<UIColor>, opacity: real, radius: real)
    requires l.Valid()
    modifies l`backgroundColor, l`opacity, l`cornerRadius, l.doc`attrs
    ensures l.doc.attrs
            == WriteAll(old(l.doc.attrs), FillWrites(l.bgElement, FillFor(color))
                                          + OpacityWrites(l.bgElement, l.contentElement, Number(opacity))
                                          + RadiusWrites(l.bgElement, HostOf(l), Number(radius)))
  {
    ghost var a0, fw, ow := l.doc.attrs, FillWrites(l.bgElement, FillFor(color)),
                           OpacityWrites(l.bgElement, l.contentElement, Number(opacity));
    SettersAsWrites(a0, l.bgElement, l.contentElement, HostOf(l), FillFor(color), Number(opacity), Number(radius));
    l.SetBackgroundColor(color);
    ghost var a1 := l.doc.attrs;
    SettersAsWrites(a1, l.bgElement, l.contentElement, HostOf(l), FillFor(color), Number(opacity), Number(radius));
    l.SetOpacity(opacity);
    ghost var a2 := l.doc.attrs;
    SettersAsWrites(a2, l.bgElement, l.contentElement, HostOf(l), FillFor(color), Number(opacity), Number(radius));
    l.SetCornerRadius(radius);
    WriteAllConcat(a0, fw, ow);
    WriteAllConcat(a0, fw + ow, RadiusWrites(l.bgElement, HostOf(l), Number(radius)));
  }

  /** The corner radius, then the opacity, then the background colour, as writes. */
  method StylesReversed(l: CALayer, color: Option<UIColor>, opacity: real, radius: real)
    requires l.Valid()
    modifies l`backgroundColor, l`opacity, l`cornerRadius, l.doc`attrs
    ensures l.doc.attrs
            == WriteAll(old(l.doc.attrs), RadiusWrites(l.bgElement, HostOf(l), Number(radius))
                                          + OpacityWrites(l.bgElement, l.contentElement, Number(opacity))
                                          + FillWrites(l.bgElement, FillFor(color)))
  {
    ghost var a0, rw, ow := l.doc.attrs, RadiusWrites(l.bgElement, HostOf(l), Number(radius)),
                           OpacityWrites(l.bgElement, l.contentElement, Number(opacity));
    SettersAsWrites(a0, l.bgElement, l.contentElement, HostOf(l), FillFor(color), Number(opacity), Number(radius));
    l.SetCornerRadius(radius);
    ghost var a1 := l.doc.attrs;
    SettersAsWrites(a1, l.bgElement, l.contentElement, HostOf(l), FillFor(color), Number(opacity), Number(radius));
    l.SetOpacity(opacity);
    ghost var a2 := l.doc.attrs;
    SettersAsWrites(a2, l.bgElement, l.contentElement, HostOf(l), FillFor(color), Number(opacity), Number(radius));
    l.SetBackgroundColor(color);
    WriteAllConcat(a0, rw, ow);
    WriteAllConcat(a0, rw + ow, FillWrites(l.bgElement, FillFor(color)));
  }

  /**
   * The `backgroundColor`, `opacity` and `cornerRadius` setters commute: on two layers over
   * documents with the same attributes and the same element numbers, setting the background
   * colour, then the opacity, then the corner radius on one, and the three in the reverse
   * order on the other, leaves the two documents with the same attributes.
   */
  method StyleOrder(p: CALayer, q: CALayer, color: Option<UIColor>, opacity: real, radius: real)
    requires p.Valid() && q.Valid() && p.doc != q.doc && p.doc.attrs == q.doc.attrs
    requires p.bgElement == q.bgElement && p.contentElement == q.contentElement && HostOf(p) == HostOf(q)
    modifies p`backgroundColor, p`opacity, p`cornerRadius, p.doc`attrs
    modifies q`backgroundColor, q`opacity, q`cornerRadius, q.doc`attrs
    ensures p.doc.attrs == q.doc.attrs
  {
    ghost var a0, host := p.doc.attrs, HostOf(p);
    StylesForward(p, color, opacity, radius);
    StylesReversed(q, color, opacity, radius);
    StyleWritesCommute(a0, p.bgElement, p.contentElement, host, FillFor(color), Number(opacity), Number(radius));
  }
}
