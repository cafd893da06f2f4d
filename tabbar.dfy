/**
 * `UITabBarController`: a list of item controllers, the index of the selected one, and the
 * child controllers whose views it shows. The collaborators it drives (the lifecycle callbacks
 * of `UIViewController`, the `UITabBar`, the `emit` channel and the layout pass) are recorded
 * as events in call order; a child's view `hidden` flag is a field of the child.
 */
module TabBar {
  import opened Wrappers
  import opened Sequences
  import opened Geometry

  /** A child or item controller, reduced to what the tab bar controller reads and writes. */
  class UIViewController {
    /** `parentViewController`; `null` stands for `undefined`. */
    var parentViewController: object?
    /** `iView.hidden`. */
    var viewHidden: bool

    constructor ()
      ensures parentViewController == null && !viewHidden
    {
      parentViewController := null;
      viewHidden := false;
    }
  }

  /**
   * The calls the controller makes on its collaborators. A lifecycle callback carries the value
   * `selectedIndex` had when the callback ran.
   */
  datatype TabEvent =
    | SelectionEmitted(reselected: bool)
    | ChildAdded(child: UIViewController)
    | ChildRemoved(child: UIViewController)
    | TabBarToFront
    | LayoutRequested
    | TabBarSelected(index: int)
    | TabBarItemsReset
    | WillDisappear(vc: UIViewController, seen: int)
    | WillAppear(vc: UIViewController, seen: int)
    | DidDisappear(vc: UIViewController, seen: int)
    | DidAppear(vc: UIViewController, seen: int)
  {
    predicate IsWill() { WillDisappear? || WillAppear? }
    predicate IsDid() { DidDisappear? || DidAppear? }
  }

  /** `items[i]` read as JavaScript does: `undefined` outside the list, negative `i` included. */
  function ItemAt(items: seq<UIViewController>, i: int): (r: Option<UIViewController>)
    ensures r.Some? <==> 0 <= i < |items|
    ensures r.Some? ==> r.value == items[i]
  {
    if 0 <= i < |items| then Some(items[i]) else None
  }

  /** The `selectedViewController` setter's index: `Math.max(0, indexOf(vc))`. */
  function SelectedIndexFor(items: seq<UIViewController>, vc: UIViewController): (i: int)
    ensures 0 <= i && (|items| > 0 ==> i < |items|)
    ensures vc in items ==> items[i] == vc && vc !in items[..i]
    ensures vc !in items ==> i == 0
  {
    var k := IndexOf(items, vc);
    if k < 0 then 0 else k
  }

  /**
   * The calls a selection change from `from` to `to` makes, in order: the old controller's
   * `viewWillDisappear`, the new one's `viewWillAppear` (both seeing the old index), the tab
   * bar's `setSelectedIndex`, the old controller's `viewDidDisappear`, the new one's
   * `viewDidAppear` (both seeing the new index), then the selection event. A callback whose
   * controller does not exist is skipped.
   */
  function Transition(items: seq<UIViewController>, from: int, to: int): seq<TabEvent> {
    var o := ItemAt(items, from);
    var n := ItemAt(items, to);
    (if o.Some? then [WillDisappear(o.value, from)] else [])
    + (if n.Some? then [WillAppear(n.value, from)] else [])
    + [TabBarSelected(to)]
    + (if o.Some? then [DidDisappear(o.value, to)] else [])
    + (if n.Some? then [DidAppear(n.value, to)] else [])
    + [SelectionEmitted(false)]
  }

  /** Every `will` callback of a transition comes before every `did` callback. */
  lemma {:induction false} WillBeforeDid(items: seq<UIViewController>, from: int, to: int)
    ensures var t := Transition(items, from, to);
      forall i, j :: 0 <= i < |t| && 0 <= j < |t| && t[i].IsDid() && t[j].IsWill() ==> j < i
  {
    var t := Transition(items, from, to);
    var o := ItemAt(items, from);
    var n := ItemAt(items, to);
    var wills := (if o.Some? then [WillDisappear(o.value, from)] else [])
      + (if n.Some? then [WillAppear(n.value, from)] else []);
    var rest := (if o.Some? then [DidDisappear(o.value, to)] else [])
      + (if n.Some? then [DidAppear(n.value, to)] else []) + [SelectionEmitted(false)];
    assert t == wills + [TabBarSelected(to)] + rest;
    assert forall k :: 0 <= k < |wills| ==> wills[k].IsWill();
    assert forall k :: 0 <= k < |rest| ==> !rest[k].IsWill();
    forall k | 0 <= k < |t|
      ensures t[k].IsWill() <==> k < |wills|
      ensures t[k].IsDid() ==> k > |wills|
    {
      if k < |wills| {
        assert t[k] == wills[k];
      } else if k > |wills| {
        assert t[k] == rest[k - |wills| - 1];
      }
    }
  }

  /** The four callbacks of a transition when both controllers exist; fewer otherwise. */
  lemma TransitionCases(items: seq<UIViewController>, from: int, to: int)
    ensures var t := Transition(items, from, to);
      var fs := 0 <= from < |items|;
      var ts := 0 <= to < |items|;
      && (fs && ts ==> t == [WillDisappear(items[from], from), WillAppear(items[to], from), TabBarSelected(to),
                             DidDisappear(items[from], to), DidAppear(items[to], to), SelectionEmitted(false)])
      && (fs && !ts ==> t == [WillDisappear(items[from], from), TabBarSelected(to), DidDisappear(items[from], to),
                              SelectionEmitted(false)])
      && (!fs && ts ==> t == [WillAppear(items[to], from), TabBarSelected(to), DidAppear(items[to], to),
                              SelectionEmitted(false)])
      && (!fs && !ts ==> t == [TabBarSelected(to), SelectionEmitted(false)])
  {
  }

  /**
   * Each callback of a transition happens exactly when its controller exists: the disappear
   * pair for the item at the old index, the appear pair for the item at the new index.
   */
  lemma {:induction false} TransitionCallbacksPresent(items: seq<UIViewController>, from: int, to: int)
    ensures var t := Transition(items, from, to);
      && ((exists c, s :: WillDisappear(c, s) in t) <==> 0 <= from < |items|)
      && ((exists c, s :: WillAppear(c, s) in t) <==> 0 <= to < |items|)
      && ((exists c, s :: DidDisappear(c, s) in t) <==> 0 <= from < |items|)
      && ((exists c, s :: DidAppear(c, s) in t) <==> 0 <= to < |items|)
  {
    TransitionCases(items, from, to);
    var t := Transition(items, from, to);
    if 0 <= from < |items| {
      assert WillDisappear(items[from], from) in t;
      assert DidDisappear(items[from], to) in t;
    }
    if 0 <= to < |items| {
      assert WillAppear(items[to], from) in t;
      assert DidAppear(items[to], to) in t;
    }
  }

  /**
   * The `will` callbacks see the old index and the `did` callbacks the new one, the disappear
   * pair goes to the item at the old index and the appear pair to the item at the new index,
   * the tab bar is told the new index, and the selection event comes last.
   */
  lemma {:induction false} TransitionCallbacksTargets(items: seq<UIViewController>, from: int, to: int)
    ensures var t := Transition(items, from, to);
      && (forall e :: e in t && e.IsWill() ==> e.seen == from)
      && (forall e :: e in t && e.IsDid() ==> e.seen == to)
      && (forall e :: e in t && (e.WillDisappear? || e.DidDisappear?) ==> 0 <= from < |items| && e.vc == items[from])
      && (forall e :: e in t && (e.WillAppear? || e.DidAppear?) ==> 0 <= to < |items| && e.vc == items[to])
      && TabBarSelected(to) in t && Last(t) == SelectionEmitted(false)
  {
    TransitionCases(items, from, to);
  }

  /** The tab bar's frame: a strip of the bar's height along the bottom of the bounds, of zero
      height when the bar is hidden. */
  function BarFrame(bounds: UIRect, tabBarHidden: bool, barHeight: real): (r: UIRect)
    ensures r.x == 0.0 && r.width == bounds.width
    ensures r.y + r.height == bounds.height
    ensures tabBarHidden ==> r.height == 0.0
    ensures !tabBarHidden ==> r.height == barHeight
  {
    if tabBarHidden then UIRect(0.0, bounds.height, bounds.width, 0.0)
    else UIRect(0.0, bounds.height - barHeight, bounds.width, barHeight)
  }

  /** The content frame: everything above the tab bar. */
  function ContentFrame(bounds: UIRect, tabBarHidden: bool, barHeight: real): (r: UIRect)
    ensures r.x == 0.0 && r.y == 0.0 && r.width == bounds.width
    ensures r.height + BarFrame(bounds, tabBarHidden, barHeight).height == bounds.height
  {
    UIRect(0.0, 0.0, bounds.width, bounds.height - BarFrame(bounds, tabBarHidden, barHeight).height)
  }

  /** Content and bar tile the bounds: the content ends where the bar begins, and a hidden bar
      leaves the whole height to the content. */
  lemma FramesTile(bounds: UIRect, tabBarHidden: bool, barHeight: real)
    ensures var c := ContentFrame(bounds, tabBarHidden, barHeight);
      var b := BarFrame(bounds, tabBarHidden, barHeight);
      && c.y + c.height == b.y && b.y + b.height == bounds.height
      && c.width == b.width == bounds.width
      && (tabBarHidden ==> c.height == bounds.height)
  {
  }

  class UITabBarController {
    var itemControllers: seq<UIViewController>
    var childViewControllers: seq<UIViewController>
    var selectedIndex: int
    /** The collaborator calls made so far, oldest first. */
    var events: seq<TabEvent>
    /** `tabBar.hidden` and `tabBar.barHeight`. */
    var tabBarHidden: bool
    var barHeight: real
    /** `iView.bounds`. */
    var bounds: UIRect

    constructor (bounds: UIRect, barHeight: real)
      ensures itemControllers == [] && childViewControllers == [] && selectedIndex == -1
      ensures events == [] && !tabBarHidden && this.barHeight == barHeight && this.bounds == bounds
    {
      itemControllers := [];
      childViewControllers := [];
      selectedIndex := -1;
      events := [];
      tabBarHidden := false;
      this.barHeight := barHeight;
      this.bounds := bounds;
    }

    /** The `selectedViewController` getter. */
    function SelectedViewController(): (r: Option<UIViewController>)
      reads this
      ensures r.Some? <==> 0 <= selectedIndex < |itemControllers|
      ensures r.Some? ==> r.value == itemControllers[selectedIndex]
    {
      ItemAt(itemControllers, selectedIndex)
    }

    /** The `barFrame` getter: a strip along the bottom of the bounds, as tall as the bar, or of
        zero height at the bottom edge when the bar is hidden. */
    function CurrentBarFrame(): (r: UIRect)
      reads this
      ensures r.x == 0.0 && r.width == bounds.width && r.y + r.height == bounds.height
      ensures r.height == if tabBarHidden then 0.0 else barHeight
    {
      BarFrame(bounds, tabBarHidden, barHeight)
    }

    /** The `contentFrame` getter: the part of the bounds above the bar's frame. */
    function CurrentContentFrame(): (r: UIRect)
      reads this
      ensures r.x == 0.0 && r.y == 0.0 && r.width == bounds.width
      ensures r.y + r.height == CurrentBarFrame().y
      ensures tabBarHidden ==> r.height == bounds.height
      ensures !tabBarHidden ==> r.height == bounds.height - barHeight
    {
      ContentFrame(bounds, tabBarHidden, barHeight)
    }

    /** The controllers whose fields the selection may write. */
    function Controllers(): set<UIViewController>
      reads this
    {
      set c | c in itemControllers + childViewControllers
    }

    /** Every child's view is hidden exactly when the child is not the item at `value`. */
    ghost predicate HiddenFlagsFor(value: int)
      reads this, childViewControllers
    {
      forall c :: c in childViewControllers ==> c.viewHidden == (IndexOf(itemControllers, c) != value)
    }

    /**
     * The `selectedIndex` setter. Re-selecting the current index only emits the reselect event;
     * a negative index is stored without any call. Otherwise an item at the new index that has
     * no parent is first adopted as a child (added, its view added, the tab bar brought to the
     * front, a layout pass requested), then the transition's callbacks run around the update
     * of the index and of every child's hidden flag.
     */
    method SetSelectedIndex(value: int)
      modifies this`selectedIndex, this`events, this`childViewControllers
      modifies Controllers()`parentViewController, Controllers()`viewHidden
      ensures old(selectedIndex) == value ==>
        && events == old(events) + [SelectionEmitted(true)]
        && selectedIndex == value && childViewControllers == old(childViewControllers)
        && unchanged(Controllers())
      ensures old(selectedIndex) != value && value < 0 ==>
        && selectedIndex == value && events == old(events)
        && childViewControllers == old(childViewControllers) && unchanged(Controllers())
      ensures old(selectedIndex) != value && value >= 0 ==>
        var adopt := old(Orphan(value));
        && selectedIndex == value
        && (adopt ==>
              && childViewControllers == old(childViewControllers) + [itemControllers[value]]
              && events == old(events) + [ChildAdded(itemControllers[value]), TabBarToFront, LayoutRequested]
                           + Transition(itemControllers, old(selectedIndex), value))
        && (!adopt ==>
              && childViewControllers == old(childViewControllers)
              && events == old(events) + Transition(itemControllers, old(selectedIndex), value))
        && HiddenFlagsFor(value)
      ensures forall c :: c in old(Controllers()) ==>
        c.parentViewController ==
          if old(selectedIndex) != value && old(Orphan(value)) && c == itemControllers[value] then this
          else old(c.parentViewController)
      ensures forall c :: c in old(Controllers()) && c !in childViewControllers ==> c.viewHidden == old(c.viewHidden)
    {
      if selectedIndex == value {
        events := events + [SelectionEmitted(true)];
        return;
      }
      if value < 0 {
        selectedIndex := value;
        return;
      }
      AdoptIfOrphan(value);
      RunTransition(value);
    }

    /** The item at `value` exists and has no parent controller. */
    predicate Orphan(value: int)
      reads this, itemControllers
    {
      0 <= value < |itemControllers| && itemControllers[value].parentViewController == null
    }

    /** The adoption step of the `selectedIndex` setter. */
    method AdoptIfOrphan(value: int)
      modifies this`childViewControllers, this`events, Controllers()`parentViewController
      ensures old(Orphan(value)) ==>
        && childViewControllers == old(childViewControllers) + [itemControllers[value]]
        && events == old(events) + [ChildAdded(itemControllers[value]), TabBarToFront, LayoutRequested]
      ensures !old(Orphan(value)) ==> childViewControllers == old(childViewControllers) && events == old(events)
      ensures forall c :: c in old(Controllers()) ==>
        c.parentViewController == if old(Orphan(value)) && c == itemControllers[value] then this else old(c.parentViewController)
      ensures Controllers() == old(Controllers())
    {
      if Orphan(value) {
        var it := itemControllers[value];
        AddChildViewController(it);
        events := events + [TabBarToFront, LayoutRequested];
        assert it in itemControllers;
      }
    }

    /** The callbacks, index update and hidden flags of a selection change to `value`. */
    method RunTransition(value: int)
      modifies this`selectedIndex, this`events, Controllers()`viewHidden
      ensures selectedIndex == value
      ensures events == old(events) + Transition(itemControllers, old(selectedIndex), value)
      ensures HiddenFlagsFor(value)
      ensures forall c :: c in old(Controllers()) && c !in childViewControllers ==> c.viewHidden == old(c.viewHidden)
    {
      var o := ItemAt(itemControllers, selectedIndex);
      var n := ItemAt(itemControllers, value);
      ghost var before := events;
      ghost var wills := (if o.Some? then [WillDisappear(o.value, selectedIndex)] else [])
        + (if n.Some? then [WillAppear(n.value, selectedIndex)] else []);
      if o.Some? { events := events + [WillDisappear(o.value, selectedIndex)]; }
      if n.Some? { events := events + [WillAppear(n.value, selectedIndex)]; }
      assert events == before + wills;
      selectedIndex := value;
      UpdateHiddenFlags(value);
      events := events + [TabBarSelected(value)];
      ghost var mid := events;
      ghost var dids := (if o.Some? then [DidDisappear(o.value, value)] else [])
        + (if n.Some? then [DidAppear(n.value, value)] else []) + [SelectionEmitted(false)];
      if o.Some? { events := events + [DidDisappear(o.value, selectedIndex)]; }
      if n.Some? { events := events + [DidAppear(n.value, selectedIndex)]; }
      events := events + [SelectionEmitted(false)];
      assert events == mid + dids;
    }

    /** `addChildViewController(c)` together with `iView.addSubview(c.iView)`. */
    method AddChildViewController(c: UIViewController)
      modifies this`childViewControllers, this`events, c`parentViewController
      ensures childViewControllers == old(childViewControllers) + [c]
      ensures c.parentViewController == this
      ensures events == old(events) + [ChildAdded(c)]
    {
      childViewControllers := childViewControllers + [c];
      c.parentViewController := this;
      events := events + [ChildAdded(c)];
    }

    /** The `forEach` over the children that sets each child's hidden flag. */
    method UpdateHiddenFlags(value: int)
      modifies (set c | c in childViewControllers)`viewHidden
      ensures HiddenFlagsFor(value)
      ensures forall c :: c in old(Controllers()) && c !in childViewControllers ==> c.viewHidden == old(c.viewHidden)
    {
      var i := 0;
      while i < |childViewControllers|
        invariant 0 <= i <= |childViewControllers|
        invariant forall k :: 0 <= k < i ==>
          childViewControllers[k].viewHidden == (IndexOf(itemControllers, childViewControllers[k]) != value)
      {
        var c := childViewControllers[i];
        c.viewHidden := IndexOf(itemControllers, c) != value;
        i := i + 1;
      }
    }

    /** The `selectedViewController` setter: selects `max(0, indexOf(vc))`. */
    method SetSelectedViewController(vc: UIViewController)
      modifies this`selectedIndex, this`events, this`childViewControllers
      modifies Controllers()`parentViewController, Controllers()`viewHidden
      ensures itemControllers == old(itemControllers)
      ensures selectedIndex == SelectedIndexFor(itemControllers, vc)
      ensures vc in itemControllers ==> SelectedViewController() == Some(vc)
      ensures var value := SelectedIndexFor(itemControllers, vc);
        && (old(selectedIndex) == value ==>
              && events == old(events) + [SelectionEmitted(true)]
              && childViewControllers == old(childViewControllers) && unchanged(old(Controllers())))
        && (old(selectedIndex) != value ==>
              var adopt := old(Orphan(value));
              && (adopt ==>
                    && childViewControllers == old(childViewControllers) + [itemControllers[value]]
                    && events == old(events) + [ChildAdded(itemControllers[value]), TabBarToFront, LayoutRequested]
                                 + Transition(itemControllers, old(selectedIndex), value))
              && (!adopt ==>
                    && childViewControllers == old(childViewControllers)
                    && events == old(events) + Transition(itemControllers, old(selectedIndex), value))
              && HiddenFlagsFor(value))
      ensures forall c :: c in old(Controllers()) ==>
        c.parentViewController ==
          if old(selectedIndex) != SelectedIndexFor(itemControllers, vc) && old(Orphan(SelectedIndexFor(itemControllers, vc)))
             && c == itemControllers[SelectedIndexFor(itemControllers, vc)] then this
          else old(c.parentViewController)
      ensures forall c :: c in old(Controllers()) && c !in childViewControllers ==> c.viewHidden == old(c.viewHidden)
    {
      SetSelectedIndex(SelectedIndexFor(itemControllers, vc));
    }

    /**
     * `setViewControllers`. Every current child leaves (visiting the child list as it was when
     * the loop started), the new list becomes the items, only its first controller is added as
     * a child, the tab bar is brought to the front and its items reset, index 0 is selected and
     * a layout pass requested.
     */
    method SetViewControllers(viewControllers: seq<UIViewController>)
      modifies this`itemControllers, this`selectedIndex, this`events, this`childViewControllers
      modifies (set c | c in childViewControllers + viewControllers)`parentViewController
      modifies (set c | c in childViewControllers + viewControllers)`viewHidden
      ensures itemControllers == viewControllers && selectedIndex == 0
      ensures childViewControllers == if |viewControllers| > 0 then [viewControllers[0]] else []
      ensures forall c :: c in old(childViewControllers) && (|viewControllers| == 0 || c != viewControllers[0]) ==>
        c.parentViewController == null
      ensures |viewControllers| > 0 ==> viewControllers[0].parentViewController == this
      ensures forall c :: c in viewControllers && c !in old(childViewControllers) && c != viewControllers[0] ==>
        c.parentViewController == old(c.parentViewController)
      ensures old(selectedIndex) != 0 ==> HiddenFlagsFor(0)
      ensures forall c :: c in old(childViewControllers) + viewControllers && (old(selectedIndex) == 0 || c !in childViewControllers) ==>
        c.viewHidden == old(c.viewHidden)
      ensures var setup := old(events) + Removals(old(childViewControllers))
          + (if |viewControllers| > 0 then [ChildAdded(viewControllers[0])] else [])
          + [TabBarToFront, TabBarItemsReset];
        && (old(selectedIndex) == 0 ==> events == setup + [SelectionEmitted(true), LayoutRequested])
        && (old(selectedIndex) != 0 ==>
              events == setup + Transition(viewControllers, old(selectedIndex), 0) + [LayoutRequested])
    {
      ReplaceItems(viewControllers);
      SetSelectedIndex(0);
      events := events + [LayoutRequested];
    }

    /** The part of `setViewControllers` before the selection: old children out, new items in,
        the first one adopted, the tab bar brought to the front and its items reset. */
    method ReplaceItems(viewControllers: seq<UIViewController>)
      modifies this`itemControllers, this`events, this`childViewControllers
      modifies (set c | c in childViewControllers + viewControllers)`parentViewController
      ensures itemControllers == viewControllers
      ensures childViewControllers == if |viewControllers| > 0 then [viewControllers[0]] else []
      ensures forall c :: c in old(childViewControllers) && (|viewControllers| == 0 || c != viewControllers[0]) ==>
        c.parentViewController == null
      ensures |viewControllers| > 0 ==> viewControllers[0].parentViewController == this
      ensures forall c :: c in viewControllers && c !in old(childViewControllers) && c != viewControllers[0] ==>
        c.parentViewController == old(c.parentViewController)
      ensures events == old(events) + Removals(old(childViewControllers))
          + (if |viewControllers| > 0 then [ChildAdded(viewControllers[0])] else [])
          + [TabBarToFront, TabBarItemsReset]
    {
      RemoveAllChildren();
      itemControllers := viewControllers;
      if |viewControllers| > 0 {
        AddChildViewController(viewControllers[0]);
      }
      events := events + [TabBarToFront, TabBarItemsReset];
    }

    /** Each child in turn: `removeFromParentViewController` and `iView.removeFromSuperview`. */
    method RemoveAllChildren()
      modifies this`childViewControllers, this`events
      modifies (set c | c in childViewControllers)`parentViewController
      ensures childViewControllers == []
      ensures forall c :: c in old(childViewControllers) ==> c.parentViewController == null
      ensures events == old(events) + Removals(old(childViewControllers))
    {
      var olds := childViewControllers;
      var i := 0;
      while i < |olds|
        invariant 0 <= i <= |olds|
        invariant childViewControllers == olds[i..]
        invariant forall k :: 0 <= k < i ==> olds[k].parentViewController == null
        invariant events == old(events) + Removals(olds[..i])
      {
        var c := olds[i];
        assert olds[..i + 1] == olds[..i] + [c];
        SpliceOutKeepsOrder(childViewControllers, c);
        childViewControllers := SpliceOut(childViewControllers, c);
        c.parentViewController := null;
        events := events + [ChildRemoved(c)];
        i := i + 1;
      }
      assert olds[..i] == olds;
    }
  }

  /**
   * Two tabs on a fresh controller: installing them selects the first, whose view is shown;
   * selecting the second adopts it as a child, hides the first and runs the callbacks of both.
   */
  method TwoTabs(bounds: UIRect) returns (tc: UITabBarController, a: UIViewController, b: UIViewController)
    ensures fresh(tc) && fresh(a) && fresh(b)
    ensures tc.itemControllers == [a, b] && tc.childViewControllers == [a, b] && tc.selectedIndex == 1
    ensures a.viewHidden && !b.viewHidden
    ensures a.parentViewController == tc && b.parentViewController == tc
    ensures tc.events == [ChildAdded(a), TabBarToFront, TabBarItemsReset,
                          WillAppear(a, -1), TabBarSelected(0), DidAppear(a, 0), SelectionEmitted(false),
                          LayoutRequested,
                          ChildAdded(b), TabBarToFront, LayoutRequested,
                          WillDisappear(a, 0), WillAppear(b, 0), TabBarSelected(1),
                          DidDisappear(a, 1), DidAppear(b, 1), SelectionEmitted(false)]
  {
    tc, a, b := InstallTwoTabs(bounds);
    tc.SetSelectedIndex(1);
    TransitionCases([a, b], 0, 1);
    assert IndexOf([a, b], a) == 0 && IndexOf([a, b], b) == 1;
  }

  /** The first half of `TwoTabs`: `setViewControllers([a, b])` on a fresh controller. */
  method InstallTwoTabs(bounds: UIRect) returns (tc: UITabBarController, a: UIViewController, b: UIViewController)
    ensures fresh(tc) && fresh(a) && fresh(b) && a != b
    ensures tc.itemControllers == [a, b] && tc.childViewControllers == [a] && tc.selectedIndex == 0
    ensures !a.viewHidden && a.parentViewController == tc && b.parentViewController == null
    ensures tc.events == [ChildAdded(a), TabBarToFront, TabBarItemsReset,
                          WillAppear(a, -1), TabBarSelected(0), DidAppear(a, 0), SelectionEmitted(false),
                          LayoutRequested]
  {
    tc := new UITabBarController(bounds, 49.0);
    a := new UIViewController();
    b := new UIViewController();
    tc.SetViewControllers([a, b]);
    assert Removals([]) == [];
    TransitionCases([a, b], -1, 0);
    assert a.viewHidden == (IndexOf([a, b], a) != 0);
  }

  /** One `ChildRemoved` per entry, in order. */
  function Removals(cs: seq<UIViewController>): (r: seq<TabEvent>)
    ensures |r| == |cs|
    ensures forall k :: 0 <= k < |cs| ==> r[k] == ChildRemoved(cs[k])
  {
    if |cs| == 0 then [] else Removals(cs[..|cs| - 1]) + [ChildRemoved(cs[|cs| - 1])]
  }
}
