# Layers, colours and tab selection

A model of three parts of a UIKit-style library that renders into a browser document.

- **`CALayer`**: a tree of layers. Each layer keeps an ordered `sublayers` list and a
  `superlayer` back-reference. It lazily builds one SVG container per layer, holding a
  background shape, a content group, a clip path and a border group. Its property setters
  store a value and re-derive the document state from the layer's full state.
- **`UIColor`**: an immutable RGBA value, the named colours, the hexadecimal parser
  `hexColor` and `colorWithAlphaComponent`.
- **`UITabBarController`**: the `selectedIndex` state machine, with adoption, lifecycle
  callbacks in a fixed order and the hidden flags of the child views. Also `setViewControllers`,
  the `selectedViewController` setter, and the `barFrame`/`contentFrame` geometry.

## Files and modules

- `sequences.dfy`:
  - `Wrappers`: `Option`.
  - `Sequences`: `indexOf`, `splice`, and "take a node out of every list".
  - `Geometry`: `UIRect`, `UISize`.
- `colors.dfy`: `Colors`, the pure colour value type and parser.
- `dom.dfy`: `Dom`, an abstract document. It is a `Document` class with three parts:
  - a node counter;
  - a map from node to ordered child list;
  - a map from node to symbolic attribute and style values.
  
  `appendChild` and `insertBefore` *move* a node: it leaves whatever list held it first. The
  lemmas `AppendedWellFormed`, `PrependedWellFormed` and `DetachedWellFormed` prove that these
  moves keep the tree well formed: one parent per node, no duplicates, and ids in range.
  `OnlyLost` states the frame of a sequence of moves: every list but a named few only loses
  the moved nodes and keeps its order.
- `calayer.dfy`: `CoreGraphics`, the `CALayer` class.
  - The layer's four elements are fixed nodes of its document.
  - `_svgElement` is an optional node that is assigned once.
  - `sublayers` is a sequence field that the methods reassign.
  - The ghost predicate `TreeConsistent(U)` says that, over a set of layers `U`, every
    `superlayer` link is mirrored by a `sublayers` entry and the other way round, and that
    no list holds a layer twice. `addSublayer` and `removeFromSuperlayer` preserve it.
- `tabbar.dfy`: `TabBar`, the `UITabBarController` class. Its collaborators are modelled as
  follows:
  - the lifecycle callbacks of the child controllers, `emit`, the `UITabBar` and the layout
    pass are a sequence of `TabEvent`s in call order;
  - a child view's `hidden` flag is a field of the child.

## Model

| member | source | states |
|---|---|---|
| `Colors.UIColor.ColorWithAlphaComponent` | source/uikit/UIColor.ts:37-39 | the result keeps r, g, b and has alpha `a * value`; the receiver is a value and is not changed |
| `Colors.AlphaScaling` | source/uikit/UIColor.ts:37-39 | scaling alpha by `u` then `v` equals scaling by `u * v`; a colour in the unit range scaled by a factor in [0, 1] stays in range |
| `Colors.HexColor` | source/uikit/UIColor.ts:12-33 | every parsed colour lies in the unit range; a length other than 6 or 8 after removing the first `#` gives `clear`; six digits give alpha 1 |
| `Colors.RemoveFirstHash` | source/uikit/UIColor.ts:13 | only the first `#` is removed: the result is the input without its first `#`, or the input itself when there is none |
| `Colors.HexColorReadsRGB` | source/uikit/UIColor.ts:14-20 | `#RRGGBB` written from three bytes reads back as those bytes over 255 with alpha 1 |
| `Colors.HexColorReadsARGB` | source/uikit/UIColor.ts:22-28 | `#AARRGGBB` reads the FIRST byte as alpha and the next three as red, green, blue |
| `Colors.EightDigitsAreAlphaFirst` | source/uikit/UIColor.ts:22-28 | "#ff000080" is opaque dark blue, not half-transparent red: the order is not CSS's `#RRGGBBAA` |
| `Colors.OnlyFirstHashRemoved` | source/uikit/UIColor.ts:13 | "##ffffff" keeps seven characters and gives `clear` |
| `Colors.HexByte` | source/uikit/UIColor.ts:16 | two hex digits written for a byte parse back to that byte (`parseInt(…, 16)`) |
| `Colors.FromBytes` | source/uikit/UIColor.ts:15-28 | bytes over 255 lie in the unit range |
| `Sequences.IndexOf` | source/coregraphics/CALayer.ts:146 | `indexOf`: -1 exactly when absent; otherwise the entry there is `x` and no earlier entry is |
| `Sequences.RemoveAt` | source/coregraphics/CALayer.ts:148 | `splice(i, 1)`: one entry shorter, entries before `i` in place, entries after shifted down by one |
| `Sequences.SpliceOut` | source/coregraphics/CALayer.ts:146-148 | an unlisted entry leaves the list as is; otherwise the list is one shorter and holds nothing new |
| `Sequences.SpliceOutKeepsOrder` | source/coregraphics/CALayer.ts:146-148 | exactly the first occurrence is dropped and the other sublayers keep their order |
| `Sequences.DetachIsSplice` | source/coregraphics/CALayer.ts:148-150 | in a duplicate-free list, taking a node out of the list equals splicing it out at its index |
| `Sequences.DetachNoDup` | source/coregraphics/CALayer.ts:136-138 | taking a node out of a duplicate-free list leaves it duplicate-free |
| `Sequences.DetachLast` | source/coregraphics/CALayer.ts:134-138 | in a duplicate-free list ending in `x`, taking `x` out drops just the last entry |
| `Dom.Detached` | source/coregraphics/CALayer.ts:150 | `removeChild`: every list loses the node and no node's list is added or dropped |
| `Dom.Appended` | source/coregraphics/CALayer.ts:138 | `appendChild`: the node ends up last in the parent's list |
| `Dom.Prepended` | source/coregraphics/CALayer.ts:188 | `insertBefore(…, children[0])`: the node ends up first in the host's list |
| `Dom.KidsAfterMove` | source/coregraphics/CALayer.ts:168 | after an append or prepend, the parent's list is the old one without the node plus the node at the end or front, and every other list just loses the node |
| `Dom.AppendAfterDetach` | source/coregraphics/CALayer.ts:136-138 | removing a node and then appending it equals appending it, so the `contains`/`removeChild` step before `appendChild` changes nothing |
| `Dom.DetachedWellFormed` | source/coregraphics/CALayer.ts:150 | removing a node keeps one parent per node, no duplicates and ids in range, and the node is in no list afterwards |
| `Dom.AppendedWellFormed` | source/coregraphics/CALayer.ts:168 | appending keeps the tree well formed, and the node is in no other list |
| `Dom.PrependedWellFormed` | source/coregraphics/CALayer.ts:188 | inserting first keeps the tree well formed |
| `Dom.AppendLastIsNoop` | source/coregraphics/CALayer.ts:134 | appending the node that is already last changes nothing, which is why the `lastElementChild` guard is only a shortcut |
| `Dom.FillNewNode` | source/coregraphics/CALayer.ts:178-179 | appending the background then the content to a new empty container gives exactly `[bg, content]`, taking them out of any other list |
| `Dom.RemovedFromParent` | source/coregraphics/CALayer.ts:149-150 | removing a node from its one parent is a change to that parent's list only, and keeps the tree well formed |
| `Dom.Document.CreateElement` | source/coregraphics/CALayer.ts:10-13 | a fresh node with the given tag, no children and no attributes, in no list |
| `Dom.Document.CloneNode` | source/coregraphics/CALayer.ts:119 | a fresh node with the source's tag and attributes, in no list |
| `Dom.Document.AppendChild` | source/coregraphics/CALayer.ts:138 | `appendChild` is `Appended`: the node leaves its old list and goes last in the parent's; the tree stays well formed |
| `Dom.Document.InsertAsFirstChild` | source/coregraphics/CALayer.ts:188 | `insertBefore(…, children[0])` is `Prepended`; the tree stays well formed |
| `Dom.Document.RemoveChild` | source/coregraphics/CALayer.ts:150 | `removeChild` changes only the parent's list, and equals taking the node out of every list |
| `Dom.Document.ClearChildren` | source/coregraphics/CALayer.ts:118 | `innerHTML = ""` empties one list and changes nothing else |
| `CoreGraphics.CALayer.constructor` | source/coregraphics/CALayer.ts:8-15 | four new elements numbered from the old node count (clip path, background rect, content and border groups) with those tags, childless, without attributes and in no list; every existing node keeps its tag, children and attributes; no container, no superlayer, no sublayers, a new layer id, and the documented defaults of every property |
| `CoreGraphics.CreateLayerElements` | source/coregraphics/CALayer.ts:10-13 | four consecutive new nodes with the clip path, rect and group tags, childless, without attributes and in no list; the other nodes are unchanged |
| `CoreGraphics.CALayer.View` | source/coregraphics/CALayer.ts:17-22 | with a superlayer, that superlayer's own view; without one, the layer's own view |
| `CoreGraphics.CALayer.SetView` | source/coregraphics/CALayer.ts:24-26 | only `_view` changes: a root layer now reports the new view, and so does every layer whose superlayer is this one |
| `CoreGraphics.CALayer.ViewLooksOneLevelUp` | source/coregraphics/CALayer.ts:17-22 | the getter reads the direct superlayer's own view: a layer under a view-less superlayer reports none even when a higher layer has one, and its own view is ignored while it has a superlayer |
| `CoreGraphics.CALayer.CreateSVGElement` | source/coregraphics/CALayer.ts:173-197 | idempotent: a second call changes nothing. A first call creates exactly one node, the container (`svg` for a hosted layer, `g` otherwise), holding `[bg, content]`; every other list only loses the background and content, and a hosted container goes first in the host's list. Among existing nodes only the background's fill is re-applied; a hosted container is sized to the frame, a nested one has no attributes; every node keeps its tag |
| `CoreGraphics.CALayer.MoveBorderElementToFront` | source/coregraphics/CALayer.ts:132-140 | nothing changes without a container; otherwise the border group ends up last in it and is in no other list |
| `CoreGraphics.CALayer.RemoveFromSuperlayer` | source/coregraphics/CALayer.ts:144-155 | the superlayer is cleared; the old parent's list loses exactly this layer (`SpliceOut`); the container leaves the parent's container only when the layer was listed and both were materialised with the child inside; the tree stays consistent |
| `CoreGraphics.CALayer.AddSublayer` | source/coregraphics/CALayer.ts:159-171 | the layer is appended after the receiver's other sublayers, which keep their order (after first leaving its old parent, which loses exactly it); `layer.superlayer` is the receiver; an existing container is kept and a missing one made, the receiver's first, and no other node is allocated; every node keeps its tag. Every list but the two containers' and the hosts of new containers only loses the moved nodes, in order; the receiver's container holds its earlier children, then the child's container, then the border group last. With both already materialised the lists are exactly two `appendChild`s and no attribute changes. The tree stays consistent |
| `CoreGraphics.AddLone` | source/coregraphics/CALayer.ts:159-171 | adding a layer with no superlayer and no container: it goes last in the list, its new container is the newest node, and the receiver's container ends with its earlier children less the moved nodes, then that container, then the border group |
| `CoreGraphics.MoveToBare` | source/coregraphics/CALayer.ts:144-171 | moving a materialised layer from one parent into a layer with no container: the old parent's list and container lose exactly it, the new container holds background, content, the moved container and the border group, and the moved container is kept |
| `CoreGraphics.AddTwo` | source/coregraphics/CALayer.ts:159-171 | `A.addSublayer(B); A.addSublayer(C)` on new layers gives sublayers `[B, C]` and A's container `[bg, content, B's, C's, border]`: paint order follows the sublayer order and the border stays on top |
| `CoreGraphics.TwoAddsOrder` | source/coregraphics/CALayer.ts:167-170 | the list arithmetic of two appends before the border group: the second container lands after the first |
| `CoreGraphics.Reparent` | source/coregraphics/CALayer.ts:144-171 | after `A.addSublayer(B)`, `C.addSublayer(B)` leaves A with no sublayers and its container `[bg, content, border]`, and C with `[B]` and `[bg, content, B's, border]` |
| `CoreGraphics.ReparentLists` | source/coregraphics/CALayer.ts:148-150 | the list arithmetic of re-parenting: B's container leaves A's container and lands before C's border group |
| `CoreGraphics.OneParent` | source/coregraphics/CALayer.ts:160-164 | in a consistent tree a layer is listed by at most one layer, its superlayer |
| `CoreGraphics.CALayer.ResetBorder` | source/coregraphics/CALayer.ts:112-130 | the container is displayed exactly when the width is positive and a colour is set. A shown border is stroked with them, holds exactly one new copy of the background (same tag, zero fill opacity) and moves to the end of the container, whose other children keep their order; every other list only loses what was moved. Otherwise the whole container is hidden and an existing container's lists stay as they are. Among existing nodes only the container's display, the border's stroke and the background's re-applied fill change; every node keeps its tag |
| `CoreGraphics.CALayer.SetBorderWidth` | source/coregraphics/CALayer.ts:96-99 | stores the width and leaves the document exactly as `ResetBorder` does from the old state: the border applied, and the same frame on lists, attributes and tags |
| `CoreGraphics.CALayer.SetBorderColor` | source/coregraphics/CALayer.ts:107-110 | stores the colour and leaves the document exactly as `ResetBorder` does from the old state: the border applied, and the same frame on lists, attributes and tags |
| `CoreGraphics.CALayer.RefillBorder` | source/coregraphics/CALayer.ts:118-123 | the border group holds exactly one new node, which carries the background's tag and attributes with fill opacity 0; no other list, attribute or tag changes |
| `CoreGraphics.CALayer.SetMasksToBounds` | source/coregraphics/CALayer.ts:233-248 | `true` materialises the layer: the clip path carries the layer's id and holds exactly one new copy of the background (same tag and attributes); it moves to the end of the container, whose other children keep their order, and the container refers to it; every other list only loses what was moved, and among existing nodes only those attributes and the background's fill change. `false` changes nothing in the document |
| `CoreGraphics.FillFor` | source/coregraphics/CALayer.ts:207-212 | the fill is "transparent" exactly when there is no colour, and otherwise the colour |
| `CoreGraphics.CALayer.SetBackgroundColor` | source/coregraphics/CALayer.ts:205-213 | stores the colour; the background's attribute map is the old one with `fill` set to the colour or "transparent", and no other node's map changes |
| `CoreGraphics.RoundToInteger` | source/coregraphics/CALayer.ts:39 | `toFixed()` rounding: the nearest integer, halves away from zero |
| `CoreGraphics.CALayer.SetFrame` | source/coregraphics/CALayer.ts:34-59 | with a host view and no container, only the frame is stored. Otherwise the layer is materialised and gets: a translation of the rounded origin and the frame's size on the container, the frame's size on background and content, one more background copy appended to the clip path, and a fresh copy with zero fill opacity as the border group's only child. The clip path's list is its earlier list plus the first new node after any new container; on a first materialisation (nested, since a hosted layer without a container stops early) the earlier list is less the background and content the new container took. The border group's child is the node after that. Exactly two new nodes besides a new container; the container keeps its children; among existing nodes only those three attribute maps change, each by exactly the geometry |
| `CoreGraphics.FrameRefilled` | source/coregraphics/CALayer.ts:46-54 | after the clip-path append and the border refill, the clip path's list is the one before plus the first new node, the border group holds only the second, the container's list is unchanged, and every other list lost only what the materialisation before them moved |
| `CoreGraphics.CALayer.SetHidden` | source/coregraphics/CALayer.ts:67-71 | background and content get `display: none` exactly when hidden, and lose it otherwise; their other attributes and every other node's are kept |
| `CoreGraphics.CALayer.SetCornerRadius` | source/coregraphics/CALayer.ts:79-88 | with a host view, the host's map gains exactly the border radius; without one, the background's gains exactly `rx` and `ry`; no other attribute changes |
| `CoreGraphics.CALayer.SetOpacity` | source/coregraphics/CALayer.ts:221-225 | background and content each gain exactly the opacity style; no other attribute changes |
| `Dom.WriteCommute` | source/coregraphics/CALayer.ts:85-86 | two `setAttribute` writes of different attributes commute, on the same node or on two |
| `Dom.SwapWrites` | source/coregraphics/CALayer.ts:85-86 | two neighbouring writes of different attributes trade places anywhere in a sequence of writes |
| `Dom.WriteAllConcat` | source/coregraphics/CALayer.ts:85-86 | doing the writes `s + t` is doing `s` and then `t` |
| `CoreGraphics.SettersAsWrites` | source/coregraphics/CALayer.ts:79-225 | the attribute maps the `backgroundColor`, `opacity` and `cornerRadius` setters leave are those of their writes done in order |
| `CoreGraphics.StyleWritesCommute` | source/coregraphics/CALayer.ts:79-225 | the fill, opacity and corner writes done in reverse order leave the same attribute map |
| `CoreGraphics.StylesForward` | source/coregraphics/CALayer.ts:79-225 | background colour, then opacity, then corner radius leave the attributes of those writes in that order |
| `CoreGraphics.StylesReversed` | source/coregraphics/CALayer.ts:79-225 | corner radius, then opacity, then background colour leave the attributes of those writes in that order |
| `CoreGraphics.StyleOrder` | source/coregraphics/CALayer.ts:79-225 | the `backgroundColor`, `opacity` and `cornerRadius` setters commute: the two orders leave equal attributes on equal documents |
| `CoreGraphics.ShadowFor` | source/coregraphics/CALayer.ts:296-302 | a shadow exactly when opacity > 0 and a colour with alpha > 0 is set; it carries the offset and radius, and the colour with alpha `a * opacity` |
| `CoreGraphics.DefaultShadowNeedsOpacity` | source/coregraphics/CALayer.ts:261-283 | with the default opacity 0 a colour alone draws no shadow; opacity 0.5 with black gives a half-transparent black shadow (0, -3) with blur 3; `clear` draws none |
| `CoreGraphics.CALayer.ResetShadow` | source/coregraphics/CALayer.ts:294-303 | without a host view nothing changes; with one, the host's map is its old one with the box shadow set to `ShadowFor` of the current properties (removed when there is none), and no other attribute changes |
| `CoreGraphics.CALayer.SetShadowColor` | source/coregraphics/CALayer.ts:256-259 | stores the colour and leaves the attributes exactly as `ResetShadow` does: only the host's box shadow changes, to the one the new state calls for, and nothing changes without a host view |
| `CoreGraphics.CALayer.SetShadowOpacity` | source/coregraphics/CALayer.ts:267-270 | stores the opacity and leaves the attributes exactly as `ResetShadow` does: only the host's box shadow changes, to the one the new state calls for, and nothing changes without a host view |
| `CoreGraphics.CALayer.SetShadowOffset` | source/coregraphics/CALayer.ts:278-281 | stores the offset and leaves the attributes exactly as `ResetShadow` does: only the host's box shadow changes, to the one the new state calls for, and nothing changes without a host view |
| `CoreGraphics.CALayer.SetShadowRadius` | source/coregraphics/CALayer.ts:289-292 | stores the radius and leaves the attributes exactly as `ResetShadow` does: only the host's box shadow changes, to the one the new state calls for, and nothing changes without a host view |
| `TabBar.ItemAt` | source/uikit/UITabBarController.ts:27 | `itemControllers[i]` is defined exactly for `0 <= i < length`, negative `i` included, and is then the entry at `i` |
| `TabBar.Transition` | source/uikit/UITabBarController.ts:36-53 | the calls of a selection change from the old index to the new one |
| `TabBar.WillBeforeDid` | source/uikit/UITabBarController.ts:36-52 | every `will` callback comes before every `did` callback |
| `TabBar.TransitionCallbacksPresent` | source/uikit/UITabBarController.ts:36-52 | each callback happens exactly when its controller exists: the disappear pair for the old index, the appear pair for the new one |
| `TabBar.TransitionCallbacksTargets` | source/uikit/UITabBarController.ts:36-53 | `will` callbacks see the old index and `did` callbacks the new one, so the index is updated between them. The disappear pair goes to the old item and the appear pair to the new one. The tab bar is told the new index, and the selection event comes last |
| `TabBar.UITabBarController.SetSelectedIndex` | source/uikit/UITabBarController.ts:17-54 | The current value only emits the reselect event and changes nothing else. A negative value is stored with no call and no flag change. Otherwise: an item at the new index with no parent is adopted exactly once, as the last child, before the callbacks; the calls are exactly `Transition`; the index is the new value; every child's view is hidden exactly when its index among the items differs from the value, and every controller that is not a child keeps its flag; only the adopted item's parent changes |
| `TabBar.UITabBarController.UpdateHiddenFlags` | source/uikit/UITabBarController.ts:43-45 | every child's view is hidden exactly when its index among the items differs from the value |
| `TabBar.SelectedIndexFor` | source/uikit/UITabBarController.ts:61 | `max(0, indexOf(vc))`: a listed controller's first index, 0 for an unknown one |
| `TabBar.UITabBarController.SetSelectedViewController` | source/uikit/UITabBarController.ts:60-62 | selects `SelectedIndexFor`, with everything the `selectedIndex` setter promises at that index: the reselect case, the adoption, the calls exactly `Transition`, the children's hidden flags, the other flags and parents kept; a listed controller becomes the selected view controller and the items do not change |
| `TabBar.UITabBarController.SelectedViewController` | source/uikit/UITabBarController.ts:56-58 | the item at the selected index, absent when the index is out of range |
| `TabBar.UITabBarController.constructor` | source/uikit/UITabBarController.ts:9-11 | no items, no children, selected index -1, no calls yet, the bar shown |
| `TabBar.UITabBarController.CurrentBarFrame` | source/uikit/UITabBarController.ts:86-91 | the bar's frame: full width at x 0, bottom edge on the bounds' bottom, height 0 when hidden and the bar height otherwise |
| `TabBar.UITabBarController.CurrentContentFrame` | source/uikit/UITabBarController.ts:93-95 | full width at the origin, ending where the bar's frame begins: the whole height when the bar is hidden, the height less the bar height otherwise |
| `TabBar.UITabBarController.SetViewControllers` | source/uikit/UITabBarController.ts:64-80 | Every old child loses its parent, except the new first item. The new list becomes the items, and only its first controller is a child. The selected index is 0. When the old index was 0, only the reselect event is emitted, no callback runs and no hidden flag changes. Otherwise the callbacks are `Transition` from the old index looked up in the NEW list, the child's flag follows index 0 and no other flag changes. A layout pass comes last |
| `TabBar.UITabBarController.RemoveAllChildren` | source/uikit/UITabBarController.ts:65-68 | every child as it was when the loop started is removed in order and loses its parent; the child list ends empty |
| `TabBar.BarFrame` | source/uikit/UITabBarController.ts:86-91 | full width at x 0, bottom edge on the bounds' bottom, height 0 when the bar is hidden and the bar height otherwise |
| `TabBar.ContentFrame` | source/uikit/UITabBarController.ts:93-95 | full width at the origin, and its height plus the bar's height is the bounds' height |
| `TabBar.FramesTile` | source/uikit/UITabBarController.ts:86-95 | content and bar tile the bounds vertically: the content ends where the bar begins, and a hidden bar leaves the whole height to the content |
| `TabBar.TwoTabs` | source/uikit/UITabBarController.ts:17-80 | installing two tabs on a fresh controller shows the first; selecting the second adopts it, hides the first, and makes exactly the calls listed, in order |

## Left out

- Numbers are exact reals. `toFixed(2)` on widths, heights, radii and opacities, and the
  string forms of `matrix(…)`, `box-shadow` and `toStyle`, are not modelled. Attribute values
  are symbolic (`Number`, `Translation`, `Paint`, `Shadow`). Only the integer rounding of the
  translation is written out (`RoundToInteger`).
- `UIColor.toStyle` is a float-to-string formatter; a colour in the document is the symbolic
  `Paint(color)`.
- `Colors.HexColor` counts the characters of the string, where JavaScript's `length` counts
  UTF-16 code units: a string with characters outside the Basic Multilingual Plane (such as
  "#😀😀😀") has a different length here and may fall in the other branch.
- `Colors.HexColor` requires `HexParsable`: when the length is 6 or 8 after the first `#` is
  removed, every character must be a hexadecimal digit. `parseInt`'s NaN and prefix parsing
  of other characters is not modelled.
- The random `_uuid` is a per-document layer counter. The clip path's id and the container's
  `url(#…)` reference both use it.
- The browser's `HierarchyRequestError` and `NotFoundError` are not modelled. Neither is
  acyclicity of the layer tree: `CoreGraphics.CALayer.AddSublayer` requires `layer != this`,
  because adding a layer to itself throws half-way through in a browser.
- `contains` is modelled as direct-child membership, which is what every call site here
  needs: a container only ever sits directly inside its superlayer's container.
- `cloneNode(true)` of the background shape copies its tag and attributes; the background
  never has children.
- `CoreGraphics.CALayer.AddSublayer`: membership of the child's container in the parent's
  container is stated only when that container is not the parent's border group. That is the
  one node the source moves back to the end straight afterwards.
- The `_svgElement === undefined` guards after `createSVGElement` (CALayer.ts:114, 167, 237)
  can never fire, since that call always leaves a container. The model reaches the same
  states without them.
- Other parts of the repository that are not part of this model:
  - `UIView`, reduced to its host element;
  - `UIViewController` and `UITabBar`, whose calls become `TabEvent`s;
  - `navigationControllerFrame` and `viewWillLayoutSubviews`, recorded as a `LayoutRequested`
    event;
  - `source/main.ts`, which only registers globals.
- `TabBar.UITabBarController.RemoveAllChildren`: the removal `forEach` is modelled as visiting
  the child list as it was when the loop started. `UIViewController.ts` is not part of this
  model. If `removeFromParentViewController` splices that same array in place, JavaScript's
  `forEach` would visit only every other child.
- `TabBar.UITabBarController.SetSelectedIndex`: indices are integers. A fractional JavaScript
  number, which would find no item, is not modelled.
- The `view` getter looks only one level up (`ViewLooksOneLevelUp`): a layer under a
  superlayer reports that superlayer's own view and never walks further up the chain.
- Materialising under a host sizes only the new container; the background and content are
  sized by the `frame` setter alone.
- The `frame` setter appends another copy of the background to the clip path on every call,
  and earlier copies stay (`SetFrame` states the growth). `masksToBounds = true` clears it
  back to one copy.
