/**
 * The widget tree of the GUI page editor (packages/project-editor/project/features/gui/widget-tree.ts):
 * the display children of a plain object (`DummyWidgetContainerDisplayItem.children`), the child
 * a Select widget shows, and the layout walk `enumWidget` that turns a page or widget into tree
 * nodes with absolute rectangles.
 *
 * Tree nodes are kept in an arena, a sequence in creation order; a node's `parent` and the
 * entries of its `children` list are arena indices. `data.count` and `data.getEnumValue` are
 * parameters of the walk, bundled in `Env`.
 */
module WidgetTree {
  import opened Wrappers
  import opened Metadata
  import opened ObjectModel

  // ---------------------------------------------------------------------------
  // DummyWidgetContainerDisplayItem.children

  /** The two shapes of `DisplayItemChildren`: a list of items, or items keyed by property name. */
  datatype DummyChildren = ElementChildren(refs: seq<nat>) | KeyedChildren(entries: map<string, nat>)

  /**
   * The properties the getter keeps: object or array typed, not marked `enumerable: false`, and
   * with a truthy value. A callback in `enumerable` is a function, so it is truthy and the
   * property is kept whatever the callback would answer.
   */
  predicate IsDisplayProperty(t: Tree, r: nat, p: PropertyInfo)
    requires r < |t.nodes|
  {
    IsContainerType(p.ptype) && p.enumerable != Const(false) && Truthy(GetProperty(t, Stored(r), p.name))
  }

  /** The `filter` over the class's properties, in class order. */
  function DisplayProperties(t: Tree, r: nat, ps: seq<PropertyInfo>): (res: seq<PropertyInfo>)
    requires r < |t.nodes|
    ensures forall p :: p in res <==> p in ps && IsDisplayProperty(t, r, p)
  {
    if ps == [] then []
    else if IsDisplayProperty(t, r, ps[0]) then [ps[0]] + DisplayProperties(t, r, ps[1..])
    else DisplayProperties(t, r, ps[1..])
  }

  /** The child node a kept property of object node `r` holds. */
  function DisplayChild(t: Tree, r: nat, p: PropertyInfo): (c: nat)
    requires WellFormed(t) && r < |t.nodes| && p in t.nodes[r].classInfo.properties
    requires IsDisplayProperty(t, r, p)
    ensures c < |t.nodes| && t.nodes[c].parent == Some(r)
    ensures GetProperty(t, Stored(r), p.name) == Some(Child(c))
    ensures p.ptype == PropertyType.Array <==> t.nodes[c].body.ArrayBody?
  {
    assert NodeOk(t, r);
    t.nodes[r].body.props[p.name].ref
  }

  /** The names of the kept properties. */
  predicate IsDisplayName(t: Tree, r: nat, name: string)
    requires r < |t.nodes|
  {
    exists p :: p in DisplayProperties(t, r, t.nodes[r].classInfo.properties) && p.name == name
  }

  /** The getter's result for the object node `r`. */
  function DummyChildrenOf(t: Tree, r: nat): DummyChildren
    requires WellFormed(t) && r < |t.nodes|
  {
    if t.nodes[r].body.ArrayBody? then ElementChildren(t.nodes[r].body.elements)
    else
      var ps := DisplayProperties(t, r, t.nodes[r].classInfo.properties);
      if |ps| == 1 && ps[0].ptype == PropertyType.Array then
        assert ps[0] in ps;
        var a := DisplayChild(t, r, ps[0]);
        assert NodeOk(t, a);
        ElementChildren(t.nodes[a].body.elements)
      else
        KeyedChildren(map p | p in ps :: p.name := DisplayChild(t, r, p))
  }

  /**
   * The three cases of the getter: an array lists its elements; a single kept array property
   * collapses to that array's elements; otherwise every kept property, and only those, appears
   * under its own name with the node it holds.
   */
  lemma DummyChildrenCases(t: Tree, r: nat)
    requires WellFormed(t) && r < |t.nodes|
    ensures t.nodes[r].body.ArrayBody? ==> DummyChildrenOf(t, r) == ElementChildren(t.nodes[r].body.elements)
    ensures var ps := DisplayProperties(t, r, t.nodes[r].classInfo.properties);
      t.nodes[r].body.ObjectBody? && |ps| == 1 && ps[0].ptype == PropertyType.Array ==>
        GetProperty(t, Stored(r), ps[0].name).Some?
        && GetProperty(t, Stored(r), ps[0].name).value.Child?
        && var a := GetProperty(t, Stored(r), ps[0].name).value.ref;
          a < |t.nodes| && t.nodes[a].body.ArrayBody?
          && DummyChildrenOf(t, r) == ElementChildren(t.nodes[a].body.elements)
    ensures var ps := DisplayProperties(t, r, t.nodes[r].classInfo.properties);
      t.nodes[r].body.ObjectBody? && !(|ps| == 1 && ps[0].ptype == PropertyType.Array) ==>
        DummyChildrenOf(t, r).KeyedChildren?
        && (forall name :: name in DummyChildrenOf(t, r).entries <==> IsDisplayName(t, r, name))
        && (forall name :: name in DummyChildrenOf(t, r).entries ==>
          GetProperty(t, Stored(r), name) == Some(Child(DummyChildrenOf(t, r).entries[name])))
  {
    var ps := DisplayProperties(t, r, t.nodes[r].classInfo.properties);
    if t.nodes[r].body.ObjectBody? {
      if |ps| == 1 && ps[0].ptype == PropertyType.Array {
        DummyChildrenCollapsed(t, r);
      } else {
        DummyChildrenKeyed(t, r);
      }
    }
  }

  /** A single kept array property collapses to that array's elements. */
  lemma DummyChildrenCollapsed(t: Tree, r: nat)
    requires WellFormed(t) && r < |t.nodes| && t.nodes[r].body.ObjectBody?
    requires var ps := DisplayProperties(t, r, t.nodes[r].classInfo.properties);
      |ps| == 1 && ps[0].ptype == PropertyType.Array
    ensures var ps := DisplayProperties(t, r, t.nodes[r].classInfo.properties);
      GetProperty(t, Stored(r), ps[0].name).Some?
      && GetProperty(t, Stored(r), ps[0].name).value.Child?
      && var a := GetProperty(t, Stored(r), ps[0].name).value.ref;
        a < |t.nodes| && t.nodes[a].body.ArrayBody?
        && DummyChildrenOf(t, r) == ElementChildren(t.nodes[a].body.elements)
  {
    var ps := DisplayProperties(t, r, t.nodes[r].classInfo.properties);
    assert ps[0] in ps;
    var a := DisplayChild(t, r, ps[0]);
  }

  /** Otherwise every kept property, and only those, appears under its own name with the node it holds. */
  lemma DummyChildrenKeyed(t: Tree, r: nat)
    requires WellFormed(t) && r < |t.nodes| && t.nodes[r].body.ObjectBody?
    requires var ps := DisplayProperties(t, r, t.nodes[r].classInfo.properties);
      !(|ps| == 1 && ps[0].ptype == PropertyType.Array)
    ensures DummyChildrenOf(t, r).KeyedChildren?
    ensures forall name :: name in DummyChildrenOf(t, r).entries <==> IsDisplayName(t, r, name)
    ensures forall name :: name in DummyChildrenOf(t, r).entries ==>
      GetProperty(t, Stored(r), name) == Some(Child(DummyChildrenOf(t, r).entries[name]))
  {
    var ps := DisplayProperties(t, r, t.nodes[r].classInfo.properties);
    var entries := DummyChildrenOf(t, r).entries;
    forall name | name in entries
      ensures IsDisplayName(t, r, name)
      ensures GetProperty(t, Stored(r), name) == Some(Child(entries[name]))
    {
      var p :| p in ps && p.name == name;
      assert entries[name] == DisplayChild(t, r, p);
    }
    forall name | IsDisplayName(t, r, name)
      ensures name in entries
    {
      var p :| p in ps && p.name == name;
      assert p.name in entries;
    }
  }

  /** Every node the getter lists lies strictly below `r` in the object tree. */
  lemma DummyChildrenBelow(t: Tree, r: nat)
    requires WellFormed(t) && r < |t.nodes|
    ensures DummyChildrenOf(t, r).ElementChildren? ==>
      forall c :: c in DummyChildrenOf(t, r).refs ==> c < |t.nodes| && IsProperAncestor(t, c, r)
    ensures DummyChildrenOf(t, r).KeyedChildren? ==>
      forall name :: name in DummyChildrenOf(t, r).entries ==>
        DummyChildrenOf(t, r).entries[name] < |t.nodes|
        && IsProperAncestor(t, DummyChildrenOf(t, r).entries[name], r)
  {
    assert NodeOk(t, r);
    var ch := DummyChildrenOf(t, r);
    var ps := DisplayProperties(t, r, t.nodes[r].classInfo.properties);
    if t.nodes[r].body.ArrayBody? {
      forall c | c in ch.refs
        ensures c < |t.nodes| && IsProperAncestor(t, c, r)
      {
        var j :| 0 <= j < |ch.refs| && ch.refs[j] == c;
        assert NodeOk(t, c);
      }
    } else if |ps| == 1 && ps[0].ptype == PropertyType.Array {
      assert ps[0] in ps;
      var a := DisplayChild(t, r, ps[0]);
      assert NodeOk(t, a);
      forall c | c in ch.refs
        ensures c < |t.nodes| && IsProperAncestor(t, c, r)
      {
        var j :| 0 <= j < |ch.refs| && ch.refs[j] == c;
        assert NodeOk(t, c);
        assert IsAncestor(t, a, r) by {
          assert NodeOk(t, a);
        }
      }
    } else {
      DummyChildrenCases(t, r);
      forall name | name in ch.entries
        ensures ch.entries[name] < |t.nodes| && IsProperAncestor(t, ch.entries[name], r)
      {
        var p :| p in ps && p.name == name;
        var c := DisplayChild(t, r, p);
        assert ch.entries[name] == c;
        assert NodeOk(t, c);
      }
    }
  }

  // ---------------------------------------------------------------------------
  // Display items and the Select widget

  /** Whether the item's object is a `WidgetProperties`, a `PageResolutionProperties`, or neither. */
  datatype Kind = WidgetKind | PageResolutionKind | OtherKind

  datatype Size = Size(width: int, height: int)

  /**
   * What the walk reads of an item's object. `x` and `y` are `None` when unset; `data` is the
   * data binding (`None` when unset); `itemWidget` is the List or Grid item widget's size, when
   * there is one; `widgets` is the length of a Select widget's `widgets` array, when present.
   */
  datatype WidgetObject = WidgetObject(
    kind: Kind,
    x: Option<int>,
    y: Option<int>,
    width: int,
    height: int,
    wtype: string,
    data: Option<string>,
    listType: string,
    itemWidget: Option<Size>,
    widgets: Option<nat>)

  /** A `DisplayItem`: its object, its `selected` flag and its children. */
  datatype DisplayItem = DisplayItem(obj: WidgetObject, selected: bool, children: ItemChildren)

  datatype Entry = Entry(name: string, item: DisplayItem)

  /** `DisplayItemChildrenArray` or `DisplayItemChildrenObject` (entries in key order). */
  datatype ItemChildren = ArrayItems(items: seq<DisplayItem>) | ObjectItems(entries: seq<Entry>)

  /** The data layer the walk consults: `data.count` and `data.getEnumValue`. */
  datatype Env = Env(count: Option<string> -> int, enumValue: string -> int)

  /**
   * The entry an object of children holds under `name`. The getter builds a JavaScript object by
   * key assignment, so a later entry with the same name replaces an earlier one: the last one wins.
   */
  function Lookup(entries: seq<Entry>, name: string): (r: Option<nat>)
    ensures r.Some? ==>
      r.value < |entries| && entries[r.value].name == name
      && forall j :: r.value < j < |entries| ==> entries[j].name != name
    ensures r.None? ==> forall j :: 0 <= j < |entries| ==> entries[j].name != name
  {
    if entries == [] then None
    else if entries[|entries| - 1].name == name then Some(|entries| - 1)
    else Lookup(entries[..|entries| - 1], name)
  }

  /** The index of `item.children["itemWidget"]`, when the children hold one. */
  function ItemWidgetIndex(item: DisplayItem): Option<nat> {
    if item.children.ObjectItems? then Lookup(item.children.entries, "itemWidget") else None
  }

  /**
   * `getSelectedWidgetForSelectWidget`: with a non-empty data binding and a `widgets` array, the
   * enum value of the binding picks a child when it indexes both the array and the item's
   * children; `undefined` otherwise.
   */
  function SelectedWidget(item: DisplayItem, env: Env): Option<nat>
  {
    var widget := item.obj;
    if widget.data.Some? && widget.data.value != "" && widget.widgets.Some? then
      var index := env.enumValue(widget.data.value);
      if 0 <= index < widget.widgets.value then
        if item.children.ArrayItems? && index < |item.children.items| then Some(index) else None
      else None
    else None
  }

  // ---------------------------------------------------------------------------
  // Tree nodes

  datatype Rect = Rect(x: int, y: int, width: int, height: int)

  /**
   * A `TreeNode`. `drawsFrame` says that `draw` is the page-frame painter. The pre-rendered
   * `image` is left out.
   */
  datatype TreeNode = TreeNode(
    parent: Option<nat>,
    children: seq<nat>,
    rect: Rect,
    selected: bool,
    resizable: bool,
    movable: bool,
    selectable: bool,
    drawsFrame: bool,
    item: DisplayItem)

  /** `n || 0`. */
  function OrZero(n: Option<int>): int {
    if n.Some? then n.value else 0
  }

  /** The rectangle of a node created at incoming position (`x`, `y`). */
  function NodeRect(obj: WidgetObject, x: int, y: int): Rect
  {
    if obj.kind != OtherKind then Rect(x + OrZero(obj.x), y + OrZero(obj.y), obj.width, obj.height)
    else Rect(x, y, obj.width, obj.height)
  }

  /**
   * Every node is listed by its parent, which comes before it; every listed child names the
   * listing node as its parent.
   */
  predicate Linked(ns: seq<TreeNode>) {
    (forall c :: 0 <= c < |ns| && ns[c].parent.Some? ==>
      ns[c].parent.value < c && c in ns[ns[c].parent.value].children)
    && (forall p, j :: 0 <= p < |ns| && 0 <= j < |ns[p].children| ==>
      ns[p].children[j] < |ns| && ns[ns[p].children[j]].parent == Some(p))
  }

  /**
   * `after` keeps every node of `before` except that the child list of `me` may grow at its end,
   * and every node `after` appends hangs below `me`: directly, or under an appended node.
   */
  predicate Extends(before: seq<TreeNode>, after: seq<TreeNode>, me: nat)
    requires me < |before|
  {
    |before| <= |after|
    && (forall p :: 0 <= p < |before| && p != me ==> after[p] == before[p])
    && after[me].(children := before[me].children) == before[me]
    && before[me].children <= after[me].children
    && (forall c :: |before| <= c < |after| ==>
      after[c].parent.Some? && (after[c].parent.value == me || |before| <= after[c].parent.value < c))
  }

  /** The children `after` adds to `me`. */
  function Added(before: seq<TreeNode>, after: seq<TreeNode>, me: nat): seq<nat> {
    if me < |before| && me < |after| && |before[me].children| <= |after[me].children|
    then after[me].children[|before[me].children|..]
    else []
  }

  /** The number of passes of `for (let i = from; i < count; i++)`. */
  function Passes(from: int, count: int): nat {
    if from < count then count - from else 0
  }

  // ---------------------------------------------------------------------------
  // enumWidget

  predicate IsContainer(item: DisplayItem) {
    item.obj.kind == PageResolutionKind || item.obj.wtype == "Container"
  }

  predicate IsList(item: DisplayItem) {
    item.obj.kind != PageResolutionKind && item.obj.wtype == "List" && item.obj.itemWidget.Some?
  }

  predicate IsGrid(item: DisplayItem) {
    item.obj.kind != PageResolutionKind && item.obj.wtype == "Grid" && item.obj.itemWidget.Some?
  }

  function Count(item: DisplayItem, env: Env): int {
    env.count(item.obj.data)
  }

  /**
   * The casts the walk relies on hold: pages and containers have a list of children, and a List
   * or Grid that places at least one item has an `itemWidget` child; recursively for every child
   * the walk visits. (Otherwise the source fails with a `TypeError`.)
   */
  predicate Shaped(item: DisplayItem, env: Env)
    decreases item
  {
    if IsContainer(item) then
      item.children.ArrayItems?
      && forall k :: 0 <= k < |item.children.items| ==> Shaped(item.children.items[k], env)
    else if IsList(item) || IsGrid(item) then
      Count(item, env) > 0 ==>
        ItemWidgetIndex(item).Some? && Shaped(item.children.entries[ItemWidgetIndex(item).value].item, env)
    else if item.obj.wtype == "Select" then
      SelectedWidget(item, env).Some? ==> Shaped(item.children.items[SelectedWidget(item, env).value], env)
    else true
  }

  /** The node `enumWidget` creates for `item` before visiting its children. */
  function NewNode(parent: Option<nat>, item: DisplayItem, x: int, y: int): TreeNode {
    var isWidget := item.obj.kind == WidgetKind;
    TreeNode(parent, [], NodeRect(item.obj, x, y), isWidget && item.selected, true, isWidget, isWidget, !isWidget, item)
  }

  /** Append `node`, and push its index onto the parent's children. */
  function Attach(ns: seq<TreeNode>, parent: Option<nat>, node: TreeNode): (r: seq<TreeNode>)
    requires parent.Some? ==> parent.value < |ns|
    ensures |r| == |ns| + 1 && r[|ns|] == node
    ensures forall p :: 0 <= p < |ns| && Some(p) != parent ==> r[p] == ns[p]
    ensures parent.Some? ==> r[parent.value] == ns[parent.value].(children := ns[parent.value].children + [|ns|])
  {
    var grown := if parent.Some? then ns[parent.value := ns[parent.value].(children := ns[parent.value].children + [|ns|])] else ns;
    grown + [node]
  }

  lemma AttachLinked(ns: seq<TreeNode>, parent: Option<nat>, node: TreeNode)
    requires parent.Some? ==> parent.value < |ns|
    requires Linked(ns) && node.parent == parent && node.children == []
    ensures Linked(Attach(ns, parent, node))
  {
    var r := Attach(ns, parent, node);
    forall c | 0 <= c < |r| && r[c].parent.Some?
      ensures r[c].parent.value < c && c in r[r[c].parent.value].children
    {
      if c < |ns| {
        assert r[c].parent == ns[c].parent;
        var p := ns[c].parent.value;
        assert c in ns[p].children;
      }
    }
    forall p, j | 0 <= p < |r| && 0 <= j < |r[p].children|
      ensures r[p].children[j] < |r| && r[r[p].children[j]].parent == Some(p)
    {
      if p < |ns| && j < |ns[p].children| {
        assert r[p].children[j] == ns[p].children[j];
        var c := ns[p].children[j];
        assert r[c].parent == ns[c].parent;
      }
    }
  }

  /**
   * `enumWidget(parentNode, item, x, y)` applied to the arena `ns`: one node for `item` at index
   * `|ns|`, pushed onto the parent's children, followed by the nodes of the children the walk
   * visits.
   */
  function Enum(ns: seq<TreeNode>, parent: Option<nat>, item: DisplayItem, x: int, y: int, env: Env): (r: seq<TreeNode>)
    requires parent.Some? ==> parent.value < |ns|
    requires Shaped(item, env)
    ensures |r| > |ns|
    decreases item, 2
  {
    var ns1 := Attach(ns, parent, NewNode(parent, item, x, y));
    Visit(ns1, |ns|, item, env)
  }

  /** What `enumWidget` does after creating node `me` for `item`: visit the children by kind. */
  function Visit(ns1: seq<TreeNode>, me: nat, item: DisplayItem, env: Env): (r: seq<TreeNode>)
    requires me < |ns1| && Shaped(item, env)
    ensures |r| >= |ns1|
    decreases item, 1, 0, 0
  {
    var rect := ns1[me].rect;
    if IsContainer(item) then Each(ns1, me, item, 0, rect.x, rect.y, env)
    else if IsList(item) then ListFrom(ns1, me, item, 0, rect.x, rect.y, env)
    else if IsGrid(item) then GridFrom(ns1, me, item, 0, rect.x, rect.x, rect.y, env)
    else if item.obj.wtype == "Select" then SelectFrom(ns1, me, item, rect.x, rect.y, env)
    else ns1
  }

  /** The `forEach` over a page's or container's children, from child `k` on. */
  function Each(ns: seq<TreeNode>, me: nat, owner: DisplayItem, k: nat, x: int, y: int, env: Env): (r: seq<TreeNode>)
    requires me < |ns| && Shaped(owner, env) && IsContainer(owner) && k <= |owner.children.items|
    ensures |r| >= |ns|
    decreases owner, 0, |owner.children.items| - k, 0
  {
    if k == |owner.children.items| then ns
    else
      var ns1 := Enum(ns, Some(me), owner.children.items[k], x, y, env);
      Each(ns1, me, owner, k + 1, x, y, env)
  }

  /** The position after one pass of the List loop: down one item height when vertical, else right. */
  function ListStep(owner: DisplayItem, x: int, y: int): (int, int)
    requires IsList(owner)
  {
    var size := owner.obj.itemWidget.value;
    if owner.obj.listType == "vertical" then (x, y + size.height) else (x + size.width, y)
  }

  /** The List loop from pass `i` on, at incoming position (`x`, `y`). */
  function ListFrom(ns: seq<TreeNode>, me: nat, owner: DisplayItem, i: int, x: int, y: int, env: Env): (r: seq<TreeNode>)
    requires me < |ns| && Shaped(owner, env) && IsList(owner) && 0 <= i
    ensures |r| >= |ns|
    decreases owner, 0, Passes(i, Count(owner, env)), 0
  {
    if i >= Count(owner, env) then ns
    else
      var ns1 := Enum(ns, Some(me), owner.children.entries[ItemWidgetIndex(owner).value].item, x, y, env);
      var next := ListStep(owner, x, y);
      ListFrom(ns1, me, owner, i + 1, next.0, next.1, env)
  }

  /**
   * The Grid loop from pass `i` on, at incoming position (`x`, `y`); `left` is the grid's own
   * `rect.x`, where a new row starts. After each item it moves right when the next item still
   * starts inside the grid's width, else starts a new row when that still starts inside the
   * grid's height, else stops.
   */
  function GridFrom(ns: seq<TreeNode>, me: nat, owner: DisplayItem, i: int, left: int, x: int, y: int, env: Env): (r: seq<TreeNode>)
    requires me < |ns| && Shaped(owner, env) && IsGrid(owner) && 0 <= i
    ensures |r| >= |ns|
    decreases owner, 0, Passes(i, Count(owner, env)), 0
  {
    if i >= Count(owner, env) then ns
    else
      var ns1 := Enum(ns, Some(me), owner.children.entries[ItemWidgetIndex(owner).value].item, x, y, env);
      var size := owner.obj.itemWidget.value;
      if x + size.width < owner.obj.width then GridFrom(ns1, me, owner, i + 1, left, x + size.width, y, env)
      else if y + size.height < owner.obj.height then GridFrom(ns1, me, owner, i + 1, left, left, y + size.height, env)
      else ns1
  }

  /** A Select widget visits the child `getSelectedWidgetForSelectWidget` picks, if any. */
  function SelectFrom(ns: seq<TreeNode>, me: nat, owner: DisplayItem, x: int, y: int, env: Env): (r: seq<TreeNode>)
    requires me < |ns| && Shaped(owner, env) && !IsContainer(owner) && !IsList(owner) && !IsGrid(owner)
    requires owner.obj.wtype == "Select"
    ensures |r| >= |ns|
    decreases owner, 0, 0, 0
  {
    var selected := SelectedWidget(owner, env);
    if selected.Some? then Enum(ns, Some(me), owner.children.items[selected.value], x, y, env)
    else ns
  }

  // ---------------------------------------------------------------------------
  // What the walk changes

  /** Attaching a node and then extending it is extending the parent by that one node. */
  lemma AttachThenExtend(ns: seq<TreeNode>, parent: Option<nat>, node: TreeNode, r: seq<TreeNode>)
    requires parent.Some? ==> parent.value < |ns|
    requires node.parent == parent && node.children == []
    requires Extends(Attach(ns, parent, node), r, |ns|)
    ensures |r| > |ns|
    ensures parent.None? ==> forall p :: 0 <= p < |ns| ==> r[p] == ns[p]
    ensures parent.Some? ==> Extends(ns, r, parent.value) && Added(ns, r, parent.value) == [|ns|]
    ensures r[|ns|].(children := []) == node
    ensures forall c :: |ns| < c < |r| ==> r[c].parent.Some? && |ns| <= r[c].parent.value < c
  {
    var ns1 := Attach(ns, parent, node);
    assert r[|ns|].(children := []) == ns1[|ns|].(children := []);
    if parent.Some? {
      var p := parent.value;
      assert r[p] == ns1[p];
      forall c | |ns| <= c < |r|
        ensures r[c].parent.Some? && (r[c].parent.value == p || |ns| <= r[c].parent.value < c)
      {
        if c == |ns| {
          assert r[c].parent == node.parent;
        }
      }
      assert r[p].children[|ns[p].children|..] == [|ns|];
    }
  }

  /**
   * `enumWidget` changes nothing it did not create except the parent's child list, which gains
   * exactly the new node; the new node sits at its rectangle with the flags of its object; every
   * further node hangs below it; the root node (no parent) leaves every earlier node alone.
   */
  lemma EnumFrame(ns: seq<TreeNode>, parent: Option<nat>, item: DisplayItem, x: int, y: int, env: Env)
    requires parent.Some? ==> parent.value < |ns|
    requires Shaped(item, env)
    ensures var r := Enum(ns, parent, item, x, y, env);
      && (parent.None? ==> forall p :: 0 <= p < |ns| ==> r[p] == ns[p])
      && (parent.Some? ==> Extends(ns, r, parent.value) && Added(ns, r, parent.value) == [|ns|])
      && r[|ns|].parent == parent && r[|ns|].rect == NodeRect(item.obj, x, y) && r[|ns|].item == item
      && r[|ns|].movable == r[|ns|].selectable == (item.obj.kind == WidgetKind)
      && r[|ns|].selected == (item.obj.kind == WidgetKind && item.selected)
      && forall c :: |ns| < c < |r| ==> r[c].parent.Some? && |ns| <= r[c].parent.value < c
    decreases item, 2
  {
    var node := NewNode(parent, item, x, y);
    var ns1 := Attach(ns, parent, node);
    VisitFrame(ns1, |ns|, item, env);
    AttachThenExtend(ns, parent, node, Visit(ns1, |ns|, item, env));
  }

  lemma VisitFrame(ns1: seq<TreeNode>, me: nat, item: DisplayItem, env: Env)
    requires me < |ns1| && Shaped(item, env)
    ensures Extends(ns1, Visit(ns1, me, item, env), me)
    decreases item, 1, 0, 0
  {
    var rect := ns1[me].rect;
    if IsContainer(item) {
      EachFrame(ns1, me, item, 0, rect.x, rect.y, env);
    } else if IsList(item) {
      ListFrame(ns1, me, item, 0, rect.x, rect.y, env);
    } else if IsGrid(item) {
      GridFrame(ns1, me, item, 0, rect.x, rect.x, rect.y, env);
    } else if item.obj.wtype == "Select" {
      SelectFrame(ns1, me, item, rect.x, rect.y, env);
    }
  }

  /** Extending twice is extending, and the children added are those of both, in order. */
  lemma ExtendsTrans(ns: seq<TreeNode>, ns1: seq<TreeNode>, r: seq<TreeNode>, me: nat)
    requires me < |ns| && Extends(ns, ns1, me) && Extends(ns1, r, me)
    ensures Extends(ns, r, me)
    ensures Added(ns, r, me) == Added(ns, ns1, me) + Added(ns1, r, me)
  {
    var a, b, d := ns[me].children, ns1[me].children, r[me].children;
    assert d[..|b|] == b;
    assert d[|a|..] == b[|a|..] + d[|b|..];
  }

  /** One child call adds one child and then the rest of the loop extends the arena further. */
  lemma ChildThenRest(ns: seq<TreeNode>, ns1: seq<TreeNode>, r: seq<TreeNode>, me: nat)
    requires me < |ns| < |ns1| && Extends(ns, ns1, me) && Added(ns, ns1, me) == [|ns|]
    requires Extends(ns1, r, me)
    ensures Extends(ns, r, me)
    ensures Added(ns, r, me) == [|ns|] + Added(ns1, r, me)
    ensures |ns| < |r| && r[|ns|] == ns1[|ns|]
  {
    ExtendsTrans(ns, ns1, r, me);
  }

  /** The forEach adds one child per remaining child item. */
  lemma {:induction false} EachFrame(ns: seq<TreeNode>, me: nat, owner: DisplayItem, k: nat, x: int, y: int, env: Env)
    requires me < |ns| && Shaped(owner, env) && IsContainer(owner) && k <= |owner.children.items|
    ensures var r := Each(ns, me, owner, k, x, y, env);
      Extends(ns, r, me) && |Added(ns, r, me)| == |owner.children.items| - k
    decreases owner, 0, |owner.children.items| - k, 0
  {
    if k < |owner.children.items| {
      var child := owner.children.items[k];
      var ns1 := Enum(ns, Some(me), child, x, y, env);
      EnumFrame(ns, Some(me), child, x, y, env);
      EachFrame(ns1, me, owner, k + 1, x, y, env);
      ChildThenRest(ns, ns1, Each(ns1, me, owner, k + 1, x, y, env), me);
    }
  }

  /** The List loop adds one child per remaining pass. */
  lemma {:induction false} ListFrame(ns: seq<TreeNode>, me: nat, owner: DisplayItem, i: int, x: int, y: int, env: Env)
    requires me < |ns| && Shaped(owner, env) && IsList(owner) && 0 <= i
    ensures var r := ListFrom(ns, me, owner, i, x, y, env);
      Extends(ns, r, me) && |Added(ns, r, me)| == Passes(i, Count(owner, env))
    decreases owner, 0, Passes(i, Count(owner, env)), 0
  {
    if i < Count(owner, env) {
      var child := owner.children.entries[ItemWidgetIndex(owner).value].item;
      var ns1 := Enum(ns, Some(me), child, x, y, env);
      var next := ListStep(owner, x, y);
      EnumFrame(ns, Some(me), child, x, y, env);
      ListFrame(ns1, me, owner, i + 1, next.0, next.1, env);
      ChildThenRest(ns, ns1, ListFrom(ns1, me, owner, i + 1, next.0, next.1, env), me);
    }
  }

  /** The position the Grid loop moves to after `(x, y)`, and whether it goes on at all. */
  function GridNext(owner: DisplayItem, left: int, x: int, y: int): (int, int, bool)
    requires IsGrid(owner)
  {
    var size := owner.obj.itemWidget.value;
    if x + size.width < owner.obj.width then (x + size.width, y, true)
    else if y + size.height < owner.obj.height then (left, y + size.height, true)
    else (x, y, false)
  }

  /** A pass of the Grid loop after which it stops: the item widget at `(x, y)` and nothing more. */
  lemma GridStop(ns: seq<TreeNode>, me: nat, owner: DisplayItem, i: int, left: int, x: int, y: int, env: Env)
    requires me < |ns| && Shaped(owner, env) && IsGrid(owner) && 0 <= i < Count(owner, env)
    requires !GridNext(owner, left, x, y).2
    ensures var child := owner.children.entries[ItemWidgetIndex(owner).value].item;
      GridFrom(ns, me, owner, i, left, x, y, env) == Enum(ns, Some(me), child, x, y, env)
      && GridCursors(owner, i, left, x, y, Count(owner, env)) == [(x, y)]
  {
  }

  /** A pass of the Grid loop that goes on visits `(x, y)` and then the positions from the next one. */
  lemma GridCursorsOn(owner: DisplayItem, i: int, left: int, x: int, y: int, count: int)
    requires IsGrid(owner) && i < count && GridNext(owner, left, x, y).2
    ensures var next := GridNext(owner, left, x, y);
      GridCursors(owner, i, left, x, y, count) == [(x, y)] + GridCursors(owner, i + 1, left, next.0, next.1, count)
  {
  }

  /** The Grid loop adds at most one child per remaining pass. */
  lemma {:induction false} GridFrame(ns: seq<TreeNode>, me: nat, owner: DisplayItem, i: int, left: int, x: int, y: int, env: Env)
    requires me < |ns| && Shaped(owner, env) && IsGrid(owner) && 0 <= i
    ensures var r := GridFrom(ns, me, owner, i, left, x, y, env);
      Extends(ns, r, me)
      && |Added(ns, r, me)| == |GridCursors(owner, i, left, x, y, Count(owner, env))|
    decreases owner, 0, Passes(i, Count(owner, env)), 0
  {
    if i < Count(owner, env) {
      var child := owner.children.entries[ItemWidgetIndex(owner).value].item;
      var ns1 := Enum(ns, Some(me), child, x, y, env);
      var next := GridNext(owner, left, x, y);
      EnumFrame(ns, Some(me), child, x, y, env);
      if next.2 {
        GridOnce(ns, me, owner, i, left, x, y, env);
        GridCursorsOn(owner, i, left, x, y, Count(owner, env));
        GridFrame(ns1, me, owner, i + 1, left, next.0, next.1, env);
        ChildThenRest(ns, ns1, GridFrom(ns1, me, owner, i + 1, left, next.0, next.1, env), me);
      } else {
        GridStop(ns, me, owner, i, left, x, y, env);
        ExtendsRefl(ns1, me);
        ChildThenRest(ns, ns1, ns1, me);
      }
    }
  }

  /** A Select widget adds one child exactly when `getSelectedWidgetForSelectWidget` picks one. */
  lemma SelectFrame(ns: seq<TreeNode>, me: nat, owner: DisplayItem, x: int, y: int, env: Env)
    requires me < |ns| && Shaped(owner, env) && !IsContainer(owner) && !IsList(owner) && !IsGrid(owner)
    requires owner.obj.wtype == "Select"
    ensures var r := SelectFrom(ns, me, owner, x, y, env);
      Extends(ns, r, me) && |Added(ns, r, me)| == if SelectedWidget(owner, env).Some? then 1 else 0
    decreases owner, 0, 0, 0
  {
    var selected := SelectedWidget(owner, env);
    if selected.Some? {
      EnumFrame(ns, Some(me), owner.children.items[selected.value], x, y, env);
    }
  }

  lemma ExtendsRefl(ns: seq<TreeNode>, me: nat)
    requires me < |ns|
    ensures Extends(ns, ns, me) && Added(ns, ns, me) == []
  {
  }

  /**
   * The incoming positions the Grid loop visits from pass `i` on: the current one, then, when
   * the loop goes on, those from the next position.
   */
  function GridCursors(owner: DisplayItem, i: int, left: int, x: int, y: int, count: int): (cs: seq<(int, int)>)
    requires IsGrid(owner)
    ensures |cs| <= Passes(i, count)
    ensures i < count ==> |cs| >= 1 && cs[0] == (x, y)
    decreases Passes(i, count)
  {
    var size := owner.obj.itemWidget.value;
    if i >= count then []
    else if x + size.width < owner.obj.width then [(x, y)] + GridCursors(owner, i + 1, left, x + size.width, y, count)
    else if y + size.height < owner.obj.height then [(x, y)] + GridCursors(owner, i + 1, left, left, y + size.height, count)
    else [(x, y)]
  }

  /**
   * The walk keeps the arena linked: the node it creates is pushed onto its parent's children,
   * and so is every node below it.
   */
  lemma {:induction false} EnumLinked(ns: seq<TreeNode>, parent: Option<nat>, item: DisplayItem, x: int, y: int, env: Env)
    requires parent.Some? ==> parent.value < |ns|
    requires Shaped(item, env) && Linked(ns)
    ensures Linked(Enum(ns, parent, item, x, y, env))
    decreases item, 2
  {
    var node := NewNode(parent, item, x, y);
    AttachLinked(ns, parent, node);
    VisitLinked(Attach(ns, parent, node), |ns|, item, env);
  }

  lemma {:induction false} VisitLinked(ns1: seq<TreeNode>, me: nat, item: DisplayItem, env: Env)
    requires me < |ns1| && Shaped(item, env) && Linked(ns1)
    ensures Linked(Visit(ns1, me, item, env))
    decreases item, 1, 0, 0
  {
    var rect := ns1[me].rect;
    if IsContainer(item) {
      EachLinked(ns1, me, item, 0, rect.x, rect.y, env);
    } else if IsList(item) {
      ListLinked(ns1, me, item, 0, rect.x, rect.y, env);
    } else if IsGrid(item) {
      GridLinked(ns1, me, item, 0, rect.x, rect.x, rect.y, env);
    } else if item.obj.wtype == "Select" {
      var selected := SelectedWidget(item, env);
      if selected.Some? {
        EnumLinked(ns1, Some(me), item.children.items[selected.value], rect.x, rect.y, env);
      }
    }
  }

  lemma {:induction false} EachLinked(ns: seq<TreeNode>, me: nat, owner: DisplayItem, k: nat, x: int, y: int, env: Env)
    requires me < |ns| && Shaped(owner, env) && IsContainer(owner) && k <= |owner.children.items| && Linked(ns)
    ensures Linked(Each(ns, me, owner, k, x, y, env))
    decreases owner, 0, |owner.children.items| - k, 0
  {
    if k < |owner.children.items| {
      EnumLinked(ns, Some(me), owner.children.items[k], x, y, env);
      EachLinked(Enum(ns, Some(me), owner.children.items[k], x, y, env), me, owner, k + 1, x, y, env);
    }
  }

  lemma {:induction false} ListLinked(ns: seq<TreeNode>, me: nat, owner: DisplayItem, i: int, x: int, y: int, env: Env)
    requires me < |ns| && Shaped(owner, env) && IsList(owner) && 0 <= i && Linked(ns)
    ensures Linked(ListFrom(ns, me, owner, i, x, y, env))
    decreases owner, 0, Passes(i, Count(owner, env)), 0
  {
    if i < Count(owner, env) {
      var child := owner.children.entries[ItemWidgetIndex(owner).value].item;
      var next := ListStep(owner, x, y);
      EnumLinked(ns, Some(me), child, x, y, env);
      ListLinked(Enum(ns, Some(me), child, x, y, env), me, owner, i + 1, next.0, next.1, env);
    }
  }

  lemma {:induction false} GridLinked(ns: seq<TreeNode>, me: nat, owner: DisplayItem, i: int, left: int, x: int, y: int, env: Env)
    requires me < |ns| && Shaped(owner, env) && IsGrid(owner) && 0 <= i && Linked(ns)
    ensures Linked(GridFrom(ns, me, owner, i, left, x, y, env))
    decreases owner, 0, Passes(i, Count(owner, env)), 0
  {
    if i < Count(owner, env) {
      var child := owner.children.entries[ItemWidgetIndex(owner).value].item;
      var ns1 := Enum(ns, Some(me), child, x, y, env);
      var size := owner.obj.itemWidget.value;
      EnumLinked(ns, Some(me), child, x, y, env);
      if x + size.width < owner.obj.width {
        GridLinked(ns1, me, owner, i + 1, left, x + size.width, y, env);
      } else if y + size.height < owner.obj.height {
        GridLinked(ns1, me, owner, i + 1, left, left, y + size.height, env);
      }
    }
  }

  // ---------------------------------------------------------------------------
  // Where the walk places children

  /** The `j`-th child `after` adds to `me` is a node for `item` with rectangle `rect`. */
  predicate PlacedAt(before: seq<TreeNode>, after: seq<TreeNode>, me: nat, j: nat, item: DisplayItem, rect: Rect) {
    j < |Added(before, after, me)|
    && var c := Added(before, after, me)[j];
      c < |after| && after[c].item == item && after[c].rect == rect
  }

  /** The node a child call creates first is the first child added. */
  lemma PlacedFirst(ns: seq<TreeNode>, ns1: seq<TreeNode>, r: seq<TreeNode>, me: nat)
    requires me < |ns| < |ns1| && Extends(ns, ns1, me) && Added(ns, ns1, me) == [|ns|] && Extends(ns1, r, me)
    ensures PlacedAt(ns, r, me, 0, ns1[|ns|].item, ns1[|ns|].rect)
  {
    ChildThenRest(ns, ns1, r, me);
  }

  /** The children a later call adds come after the one an earlier call added. */
  lemma PlacedShift(ns: seq<TreeNode>, ns1: seq<TreeNode>, r: seq<TreeNode>, me: nat, j: nat, item: DisplayItem, rect: Rect)
    requires me < |ns| < |ns1| && Extends(ns, ns1, me) && Added(ns, ns1, me) == [|ns|] && Extends(ns1, r, me)
    requires PlacedAt(ns1, r, me, j, item, rect)
    ensures PlacedAt(ns, r, me, j + 1, item, rect)
  {
    ChildThenRest(ns, ns1, r, me);
    assert Added(ns, r, me)[j + 1] == Added(ns1, r, me)[j];
  }

  /** Child `k + j` of a page or container becomes the `j`-th node added, at the parent's origin. */
  lemma {:induction false} EachPlacement(ns: seq<TreeNode>, me: nat, owner: DisplayItem, k: nat, x: int, y: int, env: Env, j: nat)
    requires me < |ns| && Shaped(owner, env) && IsContainer(owner) && k + j < |owner.children.items|
    ensures PlacedAt(ns, Each(ns, me, owner, k, x, y, env), me, j,
      owner.children.items[k + j], NodeRect(owner.children.items[k + j].obj, x, y))
    decreases |owner.children.items| - k
  {
    var ns1 := Enum(ns, Some(me), owner.children.items[k], x, y, env);
    var r := Each(ns1, me, owner, k + 1, x, y, env);
    EnumFrame(ns, Some(me), owner.children.items[k], x, y, env);
    EachFrame(ns1, me, owner, k + 1, x, y, env);
    if j == 0 {
      PlacedFirst(ns, ns1, r, me);
    } else {
      EachPlacement(ns1, me, owner, k + 1, x, y, env, j - 1);
      PlacedShift(ns, ns1, r, me, j - 1, owner.children.items[k + j], NodeRect(owner.children.items[k + j].obj, x, y));
    }
  }

  /** The incoming position of pass `j` of the List loop started at (`x`, `y`). */
  function ListCursor(owner: DisplayItem, x: int, y: int, j: nat): (int, int)
    requires IsList(owner)
    decreases j
  {
    if j == 0 then (x, y)
    else
      var next := ListStep(owner, x, y);
      ListCursor(owner, next.0, next.1, j - 1)
  }

  /** Pass `j` of a vertical list starts `j` item heights down; of any other list, `j` widths right. */
  lemma {:induction false} ListCursorClosed(owner: DisplayItem, x: int, y: int, j: nat)
    requires IsList(owner)
    ensures var size := owner.obj.itemWidget.value;
      ListCursor(owner, x, y, j) ==
        if owner.obj.listType == "vertical" then (x, y + j * size.height) else (x + j * size.width, y)
    decreases j
  {
    var size := owner.obj.itemWidget.value;
    if j > 0 {
      var next := ListStep(owner, x, y);
      ListCursorClosed(owner, next.0, next.1, j - 1);
      assert (j - 1) * size.height + size.height == j * size.height;
      assert (j - 1) * size.width + size.width == j * size.width;
    }
  }

  /** Pass `i + j` of the List loop adds the `j`-th node: the item widget at `ListCursor`. */
  lemma {:induction false} ListPlacement(ns: seq<TreeNode>, me: nat, owner: DisplayItem, i: nat, x: int, y: int, env: Env, j: nat)
    requires me < |ns| && Shaped(owner, env) && IsList(owner) && i + j < Count(owner, env)
    ensures var child := owner.children.entries[ItemWidgetIndex(owner).value].item;
      var cursor := ListCursor(owner, x, y, j);
      PlacedAt(ns, ListFrom(ns, me, owner, i, x, y, env), me, j, child, NodeRect(child.obj, cursor.0, cursor.1))
    decreases Count(owner, env) - i, 1
  {
    if j == 0 {
      ListPlacementFirst(ns, me, owner, i, x, y, env);
    } else {
      ListPlacementLater(ns, me, owner, i, x, y, env, j);
    }
  }

  /** One pass of the List loop: the item widget at `(x, y)`, then the passes from the next position. */
  lemma ListOnce(ns: seq<TreeNode>, me: nat, owner: DisplayItem, i: nat, x: int, y: int, env: Env)
    requires me < |ns| && Shaped(owner, env) && IsList(owner) && i < Count(owner, env)
    ensures var child := owner.children.entries[ItemWidgetIndex(owner).value].item;
      var ns1 := Enum(ns, Some(me), child, x, y, env);
      var next := ListStep(owner, x, y);
      ListFrom(ns, me, owner, i, x, y, env) == ListFrom(ns1, me, owner, i + 1, next.0, next.1, env)
  {
  }

  /** The first pass of the List loop adds the item widget at the incoming position. */
  lemma ListPlacementFirst(ns: seq<TreeNode>, me: nat, owner: DisplayItem, i: nat, x: int, y: int, env: Env)
    requires me < |ns| && Shaped(owner, env) && IsList(owner) && i < Count(owner, env)
    ensures var child := owner.children.entries[ItemWidgetIndex(owner).value].item;
      PlacedAt(ns, ListFrom(ns, me, owner, i, x, y, env), me, 0, child, NodeRect(child.obj, x, y))
  {
    var child := owner.children.entries[ItemWidgetIndex(owner).value].item;
    var ns1 := Enum(ns, Some(me), child, x, y, env);
    var next := ListStep(owner, x, y);
    var r := ListFrom(ns1, me, owner, i + 1, next.0, next.1, env);
    ListOnce(ns, me, owner, i, x, y, env);
    ListFrame(ns1, me, owner, i + 1, next.0, next.1, env);
    PlacedFirstChild(ns, me, child, x, y, env, r);
  }

  /** The node a child call creates is the first child added, whatever later calls add. */
  lemma PlacedFirstChild(ns: seq<TreeNode>, me: nat, child: DisplayItem, x: int, y: int, env: Env, r: seq<TreeNode>)
    requires me < |ns| && Shaped(child, env)
    requires Extends(Enum(ns, Some(me), child, x, y, env), r, me)
    ensures PlacedAt(ns, r, me, 0, child, NodeRect(child.obj, x, y))
  {
    var ns1 := Enum(ns, Some(me), child, x, y, env);
    EnumFrame(ns, Some(me), child, x, y, env);
    PlacedFirst(ns, ns1, r, me);
  }

  /** A later pass of the List loop adds its node after the first one, one step further on. */
  lemma {:induction false} ListPlacementLater(ns: seq<TreeNode>, me: nat, owner: DisplayItem, i: nat, x: int, y: int, env: Env, j: nat)
    requires me < |ns| && Shaped(owner, env) && IsList(owner) && 0 < j && i + j < Count(owner, env)
    ensures var child := owner.children.entries[ItemWidgetIndex(owner).value].item;
      var cursor := ListCursor(owner, x, y, j);
      PlacedAt(ns, ListFrom(ns, me, owner, i, x, y, env), me, j, child, NodeRect(child.obj, cursor.0, cursor.1))
    decreases Count(owner, env) - i, 0
  {
    var child := owner.children.entries[ItemWidgetIndex(owner).value].item;
    var next := ListStep(owner, x, y);
    var ns1 := Enum(ns, Some(me), child, x, y, env);
    var r := ListFrom(ns1, me, owner, i + 1, next.0, next.1, env);
    ListOnce(ns, me, owner, i, x, y, env);
    ListFrame(ns1, me, owner, i + 1, next.0, next.1, env);
    ListPlacement(ns1, me, owner, i + 1, next.0, next.1, env, j - 1);
    var cursor := ListCursor(owner, next.0, next.1, j - 1);
    PlacedAfterChild(ns, me, child, x, y, env, ns1, r, j - 1, child, NodeRect(child.obj, cursor.0, cursor.1));
    assert cursor == ListCursor(owner, x, y, j);
  }

  /** The incoming position of pass `j` of the Grid loop started at (`x`, `y`), when it gets that far. */
  function GridCursor(owner: DisplayItem, left: int, x: int, y: int, j: nat): (int, int)
    requires IsGrid(owner)
    decreases j
  {
    if j == 0 then (x, y)
    else
      var next := GridNext(owner, left, x, y);
      GridCursor(owner, left, next.0, next.1, j - 1)
  }

  /** The `j`-th position of `GridCursors` is `GridCursor` at `j`. */
  lemma {:induction false} GridCursorsAt(owner: DisplayItem, i: int, left: int, x: int, y: int, count: int, j: nat)
    requires IsGrid(owner) && j < |GridCursors(owner, i, left, x, y, count)|
    ensures GridCursors(owner, i, left, x, y, count)[j] == GridCursor(owner, left, x, y, j)
    decreases j
  {
    if j > 0 {
      var next := GridNext(owner, left, x, y);
      GridGoesOn(owner, i, left, x, y, count);
      GridCursorsAt(owner, i + 1, left, next.0, next.1, count, j - 1);
    }
  }

  /** Pass `i + j` of the Grid loop, when the loop gets that far, adds its node at the `j`-th cursor. */
  lemma {:induction false} GridPlacement(ns: seq<TreeNode>, me: nat, owner: DisplayItem, i: nat, left: int, x: int, y: int, env: Env, j: nat)
    requires me < |ns| && Shaped(owner, env) && IsGrid(owner)
    requires j < |GridCursors(owner, i, left, x, y, Count(owner, env))|
    ensures var child := owner.children.entries[ItemWidgetIndex(owner).value].item;
      var cursor := GridCursor(owner, left, x, y, j);
      PlacedAt(ns, GridFrom(ns, me, owner, i, left, x, y, env), me, j, child, NodeRect(child.obj, cursor.0, cursor.1))
    decreases Count(owner, env) - i, 1
  {
    if j == 0 {
      GridPlacementFirst(ns, me, owner, i, left, x, y, env);
    } else {
      GridPlacementLater(ns, me, owner, i, left, x, y, env, j);
    }
  }

  /** The first pass of the Grid loop adds the item widget at the incoming position. */
  lemma GridPlacementFirst(ns: seq<TreeNode>, me: nat, owner: DisplayItem, i: nat, left: int, x: int, y: int, env: Env)
    requires me < |ns| && Shaped(owner, env) && IsGrid(owner) && i < Count(owner, env)
    ensures var child := owner.children.entries[ItemWidgetIndex(owner).value].item;
      PlacedAt(ns, GridFrom(ns, me, owner, i, left, x, y, env), me, 0, child, NodeRect(child.obj, x, y))
  {
    var child := owner.children.entries[ItemWidgetIndex(owner).value].item;
    var ns1 := Enum(ns, Some(me), child, x, y, env);
    var next := GridNext(owner, left, x, y);
    var r := GridFrom(ns, me, owner, i, left, x, y, env);
    GridRestExtends(ns, me, owner, i, left, x, y, env);
    PlacedFirstChild(ns, me, child, x, y, env, r);
  }

  /** What the Grid loop adds after its first pass only extends what that pass produced. */
  lemma GridRestExtends(ns: seq<TreeNode>, me: nat, owner: DisplayItem, i: nat, left: int, x: int, y: int, env: Env)
    requires me < |ns| && Shaped(owner, env) && IsGrid(owner) && i < Count(owner, env)
    ensures var child := owner.children.entries[ItemWidgetIndex(owner).value].item;
      var ns1 := Enum(ns, Some(me), child, x, y, env);
      me < |ns1| && Extends(ns1, GridFrom(ns, me, owner, i, left, x, y, env), me)
  {
    var child := owner.children.entries[ItemWidgetIndex(owner).value].item;
    var ns1 := Enum(ns, Some(me), child, x, y, env);
    var next := GridNext(owner, left, x, y);
    if next.2 {
      GridOnce(ns, me, owner, i, left, x, y, env);
      GridFrame(ns1, me, owner, i + 1, left, next.0, next.1, env);
    } else {
      GridStop(ns, me, owner, i, left, x, y, env);
      ExtendsRefl(ns1, me);
    }
  }

  /** A later pass of the Grid loop adds its node after the first one, at its cursor. */
  lemma {:induction false} GridPlacementLater(ns: seq<TreeNode>, me: nat, owner: DisplayItem, i: nat, left: int, x: int, y: int, env: Env, j: nat)
    requires me < |ns| && Shaped(owner, env) && IsGrid(owner)
    requires 0 < j < |GridCursors(owner, i, left, x, y, Count(owner, env))|
    ensures var child := owner.children.entries[ItemWidgetIndex(owner).value].item;
      var cursor := GridCursor(owner, left, x, y, j);
      PlacedAt(ns, GridFrom(ns, me, owner, i, left, x, y, env), me, j, child, NodeRect(child.obj, cursor.0, cursor.1))
    decreases Count(owner, env) - i, 0
  {
    var child := owner.children.entries[ItemWidgetIndex(owner).value].item;
    var next := GridNext(owner, left, x, y);
    GridGoesOn(owner, i, left, x, y, Count(owner, env));
    var ns1 := Enum(ns, Some(me), child, x, y, env);
    GridPlacement(ns1, me, owner, i + 1, left, next.0, next.1, env, j - 1);
    GridLaterShift(ns, me, owner, i, left, x, y, env, j, ns1);
  }

  /** The node the rest of the Grid loop places `j - 1`-th is the `j`-th of the whole loop. */
  lemma GridLaterShift(ns: seq<TreeNode>, me: nat, owner: DisplayItem, i: nat, left: int, x: int, y: int, env: Env, j: nat,
                       ns1: seq<TreeNode>)
    requires me < |ns| && Shaped(owner, env) && IsGrid(owner) && i < Count(owner, env) && 0 < j
    requires GridNext(owner, left, x, y).2
    requires ns1 == Enum(ns, Some(me), owner.children.entries[ItemWidgetIndex(owner).value].item, x, y, env)
    requires var child := owner.children.entries[ItemWidgetIndex(owner).value].item;
      var next := GridNext(owner, left, x, y);
      var cursor := GridCursor(owner, left, next.0, next.1, j - 1);
      me < |ns1|
      && PlacedAt(ns1, GridFrom(ns1, me, owner, i + 1, left, next.0, next.1, env), me, j - 1, child, NodeRect(child.obj, cursor.0, cursor.1))
    ensures var child := owner.children.entries[ItemWidgetIndex(owner).value].item;
      var cursor := GridCursor(owner, left, x, y, j);
      PlacedAt(ns, GridFrom(ns, me, owner, i, left, x, y, env), me, j, child, NodeRect(child.obj, cursor.0, cursor.1))
  {
    var child := owner.children.entries[ItemWidgetIndex(owner).value].item;
    var next := GridNext(owner, left, x, y);
    GridOnce(ns, me, owner, i, left, x, y, env);
    var r := GridFrom(ns1, me, owner, i + 1, left, next.0, next.1, env);
    GridFrame(ns1, me, owner, i + 1, left, next.0, next.1, env);
    var cursor := GridCursor(owner, left, next.0, next.1, j - 1);
    PlacedAfterChild(ns, me, child, x, y, env, ns1, r, j - 1, child, NodeRect(child.obj, cursor.0, cursor.1));
    assert cursor == GridCursor(owner, left, x, y, j);
  }

  /** A node placed after a child call is placed one further along from before that call. */
  lemma PlacedAfterChild(ns: seq<TreeNode>, me: nat, child: DisplayItem, x: int, y: int, env: Env,
                         ns1: seq<TreeNode>, r: seq<TreeNode>, j: nat, item: DisplayItem, rect: Rect)
    requires me < |ns| && Shaped(child, env) && ns1 == Enum(ns, Some(me), child, x, y, env)
    requires Extends(ns1, r, me) && PlacedAt(ns1, r, me, j, item, rect)
    ensures PlacedAt(ns, r, me, j + 1, item, rect)
  {
    EnumFrame(ns, Some(me), child, x, y, env);
    PlacedShift(ns, ns1, r, me, j, item, rect);
  }

  /** When the Grid loop visits a second position, it goes on after the first, and the rest follow. */
  lemma GridGoesOn(owner: DisplayItem, i: int, left: int, x: int, y: int, count: int)
    requires IsGrid(owner) && 1 < |GridCursors(owner, i, left, x, y, count)|
    ensures var next := GridNext(owner, left, x, y);
      next.2 && GridCursors(owner, i, left, x, y, count)
        == [(x, y)] + GridCursors(owner, i + 1, left, next.0, next.1, count)
  {
  }

  /** A pass of the Grid loop that goes on: the item widget at `(x, y)`, then the rest from the next position. */
  lemma GridOnce(ns: seq<TreeNode>, me: nat, owner: DisplayItem, i: int, left: int, x: int, y: int, env: Env)
    requires me < |ns| && Shaped(owner, env) && IsGrid(owner) && 0 <= i < Count(owner, env)
    requires GridNext(owner, left, x, y).2
    ensures var child := owner.children.entries[ItemWidgetIndex(owner).value].item;
      var next := GridNext(owner, left, x, y);
      GridFrom(ns, me, owner, i, left, x, y, env)
        == GridFrom(Enum(ns, Some(me), child, x, y, env), me, owner, i + 1, left, next.0, next.1, env)
  {
  }


  /**
   * Every position after the first lies inside the grid: its x is the row start `left` or inside
   * the grid's width, and its y is the first row's `y` or inside the grid's height.
   */
  predicate InsideGrid(owner: DisplayItem, left: int, y: int, cs: seq<(int, int)>) {
    forall j :: 0 < j < |cs| ==>
      (cs[j].0 == left || cs[j].0 < owner.obj.width) && (cs[j].1 == y || cs[j].1 < owner.obj.height)
  }

  /** The Grid loop only ever moves to positions inside the grid. */
  lemma {:induction false} GridCursorsInside(owner: DisplayItem, i: int, left: int, x: int, y: int, count: int)
    requires IsGrid(owner)
    ensures InsideGrid(owner, left, y, GridCursors(owner, i, left, x, y, count))
    decreases Passes(i, count)
  {
    var size := owner.obj.itemWidget.value;
    var cs := GridCursors(owner, i, left, x, y, count);
    if i < count && (x + size.width < owner.obj.width || y + size.height < owner.obj.height) {
      var moved := x + size.width < owner.obj.width;
      var x1 := if moved then x + size.width else left;
      var y1 := if moved then y else y + size.height;
      var tail := GridCursors(owner, i + 1, left, x1, y1, count);
      GridCursorsInside(owner, i + 1, left, x1, y1, count);
      assert cs == [(x, y)] + tail;
      forall j | 0 < j < |cs|
        ensures (cs[j].0 == left || cs[j].0 < owner.obj.width) && (cs[j].1 == y || cs[j].1 < owner.obj.height)
      {
        assert cs[j] == tail[j - 1];
        if j == 1 {
          assert tail[0] == (x1, y1);
        }
      }
    }
  }

  /**
   * Each position after the first is the move `GridNext` makes from the one before, and the loop
   * stops after `count` passes or at a position from which it cannot move on.
   */
  predicate GridSteps(owner: DisplayItem, left: int, cs: seq<(int, int)>)
    requires IsGrid(owner)
  {
    forall j :: 0 < j < |cs| ==> GridStepAt(owner, left, cs, j)
  }

  /** Position `j` is the move from position `j - 1`. */
  predicate GridStepAt(owner: DisplayItem, left: int, cs: seq<(int, int)>, j: nat)
    requires IsGrid(owner) && 0 < j < |cs|
  {
    var next := GridNext(owner, left, cs[j - 1].0, cs[j - 1].1);
    next.2 && cs[j] == (next.0, next.1)
  }

  /** The Grid loop moves by the wrapping rule and ends when the passes run out or the grid is full. */
  lemma {:induction false} GridCursorsStep(owner: DisplayItem, i: int, left: int, x: int, y: int, count: int)
    requires IsGrid(owner)
    ensures var cs := GridCursors(owner, i, left, x, y, count);
      GridSteps(owner, left, cs)
      && (i < count ==>
        |cs| == Passes(i, count) || !GridNext(owner, left, cs[|cs| - 1].0, cs[|cs| - 1].1).2)
    decreases Passes(i, count)
  {
    var cs := GridCursors(owner, i, left, x, y, count);
    var next := GridNext(owner, left, x, y);
    if i < count && next.2 {
      GridCursorsOn(owner, i, left, x, y, count);
      var tail := GridCursors(owner, i + 1, left, next.0, next.1, count);
      GridCursorsStep(owner, i + 1, left, next.0, next.1, count);
      assert cs == [(x, y)] + tail;
      forall j | 0 < j < |cs|
        ensures GridStepAt(owner, left, cs, j)
      {
        assert cs[j] == tail[j - 1];
        if j > 1 {
          assert cs[j - 1] == tail[j - 2];
          assert GridStepAt(owner, left, tail, j - 1);
        } else {
          assert cs[0] == (x, y) && tail[0] == (next.0, next.1);
        }
      }
      if i + 1 < count {
        assert cs[|cs| - 1] == tail[|tail| - 1];
      }
    }
  }

  /** The Select widget's one child, when it has one, is the picked child item at the Select's origin. */
  lemma SelectPlacement(ns: seq<TreeNode>, me: nat, owner: DisplayItem, x: int, y: int, env: Env)
    requires me < |ns| && Shaped(owner, env) && !IsContainer(owner) && !IsList(owner) && !IsGrid(owner)
    requires owner.obj.wtype == "Select" && SelectedWidget(owner, env).Some?
    ensures var child := owner.children.items[SelectedWidget(owner, env).value];
      PlacedAt(ns, SelectFrom(ns, me, owner, x, y, env), me, 0, child, NodeRect(child.obj, x, y))
  {
    var child := owner.children.items[SelectedWidget(owner, env).value];
    var ns1 := Enum(ns, Some(me), child, x, y, env);
    EnumFrame(ns, Some(me), child, x, y, env);
    ExtendsRefl(ns1, me);
    PlacedFirst(ns, ns1, ns1, me);
  }

  // ---------------------------------------------------------------------------
  // The children of one created node

  /** Child `j` of node `me` is a node for `item` with rectangle `rect`. */
  predicate ChildAt(r: seq<TreeNode>, me: nat, j: nat, item: DisplayItem, rect: Rect) {
    me < |r| && j < |r[me].children|
    && var c := r[me].children[j];
      c < |r| && r[c].item == item && r[c].rect == rect
  }

  /** A page's or container's node has one child per child item, all at the node's own origin. */
  predicate ContainerLaidOut(r: seq<TreeNode>, me: nat, owner: DisplayItem, x: int, y: int)
    requires owner.children.ArrayItems?
  {
    var items := owner.children.items;
    me < |r| && |r[me].children| == |items|
    && forall j :: 0 <= j < |items| ==> ChildAt(r, me, j, items[j], NodeRect(items[j].obj, x, y))
  }

  /** A List's node has one child per pass, child `j` at `ListCursor` from the List's origin. */
  predicate ListLaidOut(r: seq<TreeNode>, me: nat, owner: DisplayItem, child: DisplayItem, count: int, x: int, y: int)
    requires IsList(owner)
  {
    me < |r| && |r[me].children| == Passes(0, count)
    && forall j: nat :: j < Passes(0, count) ==>
      ChildAt(r, me, j, child, NodeRect(child.obj, ListCursor(owner, x, y, j).0, ListCursor(owner, x, y, j).1))
  }

  /** A Grid's node has one child per visited position, child `j` at the `j`-th position. */
  predicate GridLaidOut(r: seq<TreeNode>, me: nat, child: DisplayItem, cs: seq<(int, int)>) {
    me < |r| && |r[me].children| == |cs|
    && forall j :: 0 <= j < |cs| ==> ChildAt(r, me, j, child, NodeRect(child.obj, cs[j].0, cs[j].1))
  }

  /** The children the loop added to a node created with none are all its children. */
  lemma AddedAll(ns1: seq<TreeNode>, r: seq<TreeNode>, me: nat, j: nat, item: DisplayItem, rect: Rect)
    requires me < |ns1| && ns1[me].children == [] && Extends(ns1, r, me)
    requires PlacedAt(ns1, r, me, j, item, rect)
    ensures ChildAt(r, me, j, item, rect)
  {
    assert Added(ns1, r, me) == r[me].children;
  }

  /** `enumWidget` on a page or a Container. */
  lemma ContainerChildren(ns: seq<TreeNode>, parent: Option<nat>, item: DisplayItem, x: int, y: int, env: Env)
    requires parent.Some? ==> parent.value < |ns|
    requires Shaped(item, env) && IsContainer(item)
    ensures var rect := NodeRect(item.obj, x, y);
      ContainerLaidOut(Enum(ns, parent, item, x, y, env), |ns|, item, rect.x, rect.y)
  {
    var me := |ns|;
    var ns1 := Attach(ns, parent, NewNode(parent, item, x, y));
    var rect := ns1[me].rect;
    var r := Each(ns1, me, item, 0, rect.x, rect.y, env);
    assert r == Enum(ns, parent, item, x, y, env);
    EachFrame(ns1, me, item, 0, rect.x, rect.y, env);
    assert Added(ns1, r, me) == r[me].children;
    forall j | 0 <= j < |item.children.items|
      ensures ChildAt(r, me, j, item.children.items[j], NodeRect(item.children.items[j].obj, rect.x, rect.y))
    {
      EachPlacement(ns1, me, item, 0, rect.x, rect.y, env, j);
      AddedAll(ns1, r, me, j, item.children.items[j], NodeRect(item.children.items[j].obj, rect.x, rect.y));
    }
  }

  /** `enumWidget` on a List with an item widget: `count` copies of the item widget, stacked. */
  lemma ListChildren(ns: seq<TreeNode>, parent: Option<nat>, item: DisplayItem, x: int, y: int, env: Env)
    requires parent.Some? ==> parent.value < |ns|
    requires Shaped(item, env) && IsList(item) && Count(item, env) > 0
    ensures var rect := NodeRect(item.obj, x, y);
      var child := item.children.entries[ItemWidgetIndex(item).value].item;
      ListLaidOut(Enum(ns, parent, item, x, y, env), |ns|, item, child, Count(item, env), rect.x, rect.y)
  {
    var me := |ns|;
    var ns1 := Attach(ns, parent, NewNode(parent, item, x, y));
    var rect := ns1[me].rect;
    var child := item.children.entries[ItemWidgetIndex(item).value].item;
    var r := ListFrom(ns1, me, item, 0, rect.x, rect.y, env);
    assert r == Enum(ns, parent, item, x, y, env);
    ListFrame(ns1, me, item, 0, rect.x, rect.y, env);
    assert Added(ns1, r, me) == r[me].children;
    forall j: nat | j < Passes(0, Count(item, env))
      ensures ChildAt(r, me, j, child, NodeRect(child.obj, ListCursor(item, rect.x, rect.y, j).0, ListCursor(item, rect.x, rect.y, j).1))
    {
      var cursor := ListCursor(item, rect.x, rect.y, j);
      ListPlacement(ns1, me, item, 0, rect.x, rect.y, env, j);
      AddedAll(ns1, r, me, j, child, NodeRect(child.obj, cursor.0, cursor.1));
    }
  }

  /**
   * `enumWidget` on a Grid with an item widget: one copy of the item widget per position the
   * Grid loop visits, starting at the Grid's origin; at most `count` of them.
   */
  lemma GridChildren(ns: seq<TreeNode>, parent: Option<nat>, item: DisplayItem, x: int, y: int, env: Env)
    requires parent.Some? ==> parent.value < |ns|
    requires Shaped(item, env) && IsGrid(item) && Count(item, env) > 0
    ensures var rect := NodeRect(item.obj, x, y);
      var child := item.children.entries[ItemWidgetIndex(item).value].item;
      var cs := GridCursors(item, 0, rect.x, rect.x, rect.y, Count(item, env));
      GridLaidOut(Enum(ns, parent, item, x, y, env), |ns|, child, cs)
      && 1 <= |cs| <= Count(item, env) && cs[0] == (rect.x, rect.y) && InsideGrid(item, rect.x, rect.y, cs)
  {
    var me := |ns|;
    var ns1 := Attach(ns, parent, NewNode(parent, item, x, y));
    var rect := ns1[me].rect;
    var child := item.children.entries[ItemWidgetIndex(item).value].item;
    var count := Count(item, env);
    var cs := GridCursors(item, 0, rect.x, rect.x, rect.y, count);
    var r := GridFrom(ns1, me, item, 0, rect.x, rect.x, rect.y, env);
    assert r == Enum(ns, parent, item, x, y, env);
    GridFrame(ns1, me, item, 0, rect.x, rect.x, rect.y, env);
    GridCursorsInside(item, 0, rect.x, rect.x, rect.y, count);
    assert Added(ns1, r, me) == r[me].children;
    forall j | 0 <= j < |cs|
      ensures ChildAt(r, me, j, child, NodeRect(child.obj, cs[j].0, cs[j].1))
    {
      GridPlacement(ns1, me, item, 0, rect.x, rect.x, rect.y, env, j);
      GridCursorsAt(item, 0, rect.x, rect.x, rect.y, count, j);
      AddedAll(ns1, r, me, j, child, NodeRect(child.obj, cs[j].0, cs[j].1));
    }
  }

  /** `enumWidget` on a Select: at most one child, the picked child item at the Select's origin. */
  lemma SelectChildren(ns: seq<TreeNode>, parent: Option<nat>, item: DisplayItem, x: int, y: int, env: Env)
    requires parent.Some? ==> parent.value < |ns|
    requires Shaped(item, env) && !IsContainer(item) && item.obj.wtype == "Select"
    ensures var r := Enum(ns, parent, item, x, y, env);
      var rect := NodeRect(item.obj, x, y);
      var selected := SelectedWidget(item, env);
      && |r[|ns|].children| == (if selected.Some? then 1 else 0)
      && (selected.Some? ==>
        ChildAt(r, |ns|, 0, item.children.items[selected.value], NodeRect(item.children.items[selected.value].obj, rect.x, rect.y)))
  {
    var me := |ns|;
    var ns1 := Attach(ns, parent, NewNode(parent, item, x, y));
    var rect := ns1[me].rect;
    var r := SelectFrom(ns1, me, item, rect.x, rect.y, env);
    assert r == Enum(ns, parent, item, x, y, env);
    SelectFrame(ns1, me, item, rect.x, rect.y, env);
    assert Added(ns1, r, me) == r[me].children;
    var selected := SelectedWidget(item, env);
    if selected.Some? {
      var child := item.children.items[selected.value];
      SelectPlacement(ns1, me, item, rect.x, rect.y, env);
      AddedAll(ns1, r, me, 0, child, NodeRect(child.obj, rect.x, rect.y));
    }
  }

  /** Any other object, and a List or Grid without an item widget, gets no children. */
  lemma LeafChildren(ns: seq<TreeNode>, parent: Option<nat>, item: DisplayItem, x: int, y: int, env: Env)
    requires parent.Some? ==> parent.value < |ns|
    requires Shaped(item, env) && !IsContainer(item) && !IsList(item) && !IsGrid(item) && item.obj.wtype != "Select"
    ensures Enum(ns, parent, item, x, y, env)[|ns|].children == []
    ensures |Enum(ns, parent, item, x, y, env)| == |ns| + 1
  {
  }

  /**
   * `createWidgetTree`: the walk from the root item at (0, 0). The root is node 0 and has no
   * parent; every other node has one, is listed in its parent's children and comes after it.
   */
  lemma WidgetTreeShape(item: DisplayItem, env: Env)
    requires Shaped(item, env)
    ensures var r := Enum([], None, item, 0, 0, env);
      |r| >= 1 && r[0].parent.None? && Linked(r)
      && forall c :: 0 < c < |r| ==> r[c].parent.Some?
  {
    EnumFrame([], None, item, 0, 0, env);
    EnumLinked([], None, item, 0, 0, env);
  }

  // ---------------------------------------------------------------------------
  // The walk itself

  /** `enumWidget`, with its loops, over the arena `nodes`; returns the arena and the new node. */
  method EnumWidget(nodes: seq<TreeNode>, parentNode: Option<nat>, item: DisplayItem, x0: int, y0: int, env: Env)
    returns (r: seq<TreeNode>, treeNode: nat)
    requires parentNode.Some? ==> parentNode.value < |nodes|
    requires Shaped(item, env)
    ensures r == Enum(nodes, parentNode, item, x0, y0, env) && treeNode == |nodes|
    decreases item, 2
  {
    var obj := item.obj;
    var x, y := x0, y0;
    if obj.kind == WidgetKind || obj.kind == PageResolutionKind {
      x := x + OrZero(obj.x);
      y := y + OrZero(obj.y);
    }
    var rect := Rect(x, y, obj.width, obj.height);
    var isWidget := obj.kind == WidgetKind;
    var node := TreeNode(parentNode, [], rect, isWidget && item.selected, true, isWidget, isWidget, !isWidget, item);
    treeNode := |nodes|;
    r := nodes;
    if parentNode.Some? {
      var p := parentNode.value;
      r := r[p := r[p].(children := r[p].children + [treeNode])];
    }
    r := r + [node];
    assert r == Attach(nodes, parentNode, NewNode(parentNode, item, x0, y0));
    ghost var target := Enum(nodes, parentNode, item, x0, y0, env);
    assert r[treeNode].rect == rect && target == Visit(r, treeNode, item, env);
    if IsContainer(item) {
      assert target == Each(r, treeNode, item, 0, x, y, env);
      r := ContainerLoop(r, treeNode, item, x, y, env);
    } else if IsList(item) {
      assert target == ListFrom(r, treeNode, item, 0, x, y, env);
      r := ListLoop(r, treeNode, item, x, y, env);
    } else if IsGrid(item) {
      assert target == GridFrom(r, treeNode, item, 0, x, x, y, env);
      r := GridLoop(r, treeNode, item, x, y, env);
    } else if obj.wtype == "Select" {
      assert target == SelectFrom(r, treeNode, item, x, y, env);
      var selectedWidgetItem := SelectedWidget(item, env);
      if selectedWidgetItem.Some? {
        var childNode;
        r, childNode := EnumWidget(r, Some(treeNode), item.children.items[selectedWidgetItem.value], x, y, env);
      }
    } else {
      assert target == r;
    }
  }

  /** The `forEach` of `enumWidget` over a page's or container's children. */
  method ContainerLoop(nodes: seq<TreeNode>, treeNode: nat, item: DisplayItem, x: int, y: int, env: Env)
    returns (r: seq<TreeNode>)
    requires treeNode < |nodes| && Shaped(item, env) && IsContainer(item)
    ensures r == Each(nodes, treeNode, item, 0, x, y, env)
    decreases item, 1
  {
    r := nodes;
    var widgetsItemChildren := item.children.items;
    for k := 0 to |widgetsItemChildren|
      invariant treeNode < |r| && Each(r, treeNode, item, k, x, y, env) == Each(nodes, treeNode, item, 0, x, y, env)
    {
      var childNode;
      r, childNode := EnumWidget(r, Some(treeNode), widgetsItemChildren[k], x, y, env);
    }
  }

  /** The List loop of `enumWidget`: `count` copies of the item widget, each one step further on. */
  method ListLoop(nodes: seq<TreeNode>, treeNode: nat, item: DisplayItem, x0: int, y0: int, env: Env)
    returns (r: seq<TreeNode>)
    requires treeNode < |nodes| && Shaped(item, env) && IsList(item)
    ensures r == ListFrom(nodes, treeNode, item, 0, x0, y0, env)
    decreases item, 1
  {
    r := nodes;
    var obj := item.obj;
    var itemWidget := obj.itemWidget.value;
    var itemWidgetItem := ItemWidgetIndex(item);
    var x, y := x0, y0;
    var i := 0;
    while i < env.count(obj.data)
      invariant 0 <= i && treeNode < |r|
      invariant ListFrom(r, treeNode, item, i, x, y, env) == ListFrom(nodes, treeNode, item, 0, x0, y0, env)
      decreases Passes(i, Count(item, env))
    {
      var childNode;
      r, childNode := EnumWidget(r, Some(treeNode), item.children.entries[itemWidgetItem.value].item, x, y, env);
      if obj.listType == "vertical" {
        y := y + itemWidget.height;
      } else {
        x := x + itemWidget.width;
      }
      i := i + 1;
    }
  }

  /**
   * The Grid loop of `enumWidget`: copies of the item widget left to right, then row by row from
   * the Grid's left edge, until `count` copies or the Grid's bottom edge.
   */
  method GridLoop(nodes: seq<TreeNode>, treeNode: nat, item: DisplayItem, x0: int, y0: int, env: Env)
    returns (r: seq<TreeNode>)
    requires treeNode < |nodes| && Shaped(item, env) && IsGrid(item)
    ensures r == GridFrom(nodes, treeNode, item, 0, x0, x0, y0, env)
    decreases item, 1
  {
    r := nodes;
    var obj := item.obj;
    var itemWidget := obj.itemWidget.value;
    var itemWidgetItem := ItemWidgetIndex(item);
    var x, y := x0, y0;
    var i := 0;
    while i < env.count(obj.data)
      invariant 0 <= i && treeNode < |r|
      invariant GridFrom(r, treeNode, item, i, x0, x, y, env) == GridFrom(nodes, treeNode, item, 0, x0, x0, y0, env)
      decreases Passes(i, Count(item, env))
    {
      var childNode;
      r, childNode := EnumWidget(r, Some(treeNode), item.children.entries[itemWidgetItem.value].item, x, y, env);
      if x + itemWidget.width < obj.width {
        x := x + itemWidget.width;
      } else if y + itemWidget.height < obj.height {
        y := y + itemWidget.height;
        x := x0;
      } else {
        break;
      }
      i := i + 1;
    }
  }

  /** `createWidgetTree` over a display item: the walk from (0, 0) with no parent node. */
  method CreateWidgetTree(item: DisplayItem, env: Env) returns (nodes: seq<TreeNode>, root: nat)
    requires Shaped(item, env)
    ensures nodes == Enum([], None, item, 0, 0, env) && root == 0
    ensures root < |nodes| && nodes[root].parent.None? && nodes[root].item == item && Linked(nodes)
    ensures forall c :: 0 <= c < |nodes| && c != root ==> nodes[c].parent.Some?
  {
    nodes, root := EnumWidget([], None, item, 0, 0, env);
    WidgetTreeShape(item, env);
    EnumFrame([], None, item, 0, 0, env);
  }
}
