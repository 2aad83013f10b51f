/**
 * The project object tree of packages/project-editor/core/object.ts.
 *
 * Objects live in an arena: a node is addressed by its index, and records its id, its key in its
 * parent, its parent, its child-id counter, its class and its body (an array of element nodes or
 * a record of named property values). A node removed from its parent stays in the arena with a
 * stale parent pointer, which is how the editor's "deleted object" cases arise.
 *
 * An `Item` is what the editor handles as an `EezObject` at run time: a stored node, or a value
 * object synthesised by `getChildOfObject` for a property that has no type class.
 */
module ObjectModel {
  import opened Wrappers
  import opened Strings
  import opened Metadata

  datatype Primitive = PString(s: string) | PNumber(n: int) | PBoolean(b: bool) | PNull

  /** A property value: a child node, or a primitive. An absent property is `None` where it matters. */
  datatype Value = Child(ref: nat) | Prim(p: Primitive)

  datatype Body =
    | ArrayBody(elements: seq<nat>)
    | ObjectBody(props: map<string, Value>)

  /**
   * A stored object. For an array node `classInfo` is the element class, as `getClass` takes it
   * from the array's property type class. An unset key is the empty string.
   */
  datatype Node = Node(
    id: string,
    key: string,
    parent: Option<nat>,
    lastChildId: Option<nat>,
    classInfo: ClassInfo,
    body: Body)

  datatype Tree = Tree(nodes: seq<Node>, root: nat)

  /** A stored node, or an `EezValueObject` made for `property` of the stored node `parent`. */
  datatype Item =
    | Stored(ref: nat)
    | ValueItem(parent: nat, property: PropertyInfo, value: Option<Value>)

  /** The class of every value object: no properties, no parent class. */
  const ValueClassInfo: ClassInfo := ClassInfo([], None, None, false, false, false, false, false, [])

  predicate IsContainerType(pt: PropertyType) {
    pt == PropertyType.Object || pt == PropertyType.Array
  }

  // ---------------------------------------------------------------------------
  // Well-formed trees

  /** The body holds node `c`, as an array element or as the value of a property. */
  predicate Holds(b: Body, c: nat) {
    match b
    case ArrayBody(elements) => c in elements
    case ObjectBody(props) => exists k :: k in props && props[k] == Child(c)
  }

  /** Every node the body of node `i` holds is in the arena and has `i` as its parent. */
  predicate ChildrenOk(t: Tree, i: nat)
    requires i < |t.nodes|
  {
    match t.nodes[i].body
    case ArrayBody(elements) =>
      forall j :: 0 <= j < |elements| ==> elements[j] < |t.nodes| && t.nodes[elements[j]].parent == Some(i)
    case ObjectBody(props) =>
      forall k :: k in props && props[k].Child? ==>
        props[k].ref < |t.nodes| && t.nodes[props[k].ref].parent == Some(i)
  }

  /**
   * The property values of an object node agree with its class, as loading builds them: a child
   * node sits under a declared object or array property with a type class and carries that key;
   * a declared object, array or typed property holds a child, an array node exactly for arrays.
   */
  predicate PropertiesOk(t: Tree, i: nat)
    requires i < |t.nodes| && ChildrenOk(t, i)
  {
    var n := t.nodes[i];
    n.body.ObjectBody? ==>
      (forall k :: k in n.body.props && n.body.props[k].Child? ==>
        var p := FindPropertyByName(n.classInfo, k);
        p.Some? && p.value.hasTypeClass && IsContainerType(p.value.ptype)
        && t.nodes[n.body.props[k].ref].key == k)
      && (forall p ::
        (p in n.classInfo.properties && p.name in n.body.props && (IsContainerType(p.ptype) || p.hasTypeClass)) ==>
        n.body.props[p.name].Child?
        && (p.ptype == PropertyType.Array <==> t.nodes[n.body.props[p.name].ref].body.ArrayBody?))
  }

  predicate NodeOk(t: Tree, i: nat)
    requires i < |t.nodes|
  {
    (t.nodes[i].parent.Some? ==> t.nodes[i].parent.value < i)
    && ChildrenOk(t, i) && PropertiesOk(t, i)
  }

  /**
   * Parents come before their children in the arena (so parent chains are finite) and the root
   * has no parent.
   */
  predicate WellFormed(t: Tree) {
    t.root < |t.nodes| && t.nodes[t.root].parent.None?
    && forall i :: 0 <= i < |t.nodes| ==> NodeOk(t, i)
  }

  lemma HeldChild(t: Tree, i: nat, c: nat)
    requires WellFormed(t) && i < |t.nodes| && Holds(t.nodes[i].body, c)
    ensures c < |t.nodes| && t.nodes[c].parent == Some(i) && i < c
    ensures t.nodes[i].body.ObjectBody? ==>
      t.nodes[c].key in t.nodes[i].body.props && t.nodes[i].body.props[t.nodes[c].key] == Child(c)
  {
    assert NodeOk(t, i);
    match t.nodes[i].body
    case ArrayBody(elements) =>
      var j :| 0 <= j < |elements| && elements[j] == c;
      assert NodeOk(t, c);
    case ObjectBody(props) =>
      var k :| k in props && props[k] == Child(c);
      assert NodeOk(t, c);
  }

  // ---------------------------------------------------------------------------
  // Items: id, key, parent, class, properties

  predicate ValidItem(t: Tree, x: Item) {
    match x
    case Stored(r) => r < |t.nodes|
    case ValueItem(p, _, _) => p < |t.nodes|
  }

  /** `getId`; a value object's id is its parent's id, a dot, and the property name. */
  function IdOf(t: Tree, x: Item): string
    requires ValidItem(t, x)
  {
    match x
    case Stored(r) => t.nodes[r].id
    case ValueItem(p, property, _) => t.nodes[p].id + "." + property.name
  }

  /** `getKey`. */
  function KeyOf(t: Tree, x: Item): string
    requires ValidItem(t, x)
  {
    match x
    case Stored(r) => t.nodes[r].key
    case ValueItem(_, property, _) => property.name
  }

  /** `getParent`. */
  function ParentOf(t: Tree, x: Item): Option<nat>
    requires ValidItem(t, x)
  {
    match x
    case Stored(r) => t.nodes[r].parent
    case ValueItem(p, _, _) => Some(p)
  }

  /** `getClassInfo`. */
  function ClassOf(t: Tree, x: Item): ClassInfo
    requires ValidItem(t, x)
  {
    match x
    case Stored(r) => t.nodes[r].classInfo
    case ValueItem(_, _, _) => ValueClassInfo
  }

  /** `isArray`. */
  predicate IsArray(t: Tree, x: Item)
    requires ValidItem(t, x)
  {
    x.Stored? && t.nodes[x.ref].body.ArrayBody?
  }

  /** `getProperty`: a named property of an object node; arrays and value objects have none here. */
  function GetProperty(t: Tree, x: Item, name: string): Option<Value>
    requires ValidItem(t, x)
  {
    if x.Stored? && t.nodes[x.ref].body.ObjectBody? && name in t.nodes[x.ref].body.props
    then Some(t.nodes[x.ref].body.props[name])
    else None
  }

  /** JavaScript truthiness of a property value. */
  predicate Truthy(v: Option<Value>) {
    match v
    case None => false
    case Some(Child(_)) => true
    case Some(Prim(PString(s))) => s != ""
    case Some(Prim(PNumber(n))) => n != 0
    case Some(Prim(PBoolean(b))) => b
    case Some(Prim(PNull)) => false
  }

  /** A flag evaluated for an object: unset gives the default, a callback asks about the object. */
  predicate FlagHolds(f: Flag, x: Item, default: bool) {
    match f
    case Unset => default
    case Const(b) => b
    case Callback(accepts) => x.Stored? && x.ref in accepts
  }

  /** `isPropertyEnumerable`: enumerable unless the flag says otherwise. */
  predicate IsPropertyEnumerable(x: Item, p: PropertyInfo) {
    FlagHolds(p.enumerable, x, true)
  }

  /** `isPropertyHidden`: shown unless the flag says otherwise. */
  predicate IsPropertyHidden(x: Item, p: PropertyInfo) {
    FlagHolds(p.hideInPropertyGrid, x, false)
  }

  /** An unset flag takes its default and a constant flag ignores the object. */
  lemma FlagDefaults(x: Item, y: Item, p: PropertyInfo)
    ensures p.enumerable.Unset? ==> IsPropertyEnumerable(x, p)
    ensures p.hideInPropertyGrid.Unset? ==> !IsPropertyHidden(x, p)
    ensures p.enumerable.Const? ==> (IsPropertyEnumerable(x, p) <==> IsPropertyEnumerable(y, p))
    ensures p.hideInPropertyGrid.Const? ==> (IsPropertyHidden(x, p) <==> IsPropertyHidden(y, p))
  {
  }

  /** `isArrayElement`: the parent is an array. */
  predicate IsArrayElement(t: Tree, x: Item)
    requires WellFormed(t) && ValidItem(t, x)
  {
    var p := ParentOf(t, x);
    p.Some? && p.value < |t.nodes| && t.nodes[p.value].body.ArrayBody?
  }

  lemma ParentInArena(t: Tree, x: Item)
    requires WellFormed(t) && ValidItem(t, x)
    ensures ParentOf(t, x).Some? ==> ParentOf(t, x).value < |t.nodes|
    ensures ParentOf(t, x).Some? ==> ParentOf(t, x).value < Depth(x)
  {
    if x.Stored? {
      assert NodeOk(t, x.ref);
    }
  }

  // ---------------------------------------------------------------------------
  // Ancestors

  /** `isAncestor`: `o` is `a`, or `a` is on the parent chain of `o`. */
  predicate IsAncestor(t: Tree, o: nat, a: nat)
    requires WellFormed(t) && o < |t.nodes|
    decreases o
  {
    o == a || (t.nodes[o].parent.Some? && (assert NodeOk(t, o); IsAncestor(t, t.nodes[o].parent.value, a)))
  }

  /** `isProperAncestor`: `a` is on the parent chain of `o`, and is not `o` itself. */
  predicate IsProperAncestor(t: Tree, o: nat, a: nat)
    requires WellFormed(t) && o < |t.nodes|
  {
    o != a && t.nodes[o].parent.Some? && (assert NodeOk(t, o); IsAncestor(t, t.nodes[o].parent.value, a))
  }

  /** The parent chain of `o`, starting at `o` itself: an independent description of the ancestors. */
  function AncestorChain(t: Tree, o: nat): (chain: seq<nat>)
    requires WellFormed(t) && o < |t.nodes|
    ensures |chain| >= 1 && chain[0] == o
    ensures forall k :: 0 <= k < |chain| ==> chain[k] <= o
    ensures forall k :: 0 < k < |chain| ==> chain[k] < o
    decreases o
  {
    assert NodeOk(t, o);
    match t.nodes[o].parent
    case None => [o]
    case Some(p) => [o] + AncestorChain(t, p)
  }

  lemma {:induction false} AncestorIffInChain(t: Tree, o: nat, a: nat)
    requires WellFormed(t) && o < |t.nodes|
    ensures IsAncestor(t, o, a) <==> a in AncestorChain(t, o)
    ensures IsProperAncestor(t, o, a) <==> a in AncestorChain(t, o)[1..]
    decreases o
  {
    assert NodeOk(t, o);
    var chain := AncestorChain(t, o);
    if t.nodes[o].parent.Some? {
      var p := t.nodes[o].parent.value;
      AncestorIffInChain(t, p, a);
      assert chain[1..] == AncestorChain(t, p);
    }
  }

  /** An ancestor never comes after its descendant, and no object is a proper ancestor of itself. */
  lemma AncestorOrder(t: Tree, o: nat, a: nat)
    requires WellFormed(t) && o < |t.nodes|
    ensures IsAncestor(t, o, a) ==> a <= o
    ensures IsProperAncestor(t, o, a) ==> a < o
    ensures !IsProperAncestor(t, o, o)
  {
    AncestorIffInChain(t, o, a);
    AncestorIffInChain(t, o, o);
  }

  lemma {:induction false} AncestorTransitive(t: Tree, o: nat, m: nat, a: nat)
    requires WellFormed(t) && o < |t.nodes| && m < |t.nodes|
    requires IsAncestor(t, o, m) && IsAncestor(t, m, a)
    ensures IsAncestor(t, o, a)
    decreases o
  {
    if o != m {
      assert NodeOk(t, o);
      AncestorTransitive(t, t.nodes[o].parent.value, m, a);
    }
  }

  // ---------------------------------------------------------------------------
  // getChildren

  /** The properties `getChildren` keeps: object or array typed, enumerable and truthy. */
  predicate IsChildProperty(t: Tree, r: nat, p: PropertyInfo)
    requires r < |t.nodes|
  {
    IsContainerType(p.ptype) && IsPropertyEnumerable(Stored(r), p) && Truthy(GetProperty(t, Stored(r), p.name))
  }

  function ChildProperties(t: Tree, r: nat, ps: seq<PropertyInfo>): (res: seq<PropertyInfo>)
    requires r < |t.nodes|
    ensures forall p :: p in res <==> p in ps && IsChildProperty(t, r, p)
  {
    if ps == [] then []
    else if IsChildProperty(t, r, ps[0]) then [ps[0]] + ChildProperties(t, r, ps[1..])
    else ChildProperties(t, r, ps[1..])
  }

  /** The child node a kept property of an object node holds. */
  function PropertyChild(t: Tree, r: nat, p: PropertyInfo): (c: nat)
    requires WellFormed(t) && r < |t.nodes| && p in t.nodes[r].classInfo.properties
    requires IsChildProperty(t, r, p)
    ensures c < |t.nodes| && t.nodes[c].parent == Some(r)
    ensures t.nodes[r].body.ObjectBody? && t.nodes[r].body.props[p.name] == Child(c)
    ensures p.ptype == PropertyType.Array <==> t.nodes[c].body.ArrayBody?
  {
    assert NodeOk(t, r);
    t.nodes[r].body.props[p.name].ref
  }

  /** One property kept, of array type, not marked `showOnlyChildrenInTree: false`. */
  predicate CollapsesToArray(ps: seq<PropertyInfo>) {
    |ps| == 1 && ps[0].ptype == PropertyType.Array && ps[0].showOnlyChildrenInTree != Some(false)
  }

  /** `getChildren`. */
  function GetChildren(t: Tree, x: Item): (children: seq<nat>)
    requires WellFormed(t) && ValidItem(t, x)
    ensures forall c :: c in children ==> c < |t.nodes|
  {
    if IsArray(t, x) then
      assert NodeOk(t, x.ref);
      t.nodes[x.ref].body.elements
    else if x.ValueItem? then []
    else
      var cls := t.nodes[x.ref].classInfo;
      var ps := ChildProperties(t, x.ref, cls.properties);
      if CollapsesToArray(ps) then
        var a := PropertyChild(t, x.ref, ps[0]);
        assert NodeOk(t, a);
        t.nodes[a].body.elements
      else
        seq(|ps|, i requires 0 <= i < |ps| => PropertyChild(t, x.ref, ps[i]))
  }

  /**
   * Every child `getChildren` lists is a proper descendant of the object: a node it holds, or,
   * after the single-array collapse, an element of the array it holds.
   */
  lemma ChildrenAreDescendants(t: Tree, x: Item, c: nat)
    requires WellFormed(t) && ValidItem(t, x) && c in GetChildren(t, x)
    ensures x.Stored? && c < |t.nodes| && IsProperAncestor(t, c, x.ref)
  {
    assert NodeOk(t, x.ref);
    var cls := t.nodes[x.ref].classInfo;
    var ps := ChildProperties(t, x.ref, cls.properties);
    if IsArray(t, x) {
      var j :| 0 <= j < |t.nodes[x.ref].body.elements| && t.nodes[x.ref].body.elements[j] == c;
      assert NodeOk(t, c);
    } else if CollapsesToArray(ps) {
      var a := PropertyChild(t, x.ref, ps[0]);
      assert NodeOk(t, a);
      var j :| 0 <= j < |t.nodes[a].body.elements| && t.nodes[a].body.elements[j] == c;
      assert NodeOk(t, c);
      assert IsAncestor(t, a, x.ref) by {
        assert NodeOk(t, a);
      }
    } else {
      var i :| 0 <= i < |ps| && PropertyChild(t, x.ref, ps[i]) == c;
      assert NodeOk(t, c);
    }
  }

  /**
   * An array's children are its elements. A single kept array property collapses: the children
   * are the elements of the array it holds. Otherwise the children are the kept properties'
   * values, one per kept property and in class order.
   */
  lemma ChildrenOfObject(t: Tree, r: nat)
    requires WellFormed(t) && r < |t.nodes|
    ensures t.nodes[r].body.ArrayBody? ==> GetChildren(t, Stored(r)) == t.nodes[r].body.elements
    ensures var ps := ChildProperties(t, r, t.nodes[r].classInfo.properties);
      t.nodes[r].body.ObjectBody? && !CollapsesToArray(ps) ==>
        |GetChildren(t, Stored(r))| == |ps|
        && forall i :: 0 <= i < |ps| ==>
          GetProperty(t, Stored(r), ps[i].name) == Some(Child(GetChildren(t, Stored(r))[i]))
    ensures var ps := ChildProperties(t, r, t.nodes[r].classInfo.properties);
      t.nodes[r].body.ObjectBody? && CollapsesToArray(ps) ==>
        exists a: nat :: GetProperty(t, Stored(r), ps[0].name) == Some(Child(a)) && a < |t.nodes|
          && t.nodes[a].body.ArrayBody? && GetChildren(t, Stored(r)) == t.nodes[a].body.elements
  {
    var ps := ChildProperties(t, r, t.nodes[r].classInfo.properties);
    if t.nodes[r].body.ObjectBody? && CollapsesToArray(ps) {
      assert ps[0] in ps;
      var a := PropertyChild(t, r, ps[0]);
    }
    if t.nodes[r].body.ObjectBody? && !CollapsesToArray(ps) {
      var children := GetChildren(t, Stored(r));
      assert children == seq(|ps|, i requires 0 <= i < |ps| => PropertyChild(t, r, ps[i]));
      forall i | 0 <= i < |ps|
        ensures GetProperty(t, Stored(r), ps[i].name) == Some(Child(children[i]))
      {
        assert ps[i] in ps;
        var c := PropertyChild(t, r, ps[i]);
        assert children[i] == c;
      }
    }
  }

  // ---------------------------------------------------------------------------
  // getChildOfObject and EezValueObject.create

  /** The three kinds of key `getChildOfObject` takes. */
  datatype Key = KName(name: string) | KIndex(index: int) | KProperty(property: PropertyInfo)

  /** The element index an array key denotes; `parseInt` for a string key, `NaN` as `None`. */
  function ElementIndex(key: Key): Option<int> {
    match key
    case KName(s) => ParseInt(s)
    case KIndex(n) => Some(n)
    case KProperty(_) => None
  }

  /** The property a key denotes on a non-array object; a number key denotes none. */
  function KeyProperty(t: Tree, x: Item, key: Key): Option<PropertyInfo>
    requires ValidItem(t, x)
  {
    match key
    case KName(s) => FindPropertyByName(ClassOf(t, x), s)
    case KIndex(_) => None
    case KProperty(p) => Some(p)
  }

  /** `getChildOfObject`. */
  function GetChildOfObject(t: Tree, x: Item, key: Key): (r: Option<Item>)
    requires WellFormed(t) && ValidItem(t, x)
    ensures r.Some? ==> ValidItem(t, r.value) && x.Stored? && ParentOf(t, r.value) == Some(x.ref)
    ensures r.Some? && r.value.Stored? ==> Holds(t.nodes[x.ref].body, r.value.ref)
    ensures IsArray(t, x) ==> (r.Some? <==>
      ElementIndex(key).Some? && 0 <= ElementIndex(key).value < |t.nodes[x.ref].body.elements|)
    ensures IsArray(t, x) && r.Some? ==> r == Some(Stored(t.nodes[x.ref].body.elements[ElementIndex(key).value]))
    ensures !IsArray(t, x) && r.Some? ==> KeyProperty(t, x, key).Some?
    ensures r.Some? && r.value.ValueItem? ==>
      IdOf(t, r.value) == IdOf(t, x) + "." + KeyProperty(t, x, key).value.name
      && KeyOf(t, r.value) == KeyProperty(t, x, key).value.name
      && r.value.value == GetProperty(t, x, KeyProperty(t, x, key).value.name)
  {
    if IsArray(t, x) then
      assert NodeOk(t, x.ref);
      var elements := t.nodes[x.ref].body.elements;
      var index := ElementIndex(key);
      if index.Some? && 0 <= index.value < |elements| then Some(Stored(elements[index.value])) else None
    else if x.ValueItem? then
      // a value object has no properties of its own: nothing to name and nothing to read
      None
    else
      match KeyProperty(t, x, key)
      case None => None
      case Some(p) =>
        var v := GetProperty(t, x, p.name);
        if p.hasTypeClass then
          match v
          case Some(Child(c)) =>
            assert NodeOk(t, x.ref);
            Some(Stored(c))
          case _ => None
        else
          Some(ValueItem(x.ref, p, v))
  }

  // ---------------------------------------------------------------------------
  // getObjectPath and getObjectPathAsString

  datatype PathSegment = Index(i: int) | Name(s: string)

  /** `indexOf` on an element list: the first position of `v`, or -1. */
  function IndexOf(s: seq<nat>, v: nat): (i: int)
    ensures -1 <= i < |s|
    ensures i >= 0 ==> s[i] == v && forall j :: 0 <= j < i ==> s[j] != v
    ensures i == -1 <==> v !in s
  {
    if s == [] then -1
    else if s[0] == v then 0
    else
      var k := IndexOf(s[1..], v);
      if k == -1 then -1 else k + 1
  }

  /** The arena position bounding an item: its own index, or one past its parent's for a value object. */
  function Depth(x: Item): nat {
    match x
    case Stored(r) => r
    case ValueItem(p, _, _) => p + 1
  }

  /** `getObjectPath`: an index under an array parent (-1 when not found), the key otherwise. */
  function GetObjectPath(t: Tree, x: Item): seq<PathSegment>
    requires WellFormed(t) && ValidItem(t, x)
    decreases Depth(x)
  {
    ParentInArena(t, x);
    match ParentOf(t, x)
    case None => []
    case Some(p) => GetObjectPath(t, Stored(p)) + [SegmentIn(t, x, p)]
  }

  /** The segment naming `x` in its parent `p`. */
  function SegmentIn(t: Tree, x: Item, p: nat): PathSegment
    requires ValidItem(t, x) && p < |t.nodes|
  {
    if t.nodes[p].body.ArrayBody?
    then Index(if x.Stored? then IndexOf(t.nodes[p].body.elements, x.ref) else -1)
    else Name(KeyOf(t, x))
  }

  /** A path segment as `join` writes it. */
  function SegmentString(seg: PathSegment): string {
    match seg
    case Index(i) => IntToString(i)
    case Name(s) => s
  }

  function PathStrings(path: seq<PathSegment>): seq<string>
  {
    seq(|path|, i requires 0 <= i < |path| => SegmentString(path[i]))
  }

  /** `getObjectPathAsString`. */
  function GetObjectPathAsString(t: Tree, x: Item): string
    requires WellFormed(t) && ValidItem(t, x)
  {
    "/" + Join(PathStrings(GetObjectPath(t, x)), '/')
  }

  /** The root's path is empty and its string path is "/". */
  lemma RootPath(t: Tree)
    requires WellFormed(t)
    ensures GetObjectPath(t, Stored(t.root)) == []
    ensures GetObjectPathAsString(t, Stored(t.root)) == "/"
  {
  }

  // ---------------------------------------------------------------------------
  // getObjectFromPath and getObjectFromStringPath

  /** What `getObjectFromPath` computes: one `getChildOfObject` per segment, stopping at undefined. */
  function ResolvePath(t: Tree, x: Item, path: seq<string>): (r: Option<Item>)
    requires WellFormed(t) && ValidItem(t, x)
    ensures r.Some? ==> ValidItem(t, r.value)
    decreases |path|
  {
    if path == [] then Some(x)
    else
      match GetChildOfObject(t, x, KName(path[0]))
      case None => None
      case Some(y) => ResolvePath(t, y, path[1..])
  }

  /** The loop of `getObjectFromPath`. */
  method GetObjectFromPath(t: Tree, root: Item, path: seq<string>) returns (r: Option<Item>)
    requires WellFormed(t) && ValidItem(t, root)
    ensures r == ResolvePath(t, root, path)
  {
    r := Some(root);
    var i := 0;
    while i < |path| && r.Some?
      invariant 0 <= i <= |path|
      invariant r.Some? ==> ValidItem(t, r.value) && ResolvePath(t, root, path) == ResolvePath(t, r.value, path[i..])
      invariant r.None? ==> ResolvePath(t, root, path) == None
    {
      assert path[i..][1..] == path[i + 1..];
      r := GetChildOfObject(t, r.value, KName(path[i]));
      i := i + 1;
    }
    if r.Some? {
      assert path[i..] == [];
    }
  }

  /** What `getObjectFromStringPath` computes. */
  function ResolveStringPath(t: Tree, root: Item, stringPath: string): Option<Item>
    requires WellFormed(t) && ValidItem(t, root)
  {
    if stringPath == "/" then Some(root) else ResolvePath(t, root, Split(stringPath, '/')[1..])
  }

  /** `getObjectFromStringPath`. */
  method GetObjectFromStringPath(t: Tree, root: Item, stringPath: string) returns (r: Option<Item>)
    requires WellFormed(t) && ValidItem(t, root)
    ensures r == ResolveStringPath(t, root, stringPath)
  {
    if stringPath == "/" {
      return Some(root);
    }
    r := GetObjectFromPath(t, root, Split(stringPath, '/')[1..]);
  }

  lemma {:induction false} ResolveAppend(t: Tree, x: Item, a: seq<string>, b: seq<string>)
    requires WellFormed(t) && ValidItem(t, x)
    ensures ResolvePath(t, x, a + b) ==
      match ResolvePath(t, x, a) case None => None case Some(y) => ResolvePath(t, y, b)
    decreases |a|
  {
    if a == [] {
      assert a + b == b;
    } else {
      assert (a + b)[0] == a[0] && (a + b)[1..] == a[1..] + b;
      match GetChildOfObject(t, x, KName(a[0]))
      case None =>
      case Some(y) => ResolveAppend(t, y, a[1..], b);
    }
  }

  /** Node `j` is reached from node `r` by following held children down. */
  predicate HeldChain(t: Tree, j: nat, r: nat)
    requires WellFormed(t) && j < |t.nodes|
    decreases j
  {
    j == r ||
    (t.nodes[j].parent.Some? && (assert NodeOk(t, j);
      Holds(t.nodes[t.nodes[j].parent.value].body, j) && HeldChain(t, t.nodes[j].parent.value, r)))
  }

  /** Node `j` is in the document: each node on its parent chain up to the root still holds it. */
  predicate Attached(t: Tree, j: nat)
    requires WellFormed(t) && j < |t.nodes|
  {
    HeldChain(t, j, t.root)
  }

  lemma {:induction false} HeldChainStep(t: Tree, j: nat, c: nat, r: nat)
    requires WellFormed(t) && j < |t.nodes| && c < |t.nodes| && r < |t.nodes|
    requires HeldChain(t, j, c) && t.nodes[c].parent == Some(r) && Holds(t.nodes[r].body, c)
    ensures HeldChain(t, j, r)
    decreases j
  {
    if j != c {
      assert NodeOk(t, j);
      HeldChainStep(t, t.nodes[j].parent.value, c, r);
    }
  }

  /** The segment naming a held node in its parent leads back to it. */
  lemma SegmentResolves(t: Tree, p: nat, r: nat)
    requires WellFormed(t) && p < |t.nodes| && Holds(t.nodes[p].body, r)
    ensures r < |t.nodes| && GetChildOfObject(t, Stored(p), KName(SegmentString(SegmentIn(t, Stored(r), p)))) == Some(Stored(r))
  {
    HeldChild(t, p, r);
    if t.nodes[p].body.ArrayBody? {
      var i := IndexOf(t.nodes[p].body.elements, r);
      ParseIntNatToString(i);
      assert ElementIndex(KName(SegmentString(SegmentIn(t, Stored(r), p)))) == Some(i);
    } else {
      assert NodeOk(t, p);
      var k := t.nodes[r].key;
      assert FindPropertyByName(t.nodes[p].classInfo, k).Some?;
    }
  }

  /** Resolving the segment strings of an attached node's path from the root gives the node. */
  lemma {:induction false} PathResolves(t: Tree, r: nat)
    requires WellFormed(t) && r < |t.nodes| && Attached(t, r)
    ensures ResolvePath(t, Stored(t.root), PathStrings(GetObjectPath(t, Stored(r)))) == Some(Stored(r))
    decreases r
  {
    if r != t.root {
      assert NodeOk(t, r);
      var p := t.nodes[r].parent.value;
      PathResolves(t, p);
      PathResolvesStep(t, p, r);
    }
  }

  /** When the path of `p` resolves to `p`, the path of a child `p` holds resolves to that child. */
  lemma PathResolvesStep(t: Tree, p: nat, r: nat)
    requires WellFormed(t) && p < |t.nodes| && r < |t.nodes|
    requires t.nodes[r].parent == Some(p) && Holds(t.nodes[p].body, r)
    requires ResolvePath(t, Stored(t.root), PathStrings(GetObjectPath(t, Stored(p)))) == Some(Stored(p))
    ensures ResolvePath(t, Stored(t.root), PathStrings(GetObjectPath(t, Stored(r)))) == Some(Stored(r))
  {
    var seg := SegmentIn(t, Stored(r), p);
    var front := PathStrings(GetObjectPath(t, Stored(p)));
    assert GetObjectPath(t, Stored(r)) == GetObjectPath(t, Stored(p)) + [seg];
    assert PathStrings(GetObjectPath(t, Stored(r))) == front + [SegmentString(seg)];
    ResolveAppend(t, Stored(t.root), front, [SegmentString(seg)]);
    SegmentResolves(t, p, r);
  }

  lemma JoinSeparated(parts: seq<string>, sep: char)
    requires |parts| >= 2
    ensures sep in Join(parts, sep)
  {
    assert Join(parts, sep) == parts[0] + [sep] + Join(parts[1..], sep);
    assert Join(parts, sep)[|parts[0]|] == sep;
  }

  /**
   * Resolving the string path of an attached node gives the node back, when no key on the way
   * holds a "/" and the path is not the single empty key (which prints as "/", the root).
   */
  lemma StringPathResolves(t: Tree, r: nat)
    requires WellFormed(t) && r < |t.nodes| && Attached(t, r)
    requires var segs := PathStrings(GetObjectPath(t, Stored(r)));
      segs != [""] && forall k :: 0 <= k < |segs| ==> '/' !in segs[k]
    ensures ResolveStringPath(t, Stored(t.root), GetObjectPathAsString(t, Stored(r))) == Some(Stored(r))
  {
    var segs := PathStrings(GetObjectPath(t, Stored(r)));
    PathResolves(t, r);
    var s := GetObjectPathAsString(t, Stored(r));
    if segs == [] {
      assert s == "/";
    } else {
      var j := Join(segs, '/');
      if |segs| >= 2 {
        JoinSeparated(segs, '/');
      }
      assert j != [];
      assert s != "/" by {
        assert |s| >= 2;
      }
      SplitPrefix("", j, '/');
      assert s == "" + ['/'] + j;
      SplitJoin(segs, '/');
      assert Split(s, '/')[1..] == segs;
    }
  }

  // ---------------------------------------------------------------------------
  // getObjectFromObjectId

  /** The arena measure a downward search decreases: children come later than their parent. */
  function SearchRank(t: Tree, x: Item): nat
    requires ValidItem(t, x)
  {
    match x
    case Stored(r) => |t.nodes| - r
    case ValueItem(_, _, _) => 0
  }

  /** The id is the item's id, or the item's id followed by a dot is a prefix of it. */
  predicate IdLeadsTo(id: string, itemId: string) {
    id == itemId || StartsWith(id, itemId + ".")
  }

  /** The first element whose id leads to `id`, or `|elements|`: the `find` of the array branch. */
  function FirstLeading(t: Tree, elements: seq<nat>, id: string): (k: nat)
    requires forall j :: 0 <= j < |elements| ==> elements[j] < |t.nodes|
    ensures k <= |elements|
    ensures k < |elements| ==> IdLeadsTo(id, t.nodes[elements[k]].id)
    ensures forall j :: 0 <= j < k ==> !IdLeadsTo(id, t.nodes[elements[j]].id)
  {
    if elements == [] then 0
    else if IdLeadsTo(id, t.nodes[elements[0]].id) then 0
    else 1 + FirstLeading(t, elements[1..], id)
  }

  /** `x` itself, or something found below it by following held children. */
  predicate Below(t: Tree, y: Item, x: Item)
    requires WellFormed(t) && ValidItem(t, y)
  {
    y == x || (x.Stored? && match y
      case Stored(j) => HeldChain(t, j, x.ref)
      case ValueItem(p, _, _) => HeldChain(t, p, x.ref))
  }

  lemma BelowStep(t: Tree, y: Item, c: Item, x: Item)
    requires WellFormed(t) && ValidItem(t, y) && ValidItem(t, x) && x.Stored?
    requires c.Stored? && c.ref < |t.nodes| && t.nodes[c.ref].parent == Some(x.ref)
    requires Holds(t.nodes[x.ref].body, c.ref)
    requires Below(t, y, c)
    ensures Below(t, y, x)
  {
    match y
    case Stored(j) => HeldChainStep(t, j, c.ref, x.ref);
    case ValueItem(p, _, _) => HeldChainStep(t, p, c.ref, x.ref);
  }

  lemma ValueBelow(t: Tree, y: Item, x: Item)
    requires WellFormed(t) && ValidItem(t, y) && ValidItem(t, x) && x.Stored?
    requires y.ValueItem? && y.parent == x.ref
    ensures Below(t, y, x)
  {
  }

  /** A child `getChildOfObject` returns is later in the arena and below its object. */
  lemma ChildBelow(t: Tree, x: Item, key: Key)
    requires WellFormed(t) && ValidItem(t, x) && GetChildOfObject(t, x, key).Some?
    ensures var c := GetChildOfObject(t, x, key).value;
      SearchRank(t, c) < SearchRank(t, x) && Below(t, c, x)
  {
    var c := GetChildOfObject(t, x, key).value;
    if c.Stored? {
      HeldChild(t, x.ref, c.ref);
    }
  }

  /** What is below a child of `x` is below `x`. */
  lemma BelowChild(t: Tree, y: Item, x: Item, key: Key)
    requires WellFormed(t) && ValidItem(t, x) && ValidItem(t, y) && GetChildOfObject(t, x, key).Some?
    requires Below(t, y, GetChildOfObject(t, x, key).value)
    ensures Below(t, y, x)
  {
    var c := GetChildOfObject(t, x, key).value;
    if c.Stored? {
      HeldChild(t, x.ref, c.ref);
      BelowStep(t, y, c, x);
    }
  }

  /** `getDescendantObjectFromId`. */
  function DescendantFromId(t: Tree, x: Item, id: string): (r: Option<Item>)
    requires WellFormed(t) && ValidItem(t, x)
    ensures r.Some? ==> ValidItem(t, r.value) && IdOf(t, r.value) == id && Below(t, r.value, x)
    decreases SearchRank(t, x), 1, 0
  {
    if IdOf(t, x) == id then Some(x)
    else if IsArray(t, x) then
      assert NodeOk(t, x.ref);
      var elements := t.nodes[x.ref].body.elements;
      var k := FirstLeading(t, elements, id);
      if k == |elements| then None
      else
        var c := elements[k];
        assert NodeOk(t, c);
        if t.nodes[c].id == id then Some(Stored(c))
        else
          var r := DescendantFromId(t, Stored(c), id);
          if r.Some? then BelowStep(t, r.value, Stored(c), x); r else r
    else PropertiesFromId(t, x, ClassOf(t, x).properties, id)
  }

  /** The property loop of `getDescendantObjectFromId`: the first object or array property leading to `id`. */
  function PropertiesFromId(t: Tree, x: Item, ps: seq<PropertyInfo>, id: string): (r: Option<Item>)
    requires WellFormed(t) && ValidItem(t, x)
    ensures r.Some? ==> ValidItem(t, r.value) && IdOf(t, r.value) == id && Below(t, r.value, x)
    decreases SearchRank(t, x), 0, |ps|
  {
    if ps == [] then None
    else if !IsContainerType(ps[0].ptype) then PropertiesFromId(t, x, ps[1..], id)
    else
      match GetChildOfObject(t, x, KProperty(ps[0]))
      case None => PropertiesFromId(t, x, ps[1..], id)
      case Some(c) =>
        ChildBelow(t, x, KProperty(ps[0]));
        if IdOf(t, c) == id then Some(c)
        else if StartsWith(id, IdOf(t, c) + ".") then
          var r := DescendantFromId(t, c, id);
          if r.Some? then BelowChild(t, r.value, x, KProperty(ps[0])); r else r
        else PropertiesFromId(t, x, ps[1..], id)
  }

  /** `getObjectFromObjectId`: an item with that id, and a stored one is attached to the document. */
  function GetObjectFromObjectId(t: Tree, id: string): (r: Option<Item>)
    requires WellFormed(t)
    ensures r.Some? ==> ValidItem(t, r.value) && IdOf(t, r.value) == id
    ensures r.Some? && r.value.Stored? ==> Attached(t, r.value.ref)
    ensures r.Some? && r.value.ValueItem? ==> Attached(t, r.value.parent)
  {
    var r := DescendantFromId(t, Stored(t.root), id);
    r
  }

  // ---------------------------------------------------------------------------
  // isObjectExists, findPropertyByChildObject, isPartOfNavigation

  /** `isObjectExists`: false when the parent array lacks it, or the parent's property at its key is not it. */
  predicate IsObjectExists(t: Tree, x: Item)
    requires WellFormed(t) && ValidItem(t, x)
  {
    ParentInArena(t, x);
    match ParentOf(t, x)
    case None => true
    case Some(p) =>
      match t.nodes[p].body
      case ArrayBody(elements) => x.Stored? && x.ref in elements
      case ObjectBody(props) =>
        KeyOf(t, x) == "" || (x.Stored? && KeyOf(t, x) in props && props[KeyOf(t, x)] == Child(x.ref))
  }

  /**
   * For a stored node with a key, existence is exactly being held by the parent; a value object
   * is a fresh object and never the one its parent holds.
   */
  lemma ExistsIffHeld(t: Tree, x: Item)
    requires WellFormed(t) && ValidItem(t, x) && KeyOf(t, x) != ""
    ensures x.Stored? ==>
      (IsObjectExists(t, x) <==>
        (t.nodes[x.ref].parent.None?
         || (t.nodes[x.ref].parent.value < |t.nodes| && Holds(t.nodes[t.nodes[x.ref].parent.value].body, x.ref))))
    ensures x.ValueItem? ==> !IsObjectExists(t, x)
  {
    if x.Stored? && t.nodes[x.ref].parent.Some? {
      assert NodeOk(t, x.ref);
      var p := t.nodes[x.ref].parent.value;
      if Holds(t.nodes[p].body, x.ref) {
        HeldChild(t, p, x.ref);
      }
    }
  }

  /** `findPropertyByChildObject`: the first property of the object's class whose value is the child. */
  function FindPropertyByChildObject(t: Tree, o: nat, x: Item): (r: Option<PropertyInfo>)
    requires o < |t.nodes|
    ensures r.Some? ==>
      r.value in t.nodes[o].classInfo.properties && x.Stored?
      && GetProperty(t, Stored(o), r.value.name) == Some(Child(x.ref))
    ensures r.None? ==> forall p :: p in t.nodes[o].classInfo.properties ==>
      !(x.Stored? && GetProperty(t, Stored(o), p.name) == Some(Child(x.ref)))
  {
    FirstHolding(t, o, x, t.nodes[o].classInfo.properties)
  }

  function FirstHolding(t: Tree, o: nat, x: Item, ps: seq<PropertyInfo>): (r: Option<PropertyInfo>)
    requires o < |t.nodes|
    ensures r.Some? ==> r.value in ps && x.Stored? && GetProperty(t, Stored(o), r.value.name) == Some(Child(x.ref))
    ensures r.None? ==> forall p :: p in ps ==> !(x.Stored? && GetProperty(t, Stored(o), p.name) == Some(Child(x.ref)))
  {
    if ps == [] then None
    else if x.Stored? && GetProperty(t, Stored(o), ps[0].name) == Some(Child(x.ref)) then Some(ps[0])
    else FirstHolding(t, o, x, ps[1..])
  }

  /** `isPartOfNavigation`: false only when the property holding the object says `partOfNavigation: false`. */
  predicate IsPartOfNavigation(t: Tree, x: Item)
    requires WellFormed(t) && ValidItem(t, x)
  {
    ParentInArena(t, x);
    match ParentOf(t, x)
    case None => true
    case Some(p) =>
      var prop := FindPropertyByChildObject(t, p, x);
      !(prop.Some? && prop.value.partOfNavigation == Some(false))
  }

  /**
   * A node held by an object is part of navigation unless the property declared under its key
   * says `partOfNavigation: false`; array elements, detached nodes and value objects always are.
   */
  lemma PartOfNavigationByKey(t: Tree, x: Item)
    requires WellFormed(t) && ValidItem(t, x)
    ensures x.ValueItem? ==> IsPartOfNavigation(t, x)
    ensures x.Stored? && t.nodes[x.ref].parent.Some? ==>
      var p := t.nodes[x.ref].parent.value;
      p < |t.nodes| &&
      (t.nodes[p].body.ArrayBody? || !Holds(t.nodes[p].body, x.ref) ==> IsPartOfNavigation(t, x))
      && (t.nodes[p].body.ObjectBody? && Holds(t.nodes[p].body, x.ref) ==>
        var q := FindPropertyByName(t.nodes[p].classInfo, t.nodes[x.ref].key);
        q.Some? && (IsPartOfNavigation(t, x) <==> q.value.partOfNavigation != Some(false)))
  {
    if x.Stored? && t.nodes[x.ref].parent.Some? {
      assert NodeOk(t, x.ref);
      var p := t.nodes[x.ref].parent.value;
      var cls := t.nodes[p].classInfo;
      if t.nodes[p].body.ObjectBody? && Holds(t.nodes[p].body, x.ref) {
        HeldChild(t, p, x.ref);
        var key := t.nodes[x.ref].key;
        assert NodeOk(t, p);
        var q := FindPropertyByName(cls, key).value;
        var r := FindPropertyByChildObject(t, p, x);
        assert r.Some? by {
          assert q in cls.properties;
          assert GetProperty(t, Stored(p), q.name) == Some(Child(x.ref));
        }
        // the only key holding the node is its own key, so the first holding property is named by it
        assert r.value.name == key by {
          assert GetProperty(t, Stored(p), r.value.name) == Some(Child(x.ref));
          HeldKeyUnique(t, p, x.ref, r.value.name);
        }
        FirstByNameIsFirstHolding(t, p, x, cls.properties, key);
      } else if Holds(t.nodes[p].body, x.ref) {
      } else {
        var r := FindPropertyByChildObject(t, p, x);
        if r.Some? {
          assert Holds(t.nodes[p].body, x.ref);
        }
      }
    }
  }

  lemma HeldKeyUnique(t: Tree, p: nat, c: nat, k: string)
    requires WellFormed(t) && p < |t.nodes| && t.nodes[p].body.ObjectBody?
    requires k in t.nodes[p].body.props && t.nodes[p].body.props[k] == Child(c)
    ensures c < |t.nodes| && t.nodes[c].key == k
  {
    assert NodeOk(t, p);
  }

  /** When only properties named `key` hold the child, the first holding one is the first named `key`. */
  lemma {:induction false} FirstByNameIsFirstHolding(t: Tree, o: nat, x: Item, ps: seq<PropertyInfo>, key: string)
    requires o < |t.nodes| && x.Stored? && HasName(ps, key)
    requires GetProperty(t, Stored(o), key) == Some(Child(x.ref))
    requires forall p :: p in ps && GetProperty(t, Stored(o), p.name) == Some(Child(x.ref)) ==> p.name == key
    ensures FirstHolding(t, o, x, ps) == Some(ps[IndexOfName(ps, key)])
  {
    if ps[0].name != key {
      assert HasName(ps[1..], key) by {
        var k :| 0 <= k < |ps| && ps[k].name == key;
        assert ps[1..][k - 1].name == key;
      }
      FirstByNameIsFirstHolding(t, o, x, ps[1..], key);
    }
  }

  // ---------------------------------------------------------------------------
  // getCommonProperties

  /** The filters of `getCommonProperties`, for property `p` of the first object's class. */
  predicate IsCommonProperty(t: Tree, objects: seq<Item>, p: PropertyInfo)
    requires forall i :: 0 <= i < |objects| ==> ValidItem(t, objects[i])
  {
    (forall i :: 0 <= i < |objects| ==> !IsArray(t, objects[i]) && !IsPropertyHidden(objects[i], p))
    && (|objects| > 1 ==>
      p.ptype != PropertyType.Array && !(p.ptype == PropertyType.String && p.unique)
      && forall i :: 0 <= i < |objects| ==> p in ClassOf(t, objects[i]).properties)
  }

  /** `r` is `ps` with some entries left out and the others kept in their order. */
  predicate Subsequence(r: seq<PropertyInfo>, ps: seq<PropertyInfo>)
    decreases |ps|
  {
    r == [] || (ps != [] && ((r[0] == ps[0] && Subsequence(r[1..], ps[1..])) || Subsequence(r, ps[1..])))
  }

  /** The chained `filter` calls: they keep exactly the passing properties, in their order. */
  function CommonFilter(t: Tree, objects: seq<Item>, ps: seq<PropertyInfo>): (r: seq<PropertyInfo>)
    requires forall i :: 0 <= i < |objects| ==> ValidItem(t, objects[i])
    ensures forall p :: p in r <==> p in ps && IsCommonProperty(t, objects, p)
    ensures Subsequence(r, ps)
    ensures |r| <= |ps|
  {
    if ps == [] then []
    else if IsCommonProperty(t, objects, ps[0]) then
      var rest := CommonFilter(t, objects, ps[1..]);
      assert ([ps[0]] + rest)[1..] == rest;
      [ps[0]] + rest
    else CommonFilter(t, objects, ps[1..])
  }

  /**
   * `getCommonProperties`: the first object's properties that no object hides and that are not
   * shown for arrays, in the class's order; for several objects, only those every object's class
   * declares, and no array or unique string property. With no objects, reading the class of
   * `objects[0]` throws a `TypeError` (`None`).
   */
  function GetCommonProperties(t: Tree, objects: seq<Item>): (r: Option<seq<PropertyInfo>>)
    requires forall i :: 0 <= i < |objects| ==> ValidItem(t, objects[i])
    ensures r.None? <==> objects == []
    ensures r.Some? ==> forall p :: p in r.value <==> p in ClassOf(t, objects[0]).properties && IsCommonProperty(t, objects, p)
    ensures r.Some? ==> Subsequence(r.value, ClassOf(t, objects[0]).properties)
    ensures r.Some? && |objects| > 1 ==> forall p :: p in r.value ==>
      p.ptype != PropertyType.Array && forall i :: 0 <= i < |objects| ==> p in ClassOf(t, objects[i]).properties
    ensures (exists i :: 0 <= i < |objects| && IsArray(t, objects[i])) ==> r == Some([])
  {
    if objects == [] then None
    else
      var r := CommonFilter(t, objects, ClassOf(t, objects[0]).properties);
      assert r != [] ==> r[0] in r;
      Some(r)
  }

  // ---------------------------------------------------------------------------
  // getPropertySourceInfo

  datatype ValueSource = NoSource | Default | Modified | Inherited

  datatype SourceInfo = SourceInfo(source: ValueSource, inheritedFrom: Option<nat>)

  /**
   * `getSourceInfo` for one object. `inherited` is what the class's `getInheritedValue` callback
   * reports: the source node of an inherited value, for the objects that have one.
   */
  function ObjectSourceInfo(t: Tree, x: Item, p: PropertyInfo, inherited: map<nat, nat>): SourceInfo
    requires ValidItem(t, x)
  {
    var value := GetProperty(t, x, p.name);
    if p.hasPropertyMenu then SourceInfo(NoSource, None)
    else if p.inheritable && value.None? && x.Stored? && x.ref in inherited
    then SourceInfo(Inherited, Some(inherited[x.ref]))
    else if value.Some? then SourceInfo(Modified, None)
    else SourceInfo(Default, None)
  }

  /**
   * `getPropertySourceInfo`: the first object's source info when every object has the same kind
   * of source, "modified" otherwise; with no objects, undefined.
   */
  function GetPropertySourceInfo(t: Tree, objects: seq<Item>, p: PropertyInfo, inherited: map<nat, nat>): (r: Option<SourceInfo>)
    requires forall i :: 0 <= i < |objects| ==> ValidItem(t, objects[i])
    ensures r.None? <==> objects == []
    ensures r.Some? && (forall i :: 0 <= i < |objects| ==>
      ObjectSourceInfo(t, objects[i], p, inherited).source == ObjectSourceInfo(t, objects[0], p, inherited).source)
      ==> r == Some(ObjectSourceInfo(t, objects[0], p, inherited))
    ensures r.Some? && (exists i ::
      0 <= i < |objects| &&
      ObjectSourceInfo(t, objects[i], p, inherited).source != ObjectSourceInfo(t, objects[0], p, inherited).source)
      ==> r == Some(SourceInfo(Modified, None))
    ensures p.hasPropertyMenu && r.Some? ==> r.value.source == NoSource
  {
    if objects == [] then None
    else
      var first := ObjectSourceInfo(t, objects[0], p, inherited);
      var k := FirstDiffering(t, objects, p, inherited, first.source, 1);
      if k < |objects| then Some(SourceInfo(Modified, None)) else Some(first)
  }

  /** The loop of `getPropertySourceInfo`: the first index from `i` whose source kind differs. */
  function FirstDiffering(t: Tree, objects: seq<Item>, p: PropertyInfo, inherited: map<nat, nat>, source: ValueSource, i: nat): (k: nat)
    requires forall j :: 0 <= j < |objects| ==> ValidItem(t, objects[j])
    requires i <= |objects|
    ensures i <= k <= |objects|
    ensures k < |objects| ==> ObjectSourceInfo(t, objects[k], p, inherited).source != source
    ensures forall j :: i <= j < k ==> ObjectSourceInfo(t, objects[j], p, inherited).source == source
    decreases |objects| - i
  {
    if i == |objects| then i
    else if ObjectSourceInfo(t, objects[i], p, inherited).source != source then i
    else FirstDiffering(t, objects, p, inherited, source, i + 1)
  }

  // ---------------------------------------------------------------------------
  // getNextChildId

  /** The document's object arena, whose nodes' child-id counters `getNextChildId` advances. */
  class Arena {
    var tree: Tree

    constructor (t: Tree)
      ensures tree == t
    {
      tree := t;
    }

    /** `getNextChildId`: 1 on the first call for a node, then one more than the previous result. */
    method GetNextChildId(r: nat) returns (id: nat)
      requires r < |tree.nodes|
      modifies this
      ensures old(tree.nodes[r].lastChildId).None? ==> id == 1
      ensures old(tree.nodes[r].lastChildId).Some? ==> id == old(tree.nodes[r].lastChildId.value) + 1
      ensures tree == old(tree.(nodes := tree.nodes[r := tree.nodes[r].(lastChildId := Some(id))]))
    {
      var n := tree.nodes[r];
      id := if n.lastChildId.None? then 1 else n.lastChildId.value + 1;
      tree := tree.(nodes := tree.nodes[r := n.(lastChildId := Some(id))]);
    }
  }

  /** Advancing a counter changes nothing the tree's shape depends on. */
  lemma CounterKeepsWellFormed(t: Tree, r: nat, id: nat)
    requires WellFormed(t) && r < |t.nodes|
    ensures WellFormed(t.(nodes := t.nodes[r := t.nodes[r].(lastChildId := Some(id))]))
  {
    var t' := t.(nodes := t.nodes[r := t.nodes[r].(lastChildId := Some(id))]);
    forall i | 0 <= i < |t'.nodes| ensures NodeOk(t', i) {
      assert NodeOk(t, i);
    }
  }
}
