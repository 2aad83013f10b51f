/**
 * Class metadata of the object model (packages/project-editor/core/object.ts): property
 * descriptors, class descriptors with their single-inheritance chain, the merge that builds a
 * derived class descriptor from a base one, and the walks along the chain.
 *
 * A class descriptor is an inductive value whose `parentClassInfo` is a smaller value, so every
 * chain is finite and acyclic; descriptor identity (`===` in the source) is value equality here.
 */
module Metadata {
  import opened Wrappers

  datatype PropertyType =
    | String | StringArray | MultilineText | JSON | Cpp | Number | NumberArray | Array
    | Object | Enum | Image | Color | ThemedColor | RelativeFolder | RelativeFile
    | ObjectReference | ConfigurationReference | Boolean | GUID | Any

  /**
   * A property flag that may be left out, given as a constant, or given as a callback of the
   * object; a callback is represented by the set of nodes (arena indices) it accepts.
   */
  datatype Flag = Unset | Const(value: bool) | Callback(accepts: set<nat>)

  /** What the core reads of a `PropertyInfo`. Optional booleans the source tests for truth are `bool`. */
  datatype PropertyInfo = PropertyInfo(
    name: string,
    ptype: PropertyType,
    hasTypeClass: bool,
    enumerable: Flag,
    hideInPropertyGrid: Flag,
    showOnlyChildrenInTree: Option<bool>,
    partOfNavigation: Option<bool>,
    isOptional: bool,
    computed: bool,
    unique: bool,
    inheritable: bool,
    hasPropertyMenu: bool)

  /**
   * What the core reads of a `ClassInfo`. Hooks are represented by the sequence of primitive
   * hook steps they run, in order; the empty sequence is "no hook".
   */
  datatype ClassInfo = ClassInfo(
    properties: seq<PropertyInfo>,
    parentClassInfo: Option<ClassInfo>,
    defaultNavigationKey: Option<string>,
    hasNavigationComponent: bool,
    hasEditorComponent: bool,
    hasNewItem: bool,
    hasCreateEditorState: bool,
    hasAfterUpdateObjectHook: bool,
    beforeLoadHook: seq<nat>)

  /** A `Partial<ClassInfo>`: `None` (or `[]` for a hook) is a field the literal leaves out. */
  datatype ClassInfoOverrides = ClassInfoOverrides(
    properties: Option<seq<PropertyInfo>>,
    defaultNavigationKey: Option<string>,
    hasNavigationComponent: Option<bool>,
    hasEditorComponent: Option<bool>,
    hasNewItem: Option<bool>,
    hasCreateEditorState: Option<bool>,
    hasAfterUpdateObjectHook: Option<bool>,
    beforeLoadHook: seq<nat>)

  // ---------------------------------------------------------------------------
  // Looking properties up by name

  predicate HasName(ps: seq<PropertyInfo>, name: string) {
    exists k :: 0 <= k < |ps| && ps[k].name == name
  }

  /** The index of the first property with the given name, or `|ps|` when there is none. */
  function IndexOfName(ps: seq<PropertyInfo>, name: string): (k: nat)
    ensures k <= |ps|
    ensures k < |ps| ==> ps[k].name == name
    ensures forall j :: 0 <= j < k ==> ps[j].name != name
    ensures k == |ps| <==> !HasName(ps, name)
  {
    if ps == [] then 0
    else if ps[0].name == name then 0
    else 1 + IndexOfName(ps[1..], name)
  }

  /** `findPropertyByName`: the first property of the class with that name. */
  function FindPropertyByName(classInfo: ClassInfo, name: string): (r: Option<PropertyInfo>)
    ensures r.Some? <==> HasName(classInfo.properties, name)
    ensures r.Some? ==> r.value.name == name && r.value in classInfo.properties
    ensures r.Some? ==> r.value == classInfo.properties[IndexOfName(classInfo.properties, name)]
  {
    var k := IndexOfName(classInfo.properties, name);
    if k < |classInfo.properties| then Some(classInfo.properties[k]) else None
  }

  // ---------------------------------------------------------------------------
  // makeDerivedClassInfo

  /** A base property, or the first derived property with the same name when there is one. */
  function Overridden(p: PropertyInfo, d: seq<PropertyInfo>): PropertyInfo {
    var j := IndexOfName(d, p.name);
    if j < |d| then d[j] else p
  }

  /** The derived properties appended, in order, when no property seen so far has their name. */
  function AppendNew(r: seq<PropertyInfo>, d: seq<PropertyInfo>): seq<PropertyInfo>
    decreases |d|
  {
    if d == [] then r
    else AppendNew(if HasName(r, d[0].name) then r else r + [d[0]], d[1..])
  }

  /** The merged property list: the specification of the two loops of `makeDerivedClassInfo`. */
  function MergedProperties(b: seq<PropertyInfo>, d: seq<PropertyInfo>): seq<PropertyInfo> {
    AppendNew(seq(|b|, i requires 0 <= i < |b| => Overridden(b[i], d)), d)
  }

  /** `Object.assign({}, base, derived)` followed by `parentClassInfo = base`. */
  function DerivedClassInfo(base: ClassInfo, derived: ClassInfoOverrides): ClassInfo {
    ClassInfo(
      properties := if derived.properties.Some?
        then MergedProperties(base.properties, derived.properties.value)
        else base.properties,
      parentClassInfo := Some(base),
      defaultNavigationKey :=
        if derived.defaultNavigationKey.Some? then derived.defaultNavigationKey
        else base.defaultNavigationKey,
      hasNavigationComponent := derived.hasNavigationComponent.GetOr(base.hasNavigationComponent),
      hasEditorComponent := derived.hasEditorComponent.GetOr(base.hasEditorComponent),
      hasNewItem := derived.hasNewItem.GetOr(base.hasNewItem),
      hasCreateEditorState := derived.hasCreateEditorState.GetOr(base.hasCreateEditorState),
      hasAfterUpdateObjectHook := derived.hasAfterUpdateObjectHook.GetOr(base.hasAfterUpdateObjectHook),
      beforeLoadHook :=
        if base.beforeLoadHook != [] && derived.beforeLoadHook != []
        then base.beforeLoadHook + derived.beforeLoadHook
        else if derived.beforeLoadHook != [] then derived.beforeLoadHook
        else base.beforeLoadHook)
  }

  /** The first loop of `makeDerivedClassInfo`: each base property, or the derived one overriding it. */
  method OverrideBaseProperties(b: seq<PropertyInfo>, d: seq<PropertyInfo>) returns (res: seq<PropertyInfo>)
    ensures res == seq(|b|, i requires 0 <= i < |b| => Overridden(b[i], d))
  {
    res := [];
    for i := 0 to |b|
      invariant |res| == i
      invariant forall k :: 0 <= k < i ==> res[k] == Overridden(b[k], d)
    {
      var j := 0;
      while j < |d| && b[i].name != d[j].name
        invariant 0 <= j <= |d|
        invariant forall k :: 0 <= k < j ==> d[k].name != b[i].name
      {
        j := j + 1;
      }
      assert j == IndexOfName(d, b[i].name);
      res := res + [if j < |d| then d[j] else b[i]];
    }
  }

  /** The second loop of `makeDerivedClassInfo`: derived properties whose name is not yet in the list. */
  method AppendNewProperties(r: seq<PropertyInfo>, d: seq<PropertyInfo>) returns (res: seq<PropertyInfo>)
    ensures res == AppendNew(r, d)
  {
    res := r;
    for i := 0 to |d|
      invariant AppendNew(res, d[i..]) == AppendNew(r, d)
    {
      var j := 0;
      while j < |res| && d[i].name != res[j].name
        invariant 0 <= j <= |res|
        invariant forall k :: 0 <= k < j ==> res[k].name != d[i].name
      {
        j := j + 1;
      }
      assert d[i..][1..] == d[i + 1..];
      if j == |res| {
        res := res + [d[i]];
      }
    }
    assert d[|d|..] == [];
  }

  /** `makeDerivedClassInfo`: the two merge loops, then the field-by-field assignment. */
  method MakeDerivedClassInfo(base: ClassInfo, derived: ClassInfoOverrides) returns (r: ClassInfo)
    ensures r == DerivedClassInfo(base, derived)
  {
    var properties := base.properties;
    if derived.properties.Some? {
      var overridden := OverrideBaseProperties(base.properties, derived.properties.value);
      properties := AppendNewProperties(overridden, derived.properties.value);
    }
    var hook := base.beforeLoadHook;
    if base.beforeLoadHook != [] && derived.beforeLoadHook != [] {
      hook := base.beforeLoadHook + derived.beforeLoadHook;
    } else if derived.beforeLoadHook != [] {
      hook := derived.beforeLoadHook;
    }
    r := ClassInfo(
      properties,
      Some(base),
      if derived.defaultNavigationKey.Some? then derived.defaultNavigationKey
      else base.defaultNavigationKey,
      derived.hasNavigationComponent.GetOr(base.hasNavigationComponent),
      derived.hasEditorComponent.GetOr(base.hasEditorComponent),
      derived.hasNewItem.GetOr(base.hasNewItem),
      derived.hasCreateEditorState.GetOr(base.hasCreateEditorState),
      derived.hasAfterUpdateObjectHook.GetOr(base.hasAfterUpdateObjectHook),
      hook);
  }

  // Properties of AppendNew, for any list `r` already collected

  /** One step of AppendNew: `p` is appended unless a collected property has its name. */
  function Collect(r: seq<PropertyInfo>, p: PropertyInfo): seq<PropertyInfo> {
    if HasName(r, p.name) then r else r + [p]
  }

  lemma CollectNames(r: seq<PropertyInfo>, p: PropertyInfo, n: string)
    ensures HasName(Collect(r, p), n) <==> HasName(r, n) || p.name == n
    ensures Collect(r, p)[..|r|] == r
  {
    if HasName(r, n) {
      var k :| 0 <= k < |r| && r[k].name == n;
      assert Collect(r, p)[k].name == n;
    }
    if !HasName(r, p.name) {
      assert Collect(r, p)[|r|] == p;
    }
  }

  lemma AppendNewStep(r: seq<PropertyInfo>, d: seq<PropertyInfo>)
    requires d != []
    ensures AppendNew(r, d) == AppendNew(Collect(r, d[0]), d[1..])
  {
  }

  lemma IndexOfNameStep(d: seq<PropertyInfo>, n: string)
    requires d != [] && d[0].name != n
    ensures IndexOfName(d, n) == 1 + IndexOfName(d[1..], n)
    ensures IndexOfName(d, n) < |d| ==> d[IndexOfName(d, n)] == d[1..][IndexOfName(d[1..], n)]
  {
  }

  lemma {:induction false} AppendNewPrefix(r: seq<PropertyInfo>, d: seq<PropertyInfo>)
    ensures |AppendNew(r, d)| >= |r| && AppendNew(r, d)[..|r|] == r
    decreases |d|
  {
    if d != [] {
      var r' := Collect(r, d[0]);
      AppendNewStep(r, d);
      CollectNames(r, d[0], d[0].name);
      AppendNewPrefix(r', d[1..]);
      assert AppendNew(r, d)[..|r|] == AppendNew(r', d[1..])[..|r'|][..|r|];
    }
  }

  lemma {:induction false} AppendNewNames(r: seq<PropertyInfo>, d: seq<PropertyInfo>, n: string)
    ensures HasName(AppendNew(r, d), n) <==> HasName(r, n) || HasName(d, n)
    decreases |d|
  {
    if d != [] {
      AppendNewStep(r, d);
      CollectNames(r, d[0], n);
      AppendNewNames(Collect(r, d[0]), d[1..], n);
      HasNameStep(d, n);
    }
  }

  lemma HasNameStep(d: seq<PropertyInfo>, n: string)
    requires d != []
    ensures HasName(d, n) <==> d[0].name == n || HasName(d[1..], n)
  {
    if HasName(d[1..], n) {
      var k :| 0 <= k < |d| - 1 && d[1..][k].name == n;
      assert d[k + 1].name == n;
    }
    if HasName(d, n) && d[0].name != n {
      var k :| 0 <= k < |d| && d[k].name == n;
      assert d[1..][k - 1].name == n;
    }
  }

  /**
   * Every property appended after `r` is the first property of `d` with its name, and no
   * property of `r` has that name.
   */
  lemma {:induction false} AppendNewTail(r: seq<PropertyInfo>, d: seq<PropertyInfo>, k: nat)
    requires |r| <= k < |AppendNew(r, d)|
    ensures var p := AppendNew(r, d)[k];
      !HasName(r, p.name) && IndexOfName(d, p.name) < |d| && d[IndexOfName(d, p.name)] == p
    decreases |d|
  {
    var p := AppendNew(r, d)[k];
    if d != [] {
      var r' := Collect(r, d[0]);
      AppendNewStep(r, d);
      CollectNames(r, d[0], p.name);
      AppendNewPrefix(r', d[1..]);
      if k < |r'| {
        assert p == AppendNew(r', d[1..])[..|r'|][k] == r'[k] == d[0];
      } else {
        AppendNewTail(r', d[1..], k);
        IndexOfNameStep(d, p.name);
      }
    }
  }

  /** The appended properties keep the order they have in `d`. */
  lemma {:induction false} AppendNewOrder(r: seq<PropertyInfo>, d: seq<PropertyInfo>, k: nat, l: nat)
    requires |r| <= k < l < |AppendNew(r, d)|
    ensures IndexOfName(d, AppendNew(r, d)[k].name) < IndexOfName(d, AppendNew(r, d)[l].name)
    decreases |d|
  {
    var a := AppendNew(r, d);
    var r' := Collect(r, d[0]);
    AppendNewStep(r, d);
    AppendNewPrefix(r', d[1..]);
    AppendNewTail(r', d[1..], l);
    CollectNames(r, d[0], a[l].name);
    IndexOfNameStep(d, a[l].name);
    if k < |r'| {
      assert a[k] == a[..|r'|][k] == r'[k] == d[0];
    } else {
      AppendNewTail(r', d[1..], k);
      CollectNames(r, d[0], a[k].name);
      IndexOfNameStep(d, a[k].name);
      AppendNewOrder(r', d[1..], k, l);
    }
  }

  predicate UniqueNames(ps: seq<PropertyInfo>) {
    forall i, j :: 0 <= i < j < |ps| ==> ps[i].name != ps[j].name
  }

  lemma {:induction false} AppendNewUnique(r: seq<PropertyInfo>, d: seq<PropertyInfo>)
    requires UniqueNames(r)
    ensures UniqueNames(AppendNew(r, d))
    decreases |d|
  {
    if d != [] {
      AppendNewStep(r, d);
      assert UniqueNames(Collect(r, d[0]));
      AppendNewUnique(Collect(r, d[0]), d[1..]);
    }
  }

  // The properties of the merge promised by the source's comments

  /**
   * Base properties come first, in base order, each replaced by the first derived property of
   * the same name, so a base property's name is kept at its position.
   */
  lemma MergedBaseFirst(b: seq<PropertyInfo>, d: seq<PropertyInfo>)
    ensures |MergedProperties(b, d)| >= |b|
    ensures forall i :: 0 <= i < |b| ==>
      MergedProperties(b, d)[i] == Overridden(b[i], d) && MergedProperties(b, d)[i].name == b[i].name
    ensures forall i :: 0 <= i < |b| && HasName(d, b[i].name) ==>
      MergedProperties(b, d)[i] == d[IndexOfName(d, b[i].name)]
  {
    var base := seq(|b|, i requires 0 <= i < |b| => Overridden(b[i], d));
    AppendNewPrefix(base, d);
    assert MergedProperties(b, d)[..|b|] == base;
  }

  /** After the base part come the derived properties with names new to the base, in derived order. */
  lemma MergedDerivedAfter(b: seq<PropertyInfo>, d: seq<PropertyInfo>)
    ensures var m := MergedProperties(b, d);
      forall k :: |b| <= k < |m| ==>
        !HasName(b, m[k].name) && IndexOfName(d, m[k].name) < |d| && d[IndexOfName(d, m[k].name)] == m[k]
    ensures var m := MergedProperties(b, d);
      forall k, l :: |b| <= k < l < |m| ==> IndexOfName(d, m[k].name) < IndexOfName(d, m[l].name)
  {
    var base := seq(|b|, i requires 0 <= i < |b| => Overridden(b[i], d));
    var m := MergedProperties(b, d);
    forall k | |b| <= k < |m|
      ensures !HasName(b, m[k].name) && IndexOfName(d, m[k].name) < |d| && d[IndexOfName(d, m[k].name)] == m[k]
    {
      AppendNewTail(base, d, k);
      BaseNames(b, d, m[k].name);
    }
    forall k, l | |b| <= k < l < |m|
      ensures IndexOfName(d, m[k].name) < IndexOfName(d, m[l].name)
    {
      AppendNewOrder(base, d, k, l);
    }
  }

  lemma BaseNames(b: seq<PropertyInfo>, d: seq<PropertyInfo>, n: string)
    ensures HasName(seq(|b|, i requires 0 <= i < |b| => Overridden(b[i], d)), n) <==> HasName(b, n)
  {
    var base := seq(|b|, i requires 0 <= i < |b| => Overridden(b[i], d));
    if HasName(b, n) {
      var i :| 0 <= i < |b| && b[i].name == n;
      assert base[i].name == n;
    }
    if HasName(base, n) {
      var i :| 0 <= i < |base| && base[i].name == n;
      assert b[i].name == n;
    }
  }

  /** No name from either input is lost, and no other name appears. */
  lemma MergedNames(b: seq<PropertyInfo>, d: seq<PropertyInfo>, n: string)
    ensures HasName(MergedProperties(b, d), n) <==> HasName(b, n) || HasName(d, n)
  {
    var base := seq(|b|, i requires 0 <= i < |b| => Overridden(b[i], d));
    AppendNewNames(base, d, n);
    BaseNames(b, d, n);
  }

  /** With no duplicate name in the base, the merged list has no duplicate name either. */
  lemma MergedUnique(b: seq<PropertyInfo>, d: seq<PropertyInfo>)
    requires UniqueNames(b)
    ensures UniqueNames(MergedProperties(b, d))
  {
    var base := seq(|b|, i requires 0 <= i < |b| => Overridden(b[i], d));
    assert UniqueNames(base) by {
      forall i, j | 0 <= i < j < |base| ensures base[i].name != base[j].name {
        assert base[i].name == b[i].name && base[j].name == b[j].name;
      }
    }
    AppendNewUnique(base, d);
  }

  /** The derived descriptor's parent is the base, and a hook present on both runs base first. */
  lemma DerivedClassInfoShape(base: ClassInfo, derived: ClassInfoOverrides)
    ensures DerivedClassInfo(base, derived).parentClassInfo == Some(base)
    ensures DerivedClassInfo(base, derived).beforeLoadHook == base.beforeLoadHook + derived.beforeLoadHook
    ensures derived.properties.None? ==> DerivedClassInfo(base, derived).properties == base.properties
    ensures ProperSubclassOf(Some(DerivedClassInfo(base, derived)), base)
  {
  }

  // ---------------------------------------------------------------------------
  // isSubclassOf and isProperSubclassOf

  /** `classInfo` is `base` or has `base` on its parent chain. */
  predicate SubclassOf(classInfo: Option<ClassInfo>, base: ClassInfo)
    decreases classInfo
  {
    classInfo.Some? && (classInfo.value == base || SubclassOf(classInfo.value.parentClassInfo, base))
  }

  /** `base` is on the parent chain of `classInfo`, not counting `classInfo` itself. */
  predicate ProperSubclassOf(classInfo: Option<ClassInfo>, base: ClassInfo) {
    classInfo.Some? && SubclassOf(classInfo.value.parentClassInfo, base)
  }

  /** The loop of `isSubclassOf`. */
  method IsSubclassOf(classInfo: Option<ClassInfo>, base: ClassInfo) returns (r: bool)
    ensures r == SubclassOf(classInfo, base)
  {
    var c := classInfo;
    while c.Some?
      invariant SubclassOf(classInfo, base) == SubclassOf(c, base)
      decreases c
    {
      if c.value == base {
        return true;
      }
      c := c.value.parentClassInfo;
    }
    return false;
  }

  /** The loop of `isProperSubclassOf`. */
  method IsProperSubclassOf(classInfo: Option<ClassInfo>, base: ClassInfo) returns (r: bool)
    ensures r == ProperSubclassOf(classInfo, base)
  {
    if classInfo.None? {
      return false;
    }
    var c := classInfo;
    while true
      invariant c.Some?
      invariant ProperSubclassOf(classInfo, base) == SubclassOf(c.value.parentClassInfo, base)
      decreases c
    {
      c := c.value.parentClassInfo;
      if c.None? {
        return false;
      }
      if c.value == base {
        return true;
      }
    }
  }

  /** The length of the parent chain, counting the class itself. */
  function ChainLength(c: ClassInfo): nat {
    match c.parentClassInfo
    case None => 1
    case Some(p) => 1 + ChainLength(p)
  }

  lemma {:induction false} SubclassChainLength(c: Option<ClassInfo>, base: ClassInfo)
    requires SubclassOf(c, base)
    ensures ChainLength(base) <= ChainLength(c.value)
    decreases c
  {
    if c.value != base {
      SubclassChainLength(c.value.parentClassInfo, base);
    }
  }

  /** Every class is a subclass of itself, and a proper subclass is a subclass. */
  lemma SubclassReflexive(c: ClassInfo, o: Option<ClassInfo>, base: ClassInfo)
    ensures SubclassOf(Some(c), c)
    ensures ProperSubclassOf(o, base) ==> SubclassOf(o, base)
  {
  }

  /** No class is a proper subclass of itself: parent chains never come back. */
  lemma ProperSubclassIrreflexive(c: ClassInfo)
    ensures !ProperSubclassOf(Some(c), c)
  {
    if SubclassOf(c.parentClassInfo, c) {
      SubclassChainLength(c.parentClassInfo, c);
    }
  }

  lemma {:induction false} SubclassTransitive(a: Option<ClassInfo>, b: ClassInfo, c: ClassInfo)
    requires SubclassOf(a, b) && SubclassOf(Some(b), c)
    ensures SubclassOf(a, c)
    decreases a
  {
    if a.value != b {
      SubclassTransitive(a.value.parentClassInfo, b, c);
    }
  }
}
