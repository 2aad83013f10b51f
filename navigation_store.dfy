/**
 * The navigation store of packages/project-editor/core/store.ts (`NavigationStoreClass`).
 *
 * The store keeps a map from the id of a navigation object (a container shown in a navigation
 * panel) to the item selected in it: another object, or a tree-object adapter. Adapters are
 * opaque here: each is named by a number, what it reports as `selectedObject` is an oracle
 * (`AdapterSelection`), and the `selectObjects` calls made on adapters are recorded in order.
 * The document is the tree `t` and its root; the store's methods take it as a parameter.
 */
module Navigation {
  import opened Wrappers
  import opened Metadata
  import opened ObjectModel

  /** An entry of the navigation map. */
  datatype NavItem = NavObject(item: Item) | NavAdapter(adapter: nat)

  type NavMap = map<string, NavItem>

  /** The object each adapter reports as `selectedObject`; an adapter missing here reports none. */
  type AdapterSelection = map<nat, Item>

  /** A `selectObjects(selection)` call made on an adapter. */
  datatype SelectCall = SelectCall(adapter: nat, selection: seq<Item>)

  predicate MapValid(t: Tree, m: NavMap) {
    forall id :: id in m && m[id].NavObject? ==> ValidItem(t, m[id].item)
  }

  predicate SelectionValid(t: Tree, sel: AdapterSelection) {
    forall a :: a in sel ==> ValidItem(t, sel[a])
  }

  /** An item that is in the document: it, or for a value object its parent, is attached. */
  predicate InDocument(t: Tree, x: Item)
    requires WellFormed(t) && ValidItem(t, x)
  {
    match x
    case Stored(j) => Attached(t, j)
    case ValueItem(p, _, _) => Attached(t, p)
  }

  /**
   * Object identity as `===` and `!=` see it. A stored node is one object; a value object is made
   * afresh by every lookup, so none is identical to an earlier one.
   */
  predicate SameObject(x: Item, y: Item) {
    x.Stored? && x == y
  }

  /** The map stores an adapter for the object. */
  predicate HasAdapter(t: Tree, m: NavMap, x: Item)
    requires ValidItem(t, x)
  {
    IdOf(t, x) in m && m[IdOf(t, x)].NavAdapter?
  }

  // ---------------------------------------------------------------------------
  // getNavigationSelectedItem

  /** The `defaultNavigationKey` fallback: the node the object holds under that property. */
  function DefaultItem(t: Tree, x: Item): (r: Option<NavItem>)
    requires WellFormed(t) && ValidItem(t, x)
    ensures r.Some? ==>
      r.value.NavObject? && r.value.item.Stored? && x.Stored? && ValidItem(t, r.value.item)
      && t.nodes[r.value.item.ref].parent == Some(x.ref)
    ensures var key := ClassOf(t, x).defaultNavigationKey;
      r.Some? <==> key.Some? && key.value != "" && GetProperty(t, x, key.value).Some? && GetProperty(t, x, key.value).value.Child?
    ensures r.Some? ==>
      GetProperty(t, x, ClassOf(t, x).defaultNavigationKey.value) == Some(Child(r.value.item.ref))
  {
    match ClassOf(t, x).defaultNavigationKey
    case None => None
    case Some(k) =>
      if k == "" then None
      else
        match GetProperty(t, x, k)
        case Some(Child(c)) => assert NodeOk(t, x.ref); Some(NavObject(Stored(c)))
        case _ => None
  }

  /**
   * `getNavigationSelectedItem`: an adapter stored for the object is returned as it is; a stored
   * object is looked up again by its id (it may have been deleted); when that finds nothing, or
   * nothing is stored, the object's default navigation property is used.
   */
  function GetNavigationSelectedItem(t: Tree, m: NavMap, x: Item): (r: Option<NavItem>)
    requires WellFormed(t) && ValidItem(t, x) && MapValid(t, m)
    ensures r.Some? && r.value.NavObject? ==> ValidItem(t, r.value.item)
    ensures r.Some? && r.value.NavAdapter? <==> HasAdapter(t, m, x)
    ensures HasAdapter(t, m, x) ==> r == Some(m[IdOf(t, x)])
    ensures IdOf(t, x) in m && m[IdOf(t, x)].NavObject? ==>
      var y := m[IdOf(t, x)].item;
      (GetObjectFromObjectId(t, IdOf(t, y)).None? ==> r == DefaultItem(t, x))
      && (GetObjectFromObjectId(t, IdOf(t, y)).Some? ==>
            r.Some? && r.value.NavObject? && IdOf(t, r.value.item) == IdOf(t, y)
            && InDocument(t, r.value.item))
    ensures IdOf(t, x) !in m ==> r == DefaultItem(t, x)
  {
    var id := IdOf(t, x);
    var found :=
      if id !in m then None
      else match m[id]
        case NavAdapter(a) => Some(NavAdapter(a))
        case NavObject(y) =>
          match GetObjectFromObjectId(t, IdOf(t, y))
          case None => None
          case Some(z) => Some(NavObject(z));
    if found.Some? then found else DefaultItem(t, x)
  }

  // ---------------------------------------------------------------------------
  // setNavigationSelectedItem

  /** The item after `chain[k]` is its parent. */
  predicate ParentLink(t: Tree, chain: seq<Item>, k: nat)
    requires k + 1 < |chain| && ValidItem(t, chain[k])
  {
    chain[k + 1].Stored? && ParentOf(t, chain[k]) == Some(chain[k + 1].ref)
  }

  /** `chain[k]` is part of navigation and the item after it is its parent. */
  predicate NavLink(t: Tree, chain: seq<Item>, k: nat)
    requires WellFormed(t) && k + 1 < |chain| && ValidItem(t, chain[k])
  {
    ParentLink(t, chain, k) && IsPartOfNavigation(t, chain[k])
  }

  /** The objects `setNavigationSelectedItem` records, from `x` up while each is part of navigation. */
  function NavChain(t: Tree, x: Item): (chain: seq<Item>)
    requires WellFormed(t) && ValidItem(t, x)
    ensures |chain| >= 1 && chain[0] == x
    ensures forall k :: 0 <= k < |chain| ==> ValidItem(t, chain[k])
    ensures forall k :: 0 <= k < |chain| - 1 ==> NavLink(t, chain, k)
    ensures var last := chain[|chain| - 1]; !IsPartOfNavigation(t, last) || ParentOf(t, last).None?
    decreases Depth(x)
  {
    ParentInArena(t, x);
    if IsPartOfNavigation(t, x) && ParentOf(t, x).Some? then
      var rest := NavChain(t, Stored(ParentOf(t, x).value));
      var chain := [x] + rest;
      assert forall k :: 1 <= k < |chain| ==> chain[k] == rest[k - 1];
      assert NavLink(t, chain, 0);
      assert forall k :: 1 <= k < |chain| - 1 ==> NavLink(t, chain, k) == NavLink(t, rest, k - 1);
      chain
    else [x]
  }

  /** No adapter appears in `m1` that was not already stored under the same id in `m`. */
  predicate NoNewAdapters(m: NavMap, m1: NavMap) {
    forall id :: id in m1 && m1[id].NavAdapter? ==> id in m && m[id] == m1[id]
  }

  /** The map after `setNavigationSelectedItem(x, item)`. */
  function RecordChain(t: Tree, m: NavMap, x: Item, item: NavItem): (r: NavMap)
    requires WellFormed(t) && ValidItem(t, x)
    ensures MapValid(t, m) && (item.NavObject? ==> ValidItem(t, item.item)) ==> MapValid(t, r)
    ensures !item.NavAdapter? ==> NoNewAdapters(m, r)
    decreases Depth(x)
  {
    ParentInArena(t, x);
    var m1 := m[IdOf(t, x) := item];
    if IsPartOfNavigation(t, x) && ParentOf(t, x).Some?
    then RecordChain(t, m1, Stored(ParentOf(t, x).value), NavObject(x))
    else m1
  }

  /** `setNavigationSelectedItem` only adds and overwrites entries: every id of `m` stays. */
  lemma {:induction false} RecordChainGrows(t: Tree, m: NavMap, x: Item, item: NavItem)
    requires WellFormed(t) && ValidItem(t, x)
    ensures var r := RecordChain(t, m, x, item);
      IdOf(t, x) in r && forall id :: id in m ==> id in r
    decreases Depth(x)
  {
    ParentInArena(t, x);
    var m1 := m[IdOf(t, x) := item];
    if IsPartOfNavigation(t, x) && ParentOf(t, x).Some? {
      RecordChainGrows(t, m1, Stored(ParentOf(t, x).value), NavObject(x));
    }
  }

  /** The ids of the objects of a chain. */
  function ChainIds(t: Tree, chain: seq<Item>): seq<string>
    requires forall k :: 0 <= k < |chain| ==> ValidItem(t, chain[k])
  {
    seq(|chain|, k requires 0 <= k < |chain| => IdOf(t, chain[k]))
  }

  /** What `setNavigationSelectedItem` stores for each object of the chain. */
  function ChainValues(item: NavItem, chain: seq<Item>): seq<NavItem>
  {
    seq(|chain|, k requires 0 <= k < |chain| => if k == 0 then item else NavObject(chain[k - 1]))
  }

  /** The map after writing `vs[k]` under `ks[k]`, for `k` from the first to the last. */
  function WriteAll<K, V>(m: map<K, V>, ks: seq<K>, vs: seq<V>): map<K, V>
    requires |ks| == |vs|
    decreases |ks|
  {
    if ks == [] then m else WriteAll(m[ks[0] := vs[0]], ks[1..], vs[1..])
  }

  /** Every key written is present; the last write of a key decides its value. */
  lemma {:induction false} WriteAllAt<K, V>(m: map<K, V>, ks: seq<K>, vs: seq<V>, k: nat)
    requires |ks| == |vs| && k < |ks|
    ensures ks[k] in WriteAll(m, ks, vs)
    ensures (forall j :: k < j < |ks| ==> ks[j] != ks[k]) ==> WriteAll(m, ks, vs)[ks[k]] == vs[k]
    decreases |ks|
  {
    var m1 := m[ks[0] := vs[0]];
    if k == 0 {
      if forall j :: 0 < j < |ks| ==> ks[j] != ks[0] {
        WriteAllOff(m1, ks[1..], vs[1..], ks[0]);
      } else {
        WriteAllOff(m1, ks[1..], vs[1..], ks[0]);
        WriteAllKeeps(m1, ks[1..], vs[1..], ks[0]);
      }
    } else {
      WriteAllAt(m1, ks[1..], vs[1..], k - 1);
    }
  }

  /** A key already present stays present. */
  lemma {:induction false} WriteAllKeeps<K, V>(m: map<K, V>, ks: seq<K>, vs: seq<V>, key: K)
    requires |ks| == |vs| && key in m
    ensures key in WriteAll(m, ks, vs)
    decreases |ks|
  {
    if ks != [] {
      WriteAllKeeps(m[ks[0] := vs[0]], ks[1..], vs[1..], key);
    }
  }

  /** A key that is never written keeps its entry, or its absence. */
  lemma {:induction false} WriteAllOff<K, V>(m: map<K, V>, ks: seq<K>, vs: seq<V>, key: K)
    requires |ks| == |vs|
    ensures (forall j :: 0 <= j < |ks| ==> ks[j] != key) ==>
      (key in WriteAll(m, ks, vs) <==> key in m) && (key in m ==> WriteAll(m, ks, vs)[key] == m[key])
    decreases |ks|
  {
    if ks != [] && forall j :: 0 <= j < |ks| ==> ks[j] != key {
      assert forall j :: 0 <= j < |ks| - 1 ==> ks[1..][j] == ks[j + 1];
      WriteAllOff(m[ks[0] := vs[0]], ks[1..], vs[1..], key);
    }
  }

  /** `setNavigationSelectedItem` writes, up the chain, `item` and then each object below. */
  lemma {:induction false} RecordChainIsWrite(t: Tree, m: NavMap, x: Item, item: NavItem)
    requires WellFormed(t) && ValidItem(t, x)
    ensures RecordChain(t, m, x, item)
      == WriteAll(m, ChainIds(t, NavChain(t, x)), ChainValues(item, NavChain(t, x)))
    decreases Depth(x)
  {
    ParentInArena(t, x);
    var chain := NavChain(t, x);
    var ids, vs := ChainIds(t, chain), ChainValues(item, chain);
    var m1 := m[IdOf(t, x) := item];
    if IsPartOfNavigation(t, x) && ParentOf(t, x).Some? {
      var p := Stored(ParentOf(t, x).value);
      var rest := NavChain(t, p);
      assert chain == [x] + rest;
      RecordChainIsWrite(t, m1, p, NavObject(x));
      ChainTail(t, x, rest, item);
    } else {
      assert ids[1..] == [] && vs[1..] == [];
    }
  }

  /** The ids and values of a chain after its first object are those of the rest of the chain. */
  lemma ChainTail(t: Tree, x: Item, rest: seq<Item>, item: NavItem)
    requires ValidItem(t, x) && forall k :: 0 <= k < |rest| ==> ValidItem(t, rest[k])
    ensures ChainIds(t, [x] + rest)[1..] == ChainIds(t, rest)
    ensures ChainValues(item, [x] + rest)[1..] == ChainValues(NavObject(x), rest)
  {
    var chain := [x] + rest;
    assert forall k :: 0 <= k < |rest| ==> chain[k + 1] == rest[k];
  }

  /** An id that no object of the chain has keeps its entry, or its absence. */
  lemma RecordChainOffChain(t: Tree, m: NavMap, x: Item, item: NavItem, id: string)
    requires WellFormed(t) && ValidItem(t, x)
    requires forall k :: 0 <= k < |NavChain(t, x)| ==> IdOf(t, NavChain(t, x)[k]) != id
    ensures var r := RecordChain(t, m, x, item);
      (id in r <==> id in m) && (id in m ==> r[id] == m[id])
  {
    var chain := NavChain(t, x);
    RecordChainIsWrite(t, m, x, item);
    WriteAllOff(m, ChainIds(t, chain), ChainValues(item, chain), id);
  }

  /**
   * Every object of the chain gets an entry; where no later object of the chain has the same id,
   * it holds what this write stored: `item` for `x`, the object below for an ancestor.
   */
  lemma RecordChainOnChain(t: Tree, m: NavMap, x: Item, item: NavItem, k: nat)
    requires WellFormed(t) && ValidItem(t, x) && k < |NavChain(t, x)|
    ensures var chain := NavChain(t, x);
      var r := RecordChain(t, m, x, item);
      IdOf(t, chain[k]) in r
      && ((forall j :: k < j < |chain| ==> IdOf(t, chain[j]) != IdOf(t, chain[k])) ==>
            r[IdOf(t, chain[k])] == if k == 0 then item else NavObject(chain[k - 1]))
  {
    var chain := NavChain(t, x);
    RecordChainIsWrite(t, m, x, item);
    WriteAllAt(m, ChainIds(t, chain), ChainValues(item, chain), k);
  }

  // ---------------------------------------------------------------------------
  // selectedObject

  /** The outcome of the downward walk of `selectedObject`, or the fuel running out. */
  datatype Walk = Reached(selected: Option<Item>) | OutOfFuel

  /**
   * The walk of `selectedObject` from `x`: follow selected objects down until an object has
   * none (it is the answer) or the selection is an adapter (its selected object is the answer).
   * The source loops without bound; `fuel` bounds the number of steps.
   */
  function Follow(t: Tree, m: NavMap, sel: AdapterSelection, x: Item, fuel: nat): Walk
    requires WellFormed(t) && ValidItem(t, x) && MapValid(t, m)
    decreases fuel
  {
    if fuel == 0 then OutOfFuel
    else
      match GetNavigationSelectedItem(t, m, x)
      case None => Reached(Some(x))
      case Some(NavAdapter(a)) => Reached(if a in sel then Some(sel[a]) else None)
      case Some(NavObject(y)) => Follow(t, m, sel, y, fuel - 1)
  }

  /** Once the walk ends within some fuel, more fuel gives the same answer. */
  lemma {:induction false} FollowFuelMonotone(t: Tree, m: NavMap, sel: AdapterSelection, x: Item, fuel: nat, more: nat)
    requires WellFormed(t) && ValidItem(t, x) && MapValid(t, m)
    requires fuel <= more && Follow(t, m, sel, x, fuel).Reached?
    ensures Follow(t, m, sel, x, more) == Follow(t, m, sel, x, fuel)
    decreases fuel
  {
    assert 0 < fuel <= more;
    match GetNavigationSelectedItem(t, m, x)
    case None =>
      assert Follow(t, m, sel, x, fuel) == Reached(Some(x));
      assert Follow(t, m, sel, x, more) == Reached(Some(x));
    case Some(NavAdapter(a)) =>
      assert Follow(t, m, sel, x, fuel) == Reached(if a in sel then Some(sel[a]) else None);
      assert Follow(t, m, sel, x, more) == Reached(if a in sel then Some(sel[a]) else None);
    case Some(NavObject(y)) =>
      FollowObjectStep(t, m, sel, x, y, fuel);
      FollowObjectStep(t, m, sel, x, y, more);
      FollowFuelMonotone(t, m, sel, y, fuel - 1, more - 1);
  }

  /** A step of the walk to the selected object `y` continues from `y` with one unit less fuel. */
  lemma FollowObjectStep(t: Tree, m: NavMap, sel: AdapterSelection, x: Item, y: Item, fuel: nat)
    requires WellFormed(t) && ValidItem(t, x) && MapValid(t, m) && 0 < fuel
    requires GetNavigationSelectedItem(t, m, x) == Some(NavObject(y))
    ensures ValidItem(t, y) && Follow(t, m, sel, x, fuel) == Follow(t, m, sel, y, fuel - 1)
  {
  }

  /** The selected object is one with no selection of its own, unless an adapter reported it. */
  lemma {:induction false} FollowLands(t: Tree, m: NavMap, sel: AdapterSelection, x: Item, fuel: nat)
    requires WellFormed(t) && ValidItem(t, x) && MapValid(t, m) && SelectionValid(t, sel)
    ensures var w := Follow(t, m, sel, x, fuel);
      w.Reached? && w.selected.Some? ==>
        ValidItem(t, w.selected.value)
        && (GetNavigationSelectedItem(t, m, w.selected.value).None? || w.selected.value in sel.Values)
    decreases fuel
  {
    if fuel > 0 {
      match GetNavigationSelectedItem(t, m, x)
      case None =>
        assert Follow(t, m, sel, x, fuel) == Reached(Some(x));
      case Some(NavAdapter(a)) =>
        assert Follow(t, m, sel, x, fuel) == Reached(if a in sel then Some(sel[a]) else None);
        if a in sel {
          assert sel[a] in sel.Values;
        }
      case Some(NavObject(y)) =>
        FollowObjectStep(t, m, sel, x, y, fuel);
        FollowLands(t, m, sel, y, fuel - 1);
    }
  }

  // ---------------------------------------------------------------------------
  // setSelection

  /** No node from `a` up to the root has an adapter stored. */
  predicate NoAdapterUp(t: Tree, m: NavMap, a: nat)
    requires WellFormed(t) && a < |t.nodes|
  {
    forall k :: 0 <= k < |AncestorChain(t, a)| ==> !HasAdapter(t, m, Stored(AncestorChain(t, a)[k]))
  }

  /** The first loop of `setSelection` from node `a` up: the adapter of the first node with one. */
  function AdapterFrom(t: Tree, m: NavMap, a: nat): (r: Option<nat>)
    requires WellFormed(t) && a < |t.nodes| && MapValid(t, m)
    ensures r.None? <==> NoAdapterUp(t, m, a)
    decreases a
  {
    assert NodeOk(t, a);
    match GetNavigationSelectedItem(t, m, Stored(a))
    case Some(NavAdapter(b)) =>
      assert HasAdapter(t, m, Stored(AncestorChain(t, a)[0]));
      Some(b)
    case _ =>
      assert !HasAdapter(t, m, Stored(a));
      match t.nodes[a].parent
      case None => None
      case Some(g) =>
        var r := AdapterFrom(t, m, g);
        NoAdapterUpFrom(t, m, a, g);
        r
  }

  /** Without an adapter at `a`, no node from `a` up has one exactly when none from its parent `g` up has. */
  lemma NoAdapterUpFrom(t: Tree, m: NavMap, a: nat, g: nat)
    requires WellFormed(t) && a < |t.nodes| && t.nodes[a].parent == Some(g) && !HasAdapter(t, m, Stored(a))
    ensures g < a
    ensures NoAdapterUp(t, m, a) <==> NoAdapterUp(t, m, g)
  {
    assert NodeOk(t, a);
    var chain := AncestorChain(t, a);
    var up := AncestorChain(t, g);
    assert chain == [a] + up;
    assert forall k :: 1 <= k < |chain| ==> chain[k] == up[k - 1];
    assert forall k :: 0 <= k < |up| ==> up[k] == chain[k + 1];
  }

  /** An adapter stored for some proper ancestor of `x`, as the first loop looks for it. */
  function AdapterAbove(t: Tree, m: NavMap, x: Item): Option<nat>
    requires WellFormed(t) && ValidItem(t, x) && MapValid(t, m)
  {
    ParentInArena(t, x);
    match ParentOf(t, x)
    case None => None
    case Some(p) => AdapterFrom(t, m, p)
  }

  /** Removing adapters from the map never makes one appear above a node. */
  lemma AdapterFromFewer(t: Tree, m: NavMap, m1: NavMap, a: nat)
    requires WellFormed(t) && a < |t.nodes| && MapValid(t, m) && MapValid(t, m1) && NoNewAdapters(m, m1)
    ensures AdapterFrom(t, m, a).None? ==> AdapterFrom(t, m1, a).None?
  {
    var chain := AncestorChain(t, a);
    if AdapterFrom(t, m, a).None? {
      forall k | 0 <= k < |chain| ensures !HasAdapter(t, m1, Stored(chain[k])) {
        assert !HasAdapter(t, m, Stored(chain[k]));
      }
    }
  }

  /** The second loop of `setSelection`, from `iter` up, on the map and the adapter calls. */
  function Settle(t: Tree, m: NavMap, calls: seq<SelectCall>, iter: Item, selection: seq<Item>): (r: (NavMap, seq<SelectCall>))
    requires WellFormed(t) && ValidItem(t, iter) && MapValid(t, m)
    ensures MapValid(t, r.0)
    decreases Depth(iter)
  {
    ParentInArena(t, iter);
    match ParentOf(t, iter)
    case None => (m, calls)
    case Some(p) =>
      assert NodeOk(t, p);
      var gp := t.nodes[p].parent;
      var step :=
        if gp.Some? && IsArray(t, Stored(gp.value)) then (m, calls)
        else match GetNavigationSelectedItem(t, m, Stored(p))
          case Some(NavAdapter(a)) => (m, calls + [SelectCall(a, selection)])
          case _ => (RecordChain(t, m, Stored(p), NavObject(iter)), calls);
      Settle(t, step.0, step.1, Stored(p), selection)
  }

  /**
   * `setSelection(selection)`: nothing for an empty selection; the nearest adapter above the
   * first object is told to select them all; otherwise each ancestor not under an array records
   * the object below it on the way up.
   */
  function SetSelectionSpec(t: Tree, m: NavMap, calls: seq<SelectCall>, selection: seq<Item>): (NavMap, seq<SelectCall>)
    requires WellFormed(t) && MapValid(t, m)
    requires forall i :: 0 <= i < |selection| ==> ValidItem(t, selection[i])
  {
    if selection == [] then (m, calls)
    else
      match AdapterAbove(t, m, selection[0])
      case Some(a) => (m, calls + [SelectCall(a, selection)])
      case None => Settle(t, m, calls, selection[0], selection)
  }

  /** With no adapter above `iter`, the second loop calls no adapter and adds none to the map. */
  lemma {:induction false} SettleCallsNoAdapter(t: Tree, m: NavMap, calls: seq<SelectCall>, iter: Item, selection: seq<Item>)
    requires WellFormed(t) && ValidItem(t, iter) && MapValid(t, m)
    requires AdapterAbove(t, m, iter).None?
    ensures Settle(t, m, calls, iter, selection).1 == calls
    ensures NoNewAdapters(m, Settle(t, m, calls, iter, selection).0)
    decreases Depth(iter)
  {
    ParentInArena(t, iter);
    match ParentOf(t, iter)
    case None =>
    case Some(p) =>
      assert NodeOk(t, p);
      assert AncestorChain(t, p)[0] == p;
      assert !HasAdapter(t, m, Stored(p));
      var gp := t.nodes[p].parent;
      var m1 :=
        if gp.Some? && IsArray(t, Stored(gp.value)) then m
        else RecordChain(t, m, Stored(p), NavObject(iter));
      assert NoNewAdapters(m, m1);
      assert AdapterAbove(t, m1, Stored(p)).None? by {
        match gp
        case None =>
        case Some(g) =>
          assert AncestorChain(t, p) == [p] + AncestorChain(t, g);
          assert AdapterFrom(t, m, g).None?;
          AdapterFromFewer(t, m, m1, g);
      }
      SettleCallsNoAdapter(t, m1, calls, Stored(p), selection);
  }

  /**
   * `setSelection` calls `selectObjects` at most once, only on the nearest adapter above the
   * first object and with the whole selection, and never stores an adapter in the map.
   */
  lemma SetSelectionCallsOnce(t: Tree, m: NavMap, calls: seq<SelectCall>, selection: seq<Item>)
    requires WellFormed(t) && MapValid(t, m)
    requires forall i :: 0 <= i < |selection| ==> ValidItem(t, selection[i])
    ensures var r := SetSelectionSpec(t, m, calls, selection);
      NoNewAdapters(m, r.0)
      && (selection == [] || AdapterAbove(t, m, selection[0]).None? ==> r.1 == calls)
      && (selection != [] && AdapterAbove(t, m, selection[0]).Some? ==>
            r == (m, calls + [SelectCall(AdapterAbove(t, m, selection[0]).value, selection)]))
  {
    if selection != [] && AdapterAbove(t, m, selection[0]).None? {
      SettleCallsNoAdapter(t, m, calls, selection[0], selection);
    }
  }

  /** The objects `setNavigationSelectedItem` records are the first ones of the ancestor chain. */
  lemma {:induction false} NavChainPrefix(t: Tree, x: Item)
    requires WellFormed(t) && ValidItem(t, x)
    ensures |NavChain(t, x)| <= |ItemChain(t, x)|
    ensures forall k :: 0 <= k < |NavChain(t, x)| ==> NavChain(t, x)[k] == ItemChain(t, x)[k]
    decreases Depth(x)
  {
    ParentInArena(t, x);
    if IsPartOfNavigation(t, x) && ParentOf(t, x).Some? {
      var p := Stored(ParentOf(t, x).value);
      NavChainPrefix(t, p);
      ChainsCons(t, x);
      ConsPrefix(x, NavChain(t, p), ItemChain(t, p));
    }
  }

  /** One step of both chains above an object that takes part in navigation. */
  lemma ChainsCons(t: Tree, x: Item)
    requires WellFormed(t) && ValidItem(t, x) && IsPartOfNavigation(t, x) && ParentOf(t, x).Some?
    ensures ParentOf(t, x).value < |t.nodes|
    ensures NavChain(t, x) == [x] + NavChain(t, Stored(ParentOf(t, x).value))
    ensures ItemChain(t, x) == [x] + ItemChain(t, Stored(ParentOf(t, x).value))
  {
    ParentInArena(t, x);
  }

  /** Putting the same element in front keeps one sequence a prefix of another. */
  lemma ConsPrefix(x: Item, a: seq<Item>, b: seq<Item>)
    requires |a| <= |b| && forall k :: 0 <= k < |a| ==> a[k] == b[k]
    ensures |[x] + a| <= |[x] + b| && forall k :: 0 <= k < |[x] + a| ==> ([x] + a)[k] == ([x] + b)[k]
  {
    forall k | 0 < k < |[x] + a| ensures ([x] + a)[k] == ([x] + b)[k] {
      assert ([x] + a)[k] == a[k - 1] && ([x] + b)[k] == b[k - 1];
    }
  }

  /** No two objects of the chain share an id. */
  predicate DistinctIds(t: Tree, chain: seq<Item>)
    requires forall k :: 0 <= k < |chain| ==> ValidItem(t, chain[k])
  {
    forall i, j :: 0 <= i < j < |chain| ==> IdOf(t, chain[i]) != IdOf(t, chain[j])
  }

  /** No proper ancestor on the chain has the id. */
  predicate AboveWithout(t: Tree, chain: seq<Item>, id: string)
    requires forall k :: 0 <= k < |chain| ==> ValidItem(t, chain[k])
  {
    forall k :: 0 < k < |chain| ==> IdOf(t, chain[k]) != id
  }

  /** The second loop skips node `p`: its parent is an array. */
  predicate UnderArray(t: Tree, p: nat)
    requires WellFormed(t) && p < |t.nodes|
  {
    assert NodeOk(t, p);
    var gp := t.nodes[p].parent;
    gp.Some? && IsArray(t, Stored(gp.value))
  }

  /** The second loop skips this object of the chain. */
  predicate Skipped(t: Tree, x: Item)
    requires WellFormed(t) && ValidItem(t, x)
  {
    x.Stored? && UnderArray(t, x.ref)
  }

  /** The second loop of `setSelection` writes only ids of proper ancestors of `iter`. */
  lemma {:induction false} SettleOff(t: Tree, m: NavMap, calls: seq<SelectCall>, iter: Item, selection: seq<Item>, id: string)
    requires WellFormed(t) && ValidItem(t, iter) && MapValid(t, m)
    requires AboveWithout(t, ItemChain(t, iter), id)
    ensures var r := Settle(t, m, calls, iter, selection).0;
      (id in r <==> id in m) && (id in m ==> r[id] == m[id])
    decreases Depth(iter)
  {
    ParentInArena(t, iter);
    match ParentOf(t, iter)
    case None =>
    case Some(p) =>
      assert NodeOk(t, p);
      AboveShift(t, iter, id);
      var gp := t.nodes[p].parent;
      var step :=
        if gp.Some? && IsArray(t, Stored(gp.value)) then (m, calls)
        else match GetNavigationSelectedItem(t, m, Stored(p))
          case Some(NavAdapter(a)) => (m, calls + [SelectCall(a, selection)])
          case _ => (RecordChain(t, m, Stored(p), NavObject(iter)), calls);
      if step.0 != m {
        NavChainAvoids(t, Stored(p), id);
        RecordChainOffChain(t, m, Stored(p), NavObject(iter), id);
      }
      SettleOff(t, step.0, step.1, Stored(p), selection, id);
  }

  /** No object of the chain has the id. */
  predicate Avoids(t: Tree, chain: seq<Item>, id: string)
    requires forall k :: 0 <= k < |chain| ==> ValidItem(t, chain[k])
  {
    forall k :: 0 <= k < |chain| ==> IdOf(t, chain[k]) != id
  }

  /** An id no proper ancestor of `iter` has is on no object of its parent's chain. */
  lemma AboveShift(t: Tree, iter: Item, id: string)
    requires WellFormed(t) && ValidItem(t, iter) && ParentOf(t, iter).Some?
    requires AboveWithout(t, ItemChain(t, iter), id)
    ensures ParentOf(t, iter).value < |t.nodes|
    ensures var rest := ItemChain(t, Stored(ParentOf(t, iter).value));
      Avoids(t, rest, id) && AboveWithout(t, rest, id)
  {
    ParentInArena(t, iter);
    var chain, rest := ItemChain(t, iter), ItemChain(t, Stored(ParentOf(t, iter).value));
    assert chain == [iter] + rest;
    forall k | 0 <= k < |rest| ensures IdOf(t, rest[k]) != id {
      assert rest[k] == chain[k + 1];
    }
  }

  /** An id on no object of the ancestor chain is on none of the objects `setNavigationSelectedItem` records. */
  lemma {:induction false} NavChainAvoids(t: Tree, x: Item, id: string)
    requires WellFormed(t) && ValidItem(t, x) && Avoids(t, ItemChain(t, x), id)
    ensures Avoids(t, NavChain(t, x), id)
    decreases Depth(x)
  {
    ParentInArena(t, x);
    if IsPartOfNavigation(t, x) && ParentOf(t, x).Some? {
      var p := Stored(ParentOf(t, x).value);
      ChainsCons(t, x);
      ConsAvoids(t, x, ItemChain(t, p), id);
      NavChainAvoids(t, p, id);
      ConsAvoids(t, x, NavChain(t, p), id);
    } else {
      assert NavChain(t, x) == [x] && ItemChain(t, x)[0] == x;
    }
  }

  /** `[x] + chain` avoids the id exactly when `x` and `chain` do. */
  lemma ConsAvoids(t: Tree, x: Item, chain: seq<Item>, id: string)
    requires ValidItem(t, x) && forall k :: 0 <= k < |chain| ==> ValidItem(t, chain[k])
    ensures Avoids(t, [x] + chain, id) <==> IdOf(t, x) != id && Avoids(t, chain, id)
  {
    var c := [x] + chain;
    assert c[0] == x;
    assert forall k :: 0 <= k < |chain| ==> c[k + 1] == chain[k];
  }

  /**
   * With no adapter above `iter` and no id shared on its ancestor chain, the second loop leaves
   * every ancestor it does not skip holding the object just below it on the chain.
   */
  lemma {:induction false} SettleOn(t: Tree, m: NavMap, calls: seq<SelectCall>, iter: Item, selection: seq<Item>, k: nat)
    requires WellFormed(t) && ValidItem(t, iter) && MapValid(t, m)
    requires AdapterAbove(t, m, iter).None? && DistinctIds(t, ItemChain(t, iter))
    requires 0 < k < |ItemChain(t, iter)| && !Skipped(t, ItemChain(t, iter)[k])
    ensures var chain := ItemChain(t, iter);
      var r := Settle(t, m, calls, iter, selection).0;
      IdOf(t, chain[k]) in r && r[IdOf(t, chain[k])] == NavObject(chain[k - 1])
    decreases Depth(iter)
  {
    if k == 1 {
      SettleOnFirst(t, m, calls, iter, selection);
    } else {
      ParentInArena(t, iter);
      var p := ParentOf(t, iter).value;
      var chain, rest := ItemChain(t, iter), ItemChain(t, Stored(p));
      SettleStepNoAdapter(t, m, calls, iter, selection);
      ChainShift(t, iter);
      assert rest[k - 1] == chain[k] && rest[k - 2] == chain[k - 1];
      SettleOn(t, SettleStepMap(t, m, iter), calls, Stored(p), selection, k - 1);
    }
  }

  /** The case of `SettleOn` for the parent of `iter`. */
  lemma SettleOnFirst(t: Tree, m: NavMap, calls: seq<SelectCall>, iter: Item, selection: seq<Item>)
    requires WellFormed(t) && ValidItem(t, iter) && MapValid(t, m)
    requires AdapterAbove(t, m, iter).None? && DistinctIds(t, ItemChain(t, iter))
    requires 1 < |ItemChain(t, iter)| && !Skipped(t, ItemChain(t, iter)[1])
    ensures var chain := ItemChain(t, iter);
      var r := Settle(t, m, calls, iter, selection).0;
      IdOf(t, chain[1]) in r && r[IdOf(t, chain[1])] == NavObject(chain[0])
  {
    ParentInArena(t, iter);
    var p := ParentOf(t, iter).value;
    var chain, rest := ItemChain(t, iter), ItemChain(t, Stored(p));
    ChainShift(t, iter);
    assert chain[1] == Stored(p);
    SettleStepNoAdapter(t, m, calls, iter, selection);
    NavChainPrefix(t, Stored(p));
    var nav := NavChain(t, Stored(p));
    forall j | 0 < j < |nav| ensures IdOf(t, nav[j]) != IdOf(t, nav[0]) {
      assert nav[j] == rest[j] && nav[0] == rest[0];
    }
    RecordChainOnChain(t, m, Stored(p), NavObject(iter), 0);
    SettleOff(t, SettleStepMap(t, m, iter), calls, Stored(p), selection, IdOf(t, Stored(p)));
  }

  /** The ancestor chain of `iter` is `iter` followed by its parent's, which keeps distinct ids. */
  lemma ChainShift(t: Tree, iter: Item)
    requires WellFormed(t) && ValidItem(t, iter) && ParentOf(t, iter).Some?
    requires DistinctIds(t, ItemChain(t, iter))
    ensures ParentOf(t, iter).value < |t.nodes|
    ensures var rest := ItemChain(t, Stored(ParentOf(t, iter).value));
      ItemChain(t, iter) == [iter] + rest && DistinctIds(t, rest) && AboveWithout(t, rest, IdOf(t, rest[0]))
  {
    ParentInArena(t, iter);
    var p := ParentOf(t, iter).value;
    var chain, rest := ItemChain(t, iter), ItemChain(t, Stored(p));
    assert chain == [iter] + rest;
    forall i, j | 0 <= i < j < |rest| ensures IdOf(t, rest[i]) != IdOf(t, rest[j]) {
      assert rest[i] == chain[i + 1] && rest[j] == chain[j + 1];
    }
  }

  /** The map after the second loop's pass at the parent of `iter`, when no adapter is above it. */
  function SettleStepMap(t: Tree, m: NavMap, iter: Item): NavMap
    requires WellFormed(t) && ValidItem(t, iter) && MapValid(t, m) && ParentOf(t, iter).Some?
  {
    ParentInArena(t, iter);
    var p := ParentOf(t, iter).value;
    if UnderArray(t, p) then m else RecordChain(t, m, Stored(p), NavObject(iter))
  }

  /**
   * With no adapter above `iter`, the pass at its parent records through `setNavigationSelectedItem`
   * (or skips), makes no call, and leaves no adapter above the parent.
   */
  lemma SettleStepNoAdapter(t: Tree, m: NavMap, calls: seq<SelectCall>, iter: Item, selection: seq<Item>)
    requires WellFormed(t) && ValidItem(t, iter) && MapValid(t, m)
    requires AdapterAbove(t, m, iter).None? && ParentOf(t, iter).Some?
    ensures ParentOf(t, iter).value < |t.nodes|
    ensures var p := ParentOf(t, iter).value;
      var m1 := SettleStepMap(t, m, iter);
      MapValid(t, m1) && AdapterAbove(t, m1, Stored(p)).None?
      && Settle(t, m, calls, iter, selection) == Settle(t, m1, calls, Stored(p), selection)
  {
    ParentInArena(t, iter);
    var p := ParentOf(t, iter).value;
    assert NodeOk(t, p);
    assert AncestorChain(t, p)[0] == p;
    assert !HasAdapter(t, m, Stored(p));
    var gp := t.nodes[p].parent;
    var m1 := SettleStepMap(t, m, iter);
    assert NoNewAdapters(m, m1);
    assert AdapterAbove(t, m1, Stored(p)).None? by {
      match gp
      case None =>
      case Some(g) =>
        assert AncestorChain(t, p) == [p] + AncestorChain(t, g);
        assert AdapterFrom(t, m, g).None?;
        AdapterFromFewer(t, m, m1, g);
    }
  }

  /**
   * `setSelection` without an adapter above the first selected object: every ancestor the second
   * loop does not skip records the object below it, and ids off the ancestor chain keep their entries.
   */
  lemma SetSelectionRecords(t: Tree, m: NavMap, calls: seq<SelectCall>, selection: seq<Item>)
    requires WellFormed(t) && MapValid(t, m)
    requires forall i :: 0 <= i < |selection| ==> ValidItem(t, selection[i])
    requires selection != [] && AdapterAbove(t, m, selection[0]).None?
    requires DistinctIds(t, ItemChain(t, selection[0]))
    ensures var chain := ItemChain(t, selection[0]);
      var r := SetSelectionSpec(t, m, calls, selection).0;
      (forall k :: 0 < k < |chain| && !Skipped(t, chain[k]) ==>
        IdOf(t, chain[k]) in r && r[IdOf(t, chain[k])] == NavObject(chain[k - 1]))
      && forall id :: AboveWithout(t, chain, id) ==> (id in r <==> id in m) && (id in m ==> r[id] == m[id])
  {
    var chain := ItemChain(t, selection[0]);
    var r := Settle(t, m, calls, selection[0], selection).0;
    assert SetSelectionSpec(t, m, calls, selection).0 == r;
    forall k | 0 < k < |chain| && !Skipped(t, chain[k])
      ensures IdOf(t, chain[k]) in r && r[IdOf(t, chain[k])] == NavObject(chain[k - 1])
    {
      SettleOn(t, m, calls, selection[0], selection, k);
    }
    forall id | AboveWithout(t, chain, id)
      ensures (id in r <==> id in m) && (id in m ==> r[id] == m[id])
    {
      SettleOff(t, m, calls, selection[0], selection, id);
    }
  }


  // ---------------------------------------------------------------------------
  // isSelected

  /** The check `isSelected(x)` makes at `p`, the parent of `iter` on the way up from `x`. */
  predicate SelectedAt(t: Tree, m: NavMap, sel: AdapterSelection, x: Item, iter: Item, p: nat)
    requires WellFormed(t) && p < |t.nodes| && MapValid(t, m)
  {
    assert NodeOk(t, p);
    var gp := t.nodes[p].parent;
    !t.nodes[p].classInfo.hasNavigationComponent
    || (gp.Some? && IsArray(t, Stored(gp.value)))
    || match GetNavigationSelectedItem(t, m, Stored(p))
       case Some(NavAdapter(a)) => a in sel && SameObject(sel[a], x)
       case Some(NavObject(y)) => SameObject(y, iter)
       case None => false
  }

  /** What the loop of `isSelected(x)` computes from `iter` up. */
  predicate SelectedFrom(t: Tree, m: NavMap, sel: AdapterSelection, x: Item, iter: Item)
    requires WellFormed(t) && ValidItem(t, iter) && MapValid(t, m)
    decreases Depth(iter)
  {
    ParentInArena(t, iter);
    match ParentOf(t, iter)
    case None => true
    case Some(p) => SelectedAt(t, m, sel, x, iter, p) && SelectedFrom(t, m, sel, x, Stored(p))
  }

  /** `x` followed by all its ancestors, nearest first. */
  function ItemChain(t: Tree, x: Item): (chain: seq<Item>)
    requires WellFormed(t) && ValidItem(t, x)
    ensures |chain| >= 1 && chain[0] == x
    ensures forall k :: 0 <= k < |chain| ==> ValidItem(t, chain[k])
    ensures forall k :: 0 <= k < |chain| - 1 ==> ParentLink(t, chain, k)
    ensures ParentOf(t, chain[|chain| - 1]).None?
    decreases Depth(x)
  {
    ParentInArena(t, x);
    match ParentOf(t, x)
    case None => [x]
    case Some(p) =>
      var rest := ItemChain(t, Stored(p));
      var chain := [x] + rest;
      assert forall k :: 1 <= k < |chain| ==> chain[k] == rest[k - 1];
      assert forall k :: 1 <= k < |chain| - 1 ==> ParentLink(t, chain, k) == ParentLink(t, rest, k - 1);
      chain
  }

  /** The check `isSelected(x)` makes one step up the chain, at the parent of `chain[k]`. */
  predicate SelectedLink(t: Tree, m: NavMap, sel: AdapterSelection, x: Item, chain: seq<Item>, k: nat)
    requires WellFormed(t) && MapValid(t, m) && k + 1 < |chain| && ValidItem(t, chain[k + 1])
  {
    chain[k + 1].Stored? && SelectedAt(t, m, sel, x, chain[k], chain[k + 1].ref)
  }

  /** The check of `isSelected(x)` passes at every step up `chain`. */
  predicate AllLinks(t: Tree, m: NavMap, sel: AdapterSelection, x: Item, chain: seq<Item>)
    requires WellFormed(t) && MapValid(t, m) && forall k :: 0 <= k < |chain| ==> ValidItem(t, chain[k])
  {
    forall k: nat :: k < |chain| - 1 ==> SelectedLink(t, m, sel, x, chain, k)
  }

  /** `isSelected(x)` holds exactly when the check passes at every ancestor on the way up. */
  lemma {:induction false} SelectedFromAll(t: Tree, m: NavMap, sel: AdapterSelection, x: Item, iter: Item)
    requires WellFormed(t) && ValidItem(t, iter) && MapValid(t, m)
    ensures SelectedFrom(t, m, sel, x, iter) <==> AllLinks(t, m, sel, x, ItemChain(t, iter))
    decreases Depth(iter)
  {
    ParentInArena(t, iter);
    var chain := ItemChain(t, iter);
    match ParentOf(t, iter)
    case None =>
    case Some(p) =>
      SelectedFromAll(t, m, sel, x, Stored(p));
      var rest := ItemChain(t, Stored(p));
      assert chain == [iter] + rest;
      AllLinksCons(t, m, sel, x, iter, rest);
      assert SelectedFrom(t, m, sel, x, iter)
        == (SelectedAt(t, m, sel, x, iter, p) && SelectedFrom(t, m, sel, x, Stored(p)));
      assert SelectedLink(t, m, sel, x, chain, 0) == SelectedAt(t, m, sel, x, iter, p);
  }

  /** The check passes all the way up `[first] + rest` exactly when it passes at `first` and up `rest`. */
  lemma AllLinksCons(t: Tree, m: NavMap, sel: AdapterSelection, x: Item, first: Item, rest: seq<Item>)
    requires WellFormed(t) && MapValid(t, m) && ValidItem(t, first) && rest != []
    requires forall k :: 0 <= k < |rest| ==> ValidItem(t, rest[k])
    ensures forall k :: 0 <= k < |[first] + rest| ==> ValidItem(t, ([first] + rest)[k])
    ensures AllLinks(t, m, sel, x, [first] + rest)
      <==> SelectedLink(t, m, sel, x, [first] + rest, 0) && AllLinks(t, m, sel, x, rest)
  {
    var chain := [first] + rest;
    assert forall k :: 0 <= k < |rest| ==> chain[k + 1] == rest[k];
    forall k: nat | k < |rest| - 1
      ensures SelectedLink(t, m, sel, x, rest, k) == SelectedLink(t, m, sel, x, chain, k + 1)
    {
      SelectedLinkShift(t, m, sel, x, first, rest, k);
    }
    if SelectedLink(t, m, sel, x, chain, 0) && AllLinks(t, m, sel, x, rest) {
      forall k: nat | k < |chain| - 1 ensures SelectedLink(t, m, sel, x, chain, k) {
        if k > 0 {
          assert SelectedLink(t, m, sel, x, rest, k - 1);
        }
      }
    }
  }

  /** The check one step up `rest` is the check one step further up `[first] + rest`. */
  lemma SelectedLinkShift(t: Tree, m: NavMap, sel: AdapterSelection, x: Item, first: Item, rest: seq<Item>, k: nat)
    requires WellFormed(t) && MapValid(t, m) && k + 1 < |rest| && ValidItem(t, rest[k + 1])
    ensures SelectedLink(t, m, sel, x, rest, k) == SelectedLink(t, m, sel, x, [first] + rest, k + 1)
  {
    var chain := [first] + rest;
    assert chain[k + 1] == rest[k] && chain[k + 2] == rest[k + 1];
  }

  // ---------------------------------------------------------------------------
  // load

  /** A saved navigation entry: the string path of an object, or an adapter's saved state. */
  datatype SavedItem = SavedPath(path: string) | SavedState(state: nat)

  /**
   * An entry `load` keeps: its key path resolves, and its item is either an adapter state or a
   * path that resolves and differs from the key path.
   */
  predicate Kept(t: Tree, entry: (string, SavedItem))
    requires WellFormed(t)
  {
    ResolveStringPath(t, Stored(t.root), entry.0).Some?
    && match entry.1
       case SavedPath(p) => p != entry.0 && ResolveStringPath(t, Stored(t.root), p).Some?
       case SavedState(_) => true
  }

  /** The id under which a kept entry is stored: that of the object its key path resolves to. */
  function KeptId(t: Tree, entry: (string, SavedItem)): string
    requires WellFormed(t) && Kept(t, entry)
  {
    var o := ResolveStringPath(t, Stored(t.root), entry.0).value;
    ResolveStringPathValid(t, entry.0);
    IdOf(t, o)
  }

  lemma ResolveStringPathValid(t: Tree, s: string)
    requires WellFormed(t)
    ensures ResolveStringPath(t, Stored(t.root), s).Some? ==> ValidItem(t, ResolveStringPath(t, Stored(t.root), s).value)
  {
  }

  /**
   * One entry of `load`, given the number of adapters made so far: a kept entry stores its
   * object, or a new adapter numbered `next`.
   */
  function LoadEntry(t: Tree, m: NavMap, next: nat, entry: (string, SavedItem)): (r: (NavMap, nat))
    requires WellFormed(t) && MapValid(t, m)
    ensures MapValid(t, r.0)
  {
    if !Kept(t, entry) then (m, next)
    else
      var id := KeptId(t, entry);
      match entry.1
      case SavedPath(p) =>
        var y := ResolveStringPath(t, Stored(t.root), p).value;
        ResolveStringPathValid(t, p);
        (m[id := NavObject(y)], next)
      case SavedState(_) => (m[id := NavAdapter(next)], next + 1)
  }

  /** The map `load` builds from the saved entries, in order, with adapters numbered from `next`. */
  function LoadAll(t: Tree, m: NavMap, next: nat, entries: seq<(string, SavedItem)>): (r: (NavMap, nat))
    requires WellFormed(t) && MapValid(t, m)
    ensures MapValid(t, r.0)
    decreases |entries|
  {
    if entries == [] then (m, next)
    else
      var s := LoadEntry(t, m, next, entries[0]);
      LoadAll(t, s.0, s.1, entries[1..])
  }

  /** The ids `load` stores are exactly those of the kept entries. */
  lemma {:induction false} LoadKeys(t: Tree, m: NavMap, next: nat, entries: seq<(string, SavedItem)>, id: string)
    requires WellFormed(t) && MapValid(t, m)
    ensures id in LoadAll(t, m, next, entries).0 <==>
      id in m || exists i :: 0 <= i < |entries| && Kept(t, entries[i]) && KeptId(t, entries[i]) == id
    decreases |entries|
  {
    if entries != [] {
      var s := LoadEntry(t, m, next, entries[0]);
      LoadKeys(t, s.0, s.1, entries[1..], id);
      assert forall i :: 1 <= i < |entries| ==> entries[i] == entries[1..][i - 1];
      if exists i :: 0 <= i < |entries| && Kept(t, entries[i]) && KeptId(t, entries[i]) == id {
        var i :| 0 <= i < |entries| && Kept(t, entries[i]) && KeptId(t, entries[i]) == id;
        if i > 0 {
          assert entries[1..][i - 1] == entries[i];
        }
      }
    }
  }

  /**
   * The value `load` stores for the id of a kept entry that no later kept entry shares: the object
   * its item path resolves to, or the adapter made for it, numbered after those of the entries before.
   */
  lemma {:induction false} LoadValue(t: Tree, m: NavMap, next: nat, entries: seq<(string, SavedItem)>, i: nat)
    requires WellFormed(t) && MapValid(t, m)
    requires i < |entries| && Kept(t, entries[i])
    requires forall j :: i < j < |entries| && Kept(t, entries[j]) ==> KeptId(t, entries[j]) != KeptId(t, entries[i])
    ensures var r := LoadAll(t, m, next, entries).0;
      var id := KeptId(t, entries[i]);
      id in r
      && (entries[i].1.SavedPath? ==>
        r[id] == NavObject(ResolveStringPath(t, Stored(t.root), entries[i].1.path).value))
      && (entries[i].1.SavedState? ==> r[id] == NavAdapter(LoadAll(t, m, next, entries[..i]).1))
    decreases i, 1
  {
    if i == 0 {
      LoadValueFirst(t, m, next, entries);
      assert entries[..0] == [];
    } else {
      LoadValueLater(t, m, next, entries, i);
    }
  }

  /** The first entry's value survives the rest of `load`. */
  lemma LoadValueFirst(t: Tree, m: NavMap, next: nat, entries: seq<(string, SavedItem)>)
    requires WellFormed(t) && MapValid(t, m)
    requires 0 < |entries| && Kept(t, entries[0])
    requires forall j :: 0 < j < |entries| && Kept(t, entries[j]) ==> KeptId(t, entries[j]) != KeptId(t, entries[0])
    ensures var r := LoadAll(t, m, next, entries).0;
      var id := KeptId(t, entries[0]);
      id in r
      && (entries[0].1.SavedPath? ==>
        r[id] == NavObject(ResolveStringPath(t, Stored(t.root), entries[0].1.path).value))
      && (entries[0].1.SavedState? ==> r[id] == NavAdapter(next))
  {
    var s := LoadEntry(t, m, next, entries[0]);
    LoadUntouched(t, s.0, s.1, entries[1..], KeptId(t, entries[0]));
  }

  /** A later entry's value: what `load` stores for it after the first entry has been processed. */
  lemma {:induction false} LoadValueLater(t: Tree, m: NavMap, next: nat, entries: seq<(string, SavedItem)>, i: nat)
    requires WellFormed(t) && MapValid(t, m)
    requires 0 < i < |entries| && Kept(t, entries[i])
    requires forall j :: i < j < |entries| && Kept(t, entries[j]) ==> KeptId(t, entries[j]) != KeptId(t, entries[i])
    ensures var r := LoadAll(t, m, next, entries).0;
      var id := KeptId(t, entries[i]);
      id in r
      && (entries[i].1.SavedPath? ==>
        r[id] == NavObject(ResolveStringPath(t, Stored(t.root), entries[i].1.path).value))
      && (entries[i].1.SavedState? ==> r[id] == NavAdapter(LoadAll(t, m, next, entries[..i]).1))
    decreases i, 0
  {
    var s := LoadEntry(t, m, next, entries[0]);
    LaterKeptShift(t, entries, i);
    LoadValue(t, s.0, s.1, entries[1..], i - 1);
    assert entries[1..][i - 1] == entries[i];
    assert entries[..i][0] == entries[0] && entries[..i][1..] == entries[1..][..i - 1];
  }

  /** No later kept entry shares entry `i`'s id, so no entry after `i - 1` of the tail does either. */
  lemma LaterKeptShift(t: Tree, entries: seq<(string, SavedItem)>, i: nat)
    requires WellFormed(t) && 0 < i < |entries| && Kept(t, entries[i])
    requires forall j :: i < j < |entries| && Kept(t, entries[j]) ==> KeptId(t, entries[j]) != KeptId(t, entries[i])
    ensures var rest := entries[1..];
      Kept(t, rest[i - 1])
      && forall j :: i - 1 < j < |rest| && Kept(t, rest[j]) ==> KeptId(t, rest[j]) != KeptId(t, rest[i - 1])
  {
    var rest := entries[1..];
    assert rest[i - 1] == entries[i];
    forall j | i - 1 < j < |rest| && Kept(t, rest[j])
      ensures KeptId(t, rest[j]) != KeptId(t, rest[i - 1])
    {
      assert rest[j] == entries[j + 1];
    }
  }

  /** Entries whose kept ids all differ from `id` leave its entry in the map as it was. */
  lemma {:induction false} LoadUntouched(t: Tree, m: NavMap, next: nat, entries: seq<(string, SavedItem)>, id: string)
    requires WellFormed(t) && MapValid(t, m)
    requires forall j :: 0 <= j < |entries| && Kept(t, entries[j]) ==> KeptId(t, entries[j]) != id
    ensures var r := LoadAll(t, m, next, entries).0;
      (id in r <==> id in m) && (id in m ==> r[id] == m[id])
    decreases |entries|
  {
    if entries != [] {
      var s := LoadEntry(t, m, next, entries[0]);
      assert forall j :: 0 <= j < |entries[1..]| ==> entries[1..][j] == entries[j + 1];
      LoadUntouched(t, s.0, s.1, entries[1..], id);
    }
  }

  // ---------------------------------------------------------------------------
  // The store

  class NavigationStore {
    var navigationMap: NavMap
    /** The `selectObjects` calls made on adapters, oldest first. */
    var selectCalls: seq<SelectCall>

    constructor ()
      ensures navigationMap == map[] && selectCalls == []
    {
      navigationMap := map[];
      selectCalls := [];
    }

    method SetNavigationSelectedItem(t: Tree, x: Item, item: NavItem)
      requires WellFormed(t) && ValidItem(t, x)
      modifies this
      ensures navigationMap == RecordChain(t, old(navigationMap), x, item)
      ensures selectCalls == old(selectCalls)
      decreases Depth(x)
    {
      navigationMap := navigationMap[IdOf(t, x) := item];
      if !IsPartOfNavigation(t, x) {
        return;
      }
      ParentInArena(t, x);
      var parent := ParentOf(t, x);
      if parent.Some? {
        SetNavigationSelectedItem(t, Stored(parent.value), NavObject(x));
      }
    }

    /** The computed `selectedObject`, walking at most `fuel` steps. */
    method SelectedObject(t: Tree, sel: AdapterSelection, fuel: nat) returns (r: Walk)
      requires WellFormed(t) && MapValid(t, navigationMap)
      ensures r == Follow(t, navigationMap, sel, Stored(t.root), fuel)
    {
      var current := Stored(t.root);
      var f := fuel;
      while f > 0
        invariant ValidItem(t, current)
        invariant Follow(t, navigationMap, sel, current, f) == Follow(t, navigationMap, sel, Stored(t.root), fuel)
        decreases f
      {
        var child := GetNavigationSelectedItem(t, navigationMap, current);
        if child.None? {
          return Reached(Some(current));
        }
        if child.value.NavAdapter? {
          var a := child.value.adapter;
          return Reached(if a in sel then Some(sel[a]) else None);
        }
        current := child.value.item;
        f := f - 1;
      }
      return OutOfFuel;
    }

    method SetSelection(t: Tree, selection: seq<Item>)
      requires WellFormed(t) && MapValid(t, navigationMap)
      requires forall i :: 0 <= i < |selection| ==> ValidItem(t, selection[i])
      modifies this
      ensures (navigationMap, selectCalls) == SetSelectionSpec(t, old(navigationMap), old(selectCalls), selection)
    {
      if |selection| == 0 {
        return;
      }
      var first := selection[0];
      ParentInArena(t, first);
      var ancestor: Option<nat> := ParentOf(t, first);
      while ancestor.Some?
        invariant ancestor.Some? ==> ancestor.value < |t.nodes|
        invariant AdapterAbove(t, navigationMap, first) ==
          if ancestor.Some? then AdapterFrom(t, navigationMap, ancestor.value) else None
        decreases if ancestor.Some? then ancestor.value + 1 else 0
      {
        var a := ancestor.value;
        assert NodeOk(t, a);
        var navigationItem := GetNavigationSelectedItem(t, navigationMap, Stored(a));
        if navigationItem.Some? && navigationItem.value.NavAdapter? {
          selectCalls := selectCalls + [SelectCall(navigationItem.value.adapter, selection)];
          return;
        }
        ancestor := t.nodes[a].parent;
      }
      ghost var m0 := navigationMap;
      var iter := first;
      var parent := ParentOf(t, iter);
      while parent.Some?
        invariant ValidItem(t, iter) && parent == ParentOf(t, iter) && MapValid(t, navigationMap)
        invariant Settle(t, navigationMap, selectCalls, iter, selection) == Settle(t, m0, old(selectCalls), first, selection)
        decreases Depth(iter)
      {
        ParentInArena(t, iter);
        var p := parent.value;
        assert NodeOk(t, p);
        var grandparent := t.nodes[p].parent;
        if !(grandparent.Some? && IsArray(t, Stored(grandparent.value))) {
          var navigationItem := GetNavigationSelectedItem(t, navigationMap, Stored(p));
          if navigationItem.Some? && navigationItem.value.NavAdapter? {
            selectCalls := selectCalls + [SelectCall(navigationItem.value.adapter, selection)];
          } else {
            SetNavigationSelectedItem(t, Stored(p), NavObject(iter));
          }
        }
        iter := Stored(p);
        parent := ParentOf(t, iter);
      }
    }

    method IsSelected(t: Tree, sel: AdapterSelection, x: Item) returns (b: bool)
      requires WellFormed(t) && ValidItem(t, x) && MapValid(t, navigationMap)
      ensures b == SelectedFrom(t, navigationMap, sel, x, x)
    {
      var iter := x;
      ParentInArena(t, iter);
      var parent := ParentOf(t, iter);
      while parent.Some?
        invariant ValidItem(t, iter) && parent == ParentOf(t, iter)
        invariant SelectedFrom(t, navigationMap, sel, x, x) == SelectedFrom(t, navigationMap, sel, x, iter)
        decreases Depth(iter)
      {
        ParentInArena(t, iter);
        var p := parent.value;
        assert NodeOk(t, p);
        if t.nodes[p].classInfo.hasNavigationComponent {
          var grandparent := t.nodes[p].parent;
          if !(grandparent.Some? && IsArray(t, Stored(grandparent.value))) {
            var navigationItem := GetNavigationSelectedItem(t, navigationMap, Stored(p));
            if navigationItem.Some? && navigationItem.value.NavAdapter? {
              var a := navigationItem.value.adapter;
              if !(a in sel && SameObject(sel[a], x)) {
                return false;
              }
            } else if !(navigationItem.Some? && SameObject(navigationItem.value.item, iter)) {
              return false;
            }
          }
        }
        iter := Stored(p);
        parent := ParentOf(t, iter);
      }
      return true;
    }

    method Load(t: Tree, entries: seq<(string, SavedItem)>, next: nat) returns (nextAfter: nat)
      requires WellFormed(t)
      modifies this
      ensures (navigationMap, nextAfter) == LoadAll(t, map[], next, entries)
      ensures selectCalls == old(selectCalls)
    {
      var m: NavMap := map[];
      nextAfter := next;
      for i := 0 to |entries|
        invariant MapValid(t, m) && selectCalls == old(selectCalls)
        invariant LoadAll(t, m, nextAfter, entries[i..]) == LoadAll(t, map[], next, entries)
      {
        assert entries[i..][1..] == entries[i + 1..];
        var stringPath := entries[i].0;
        var navigationObject := GetObjectFromStringPath(t, Stored(t.root), stringPath);
        ResolveStringPathValid(t, stringPath);
        if navigationObject.Some? {
          match entries[i].1 {
            case SavedPath(itemPath) =>
              if itemPath != stringPath {
                var navigationItem := GetObjectFromStringPath(t, Stored(t.root), itemPath);
                ResolveStringPathValid(t, itemPath);
                if navigationItem.Some? {
                  m := m[IdOf(t, navigationObject.value) := NavObject(navigationItem.value)];
                }
              }
            case SavedState(_) =>
              m := m[IdOf(t, navigationObject.value) := NavAdapter(nextAfter)];
              nextAfter := nextAfter + 1;
          }
        }
      }
      assert entries[|entries|..] == [];
      navigationMap := m;
    }
  }
}
