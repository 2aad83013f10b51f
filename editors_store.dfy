/**
 * The editor tab list of packages/project-editor/core/store.ts (`Editor`, `EditorsStoreClass`).
 *
 * Editors are objects whose `active` and `permanent` flags the store toggles in place, held in an
 * array the store pushes to and splices. The edited object is a reference to a node of the object
 * tree, here a `nat`. The editor-specific state object (`createEditorState`) is not modelled.
 *
 * The operations are first specified on a value view of the list (one `EditorView` per editor,
 * in order); the class methods are then proved to change the view exactly as the spec says.
 */
module Editors {
  import opened Wrappers

  /** The fields of one editor that the store reads and writes. */
  datatype EditorView = EditorView(obj: nat, active: bool, permanent: bool)

  predicate AtMostOneActive(v: seq<EditorView>) {
    forall i, j :: 0 <= i < |v| && 0 <= j < |v| && v[i].active && v[j].active ==> i == j
  }

  /** Exactly the editor at index `k` is active. */
  predicate OnlyActive(v: seq<EditorView>, k: nat) {
    forall i :: 0 <= i < |v| ==> (v[i].active <==> i == k)
  }

  /** No two editors edit the same object. */
  predicate DistinctObjects(v: seq<EditorView>) {
    forall i, j :: 0 <= i < |v| && 0 <= j < |v| && i != j ==> v[i].obj != v[j].obj
  }

  /** The invariant of the list: at most one active editor, and no object edited twice. */
  predicate TabsInv(v: seq<EditorView>) {
    AtMostOneActive(v) && DistinctObjects(v)
  }

  /** Same objects and permanence, index for index; only the active flags may differ. */
  predicate SameTabs(v: seq<EditorView>, w: seq<EditorView>) {
    |v| == |w|
    && forall i :: 0 <= i < |v| ==> v[i].obj == w[i].obj && v[i].permanent == w[i].permanent
  }

  // ---------------------------------------------------------------------------
  // The specification, on the view

  /** The computed `activeEditor`: the index of the first active editor. */
  function FirstActive(v: seq<EditorView>): (r: Option<nat>)
    ensures r.Some? ==>
      r.value < |v| && v[r.value].active && forall j :: 0 <= j < r.value ==> !v[j].active
    ensures r.None? ==> forall j :: 0 <= j < |v| ==> !v[j].active
  {
    if v == [] then None
    else if v[0].active then Some(0)
    else match FirstActive(v[1..])
      case None => None
      case Some(k) => Some(k + 1)
  }

  /** The last editor of `object`, as the loop of `openEditor` leaves `editorFound`. */
  function LastOf(v: seq<EditorView>, obj: nat): (r: Option<nat>)
    ensures r.Some? ==>
      r.value < |v| && v[r.value].obj == obj && forall j :: r.value < j < |v| ==> v[j].obj != obj
    ensures r.None? ==> forall j :: 0 <= j < |v| ==> v[j].obj != obj
  {
    if v == [] then None
    else if v[|v| - 1].obj == obj then Some(|v| - 1)
    else LastOf(v[..|v| - 1], obj)
  }

  /** The last non-permanent editor of another object, as the loop leaves `nonPermanentEditor`. */
  function LastReusable(v: seq<EditorView>, obj: nat): (r: Option<nat>)
    ensures r.Some? ==>
      r.value < |v| && v[r.value].obj != obj && !v[r.value].permanent
      && forall j :: r.value < j < |v| ==> v[j].obj == obj || v[j].permanent
    ensures r.None? ==> forall j :: 0 <= j < |v| ==> v[j].obj == obj || v[j].permanent
  {
    if v == [] then None
    else if v[|v| - 1].obj != obj && !v[|v| - 1].permanent then Some(|v| - 1)
    else LastReusable(v[..|v| - 1], obj)
  }

  /** The list after the loop of `openEditor`: the editors of `object` active, every other one not. */
  function Marked(v: seq<EditorView>, obj: nat): seq<EditorView> {
    seq(|v|, i requires 0 <= i < |v| => v[i].(active := v[i].obj == obj))
  }

  /**
   * `openEditor(object, openAsPermanentEditor)`: the new list and the index of the editor
   * returned. An editor of the object is reused; otherwise the last non-permanent editor is
   * taken over (only when not opening as permanent); otherwise a new editor is appended.
   */
  function OpenView(v: seq<EditorView>, obj: nat, permanent: bool): (seq<EditorView>, nat) {
    var marked := Marked(v, obj);
    match LastOf(v, obj)
    case Some(k) => (marked, k)
    case None =>
      var reusable := if permanent then None else LastReusable(v, obj);
      match reusable
      case Some(j) => (marked[j := EditorView(obj, true, permanent)], j)
      case None => (marked + [EditorView(obj, true, permanent)], |v|)
  }

  /**
   * `activateEditor(editor)` for the editor at index `k` (or outside the list when `k` is out of
   * range) whose own flag was `wasActive`: unless already active, the first active editor is
   * deactivated and the editor is activated.
   */
  function ActivateView(v: seq<EditorView>, k: int, wasActive: bool): seq<EditorView> {
    if wasActive then v
    else
      var d := match FirstActive(v)
        case None => v
        case Some(a) => v[a := v[a].(active := false)];
      if 0 <= k < |d| then d[k := d[k].(active := true)] else d
  }

  /**
   * `closeEditor(editor)` for the editor found at index `k` (-1 when absent): it is spliced
   * out and, when it was active, the editor now at its index is activated, or else the last one.
   */
  function CloseView(v: seq<EditorView>, k: int): seq<EditorView> {
    if !(0 <= k < |v|) then v
    else
      var rest := v[..k] + v[k + 1..];
      if !v[k].active then rest
      else if k < |rest| then ActivateView(rest, k, rest[k].active)
      else if |rest| > 0 then ActivateView(rest, |rest| - 1, rest[|rest| - 1].active)
      else rest
  }

  /** `makeActiveEditorPermanent`: the first active editor, if any, becomes permanent. */
  function MakePermanentView(v: seq<EditorView>): seq<EditorView> {
    match FirstActive(v)
    case None => v
    case Some(a) => v[a := v[a].(permanent := true)]
  }

  // ---------------------------------------------------------------------------
  // What the operations promise

  /** Opening an object that already has an editor activates exactly that editor. */
  lemma OpenExisting(v: seq<EditorView>, obj: nat, permanent: bool, k: nat)
    requires DistinctObjects(v) && k < |v| && v[k].obj == obj
    ensures var (w, r) := OpenView(v, obj, permanent);
      r == k && SameTabs(v, w) && OnlyActive(w, k)
  {
    var found := LastOf(v, obj);
    assert found.Some?;
    assert found.value == k;
  }

  /**
   * Without an editor of the object and when not opening as permanent, the last non-permanent
   * editor is taken over: it now edits the object, non-permanent and active, and every other
   * editor is deactivated.
   */
  lemma OpenReuses(v: seq<EditorView>, obj: nat, j: nat)
    requires forall i :: 0 <= i < |v| ==> v[i].obj != obj
    requires j < |v| && !v[j].permanent && forall i :: j < i < |v| ==> v[i].permanent
    ensures var (w, r) := OpenView(v, obj, false);
      r == j && |w| == |v| && w[j] == EditorView(obj, true, false)
      && forall i :: 0 <= i < |v| && i != j ==> w[i] == v[i].(active := false)
  {
    assert LastOf(v, obj).None?;
    var reusable := LastReusable(v, obj);
    assert reusable.Some? && reusable.value == j;
  }

  /**
   * With no editor of the object and none to take over (or when opening as permanent), a new
   * active editor is appended and every other editor is deactivated.
   */
  lemma OpenAppends(v: seq<EditorView>, obj: nat, permanent: bool)
    requires forall i :: 0 <= i < |v| ==> v[i].obj != obj
    requires permanent || forall i :: 0 <= i < |v| ==> v[i].permanent
    ensures var (w, r) := OpenView(v, obj, permanent);
      r == |v| && |w| == |v| + 1 && w[|v|] == EditorView(obj, true, permanent)
      && forall i :: 0 <= i < |v| ==> w[i] == v[i].(active := false)
  {
    assert LastOf(v, obj).None?;
    assert !permanent ==> LastReusable(v, obj).None?;
  }

  /**
   * After `openEditor` the returned editor edits the object and is the only active one, the
   * list has grown by at most one, and no object has two editors.
   */
  lemma OpenKeepsInvariant(v: seq<EditorView>, obj: nat, permanent: bool)
    requires DistinctObjects(v)
    ensures var (w, r) := OpenView(v, obj, permanent);
      r < |w| && w[r].obj == obj && OnlyActive(w, r) && AtMostOneActive(w)
      && |v| <= |w| <= |v| + 1 && DistinctObjects(w)
      && forall i :: 0 <= i < |v| && i != r ==> w[i].obj == v[i].obj
  {
    var (w, r) := OpenView(v, obj, permanent);
    match LastOf(v, obj)
    case Some(k) =>
      OpenExisting(v, obj, permanent, k);
    case None =>
      assert forall i :: 0 <= i < |v| ==> v[i].obj != obj;
      assert forall i :: 0 <= i < |w| && i != r ==> w[i].obj == v[i].obj;
  }

  /** Activating the editor at `k` leaves it the only active one and changes no other field. */
  lemma ActivateEffects(v: seq<EditorView>, k: nat)
    requires AtMostOneActive(v) && k < |v|
    ensures var w := ActivateView(v, k, v[k].active);
      SameTabs(v, w) && OnlyActive(w, k) && (v[k].active ==> w == v)
  {
  }

  /** Activation keeps at most one editor active, and distinct objects, even from outside. */
  lemma ActivateKeepsInvariant(v: seq<EditorView>, k: int, wasActive: bool)
    requires AtMostOneActive(v) && DistinctObjects(v)
    requires 0 <= k < |v| ==> wasActive == v[k].active
    ensures var w := ActivateView(v, k, wasActive);
      SameTabs(v, w) && AtMostOneActive(w) && DistinctObjects(w)
  {
  }

  /**
   * Closing the editor at `k` removes it and keeps the others in order. When it was active, the
   * editor now at its index (or else the last) becomes the only active one; otherwise no flag
   * changes.
   */
  lemma CloseEffects(v: seq<EditorView>, k: nat)
    requires AtMostOneActive(v) && k < |v|
    ensures var w := CloseView(v, k);
      SameTabs(v[..k] + v[k + 1..], w)
      && (!v[k].active ==> w == v[..k] + v[k + 1..])
      && (v[k].active && |v| > 1 ==> OnlyActive(w, if k < |v| - 1 then k else |v| - 2))
      && (v[k].active ==> AtMostOneActive(w))
  {
    var rest := v[..k] + v[k + 1..];
    forall i | 0 <= i < |rest| ensures v[k].active ==> !rest[i].active {
      if i < k { assert rest[i] == v[i]; } else { assert rest[i] == v[i + 1]; }
    }
    if v[k].active && |rest| > 0 {
      var j := if k < |rest| then k else |rest| - 1;
      ActivateEffects(rest, j);
    }
  }

  /** Closing keeps the invariant of the list. */
  lemma CloseKeepsInvariant(v: seq<EditorView>, k: int)
    requires AtMostOneActive(v) && DistinctObjects(v)
    ensures AtMostOneActive(CloseView(v, k)) && DistinctObjects(CloseView(v, k))
  {
    if 0 <= k < |v| {
      var rest := v[..k] + v[k + 1..];
      assert forall i :: 0 <= i < |rest| ==> rest[i] == v[if i < k then i else i + 1];
      CloseEffects(v, k);
    }
  }

  /** Removing an editor keeps the invariant of the list. */
  lemma RemoveKeepsInvariant(v: seq<EditorView>, k: nat)
    requires TabsInv(v) && k < |v|
    ensures TabsInv(v[..k] + v[k + 1..])
  {
    var rest := v[..k] + v[k + 1..];
    assert forall i :: 0 <= i < |rest| ==> rest[i] == v[if i < k then i else i + 1];
  }

  /** Only the first active editor's permanent flag changes, and the invariant is kept. */
  lemma MakePermanentKeepsInvariant(v: seq<EditorView>)
    requires AtMostOneActive(v) && DistinctObjects(v)
    ensures var w := MakePermanentView(v);
      |w| == |v| && AtMostOneActive(w) && DistinctObjects(w)
      && (forall i :: 0 <= i < |v| ==> w[i].obj == v[i].obj && w[i].active == v[i].active)
      && (forall i :: 0 <= i < |v| ==> (w[i].permanent <==> v[i].permanent || v[i].active))
  {
  }

  // ---------------------------------------------------------------------------
  // The objects

  class Editor {
    /** The edited object. */
    var obj: nat
    var active: bool
    var permanent: bool

    /** `new Editor()`: inactive and not permanent, its object not yet set (here 0). */
    constructor ()
      ensures obj == 0 && !active && !permanent
    {
      obj := 0;
      active := false;
      permanent := false;
    }
  }

  function ViewOf(es: seq<Editor>): (v: seq<EditorView>)
    reads es
    ensures |v| == |es|
  {
    seq(|es|, i reads es requires 0 <= i < |es| => EditorView(es[i].obj, es[i].active, es[i].permanent))
  }

  predicate DistinctRefs(es: seq<Editor>) {
    forall i, j :: 0 <= i < |es| && 0 <= j < |es| && i != j ==> es[i] != es[j]
  }

  /** `editors.indexOf(editor)`: the first index holding this very editor, or -1. */
  function IndexOfRef(es: seq<Editor>, e: Editor): (k: int)
    ensures -1 <= k < |es|
    ensures k >= 0 ==> es[k] == e && forall j :: 0 <= j < k ==> es[j] != e
    ensures k == -1 ==> e !in es
  {
    if es == [] then -1
    else if es[0] == e then 0
    else
      var k := IndexOfRef(es[1..], e);
      if k == -1 then -1 else k + 1
  }

  class EditorsStore {
    var editors: seq<Editor>

    function View(): seq<EditorView>
      reads this, editors
    {
      ViewOf(editors)
    }

    predicate Valid()
      reads this, editors
    {
      DistinctRefs(editors) && TabsInv(View())
    }

    constructor ()
      ensures Valid() && editors == []
    {
      editors := [];
    }

    /**
     * `editor.active = b` for the editor at index `i`, or for one outside the list when `i` is
     * -1: no other editor changes.
     */
    method SetActive(e: Editor, ghost i: int, b: bool)
      requires DistinctRefs(editors) && -1 <= i < |editors|
      requires if i == -1 then e !in editors else editors[i] == e
      modifies e
      ensures e.active == b
      ensures i == -1 ==> View() == old(View())
      ensures i != -1 ==> View() == old(View())[i := old(View())[i].(active := b)]
    {
      ghost var v := View();
      e.active := b;
      if i != -1 {
        assert forall j :: 0 <= j < |editors| ==> View()[j] == v[i := v[i].(active := b)][j];
      } else {
        assert forall j :: 0 <= j < |editors| ==> View()[j] == v[j];
      }
    }

    /** The three assignments of `openEditor` to the editor at index `j` it opens. */
    method Retarget(r: Editor, ghost j: nat, obj: nat, permanent: bool)
      requires DistinctRefs(editors) && j < |editors| && editors[j] == r
      modifies r
      ensures View() == old(View())[j := EditorView(obj, true, permanent)]
    {
      ghost var d := View();
      r.permanent := permanent;
      r.obj := obj;
      r.active := true;
      assert forall i :: 0 <= i < |editors| ==> View()[i] == d[j := EditorView(obj, true, permanent)][i];
    }

    /** The computed `activeEditor`. */
    method ActiveEditor() returns (r: Option<Editor>)
      ensures r.None? <==> FirstActive(View()).None?
      ensures r.Some? ==> FirstActive(View()).Some? && r.value == editors[FirstActive(View()).value]
    {
      ghost var v := View();
      for i := 0 to |editors|
        invariant forall j :: 0 <= j < i ==> !v[j].active
      {
        if editors[i].active {
          assert FirstActive(v) == Some(i) by {
            var f := FirstActive(v);
            assert v[i].active;
            assert f.Some? && f.value <= i;
          }
          return Some(editors[i]);
        }
      }
      return None;
    }

    method ActivateEditor(e: Editor)
      requires Valid()
      modifies editors, e
      ensures Valid() && e.active
      ensures View() == ActivateView(old(View()), IndexOfRef(editors, e), old(e.active))
    {
      ghost var v := View();
      ghost var k := IndexOfRef(editors, e);
      ActivateKeepsInvariant(v, k, e.active);
      if e.active {
        return;
      }
      var a := ActiveEditor();
      if a.Some? {
        SetActive(a.value, FirstActive(v).value, false);
      }
      SetActive(e, k, true);
    }

    /**
     * The loop of `openEditor`: the editors of `obj` activated, every other one deactivated,
     * and the last editor of `obj` and the last reusable editor remembered.
     */
    method MarkEditors(obj: nat, openAsPermanentEditor: bool)
      returns (found: Option<nat>, reusable: Option<nat>)
      requires DistinctRefs(editors)
      modifies editors
      ensures View() == Marked(old(View()), obj)
      ensures found == LastOf(old(View()), obj)
      ensures reusable == if openAsPermanentEditor then None else LastReusable(old(View()), obj)
    {
      ghost var v := View();
      found := None;
      reusable := None;
      for i := 0 to |editors|
        invariant |View()| == |v|
        invariant forall j :: 0 <= j < |editors| ==>
          View()[j] == if j < i then v[j].(active := v[j].obj == obj) else v[j]
        invariant found == LastOf(v[..i], obj)
        invariant reusable == (if openAsPermanentEditor then None else LastReusable(v[..i], obj))
      {
        assert v[..i + 1][..i] == v[..i];
        if editors[i].obj == obj {
          SetActive(editors[i], i, true);
          found := Some(i);
        } else {
          if editors[i].active {
            SetActive(editors[i], i, false);
          }
          if !openAsPermanentEditor && !editors[i].permanent {
            reusable := Some(i);
          }
        }
      }
      assert v[..|editors|] == v;
      assert View() == Marked(v, obj);
    }

    method OpenEditor(obj: nat, openAsPermanentEditor: bool) returns (r: Editor)
      requires Valid()
      modifies this, editors
      ensures Valid()
      ensures View() == OpenView(old(View()), obj, openAsPermanentEditor).0
      ensures OpenView(old(View()), obj, openAsPermanentEditor).1 < |editors|
      ensures r == editors[OpenView(old(View()), obj, openAsPermanentEditor).1]
      ensures |editors| == |old(editors)| ==> editors == old(editors)
      ensures |editors| != |old(editors)| ==> fresh(r) && editors == old(editors) + [r]
    {
      ghost var v := View();
      ghost var res := OpenView(v, obj, openAsPermanentEditor);
      ghost var target := EditorView(obj, true, openAsPermanentEditor);
      OpenKeepsInvariant(v, obj, openAsPermanentEditor);
      var found, reusable := MarkEditors(obj, openAsPermanentEditor);
      ghost var m := View();
      if found.Some? {
        assert res == (m, found.value);
        return editors[found.value];
      }
      ghost var j: nat;
      if reusable.None? {
        r := new Editor();
        Push(r);
        j := |m|;
        assert View()[j := target] == m + [target];
      } else {
        r := editors[reusable.value];
        j := reusable.value;
      }
      assert res == (View()[j := target], j);
      Retarget(r, j, obj, openAsPermanentEditor);
    }

    method MakeActiveEditorPermanent()
      requires Valid()
      modifies editors
      ensures Valid() && View() == MakePermanentView(old(View()))
    {
      ghost var v := View();
      MakePermanentKeepsInvariant(v);
      for i := 0 to |editors|
        invariant forall j :: 0 <= j < i ==> !v[j].active
        invariant View() == v
      {
        if editors[i].active {
          assert FirstActive(v) == Some(i) by {
            var f := FirstActive(v);
            assert v[i].active;
            assert f.Some? && f.value <= i;
          }
          editors[i].permanent := true;
          assert forall j :: 0 <= j < |editors| ==> View()[j] == v[i := v[i].(permanent := true)][j];
          return;
        }
      }
    }

    /** `editors.push(editor)` for an editor not yet in the list. */
    method Push(e: Editor)
      requires DistinctRefs(editors) && e !in editors
      modifies this
      ensures editors == old(editors) + [e] && DistinctRefs(editors)
      ensures View() == old(View()) + [EditorView(e.obj, e.active, e.permanent)]
    {
      ghost var v := View();
      editors := editors + [e];
      assert forall i :: 0 <= i < |v| ==> View()[i] == v[i];
    }

    /** `editors.splice(index, 1)`. */
    method RemoveAt(index: nat)
      requires DistinctRefs(editors) && index < |editors|
      modifies this
      ensures editors == old(editors)[..index] + old(editors)[index + 1..]
      ensures DistinctRefs(editors) && forall x :: x in editors ==> x in old(editors)
      ensures View() == old(View())[..index] + old(View())[index + 1..]
    {
      ghost var v := View();
      var es := editors;
      editors := es[..index] + es[index + 1..];
      assert forall i :: 0 <= i < |editors| ==> editors[i] == es[if i < index then i else i + 1];
      assert forall i :: 0 <= i < |editors| ==> View()[i] == (v[..index] + v[index + 1..])[i];
    }

    /** After a splice at `index`: the editor now there is activated, or else the last one. */
    method ActivateNeighbour(index: nat)
      requires Valid()
      modifies editors
      ensures Valid()
      ensures var w := old(View());
        View() == if index < |w| then ActivateView(w, index, w[index].active)
                  else if |w| > 0 then ActivateView(w, |w| - 1, w[|w| - 1].active)
                  else w
    {
      ghost var w := View();
      if index < |editors| {
        assert IndexOfRef(editors, editors[index]) == index;
        ActivateEditor(editors[index]);
      } else if |editors| > 0 {
        ghost var t := |editors| - 1;
        assert IndexOfRef(editors, editors[t]) == t;
        ActivateEditor(editors[|editors| - 1]);
      }
    }

    method CloseEditor(e: Editor)
      requires Valid()
      modifies this, editors
      ensures Valid()
      ensures View() == CloseView(old(View()), IndexOfRef(old(editors), e))
      ensures IndexOfRef(old(editors), e) == -1 ==> editors == old(editors)
      ensures var k := IndexOfRef(old(editors), e);
        k >= 0 ==> editors == old(editors)[..k] + old(editors)[k + 1..]
    {
      ghost var v := View();
      CloseKeepsInvariant(v, IndexOfRef(editors, e));
      var index := IndexOfRef(editors, e);
      if index != -1 {
        assert v[index].active == e.active;
        RemoveAt(index);
        RemoveKeepsInvariant(v, index);
        if e.active {
          ActivateNeighbour(index);
        }
      }
    }
  }
}
