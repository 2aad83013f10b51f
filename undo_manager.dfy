/**
 * The undo/redo manager of packages/project-editor/core/store.ts (`UndoManagerClass`).
 *
 * A command is an abstract edit with a description. The document is represented by the sequence
 * of edits currently in effect: executing a command appends it, and undoing a command takes it
 * back off the end, so undo is the inverse of execute by construction. The document's
 * "modified" flag, which the manager sets through the document store, is kept here as a field.
 * Selection snapshots are left out: the navigation store's `getSelection` always returns
 * undefined and `setSelection(undefined)` returns at once, so they have no effect.
 */
module Undo {
  import opened Wrappers

  datatype Command = Command(id: nat, description: string)

  datatype UndoItem = UndoItem(commands: seq<Command>)

  /** The manager's observable state, taken as a value. */
  datatype UndoState = UndoState(
    undoStack: seq<UndoItem>,
    redoStack: seq<UndoItem>,
    commands: seq<Command>,
    combineCommands: bool,
    modified: bool,
    document: seq<Command>)

  // ---------------------------------------------------------------------------
  // Commands acting on the document

  /** `command.execute()`. */
  function Execute(document: seq<Command>, c: Command): seq<Command> {
    document + [c]
  }

  /** `command.undo()`: takes the command's edit back off the document. */
  function Revert(document: seq<Command>, c: Command): seq<Command> {
    if document != [] && document[|document| - 1] == c then document[..|document| - 1] else document
  }

  /** The commands executed in order. */
  function ExecuteAll(document: seq<Command>, cmds: seq<Command>): seq<Command>
    decreases |cmds|
  {
    if cmds == [] then document else ExecuteAll(Execute(document, cmds[0]), cmds[1..])
  }

  /** The commands undone from the last to the first. */
  function RevertAll(document: seq<Command>, cmds: seq<Command>): seq<Command>
    decreases |cmds|
  {
    if cmds == [] then document
    else RevertAll(Revert(document, cmds[|cmds| - 1]), cmds[..|cmds| - 1])
  }

  lemma {:induction false} ExecuteAllAppends(document: seq<Command>, cmds: seq<Command>)
    ensures ExecuteAll(document, cmds) == document + cmds
    decreases |cmds|
  {
    if cmds != [] {
      ExecuteAllAppends(Execute(document, cmds[0]), cmds[1..]);
      assert document + [cmds[0]] + cmds[1..] == document + cmds;
    }
  }

  /** Undoing commands in reverse order takes back exactly the edits their execution made. */
  lemma {:induction false} RevertAllUndoes(document: seq<Command>, cmds: seq<Command>)
    ensures RevertAll(document + cmds, cmds) == document
    decreases |cmds|
  {
    if cmds != [] {
      var front := cmds[..|cmds| - 1];
      assert document + cmds == (document + front) + [cmds[|cmds| - 1]];
      assert Revert(document + cmds, cmds[|cmds| - 1]) == document + front;
      RevertAllUndoes(document, front);
    }
  }

  /** All commands of the items, bottom of the stack first. */
  function Flatten(items: seq<UndoItem>): seq<Command>
    decreases |items|
  {
    if items == [] then [] else Flatten(items[..|items| - 1]) + items[|items| - 1].commands
  }

  lemma FlattenPush(items: seq<UndoItem>, item: UndoItem)
    ensures Flatten(items + [item]) == Flatten(items) + item.commands
  {
    assert (items + [item])[..|items|] == items;
  }

  // ---------------------------------------------------------------------------
  // The invariant

  predicate IsSuffix(s: seq<Command>, t: seq<Command>) {
    |s| <= |t| && t[|t| - |s|..] == s
  }

  /**
   * Undo items are never empty; pending commands exist only with an empty redo stack; without
   * the combine flag at most one command is pending; and the edits of the undo stack followed by
   * the pending commands are the most recent edits of the document.
   */
  predicate Inv(s: UndoState) {
    NonEmptyItems(s.undoStack) && NonEmptyItems(s.redoStack)
    && (s.commands != [] ==> s.redoStack == [])
    && (!s.combineCommands ==> |s.commands| <= 1)
    && IsSuffix(Flatten(s.undoStack) + s.commands, s.document)
  }

  predicate NonEmptyItems(items: seq<UndoItem>) {
    forall i :: 0 <= i < |items| ==> items[i].commands != []
  }

  predicate InitialState(s: UndoState) {
    s.undoStack == [] && s.redoStack == [] && s.commands == [] && !s.combineCommands
  }

  lemma InitialInv(s: UndoState)
    requires InitialState(s)
    ensures Inv(s)
  {
  }

  // ---------------------------------------------------------------------------
  // The operations, on the state

  /** `clear`: both stacks emptied. */
  function ClearStacks(s: UndoState): UndoState {
    s.(undoStack := [], redoStack := [])
  }

  /** `pushToUndoStack`: the pending commands, if any, become one undo item. */
  function Push(s: UndoState): UndoState {
    if |s.commands| > 0 then s.(undoStack := s.undoStack + [UndoItem(s.commands)], commands := [])
    else s
  }

  /** `setCombineCommands`. */
  function SetCombine(s: UndoState, value: bool): UndoState {
    Push(s).(combineCommands := value)
  }

  /** `executeCommand`. */
  function ExecuteStep(s: UndoState, c: Command): UndoState {
    var flushed := if s.commands != [] && !s.combineCommands then Push(s) else s;
    flushed.(document := Execute(flushed.document, c), commands := flushed.commands + [c],
             redoStack := [], modified := true)
  }

  /** `undo`. */
  function UndoStep(s: UndoState): UndoState {
    var f := Push(s);
    if f.undoStack == [] then f else PopTop(f)
  }

  /** The second half of `undo`: the top undo item reverted and moved to the redo stack. */
  function PopTop(f: UndoState): UndoState
    requires f.undoStack != []
  {
    var item := f.undoStack[|f.undoStack| - 1];
    f.(undoStack := f.undoStack[..|f.undoStack| - 1],
       document := RevertAll(f.document, item.commands),
       redoStack := f.redoStack + [item],
       modified := true)
  }

  /** `redo`. */
  function RedoStep(s: UndoState): UndoState {
    if s.redoStack == [] then s
    else
      var item := s.redoStack[|s.redoStack| - 1];
      s.(redoStack := s.redoStack[..|s.redoStack| - 1],
         document := ExecuteAll(s.document, item.commands),
         undoStack := s.undoStack + [item],
         modified := true)
  }

  /** The computed `canUndo`. */
  predicate CanUndo(s: UndoState) {
    |s.undoStack| > 0 || |s.commands| > 0
  }

  /** The computed `canRedo`. */
  predicate CanRedo(s: UndoState) {
    |s.redoStack| > 0
  }

  /** The last command's description, as `getCommandsDescription` reads it. */
  function LastDescription(cmds: seq<Command>): string
    requires cmds != []
  {
    cmds[|cmds| - 1].description
  }

  /** The computed `undoDescription`. */
  function UndoDescription(s: UndoState): (r: Option<string>)
    requires Inv(s)
    ensures r.Some? <==> CanUndo(s)
  {
    if |s.commands| > 0 then Some(LastDescription(s.commands))
    else if |s.undoStack| > 0 then Some(LastDescription(s.undoStack[|s.undoStack| - 1].commands))
    else None
  }

  /** The computed `redoDescription`. */
  function RedoDescription(s: UndoState): (r: Option<string>)
    requires Inv(s)
    ensures r.Some? <==> CanRedo(s)
  {
    if |s.redoStack| > 0 then Some(LastDescription(s.redoStack[|s.redoStack| - 1].commands)) else None
  }

  // ---------------------------------------------------------------------------
  // What the operations promise

  /** Flushing moves the pending commands onto the undo stack as one item and loses no edit. */
  lemma PushEffects(s: UndoState)
    ensures s.commands == [] ==> Push(s) == s
    ensures s.commands != [] ==>
      Push(s).undoStack == s.undoStack + [UndoItem(s.commands)]
      && Push(s).commands == [] && Push(s).redoStack == s.redoStack
    ensures Flatten(Push(s).undoStack) + Push(s).commands == Flatten(s.undoStack) + s.commands
    ensures Push(s).document == s.document
    ensures SetCombine(s, true).undoStack == SetCombine(s, false).undoStack == Push(s).undoStack
  {
    if s.commands != [] {
      FlattenPush(s.undoStack, UndoItem(s.commands));
    }
  }

  /**
   * Executing flushes first unless combining, then applies the command and leaves it pending
   * (alone, when not combining); the redo stack is emptied and the document is marked modified.
   */
  lemma ExecuteEffects(s: UndoState, c: Command)
    ensures var e := ExecuteStep(s, c);
      e.document == s.document + [c] && e.redoStack == [] && e.modified
      && (s.combineCommands ==> e.commands == s.commands + [c] && e.undoStack == s.undoStack)
      && (!s.combineCommands ==> e.commands == [c])
      && (!s.combineCommands && s.commands != [] ==> e.undoStack == s.undoStack + [UndoItem(s.commands)])
      && (s.commands == [] ==> e.undoStack == s.undoStack)
  {
  }

  /** Undo reverts exactly the most recent group of edits and moves that group to the redo stack. */
  lemma {:induction false} UndoEffects(s: UndoState)
    requires Inv(s)
    ensures !CanUndo(s) ==> UndoStep(s) == s
    ensures CanUndo(s) ==>
      var f := Push(s);
      var item := f.undoStack[|f.undoStack| - 1];
      UndoStep(s).redoStack == s.redoStack + [item]
      && UndoStep(s).undoStack == f.undoStack[..|f.undoStack| - 1]
      && UndoStep(s).commands == []
      && s.document == UndoStep(s).document + item.commands
      && UndoStep(s).modified
      && UndoDescription(s) == Some(LastDescription(item.commands))
  {
    var f := Push(s);
    PushEffects(s);
    if CanUndo(s) {
      var n := |f.undoStack|;
      var item := f.undoStack[n - 1];
      assert f.undoStack == f.undoStack[..n - 1] + [item];
      FlattenPush(f.undoStack[..n - 1], item);
      var d := s.document;
      var tail := Flatten(f.undoStack);
      assert IsSuffix(tail, d);
      var front := d[..|d| - |tail|] + Flatten(f.undoStack[..n - 1]);
      assert d == front + item.commands;
      RevertAllUndoes(front, item.commands);
    }
  }

  /** Redo re-executes the top redo group and moves it back to the undo stack. */
  lemma RedoEffects(s: UndoState)
    requires Inv(s)
    ensures !CanRedo(s) ==> RedoStep(s) == s
    ensures CanRedo(s) ==>
      var item := s.redoStack[|s.redoStack| - 1];
      RedoStep(s).undoStack == s.undoStack + [item]
      && RedoStep(s).redoStack == s.redoStack[..|s.redoStack| - 1]
      && RedoStep(s).document == s.document + item.commands
      && RedoStep(s).modified
      && RedoStep(s).commands == s.commands && RedoStep(s).combineCommands == s.combineCommands
      && RedoDescription(s) == Some(LastDescription(item.commands))
  {
    if CanRedo(s) {
      ExecuteAllAppends(s.document, s.redoStack[|s.redoStack| - 1].commands);
    }
  }

  /** With nothing pending, undo followed by redo restores both stacks and the document. */
  lemma UndoThenRedo(s: UndoState)
    requires Inv(s) && s.commands == [] && s.undoStack != []
    ensures var r := RedoStep(UndoStep(s));
      r.undoStack == s.undoStack && r.redoStack == s.redoStack && r.commands == s.commands
      && r.document == s.document
  {
    UndoEffects(s);
    UndoPreservesInv(s);
    RedoEffects(UndoStep(s));
    var n := |s.undoStack|;
    assert s.undoStack == s.undoStack[..n - 1] + [s.undoStack[n - 1]];
  }

  /** Redo followed by undo restores both stacks and the document. */
  lemma RedoThenUndo(s: UndoState)
    requires Inv(s) && s.redoStack != []
    ensures var r := UndoStep(RedoStep(s));
      r.undoStack == s.undoStack && r.redoStack == s.redoStack && r.commands == s.commands
      && r.document == s.document
  {
    var n := |s.redoStack|;
    var item := s.redoStack[n - 1];
    var r := RedoStep(s);
    RedoEffects(s);
    RedoPreservesInv(s);
    assert s.commands == [] && r.commands == [];
    assert Push(r) == r;
    UndoEffects(r);
    var u := UndoStep(r);
    assert s.redoStack == s.redoStack[..n - 1] + [item];
    assert (s.undoStack + [item])[..|s.undoStack|] == s.undoStack;
    assert u.document + item.commands == s.document + item.commands;
    assert u.document == (u.document + item.commands)[..|u.document|];
  }

  // Every operation keeps the invariant

  lemma PushPreservesInv(s: UndoState)
    requires Inv(s)
    ensures Inv(Push(s))
  {
    PushEffects(s);
    if s.commands != [] {
      var p := Push(s);
      assert p.redoStack == [] && p.commands == [];
      forall i | 0 <= i < |p.undoStack| ensures p.undoStack[i].commands != [] {
        if i < |s.undoStack| {
          assert p.undoStack[i] == s.undoStack[i];
        }
      }
    }
  }

  lemma SetCombinePreservesInv(s: UndoState, value: bool)
    requires Inv(s)
    ensures Inv(SetCombine(s, value))
  {
    PushPreservesInv(s);
    PushEffects(s);
  }

  lemma ClearPreservesInv(s: UndoState)
    requires Inv(s)
    ensures Inv(ClearStacks(s))
  {
    SuffixOfSuffix(Flatten(s.undoStack), s.commands, s.document);
  }

  lemma SuffixOfSuffix(x: seq<Command>, y: seq<Command>, d: seq<Command>)
    requires IsSuffix(x + y, d)
    ensures IsSuffix(y, d)
  {
    assert d[|d| - |y|..] == d[|d| - |x + y|..][|x|..];
    assert (x + y)[|x|..] == y;
  }

  lemma SuffixExtend(x: seq<Command>, d: seq<Command>, y: seq<Command>)
    requires IsSuffix(x, d)
    ensures IsSuffix(x + y, d + y)
  {
    assert (d + y)[|d + y| - |x + y|..] == d[|d| - |x|..] + y;
  }

  lemma SuffixDrop(x: seq<Command>, y: seq<Command>, d: seq<Command>)
    requires IsSuffix(x + y, d + y)
    ensures IsSuffix(x, d)
  {
    assert (d + y)[|d + y| - |x + y|..] == d[|d| - |x|..] + y;
    assert d[|d| - |x|..] == (d + y)[|d + y| - |x + y|..][..|x|];
  }

  lemma ExecutePreservesInv(s: UndoState, c: Command)
    requires Inv(s)
    ensures Inv(ExecuteStep(s, c))
  {
    var f := if s.commands != [] && !s.combineCommands then Push(s) else s;
    if s.commands != [] && !s.combineCommands {
      PushPreservesInv(s);
    }
    assert Inv(f);
    var e := ExecuteStep(s, c);
    assert e == UndoState(f.undoStack, [], f.commands + [c], f.combineCommands, true, f.document + [c]);
    SuffixExtend(Flatten(f.undoStack) + f.commands, f.document, [c]);
    assert Flatten(e.undoStack) + e.commands == (Flatten(f.undoStack) + f.commands) + [c];
  }

  lemma UndoPreservesInv(s: UndoState)
    requires Inv(s)
    ensures Inv(UndoStep(s))
  {
    PushPreservesInv(s);
    PushEffects(s);
    var f := Push(s);
    if f.undoStack != [] {
      PopPreservesInv(f);
    }
  }

  /** The second half of `undo`: the flushed top item is reverted and moved to the redo stack. */
  lemma PopPreservesInv(f: UndoState)
    requires Inv(f) && f.commands == [] && f.undoStack != []
    ensures Inv(PopTop(f))
  {
    var n := |f.undoStack|;
    var item := f.undoStack[n - 1];
    PopDocument(f.undoStack, f.document);
    NonEmptyPushed(f.redoStack, item);
    NonEmptyFront(f.undoStack, n - 1);
  }

  /** Reverting the top item of a stack whose edits end the document leaves the rest ending it. */
  lemma PopDocument(stack: seq<UndoItem>, d: seq<Command>)
    requires stack != [] && IsSuffix(Flatten(stack), d)
    ensures var n := |stack|;
      IsSuffix(Flatten(stack[..n - 1]), RevertAll(d, stack[n - 1].commands))
  {
    var n := |stack|;
    var item := stack[n - 1];
    var front := stack[..n - 1];
    assert stack == front + [item];
    FlattenPush(front, item);
    var tail := Flatten(stack);
    var pre := d[..|d| - |tail|];
    assert d == pre + Flatten(front) + item.commands;
    RevertAllUndoes(pre + Flatten(front), item.commands);
    assert RevertAll(d, item.commands) == pre + Flatten(front);
  }

  lemma NonEmptyPushed(items: seq<UndoItem>, item: UndoItem)
    requires NonEmptyItems(items) && item.commands != []
    ensures NonEmptyItems(items + [item])
  {
    forall i | 0 <= i < |items| + 1 ensures (items + [item])[i].commands != [] {
      if i < |items| {
        assert (items + [item])[i] == items[i];
      }
    }
  }

  lemma NonEmptyFront(items: seq<UndoItem>, k: nat)
    requires NonEmptyItems(items) && k <= |items|
    ensures NonEmptyItems(items[..k])
  {
    forall i | 0 <= i < k ensures items[..k][i].commands != [] {
      assert items[..k][i] == items[i];
    }
  }

  lemma RedoPreservesInv(s: UndoState)
    requires Inv(s)
    ensures Inv(RedoStep(s))
  {
    RedoEffects(s);
    if CanRedo(s) {
      var n := |s.redoStack|;
      var item := s.redoStack[n - 1];
      var r := RedoStep(s);
      assert s.commands == [] && Flatten(s.undoStack) + s.commands == Flatten(s.undoStack);
      FlattenPush(s.undoStack, item);
      SuffixExtend(Flatten(s.undoStack), s.document, item.commands);
      assert Flatten(r.undoStack) + r.commands == Flatten(s.undoStack) + item.commands;
      NonEmptyPushed(s.undoStack, item);
      NonEmptyFront(s.redoStack, n - 1);
    }
  }

  // ---------------------------------------------------------------------------
  // The manager object

  class UndoManager {
    var undoStack: seq<UndoItem>
    var redoStack: seq<UndoItem>
    var commands: seq<Command>
    var combineCommands: bool
    /** The document store's modified flag. */
    var modified: bool
    /** The edits in effect in the document. */
    var document: seq<Command>

    function State(): UndoState
      reads this
    {
      UndoState(undoStack, redoStack, commands, combineCommands, modified, document)
    }

    predicate Valid()
      reads this
    {
      Inv(State())
    }

    constructor (document: seq<Command>)
      ensures Valid() && InitialState(State()) && this.document == document && !modified
    {
      undoStack := [];
      redoStack := [];
      commands := [];
      combineCommands := false;
      modified := false;
      this.document := document;
    }

    method Clear()
      requires Valid()
      modifies this
      ensures Valid() && State() == ClearStacks(old(State()))
    {
      ClearPreservesInv(State());
      undoStack := [];
      redoStack := [];
    }

    method PushToUndoStack()
      requires Valid()
      modifies this
      ensures Valid() && State() == Push(old(State()))
    {
      PushPreservesInv(State());
      if |commands| > 0 {
        undoStack := undoStack + [UndoItem(commands)];
        commands := [];
      }
    }

    method SetCombineCommands(value: bool)
      requires Valid()
      modifies this
      ensures Valid() && State() == SetCombine(old(State()), value)
    {
      SetCombinePreservesInv(State(), value);
      PushToUndoStack();
      combineCommands := value;
    }

    method ExecuteCommand(c: Command)
      requires Valid()
      modifies this
      ensures Valid() && State() == ExecuteStep(old(State()), c)
    {
      ExecutePreservesInv(State(), c);
      if |commands| != 0 && !combineCommands {
        PushToUndoStack();
      }
      document := Execute(document, c);
      commands := commands + [c];
      redoStack := [];
      modified := true;
    }

    method Undo()
      requires Valid()
      modifies this
      ensures Valid() && State() == UndoStep(old(State()))
    {
      PushToUndoStack();
      if |undoStack| > 0 {
        PopToRedo();
      }
    }

    /** The second half of `undo`: the top item's commands undone and the item moved to the redo stack. */
    method PopToRedo()
      requires Valid() && commands == [] && undoStack != []
      modifies this
      ensures Valid() && State() == PopTop(old(State()))
    {
      PopPreservesInv(State());
      var item := undoStack[|undoStack| - 1];
      undoStack := undoStack[..|undoStack| - 1];
      document := UndoCommands(document, item.commands);
      redoStack := redoStack + [item];
      modified := true;
    }

    method Redo()
      requires Valid()
      modifies this
      ensures Valid() && State() == RedoStep(old(State()))
    {
      RedoPreservesInv(State());
      if |redoStack| > 0 {
        var item := redoStack[|redoStack| - 1];
        redoStack := redoStack[..|redoStack| - 1];
        document := ExecuteCommands(document, item.commands);
        undoStack := undoStack + [item];
        modified := true;
      }
    }
  }

  /** The loop of `undo`: each command of the item undone, from the last to the first. */
  method UndoCommands(document: seq<Command>, cmds: seq<Command>) returns (doc: seq<Command>)
    ensures doc == RevertAll(document, cmds)
  {
    doc := document;
    var i := |cmds|;
    assert cmds[..i] == cmds;
    while i > 0
      invariant 0 <= i <= |cmds|
      invariant RevertAll(doc, cmds[..i]) == RevertAll(document, cmds)
    {
      assert cmds[..i][..i - 1] == cmds[..i - 1];
      doc := Revert(doc, cmds[i - 1]);
      i := i - 1;
    }
  }

  /** The loop of `redo`: each command of the item executed again, first to last. */
  method ExecuteCommands(document: seq<Command>, cmds: seq<Command>) returns (doc: seq<Command>)
    ensures doc == ExecuteAll(document, cmds)
  {
    doc := document;
    for i := 0 to |cmds|
      invariant ExecuteAll(doc, cmds[i..]) == ExecuteAll(document, cmds)
    {
      assert cmds[i..][1..] == cmds[i + 1..];
      doc := Execute(doc, cmds[i]);
    }
    assert cmds[|cmds|..] == [];
  }
}
