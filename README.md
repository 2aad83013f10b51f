# EEZ Studio project editor core, modelled in Dafny

This project models the sequential core of the EEZ Studio project editor: the document object tree
and its addressing, the class metadata behind it, and the stores that edit it. It also covers three
smaller pure pieces: the form validators, the bitmap pixel encoder, and the layout walk that turns
a page's display items into a tree of canvas nodes.

The modules follow the source files:

- `Wrappers` (wrappers.dfy) holds `Option`.
- `Strings` (strings.dfy) holds the JavaScript string built-ins these files rely on:
  - `toString` of an integer;
  - `trim`;
  - `split`/`join` on a one-character separator;
  - `startsWith`/`endsWith`;
  - `replace` with a string pattern;
  - `parseInt` without a radix.
- `Metadata` (metadata.dfy) holds property and class descriptors from object.ts:
  - `makeDerivedClassInfo` and its two merge loops;
  - `findPropertyByName`;
  - the `isSubclassOf`/`isProperSubclassOf` walks over `parentClassInfo`.
- `ObjectModel` (object_model.dfy) holds the rest of object.ts. The document is an arena of nodes,
  and each node has an id, a key, a parent index, a child-id counter, a class and a body (array
  elements or named property values). The module covers:
  - ancestors;
  - `getChildren`;
  - `getChildOfObject` with its synthesised value objects;
  - `getObjectPath`, `getObjectPathAsString`, `getObjectFromPath`, `getObjectFromStringPath`,
    `getObjectFromObjectId` and `isObjectExists`;
  - `isPartOfNavigation`;
  - `getCommonProperties` and `getPropertySourceInfo`;
  - `getNextChildId`, on a class `Arena` that owns the tree.
- `Undo` (undo_manager.dfy) holds `UndoManagerClass`. The class `UndoManager` has the undo stack,
  the redo stack, the pending commands, the combine flag and the modified flag. Each method is
  proved to change that state exactly as a function on a value `UndoState` says, and the
  properties are lemmas about those functions.
- `Editors` (editors_store.dfy) holds `EditorsStoreClass`. It is a class over a sequence of
  `Editor` objects whose `active` and `permanent` flags the methods toggle in place. Each method
  is tied to a function on the list's value view, and the lemmas prove its invariants.
- `Navigation` (navigation_store.dfy) holds `NavigationStoreClass`. The class keeps the
  navigation map and the log of `selectObjects` calls made on tree-object adapters.
- `Documents` (document_store.dfy) holds three parts of store.ts:
  - the property filtering loop of `DocumentStoreClass.updateObject`;
  - `canAdd`, `canDelete`, `canCopy` and `canCut`;
  - the confirmation decision of `deleteItems` (with the single-object case of
    `DocumentStoreClass.deleteObjects`).
- `Validation` (validation.dfy) holds validation.ts:
  - `filterInteger`;
  - the `required`, `rangeInclusive`, `rangeExclusive`, `unique` and `integer` validators;
  - the error aggregation of `makeValidator(...).checkValidity`.
- `Bitmap` (bitmap.dfy) holds the pixel loop of `getData` in bitmap.tsx. It turns RGBA bytes into
  BGRA for 32 bits per pixel, or into RGB565 (low byte first) otherwise.
- `WidgetTree` (widget_tree.dfy) holds widget-tree.ts:
  - the `children` getter of `DummyWidgetContainerDisplayItem`;
  - `getSelectedWidgetForSelectWidget`;
  - `createWidgetTree`/`enumWidget`.

  `enumWidget` is a method with the source's loops, proved equal to a specification function
  `Enum`. The lemmas about `Enum` state:
  - each node's rectangle and flags;
  - that every node hangs below its parent;
  - where each child of a page, Container, List, Grid and Select node is placed.

  The created nodes live in a sequence, and parents and children refer to each other by index
  into it.

Where widget-tree.ts and object.ts disagree, the model follows each file as written, for example
in the kept-property test of the `children` getter:

- A callback in `enumerable` counts as truthy, so the property is kept whatever the callback
  answers.
- The single-array collapse ignores `showOnlyChildrenInTree`.

## Model

| member | source | states |
|---|---|---|
| Undo.ExecuteAllAppends | packages/project-editor/core/store.ts:882-884 | executing commands first to last applies their edits in that order |
| Undo.RevertAllUndoes | packages/project-editor/core/store.ts:849-851 | undoing commands from the last to the first takes back exactly the edits their execution made |
| Undo.FlattenPush | packages/project-editor/core/store.ts:785-789 | pushing an undo item adds its commands after all earlier ones in the undo history |
| Undo.InitialInv | packages/project-editor/core/store.ts:764-773 | the freshly constructed manager (empty stacks, nothing pending) satisfies the manager invariant |
| Undo.UndoDescription | packages/project-editor/core/store.ts:829-841 | `undoDescription` is defined exactly when `canUndo` holds (something pending or an undo item) |
| Undo.RedoDescription | packages/project-editor/core/store.ts:866-876 | `redoDescription` is defined exactly when `canRedo` holds |
| Undo.PushEffects | packages/project-editor/core/store.ts:781-800 | with nothing pending, flushing changes nothing; otherwise exactly one item holding all pending commands goes on the undo stack, nothing stays pending, no edit is lost, and `setCombineCommands` flushes whatever the new flag |
| Undo.ExecuteEffects | packages/project-editor/core/store.ts:802-818 | the command's edit is applied and appended to the pending list (alone when not combining, after flushing a non-empty list); the redo stack is emptied and the document marked modified |
| Undo.UndoEffects | packages/project-editor/core/store.ts:843-859 | with nothing to undo, nothing changes; otherwise after the flush the top item is popped, its edits are reverted, it is pushed on the redo stack and the document is marked modified; `undoDescription` names its last command |
| Undo.RedoEffects | packages/project-editor/core/store.ts:878-892 | with an empty redo stack, nothing changes; otherwise the top redo item is popped, its edits applied again in order, it is pushed back on the undo stack and the document is marked modified, while the pending commands and the combine flag stay as they were |
| Undo.UndoThenRedo | packages/project-editor/core/store.ts:843-892 | with nothing pending, undo followed by redo restores both stacks, the pending list and the document |
| Undo.RedoThenUndo | packages/project-editor/core/store.ts:843-892 | redo followed by undo restores both stacks, the pending list and the document |
| Undo.PushPreservesInv | packages/project-editor/core/store.ts:781-794 | flushing keeps the invariant: pending commands imply an empty redo stack, at most one pending command when not combining, the undo history is the latest edits of the document |
| Undo.SetCombinePreservesInv | packages/project-editor/core/store.ts:796-800 | changing the combine flag keeps the invariant |
| Undo.ClearPreservesInv | packages/project-editor/core/store.ts:775-779 | clearing both stacks keeps the invariant |
| Undo.ExecutePreservesInv | packages/project-editor/core/store.ts:802-818 | executing a command keeps the invariant |
| Undo.UndoPreservesInv | packages/project-editor/core/store.ts:843-859 | undo keeps the invariant |
| Undo.PopPreservesInv | packages/project-editor/core/store.ts:847-858 | popping, reverting and moving the flushed top item to the redo stack keeps the invariant |
| Undo.RedoPreservesInv | packages/project-editor/core/store.ts:878-892 | redo keeps the invariant |
| Undo.UndoManager.constructor | packages/project-editor/core/store.ts:764-773 | a new manager has empty stacks, nothing pending, combining off, and satisfies the invariant |
| Undo.UndoManager.Clear | packages/project-editor/core/store.ts:775-779 | the new state is the old one with both stacks emptied |
| Undo.UndoManager.PushToUndoStack | packages/project-editor/core/store.ts:781-794 | the new state is the flushed old state |
| Undo.UndoManager.SetCombineCommands | packages/project-editor/core/store.ts:796-800 | the new state is the old one flushed, with the new combine flag |
| Undo.UndoManager.ExecuteCommand | packages/project-editor/core/store.ts:802-818 | the new state is the old one after executing the command, as `ExecuteEffects` describes |
| Undo.UndoManager.Undo | packages/project-editor/core/store.ts:843-859 | the new state is the old one after undo, as `UndoEffects` describes |
| Undo.UndoManager.PopToRedo | packages/project-editor/core/store.ts:847-858 | the top undo item's commands are undone in the document and the item is moved to the redo stack, keeping the invariant |
| Undo.UndoManager.Redo | packages/project-editor/core/store.ts:878-892 | the new state is the old one after redo, as `RedoEffects` describes |
| Undo.UndoCommands | packages/project-editor/core/store.ts:849-851 | the loop undoes the item's commands from the last to the first |
| Undo.ExecuteCommands | packages/project-editor/core/store.ts:882-884 | the loop executes the item's commands from the first to the last |
| Editors.FirstActive | packages/project-editor/core/store.ts:491-500 | `activeEditor` is the first active editor, and there is none exactly when no editor is active |
| Editors.LastOf | packages/project-editor/core/store.ts:522-526 | the loop remembers the last editor of the object, or none when no editor has it |
| Editors.LastReusable | packages/project-editor/core/store.ts:526-533 | the loop remembers the last non-permanent editor of another object, or none |
| Editors.OpenExisting | packages/project-editor/core/store.ts:522-538 | opening an object that has an editor returns that editor, makes it the only active one and changes no object or permanence |
| Editors.OpenReuses | packages/project-editor/core/store.ts:540-554 | with no editor of the object, the last non-permanent editor is taken over: it edits the object, is non-permanent and active, and every other editor is deactivated |
| Editors.OpenAppends | packages/project-editor/core/store.ts:540-554 | with nothing to reuse (or opening as permanent), a new active editor with the requested permanence is appended and every other editor deactivated |
| Editors.OpenKeepsInvariant | packages/project-editor/core/store.ts:516-555 | after `openEditor`, the returned editor edits the object and is the only active one, the list grew by at most one, and no object has two editors |
| Editors.ActivateEffects | packages/project-editor/core/store.ts:502-514 | activating an editor leaves it the only active one and changes nothing else; activating an active editor changes nothing |
| Editors.ActivateKeepsInvariant | packages/project-editor/core/store.ts:502-514 | activation keeps at most one editor active and no object edited twice |
| Editors.CloseEffects | packages/project-editor/core/store.ts:572-585 | closing removes the editor; if it was active, the editor now at its index, or else the last one, becomes the only active one; otherwise no flag changes |
| Editors.CloseKeepsInvariant | packages/project-editor/core/store.ts:572-585 | closing keeps at most one active editor and no object edited twice |
| Editors.MakePermanentKeepsInvariant | packages/project-editor/core/store.ts:562-570 | only the first active editor becomes permanent; objects and active flags are unchanged, and the invariant is kept |
| Editors.Editor.constructor | packages/project-editor/core/store.ts:355-363 | a new editor is neither active nor permanent |
| Editors.IndexOfRef | packages/project-editor/core/store.ts:574 | `indexOf` gives the first index holding this very editor, or -1 when it is absent |
| Editors.EditorsStore.constructor | packages/project-editor/core/store.ts:396-398 | the store starts with no editors |
| Editors.EditorsStore.ActiveEditor | packages/project-editor/core/store.ts:491-500 | returns the editor at the first active index, or none when no editor is active |
| Editors.EditorsStore.ActivateEditor | packages/project-editor/core/store.ts:502-514 | the editor ends active and the list changes as `ActivateView` says, keeping the invariant |
| Editors.EditorsStore.MarkEditors | packages/project-editor/core/store.ts:522-534 | the loop activates the object's editors, deactivates all others, and returns the last editor of the object and the last reusable one |
| Editors.EditorsStore.SetActive | packages/project-editor/core/store.ts:510-513 | writing one editor's `active` flag sets it and changes no other editor in the list; an editor outside the list leaves the list as it was |
| Editors.EditorsStore.Push | packages/project-editor/core/store.ts:541-542 | `push` appends the new editor and keeps every editor in the list distinct |
| Editors.EditorsStore.Retarget | packages/project-editor/core/store.ts:544-546 | the reused or new editor now edits the object, active, with the requested permanence; no other editor changes |
| Editors.EditorsStore.OpenEditor | packages/project-editor/core/store.ts:516-555 | the list changes as `OpenView` says and the returned editor is at the index it names; the list is the same objects or the old list plus one fresh editor |
| Editors.EditorsStore.MakeActiveEditorPermanent | packages/project-editor/core/store.ts:562-570 | the list changes as `MakePermanentView` says |
| Editors.EditorsStore.RemoveAt | packages/project-editor/core/store.ts:576 | the splice removes exactly the editor at the index |
| Editors.RemoveKeepsInvariant | packages/project-editor/core/store.ts:576 | removing one editor keeps at most one active and no object edited twice |
| Editors.EditorsStore.ActivateNeighbour | packages/project-editor/core/store.ts:577-583 | after the splice, the editor now at the index, or else the last one, is activated |
| Editors.EditorsStore.CloseEditor | packages/project-editor/core/store.ts:572-585 | the list changes as `CloseView` says; an absent editor changes nothing, a present one is spliced out |
| Navigation.DefaultItem | packages/project-editor/core/store.ts:287-292 | a fallback exists exactly when the class sets a non-empty `defaultNavigationKey` and the object holds a child node under it, and then it is that child |
| Navigation.GetNavigationSelectedItem | packages/project-editor/core/store.ts:279-294 | a stored adapter is returned as is; a stored object is looked up again by id and returned when found (attached to the document), and otherwise, like a missing entry, the default navigation property is used |
| Navigation.NavChain | packages/project-editor/core/store.ts:319-331 | the objects `setNavigationSelectedItem` records start at the object, go up by parent while each is part of navigation, and stop at one that is not or has no parent |
| Navigation.RecordChain | packages/project-editor/core/store.ts:319-331 | the recorded map stays valid, and stores no adapter the caller did not pass |
| Navigation.RecordChainGrows | packages/project-editor/core/store.ts:319-331 | recording only adds or overwrites entries: the object gets one and every old id stays |
| Navigation.RecordChainOffChain | packages/project-editor/core/store.ts:319-331 | an id of no object on the chain keeps its entry or its absence |
| Navigation.RecordChainOnChain | packages/project-editor/core/store.ts:319-331 | each object on the chain gets an entry holding the given item for the first object and the object below it for each ancestor |
| Navigation.FollowFuelMonotone | packages/project-editor/core/store.ts:195-212 | once the downward walk of `selectedObject` ends, more steps give the same answer |
| Navigation.FollowLands | packages/project-editor/core/store.ts:195-212 | the selected object has no navigation selection of its own, unless an adapter reported it |
| Navigation.AdapterFrom | packages/project-editor/core/store.ts:227-233 | the first loop of `setSelection` finds no adapter exactly when no node on the parent chain has one stored |
| Navigation.AdapterFromFewer | packages/project-editor/core/store.ts:227-233 | a map with no new adapters has no adapter above a node that had none |
| Navigation.Settle | packages/project-editor/core/store.ts:235-250 | the second loop of `setSelection` keeps the map valid; what it records is stated by `Navigation.SetSelectionRecords` |
| Navigation.SettleCallsNoAdapter | packages/project-editor/core/store.ts:235-250 | with no adapter above, the second loop calls no adapter and stores none |
| Navigation.SetSelectionRecords | packages/project-editor/core/store.ts:219-251 | with a selection, no adapter above its first object and no id repeated on that object's ancestor chain, every ancestor whose parent is not an array holds the chain object just below it, and every id not on a proper ancestor keeps its old entry or stays absent |
| Navigation.SettleOn | packages/project-editor/core/store.ts:235-250 | under the same assumptions, from any object up: each ancestor the loop does not skip holds the chain object just below it |
| Navigation.SettleOff | packages/project-editor/core/store.ts:235-250 | the second loop writes only ids of proper ancestors of the starting object; any other id keeps its entry or stays absent |
| Navigation.NavChainPrefix | packages/project-editor/core/store.ts:319-331 | the objects `setNavigationSelectedItem` records form a prefix of the ancestor chain |
| Navigation.SetSelectionCallsOnce | packages/project-editor/core/store.ts:219-251 | an empty selection changes nothing; `selectObjects` is called at most once, on the nearest adapter above the first object with the whole selection, and then nothing else changes; no adapter is ever stored |
| Navigation.SelectedFromAll | packages/project-editor/core/store.ts:253-277 | `isSelected` holds exactly when the check passes at every ancestor on the way up |
| Navigation.LoadEntry | packages/project-editor/core/store.ts:146-167 | one saved entry keeps the map valid |
| Navigation.LoadAll | packages/project-editor/core/store.ts:143-171 | `load` builds a valid map |
| Navigation.LoadKeys | packages/project-editor/core/store.ts:143-171 | the ids `load` stores are exactly those of the kept entries: key path resolves, and the item is an adapter state or a resolving path different from the key |
| Navigation.LoadValue | packages/project-editor/core/store.ts:143-171 | for the id of the last kept entry that stores it, `load` stores the object the item path resolves to, or, for an adapter state, the adapter made for that entry |
| Navigation.NavigationStore.constructor | packages/project-editor/core/store.ts:136-138 | the store starts with an empty map and no adapter calls |
| Navigation.NavigationStore.SetNavigationSelectedItem | packages/project-editor/core/store.ts:319-331 | the recursive method changes the map exactly as `RecordChain` says and calls no adapter |
| Navigation.NavigationStore.SelectedObject | packages/project-editor/core/store.ts:195-212 | the loop from the document root gives the answer of the downward walk |
| Navigation.NavigationStore.SetSelection | packages/project-editor/core/store.ts:219-251 | the map and the adapter calls change as `SetSelectionSpec` says; `Navigation.SetSelectionRecords` states the resulting map when no adapter is above |
| Navigation.NavigationStore.IsSelected | packages/project-editor/core/store.ts:253-277 | the loop computes the upward check of `isSelected` |
| Navigation.NavigationStore.Load | packages/project-editor/core/store.ts:143-171 | the map becomes the one `LoadAll` builds from an empty map |
| Documents.LookupName | packages/project-editor/core/store.ts:1000-1007 | a name ending in "_" looks up the name without it; any other name looks up itself |
| Documents.Plan | packages/project-editor/core/store.ts:985-1035 | old values are collected exactly when the class has an `afterUpdateObjectHook` |
| Documents.PlanKeys | packages/project-editor/core/store.ts:994-1035 | the update receives exactly the input names that refer to a non-computed property |
| Documents.PlanOldValues | packages/project-editor/core/store.ts:989-998 | with a hook, every input name, ignored ones included, gets its current property value as old value |
| Documents.PlanStepValue | packages/project-editor/core/store.ts:1009-1027 | one pass keeps every other name's value and sets its own, converted, when accepted |
| Documents.PlanValues | packages/project-editor/core/store.ts:1009-1027 | every accepted input not overridden later is passed on, run through `loadObject` exactly when its property is object or array typed and the value is defined and not already an object, and otherwise as given |
| Documents.PlanIgnoredLast | packages/project-editor/core/store.ts:1028-1033 | the ignored reports come in input order |
| Documents.PlanIgnoredSound | packages/project-editor/core/store.ts:1028-1033 | each ignored report names an input that refers to no property or to a computed one, with that reason |
| Documents.PlanIgnoredComplete | packages/project-editor/core/store.ts:1028-1033 | each input that is not accepted is reported, with its reason |
| Documents.ResolutionDependentName | packages/project-editor/core/store.ts:1000-1007 | `name_` finds the property `name`, and a name without the suffix finds itself |
| Documents.UpdateObject | packages/project-editor/core/store.ts:985-1049 | the loop builds the plan `Plan` specifies |
| Documents.CanDelete | packages/project-editor/core/store.ts:1147-1164 | an object can be deleted exactly when it is an array element or held under a property declared optional; it then has a parent |
| Documents.CanCopy | packages/project-editor/core/store.ts:1170-1172 | copy is allowed exactly when delete is |
| Documents.CutCopyDeleteAgree | packages/project-editor/core/store.ts:1147-1172 | cut, copy and delete are offered together, and never for the root |
| Documents.CanAddElement | packages/project-editor/core/store.ts:1139-1141 | an array element can be added to exactly when its class has `newItem`, and it can always be cut, copied and deleted |
| Documents.DeletionOf | packages/project-editor/core/store.ts:1061-1073 | one object is deleted on its own, several in one command, none lost |
| Documents.DeleteItems | packages/project-editor/core/store.ts:1434-1472 | a dialog (single or plural wording) is shown exactly when some object is referenced; the deletion happens exactly when no dialog is shown or it is confirmed; the callback runs exactly when the deletion happens and there is one |
| Metadata.IndexOfName | packages/project-editor/core/object.ts:255-259 | the inner search loop stops at the first property with the name, or at the end when there is none |
| Metadata.FindPropertyByName | packages/project-editor/core/object.ts:603-609 | finds a property exactly when one has the name, and then the first such property |
| Metadata.OverrideBaseProperties | packages/project-editor/core/object.ts:253-261 | the first loop gives each base property, replaced by the first derived property of the same name |
| Metadata.AppendNewProperties | packages/project-editor/core/object.ts:264-274 | the second loop appends, in order, each derived property whose name is not yet in the list |
| Metadata.MakeDerivedClassInfo | packages/project-editor/core/object.ts:243-291 | the method builds the merged descriptor `DerivedClassInfo` specifies |
| Metadata.AppendNewPrefix | packages/project-editor/core/object.ts:264-274 | the second loop only appends |
| Metadata.AppendNewNames | packages/project-editor/core/object.ts:264-274 | after the second loop a name is present exactly when it was in the list or in the derived properties |
| Metadata.AppendNewTail | packages/project-editor/core/object.ts:264-274 | every appended property is the first derived property with its name, and that name was new |
| Metadata.AppendNewOrder | packages/project-editor/core/object.ts:264-274 | appended properties keep their derived order |
| Metadata.AppendNewUnique | packages/project-editor/core/object.ts:264-274 | appending keeps names unique |
| Metadata.MergedBaseFirst | packages/project-editor/core/object.ts:247-261 | base properties come first in base order, each replaced by the same-named derived property where one exists |
| Metadata.MergedDerivedAfter | packages/project-editor/core/object.ts:263-274 | after the base part come the derived properties with new names, in derived order |
| Metadata.BaseNames | packages/project-editor/core/object.ts:253-261 | overriding keeps exactly the base names |
| Metadata.MergedNames | packages/project-editor/core/object.ts:247-277 | no name from either input is lost and no other name appears |
| Metadata.MergedUnique | packages/project-editor/core/object.ts:247-277 | unique base names give unique merged names |
| Metadata.DerivedClassInfoShape | packages/project-editor/core/object.ts:279-290 | the parent of the result is the base, the chained `beforeLoadHook` runs base then derived, absent derived properties keep the base list, and the result is a proper subclass of the base |
| Metadata.IsSubclassOf | packages/project-editor/core/object.ts:399-407 | the loop answers whether the base is the class or on its parent chain |
| Metadata.IsProperSubclassOf | packages/project-editor/core/object.ts:409-422 | the loop answers whether the base is on the parent chain above the class |
| Metadata.SubclassChainLength | packages/project-editor/core/object.ts:399-407 | a base is never further from the root of the chain than its subclass |
| Metadata.SubclassReflexive | packages/project-editor/core/object.ts:399-422 | every class is a subclass of itself, and a proper subclass is a subclass |
| Metadata.ProperSubclassIrreflexive | packages/project-editor/core/object.ts:409-422 | no class is a proper subclass of itself |
| Metadata.SubclassTransitive | packages/project-editor/core/object.ts:399-407 | a subclass of a subclass of a base is a subclass of the base |
| ObjectModel.FlagDefaults | packages/project-editor/core/object.ts:625-647 | an unset `enumerable` means enumerable, an unset `hideInPropertyGrid` means shown, and a constant flag answers the same for every object |
| ObjectModel.AncestorChain | packages/project-editor/core/object.ts:551-571 | the parent chain starts at the object and every node above it comes earlier in the arena |
| ObjectModel.AncestorIffInChain | packages/project-editor/core/object.ts:551-571 | `isAncestor` means being on the parent chain, and `isProperAncestor` being on it above the object |
| ObjectModel.AncestorOrder | packages/project-editor/core/object.ts:551-571 | an ancestor is never after its descendant, and no object is its own proper ancestor |
| ObjectModel.AncestorTransitive | packages/project-editor/core/object.ts:551-562 | `isAncestor` is transitive |
| ObjectModel.ChildProperties | packages/project-editor/core/object.ts:448-454 | the filter keeps exactly the object or array typed, enumerable, truthy properties |
| ObjectModel.PropertyChild | packages/project-editor/core/object.ts:461-464 | a kept property holds a child node whose parent is the object, an array exactly for an array property |
| ObjectModel.GetChildren | packages/project-editor/core/object.ts:444-466 | every child listed is a node of the document; what the list holds is stated by `ObjectModel.ChildrenOfObject` |
| ObjectModel.ChildrenAreDescendants | packages/project-editor/core/object.ts:444-466 | every child listed is a proper descendant of the object |
| ObjectModel.ChildrenOfObject | packages/project-editor/core/object.ts:444-466 | an array's children are its elements; when exactly one kept property is an array not marked `showOnlyChildrenInTree: false`, the children are the elements of the array it holds; otherwise they are the kept properties' values, one per property in class order |
| ObjectModel.GetChildOfObject | packages/project-editor/core/object.ts:711-753 | on an array, a child exactly for an integer index in range, the element there; otherwise a stored child for a typed property, or a fresh value object with id `parentId.name`, key the name and parent the object |
| ObjectModel.IndexOf | packages/project-editor/core/object.ts:769 | `indexOf` gives the first position of the element, or -1 exactly when absent |
| ObjectModel.RootPath | packages/project-editor/core/object.ts:765-775 | the root's path is empty and its string path is "/" |
| ObjectModel.ResolvePath | packages/project-editor/core/object.ts:891-899 | resolving a path gives a valid object or undefined |
| ObjectModel.GetObjectFromPath | packages/project-editor/core/object.ts:891-899 | the loop applies `getChildOfObject` per segment, stopping at undefined |
| ObjectModel.GetObjectFromStringPath | packages/project-editor/core/object.ts:901-906 | "/" gives the root; any other string resolves the segments after the first "/" |
| ObjectModel.ResolveAppend | packages/project-editor/core/object.ts:891-899 | resolving a concatenated path resolves the first part, then the second from there |
| ObjectModel.SegmentResolves | packages/project-editor/core/object.ts:765-775 | the segment naming a held node in its parent leads back to that node |
| ObjectModel.PathResolves | packages/project-editor/core/object.ts:765-899 | resolving the path of an attached node from the root gives the node |
| ObjectModel.StringPathResolves | packages/project-editor/core/object.ts:870-906 | resolving the string path of an attached node gives the node, when no key holds "/" and the path is not the single empty key |
| ObjectModel.FirstLeading | packages/project-editor/core/object.ts:918-920 | the `find` stops at the first element whose id is the target or a "."-terminated prefix of it |
| ObjectModel.DescendantFromId | packages/project-editor/core/object.ts:912-947 | a result has the requested id and lies below the starting object |
| ObjectModel.PropertiesFromId | packages/project-editor/core/object.ts:928-943 | the property loop finds only objects with the requested id below the object |
| ObjectModel.GetObjectFromObjectId | packages/project-editor/core/object.ts:908-950 | a result has the requested id and is attached to the document |
| ObjectModel.ExistsIffHeld | packages/project-editor/core/object.ts:874-889 | a keyed stored node exists exactly when it has no parent or its parent still holds it; a value object never does |
| ObjectModel.FindPropertyByChildObject | packages/project-editor/core/object.ts:611-615 | finds a property of the class whose value is the child, or none exactly when no property holds it |
| ObjectModel.PartOfNavigationByKey | packages/project-editor/core/object.ts:978-986 | a node held by an object is part of navigation unless its key's property says `partOfNavigation: false`; array elements, detached nodes and value objects always are |
| ObjectModel.FirstByNameIsFirstHolding | packages/project-editor/core/object.ts:611-615 | when only properties with the key hold the child, the property found by value is the one found by name |
| ObjectModel.CommonFilter | packages/project-editor/core/object.ts:1008-1027 | the filters keep exactly the properties that pass all of them, in their order |
| ObjectModel.GetCommonProperties | packages/project-editor/core/object.ts:1005-1031 | a `TypeError` exactly for no objects; otherwise the first class's properties in their order, none when any object is an array, and for several objects only properties every class declares and no array or unique string property |
| ObjectModel.GetPropertySourceInfo | packages/project-editor/core/object.ts:1033-1077 | undefined exactly for no objects; the first object's source info when all agree on the kind, "modified" otherwise; empty source for a property with a menu |
| ObjectModel.FirstDiffering | packages/project-editor/core/object.ts:1068-1074 | the loop stops at the first object whose source kind differs |
| ObjectModel.Arena.GetNextChildId | packages/project-editor/core/object.ts:520-527 | returns 1 the first time, then one more than the previous result, and records it on that node only |
| ObjectModel.CounterKeepsWellFormed | packages/project-editor/core/object.ts:520-527 | advancing a child-id counter keeps the tree well formed |
| Strings.NatToString | packages/eez-studio-shared/validation.ts:62 | the decimal numeral has digits only and no leading zero |
| Strings.NatToStringValue | packages/eez-studio-shared/validation.ts:62 | the numeral's digits read back to the number |
| Strings.TrimStart | packages/eez-studio-shared/validation.ts:48 | strips exactly the leading white space |
| Strings.TrimEnd | packages/eez-studio-shared/validation.ts:48 | strips exactly the trailing white space |
| Strings.TrimEmptyIffBlank | packages/eez-studio-shared/validation.ts:48 | `trim()` gives "" exactly when every character is white space |
| Strings.ReplaceFirstAt | packages/eez-studio-shared/validation.ts:60-63 | `replace` splices the replacement in at the first occurrence |
| Strings.Split | packages/project-editor/core/object.ts:905 | `split` gives at least one part and no part holds the separator |
| Strings.SplitJoin | packages/project-editor/core/object.ts:870-906 | splitting a join gives the parts back when no part holds the separator |
| Strings.SplitWithout | packages/project-editor/core/object.ts:905 | a string without the separator splits into itself |
| Strings.LeadingDigits | packages/project-editor/core/object.ts:721 | the longest prefix of digits, as `parseInt` reads it |
| Strings.LeadingDigitsAll | packages/project-editor/core/object.ts:721 | an all-digit string is its own leading digits |
| Strings.ParseIntNatToString | packages/project-editor/core/object.ts:721 | `parseInt` reads back a written natural number, as an array index segment needs |
| Strings.ParseIntDecimal | packages/project-editor/core/object.ts:721 | a run of decimal digits without a leading zero parses as its decimal value |
| Validation.FilterInteger | packages/eez-studio-shared/validation.ts:15-20 | a number exactly for an optional sign and one or more decimal digits, NaN otherwise |
| Validation.FilterIntegerToString | packages/eez-studio-shared/validation.ts:15-20 | `filterInteger` reads back every integer's `toString` |
| Validation.FilterIntegerSign | packages/eez-studio-shared/validation.ts:15-20 | "+" changes nothing and "-" negates |
| Validation.JsNumberNumeral | packages/eez-studio-shared/validation.ts:57-59 | a field holding the text `toString` writes for an integer compares as that integer |
| Validation.JsNumberBlank | packages/eez-studio-shared/validation.ts:57-59 | a field holding only white space, or nothing, compares as 0 |
| Validation.FillMinMax | packages/eez-studio-shared/validation.ts:60-63 | two `replace` calls fill in `${min}` and then `${max}` |
| Validation.InclusiveMessage | packages/eez-studio-shared/validation.ts:55-75 | the message with min (and max when given) written in |
| Validation.ExclusiveMessage | packages/eez-studio-shared/validation.ts:77-97 | the message with min (and max when given) written in |
| Validation.CheckRequired | packages/eez-studio-shared/validation.ts:44-53 | the "Please fill out this field." message exactly for undefined, null or an all-white-space string; a number or boolean throws, as `trim` is missing |
| Validation.CheckRangeInclusive | packages/eez-studio-shared/validation.ts:55-75 | an error exactly when the value is below min or above a given max; NaN passes; the message has the bounds |
| Validation.CheckRangeExclusive | packages/eez-studio-shared/validation.ts:77-97 | an error exactly when the value is at most min or at least a given max; the message has the bounds |
| Validation.FindClash | packages/eez-studio-shared/validation.ts:102-106 | `find` stops at the first element other than the original with an equal field |
| Validation.CheckUnique | packages/eez-studio-shared/validation.ts:99-111 | an error exactly when an element other than the original has an equal value, with the given message or the default |
| Validation.CheckInteger | packages/eez-studio-shared/validation.ts:113-119 | an error exactly when the value's string is not an integer literal |
| Validation.IntegerAcceptsNumbers | packages/eez-studio-shared/validation.ts:113-119 | every integer number passes; undefined, null and booleans fail |
| Validation.CollectRejected | packages/eez-studio-shared/validation.ts:157-180 | the check is rejected exactly when some rule throws |
| Validation.CollectErrors | packages/eez-studio-shared/validation.ts:145-155 | `errors[name]` lists the non-null messages of that name's rules in order, names without errors are absent, and valid means no errors |
| Validation.CollectValid | packages/eez-studio-shared/validation.ts:137-187 | the result is valid exactly when every rule passed |
| Validation.CheckEntry | packages/eez-studio-shared/validation.ts:173-179 | the loop over one entry's rules ends in the state the rule applications specify |
| Validation.CheckValidity | packages/eez-studio-shared/validation.ts:137-187 | resolves to the state after all rule applications in order |
| Validation.RejectedStays | packages/eez-studio-shared/validation.ts:157-180 | a thrown rule rejects the whole check whatever rules follow |
| Bitmap.Bytes565 | packages/project-editor/features/gui/bitmap.tsx:270-273 | both RGB565 bytes fit in 8 bits |
| Bitmap.Layout565 | packages/project-editor/features/gui/bitmap.tsx:270-273 | the second byte shifted up over the first is the word rrrrrggggggbbbbb |
| Bitmap.EncodeLength | packages/project-editor/features/gui/bitmap.tsx:257-274 | the output has 4 bytes per pixel at 32 bits, 2 otherwise |
| Bitmap.EncodeAppend | packages/project-editor/features/gui/bitmap.tsx:257-274 | the output for two runs of whole pixels is the two outputs one after the other |
| Bitmap.EncodeAt | packages/project-editor/features/gui/bitmap.tsx:258-274 | the output group of pixel k is the encoding of pixel k's channels |
| Bitmap.EncodeBytes | packages/project-editor/features/gui/bitmap.tsx:258-273 | every output entry is a byte |
| Bitmap.AlphaIgnored | packages/project-editor/features/gui/bitmap.tsx:270-273 | below 32 bits, alpha does not affect the output |
| Bitmap.AlphaKept | packages/project-editor/features/gui/bitmap.tsx:263-269 | at 32 bits the fourth byte of each group is the pixel's alpha |
| Bitmap.GetData | packages/project-editor/features/gui/bitmap.tsx:257-281 | the result carries width, height and bpp unchanged and the pixel loop's output for the whole image |
| WidgetTree.DisplayProperties | packages/project-editor/project/features/gui/widget-tree.ts:44-54 | the filter keeps exactly the object or array typed, not-false-enumerable, truthy properties |
| WidgetTree.DisplayChild | packages/project-editor/project/features/gui/widget-tree.ts:62-70 | a kept property holds a child node of the object, an array exactly for an array property |
| WidgetTree.DummyChildrenCases | packages/project-editor/project/features/gui/widget-tree.ts:40-72 | an array gives its elements; a single kept array property collapses to that array's elements; otherwise exactly the kept properties, each under its name with the node it holds |
| WidgetTree.DummyChildrenCollapsed | packages/project-editor/project/features/gui/widget-tree.ts:55-59 | a single kept array property gives exactly that array's elements |
| WidgetTree.DummyChildrenKeyed | packages/project-editor/project/features/gui/widget-tree.ts:61-69 | otherwise the children are keyed by exactly the kept property names, each with the node that property holds |
| WidgetTree.DummyChildrenBelow | packages/project-editor/project/features/gui/widget-tree.ts:40-72 | every item the getter lists is a proper descendant of the object |
| WidgetTree.Lookup | packages/project-editor/project/features/gui/widget-tree.ts:163-165 | `children["itemWidget"]` is the last entry with the name, or none when no entry has it |
| WidgetTree.Attach | packages/project-editor/project/features/gui/widget-tree.ts:141-143 | the new node is appended and its index pushed onto the parent's children; nothing else changes |
| WidgetTree.AttachLinked | packages/project-editor/project/features/gui/widget-tree.ts:141-143 | attaching a childless node to its parent keeps parents and children consistent |
| WidgetTree.Enum | packages/project-editor/project/features/gui/widget-tree.ts:107-212 | the walk appends at least the node it creates |
| WidgetTree.Visit | packages/project-editor/project/features/gui/widget-tree.ts:146-208 | visiting children only appends nodes |
| WidgetTree.Each | packages/project-editor/project/features/gui/widget-tree.ts:147-159 | the `forEach` only appends nodes |
| WidgetTree.ListFrom | packages/project-editor/project/features/gui/widget-tree.ts:160-177 | the List loop only appends nodes |
| WidgetTree.GridFrom | packages/project-editor/project/features/gui/widget-tree.ts:178-200 | the Grid loop only appends nodes |
| WidgetTree.SelectFrom | packages/project-editor/project/features/gui/widget-tree.ts:201-207 | the Select branch only appends nodes |
| WidgetTree.EnumFrame | packages/project-editor/project/features/gui/widget-tree.ts:127-145 | the node gets its parent, its rectangle, its item, movable and selectable exactly for a widget, selected only for a selected widget; the parent gains exactly it as a child; all new nodes hang below it |
| WidgetTree.VisitFrame | packages/project-editor/project/features/gui/widget-tree.ts:146-208 | visiting keeps every old node except that the node's children grow, and new nodes hang below it |
| WidgetTree.EachFrame | packages/project-editor/project/features/gui/widget-tree.ts:147-159 | a page or Container gains one child per child item |
| WidgetTree.ListFrame | packages/project-editor/project/features/gui/widget-tree.ts:160-177 | a List gains one child per pass of its loop (`count` of them) |
| WidgetTree.GridFrame | packages/project-editor/project/features/gui/widget-tree.ts:178-200 | a Grid gains one child per position its loop visits |
| WidgetTree.SelectFrame | packages/project-editor/project/features/gui/widget-tree.ts:201-207 | a Select gains one child when a widget is selected, none otherwise |
| WidgetTree.GridCursors | packages/project-editor/project/features/gui/widget-tree.ts:185-198 | the Grid visits at most `count` positions, the first at its origin |
| WidgetTree.EnumLinked | packages/project-editor/project/features/gui/widget-tree.ts:127-145 | the walk keeps every node listed by its parent, listed children naming it as parent |
| WidgetTree.VisitLinked | packages/project-editor/project/features/gui/widget-tree.ts:146-208 | visiting children keeps the tree linked |
| WidgetTree.EachLinked | packages/project-editor/project/features/gui/widget-tree.ts:147-159 | the `forEach` keeps the tree linked |
| WidgetTree.ListLinked | packages/project-editor/project/features/gui/widget-tree.ts:160-177 | the List loop keeps the tree linked |
| WidgetTree.GridLinked | packages/project-editor/project/features/gui/widget-tree.ts:178-200 | the Grid loop keeps the tree linked |
| WidgetTree.EachPlacement | packages/project-editor/project/features/gui/widget-tree.ts:147-159 | each child item of a page or Container is placed from the container's own origin |
| WidgetTree.ListCursorClosed | packages/project-editor/project/features/gui/widget-tree.ts:167-175 | the j-th List item starts j item heights down (vertical) or j item widths right |
| WidgetTree.ListPlacement | packages/project-editor/project/features/gui/widget-tree.ts:167-175 | the j-th List child is the item widget placed at the j-th List position |
| WidgetTree.GridPlacement | packages/project-editor/project/features/gui/widget-tree.ts:185-198 | the j-th Grid child is the item widget placed at the j-th Grid position |
| WidgetTree.GridCursorsAt | packages/project-editor/project/features/gui/widget-tree.ts:185-198 | the j-th position the Grid loop visits is the one its moves reach after j passes |
| WidgetTree.GridCursorsInside | packages/project-editor/project/features/gui/widget-tree.ts:185-198 | every Grid position after the first has its x at the left edge or inside the grid's width, and its y on the first row or inside the grid's height |
| WidgetTree.GridCursorsStep | packages/project-editor/project/features/gui/widget-tree.ts:185-198 | every Grid position after the first follows the one before: right by the item width while it fits, otherwise back to the left edge and down by the item height; the loop ends after `count` passes or where it can move no further |
| WidgetTree.SelectPlacement | packages/project-editor/project/features/gui/widget-tree.ts:201-207 | the Select's child is the picked child item at the Select's origin |
| WidgetTree.ContainerChildren | packages/project-editor/project/features/gui/widget-tree.ts:147-159 | a page's or Container's node has one child per child item, in order, each placed from the node's origin |
| WidgetTree.ListChildren | packages/project-editor/project/features/gui/widget-tree.ts:160-177 | a List's node has `count` children, each the item widget, stacked down or across by the item size |
| WidgetTree.GridChildren | packages/project-editor/project/features/gui/widget-tree.ts:178-200 | a Grid's node has between 1 and `count` children, each the item widget, at the positions the wrapping rule visits |
| WidgetTree.SelectChildren | packages/project-editor/project/features/gui/widget-tree.ts:201-207 | a Select's node has one child, the picked child at its origin, when a widget is selected, and none otherwise |
| WidgetTree.LeafChildren | packages/project-editor/project/features/gui/widget-tree.ts:146-208 | any other object, and a List or Grid without an item widget, gets no children |
| WidgetTree.WidgetTreeShape | packages/project-editor/project/features/gui/widget-tree.ts:210-214 | the root is node 0 without a parent; every other node has a parent, comes after it and is listed by it |
| WidgetTree.EnumWidget | packages/project-editor/project/features/gui/widget-tree.ts:107-212 | the method with its loops builds exactly the arena `Enum` describes and returns the new node's index |
| WidgetTree.ContainerLoop | packages/project-editor/project/features/gui/widget-tree.ts:147-159 | the `forEach` builds what `Each` describes |
| WidgetTree.ListLoop | packages/project-editor/project/features/gui/widget-tree.ts:160-177 | the List loop builds what `ListFrom` describes |
| WidgetTree.GridLoop | packages/project-editor/project/features/gui/widget-tree.ts:178-200 | the Grid loop, with its `break`, builds what `GridFrom` describes |
| WidgetTree.CreateWidgetTree | packages/project-editor/project/features/gui/widget-tree.ts:102-221 | the tree is the walk from (0, 0); its root is node 0, holds the given item and has no parent, every other node has one, and the tree is linked |

## Left out

- Selection snapshots in the undo manager are not modelled. In this store `getSelection` always returns undefined and `setSelection(undefined)` returns at once, so they change nothing.
- Commands are abstract. `execute` appends the command's edit to the document and `undo` takes it back off, because commands.ts is not part of this model.
- Only the undo manager's writes of the document's modified flag are modelled. The other writers belong to the project store, which is out of scope.
- Editor state is not modelled: `createEditorState`, `loadState`, `saveState` and the `state` field. These are callbacks of classes this model does not include.
- `EditorsStoreClass.load`, `toJS` and the constructor's autoruns are reactive and serialisation glue around the modelled operations.
- `openPermanentEditor` and the `Editor` methods `makeActive`, `makePermanent` and `close` are not modelled. They only delegate to `OpenEditor`, `ActivateEditor` or `CloseEditor`, or set one flag.
- Tree-object adapters are opaque. What an adapter reports as `selectedObject` is an oracle, a `selectObjects` call is a log entry, and `loadState` (run later through `setTimeout`) is left out.
- `NavigationStoreClass.toJS`, `showObject`, `setSelectedPanel` and the `AsObject`/`AsObjectAdapter` variants of `getNavigationSelectedItem` are left out. They cover serialisation, the editor's later selection via `setTimeout`, and console messages.
- Navigation.DefaultItem: a `defaultNavigationKey` property holding a primitive value is treated as no fallback, because the navigation map only stores objects and adapters.
- Navigation.NavigationStore.SelectedObject: the source loops without bound, and the model walks at most `fuel` steps, reporting when the fuel runs out.
- Metadata.MakeDerivedClassInfo: the model returns the merged class and leaves its input as it was. The source also writes the merged property list and the chained `beforeLoadHook` back into the caller's `derivedClassInfoProperties` object, and that in-place update is not modelled.
- Object identity is value equality. A value object is a fresh object on every lookup, so it is never identical to an earlier one.
- ObjectModel.GetObjectFromObjectId: the contract states only that a result has the requested id and is attached. It does not state that every attached object is found.
- ObjectModel.GetChildOfObject: a value object given a property key yields undefined. The source would wrap that property in a further value object, but no modelled caller passes a value object a property key.
- `uniqueTop` and `reduceUntilCommonParent` are not modelled. They depend on `_uniqWith`, which comes from a library that is not part of this model.
- The `getArrayAndObjectProperties` cache, the `set*` field updaters, `getAncestors`, `objectToString` and labels are not modelled. They are outside the modelled core.
- `loadObject` is not modelled: a converted value is marked `Loaded` with its input. `isReferenced` and the answer to the confirmation dialog are inputs.
- The console warnings of `updateObject` become the list of ignored properties, and other console messages are left out.
- The update command, `afterUpdateObjectHook` and `deleteObjects` are results the model returns, not effects it performs.
- Numbers are integers throughout: floating point, `filterFloat`, `filterNumber` and `validators.unit` are left out, because `validators.unit` relies on an external unit parser. The model also does not cover JavaScript number precision beyond 2^53.
- Validation.JsNumber: a string compares as the integer its trimmed text spells, blank as 0, anything else as NaN. Hexadecimal (`0x`), binary (`0b`) and octal (`0o`) numerals, exponent and decimal-fraction strings, and `Infinity`, all of which JavaScript's `Number` also accepts, are not covered.
- Rules that return a promise are left out. Every rule answers at once, so `checkValidity`'s `Promise.all` adds nothing.
- Image decoding, the canvas, the Promise around `getData`, and the bitmap editor's UI are left out.
- `drawWidget`, `drawPageFrame` and the pre-rendered `image` of a tree node are canvas drawing and are left out. The node's `draw` is kept only as whether it is the page-frame painter.
- Tree nodes of `createWidgetTree` are elements of a sequence, and parent and child links are indices into it. Object aliasing is not modelled.
- The `children` getter is modelled on the object tree. The walk takes display items with the fields it reads: kind, x, y, width, height, type, data, list type, item-widget size and the Select's widget count. The mapping from an object's properties to those fields is not modelled.
- WidgetTree.EnumWidget: inputs on which the source fails with a `TypeError` are excluded by `Shaped`. These are a page or Container without a list of children, and a List or Grid that places an item but has no `itemWidget` child.
- WidgetTree.SelectedWidget: a Select whose children are keyed by name has no child at a numeric index, so it is treated as having none.
- `data.count` and `data.getEnumValue` are parameters of the walk (`Env`). Widths and heights are integers and always present.
- `ScpiSubsystemsNavigation.tsx`, `about-box.tsx` and `dlog.tsx` are React UI, network access and chart controllers, and are not part of this model.
