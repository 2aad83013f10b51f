/**
 * The parts of packages/project-editor/core/store.ts that decide what a document edit does before
 * the edit commands run: the property filtering of `DocumentStoreClass.updateObject`, the
 * `canAdd`/`canDelete`/`canCopy`/`canCut` predicates of the context menu, and the confirmation
 * decision of `deleteItems`. The commands themselves, `loadObject` and `isReferenced` are not part
 * of this model: the values handed to them are the results, and `isReferenced` and the answer to
 * the confirmation dialog are inputs.
 */
module Documents {
  import opened Wrappers
  import opened Strings
  import opened Metadata
  import opened ObjectModel

  // ---------------------------------------------------------------------------
  // updateObject

  /** A value given for a property: `undefined`, an existing object, a primitive, or a plain JS object. */
  datatype Input = Undefined | EezObject(item: Item) | Scalar(p: Primitive) | PlainObject(raw: nat)

  /** A value passed on to the update command: as given, or converted by `loadObject`. */
  datatype NewValue = AsIs(input: Input) | Loaded(input: Input)

  /** A property the update left out, as the console message reports it. */
  datatype Ignored = IgnoredComputed(name: string) | IgnoredUnknown(name: string)

  /**
   * What `updateObject` does with its input: the values for the update command, the old values
   * handed to the class's `afterUpdateObjectHook` (`None` when the class has no hook), and the
   * properties it ignored, in input order.
   */
  datatype UpdatePlan = UpdatePlan(values: map<string, NewValue>, oldValues: Option<map<string, Option<Value>>>, ignored: seq<Ignored>)

  /** A name ending in "_" names a resolution-dependent variant of the property without it. */
  function LookupName(name: string): (r: string)
    ensures EndsWith(name, "_") ==> r + "_" == name
    ensures !EndsWith(name, "_") ==> r == name
  {
    if EndsWith(name, "_") then name[..|name| - 1] else name
  }

  /** The property that an input name refers to. */
  function PropertyFor(t: Tree, x: Item, name: string): Option<PropertyInfo>
    requires ValidItem(t, x)
  {
    FindPropertyByName(ClassOf(t, x), LookupName(name))
  }

  /** The input name is kept: it refers to a property of the class that is not computed. */
  predicate Accepted(t: Tree, x: Item, name: string)
    requires ValidItem(t, x)
  {
    PropertyFor(t, x, name).Some? && !PropertyFor(t, x, name).value.computed
  }

  /** An object or array property given a defined value that is not already an object is loaded. */
  function Convert(p: PropertyInfo, v: Input): NewValue
  {
    if IsContainerType(p.ptype) && !v.Undefined? && !v.EezObject? then Loaded(v) else AsIs(v)
  }

  /** The property is the reason the input name is ignored. */
  function IgnoreNote(t: Tree, x: Item, name: string): Ignored
    requires ValidItem(t, x)
  {
    if PropertyFor(t, x, name).Some? then IgnoredComputed(name) else IgnoredUnknown(name)
  }

  /** One iteration of the loop of `updateObject`, for the input `entry`. */
  function PlanStep(t: Tree, x: Item, plan: UpdatePlan, entry: (string, Input)): UpdatePlan
    requires ValidItem(t, x)
  {
    var name := entry.0;
    var oldValues := match plan.oldValues
      case None => None
      case Some(o) => Some(o[name := GetProperty(t, x, name)]);
    if Accepted(t, x, name) then
      UpdatePlan(plan.values[name := Convert(PropertyFor(t, x, name).value, entry.1)], oldValues, plan.ignored)
    else
      UpdatePlan(plan.values, oldValues, plan.ignored + [IgnoreNote(t, x, name)])
  }

  /** The plan `updateObject` makes for the inputs, in order; the hook exists or not for all of them. */
  function Plan(t: Tree, x: Item, inputs: seq<(string, Input)>): (r: UpdatePlan)
    requires ValidItem(t, x)
    ensures r.oldValues.Some? <==> ClassOf(t, x).hasAfterUpdateObjectHook
    decreases |inputs|
  {
    if inputs == [] then
      UpdatePlan(map[], if ClassOf(t, x).hasAfterUpdateObjectHook then Some(map[]) else None, [])
    else
      var n := |inputs| - 1;
      PlanStep(t, x, Plan(t, x, inputs[..n]), inputs[n])
  }

  /** Some input has the name `k`. */
  predicate Named(inputs: seq<(string, Input)>, k: string) {
    exists i :: 0 <= i < |inputs| && inputs[i].0 == k
  }

  lemma NamedLast(inputs: seq<(string, Input)>, k: string)
    requires inputs != []
    ensures Named(inputs, k) <==> Named(inputs[..|inputs| - 1], k) || inputs[|inputs| - 1].0 == k
  {
    var n := |inputs| - 1;
    var prefix := inputs[..n];
    if Named(inputs, k) {
      var i :| 0 <= i < |inputs| && inputs[i].0 == k;
      if i < n {
        assert prefix[i] == inputs[i];
      }
    }
    if Named(prefix, k) {
      var i :| 0 <= i < |prefix| && prefix[i].0 == k;
      assert inputs[i] == prefix[i];
    }
  }

  /** The update gets the accepted input names and only those. */
  lemma {:induction false} PlanKeys(t: Tree, x: Item, inputs: seq<(string, Input)>, k: string)
    requires ValidItem(t, x)
    ensures k in Plan(t, x, inputs).values <==> Named(inputs, k) && Accepted(t, x, k)
    decreases |inputs|
  {
    if inputs != [] {
      var n := |inputs| - 1;
      PlanKeys(t, x, inputs[..n], k);
      NamedLast(inputs, k);
    }
  }

  /** With a hook, the hook gets the old value of every input name, ignored ones included. */
  lemma {:induction false} PlanOldValues(t: Tree, x: Item, inputs: seq<(string, Input)>, k: string)
    requires ValidItem(t, x) && ClassOf(t, x).hasAfterUpdateObjectHook
    ensures var recorded := Plan(t, x, inputs).oldValues.value;
      (k in recorded <==> Named(inputs, k)) && (k in recorded ==> recorded[k] == GetProperty(t, x, k))
    decreases |inputs|
  {
    if inputs != [] {
      var n := |inputs| - 1;
      PlanOldValues(t, x, inputs[..n], k);
      NamedLast(inputs, k);
    }
  }

  /** One step of the loop keeps the value of every other name and sets its own when accepted. */
  lemma PlanStepValue(t: Tree, x: Item, plan: UpdatePlan, entry: (string, Input), name: string)
    requires ValidItem(t, x)
    ensures var r := PlanStep(t, x, plan, entry).values;
      (name != entry.0 ==> (name in r <==> name in plan.values) && (name in r ==> r[name] == plan.values[name]))
      && (name == entry.0 && Accepted(t, x, name) ==>
            name in r && r[name] == Convert(PropertyFor(t, x, name).value, entry.1))
  {
  }

  /** The last input leaves the value for any other name as the inputs before it made it. */
  lemma PlanLastKeeps(t: Tree, x: Item, inputs: seq<(string, Input)>, name: string)
    requires ValidItem(t, x) && inputs != [] && inputs[|inputs| - 1].0 != name
    ensures name in Plan(t, x, inputs[..|inputs| - 1]).values ==>
      name in Plan(t, x, inputs).values
      && Plan(t, x, inputs).values[name] == Plan(t, x, inputs[..|inputs| - 1]).values[name]
  {
    var n := |inputs| - 1;
    PlanStepValue(t, x, Plan(t, x, inputs[..n]), inputs[n], name);
  }

  /** An accepted last input is passed on, converted by the type of its property. */
  lemma PlanLastSets(t: Tree, x: Item, inputs: seq<(string, Input)>)
    requires ValidItem(t, x) && inputs != [] && Accepted(t, x, inputs[|inputs| - 1].0)
    ensures var last := inputs[|inputs| - 1];
      last.0 in Plan(t, x, inputs).values
      && Plan(t, x, inputs).values[last.0] == Convert(PropertyFor(t, x, last.0).value, last.1)
  {
    var n := |inputs| - 1;
    PlanStepValue(t, x, Plan(t, x, inputs[..n]), inputs[n], inputs[n].0);
  }

  /**
   * An accepted input that no later input overrides is passed on, converted by the type of its
   * property; with distinct names, as a JavaScript object has, this is every accepted input.
   */
  lemma {:induction false} PlanValues(t: Tree, x: Item, inputs: seq<(string, Input)>, i: nat)
    requires ValidItem(t, x) && i < |inputs| && Accepted(t, x, inputs[i].0)
    requires forall j :: i < j < |inputs| ==> inputs[j].0 != inputs[i].0
    ensures inputs[i].0 in Plan(t, x, inputs).values
    ensures Plan(t, x, inputs).values[inputs[i].0] == Convert(PropertyFor(t, x, inputs[i].0).value, inputs[i].1)
    decreases |inputs|
  {
    var n := |inputs| - 1;
    if i < n {
      var prefix := inputs[..n];
      assert prefix[i] == inputs[i];
      LaterNamesDiffer(inputs, n, i);
      PlanValues(t, x, prefix, i);
      PlanLastKeeps(t, x, inputs, inputs[i].0);
    } else {
      PlanLastSets(t, x, inputs);
    }
  }

  /** Dropping the inputs from `n` on keeps the names after `i` different from its name. */
  lemma LaterNamesDiffer(inputs: seq<(string, Input)>, n: nat, i: nat)
    requires i < n <= |inputs|
    requires forall j :: i < j < |inputs| ==> inputs[j].0 != inputs[i].0
    ensures forall j :: i < j < n ==> inputs[..n][j].0 != inputs[..n][i].0
  {
  }

  /** The report of the last input, if it is ignored, follows the reports of the ones before. */
  lemma PlanIgnoredLast(t: Tree, x: Item, inputs: seq<(string, Input)>)
    requires ValidItem(t, x) && inputs != []
    ensures var n := |inputs| - 1;
      Plan(t, x, inputs).ignored ==
        Plan(t, x, inputs[..n]).ignored + if Accepted(t, x, inputs[n].0) then [] else [IgnoreNote(t, x, inputs[n].0)]
  {
  }

  /** Each report names an ignored input, with its reason. */
  lemma {:induction false} PlanIgnoredSound(t: Tree, x: Item, inputs: seq<(string, Input)>, j: nat)
    requires ValidItem(t, x) && j < |Plan(t, x, inputs).ignored|
    ensures
      exists i :: 0 <= i < |inputs| && !Accepted(t, x, inputs[i].0)
        && Plan(t, x, inputs).ignored[j] == IgnoreNote(t, x, inputs[i].0)
    decreases |inputs|
  {
    var n := |inputs| - 1;
    var prefix := inputs[..n];
    PlanIgnoredLast(t, x, inputs);
    var before := Plan(t, x, prefix).ignored;
    if j < |before| {
      PlanIgnoredSound(t, x, prefix, j);
      var i :| 0 <= i < |prefix| && !Accepted(t, x, prefix[i].0) && before[j] == IgnoreNote(t, x, prefix[i].0);
      assert inputs[i] == prefix[i];
    } else {
      assert !Accepted(t, x, inputs[n].0);
    }
  }

  /** Each ignored input is reported, with its reason. */
  lemma {:induction false} PlanIgnoredComplete(t: Tree, x: Item, inputs: seq<(string, Input)>, i: nat)
    requires ValidItem(t, x) && i < |inputs| && !Accepted(t, x, inputs[i].0)
    ensures
      exists j :: 0 <= j < |Plan(t, x, inputs).ignored|
        && Plan(t, x, inputs).ignored[j] == IgnoreNote(t, x, inputs[i].0)
    decreases |inputs|
  {
    var n := |inputs| - 1;
    var prefix := inputs[..n];
    PlanIgnoredLast(t, x, inputs);
    var before := Plan(t, x, prefix).ignored;
    var ignored := Plan(t, x, inputs).ignored;
    var tail := if Accepted(t, x, inputs[n].0) then [] else [IgnoreNote(t, x, inputs[n].0)];
    assert ignored == before + tail;
    if i < n {
      assert prefix[i] == inputs[i];
      PlanIgnoredComplete(t, x, prefix, i);
      var j :| 0 <= j < |before| && before[j] == IgnoreNote(t, x, prefix[i].0);
      assert ignored[j] == before[j];
    } else {
      assert i == n && !Accepted(t, x, inputs[n].0);
      assert tail == [IgnoreNote(t, x, inputs[n].0)];
      assert ignored[|before|] == tail[0];
    }
  }

  /** A name with the "_" suffix looks up the property without it; other names look up themselves. */
  lemma ResolutionDependentName(t: Tree, x: Item, name: string)
    requires ValidItem(t, x)
    ensures PropertyFor(t, x, name + "_") == FindPropertyByName(ClassOf(t, x), name)
    ensures !EndsWith(name, "_") ==> PropertyFor(t, x, name) == FindPropertyByName(ClassOf(t, x), name)
  {
    var s := name + "_";
    assert EndsWith(s, "_");
    assert s[..|s| - 1] == name;
  }

  /** The plan for one more input is one more step of the loop. */
  lemma PlanSnoc(t: Tree, x: Item, inputs: seq<(string, Input)>, i: nat)
    requires ValidItem(t, x) && i < |inputs|
    ensures Plan(t, x, inputs[..i + 1]) == PlanStep(t, x, Plan(t, x, inputs[..i]), inputs[i])
  {
    assert inputs[..i + 1][..i] == inputs[..i];
  }

  /** `DocumentStore.updateObject`'s loop over the own properties of the input. */
  method UpdateObject(t: Tree, x: Item, inputs: seq<(string, Input)>) returns (plan: UpdatePlan)
    requires ValidItem(t, x)
    ensures plan == Plan(t, x, inputs)
  {
    var values: map<string, NewValue> := map[];
    var oldValues: Option<map<string, Option<Value>>> := None;
    var hook := ClassOf(t, x).hasAfterUpdateObjectHook;
    if hook {
      oldValues := Some(map[]);
    }
    var ignored: seq<Ignored> := [];
    for i := 0 to |inputs|
      invariant Plan(t, x, inputs[..i]) == UpdatePlan(values, oldValues, ignored)
    {
      PlanSnoc(t, x, inputs, i);
      ghost var before := UpdatePlan(values, oldValues, ignored);
      var name := inputs[i].0;
      if hook {
        oldValues := Some(oldValues.value[name := GetProperty(t, x, name)]);
      }
      var propertyInfo := FindPropertyByName(ClassOf(t, x), LookupName(name));
      if propertyInfo.Some? {
        if !propertyInfo.value.computed {
          values := values[name := Convert(propertyInfo.value, inputs[i].1)];
        } else {
          ignored := ignored + [IgnoredComputed(name)];
        }
      } else {
        ignored := ignored + [IgnoredUnknown(name)];
      }
      assert UpdatePlan(values, oldValues, ignored) == PlanStep(t, x, before, inputs[i]);
    }
    assert inputs[..|inputs|] == inputs;
    plan := UpdatePlan(values, oldValues, ignored);
  }

  // ---------------------------------------------------------------------------
  // canAdd, canDelete, canCopy, canCut

  /** `canAdd`: the object is an array or an array element, and its class can make new items. */
  predicate CanAdd(t: Tree, x: Item)
    requires WellFormed(t) && ValidItem(t, x)
  {
    (IsArrayElement(t, x) || IsArray(t, x)) && ClassOf(t, x).hasNewItem
  }

  /** `isOptional`: the parent's property named by the object's key is declared optional. */
  predicate IsOptional(t: Tree, x: Item)
    requires WellFormed(t) && ValidItem(t, x)
  {
    ParentInArena(t, x);
    match ParentOf(t, x)
    case None => false
    case Some(p) =>
      var property := FindPropertyByName(t.nodes[p].classInfo, KeyOf(t, x));
      property.Some? && property.value.isOptional
  }

  /** `canDelete`. */
  function CanDelete(t: Tree, x: Item): (r: bool)
    requires WellFormed(t) && ValidItem(t, x)
    ensures r ==> ParentOf(t, x).Some?
    ensures r <==> IsArrayElement(t, x) || IsOptional(t, x)
  {
    IsArrayElement(t, x) || IsOptional(t, x)
  }

  /** `canCopy`, the same test as `canDelete`. */
  function CanCopy(t: Tree, x: Item): (r: bool)
    requires WellFormed(t) && ValidItem(t, x)
    ensures r <==> CanDelete(t, x)
  {
    IsArrayElement(t, x) || IsOptional(t, x)
  }

  /** `canCut`: copy and delete both allowed. */
  function CanCut(t: Tree, x: Item): bool
    requires WellFormed(t) && ValidItem(t, x)
  {
    CanCopy(t, x) && CanDelete(t, x)
  }

  /** Cut, copy and delete are offered together; the root offers none of them. */
  lemma CutCopyDeleteAgree(t: Tree, x: Item)
    requires WellFormed(t) && ValidItem(t, x)
    ensures CanCut(t, x) == CanCopy(t, x) == CanDelete(t, x)
    ensures x == Stored(t.root) && t.nodes[t.root].parent.None? ==> !CanDelete(t, x)
  {
  }

  /** An element of an array can be added to exactly when its class can make new items. */
  lemma CanAddElement(t: Tree, x: Item)
    requires WellFormed(t) && ValidItem(t, x) && IsArrayElement(t, x)
    ensures CanAdd(t, x) <==> ClassOf(t, x).hasNewItem
    ensures CanDelete(t, x) && CanCopy(t, x) && CanCut(t, x)
  {
  }

  // ---------------------------------------------------------------------------
  // deleteItems

  /** A confirmation dialog: its question and its detail line. */
  datatype Prompt = Prompt(message: string, detail: string)

  /** The call `DocumentStore.deleteObjects` makes: one object, or several in one command. */
  datatype Deletion = DeleteOne(item: Item) | DeleteMany(items: seq<Item>)

  /** What `deleteItems` does: the dialog it shows, the deletion it makes, and whether the callback runs. */
  datatype DeleteOutcome = DeleteOutcome(prompt: Option<Prompt>, deletion: Option<Deletion>, callbackRun: bool)

  const SinglePrompt := Prompt("Are you sure you want to delete this item?", "It is used in other parts.")
  const ManyPrompt := Prompt("Are you sure you want to delete this items?", "Some of them are used in other parts.")

  /** `DocumentStore.deleteObjects`: a single object is deleted on its own. */
  function DeletionOf(objects: seq<Item>): (r: Deletion)
    ensures r.DeleteOne? <==> |objects| == 1
    ensures r.DeleteOne? ==> r.item == objects[0]
    ensures r.DeleteMany? ==> r.items == objects
  {
    if |objects| == 1 then DeleteOne(objects[0]) else DeleteMany(objects)
  }

  /**
   * `deleteItems(objects, callback)`. `referenced` holds the objects `isReferenced` reports as
   * used elsewhere and `confirmed` is the answer the dialog would get.
   */
  method DeleteItems(objects: seq<Item>, referenced: set<Item>, confirmed: bool, hasCallback: bool) returns (r: DeleteOutcome)
    ensures r.prompt.Some? <==> exists i :: 0 <= i < |objects| && objects[i] in referenced
    ensures r.prompt.Some? ==> r.prompt.value == if |objects| == 1 then SinglePrompt else ManyPrompt
    ensures r.deletion.Some? <==> r.prompt.None? || confirmed
    ensures r.deletion.Some? ==> r.deletion.value == DeletionOf(objects)
    ensures r.callbackRun <==> r.deletion.Some? && hasCallback
  {
    var prompt: Option<Prompt>;
    if |objects| == 1 {
      prompt := if objects[0] in referenced then Some(SinglePrompt) else None;
    } else {
      var isAnyItemReferenced := false;
      var i := 0;
      while i < |objects|
        invariant 0 <= i <= |objects|
        invariant !isAnyItemReferenced
        invariant forall j :: 0 <= j < i ==> objects[j] !in referenced
      {
        if objects[i] in referenced {
          isAnyItemReferenced := true;
          break;
        }
        i := i + 1;
      }
      prompt := if isAnyItemReferenced then Some(ManyPrompt) else None;
    }
    if prompt.None? || confirmed {
      r := DeleteOutcome(prompt, Some(DeletionOf(objects)), hasCallback);
    } else {
      r := DeleteOutcome(prompt, None, false);
    }
  }
}
