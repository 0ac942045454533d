/**
 * The documentation tree that Extended::createHelp builds, and the state it
 * leaves behind, as functions of the directory listing and the annotations.
 * Each fold is written element by element from the end, in the order the
 * source's loops visit the elements.
 */
module Documentation {
  import opened Php
  import opened OrderedMap
  import opened Annotations
  import opened Names
  import opened Seqs

  /** One action: the last `description` arguments, if any, and every `param`'s arguments. */
  datatype ActionDoc = ActionDoc(description: Option<seq<Arg>>, params: seq<seq<Arg>>)

  /** One task: its description lines and its actions by name. */
  datatype TaskDoc = TaskDoc(description: seq<Arg>, actions: OrdMap<ActionDoc>)

  /** `$this->documentation`: task name to task documentation, in insertion order. */
  type Doc = OrdMap<TaskDoc>

  /** The documentation and every task's actions are well-formed arrays. */
  ghost predicate WellFormed(doc: Doc) {
    doc.Valid() && forall t | t in doc.values :: doc.values[t].actions.Valid()
  }

  const DefaultDescription: seq<Arg> := [Str("")]

  /** `['description' => [''], 'actions' => []]`. */
  function DefaultTask(): (t: TaskDoc)
    ensures t.description == [Str("")] && t.actions.keys == [] && t.actions.Valid()
  {
    TaskDoc(DefaultDescription, Empty())
  }

  /** `[]`, the value an action starts from. */
  const EmptyAction: ActionDoc := ActionDoc(None, [])

  // ---------------------------------------------------------------------
  // Directory listing

  /** array_diff($listing, ['..', '.']), re-indexed in iteration order. */
  function WithoutDotEntries(listing: seq<string>): (r: seq<string>)
    ensures forall f | f in r :: f in listing && f != "." && f != ".."
    ensures forall f | f in listing && f != "." && f != ".." :: f in r
    ensures |r| <= |listing|
    decreases |listing|
  {
    if listing == [] then []
    else
      var last := listing[|listing| - 1];
      WithoutDotEntries(listing[..|listing| - 1]) + (if last == "." || last == ".." then [] else [last])
  }

  /** The entries that are kept stay in listing order: filtering distributes over concatenation. */
  lemma {:induction false} WithoutDotEntriesAppend(a: seq<string>, b: seq<string>)
    ensures WithoutDotEntries(a + b) == WithoutDotEntries(a) + WithoutDotEntries(b)
    decreases |b|
  {
    if b == [] {
      assert a + b == a;
    } else {
      var init := b[..|b| - 1];
      assert (a + b)[..|a + b| - 1] == a + init;
      WithoutDotEntriesAppend(a, init);
      Associative(WithoutDotEntries(a), WithoutDotEntries(init),
                  if b[|b| - 1] == "." || b[|b| - 1] == ".." then [] else [b[|b| - 1]]);
    }
  }

  /** The first entry, unless it is `.` or `..`, comes first, followed by the filtered rest. */
  lemma WithoutDotEntriesFront(listing: seq<string>)
    requires listing != []
    ensures WithoutDotEntries(listing) ==
      (if listing[0] == "." || listing[0] == ".." then [] else [listing[0]]) + WithoutDotEntries(listing[1..])
  {
    assert listing == [listing[0]] + listing[1..];
    WithoutDotEntriesAppend([listing[0]], listing[1..]);
    assert [listing[0]][..0] == [];
  }

  // ---------------------------------------------------------------------
  // Class annotations

  /** The task description after the loop over the class annotations. */
  function TaskDescription(anns: seq<Annotation>): (r: seq<Arg>)
    ensures r == DefaultDescription || exists i | 0 <= i < |anns| :: anns[i].name == "description" && r == anns[i].arguments
    decreases |anns|
  {
    if anns == [] then DefaultDescription
    else if anns[|anns| - 1].name == "description" then anns[|anns| - 1].arguments
    else TaskDescription(anns[..|anns| - 1])
  }

  /** `anns[i]` is the last annotation called `name`. */
  predicate LastNamed(anns: seq<Annotation>, name: string, i: nat) {
    i < |anns| && anns[i].name == name && forall j | i < j < |anns| :: anns[j].name != name
  }

  /** No annotation is called `name`. */
  predicate NoneNamed(anns: seq<Annotation>, name: string) {
    forall i | 0 <= i < |anns| :: anns[i].name != name
  }

  /** The task description is the arguments of the last `description` class annotation. */
  lemma {:induction false} TaskDescriptionLastWins(anns: seq<Annotation>, i: nat)
    requires LastNamed(anns, "description", i)
    ensures TaskDescription(anns) == anns[i].arguments
    decreases |anns|
  {
    if i < |anns| - 1 {
      var init := anns[..|anns| - 1];
      assert init[i] == anns[i];
      TaskDescriptionLastWins(init, i);
    }
  }

  /** Without a `description` class annotation the description stays `['']`. */
  lemma {:induction false} TaskDescriptionDefault(anns: seq<Annotation>)
    requires NoneNamed(anns, "description")
    ensures TaskDescription(anns) == [Str("")]
    decreases |anns|
  {
    if anns != [] {
      TaskDescriptionDefault(anns[..|anns| - 1]);
    }
  }

  // ---------------------------------------------------------------------
  // Action annotations

  /** The effect of one method annotation on its action's entry. */
  function ApplyActionAnnotation(a: ActionDoc, ann: Annotation): (r: ActionDoc)
    ensures r.description == if ann.name == "description" then Some(ann.arguments) else a.description
    ensures r.params == if ann.name == "param" then a.params + [ann.arguments] else a.params
  {
    if ann.name == "description" then a.(description := Some(ann.arguments))
    else if ann.name == "param" then a.(params := a.params + [ann.arguments])
    else a
  }

  /** The action entry after the loop over one method's annotations. */
  function ActionDocOf(anns: seq<Annotation>): (r: ActionDoc)
    ensures |r.params| <= |anns|
    ensures r.description.Some? ==> exists i | 0 <= i < |anns| :: anns[i].name == "description" && r.description.value == anns[i].arguments
    decreases |anns|
  {
    if anns == [] then EmptyAction
    else ApplyActionAnnotation(ActionDocOf(anns[..|anns| - 1]), anns[|anns| - 1])
  }

  /** An action's description is the arguments of its last `description` annotation. */
  lemma {:induction false} ActionDescriptionLastWins(anns: seq<Annotation>, i: nat)
    requires LastNamed(anns, "description", i)
    ensures ActionDocOf(anns).description == Some(anns[i].arguments)
    decreases |anns|
  {
    if i < |anns| - 1 {
      var init := anns[..|anns| - 1];
      assert init[i] == anns[i];
      ActionDescriptionLastWins(init, i);
    }
  }

  /** An action has no description exactly when none of its annotations is a `description`. */
  lemma {:induction false} ActionDescriptionAbsent(anns: seq<Annotation>)
    ensures ActionDocOf(anns).description.None? <==> NoneNamed(anns, "description")
    decreases |anns|
  {
    if anns != [] {
      var init := anns[..|anns| - 1];
      ActionDescriptionAbsent(init);
      if NoneNamed(init, "description") && anns[|anns| - 1].name != "description" {
        assert NoneNamed(anns, "description");
      }
    }
  }

  /** The arguments of every annotation called `name`, in source order. */
  function ArgumentsNamed(anns: seq<Annotation>, name: string): (r: seq<seq<Arg>>)
    ensures |r| <= |anns|
  {
    if anns == [] then []
    else (if anns[0].name == name then [anns[0].arguments] else []) + ArgumentsNamed(anns[1..], name)
  }

  lemma {:induction false} ArgumentsNamedAppend(anns: seq<Annotation>, ann: Annotation, name: string)
    ensures ArgumentsNamed(anns + [ann], name) == ArgumentsNamed(anns, name) + (if ann.name == name then [ann.arguments] else [])
    decreases |anns|
  {
    if anns != [] {
      assert (anns + [ann])[1..] == anns[1..] + [ann];
      ArgumentsNamedAppend(anns[1..], ann, name);
    }
  }

  /** `params` lists the arguments of every `param` annotation, in source order and number. */
  lemma {:induction false} ActionParamsInOrder(anns: seq<Annotation>)
    ensures ActionDocOf(anns).params == ArgumentsNamed(anns, "param")
    decreases |anns|
  {
    if anns != [] {
      var init := anns[..|anns| - 1];
      assert anns == init + [anns[|anns| - 1]];
      ActionParamsInOrder(init);
      ArgumentsNamedAppend(init, anns[|anns| - 1], "param");
    }
  }

  /** An annotation that is neither `description` nor `param` changes nothing, wherever it stands. */
  lemma {:induction false} ActionIgnoresOtherAnnotations(before: seq<Annotation>, other: Annotation, after: seq<Annotation>)
    requires other.name != "description" && other.name != "param"
    ensures ActionDocOf(before + [other] + after) == ActionDocOf(before + after)
    decreases |after|
  {
    if after == [] {
      assert before + [other] + after == before + [other];
      assert before + after == before;
      assert (before + [other])[..|before|] == before;
    } else {
      var init := after[..|after| - 1];
      var last := after[|after| - 1];
      assert (before + [other] + after)[..|before + [other] + after| - 1] == before + [other] + init;
      assert (before + after)[..|before + after| - 1] == before + init;
      ActionIgnoresOtherAnnotations(before, other, init);
    }
  }

  // ---------------------------------------------------------------------
  // Method annotations

  /** A method whose collection carries `DoNotCover` is left out of the help. */
  predicate Covered(m: MethodAnnotations) {
    !Has(m.collection, "DoNotCover")
  }

  /** The actions of a task after the loop over its method annotations. */
  function Actions(methods: seq<MethodAnnotations>): (r: OrdMap<ActionDoc>)
    ensures r.Valid()
    decreases |methods|
  {
    if methods == [] then Empty()
    else
      var m := methods[|methods| - 1];
      var acts := Actions(methods[..|methods| - 1]);
      if Covered(m) then Put(acts, ActionName(m.action), ActionDocOf(m.collection.annotations)) else acts
  }

  /** An action key exists exactly when some covered method derives it. */
  lemma {:induction false} ActionKeys(methods: seq<MethodAnnotations>, name: string)
    ensures name in Actions(methods).values <==>
      exists i | 0 <= i < |methods| :: Covered(methods[i]) && ActionName(methods[i].action) == name
    decreases |methods|
  {
    if methods != [] {
      var init, last := methods[..|methods| - 1], |methods| - 1;
      var m := methods[last];
      ActionKeys(init, name);
      ActionsStep(methods, name);
      if name in Actions(methods).values && !(Covered(m) && ActionName(m.action) == name) {
        var i :| 0 <= i < |init| && Covered(init[i]) && ActionName(init[i].action) == name;
        assert methods[i] == init[i];
      }
      if exists i | 0 <= i < |methods| :: Covered(methods[i]) && ActionName(methods[i].action) == name {
        var i :| 0 <= i < |methods| && Covered(methods[i]) && ActionName(methods[i].action) == name;
        if i < last {
          assert init[i] == methods[i];
        }
      }
    }
  }

  /** One more method adds its name when it is covered, and nothing else. */
  lemma ActionsStep(methods: seq<MethodAnnotations>, name: string)
    requires methods != []
    ensures var m := methods[|methods| - 1];
            name in Actions(methods).values <==>
              name in Actions(methods[..|methods| - 1]).values || (Covered(m) && ActionName(m.action) == name)
  {
  }

  /** A method carrying `DoNotCover` never produces an action of its own name unless a covered method does. */
  lemma ExcludedNeverListed(methods: seq<MethodAnnotations>, k: nat)
    requires k < |methods| && !Covered(methods[k])
    requires forall i | 0 <= i < |methods| && Covered(methods[i]) :: ActionName(methods[i].action) != ActionName(methods[k].action)
    ensures ActionName(methods[k].action) !in Actions(methods).values
  {
    ActionKeys(methods, ActionName(methods[k].action));
  }

  /** The entry of an action is that of the last covered method deriving its name. */
  lemma {:induction false} ActionLastWins(methods: seq<MethodAnnotations>, k: nat)
    requires k < |methods| && Covered(methods[k])
    requires forall j | k < j < |methods| && Covered(methods[j]) :: ActionName(methods[j].action) != ActionName(methods[k].action)
    ensures ActionName(methods[k].action) in Actions(methods).values
    ensures Actions(methods).values[ActionName(methods[k].action)] == ActionDocOf(methods[k].collection.annotations)
    decreases |methods|
  {
    if k < |methods| - 1 {
      var init := methods[..|methods| - 1];
      assert init[k] == methods[k];
      ActionLastWins(init, k);
    }
  }

  /** The action names of `methods`, in order. */
  function ActionNames(methods: seq<MethodAnnotations>): (r: seq<string>)
    ensures |r| == |methods|
    ensures forall i | 0 <= i < |methods| :: r[i] == ActionName(methods[i].action)
    decreases |methods|
  {
    if methods == [] then [] else ActionNames(methods[..|methods| - 1]) + [ActionName(methods[|methods| - 1].action)]
  }

  /** The methods not marked `DoNotCover`, in declaration order. */
  function CoveredMethods(methods: seq<MethodAnnotations>): (r: seq<MethodAnnotations>)
    ensures |r| <= |methods|
    ensures forall m | m in r :: m in methods && Covered(m)
    ensures forall m | m in methods && Covered(m) :: m in r
    decreases |methods|
  {
    if methods == [] then []
    else
      var init, m := methods[..|methods| - 1], methods[|methods| - 1];
      assert methods == init + [m];
      CoveredMethods(init) + (if Covered(m) then [m] else [])
  }

  /** Filtering distributes over concatenation, so the covered methods keep their declaration order. */
  lemma {:induction false} CoveredMethodsAppend(a: seq<MethodAnnotations>, b: seq<MethodAnnotations>)
    ensures CoveredMethods(a + b) == CoveredMethods(a) + CoveredMethods(b)
    decreases |b|
  {
    if b == [] {
      assert a + b == a;
    } else {
      var init, m := b[..|b| - 1], b[|b| - 1];
      assert b == init + [m];
      assert a + b == (a + init) + [m];
      assert ((a + init) + [m])[..|a + init|] == a + init;
      CoveredMethodsAppend(a, init);
      Associative(CoveredMethods(a), CoveredMethods(init), if Covered(m) then [m] else []);
    }
  }

  /**
   * When the covered methods derive distinct names, the actions are those
   * names in declaration order; `DoNotCover` methods leave no gap.
   */
  lemma {:induction false} ActionOrder(methods: seq<MethodAnnotations>)
    requires forall i, j | 0 <= i < j < |methods| && Covered(methods[i]) && Covered(methods[j]) ::
      ActionName(methods[i].action) != ActionName(methods[j].action)
    ensures Actions(methods).keys == ActionNames(CoveredMethods(methods))
    decreases |methods|
  {
    if methods != [] {
      var init := methods[..|methods| - 1];
      var m := methods[|methods| - 1];
      assert forall i | 0 <= i < |init| :: init[i] == methods[i];
      ActionOrder(init);
      if Covered(m) {
        var name := ActionName(m.action);
        ActionKeys(init, name);
        assert name !in Actions(init).values by {
          forall i | 0 <= i < |init| && Covered(init[i]) ensures ActionName(init[i].action) != name {
            assert init[i] == methods[i];
          }
        }
        var c := CoveredMethods(init);
        assert (c + [m])[..|c|] == c;
      }
    }
  }
  // ---------------------------------------------------------------------
  // One task file

  /** The entry a task file receives, given what the reader returns for its class. */
  function TaskDocOf(r: Reflector): (t: TaskDoc)
    ensures r.classAnnotations.None? ==> t == DefaultTask()
    ensures t.actions.Valid()
  {
    match r.classAnnotations
    case None => DefaultTask()
    case Some(c) => TaskDoc(TaskDescription(c.annotations), Actions(r.methodsAnnotations))
  }

  /** A class without class annotations keeps the defaults, whatever its methods say. */
  lemma NoClassAnnotationsNoActions(r: Reflector)
    requires r.classAnnotations.None?
    ensures TaskDocOf(r).description == [Str("")] && TaskDocOf(r).actions.keys == []
  {
  }

  /** The task name and class identifier of a directory entry. */
  function EntryTaskName(entry: string): string {
    TaskName(PathFilename(entry))
  }

  function EntryTaskClass(namespace: string, entry: string): string {
    TaskClass(namespace, PathFilename(entry))
  }

  /** One iteration of the loop over the task files. */
  function AddTask(doc: Doc, namespace: string, reader: string -> Reflector, entry: string): (r: Doc)
    ensures EntryTaskName(entry) in r.values
    ensures r.values[EntryTaskName(entry)] == TaskDocOf(reader(EntryTaskClass(namespace, entry)))
    ensures forall k | k in doc.values && k != EntryTaskName(entry) :: k in r.values && r.values[k] == doc.values[k]
    ensures forall k | k in r.values :: k in doc.values || k == EntryTaskName(entry)
  {
    Put(doc, EntryTaskName(entry), TaskDocOf(reader(EntryTaskClass(namespace, entry))))
  }

  /** One iteration adds the task's name at the end unless it is already a key. */
  lemma AddTaskKeys(doc: Doc, namespace: string, reader: string -> Reflector, entry: string)
    requires doc.Valid()
    ensures AddTask(doc, namespace, reader, entry).Valid()
    ensures AddTask(doc, namespace, reader, entry).keys ==
      if EntryTaskName(entry) in doc.keys then doc.keys else doc.keys + [EntryTaskName(entry)]
  {
  }

  /** The documentation after the loop over `files`, starting from `doc`. */
  function Build(doc: Doc, namespace: string, reader: string -> Reflector, files: seq<string>): (r: Doc)
    ensures forall k | k in doc.values :: k in r.values
    ensures forall i | 0 <= i < |files| :: EntryTaskName(files[i]) in r.values
    decreases |files|
  {
    if files == [] then doc
    else
      var init := files[..|files| - 1];
      assert forall i | 0 <= i < |init| :: init[i] == files[i];
      AddTask(Build(doc, namespace, reader, init), namespace, reader, files[|files| - 1])
  }

  /** The documentation stays a well-formed array, and keys present before keep their places. */
  lemma {:induction false} BuildValid(doc: Doc, namespace: string, reader: string -> Reflector, files: seq<string>)
    requires doc.Valid()
    ensures Build(doc, namespace, reader, files).Valid()
    ensures |doc.keys| <= |Build(doc, namespace, reader, files).keys|
    ensures Build(doc, namespace, reader, files).keys[..|doc.keys|] == doc.keys
    decreases |files|
  {
    if files != [] {
      BuildValid(doc, namespace, reader, files[..|files| - 1]);
    }
  }

  /** createHelp keeps the documentation well formed. */
  lemma {:induction false} BuildWellFormed(doc: Doc, namespace: string, reader: string -> Reflector, files: seq<string>)
    requires WellFormed(doc)
    ensures WellFormed(Build(doc, namespace, reader, files))
    decreases |files|
  {
    BuildValid(doc, namespace, reader, files);
    if files != [] {
      BuildWellFormed(doc, namespace, reader, files[..|files| - 1]);
    }
  }

  /** Extended::createHelp, for a listing as scandir returns it. */
  function BuildDocumentation(doc: Doc, listing: seq<string>, namespace: string, reader: string -> Reflector): (r: Doc)
    ensures forall k | k in doc.values :: k in r.values
    ensures forall f | f in listing && f != "." && f != ".." :: EntryTaskName(f) in r.values
  {
    var files := WithoutDotEntries(listing);
    assert forall f | f in listing && f != "." && f != ".." :: exists i | 0 <= i < |files| :: files[i] == f;
    Build(doc, namespace, reader, files)
  }

  /** The task names of `files`, in order. */
  function TaskNames(files: seq<string>): (r: seq<string>)
    ensures |r| == |files|
    ensures forall i | 0 <= i < |files| :: r[i] == EntryTaskName(files[i])
    decreases |files|
  {
    if files == [] then [] else TaskNames(files[..|files| - 1]) + [EntryTaskName(files[|files| - 1])]
  }

  /** Every file yields a key; no other key is added. */
  lemma {:induction false} BuildKeys(doc: Doc, namespace: string, reader: string -> Reflector, files: seq<string>, name: string)
    ensures name in Build(doc, namespace, reader, files).values <==> name in doc.values || name in TaskNames(files)
    decreases |files|
  {
    if files != [] {
      BuildKeys(doc, namespace, reader, files[..|files| - 1], name);
    }
  }

  /** A key holds the data of the last file that maps to it. */
  lemma {:induction false} BuildLastWins(doc: Doc, namespace: string, reader: string -> Reflector, files: seq<string>, k: nat)
    requires k < |files|
    requires forall j | k < j < |files| :: EntryTaskName(files[j]) != EntryTaskName(files[k])
    ensures EntryTaskName(files[k]) in Build(doc, namespace, reader, files).values
    ensures Build(doc, namespace, reader, files).values[EntryTaskName(files[k])]
            == TaskDocOf(reader(EntryTaskClass(namespace, files[k])))
    decreases |files|
  {
    if k < |files| - 1 {
      var init := files[..|files| - 1];
      assert init[k] == files[k];
      BuildLastWins(doc, namespace, reader, init, k);
    }
  }

  /** Keys no file maps to keep what they held before the call. */
  lemma {:induction false} BuildKeepsOthers(doc: Doc, namespace: string, reader: string -> Reflector, files: seq<string>, name: string)
    requires name in doc.values
    requires forall i | 0 <= i < |files| :: EntryTaskName(files[i]) != name
    ensures name in Build(doc, namespace, reader, files).values
    ensures Build(doc, namespace, reader, files).values[name] == doc.values[name]
    decreases |files|
  {
    if files != [] {
      BuildKeepsOthers(doc, namespace, reader, files[..|files| - 1], name);
    }
  }

  /** N files with distinct, new task names give N new keys, in scan order. */
  lemma {:induction false} BuildDistinctNames(doc: Doc, namespace: string, reader: string -> Reflector, files: seq<string>)
    requires doc.Valid()
    requires forall i | 0 <= i < |files| :: EntryTaskName(files[i]) !in doc.values
    requires forall i, j | 0 <= i < j < |files| :: EntryTaskName(files[i]) != EntryTaskName(files[j])
    ensures Build(doc, namespace, reader, files).keys == doc.keys + TaskNames(files)
    ensures |Build(doc, namespace, reader, files).keys| == |doc.keys| + |files|
    decreases |files|
  {
    if files != [] {
      var init := files[..|files| - 1];
      var last := EntryTaskName(files[|files| - 1]);
      assert forall i | 0 <= i < |init| :: init[i] == files[i];
      BuildDistinctNames(doc, namespace, reader, init);
      var names := TaskNames(init);
      assert last !in names by {
        forall i | 0 <= i < |names| ensures names[i] != last {
          assert names[i] == EntryTaskName(files[i]);
        }
      }
      BuildAppendsNewName(doc, namespace, reader, files, names);
    }
  }

  /** The step of BuildDistinctNames: a last file whose name is new is appended after the others. */
  lemma BuildAppendsNewName(doc: Doc, namespace: string, reader: string -> Reflector, files: seq<string>, names: seq<string>)
    requires doc.Valid() && files != []
    requires names == TaskNames(files[..|files| - 1])
    requires Build(doc, namespace, reader, files[..|files| - 1]).keys == doc.keys + names
    requires EntryTaskName(files[|files| - 1]) !in doc.values && EntryTaskName(files[|files| - 1]) !in names
    ensures Build(doc, namespace, reader, files).keys == doc.keys + TaskNames(files)
  {
    var init := files[..|files| - 1];
    var last := EntryTaskName(files[|files| - 1]);
    BuildValid(doc, namespace, reader, init);
    var prev := Build(doc, namespace, reader, init);
    assert last !in prev.keys;
    AddTaskKeys(prev, namespace, reader, files[|files| - 1]);
    assert TaskNames(files) == names + [last];
    Associative(doc.keys, names, [last]);
  }

  /** Two files with one task name leave one key, holding the later file's data, in the earlier one's place. */
  lemma CollidingFilesLaterWins(doc: Doc, namespace: string, reader: string -> Reflector, earlier: string, later: string)
    requires EntryTaskName(earlier) == EntryTaskName(later)
    ensures Build(doc, namespace, reader, [earlier, later]) == Build(doc, namespace, reader, [later])
  {
    assert [earlier, later][..1] == [earlier];
    PutPut(doc, EntryTaskName(later), TaskDocOf(reader(EntryTaskClass(namespace, earlier))),
                TaskDocOf(reader(EntryTaskClass(namespace, later))));
  }

  // ---------------------------------------------------------------------
  // Nested writes into the documentation array

  /** `$doc[$task]['description'] = $arguments`. */
  function SetTaskDescription(doc: Doc, task: string, arguments: seq<Arg>): (r: Doc)
    requires task in doc.values
    ensures doc.Valid() ==> r.Valid() && r.keys == doc.keys
    ensures task in r.values && r.values[task].description == arguments && r.values[task].actions == doc.values[task].actions
    ensures forall k | k in doc.values && k != task :: k in r.values && r.values[k] == doc.values[k]
  {
    Put(doc, task, doc.values[task].(description := arguments))
  }

  /** `$doc[$task]['actions'][$action] = $a`. */
  function SetAction(doc: Doc, task: string, action: string, a: ActionDoc): (r: Doc)
    requires task in doc.values
    ensures doc.Valid() ==> r.Valid() && r.keys == doc.keys
    ensures task in r.values && r.values[task].description == doc.values[task].description
    ensures action in r.values[task].actions.values && r.values[task].actions.values[action] == a
    ensures var acts := doc.values[task].actions;
            acts.Valid() ==>
              (r.values[task].actions.Valid() &&
               r.values[task].actions.keys == if action in acts.keys then acts.keys else acts.keys + [action])
    ensures forall b | b in doc.values[task].actions.values && b != action ::
      b in r.values[task].actions.values && r.values[task].actions.values[b] == doc.values[task].actions.values[b]
    ensures forall k | k in doc.values && k != task :: k in r.values && r.values[k] == doc.values[k]
  {
    var t := doc.values[task];
    Put(doc, task, t.(actions := Put(t.actions, action, a)))
  }

  /** `$doc[$task]['actions'][$action]['description'] = $arguments`. */
  function SetActionDescription(doc: Doc, task: string, action: string, arguments: seq<Arg>): (r: Doc)
    requires task in doc.values && action in doc.values[task].actions.values
    ensures task in r.values && action in r.values[task].actions.values
    ensures r.values[task].actions.values[action].description == Some(arguments)
    ensures r.values[task].actions.values[action].params == doc.values[task].actions.values[action].params
    ensures doc.Valid() ==> r.Valid() && r.keys == doc.keys
    ensures r.values[task].description == doc.values[task].description
    ensures doc.values[task].actions.Valid() ==>
              r.values[task].actions.Valid() && r.values[task].actions.keys == doc.values[task].actions.keys
    ensures forall b | b in doc.values[task].actions.values && b != action ::
      b in r.values[task].actions.values && r.values[task].actions.values[b] == doc.values[task].actions.values[b]
    ensures forall k | k in doc.values && k != task :: k in r.values && r.values[k] == doc.values[k]
  {
    SetAction(doc, task, action, doc.values[task].actions.values[action].(description := Some(arguments)))
  }

  /** `$doc[$task]['actions'][$action]['params'][] = $arguments`. */
  function AppendActionParam(doc: Doc, task: string, action: string, arguments: seq<Arg>): (r: Doc)
    requires task in doc.values && action in doc.values[task].actions.values
    ensures task in r.values && action in r.values[task].actions.values
    ensures r.values[task].actions.values[action].params == doc.values[task].actions.values[action].params + [arguments]
    ensures r.values[task].actions.values[action].description == doc.values[task].actions.values[action].description
    ensures doc.Valid() ==> r.Valid() && r.keys == doc.keys
    ensures r.values[task].description == doc.values[task].description
    ensures doc.values[task].actions.Valid() ==>
              r.values[task].actions.Valid() && r.values[task].actions.keys == doc.values[task].actions.keys
    ensures forall b | b in doc.values[task].actions.values && b != action ::
      b in r.values[task].actions.values && r.values[task].actions.values[b] == doc.values[task].actions.values[b]
    ensures forall k | k in doc.values && k != task :: k in r.values && r.values[k] == doc.values[k]
  {
    var a := doc.values[task].actions.values[action];
    SetAction(doc, task, action, a.(params := a.params + [arguments]))
  }

  /**
   * One pass of the annotation loop: on an entry holding `current`, the write
   * for `ann` leaves the entry that ApplyActionAnnotation gives.
   */
  lemma WriteActionAnnotation(before: Doc, task: string, description: seq<Arg>, actions: OrdMap<ActionDoc>,
                              action: string, current: ActionDoc, ann: Annotation)
    ensures var doc := Put(before, task, TaskDoc(description, Put(actions, action, current)));
            var after := Put(before, task, TaskDoc(description, Put(actions, action, ApplyActionAnnotation(current, ann))));
            && (ann.name == "description" ==> SetActionDescription(doc, task, action, ann.arguments) == after)
            && (ann.name == "param" ==> AppendActionParam(doc, task, action, ann.arguments) == after)
            && (ann.name != "description" && ann.name != "param" ==> doc == after)
  {
    var next := ApplyActionAnnotation(current, ann);
    PutPut(actions, action, current, next);
    PutPut(before, task, TaskDoc(description, Put(actions, action, current)), TaskDoc(description, Put(actions, action, next)));
  }

  /** The write of a class `description` annotation replaces the description of a task entry that has no actions yet. */
  lemma WriteTaskDescription(before: Doc, task: string, lines: seq<Arg>, arguments: seq<Arg>)
    ensures SetTaskDescription(Put(before, task, TaskDoc(lines, Empty())), task, arguments)
         == Put(before, task, TaskDoc(arguments, Empty()))
  {
    PutPut(before, task, TaskDoc(lines, Empty()), TaskDoc(arguments, Empty()));
  }
}
