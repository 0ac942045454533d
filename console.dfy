/**
 * Extended, the console application that intercepts help requests: its
 * handle method and the private steps it runs, over the object's two fields.
 */
module Console {
  import opened Php
  import opened OrderedMap
  import opened Annotations
  import opened Names
  import opened Documentation
  import opened Render
  import opened HelpTrigger
  import opened Seqs

  const InvalidTasksDir: string := "Invalid provided tasks Dir"

  /** The configuration entries this core reads; None where the entry is not set. */
  datatype Config = Config(tasksDir: Option<string>, appName: Option<string>, version: Option<string>)

  /**
   * What the process and the framework answer: is_dir, scandir, the
   * dispatcher's namespace and the annotation reader's `get`.
   */
  datatype Environment = Environment(
    config: Config,
    isDir: string -> bool,
    scandir: string -> seq<string>,
    namespaceName: string,
    reader: string -> Reflector)

  /** What handle echoes, the exception that escapes it, and whether parent::handle is reached. */
  datatype HandleResult = HandleResult(output: seq<string>, raised: Option<string>, dispatched: bool)

  /** setTasksDir accepts the configured directory only when it is set and is a directory. */
  predicate TasksDirUsable(config: Config, isDir: string -> bool) {
    config.tasksDir.Some? && isDir(config.tasksDir.value)
  }

  class Extended {
    var tasksDir: Option<string>
    var documentation: Doc

    ghost predicate Valid()
      reads this
    {
      WellFormed(documentation)
    }

    /** Both private fields start out null; a null documentation reads as an empty array. */
    constructor ()
      ensures Valid() && tasksDir == None && documentation == Empty()
    {
      tasksDir := None;
      documentation := Empty();
    }

    /** Extended::handle. */
    method Handle(arguments: Arguments, env: Environment) returns (result: HandleResult)
      requires Valid()
      modifies this
      ensures Valid()
      ensures !HelpRequested(arguments) ==>
        result == HandleResult([], None, true) && documentation == old(documentation) && tasksDir == old(tasksDir)
      ensures HelpRequested(arguments) && !TasksDirUsable(env.config, env.isDir) ==>
        result == HandleResult([], Some(InvalidTasksDir), false)
        && documentation == old(documentation) && tasksDir == old(tasksDir)
      ensures HelpRequested(arguments) && TasksDirUsable(env.config, env.isDir) ==>
        && tasksDir == env.config.tasksDir
        && documentation == BuildDocumentation(old(documentation), env.scandir(env.config.tasksDir.value), env.namespaceName, env.reader)
        && result == HandleResult(HelpText(documentation, env.config.appName, env.config.version, HelpTarget(arguments)), None, true)
    {
      var output: seq<string> := [];
      if IsHelpArgInTask(arguments) || IsHelpArgInAction(arguments) {
        var raised := SetTasksDir(env.config, env.isDir);
        if raised.Some? {
          return HandleResult([], raised, false);
        }
        CreateHelp(env.scandir(tasksDir.value), env.namespaceName, env.reader);
        output := ShowHelp(env.config, HelpTarget(arguments));
      }
      // parent::handle($arguments) runs next, with or without help.
      result := HandleResult(output, None, true);
    }

    /** Extended::setTasksDir: the configured directory, or the exception. */
    method SetTasksDir(config: Config, isDir: string -> bool) returns (raised: Option<string>)
      modifies this`tasksDir
      ensures TasksDirUsable(config, isDir) ==> raised == None && tasksDir == config.tasksDir
      ensures !TasksDirUsable(config, isDir) ==> raised == Some(InvalidTasksDir) && tasksDir == old(tasksDir)
    {
      if config.tasksDir.None? || !isDir(config.tasksDir.value) {
        return Some(InvalidTasksDir);
      }
      tasksDir := config.tasksDir;
      raised := None;
    }

    /** Extended::createHelp over the listing scandir returned. */
    method CreateHelp(listing: seq<string>, namespace: string, reader: string -> Reflector)
      requires Valid()
      modifies this`documentation
      ensures Valid()
      ensures documentation == BuildDocumentation(old(documentation), listing, namespace, reader)
    {
      ghost var initial := documentation;
      assert WellFormed(initial);
      var scannedTasksDir := WithoutDotEntries(listing);
      for i := 0 to |scannedTasksDir|
        invariant documentation == Build(initial, namespace, reader, scannedTasksDir[..i])
      {
        assert scannedTasksDir[..i + 1][..i] == scannedTasksDir[..i];
        DocumentFile(scannedTasksDir[i], namespace, reader);
      }
      assert scannedTasksDir[..|scannedTasksDir|] == scannedTasksDir;
      BuildWellFormed(initial, namespace, reader, scannedTasksDir);
      assert WellFormed(documentation);
    }

    /** One pass of createHelp's loop: the task file's class and name, then its entry. */
    method DocumentFile(taskFile: string, namespace: string, reader: string -> Reflector)
      modifies this`documentation
      ensures documentation == AddTask(old(documentation), namespace, reader, taskFile)
    {
      var fileName := PathFilename(taskFile);
      var taskClass := TaskClass(namespace, fileName);
      var taskName := TaskName(fileName);
      DocumentTask(taskName, reader(taskClass));
    }

    /** The entry of one task class, written into the documentation. */
    method DocumentTask(taskName: string, reflector: Reflector)
      modifies this`documentation
      ensures documentation == Put(old(documentation), taskName, TaskDocOf(reflector))
    {
      ghost var before := documentation;
      documentation := Put(documentation, taskName, DefaultTask());

      var annotations := reflector.classAnnotations;
      if annotations.None? {
        return;
      }

      // Class annotations
      var classAnnotations := annotations.value.annotations;
      for j := 0 to |classAnnotations|
        invariant documentation == Put(before, taskName, TaskDoc(TaskDescription(classAnnotations[..j]), Empty()))
      {
        if classAnnotations[j].name == "description" {
          WriteTaskDescription(before, taskName, TaskDescription(classAnnotations[..j]), classAnnotations[j].arguments);
          documentation := SetTaskDescription(documentation, taskName, classAnnotations[j].arguments);
        }
        assert classAnnotations[..j + 1][..j] == classAnnotations[..j];
      }
      assert classAnnotations[..|classAnnotations|] == classAnnotations;
      ghost var description := TaskDescription(classAnnotations);

      // Method annotations
      var methodAnnotations := reflector.methodsAnnotations;
      if |methodAnnotations| == 0 {
        return;
      }
      for k := 0 to |methodAnnotations|
        invariant documentation == Put(before, taskName, TaskDoc(description, Actions(methodAnnotations[..k])))
      {
        var collection := methodAnnotations[k].collection;
        assert methodAnnotations[..k + 1][..k] == methodAnnotations[..k];
        if Has(collection, "DoNotCover") {
          continue;
        }
        var actionName := ActionName(methodAnnotations[k].action);
        DocumentAction(before, taskName, description, Actions(methodAnnotations[..k]), actionName, collection.annotations);
      }
      assert methodAnnotations[..|methodAnnotations|] == methodAnnotations;
    }

    /**
     * The body of createHelp's loop over one covered method: the action entry
     * is reset, then filled from the method's annotations in their order.
     */
    method DocumentAction(ghost before: Doc, taskName: string, ghost description: seq<Arg>,
                          ghost actions: OrdMap<ActionDoc>, actionName: string, actionAnnotations: seq<Annotation>)
      requires documentation == Put(before, taskName, TaskDoc(description, actions))
      modifies this`documentation
      ensures documentation == Put(before, taskName, TaskDoc(description, Put(actions, actionName, ActionDocOf(actionAnnotations))))
    {
      PutPut(before, taskName, TaskDoc(description, actions),
             TaskDoc(description, Put(actions, actionName, EmptyAction)));
      documentation := SetAction(documentation, taskName, actionName, EmptyAction);

      for l := 0 to |actionAnnotations|
        invariant documentation == Put(before, taskName,
                    TaskDoc(description, Put(actions, actionName, ActionDocOf(actionAnnotations[..l]))))
      {
        var actAnnotation := actionAnnotations[l];
        assert actionAnnotations[..l + 1][..l] == actionAnnotations[..l];
        WriteActionAnnotation(before, taskName, description, actions, actionName, ActionDocOf(actionAnnotations[..l]), actAnnotation);
        if actAnnotation.name == "description" {
          documentation := SetActionDescription(documentation, taskName, actionName, actAnnotation.arguments);
        } else if actAnnotation.name == "param" {
          documentation := AppendActionParam(documentation, taskName, actionName, actAnnotation.arguments);
        }
      }
      assert actionAnnotations[..|actionAnnotations|] == actionAnnotations;
    }

    /** Extended::showHelp: the banner and usage, then one of the two views. */
    method ShowHelp(config: Config, task: Option<string>) returns (out: seq<string>)
      requires Valid()
      ensures out == HelpText(documentation, config.appName, config.version, task)
    {
      var helpOutput := Eol;
      if config.appName.Some? {
        helpOutput := helpOutput + (config.appName.value + " ");
      }
      if config.version.Some? {
        helpOutput := helpOutput + config.version.value;
      }
      out := [helpOutput + Eol];
      assert helpOutput == Eol + (if config.appName.Some? then config.appName.value + " " else "")
                               + (if config.version.Some? then config.version.value else "");
      out := out + [Eol + "Usage:" + Eol];
      out := out + [Eol];
      out := out + ["\t" + UsageLine + Eol];
      out := out + [Eol];
      assert out == Banner(config.appName, config.version);

      var view: seq<string>;
      if task.Some? && !IsHelp(task.value) {
        view := ShowTaskHelp(task.value);
      } else {
        view := ShowAvailableTasks();
      }
      out := out + view;
    }

    /** Extended::showAvailableTasks. */
    method ShowAvailableTasks() returns (out: seq<string>)
      requires Valid()
      ensures out == AvailableTasks(documentation)
    {
      out := [Eol + "To show task help type:" + Eol];
      out := out + [Eol];
      out := out + ["           command <task> -h | --help | help" + Eol];
      out := out + [Eol];
      out := out + ["Available tasks " + Eol];

      assert out == ListHeader();
      var entries := EchoTasks(documentation.keys, documentation.values);
      out := out + entries;
    }

    /** Extended::showTaskHelp; a task missing from the documentation reads as null. */
    method ShowTaskHelp(task: string) returns (out: seq<string>)
      requires Valid()
      ensures out == TaskHelp(documentation, task)
    {
      var found := task in documentation.values;
      var lines: seq<Arg> := if found then documentation.values[task].description else [];
      out := EchoTaskHead(task, lines);

      if found {
        var t := documentation.values[task];
        assert t.actions.Valid();
        var entries := EchoActions(t.actions);
        out := out + entries;
      }
    }
  }

  /** What showTaskHelp echoes before the actions: the task header, its description lines, then the actions header. */
  method EchoTaskHead(task: string, lines: seq<Arg>) returns (out: seq<string>)
    ensures out == TaskHelpHead(task, lines)
  {
    out := [Eol];
    out := out + ["Task: " + task + Eol + Eol];
    var echoed := EchoLines(DetailIndent, lines);
    out := out + echoed;
    out := out + [Eol];
    out := out + ["Available actions:" + Eol + Eol];
  }

  /** The loop of showAvailableTasks over the documented tasks, in their order. */
  method EchoTasks(tasks: seq<string>, values: map<string, TaskDoc>) returns (out: seq<string>)
    requires forall k | k in tasks :: k in values
    ensures out == TaskEntries(tasks, values)
  {
    out := [];
    for i := 0 to |tasks|
      invariant out == TaskEntries(tasks[..i], values)
    {
      var task := tasks[i];
      var entry := EchoTaskEntry(task, values[task]);
      assert tasks[..i + 1][..i] == tasks[..i];
      out := out + entry;
    }
    assert tasks[..|tasks|] == tasks;
  }

  /** The lines showAvailableTasks echoes for one task: its name, then its description lines. */
  method EchoTaskEntry(task: string, doc: TaskDoc) returns (out: seq<string>)
    ensures out == TaskEntry(task, doc)
  {
    out := [Eol];
    out := out + [TaskIndent + task + Eol];
    var lines := EchoLines(TaskLineIndent, doc.description);
    out := out + lines;
  }

  /** The action loop of showTaskHelp, over one task's actions in their order. */
  method EchoActions(actions: OrdMap<ActionDoc>) returns (out: seq<string>)
    requires actions.Valid()
    ensures out == ActionEntries(actions.keys, actions.values)
  {
    var names := actions.keys;
    out := [];
    for i := 0 to |names|
      invariant out == ActionEntries(names[..i], actions.values)
    {
      var actionName := names[i];
      var entry := EchoAction(actionName, actions.values[actionName]);
      ActionEntriesStep(names, actions.values, i);
      out := out + entry;
    }
    assert names[..|names|] == names;
  }

  /** The lines showTaskHelp echoes for one action. */
  method EchoAction(name: string, a: ActionDoc) returns (out: seq<string>)
    ensures out == ActionEntry(name, a)
  {
    out := [ActionIndent + name + Eol];
    if a.description.Some? {
      out := out + [ActionLineIndent + Implode(Eol, Texts(a.description.value)) + Eol];
    }
    out := out + [Eol];
    assert out == ActionHead(name, a);
    if |a.params| > 0 {
      ghost var head := out;
      out := out + [ParamsHeader];
      var lines := EchoParams(a.params);
      out := out + lines;
      Associative(head, [ParamsHeader], lines);
    }
  }

  /** The parameter loop of showTaskHelp: `$_to_print` after the indent, for each text that is not empty. */
  method EchoParams(params: seq<seq<Arg>>) returns (out: seq<string>)
    ensures out == ParamLinesAsWritten(params)
  {
    out := [];
    for j := 0 to |params|
      invariant out == ParamLinesAsWritten(params[..j])
    {
      var param := params[j];
      var toPrint := ParamToPrint(param);
      assert params[..j + 1][..j] == params[..j];
      if !IsEmpty(toPrint) {
        out := out + [ParamIndent + toPrint];
      }
    }
    assert params[..|params|] == params;
  }

  /** `$_to_print` for one parameter, with the line break only after a description. */
  method ParamToPrint(param: seq<Arg>) returns (toPrint: string)
    ensures toPrint == ParamTextAsWritten(param)
  {
    var name, kind, description := Field(param, "name"), Field(param, "type"), Field(param, "description");
    toPrint := "";
    if name.Some? {
      toPrint := name.value;
    }
    assert toPrint == NamePart(param);
    if kind.Some? {
      toPrint := toPrint + (" ( " + kind.value + " )");
    }
    assert toPrint == NamePart(param) + TypePart(param);
    if description.Some? {
      toPrint := toPrint + (" " + description.value + Eol);
    }
  }

  /** The echoes of a `foreach ($lines as $line) echo $indent . $line . PHP_EOL;` loop. */
  method EchoLines(indent: string, lines: seq<Arg>) returns (out: seq<string>)
    ensures out == Lines(indent, lines)
  {
    out := [];
    for i := 0 to |lines|
      invariant out == Lines(indent, lines[..i])
    {
      assert lines[..i + 1][..i] == lines[..i];
      out := out + [indent + Text(lines[i]) + Eol];
    }
    assert lines[..|lines|] == lines;
  }
}
