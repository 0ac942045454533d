/**
 * Two whole help requests, from the directory listing and the annotations
 * to the echoed text.
 */
module Scenarios {
  import opened Php
  import opened OrderedMap
  import opened Annotations
  import opened Names
  import opened Documentation
  import opened Render
  import opened HelpTrigger

  /** FooTask.php: `@description("Does foo")` on the class, one documented action. */
  const ParamX: Arg := Dict(map["name" := "x", "type" := "int"])
  const ParamY: Arg := Dict(map["name" := "y", "type" := "string", "description" := "the y"])
  const BarAnnotations: seq<Annotation> :=
    [Annotation("description", [Str("Bars")]), Annotation("param", [ParamX]), Annotation("param", [ParamY])]
  const FooReflector: Reflector :=
    Reflector(Some(Collection([Annotation("description", [Str("Does foo")])])),
              [MethodAnnotations("barAction", Collection(BarAnnotations))])

  const BarDoc: ActionDoc := ActionDoc(Some([Str("Bars")]), [[ParamX], [ParamY]])
  const FooDoc: TaskDoc := TaskDoc([Str("Does foo")], Put(Empty(), "bar", BarDoc))

  lemma BarDocumented()
    ensures ActionName("barAction") == "bar"
    ensures ActionDocOf(BarAnnotations) == BarDoc
  {
    BarName();
    BarAnnotationsRead();
  }

  lemma BarName()
    ensures ActionName("barAction") == "bar"
  {
    assert "barAction" == "bar" + "Action";
    StrRemoveTail("bar", "Action");
    LowerWord("bar", "bar");
  }

  lemma BarAnnotationsRead()
    ensures ActionDocOf(BarAnnotations) == BarDoc
  {
    var anns := BarAnnotations;
    assert anns[..1][..0] == [];
    assert ActionDocOf(anns[..1]) == ActionDoc(Some([Str("Bars")]), []);
    assert anns[..2][..1] == anns[..1];
    assert ActionDocOf(anns[..2]) == ActionDoc(Some([Str("Bars")]), [[ParamX]]);
    assert anns[..|anns| - 1] == anns[..2];
  }

  lemma FooTaskDocumented()
    ensures TaskDocOf(FooReflector) == FooDoc
  {
    FooActionsRead();
    FooDescriptionRead();
  }

  lemma FooActionsRead()
    ensures Actions(FooReflector.methodsAnnotations) == Put(Empty(), "bar", BarDoc)
  {
    var methods := FooReflector.methodsAnnotations;
    var m := methods[0];
    assert methods[..0] == [];
    assert Covered(m) by {
      assert !Has(m.collection, "DoNotCover");
    }
    assert Actions(methods) == Put(Empty(), ActionName(m.action), ActionDocOf(m.collection.annotations));
    assert m.action == "barAction" && m.collection.annotations == BarAnnotations;
    BarDocumented();
  }

  lemma FooDescriptionRead()
    ensures TaskDescription(FooReflector.classAnnotations.value.annotations) == [Str("Does foo")]
  {
    var classAnns := FooReflector.classAnnotations.value.annotations;
    assert classAnns[..0] == [];
  }

  /** scandir gives `.`, `..` and FooTask.php; the reader knows the class FooTask. */
  lemma FooDocumentation(namespace: string, reader: string -> Reflector)
    requires reader(TaskClass(namespace, "FooTask")) == FooReflector
    ensures BuildDocumentation(Empty(), [".", "..", "FooTask.php"], namespace, reader) == Put(Empty(), "foo", FooDoc)
  {
    var listing := [".", "..", "FooTask.php"];
    assert listing[..2][..1] == [listing[0]];
    assert listing[..1][..0] == [];
    assert WithoutDotEntries(listing[..1]) == [];
    assert WithoutDotEntries(listing[..2]) == [];
    assert WithoutDotEntries(listing) == ["FooTask.php"];
    assert "FooTask.php" == "FooTask" + "." + "php";
    PathFilenameStripsExtension("FooTask", "php");
    TaskNameOfFooTask();
    FooTaskDocumented();
    assert ["FooTask.php"][..0] == [];
  }

  /**
   * The detail view's entry for the action bar: its description, then the
   * parameters. As written, `x ( int )` ends no line, so `y ( string ) the y`
   * follows it on the same output line.
   */
  lemma BarEntry()
    ensures ActionEntry("bar", BarDoc) ==
      [ ActionIndent + "bar" + Eol, ActionLineIndent + "Bars" + Eol, Eol, ParamsHeader,
        ParamIndent + ("x" + " ( " + "int" + " )"),
        ParamIndent + ("y" + " ( " + "string" + " )" + " " + "the y" + Eol) ]
  {
    BarDescriptionLine();
    BarParamsAsWritten();
    var a := [ActionIndent + "bar" + Eol, ActionLineIndent + "Bars" + Eol, Eol];
    var p := [ParamIndent + ("x" + " ( " + "int" + " )"), ParamIndent + ("y" + " ( " + "string" + " )" + " " + "the y" + Eol)];
    assert ActionHead("bar", BarDoc) == a;
    assert ActionParams(BarDoc.params) == [ParamsHeader] + p;
  }

  lemma BarDescriptionLine()
    ensures Implode(Eol, Texts(BarDoc.description.value)) == "Bars"
  {
    assert BarDoc.description.value[..0] == [];
    assert Texts(BarDoc.description.value) == ["Bars"];
  }

  lemma BarParamTexts()
    ensures ParamText([ParamX]) == "x" + " ( " + "int" + " )"
    ensures ParamText([ParamY]) == "y" + " ( " + "string" + " )" + " " + "the y"
  {
    assert Field([ParamX], "name") == Some("x") && Field([ParamX], "type") == Some("int");
    assert Field([ParamX], "description") == None;
    assert Field([ParamY], "name") == Some("y") && Field([ParamY], "type") == Some("string");
    assert Field([ParamY], "description") == Some("the y");
  }

  lemma BarParams()
    ensures ParamLines(BarDoc.params) ==
      [ ParamIndent + ("x" + " ( " + "int" + " )") + Eol,
        ParamIndent + ("y" + " ( " + "string" + " )" + " " + "the y") + Eol ]
  {
    BarParamTexts();
    var ps := BarDoc.params;
    assert |ParamText(ps[0])| > 1 && |ParamText(ps[1])| > 1;
    assert ps[..1][..0] == [];
    assert ps[..1] == [[ParamX]];
    assert ParamLines(ps[..1]) == [ParamIndent + ParamText([ParamX]) + Eol];
    assert ParamLines(ps) == ParamLines(ps[..1]) + [ParamIndent + ParamText([ParamY]) + Eol];
  }

  /** The echo the source makes for each of bar's parameters on its own. */
  lemma BarLinesAsWritten()
    ensures ParamLineAsWritten([ParamX]) == Some(ParamIndent + ("x" + " ( " + "int" + " )"))
    ensures ParamLineAsWritten([ParamY]) == Some(ParamIndent + ("y" + " ( " + "string" + " )" + " " + "the y" + Eol))
  {
    BarParamTexts();
    assert ParamTextAsWritten([ParamX]) == ParamText([ParamX]);
    assert ParamTextAsWritten([ParamY]) == ParamText([ParamY]) + Eol;
    assert |ParamText([ParamX])| > 1 && |ParamText([ParamY])| > 1;
  }

  /** The first of bar's echoes does not end its line. */
  lemma BarFirstLineOpen()
    ensures '\n' !in ParamIndent + ("x" + " ( " + "int" + " )")
  {
    assert '\n' !in ParamIndent;
    assert '\n' !in "x" && '\n' !in " ( " && '\n' !in "int" && '\n' !in " )";
  }

  /** The source's echoes for bar's parameters: only the second one ends a line. */
  lemma BarParamsAsWritten()
    ensures ParamLinesAsWritten(BarDoc.params) ==
      [ ParamIndent + ("x" + " ( " + "int" + " )"),
        ParamIndent + ("y" + " ( " + "string" + " )" + " " + "the y" + Eol) ]
    ensures '\n' !in ParamLinesAsWritten(BarDoc.params)[0]
  {
    BarLinesAsWritten();
    BarFirstLineOpen();
    var ps := BarDoc.params;
    var xl := ParamIndent + ("x" + " ( " + "int" + " )");
    var yl := ParamIndent + ("y" + " ( " + "string" + " )" + " " + "the y" + Eol);
    assert ps[..1][..0] == [];
    assert ps[..1] == [[ParamX]];
    assert ParamLineAsWritten(ps[..1][0]) == Some(xl);
    assert ParamLinesAsWritten(ps[..1]) == [] + [xl];
    assert ParamLineAsWritten(ps[1]) == Some(yl);
    assert ParamLinesAsWritten(ps) == ParamLinesAsWritten(ps[..1]) + [yl];
  }

  lemma FooDocWellFormed()
    ensures Put(Empty(), "foo", FooDoc).keys == ["foo"]
    ensures WellFormed(Put(Empty(), "foo", FooDoc))
  {
    assert FooDoc.actions.Valid();
  }

  /** showTaskHelp("foo"): the description, the action, its description and its parameters, as the source echoes them. */
  lemma FooTaskView()
    ensures WellFormed(Put(Empty(), "foo", FooDoc))
    ensures TaskHelp(Put(Empty(), "foo", FooDoc), "foo") ==
      [ Eol, "Task: " + "foo" + Eol + Eol, DetailIndent + "Does foo" + Eol, Eol, "Available actions:" + Eol + Eol ] +
      [ ActionIndent + "bar" + Eol, ActionLineIndent + "Bars" + Eol, Eol, ParamsHeader,
        ParamIndent + ("x" + " ( " + "int" + " )"),
        ParamIndent + ("y" + " ( " + "string" + " )" + " " + "the y" + Eol) ]
  {
    FooDocWellFormed();
    var doc := Put(Empty(), "foo", FooDoc);
    assert doc.values["foo"] == FooDoc;
    FooHead();
    FooActions();
    BarEntry();
    assert TaskHelp(doc, "foo") == TaskHelpHead("foo", FooDoc.description) + ActionEntry("bar", BarDoc);
  }

  lemma FooHead()
    ensures TaskHelpHead("foo", FooDoc.description) ==
      [Eol, "Task: " + "foo" + Eol + Eol, DetailIndent + "Does foo" + Eol, Eol, "Available actions:" + Eol + Eol]
  {
    var lines := FooDoc.description;
    assert lines[..0] == [];
    var described := Lines(DetailIndent, lines);
    assert described == [DetailIndent + "Does foo" + Eol];
    assert TaskHelpHead("foo", lines) == [Eol, "Task: " + "foo" + Eol + Eol] + described + [Eol, "Available actions:" + Eol + Eol];
  }

  lemma FooActions()
    ensures ActionEntries(FooDoc.actions.keys, FooDoc.actions.values) == ActionEntry("bar", BarDoc)
  {
    assert FooDoc.actions.keys == ["bar"];
    assert ["bar"][..0] == [];
  }

  /** `task=foo action=help` asks for help on foo, and showHelp picks the detail view. */
  lemma FooTaskHelp(appName: Option<string>, version: Option<string>)
    ensures HelpRequested(map["task" := "foo", "action" := "help"])
    ensures HelpTarget(map["task" := "foo", "action" := "help"]) == Some("foo")
    ensures WellFormed(Put(Empty(), "foo", FooDoc))
    ensures HelpText(Put(Empty(), "foo", FooDoc), appName, version, Some("foo")) ==
      Banner(appName, version) + TaskHelp(Put(Empty(), "foo", FooDoc), "foo")
  {
    FooDocWellFormed();
    assert DetailView(Some("foo"));
  }

  /**
   * A tasks directory without task files and a fresh object: the list view
   * ends with the "Available tasks" header.
   */
  lemma EmptyTasksDir(listing: seq<string>, namespace: string, reader: string -> Reflector,
                      appName: Option<string>, version: Option<string>, task: Option<string>)
    requires forall i | 0 <= i < |listing| :: listing[i] == "." || listing[i] == ".."
    requires !DetailView(task)
    ensures BuildDocumentation(Empty(), listing, namespace, reader) == Empty()
    ensures HelpText(Empty(), appName, version, task) == Banner(appName, version) + ListHeader()
  {
    DotEntriesOnly(listing);
  }

  lemma {:induction false} DotEntriesOnly(listing: seq<string>)
    requires forall i | 0 <= i < |listing| :: listing[i] == "." || listing[i] == ".."
    ensures WithoutDotEntries(listing) == []
    decreases |listing|
  {
    if listing != [] {
      var init := listing[..|listing| - 1];
      assert forall i | 0 <= i < |init| :: init[i] == listing[i];
      DotEntriesOnly(init);
    }
  }
}
