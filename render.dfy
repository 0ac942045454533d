/**
 * What Extended::showHelp, showAvailableTasks and showTaskHelp echo, as a
 * sequence holding one string per `echo` statement (the arguments of one
 * `echo` are joined).
 */
module Render {
  import opened Php
  import opened Annotations
  import opened Documentation
  import HelpTrigger
  import opened Seqs

  const UsageLine: string := "command [<task> [<action> [<param1> <param2> ... <paramN>] ] ]"
  const TaskIndent: string := "    "
  const TaskLineIndent: string := "            "
  const DetailIndent: string := "  "
  const ActionIndent: string := "           "
  const ActionLineIndent: string := "               "
  const ParamIndent: string := "                   "
  const ParamsHeader: string := "               Parameters:\n"

  /** The banner and usage block showHelp always prints first. */
  function Banner(appName: Option<string>, version: Option<string>): (r: seq<string>)
    ensures |r| == 5
    ensures appName.None? && version.None? ==> r[0] == Eol + Eol
    ensures appName.Some? && version.None? ==> r[0] == Eol + appName.value + " " + Eol
    ensures appName.None? && version.Some? ==> r[0] == Eol + version.value + Eol
    ensures appName.Some? && version.Some? ==> r[0] == Eol + appName.value + " " + version.value + Eol
    ensures r[1] == Eol + "Usage:" + Eol && r[2] == Eol && r[3] == "\t" + UsageLine + Eol && r[4] == Eol
  {
    [ Eol + (if appName.Some? then appName.value + " " else "") + (if version.Some? then version.value else "") + Eol,
      Eol + "Usage:" + Eol,
      Eol,
      "\t" + UsageLine + Eol,
      Eol ]
  }

  // ---------------------------------------------------------------------
  // Task list view

  /** The five echoes that open showAvailableTasks; the last is the "Available tasks" header. */
  function ListHeader(): (r: seq<string>)
    ensures |r| == 5 && r[0] == Eol + "To show task help type:" + Eol && r[4] == "Available tasks " + Eol
  {
    [ Eol + "To show task help type:" + Eol,
      Eol,
      "           command <task> -h | --help | help" + Eol,
      Eol,
      "Available tasks " + Eol ]
  }

  /** One echoed line per description line, each after `indent`. */
  function Lines(indent: string, lines: seq<Arg>): (r: seq<string>)
    ensures |r| == |lines|
    ensures forall i | 0 <= i < |lines| :: r[i] == indent + Text(lines[i]) + Eol
    decreases |lines|
  {
    if lines == [] then [] else Lines(indent, lines[..|lines| - 1]) + [indent + Text(lines[|lines| - 1]) + Eol]
  }

  /** One task of the list view. */
  function TaskEntry(name: string, t: TaskDoc): (r: seq<string>)
    ensures |r| == 2 + |t.description|
    ensures r[0] == Eol && r[1] == TaskIndent + name + Eol
    ensures forall i | 0 <= i < |t.description| :: r[2 + i] == TaskLineIndent + Text(t.description[i]) + Eol
  {
    [Eol, TaskIndent + name + Eol] + Lines(TaskLineIndent, t.description)
  }

  /** The tasks `keys` of the list view, in order. */
  function TaskEntries(keys: seq<string>, values: map<string, TaskDoc>): (r: seq<string>)
    requires forall k | k in keys :: k in values
    ensures |r| >= 2 * |keys|
    ensures keys != [] ==> r[0] == Eol && r[1] == TaskIndent + keys[0] + Eol
    decreases |keys|
  {
    if keys == [] then []
    else TaskEntries(keys[..|keys| - 1], values) + TaskEntry(keys[|keys| - 1], values[keys[|keys| - 1]])
  }

  lemma TaskEntriesSnoc(init: seq<string>, k: string, values: map<string, TaskDoc>)
    requires forall k' | k' in init + [k] :: k' in values
    ensures forall k' | k' in init :: k' in values
    ensures TaskEntries(init + [k], values) == TaskEntries(init, values) + TaskEntry(k, values[k])
  {
    assert (init + [k])[..|init|] == init;
  }

  /** The entries of two runs of tasks follow one another: the tasks are listed in key order. */
  lemma {:induction false} TaskEntriesAppend(a: seq<string>, b: seq<string>, values: map<string, TaskDoc>)
    requires forall k | k in a + b :: k in values
    ensures forall k | k in a :: k in values
    ensures forall k | k in b :: k in values
    ensures TaskEntries(a + b, values) == TaskEntries(a, values) + TaskEntries(b, values)
    decreases |b|
  {
    if b == [] {
      assert a + b == a;
    } else {
      var init, last := b[..|b| - 1], b[|b| - 1];
      SplitLast(b);
      assert a + b == (a + init) + [last];
      TaskEntriesAppend(a, init, values);
      TaskEntriesSnoc(a + init, last, values);
      TaskEntriesSnoc(init, last, values);
      Associative(TaskEntries(a, values), TaskEntries(init, values), TaskEntry(last, values[last]));
    }
  }

  /** showAvailableTasks. */
  function AvailableTasks(doc: Doc): (r: seq<string>)
    requires doc.Valid()
    ensures doc.keys == [] ==> r == ListHeader()
  {
    ListHeader() + TaskEntries(doc.keys, doc.values)
  }

  // ---------------------------------------------------------------------
  // Parameter lines

  /** `isset($param[0][$key])`, and the value when it is set. */
  function Field(param: seq<Arg>, key: string): (r: Option<string>)
    ensures r.Some? <==> |param| > 0 && param[0].Dict? && key in param[0].fields
    ensures r.Some? ==> r.value == param[0].fields[key]
  {
    if |param| > 0 && param[0].Dict? && key in param[0].fields then Some(param[0].fields[key]) else None
  }

  /** The name, or "" when it is not set. */
  function NamePart(param: seq<Arg>): (r: string)
    ensures Field(param, "name").None? ==> r == ""
    ensures Field(param, "name").Some? ==> r == Field(param, "name").value
  {
    if Field(param, "name").Some? then Field(param, "name").value else ""
  }

  /** ` ( type )`, or "" when no type is set. */
  function TypePart(param: seq<Arg>): (r: string)
    ensures r == "" <==> Field(param, "type").None?
    ensures r != "" ==> |r| == |Field(param, "type").value| + 5 && r[..3] == " ( " && r[|r| - 2..] == " )"
    ensures r != "" ==> r[3..|r| - 2] == Field(param, "type").value
  {
    if Field(param, "type").Some? then " ( " + Field(param, "type").value + " )" else ""
  }

  /** ` description`, or "" when no description is set. */
  function DescriptionPart(param: seq<Arg>): (r: string)
    ensures r == "" <==> Field(param, "description").None?
    ensures r != "" ==> r[0] == ' ' && r[1..] == Field(param, "description").value
  {
    if Field(param, "description").Some? then " " + Field(param, "description").value else ""
  }

  /** `$_to_print` without the line break, which ParamLine adds to every printed line. */
  function ParamText(param: seq<Arg>): (r: string)
    ensures |NamePart(param)| <= |r| && r[..|NamePart(param)|] == NamePart(param)
    ensures Field(param, "type").None? && Field(param, "description").None? ==> r == NamePart(param)
  {
    NamePart(param) + TypePart(param) + DescriptionPart(param)
  }

  /**
   * `$_to_print` exactly as the source assembles it: the line break is
   * appended only together with a description.
   */
  function ParamTextAsWritten(param: seq<Arg>): (r: string)
    ensures Field(param, "description").Some? ==> r == ParamText(param) + Eol
    ensures Field(param, "description").None? ==> r == ParamText(param)
  {
    var front := NamePart(param) + TypePart(param);
    if Field(param, "description").Some? then
      var d := DescriptionPart(param);
      Associative(front, d, Eol);
      front + (d + Eol)
    else
      assert front + "" == front;
      front + ""
  }

  /** The echo for one parameter; nothing when the text is `empty()`. */
  function ParamLine(param: seq<Arg>): (r: Option<string>)
    ensures r.Some? <==> !IsEmpty(ParamText(param))
  {
    var text := ParamText(param);
    if IsEmpty(text) then None else Some(ParamIndent + text + Eol)
  }

  /** The echoes for the parameters of one action, in order, each ending its own line. */
  function ParamLines(params: seq<seq<Arg>>): (r: seq<string>)
    ensures |r| <= |params|
    decreases |params|
  {
    if params == [] then []
    else
      var line := ParamLine(params[|params| - 1]);
      ParamLines(params[..|params| - 1]) + (if line.Some? then [line.value] else [])
  }

  /** The echo the source makes for one parameter: `$_to_print` after the indent, when not `empty()`. */
  function ParamLineAsWritten(param: seq<Arg>): (r: Option<string>)
    ensures r.Some? <==> !IsEmpty(ParamText(param))
    ensures r.Some? ==> |r.value| > |ParamIndent| && r.value[..|ParamIndent|] == ParamIndent
  {
    var text := ParamTextAsWritten(param);
    if IsEmpty(text) then None else Some(ParamIndent + text)
  }

  /** The echoes the source makes for the parameters of one action, in order. */
  function ParamLinesAsWritten(params: seq<seq<Arg>>): (r: seq<string>)
    ensures |r| <= |params|
    decreases |params|
  {
    if params == [] then []
    else
      var line := ParamLineAsWritten(params[|params| - 1]);
      ParamLinesAsWritten(params[..|params| - 1]) + (if line.Some? then [line.value] else [])
  }

  lemma ParamLinesAsWrittenSnoc(init: seq<seq<Arg>>, p: seq<Arg>)
    ensures ParamLinesAsWritten(init + [p]) == ParamLinesAsWritten(init) + (if ParamLineAsWritten(p).Some? then [ParamLineAsWritten(p).value] else [])
  {
    assert (init + [p])[..|init|] == init;
  }

  /** The echoes of two runs of parameters follow one another: the order of the parameters is kept. */
  lemma {:induction false} ParamLinesAsWrittenAppend(a: seq<seq<Arg>>, b: seq<seq<Arg>>)
    ensures ParamLinesAsWritten(a + b) == ParamLinesAsWritten(a) + ParamLinesAsWritten(b)
    decreases |b|
  {
    if b == [] {
      assert a + b == a;
    } else {
      var init, p := b[..|b| - 1], b[|b| - 1];
      assert b == init + [p];
      assert a + b == (a + init) + [p];
      ParamLinesAsWrittenAppend(a, init);
      ParamLinesAsWrittenSnoc(a + init, p);
      ParamLinesAsWrittenSnoc(init, p);
      var line := ParamLineAsWritten(p);
      Associative(ParamLinesAsWritten(a), ParamLinesAsWritten(init), if line.Some? then [line.value] else []);
    }
  }

  /** Every parameter whose text is not `empty()` has its echo among the action's parameter echoes. */
  lemma EveryParamEchoed(params: seq<seq<Arg>>, i: nat)
    requires i < |params| && !IsEmpty(ParamText(params[i]))
    ensures ParamLineAsWritten(params[i]).value in ParamLinesAsWritten(params)
  {
    var pre, p, post := params[..i], params[i], params[i + 1..];
    Split(params, i);
    ParamLinesAsWrittenAppend(pre + [p], post);
    ParamLinesAsWrittenSnoc(pre, p);
    var front := ParamLinesAsWritten(pre);
    assert ParamLinesAsWritten(params) == (front + [ParamLineAsWritten(p).value]) + ParamLinesAsWritten(post);
    assert ParamLinesAsWritten(params)[|front|] == ParamLineAsWritten(p).value;
  }

  /** `e` is the echo of one of the parameters. */
  predicate EchoOfSomeParam(params: seq<seq<Arg>>, e: string) {
    exists i | 0 <= i < |params| :: ParamLineAsWritten(params[i]) == Some(e)
  }

  lemma EchoOfSomeParamExtend(init: seq<seq<Arg>>, p: seq<Arg>, e: string)
    requires EchoOfSomeParam(init, e)
    ensures EchoOfSomeParam(init + [p], e)
  {
    var i :| 0 <= i < |init| && ParamLineAsWritten(init[i]) == Some(e);
    assert (init + [p])[i] == init[i];
  }

  lemma EchoOfLastParam(init: seq<seq<Arg>>, p: seq<Arg>)
    requires ParamLineAsWritten(p).Some?
    ensures EchoOfSomeParam(init + [p], ParamLineAsWritten(p).value)
  {
    assert (init + [p])[|init|] == p;
  }

  /** Every parameter echo is the echo of some parameter of the action. */
  lemma {:induction false} ParamEchoesFromParams(params: seq<seq<Arg>>)
    ensures forall j | 0 <= j < |ParamLinesAsWritten(params)| :: EchoOfSomeParam(params, ParamLinesAsWritten(params)[j])
    decreases |params|
  {
    if params != [] {
      var init, p := params[..|params| - 1], params[|params| - 1];
      SplitLast(params);
      ParamEchoesFromParams(init);
      ParamLinesAsWrittenSnoc(init, p);
      var a := ParamLinesAsWritten(init);
      forall j | 0 <= j < |ParamLinesAsWritten(params)| ensures EchoOfSomeParam(params, ParamLinesAsWritten(params)[j]) {
        if j < |a| {
          EchoOfSomeParamExtend(init, p, a[j]);
        } else {
          EchoOfLastParam(init, p);
        }
      }
    }
  }

  lemma ParamLinesSnoc(init: seq<seq<Arg>>, p: seq<Arg>)
    ensures ParamLines(init + [p]) == ParamLines(init) + (if ParamLine(p).Some? then [ParamLine(p).value] else [])
  {
    assert (init + [p])[..|init|] == init;
  }

  /** The corrected echoes of two runs of parameters follow one another as well. */
  lemma {:induction false} ParamLinesAppend(a: seq<seq<Arg>>, b: seq<seq<Arg>>)
    ensures ParamLines(a + b) == ParamLines(a) + ParamLines(b)
    decreases |b|
  {
    if b == [] {
      assert a + b == a;
    } else {
      var init, p := b[..|b| - 1], b[|b| - 1];
      assert b == init + [p];
      assert a + b == (a + init) + [p];
      ParamLinesAppend(a, init);
      ParamLinesSnoc(a + init, p);
      ParamLinesSnoc(init, p);
      var line := ParamLine(p);
      Associative(ParamLines(a), ParamLines(init), if line.Some? then [line.value] else []);
    }
  }

  /** In the corrected version, every parameter whose text is not `empty()` has its own line. */
  lemma EveryParamLined(params: seq<seq<Arg>>, i: nat)
    requires i < |params| && !IsEmpty(ParamText(params[i]))
    ensures ParamIndent + ParamText(params[i]) + Eol in ParamLines(params)
  {
    var pre, p, post := params[..i], params[i], params[i + 1..];
    Split(params, i);
    ParamLinesAppend(pre + [p], post);
    ParamLinesSnoc(pre, p);
    var front := ParamLines(pre);
    assert ParamLines(params) == (front + [ParamLine(p).value]) + ParamLines(post);
    assert ParamLines(params)[|front|] == ParamIndent + ParamText(p) + Eol;
  }

  /** The text is empty exactly when no field is set, apart from a name that is itself "". */
  lemma ParamTextEmpty(param: seq<Arg>)
    ensures ParamText(param) == "" <==>
      NamePart(param) == "" && Field(param, "type").None? && Field(param, "description").None?
  {
    if Field(param, "type").Some? {
      assert |TypePart(param)| > 0;
    }
    if Field(param, "description").Some? {
      assert |DescriptionPart(param)| > 0;
    }
  }

  /** A parameter with only the name "0" prints nothing, since PHP's empty("0") holds. */
  lemma ParamZeroNameHidden()
    ensures ParamLine([Dict(map["name" := "0"])]) == None
  {
    var p := [Dict(map["name" := "0"])];
    assert Field(p, "name") == Some("0");
    assert Field(p, "type") == None;
    assert Field(p, "description") == None;
    assert ParamText(p) == "0";
  }

  /**
   * The corrected line differs from the source's only by the line break the
   * source leaves out when there is no description; both print or neither.
   */
  lemma ParamLineMatchesAsWritten(param: seq<Arg>)
    ensures ParamLine(param).Some? <==> ParamLineAsWritten(param).Some?
    ensures ParamLine(param).Some? ==>
      ParamLine(param).value == ParamLineAsWritten(param).value + (if Field(param, "description").Some? then "" else Eol)
  {
    if Field(param, "description").Some? {
      var t := NamePart(param) + TypePart(param);
      assert ParamText(param) == t + DescriptionPart(param);
      assert ParamText(param)[|t|] == ' ';
      assert |ParamTextAsWritten(param)| > 1;
      assert ParamIndent + ParamTextAsWritten(param) == ParamIndent + ParamText(param) + Eol;
    }
  }

  /**
   * Over a whole action, the source prints as many parameter echoes as the
   * corrected version, and each differs at most by its closing line break.
   */
  lemma {:induction false} ParamLinesMatchAsWritten(params: seq<seq<Arg>>)
    ensures |ParamLines(params)| == |ParamLinesAsWritten(params)|
    ensures forall i | 0 <= i < |ParamLines(params)| ::
      ParamLines(params)[i] == ParamLinesAsWritten(params)[i] || ParamLines(params)[i] == ParamLinesAsWritten(params)[i] + Eol
    decreases |params|
  {
    if params != [] {
      var init, last := params[..|params| - 1], params[|params| - 1];
      ParamLinesMatchAsWritten(init);
      ParamLineMatchesAsWritten(last);
      var a, b := ParamLines(init), ParamLinesAsWritten(init);
      if ParamLine(last).Some? {
        var x, y := ParamLine(last).value, ParamLineAsWritten(last).value;
        assert ParamLines(params) == a + [x];
        assert ParamLinesAsWritten(params) == b + [y];
        forall i | 0 <= i < |a| + 1
          ensures (a + [x])[i] == (b + [y])[i] || (a + [x])[i] == (b + [y])[i] + Eol
        {
          if i < |a| {
            assert (a + [x])[i] == a[i] && (b + [y])[i] == b[i];
          }
        }
      } else {
        assert ParamLines(params) == a;
        assert ParamLinesAsWritten(params) == b;
      }
    }
  }

  /** When every parameter has a description, the source's echoes are the corrected ones. */
  lemma {:induction false} ParamsWithDescriptionsUnaffected(params: seq<seq<Arg>>)
    requires forall i | 0 <= i < |params| :: Field(params[i], "description").Some?
    ensures ParamLinesAsWritten(params) == ParamLines(params)
    decreases |params|
  {
    if params != [] {
      var init := params[..|params| - 1];
      assert forall i | 0 <= i < |init| :: init[i] == params[i];
      ParamsWithDescriptionsUnaffected(init);
      var last := params[|params| - 1];
      ParamLineMatchesAsWritten(last);
      if ParamLine(last).Some? {
        assert ParamLine(last).value == ParamLineAsWritten(last).value + "";
        assert ParamLineAsWritten(last).value + "" == ParamLineAsWritten(last).value;
      }
      assert ParamLineAsWritten(last) == ParamLine(last);
    }
  }

  /** An echoed line that starts with the parameter indent and ends with a line break. */
  predicate OwnParamLine(line: string) {
    |line| > |ParamIndent| && line[..|ParamIndent|] == ParamIndent && line[|line| - 1] == '\n'
  }

  lemma IndentedLine(text: string)
    ensures OwnParamLine(ParamIndent + text + Eol)
  {
    var line := ParamIndent + text + Eol;
    assert line[..|ParamIndent|] == ParamIndent;
  }

  /** Every printed parameter ends its own line. */
  lemma {:induction false} ParamLinesOwnLines(params: seq<seq<Arg>>)
    ensures forall i | 0 <= i < |ParamLines(params)| :: OwnParamLine(ParamLines(params)[i])
    decreases |params|
  {
    if params != [] {
      var init := ParamLines(params[..|params| - 1]);
      ParamLinesOwnLines(params[..|params| - 1]);
      var line := ParamLine(params[|params| - 1]);
      if line.Some? {
        IndentedLine(ParamText(params[|params| - 1]));
        var all := init + [line.value];
        assert ParamLines(params) == all;
        forall i | 0 <= i < |all| ensures OwnParamLine(all[i]) {
          if i < |init| {
            assert all[i] == init[i];
          }
        }
      } else {
        assert ParamLines(params) == init + [];
      }
    }
  }

  /**
   * As written, a parameter without a description is echoed without any line
   * break, so whatever is echoed next continues on the same output line.
   */
  lemma ParamWithoutDescriptionEndsNoLine(param: seq<Arg>)
    requires Field(param, "description").None?
    requires Field(param, "name").Some? ==> '\n' !in Field(param, "name").value
    requires Field(param, "type").Some? ==> '\n' !in Field(param, "type").value
    ensures ParamLineAsWritten(param).Some? ==> '\n' !in ParamLineAsWritten(param).value
  {
    assert '\n' !in ParamIndent;
    assert '\n' !in " ( " && '\n' !in " )";
  }

  /** The parameter `{name: x, type: int}` is printed, and without a line break. */
  lemma ParamsRunTogetherAsWritten()
    ensures var x := [Dict(map["name" := "x", "type" := "int"])];
            |ParamLinesAsWritten([x])| == 1 && '\n' !in ParamLinesAsWritten([x])[0]
  {
    var x := [Dict(map["name" := "x", "type" := "int"])];
    assert Field(x, "name") == Some("x") && Field(x, "type") == Some("int") && Field(x, "description") == None;
    assert '\n' !in "x" && '\n' !in "int";
    ParamWithoutDescriptionEndsNoLine(x);
    assert |ParamTextAsWritten(x)| > 1;
    assert [x][..0] == [];
  }

  /** With the line break restored, each of two parameters is one line of its own. */
  lemma ParamsOnSeparateLines()
    ensures var x := [Dict(map["name" := "x", "type" := "int"])];
            var y := [Dict(map["name" := "y", "type" := "string", "description" := "the y"])];
            ParamLines([x, y]) == [ParamIndent + ParamText(x) + Eol, ParamIndent + ParamText(y) + Eol]
  {
    var x := [Dict(map["name" := "x", "type" := "int"])];
    var y := [Dict(map["name" := "y", "type" := "string", "description" := "the y"])];
    assert Field(x, "name") == Some("x") && Field(y, "name") == Some("y");
    assert |ParamText(x)| > 1 && |ParamText(y)| > 1;
    assert [x, y][..1] == [x];
    assert [x][..0] == [];
  }

  // ---------------------------------------------------------------------
  // Task detail view

  /** The texts of an action description's lines. */
  function Texts(lines: seq<Arg>): (r: seq<string>)
    ensures |r| == |lines|
    ensures forall i | 0 <= i < |lines| :: r[i] == Text(lines[i])
    decreases |lines|
  {
    if lines == [] then [] else Texts(lines[..|lines| - 1]) + [Text(lines[|lines| - 1])]
  }

  /** The name and description lines of one action, and the blank line after them. */
  function ActionHead(name: string, a: ActionDoc): (r: seq<string>)
    ensures |r| == (if a.description.Some? then 3 else 2)
    ensures r[0] == ActionIndent + name + Eol && r[|r| - 1] == Eol
    ensures a.description.Some? ==> r[1] == ActionLineIndent + Implode(Eol, Texts(a.description.value)) + Eol
  {
    [ActionIndent + name + Eol]
    + (if a.description.Some? then [ActionLineIndent + Implode(Eol, Texts(a.description.value)) + Eol] else [])
    + [Eol]
  }

  /** The parameters block of one action: nothing without parameters, else the header and the source's echoes. */
  function ActionParams(params: seq<seq<Arg>>): (r: seq<string>)
    ensures params == [] ==> r == []
    ensures params != [] ==> |r| == 1 + |ParamLinesAsWritten(params)| && r[0] == ParamsHeader
    ensures params != [] ==> r[1..] == ParamLinesAsWritten(params)
  {
    if |params| > 0 then [ParamsHeader] + ParamLinesAsWritten(params) else []
  }

  /** One action of the detail view. */
  function ActionEntry(name: string, a: ActionDoc): (r: seq<string>)
    ensures |r| >= 2 && r[0] == ActionIndent + name + Eol
    ensures a.description.Some? ==> r[1] == ActionLineIndent + Implode(Eol, Texts(a.description.value)) + Eol
    ensures a.params == [] ==> |r| == |ActionHead(name, a)|
    ensures a.params != [] ==>
      var lines := ParamLinesAsWritten(a.params);
      |r| == |ActionHead(name, a)| + 1 + |lines| && r[|r| - |lines| - 1] == ParamsHeader && r[|r| - |lines|..] == lines
  {
    var head, ps := ActionHead(name, a), ActionParams(a.params);
    assert a.params != [] ==> (head + ps)[|head| + 1..] == ps[1..] by {
      if a.params != [] {
        SuffixOfAppend(head, ps, 1);
      }
    }
    head + ps
  }

  /** The actions `keys` of the detail view, in order. */
  function ActionEntries(keys: seq<string>, values: map<string, ActionDoc>): (r: seq<string>)
    requires forall k | k in keys :: k in values
    ensures |r| >= 2 * |keys|
    decreases |keys|
  {
    if keys == [] then []
    else ActionEntries(keys[..|keys| - 1], values) + ActionEntry(keys[|keys| - 1], values[keys[|keys| - 1]])
  }

  /** The entries of the first i + 1 actions extend those of the first i by one entry. */
  lemma ActionEntriesStep(keys: seq<string>, values: map<string, ActionDoc>, i: nat)
    requires i < |keys|
    requires forall k | k in keys :: k in values
    ensures forall k | k in keys[..i] :: k in values
    ensures ActionEntries(keys[..i + 1], values) == ActionEntries(keys[..i], values) + ActionEntry(keys[i], values[keys[i]])
  {
    assert keys[..i + 1][..i] == keys[..i];
  }

  /** The entries of two runs of actions follow one another: the key order is kept. */
  lemma {:induction false} ActionEntriesAppend(a: seq<string>, b: seq<string>, values: map<string, ActionDoc>)
    requires forall k | k in a + b :: k in values
    ensures forall k | k in a :: k in values
    ensures forall k | k in b :: k in values
    ensures ActionEntries(a + b, values) == ActionEntries(a, values) + ActionEntries(b, values)
    decreases |b|
  {
    if b == [] {
      assert a + b == a;
    } else {
      var init, last := b[..|b| - 1], b[|b| - 1];
      assert b == init + [last];
      assert a + b == (a + init) + [last];
      assert (a + init + [last])[..|a + init|] == a + init;
      assert (init + [last])[..|init|] == init;
      ActionEntriesAppend(a, init, values);
      Associative(ActionEntries(a, values), ActionEntries(init, values), ActionEntry(last, values[last]));
    }
  }

  /** Every action of a task has its name line in the detail view. */
  lemma {:induction false} EveryActionListed(keys: seq<string>, values: map<string, ActionDoc>, k: string)
    requires forall k' | k' in keys :: k' in values
    requires k in keys
    ensures ActionIndent + k + Eol in ActionEntries(keys, values)
    decreases |keys|
  {
    var init := keys[..|keys| - 1];
    var last := keys[|keys| - 1];
    if k == last {
      var e := ActionEntries(init, values);
      assert ActionEntries(keys, values)[|e|] == ActionEntry(last, values[last])[0];
    } else {
      assert k in init by {
        var i :| 0 <= i < |keys| && keys[i] == k;
        assert init[i] == k;
      }
      EveryActionListed(init, values, k);
    }
  }

  lemma ActionEntriesSnoc(init: seq<string>, k: string, values: map<string, ActionDoc>)
    requires forall k' | k' in init + [k] :: k' in values
    ensures forall k' | k' in init :: k' in values
    ensures ActionEntries(init + [k], values) == ActionEntries(init, values) + ActionEntry(k, values[k])
  {
    assert (init + [k])[..|init|] == init;
  }

  /** Whatever one action's entry echoes, the entries of all actions echo. */
  lemma ActionEntryLinesListed(keys: seq<string>, values: map<string, ActionDoc>, k: string, x: string)
    requires forall k' | k' in keys :: k' in values
    requires k in keys && x in ActionEntry(k, values[k])
    ensures x in ActionEntries(keys, values)
  {
    var i :| 0 <= i < |keys| && keys[i] == k;
    var pre, post := keys[..i], keys[i + 1..];
    Split(keys, i);
    ActionEntriesAppend(pre + [k], post, values);
    ActionEntriesSnoc(pre, k, values);
    InRight(ActionEntries(pre, values), ActionEntry(k, values[k]), x);
    InLeft(ActionEntries(pre + [k], values), ActionEntries(post, values), x);
  }

  /** The text showTaskHelp echoes before the actions. */
  function TaskHelpHead(task: string, lines: seq<Arg>): (r: seq<string>)
    ensures |r| == 4 + |lines|
    ensures r[0] == Eol && r[1] == "Task: " + task + Eol + Eol
    ensures forall i | 0 <= i < |lines| :: r[2 + i] == DetailIndent + Text(lines[i]) + Eol
    ensures r[|r| - 2] == Eol && r[|r| - 1] == "Available actions:" + Eol + Eol
  {
    [Eol, "Task: " + task + Eol + Eol] + Lines(DetailIndent, lines) + [Eol, "Available actions:" + Eol + Eol]
  }

  /**
   * showTaskHelp. A task that is not in the documentation is read as null:
   * no description line and no action follow its header.
   */
  function TaskHelp(doc: Doc, task: string): (r: seq<string>)
    requires doc.Valid()
    requires forall t | t in doc.values :: doc.values[t].actions.Valid()
    ensures task !in doc.values ==> r == [Eol, "Task: " + task + Eol + Eol, Eol, "Available actions:" + Eol + Eol]
    ensures task in doc.values && doc.values[task] == DefaultTask() ==>
              r == [Eol, "Task: " + task + Eol + Eol, DetailIndent + Eol, Eol, "Available actions:" + Eol + Eol]
  {
    if task in doc.values then
      var t := doc.values[task];
      assert t.actions.Valid();
      assert t == DefaultTask() ==> Lines(DetailIndent, t.description) == [DetailIndent + Eol] by {
        if t == DefaultTask() {
          assert t.description == [Str("")];
          assert t.description[..0] == [];
          assert DetailIndent + Text(Str("")) + Eol == DetailIndent + Eol;
        }
      }
      TaskHelpHead(task, t.description) + ActionEntries(t.actions.keys, t.actions.values)
    else
      TaskHelpHead(task, [])
  }

  /** The detail view of a documented task echoes its description lines right after the header. */
  lemma TaskHelpDescription(doc: Doc, task: string)
    requires doc.Valid()
    requires forall t | t in doc.values :: doc.values[t].actions.Valid()
    requires task in doc.values
    ensures var lines := doc.values[task].description;
            |TaskHelp(doc, task)| >= 4 + |lines| &&
            forall i | 0 <= i < |lines| :: TaskHelp(doc, task)[2 + i] == DetailIndent + Text(lines[i]) + Eol
  {
    var t := doc.values[task];
    assert t.actions.Valid();
    var head := TaskHelpHead(task, t.description);
    var out := TaskHelp(doc, task);
    assert out == head + ActionEntries(t.actions.keys, t.actions.values);
    forall i | 0 <= i < |t.description| ensures out[2 + i] == DetailIndent + Text(t.description[i]) + Eol {
      assert out[2 + i] == head[2 + i];
    }
  }

  /** The detail view of a documented task lists every one of its actions. */
  lemma TaskHelpListsEveryAction(doc: Doc, task: string, k: string)
    requires doc.Valid()
    requires forall t | t in doc.values :: doc.values[t].actions.Valid()
    requires task in doc.values && k in doc.values[task].actions.keys
    ensures ActionIndent + k + Eol in TaskHelp(doc, task)
  {
    var t := doc.values[task];
    assert t.actions.Valid();
    var head := TaskHelpHead(task, t.description);
    var entries := ActionEntries(t.actions.keys, t.actions.values);
    var out := TaskHelp(doc, task);
    assert out == head + entries;
    EveryActionListed(t.actions.keys, t.actions.values, k);
    InRight(head, entries, ActionIndent + k + Eol);
  }

  /** Whatever the entry of one of a documented task's actions echoes, its detail view echoes. */
  lemma TaskHelpShowsAction(doc: Doc, task: string, k: string, x: string)
    requires doc.Valid()
    requires forall t | t in doc.values :: doc.values[t].actions.Valid()
    requires task in doc.values && k in doc.values[task].actions.values
    requires x in ActionEntry(k, doc.values[task].actions.values[k])
    ensures x in TaskHelp(doc, task)
  {
    var t := doc.values[task];
    assert t.actions.Valid();
    assert k in t.actions.keys;
    var head := TaskHelpHead(task, t.description);
    var entries := ActionEntries(t.actions.keys, t.actions.values);
    assert TaskHelp(doc, task) == head + entries;
    ActionEntryLinesListed(t.actions.keys, t.actions.values, k, x);
    InRight(head, entries, x);
  }

  /** The detail view echoes the description line of every described action. */
  lemma TaskHelpShowsActionDescription(doc: Doc, task: string, k: string)
    requires doc.Valid()
    requires forall t | t in doc.values :: doc.values[t].actions.Valid()
    requires task in doc.values && k in doc.values[task].actions.values
    requires doc.values[task].actions.values[k].description.Some?
    ensures ActionLineIndent + Implode(Eol, Texts(doc.values[task].actions.values[k].description.value)) + Eol
            in TaskHelp(doc, task)
  {
    var a := doc.values[task].actions.values[k];
    assert ActionEntry(k, a)[1] == ActionLineIndent + Implode(Eol, Texts(a.description.value)) + Eol;
    TaskHelpShowsAction(doc, task, k, ActionLineIndent + Implode(Eol, Texts(a.description.value)) + Eol);
  }

  /** The detail view echoes every parameter of every action whose text is not `empty()`, as the source assembles it. */
  lemma TaskHelpEchoesEveryParam(doc: Doc, task: string, k: string, j: nat)
    requires doc.Valid()
    requires forall t | t in doc.values :: doc.values[t].actions.Valid()
    requires task in doc.values && k in doc.values[task].actions.values
    requires j < |doc.values[task].actions.values[k].params|
    requires !IsEmpty(ParamText(doc.values[task].actions.values[k].params[j]))
    ensures ParamLineAsWritten(doc.values[task].actions.values[k].params[j]).value in TaskHelp(doc, task)
  {
    var a := doc.values[task].actions.values[k];
    var e := ParamLineAsWritten(a.params[j]).value;
    EveryParamEchoed(a.params, j);
    var lines := ParamLinesAsWritten(a.params);
    var ps := ActionParams(a.params);
    assert ps == [ParamsHeader] + lines;
    InRight([ParamsHeader], lines, e);
    InRight(ActionHead(k, a), ps, e);
    TaskHelpShowsAction(doc, task, k, e);
  }

  // ---------------------------------------------------------------------
  // showHelp

  /** The detail view is chosen only for a target that is present and is not a help token. */
  function DetailView(task: Option<string>): (r: bool)
    ensures r <==> task.Some? && task.value != "-h" && task.value != "--help" && task.value != "help"
  {
    task.Some? && !HelpTrigger.IsHelp(task.value)
  }

  /** showHelp($task). */
  function HelpText(doc: Doc, appName: Option<string>, version: Option<string>, task: Option<string>): (r: seq<string>)
    requires WellFormed(doc)
    ensures |r| > 5 && r[..5] == Banner(appName, version)
    ensures DetailView(task) ==> r[5..] == TaskHelp(doc, task.value)
    ensures !DetailView(task) ==> r[5..] == AvailableTasks(doc)
  {
    Banner(appName, version) + (if DetailView(task) then TaskHelp(doc, task.value) else AvailableTasks(doc))
  }

  /** An echo that starts the detail view's task header. */
  predicate IsTaskHeader(c: string) {
    |c| >= 6 && c[..6] == "Task: "
  }

  /** An echo that cannot be a task header: it is empty or does not start with 'T'. */
  predicate NotT(c: string) {
    |c| == 0 || c[0] != 'T'
  }

  lemma {:induction false} LinesNotT(indent: string, lines: seq<Arg>)
    requires |indent| > 0 && indent[0] == ' '
    ensures forall i | 0 <= i < |Lines(indent, lines)| :: NotT(Lines(indent, lines)[i])
  {
    forall i | 0 <= i < |Lines(indent, lines)| ensures NotT(Lines(indent, lines)[i]) {
      assert Lines(indent, lines)[i][0] == indent[0];
    }
  }

  lemma {:induction false} TaskEntriesNotT(keys: seq<string>, values: map<string, TaskDoc>)
    requires forall k | k in keys :: k in values
    ensures forall i | 0 <= i < |TaskEntries(keys, values)| :: NotT(TaskEntries(keys, values)[i])
    decreases |keys|
  {
    if keys != [] {
      var init := keys[..|keys| - 1];
      var last := keys[|keys| - 1];
      TaskEntriesNotT(init, values);
      LinesNotT(TaskLineIndent, values[last].description);
      var e := TaskEntry(last, values[last]);
      assert (TaskIndent + last + Eol)[0] == ' ';
      assert forall i | 0 <= i < |e| :: NotT(e[i]) by {
        forall i | 0 <= i < |e| ensures NotT(e[i]) {
          if i >= 2 {
            assert e[i] == Lines(TaskLineIndent, values[last].description)[i - 2];
          }
        }
      }
      var a := TaskEntries(init, values);
      forall i | 0 <= i < |a + e| ensures NotT((a + e)[i]) {
        if i >= |a| {
          assert (a + e)[i] == e[i - |a|];
        }
      }
    }
  }

  /** No echo of the task list view, banner included, is a task header. */
  lemma ListViewHasNoTaskHeader(doc: Doc, appName: Option<string>, version: Option<string>)
    requires doc.Valid()
    ensures forall i | 0 <= i < |Banner(appName, version) + AvailableTasks(doc)| ::
      !IsTaskHeader((Banner(appName, version) + AvailableTasks(doc))[i])
  {
    var b := Banner(appName, version);
    var e := TaskEntries(doc.keys, doc.values);
    TaskEntriesNotT(doc.keys, doc.values);
    assert forall i | 0 <= i < |b| :: NotT(b[i]);
    assert forall i | 0 <= i < |ListHeader()| :: NotT(ListHeader()[i]) by {
      var h := ListHeader();
      assert "           command <task> -h | --help | help"[0] == ' ';
      assert "Available tasks "[0] == 'A';
      assert h[0][0] == '\n' && h[1][0] == '\n' && h[2][0] == ' ' && h[3][0] == '\n' && h[4][0] == 'A';
    }
    var out := b + (ListHeader() + e);
    forall i | 0 <= i < |out| ensures !IsTaskHeader(out[i]) {
      assert NotT(out[i]) by {
        if i < |b| {
          assert out[i] == b[i];
        } else if i < |b| + |ListHeader()| {
          assert out[i] == ListHeader()[i - |b|];
        } else {
          assert out[i] == e[i - |b| - |ListHeader()|];
        }
      }
    }
  }

  /**
   * The output holds the task header exactly when the target is present and
   * is not a help token; it is then the echo right after the banner block.
   */
  lemma ViewSelection(doc: Doc, appName: Option<string>, version: Option<string>, task: Option<string>)
    requires WellFormed(doc)
    ensures (exists i | 0 <= i < |HelpText(doc, appName, version, task)| :: IsTaskHeader(HelpText(doc, appName, version, task)[i]))
            <==> task.Some? && !HelpTrigger.IsHelp(task.value)
    ensures DetailView(task) ==> HelpText(doc, appName, version, task)[6] == "Task: " + task.value + "\n\n"
  {
    var out := HelpText(doc, appName, version, task);
    if DetailView(task) {
      assert out[6] == "Task: " + task.value + Eol + Eol;
      assert IsTaskHeader(out[6]);
    } else {
      ListViewHasNoTaskHeader(doc, appName, version);
    }
  }

  /** The list view shows the name line of every documented task, after the list header. */
  lemma AvailableTasksListsEveryTask(doc: Doc, k: string)
    requires doc.Valid() && k in doc.keys
    ensures TaskIndent + k + Eol in AvailableTasks(doc)
  {
    EveryTaskListed(doc.keys, doc.values, k);
    InRight(ListHeader(), TaskEntries(doc.keys, doc.values), TaskIndent + k + Eol);
  }

  /** Every task of the documentation is listed in the task list view. */
  lemma {:induction false} EveryTaskListed(keys: seq<string>, values: map<string, TaskDoc>, k: string)
    requires forall k' | k' in keys :: k' in values
    requires k in keys
    ensures TaskIndent + k + Eol in TaskEntries(keys, values)
    decreases |keys|
  {
    var init := keys[..|keys| - 1];
    var last := keys[|keys| - 1];
    if k == last {
      assert TaskEntry(last, values[last])[1] == TaskIndent + k + Eol;
    } else {
      assert k in init by {
        var i :| 0 <= i < |keys| && keys[i] == k;
        assert init[i] == k;
      }
      EveryTaskListed(init, values, k);
    }
  }
}
