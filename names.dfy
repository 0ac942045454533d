/** How createHelp derives task names, action names and class identifiers. */
module Names {
  import opened Php

  /** strtolower(str_replace('Task', '', $filename)). */
  function TaskName(fileName: string): (r: string)
    ensures |r| <= |fileName|
    ensures forall i | 0 <= i < |r| :: !IsAsciiUpper(r[i])
  {
    StrToLower(StrRemove("Task", fileName))
  }

  /** strtolower(str_replace('Action', '', $action)). */
  function ActionName(methodName: string): (r: string)
    ensures |r| <= |methodName|
    ensures forall i | 0 <= i < |r| :: !IsAsciiUpper(r[i])
  {
    StrToLower(StrRemove("Action", methodName))
  }

  /** ($namespace ? $namespace . '\\' : '') . $filename. */
  function TaskClass(namespace: string, fileName: string): (r: string)
    ensures |fileName| <= |r| && r[|r| - |fileName|..] == fileName
    ensures !Truthy(namespace) ==> r == fileName
    ensures Truthy(namespace) ==> |r| == |namespace| + 1 + |fileName| && r[..|namespace|] == namespace && r[|namespace|] == '\\'
  {
    (if Truthy(namespace) then namespace + "\\" else "") + fileName
  }

  /** strtolower leaves a string without capitals as it is. */
  lemma {:induction false} StrToLowerNoUpper(s: string)
    requires forall i | 0 <= i < |s| :: !IsAsciiUpper(s[i])
    ensures StrToLower(s) == s
  {
    var r := StrToLower(s);
    assert |r| == |s|;
    forall i | 0 <= i < |s| ensures r[i] == s[i] {
      assert r[i] == LowerChar(s[i]);
    }
  }

  /** A lower-case file name is its own task name: it cannot contain 'Task'. */
  lemma LowerCaseFileNameIsTaskName(fileName: string)
    requires forall i | 0 <= i < |fileName| :: !IsAsciiUpper(fileName[i])
    ensures TaskName(fileName) == fileName
  {
    forall i: nat ensures !OccursAt(fileName, "Task", i) {
      if i + 4 <= |fileName| {
        assert !IsAsciiUpper(fileName[i]);
        assert fileName[i..i + 4][0] == fileName[i];
      }
    }
    StrRemoveAbsent("Task", fileName);
    StrToLowerNoUpper(fileName);
  }

  /** The usual file names: a 'Task' suffix goes and the rest is lower-cased. */
  lemma TaskNameOfSuffixed(word: string)
    requires 'T' !in word
    ensures TaskName(word + "Task") == StrToLower(word)
  {
    StrRemoveTail(word, "Task");
  }

  lemma TaskNameOfFooTask()
    ensures TaskName("FooTask") == "foo"
  {
    assert "FooTask" == "Foo" + "Task";
    TaskNameOfSuffixed("Foo");
    LowerWord("Foo", "foo");
  }

  /** Every occurrence goes, a leading one included. */
  lemma TaskNameOfTaskRunnerTask()
    ensures TaskName("TaskRunnerTask") == "runner"
  {
    assert "TaskRunnerTask" == "Task" + ("Runner" + "Task");
    StrRemoveLeading("Task", "Runner" + "Task");
    StrRemoveTail("Runner", "Task");
    LowerWord("Runner", "runner");
  }

  /** Deleted text is not scanned again: 'TTaskask' loses one 'Task' and keeps the one that closes up. */
  lemma TaskNameNoRescan()
    ensures TaskName("TTaskask") == "task"
  {
    assert "TTaskask" == "T" + ("Task" + "ask");
    assert ("T" + ("Task" + "ask"))[..4][1] == 'T';
    StrRemoveKeep("Task", 'T', "Task" + "ask");
    StrRemoveLeading("Task", "ask");
    assert StrRemove("Task", "TTaskask") == "Task";
    LowerWord("Task", "task");
  }

  lemma ActionNameExample()
    ensures ActionName("mainAction") == "main"
  {
    assert "mainAction" == "main" + "Action";
    StrRemoveTail("main", "Action");
    LowerWord("main", "main");
  }

  /** strtolower of a word, checked character by character. */
  lemma LowerWord(s: string, t: string)
    requires |s| == |t| && forall i | 0 <= i < |s| :: LowerChar(s[i]) == t[i]
    ensures StrToLower(s) == t
  {
  }
}
