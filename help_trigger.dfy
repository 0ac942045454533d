/** Deciding whether an invocation asks for help (Extended::isHelp and friends). */
module HelpTrigger {
  import opened Php

  /** The invocation arguments this core reads: `task`, `action` and the rest, by key. */
  type Arguments = map<string, string>

  const HelpTokens: seq<string> := ["-h", "--help", "help"]

  /** `in_array($argument, ['-h', '--help', 'help'])`. */
  function IsHelp(argument: string): (r: bool)
    ensures r <==> argument == "-h" || argument == "--help" || argument == "help"
  {
    argument in HelpTokens
  }

  /** `Arr::has($arguments, 'task') && isHelp($arguments['task'])`. */
  function IsHelpArgInTask(arguments: Arguments): (r: bool)
    ensures r ==> "task" in arguments
    ensures "task" in arguments ==> (r <==> IsHelp(arguments["task"]))
  {
    "task" in arguments && IsHelp(arguments["task"])
  }

  /** `Arr::has($arguments, 'action') && isHelp($arguments['action'])`. */
  function IsHelpArgInAction(arguments: Arguments): (r: bool)
    ensures r ==> "action" in arguments
    ensures "action" in arguments ==> (r <==> IsHelp(arguments["action"]))
  {
    "action" in arguments && IsHelp(arguments["action"])
  }

  /** The guard of Extended::handle. */
  function HelpRequested(arguments: Arguments): (r: bool)
    ensures r ==> "task" in arguments || "action" in arguments
    ensures r ==> HelpTarget(arguments).Some? || IsHelp(arguments["action"])
  {
    IsHelpArgInTask(arguments) || IsHelpArgInAction(arguments)
  }

  /**
   * What showHelp receives: `$arguments['task']`, which PHP reads as null
   * when the key is missing.
   */
  function HelpTarget(arguments: Arguments): (r: Option<string>)
    ensures r.Some? <==> "task" in arguments
    ensures r.Some? ==> r.value == arguments["task"]
  {
    if "task" in arguments then Some(arguments["task"]) else None
  }

  /** Without a `task` and an `action` key help is never requested. */
  lemma NoKeysNoHelp(arguments: Arguments)
    requires "task" !in arguments && "action" !in arguments
    ensures !HelpRequested(arguments)
  {
  }

  /**
   * Help is requested exactly when one of the two keys holds a help token;
   * a help token in `action` alone still targets the task named in `task`.
   */
  lemma HelpRequestedExactly(arguments: Arguments)
    ensures HelpRequested(arguments) <==>
      exists key | key in ["task", "action"] :: key in arguments && arguments[key] in ["-h", "--help", "help"]
  {
    if HelpRequested(arguments) {
      if IsHelpArgInTask(arguments) {
        assert "task" in ["task", "action"];
      } else {
        assert "action" in ["task", "action"];
      }
    }
  }
}
