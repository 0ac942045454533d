# Extended console help, modelled in Dafny

The model covers the help generator of Phalcon's extended console application, `Phalcon\Incubator\Cli\Console\Extended`:

- When `task` or `action` holds `-h`, `--help` or `help`, `handle` checks the configured tasks directory.
- It then reads the annotations of every task class in that directory into a documentation array.
- Last, it echoes either the list of all tasks or the help of one task, and then hands over to the parent console.

## Modules

- `Php` (php.dfy): the PHP built-ins the code relies on, stated on strings:
  - `str_replace` with an empty replacement;
  - ASCII `strtolower`;
  - the `filename` part of `pathinfo`;
  - `implode`;
  - PHP truthiness and `empty()`.
- `Seqs` (seqs.dfy): general facts about sequences that the proofs share.
- `OrderedMap` (ordered_map.dfy): a PHP array with string keys. Assigning to an existing key keeps its position; a new key goes to the end.
- `Annotations` (annotations.dfy): what the annotation reader returns, as plain data. These are class annotations, which may be missing, and per-method annotation collections. Each annotation has a name and positional arguments. An argument is a string or an array of named strings.
- `HelpTrigger` (help_trigger.dfy): `isHelp`, `isHelpArgInTask`, `isHelpArgInAction`, and the guard of `handle`.
- `Names` (names.dfy): task names, action names and class identifiers.
- `Documentation` (documentation.dfy): the documentation array that `createHelp` builds, as functions of the listing and the reader. The lemmas state which annotation wins, which methods are left out, and in what order keys appear.
- `Render` (render.dfy): what `showHelp`, `showAvailableTasks` and `showTaskHelp` echo. Output is a sequence with one string per `echo` statement; `PHP_EOL` is `"\n"`.
- `Console` (console.dfy): the class `Extended` with its two fields, `tasksDir` and `documentation`.
  - Its methods update the fields and echo step by step, like the PHP code, parameter lines included exactly as the code assembles them.
  - Each method is proved equal to the `Documentation` or `Render` function for its inputs and the object's old state.
- `Scenarios` (scenarios.dfy): whole requests. One is a directory holding `FooTask.php`, asked with `task=foo action=help`. The other is a directory holding only `.` and `..`.

Outside effects are inputs to the model:

- The DI container's `config` entries (`tasksDir`, `appName`, `version`).
- `is_dir` and `scandir`.
- The dispatcher's namespace.
- The annotation reader's `get`.

### Behaviour of the code worth knowing

- Rebuilding the documentation:
  - The documentation field is never reset. `createHelp` writes into whatever an earlier call left there.
  - So `Handle` and `CreateHelp` build on the old `documentation`, and the lemmas `BuildKeepsOthers` and `BuildValid` (older keys keep their places) say what survives.
- The namespace:
  - It comes from the dispatcher alone (src/Console/Extended.php:77-78).
  - No `namespace` argument overrides it.
- The banner:
  - It starts with `PHP_EOL`, not with a space (src/Console/Extended.php:171).
  - The application name is followed by a space only when it is set.
- An unknown task:
  - The detail view prints `Task: <name>` and the two headers.
  - It prints no description line and no action (src/Console/Extended.php:214-226).

## Model

| member | source | states |
|---|---|---|
| HelpTrigger.IsHelp | src/Console/Extended.php:273-276 | true exactly for `-h`, `--help` and `help` |
| HelpTrigger.IsHelpArgInTask | src/Console/Extended.php:263-266 | true only with a `task` key, and then exactly when its value is a help token |
| HelpTrigger.IsHelpArgInAction | src/Console/Extended.php:268-271 | the same for the `action` key |
| HelpTrigger.HelpRequested | src/Console/Extended.php:41 | a help request needs a `task` or an `action` key; without a target task the `action` value is the help token |
| HelpTrigger.HelpTarget | src/Console/Extended.php:44 | the task passed to showHelp is present exactly when the `task` key is, and is its value |
| HelpTrigger.NoKeysNoHelp | src/Console/Extended.php:41 | without `task` and `action` keys help is never requested |
| HelpTrigger.HelpRequestedExactly | src/Console/Extended.php:41 | help is requested if and only if `task` or `action` holds one of the three tokens |
| Php.StrRemove | src/Console/Extended.php:96-100 | str_replace with '' never lengthens the subject |
| Php.StrRemoveAbsent | src/Console/Extended.php:96-100 | a subject without an occurrence comes back unchanged |
| Php.StrRemoveLeading | src/Console/Extended.php:96-100 | a leading occurrence is deleted and the scan resumes after it |
| Php.StrRemoveKeep | src/Console/Extended.php:96-100 | a character that does not start an occurrence is kept and the scan moves on by one |
| Php.StrRemoveTail | src/Console/Extended.php:96-100 | a word without the first character of the search, followed by the search, loses exactly that suffix |
| Php.LowerChar | src/Console/Extended.php:95 | an ASCII capital moves down by 32 code points, any other character stays, and no capital results |
| Php.StrToLower | src/Console/Extended.php:95 | same length, each character lower-cased, no capital left |
| Php.StrToLowerIdempotent | src/Console/Extended.php:95 | lower-casing twice is lower-casing once |
| Php.PathFilename | src/Console/Extended.php:92 | the filename is a prefix of the entry: all of it without a '.', else up to the last '.' |
| Php.PathFilenameStripsExtension | src/Console/Extended.php:92 | `name.ext` with a dot-free extension has filename `name` |
| Php.Implode | src/Console/Extended.php:230 | one part is itself, no parts is "" |
| Php.ImplodeSnoc | src/Console/Extended.php:230 | one more part is joined after the separator, so with the cases for 0 and 1 parts every result is fixed |
| Php.Truthy | src/Console/Extended.php:93 | definition: a string is truthy unless it is "" or "0" |
| Php.IsEmpty | src/Console/Extended.php:254 | definition: `empty()` on a string is the negation of truthiness |
| OrderedMap.Put | src/Console/Extended.php:103-106 | array assignment keeps the array well formed, keeps an existing key's place, appends a new key, and stores the value |
| OrderedMap.PutPut | src/Console/Extended.php:103-106 | two assignments to one key equal the second one alone |
| Names.TaskName | src/Console/Extended.php:95-101 | the task name is no longer than the file name and has no capitals |
| Names.ActionName | src/Console/Extended.php:135-141 | the action name is no longer than the method name and has no capitals |
| Names.TaskClass | src/Console/Extended.php:93 | the file name is the suffix; a falsy namespace adds nothing, a truthy one adds itself and a backslash |
| Names.LowerCaseFileNameIsTaskName | src/Console/Extended.php:95-101 | a file name without capitals is its own task name |
| Names.TaskNameOfSuffixed | src/Console/Extended.php:95-101 | a 'T'-free word followed by `Task` gives the lower-cased word |
| Names.TaskNameOfFooTask | src/Console/Extended.php:95-101 | `FooTask` gives `foo` |
| Names.TaskNameOfTaskRunnerTask | src/Console/Extended.php:95-101 | `TaskRunnerTask` gives `runner`: every occurrence goes |
| Names.TaskNameNoRescan | src/Console/Extended.php:95-101 | `TTaskask` gives `task`: the text that closes up is not scanned again |
| Names.ActionNameExample | src/Console/Extended.php:135-141 | `mainAction` gives `main` |
| Documentation.WithoutDotEntries | src/Console/Extended.php:66-74 | keeps exactly the listing's entries other than `.` and `..`, and never more entries than the listing has |
| Documentation.WithoutDotEntriesAppend | src/Console/Extended.php:66-74 | the kept entries stay in listing order: filtering a concatenation concatenates the filtered parts |
| Documentation.WithoutDotEntriesFront | src/Console/Extended.php:66-74 | the first entry, unless `.` or `..`, comes first, followed by the filtered rest |
| Documentation.DefaultTask | src/Console/Extended.php:103-106 | a new task has description `['']` and no actions |
| Documentation.TaskDescription | src/Console/Extended.php:116-121 | the task description is `['']` or the arguments of one of the `description` class annotations |
| Documentation.TaskDescriptionLastWins | src/Console/Extended.php:116-121 | the last `description` class annotation gives the task description |
| Documentation.TaskDescriptionDefault | src/Console/Extended.php:103-121 | without one the description stays `['']` |
| Documentation.ApplyActionAnnotation | src/Console/Extended.php:147-159 | a `description` annotation replaces the description, a `param` annotation appends its arguments, any other annotation changes nothing |
| Documentation.ActionDocOf | src/Console/Extended.php:143-159 | an action starts empty; it has no more params than annotations, and a description only from a `description` annotation |
| Documentation.ActionDescriptionLastWins | src/Console/Extended.php:147-153 | the last `description` annotation of a method gives the action description |
| Documentation.ActionDescriptionAbsent | src/Console/Extended.php:143-153 | an action has no description if and only if no annotation is named `description` |
| Documentation.ArgumentsNamedAppend | src/Console/Extended.php:154-158 | one more annotation adds its arguments at the end exactly when it has the name looked for |
| Documentation.ActionParamsInOrder | src/Console/Extended.php:154-158 | the params are the arguments of the `param` annotations, in source order |
| Documentation.ActionIgnoresOtherAnnotations | src/Console/Extended.php:147-159 | an annotation other than `description` and `param` changes nothing |
| Annotations.Has | src/Console/Extended.php:131 | `has` holds exactly when some annotation of the collection has the name |
| Documentation.Covered | src/Console/Extended.php:131-133 | a method is covered unless its collection has `DoNotCover` |
| Documentation.Actions | src/Console/Extended.php:130-160 | the actions array is well formed |
| Documentation.ActionKeys | src/Console/Extended.php:130-143 | an action key exists if and only if a covered method derives that name |
| Documentation.ActionsStep | src/Console/Extended.php:130-143 | one more method adds its name exactly when it is covered, and no other name |
| Documentation.ExcludedNeverListed | src/Console/Extended.php:131-133 | a `DoNotCover` method whose name no covered method shares is never listed |
| Documentation.ActionLastWins | src/Console/Extended.php:143-159 | for colliding names the last covered method's annotations win |
| Documentation.ActionNames | src/Console/Extended.php:130-141 | one derived name per method, pointwise |
| Documentation.CoveredMethods | src/Console/Extended.php:130-133 | keeps a method if and only if it is not marked `DoNotCover` |
| Documentation.CoveredMethodsAppend | src/Console/Extended.php:130-133 | the filter distributes over concatenation, so covered methods keep their declaration order |
| Documentation.ActionOrder | src/Console/Extended.php:130-143 | when the covered methods derive distinct names, the action keys are those names in declaration order, `DoNotCover` methods skipped |
| Documentation.TaskDocOf | src/Console/Extended.php:103-128 | missing class annotations leave the default entry; the actions are well formed |
| Documentation.NoClassAnnotationsNoActions | src/Console/Extended.php:110-114 | without class annotations the methods are not read |
| Documentation.AddTask | src/Console/Extended.php:92-160 | one task file sets its name's entry to its class's entry; every other entry is kept and no other key appears |
| Documentation.AddTaskKeys | src/Console/Extended.php:103-106 | one task file keeps the array well formed and appends its name unless present |
| Documentation.Build | src/Console/Extended.php:91-160 | the loop over the task files loses no earlier key and gives every file's name a key |
| Documentation.BuildValid | src/Console/Extended.php:91-106 | the documentation stays well formed and older keys keep their places |
| Documentation.BuildWellFormed | src/Console/Extended.php:91-160 | tasks and their actions stay well-formed arrays |
| Documentation.TaskNames | src/Console/Extended.php:91-101 | one task name per file, pointwise |
| Documentation.EntryTaskName | src/Console/Extended.php:92-101 | definition: the task name of a directory entry is TaskName of its `pathinfo` filename |
| Documentation.EntryTaskClass | src/Console/Extended.php:92-93 | definition: the class of a directory entry is TaskClass of the namespace and its filename |
| Documentation.BuildKeys | src/Console/Extended.php:91-106 | a task key exists if and only if it was there before or some file yields it |
| Documentation.BuildLastWins | src/Console/Extended.php:91-128 | for colliding file names the last file's class decides the entry |
| Documentation.BuildKeepsOthers | src/Console/Extended.php:91-106 | an earlier entry no file renames survives unchanged |
| Documentation.BuildDistinctNames | src/Console/Extended.php:91-106 | with new distinct names the keys are the old keys followed by the files' names in listing order |
| Documentation.BuildAppendsNewName | src/Console/Extended.php:103-106 | a last file with a new name appends that name after the keys already built |
| Documentation.BuildDocumentation | src/Console/Extended.php:64-162 | `createHelp` keeps every earlier key and gives a key to every listed entry other than `.` and `..` |
| Documentation.CollidingFilesLaterWins | src/Console/Extended.php:103-106 | a file whose name collides with a later one leaves no trace |
| Documentation.SetTaskDescription | src/Console/Extended.php:119 | sets the task's description, keeps its actions, every other task and the key order |
| Documentation.SetAction | src/Console/Extended.php:143 | sets one action of one task, keeps the task's description, its other actions, every other task and the task keys; a new action key goes last |
| Documentation.SetActionDescription | src/Console/Extended.php:153 | sets the action's description; keeps its params, the task's description, the action keys, the other actions, every other task and the task keys |
| Documentation.AppendActionParam | src/Console/Extended.php:157 | appends one params entry at the end; keeps the action's description, the task's description, the action keys, the other actions, every other task and the task keys |
| Documentation.WriteTaskDescription | src/Console/Extended.php:117-120 | a class `description` write replaces the description of a fresh task entry and nothing else |
| Documentation.WriteActionAnnotation | src/Console/Extended.php:147-158 | each write of the annotation loop leaves the entry ApplyActionAnnotation gives; other names write nothing |
| Annotations.Text | src/Console/Extended.php:207 | a string argument prints as itself, an array as `Array` |
| Render.Banner | src/Console/Extended.php:171-185 | five echoes; the first is `PHP_EOL`, the name and a space when set, the version when set, and `PHP_EOL`, in all four cases; then `Usage:`, a blank echo, the tab-indented usage line and a blank echo |
| Render.ListHeader | src/Console/Extended.php:196-200 | five echoes, from the help hint to the `Available tasks` header |
| Render.TaskEntry | src/Console/Extended.php:203-208 | a blank echo, the indented task name, then one indented echo per description line |
| Render.TaskEntries | src/Console/Extended.php:202-209 | at least two echoes per task; the first task's name line comes second |
| Render.TaskEntriesSnoc | src/Console/Extended.php:202-209 | one more task appends its entry after the earlier ones |
| Render.TaskEntriesAppend | src/Console/Extended.php:202-209 | the entries of two runs of tasks follow one another, so tasks are listed in key order |
| Render.Lines | src/Console/Extended.php:206-208 | one echo per description line, each indented and ended |
| Render.AvailableTasks | src/Console/Extended.php:194-210 | an empty documentation prints the header alone |
| Render.Field | src/Console/Extended.php:242-251 | `isset($param[0][$key])`: set exactly when the first argument is an array holding the key, and then its value |
| Render.NamePart | src/Console/Extended.php:242-244 | the name, or "" when it is unset |
| Render.TypePart | src/Console/Extended.php:246-248 | "" exactly when the type is unset, else the type text between ` ( ` and ` )` |
| Render.DescriptionPart | src/Console/Extended.php:250-252 | "" exactly when the description is unset, else a space and the description |
| Render.ParamText | src/Console/Extended.php:240-252 | the text starts with the name and is the name alone without type and description |
| Render.ParamTextAsWritten | src/Console/Extended.php:240-252 | `$_to_print` as written: the text followed by `PHP_EOL` when a description is set, the bare text otherwise |
| Render.ParamLineAsWritten | src/Console/Extended.php:254-256 | the source echoes a parameter exactly when its text is not `empty()`, after the parameter indent |
| Render.ParamLinesAsWritten | src/Console/Extended.php:238-256 | the source's parameter echoes, at most one per parameter |
| Render.ParamLinesAsWrittenSnoc | src/Console/Extended.php:238-256 | one more parameter adds its echo at the end exactly when its text is not `empty()` |
| Render.ParamLinesAsWrittenAppend | src/Console/Extended.php:238-256 | the echoes of two runs of parameters follow one another, so parameter order is kept |
| Render.EveryParamEchoed | src/Console/Extended.php:238-256 | every parameter whose text is not `empty()` has its echo in the output |
| Render.EchoOfSomeParamExtend | src/Console/Extended.php:238-256 | an echo of an earlier parameter stays an echo of some parameter when one more follows |
| Render.EchoOfLastParam | src/Console/Extended.php:238-256 | the echo of the last parameter is an echo of some parameter |
| Render.ParamEchoesFromParams | src/Console/Extended.php:238-256 | every parameter echo is the echo of some parameter: nothing else is printed |
| Render.ParamLine | src/Console/Extended.php:238-256 | the corrected echo is printed if and only if the text is not `empty()` |
| Render.ParamLines | src/Console/Extended.php:238-258 | the corrected echoes, at most one per parameter |
| Render.ParamLinesSnoc | src/Console/Extended.php:238-258 | one more parameter adds its corrected line at the end exactly when its text is not `empty()` |
| Render.ParamLinesAppend | src/Console/Extended.php:238-258 | the corrected lines of two runs of parameters follow one another |
| Render.EveryParamLined | src/Console/Extended.php:238-258 | in the corrected version, every parameter whose text is not `empty()` has its own indented line |
| Render.ParamLinesMatchAsWritten | src/Console/Extended.php:238-256 | the source prints as many parameter echoes as the corrected version, each differing at most by its line break |
| Render.ParamsWithDescriptionsUnaffected | src/Console/Extended.php:250-255 | when every parameter has a description, the source's echoes are the corrected ones |
| Render.ParamTextEmpty | src/Console/Extended.php:240-252 | the text is "" exactly when the name is "" or unset and type and description are unset |
| Render.ParamZeroNameHidden | src/Console/Extended.php:254-256 | a parameter named only "0" is not printed |
| Render.ParamLineMatchesAsWritten | src/Console/Extended.php:240-256 | the corrected line prints when the source's does, and differs only by the missing line break |
| Render.ParamLinesOwnLines | src/Console/Extended.php:238-258 | every printed parameter line starts with the indent and ends with a line break |
| Render.ParamWithoutDescriptionEndsNoLine | src/Console/Extended.php:250-255 | as written, a parameter without description prints no line break |
| Render.ParamsRunTogetherAsWritten | src/Console/Extended.php:246-255 | as written, `{name: x, type: int}` is printed and ends no line |
| Render.ParamsOnSeparateLines | src/Console/Extended.php:238-258 | corrected, two parameters print two separate lines |
| Render.ActionHead | src/Console/Extended.php:227-233 | the name line, then the indented description lines joined by `PHP_EOL` when a description is set, then a blank echo |
| Render.ActionParams | src/Console/Extended.php:235-259 | nothing without params; else the `Parameters:` header followed by exactly the source's parameter echoes |
| Render.ActionEntry | src/Console/Extended.php:227-259 | the name line, the description line when set, and, when there are params, the header and then exactly the source's parameter echoes at the end |
| Render.ActionEntries | src/Console/Extended.php:226-260 | at least two echoes per action |
| Render.ActionEntriesStep | src/Console/Extended.php:226-260 | one more action appends its entry after the earlier ones |
| Render.ActionEntriesAppend | src/Console/Extended.php:226-260 | the entries of two runs of actions follow one another, so the key order is kept |
| Render.ActionEntriesSnoc | src/Console/Extended.php:226-260 | one more action appends its entry after the earlier ones |
| Render.ActionEntryLinesListed | src/Console/Extended.php:226-260 | every echo of one action's entry is an echo of the action loop |
| Render.EveryActionListed | src/Console/Extended.php:226-228 | every action key has its name line among the entries |
| Render.TaskHelpHead | src/Console/Extended.php:216-224 | a blank echo, the `Task:` header, one indented echo per description line, a blank echo and the `Available actions:` header |
| Render.Texts | src/Console/Extended.php:230 | one text per description line |
| Render.TaskHelp | src/Console/Extended.php:212-261 | an unknown task prints only the headers; a task left at its defaults prints one blank description line |
| Render.TaskHelpDescription | src/Console/Extended.php:216-222 | a documented task's description lines follow its header, one indented echo each |
| Render.TaskHelpListsEveryAction | src/Console/Extended.php:214-227 | a documented task's detail view has the name line of every one of its actions |
| Render.TaskHelpShowsAction | src/Console/Extended.php:214-260 | every echo of one of a documented task's actions is in its detail view |
| Render.TaskHelpShowsActionDescription | src/Console/Extended.php:229-231 | the detail view echoes the description line of every described action |
| Render.TaskHelpEchoesEveryParam | src/Console/Extended.php:235-258 | the detail view echoes every parameter whose text is not `empty()`, as the source assembles it |
| Render.DetailView | src/Console/Extended.php:187 | the detail view is chosen exactly for a task that is not null and not `-h`, `--help` or `help` |
| Render.HelpText | src/Console/Extended.php:167-192 | the banner's five echoes, then the detail view or the task list as DetailView decides |
| Render.ListViewHasNoTaskHeader | src/Console/Extended.php:181-210 | the list view never echoes a `Task: ` header |
| Render.ViewSelection | src/Console/Extended.php:187-191 | the detail view is shown if and only if a task is given and is not a help token, with its header right after the banner |
| Render.EveryTaskListed | src/Console/Extended.php:202-209 | every documented task has its name line in the list |
| Render.AvailableTasksListsEveryTask | src/Console/Extended.php:194-209 | the list view shows the name line of every documented task |
| Console.Extended.constructor | src/Console/Extended.php:30-32 | both fields start out null, the documentation as an empty array |
| Console.Extended.Handle | src/Console/Extended.php:39-48 | without help nothing changes; an invalid directory raises; else the fields are set, the documentation is built and the chosen view is echoed |
| Console.TasksDirUsable | src/Console/Extended.php:57 | definition: the directory is usable exactly when `tasksDir` is set and `is_dir` holds for it |
| Console.Extended.SetTasksDir | src/Console/Extended.php:53-62 | sets the field exactly when the directory is set and exists, else raises and leaves it |
| Console.Extended.CreateHelp | src/Console/Extended.php:64-162 | the new documentation is the old one extended by every task file, and stays well formed |
| Console.Extended.DocumentFile | src/Console/Extended.php:91-160 | one pass of the file loop equals AddTask |
| Console.Extended.DocumentTask | src/Console/Extended.php:92-160 | one task file replaces its entry by the entry of its class |
| Console.Extended.DocumentAction | src/Console/Extended.php:143-159 | one covered method replaces its action by the entry read from its annotations |
| Console.Extended.ShowHelp | src/Console/Extended.php:167-192 | echoes the banner, then the view `HelpText` selects |
| Console.Extended.ShowAvailableTasks | src/Console/Extended.php:194-210 | echoes the task list of the current documentation |
| Console.Extended.ShowTaskHelp | src/Console/Extended.php:212-261 | echoes the detail view of the task, parameter lines as the code assembles them |
| Console.EchoTaskHead | src/Console/Extended.php:216-224 | the echoes before the actions |
| Console.EchoTasks | src/Console/Extended.php:202-209 | the list view's entries, in documentation order |
| Console.EchoTaskEntry | src/Console/Extended.php:203-208 | one task's name line and description lines |
| Console.EchoActions | src/Console/Extended.php:226-260 | the detail view's entries, in action order |
| Console.EchoAction | src/Console/Extended.php:227-259 | one action's name, description and parameter echoes |
| Console.EchoParams | src/Console/Extended.php:238-258 | the indent and `$_to_print` for each parameter whose text is not empty, with no line break added |
| Console.ParamToPrint | src/Console/Extended.php:240-252 | builds `$_to_print` from name, type and description, with `PHP_EOL` only after a description |
| Console.EchoLines | src/Console/Extended.php:206-208 | one indented line per description line |
| Scenarios.BarName | src/Console/Extended.php:135-141 | `barAction` gives the action name `bar` |
| Scenarios.BarAnnotationsRead | src/Console/Extended.php:147-159 | the annotations of barAction give description `Bars` and the params x then y |
| Scenarios.BarDescriptionLine | src/Console/Extended.php:230 | bar's description prints as `Bars` |
| Scenarios.BarParamTexts | src/Console/Extended.php:240-252 | the texts of x and y are `x ( int )` and `y ( string ) the y` |
| Scenarios.BarDocumented | src/Console/Extended.php:130-159 | `barAction` with a description and two params gives action `bar` with both params in order |
| Scenarios.FooActionsRead | src/Console/Extended.php:130-159 | the methods of FooTask give the one action `bar` |
| Scenarios.FooDescriptionRead | src/Console/Extended.php:116-121 | the class annotations of FooTask give the description `Does foo` |
| Scenarios.FooTaskDocumented | src/Console/Extended.php:108-160 | the FooTask class gives description `Does foo` and the one action `bar` |
| Scenarios.FooDocumentation | src/Console/Extended.php:64-162 | a listing of `.`, `..`, `FooTask.php` yields exactly the entry `foo` |
| Scenarios.BarLinesAsWritten | src/Console/Extended.php:238-256 | on its own, x is echoed as `x ( int )` after the indent with no line break, and y as `y ( string ) the y` followed by a line break |
| Scenarios.BarFirstLineOpen | src/Console/Extended.php:240-252 | the echo for x contains no line break |
| Scenarios.BarParamsAsWritten | src/Console/Extended.php:238-256 | as written, bar's parameters are echoed as `x ( int )` with no line break, then `y ( string ) the y` and a line break |
| Scenarios.BarParams | src/Console/Extended.php:238-256 | corrected, bar's two parameters print two lines of their own |
| Scenarios.BarEntry | src/Console/Extended.php:227-259 | the action bar prints its name, `Bars`, the parameters header and the two parameter echoes as written |
| Scenarios.FooDocWellFormed | src/Console/Extended.php:103-106 | the documentation holding only foo has the single key `foo` and is well formed |
| Scenarios.FooHead | src/Console/Extended.php:216-224 | the echoes before foo's actions: the header, `Does foo` and the actions header |
| Scenarios.FooActions | src/Console/Extended.php:226-260 | foo's actions print bar's entry alone |
| Scenarios.FooTaskView | src/Console/Extended.php:212-261 | the detail view of foo, echo by echo; `x ( int )` and `y ( string ) the y` share one output line |
| Scenarios.FooTaskHelp | src/Console/Extended.php:41-44 | `task=foo action=help` requests help on foo and shows the banner and the detail view |
| Scenarios.EmptyTasksDir | src/Console/Extended.php:66-74 | a directory holding only `.` and `..` leaves the documentation empty; the list view is the banner and list header alone |
| Scenarios.DotEntriesOnly | src/Console/Extended.php:66-74 | a listing of only `.` and `..` entries leaves nothing to scan |

## Left out

- Getting `config` and `dispatcher` from the DI container: these are parameters (`Config`, `Environment`).
- Selecting the annotations adapter (src/Console/Extended.php:80-89): the reader's `get` is a parameter.
- `is_dir`, `scandir` and the reader: they are parameters.
  - A reader that throws for a missing class is not modelled.
  - A `scandir` failure is not modelled.
- `parent::handle`: it is outside this core. `HandleResult.dispatched` records that it is reached.
- An exception leaves `handle` before `parent::handle`. The model returns it as `raised`.
- `handle(null)`: its `TypeError` is not modelled. The arguments are always a map.
- Named annotation arguments (`@param(name="x")`, a keyed arguments array): not modelled.
  - The code reads `$param[0]['name']`, so only a first positional argument that is an array is seen.
  - `Arg` models positional string and array arguments only.
  - Non-string scalar arguments (numbers, booleans, null) are also not modelled.
- Echoing an array argument:
  - It prints `Array` (`Annotations.Text`).
  - The notice PHP raises is not modelled.
- `showTaskHelp` on a documentation that is still null: `Arr::get` would reject it with a `TypeError`.
  - This happens when no task file was found and a detail view is asked for.
  - The model starts the documentation as an empty array, so such a call prints only the headers.
- PHP's conversion of numeric-string keys such as `"123"` into integer keys: not modelled. It does not change order or lookup here.
- `Php.StrToLower`: it maps ASCII letters only. This matches PHP 8.2 and later. Older locale-dependent lower-casing is not modelled.
- Notices from reading a missing `task` key are not modelled.
- Concurrency and I/O timing: the code is sequential, so there is nothing to model there.

## Findings

| source | as written | input that shows it | evidently intended | confidence | as-written member | corrected member |
|---|---|---|---|---|---|---|
| src/Console/Extended.php:250-255 | `PHP_EOL` is appended to a parameter's text only together with its description, so a parameter without a description ends no line | two `@param` annotations, `{name: x, type: int}` then `{name: y, type: string, description: "the y"}`, print `x ( int )` and `y ( string ) the y` on one line | every printed parameter ends its own line | not executed | Render.ParamsRunTogetherAsWritten | Render.ParamLinesOwnLines |

The as-written text is `Render.ParamTextAsWritten`. The views follow the code as written: `Render.ActionParams` uses `Render.ParamLinesAsWritten`, and so do `Console.EchoParams` and everything that calls it. `Render.ParamWithoutDescriptionEndsNoLine` shows that a parameter without a description ends no line. `Scenarios.BarParamsAsWritten` and `Scenarios.FooTaskView` show `x ( int )` and `y ( string ) the y` on one output line.

The corrected `Render.ParamLine` gives every printed text its own `PHP_EOL`. `Render.ParamLinesOwnLines`, `Render.ParamsOnSeparateLines` and `Scenarios.BarParams` show the intended result. `Render.ParamLinesMatchAsWritten` shows that the two versions print the same number of echoes and differ only by line breaks. `Render.ParamsWithDescriptionsUnaffected` shows that they agree when every parameter has a description.
