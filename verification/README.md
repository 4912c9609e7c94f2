# Task list interpreter, modelled in Dafny

A model of the command interpreter of the Task List kata (Java): a table of
named projects, each holding a list of tasks, driven by one text command per
line. A task has an id, a description, a completion flag, a creation date and
an optional deadline. The commands add projects and tasks, check and uncheck
tasks, set deadlines, delete tasks, and print the table per project, by
creation date, by deadline, or only the tasks due today.

The model is pure. One call of `TaskList.Execute(s, line, env)` is one call
of the Java `execute(commandLine)`. It takes the state `s` (the project table
and the `long` id counter), the line, and an environment `env` (the current
day and the `d/M/yyy` date parser). It returns either
`Continue(newState, printedLines)` or `Crash`. `Crash` stands for the
`ArrayIndexOutOfBoundsException` that escapes when a command that reads an
argument is given none. `TaskListInvariants.Run` strings lines together into
a session, and a crash ends the session.

Modules, following the program's structure:

- `Wrappers`: `Option`.
- `Text`: `split(" ", 2)` (`SplitFirst`), `split(" ")` (`SplitTokens`), and `equalsIgnoreCase`.
- `Longs`: the Java `long` counter, with 64-bit wrap-around, and `String.valueOf(long)`.
- `Ids`: `isValidId`.
- `Tasks`: the `Task` record, its constructors and its setters.
- `Projects`: the `LinkedHashMap` of projects, and the table updates of `setDone`, `addDeadline` and `delete`.
- `Sorting`: the stable sort that `stream().sorted(...)` performs.
- `Views`: the `show`, `today`, `viewByDate` and `viewByDeadline` listings.
- `TaskList`: tokenising, dispatch, and the commands.
- `TaskListFacts`: what each command line does, tokenising included.
- `TaskListInvariants`: what every command and every session keeps.
- `TaskListExamples`: small exact scenarios.

In the following places the code does something other than what a reader
might expect. The model follows the code in each:

- `delete <id>` removes every task whose id matches, in every project (`removeIf`), not just the first.
- `today` prints the due tasks of each project followed by a blank line, without the project names that `show` prints.
- `show` is not one of the words `execute` dispatches on, although the help text lists it as a command (TaskList.java:195-203). Typing `show` reports an unknown command. The listing is reached through `view`.
- `view` reads the second word of its argument (`input.split(" ")[1]`). `view by date` prints the date view, and `view date` reports the missing-word syntax message.
- A missing argument (`add`, `add task P`, `check`, `deadline X`, …) is not reported. The exception ends the session (`Crash`).

## Model

| member | source | states |
|---|---|---|
| `Tasks.NewTask` | java/src/main/java/com/codurance/training/tasks/Task.java:22-27 | the three-argument constructor keeps the given id, description and flag, sets the creation date to today, and leaves the deadline absent |
| `Tasks.NewTaskWithDeadline` | java/src/main/java/com/codurance/training/tasks/Task.java:14-20 | the four-argument constructor also keeps the given deadline; the creation date is today |
| `Tasks.SetDone` | java/src/main/java/com/codurance/training/tasks/Task.java:53-55 | the flag becomes the given value; id, description, creation date and deadline are unchanged |
| `Tasks.SetDeadline` | java/src/main/java/com/codurance/training/tasks/Task.java:37-39 | the deadline becomes the given value; id, description, creation date and flag are unchanged |
| `Tasks.SettersCommute` | java/src/main/java/com/codurance/training/tasks/Task.java:37-55 | the two setters touch disjoint fields, so their order does not matter |
| `Tasks.SetDoneOverrides` | java/src/main/java/com/codurance/training/tasks/Task.java:53-55 | a later `setDone` overrides an earlier one, and setting the old value back restores the task |
| `Text.SplitFirst` | java/src/main/java/com/codurance/training/tasks/TaskList.java:52 | `split(" ", 2)`: one piece exactly when there is no space (the whole string); otherwise a space-free first word and the rest, which rejoined with one space give the input |
| `Text.SplitFirstOfJoin` | java/src/main/java/com/codurance/training/tasks/TaskList.java:116 | cutting `word + " " + rest` at its first space gives back `word` and `rest`, whatever `rest` holds |
| `Text.SplitTokens` | java/src/main/java/com/codurance/training/tasks/TaskList.java:157 | `split(" ")`: no piece contains a space; a string without a space is its own single piece; otherwise the pieces between single spaces with the trailing empty ones dropped |
| `Text.SplitTokensOfPair` | java/src/main/java/com/codurance/training/tasks/TaskList.java:79 | two words joined by one space, the second non-empty, split back into exactly those two words |
| `Text.DropTrailingEmpty` | java/src/main/java/com/codurance/training/tasks/TaskList.java:157 | the result is a prefix of the input, everything cut off is empty, and the result does not end with an empty string |
| `Text.EqualsIgnoreCaseIsFold` | java/src/main/java/com/codurance/training/tasks/TaskList.java:185 | two ids are equal ignoring case exactly when their lower-case forms are equal |
| `Text.EqualsIgnoreCaseEquivalence` | java/src/main/java/com/codurance/training/tasks/TaskList.java:168 | matching ids ignoring case is reflexive, symmetric and transitive |
| `Ids.IsValidId` | java/src/main/java/com/codurance/training/tasks/TaskList.java:150-154 | an id is valid exactly when every character is an ASCII letter or digit (the empty id is valid) |
| `Longs.Increment` | java/src/main/java/com/codurance/training/tasks/TaskList.java:210-212 | `++` on a `long` is the successor modulo 2^64, kept in the `long` range |
| `Longs.IncrementBelowMax` | java/src/main/java/com/codurance/training/tasks/TaskList.java:210-212 | below the maximum the counter grows by one; at the maximum it wraps to the minimum |
| `Longs.LongToString` | java/src/main/java/com/codurance/training/tasks/TaskList.java:139 | `String.valueOf(long)`: at least one character; a non-negative value is digits without a leading zero (or `0` itself), a negative one is a minus sign and digits without a leading zero |
| `Longs.NatToStringRoundTrip` | java/src/main/java/com/codurance/training/tasks/TaskList.java:139 | reading back the decimal digits of a non-negative number gives the number |
| `Longs.LongToStringRoundTrip` | java/src/main/java/com/codurance/training/tasks/TaskList.java:139 | `String.valueOf(long)` is digits, or a minus sign and digits, and reading it back gives the number |
| `Longs.LongToStringInjective` | java/src/main/java/com/codurance/training/tasks/TaskList.java:139 | different counter values give different automatic ids |
| `TaskList.NextId` | java/src/main/java/com/codurance/training/tasks/TaskList.java:210-212 | below the `long` maximum the next id is one more than the last |
| `Projects.Names` | java/src/main/java/com/codurance/training/tasks/TaskList.java:17 | the keys of the map in iteration order, one per project |
| `Projects.IndexOf` | java/src/main/java/com/codurance/training/tasks/TaskList.java:131 | the position of the first project with the name, or the table size when there is none |
| `Projects.GetFinds` | java/src/main/java/com/codurance/training/tasks/TaskList.java:131-132 | `Map.get` finds a list exactly for the keys of the table, the list of a project of that name |
| `Projects.GetUnique` | java/src/main/java/com/codurance/training/tasks/TaskList.java:131 | with unique keys, `get` returns the list of the one project of that name |
| `Projects.Put` | java/src/main/java/com/codurance/training/tasks/TaskList.java:126-128 | `LinkedHashMap.put`: the key now maps to the list, other keys are unchanged, an existing key keeps its place, a new key goes last, and unique keys stay unique |
| `Projects.FirstMatch` | java/src/main/java/com/codurance/training/tasks/TaskList.java:183-189 | the position of the first task whose id matches ignoring case, or the length when none does; no earlier task matches |
| `Projects.FirstMatchUnique` | java/src/main/java/com/codurance/training/tasks/TaskList.java:183-189 | any position with the properties of the first match is the first match |
| `Projects.FirstMatchAppend` | java/src/main/java/com/codurance/training/tasks/TaskList.java:183-189 | the first match in two lists in a row is in the first list when it has one, otherwise in the second, shifted |
| `Projects.UpdateFirst` | java/src/main/java/com/codurance/training/tasks/TaskList.java:168-169 | only the first matching task is replaced, by its image; with no match the list is unchanged |
| `Projects.SetDoneFirst` | java/src/main/java/com/codurance/training/tasks/TaskList.java:182-193 | with no match anywhere the result is absent; otherwise only the first matching task in project and list order has its flag set, and names and list sizes stay |
| `Projects.SetDoneFirstTwice` | java/src/main/java/com/codurance/training/tasks/TaskList.java:182-193 | setting the flag of the first match twice equals setting it once to the second value |
| `Projects.SetDeadlineFirst` | java/src/main/java/com/codurance/training/tasks/TaskList.java:168-169 | within one project only the first matching task gets the deadline |
| `Projects.SetDeadlineEach` | java/src/main/java/com/codurance/training/tasks/TaskList.java:167-170 | every project keeps its name and place, and each gets its own first match updated |
| `Projects.SetDeadlineEachNoMatch` | java/src/main/java/com/codurance/training/tasks/TaskList.java:167-170 | with no matching task anywhere the table is unchanged |
| `Projects.RemoveMatching` | java/src/main/java/com/codurance/training/tasks/TaskList.java:216 | `removeIf`: a task remains exactly when it was there and does not match |
| `Projects.RemoveMatchingCounts` | java/src/main/java/com/codurance/training/tasks/TaskList.java:216 | every non-matching task is kept as many times as it occurred |
| `Projects.RemoveMatchingAppend` | java/src/main/java/com/codurance/training/tasks/TaskList.java:216 | removal works element by element, keeping the order of what remains |
| `Projects.RemoveMatchingNone` | java/src/main/java/com/codurance/training/tasks/TaskList.java:216 | a list without matches is left as it is |
| `Projects.DeleteEach` | java/src/main/java/com/codurance/training/tasks/TaskList.java:214-218 | every project keeps its name and place and loses exactly its matching tasks |
| `Projects.DeleteEachFlatten` | java/src/main/java/com/codurance/training/tasks/TaskList.java:214-218 | across the table, delete removes the matching tasks from the tasks in iteration order |
| `Projects.DeleteEachIdempotent` | java/src/main/java/com/codurance/training/tasks/TaskList.java:214-218 | deleting an id twice equals deleting it once |
| `Projects.FlattenPut` | java/src/main/java/com/codurance/training/tasks/TaskList.java:127 | after `put` every task was in the table before or is in the stored list |
| `Projects.GetInFlatten` | java/src/main/java/com/codurance/training/tasks/TaskList.java:131 | the list `get` returns is part of the table |
| `Sorting.SortBy` | java/src/main/java/com/codurance/training/tasks/TaskList.java:96 | the result is a permutation of the input, ordered by key, and elements with equal keys keep their input order |
| `Sorting.StableSortUnique` | java/src/main/java/com/codurance/training/tasks/TaskList.java:108 | two sequences that are both sorted and agree on the elements of every key are equal, so the stable sort's result is determined |
| `Views.FormatAll` | java/src/main/java/com/codurance/training/tasks/TaskList.java:70-72 | one line per task, in order, each `    [x] id: description` with a space for an open task |
| `Views.Show` | java/src/main/java/com/codurance/training/tasks/TaskList.java:67-75 | one line per project name, one per task and one blank line per project |
| `Views.ShowLayout` | java/src/main/java/com/codurance/training/tasks/TaskList.java:67-75 | `show` prints, per project in order, its name, one line per task in list order and a blank line, and nothing else |
| `Views.DueOn` | java/src/main/java/com/codurance/training/tasks/TaskList.java:221-226 | the tasks whose deadline is the given day, and only those; never more than the input |
| `Views.DueOnCounts` | java/src/main/java/com/codurance/training/tasks/TaskList.java:221-226 | each task due that day is kept as many times as it occurs, and no other task is kept |
| `Views.DueOnAppend` | java/src/main/java/com/codurance/training/tasks/TaskList.java:221-226 | filtering works element by element, so the due tasks keep their project and list order |
| `Views.Today` | java/src/main/java/com/codurance/training/tasks/TaskList.java:220-229 | `today` prints one line per project and one per task due that day |
| `Views.TodayBlockAt` | java/src/main/java/com/codurance/training/tasks/TaskList.java:221-228 | the block of project `i` starts after the blocks before it and holds the lines of its due tasks in list order, then a blank line |
| `Views.TodayLayout` | java/src/main/java/com/codurance/training/tasks/TaskList.java:220-229 | `today` is, per project in iteration order, the lines of its tasks due that day in list order followed by a blank line, and nothing else; no project names |
| `Views.TodayContents` | java/src/main/java/com/codurance/training/tasks/TaskList.java:220-229 | `today` prints one blank line per project plus one line per task due today; every line is blank or the line of a task due today, and every such task is printed |
| `Views.TodayLinesAreDue` | java/src/main/java/com/codurance/training/tasks/TaskList.java:222-225 | every line `today` prints is blank or the line of a task due that day |
| `Views.TodayListsAllDue` | java/src/main/java/com/codurance/training/tasks/TaskList.java:222-225 | every task due that day has its line printed by `today` |
| `Views.ByCreatedOn` | java/src/main/java/com/codurance/training/tasks/TaskList.java:91-101 | the tasks rearranged by ascending creation date, a permutation, equal dates in their project and list order |
| `Views.ByDeadline` | java/src/main/java/com/codurance/training/tasks/TaskList.java:103-113 | the tasks rearranged with absent deadlines first then ascending deadlines, a permutation, equal deadlines in their project and list order |
| `Views.ReorderedLines` | java/src/main/java/com/codurance/training/tasks/TaskList.java:97-100 | printing a rearrangement of the tasks gives one line per task, each the line of one of the tasks, every task's line included, then a blank line |
| `Views.ViewByDate` | java/src/main/java/com/codurance/training/tasks/TaskList.java:91-101 | `viewByDate` prints one line per task of the table and a final blank line; every task's line is there and every line is a task's line |
| `Views.ViewByDeadline` | java/src/main/java/com/codurance/training/tasks/TaskList.java:103-113 | `viewByDeadline` prints one line per task of the table and a final blank line; every task's line is there and every line is a task's line |
| `Views.ByDeadlineAbsentFirst` | java/src/main/java/com/codurance/training/tasks/TaskList.java:108 | every task without a deadline comes before every task with one |
| `TaskList.Parse` | java/src/main/java/com/codurance/training/tasks/TaskList.java:52-63 | the first word outside the dispatched ones is an unknown command; `help` and `today` ignore the rest of the line; only a word that reads an argument can lack one, and such a word alone always does |
| `TaskList.ParseArgument` | java/src/main/java/com/codurance/training/tasks/TaskList.java:56-62 | `check`, `uncheck`, `delete` and `view` take all the text after the first space as their argument |
| `TaskList.ParseAdd` | java/src/main/java/com/codurance/training/tasks/TaskList.java:115-123 | a subcommand other than `project` and `task` does nothing, and only those two can lack an argument |
| `TaskList.ParseAddText` | java/src/main/java/com/codurance/training/tasks/TaskList.java:116-122 | `add project` takes all the text after `project `; `add task` cuts a space-free project name off the text after `task ` and keeps the rest whole |
| `TaskList.Execute` | java/src/main/java/com/codurance/training/tasks/TaskList.java:51-65 | a line can crash only when its first word reads an argument, and such a word alone always crashes |
| `TaskList.AddProject` | java/src/main/java/com/codurance/training/tasks/TaskList.java:126-128 | the name maps to an empty list, other projects and the counter are unchanged, nothing is printed |
| `TaskList.AddTask` | java/src/main/java/com/codurance/training/tasks/TaskList.java:130-148 | project names and their uniqueness are kept, and the counter stays or takes the next id |
| `TaskList.SetDoneCommand` | java/src/main/java/com/codurance/training/tasks/TaskList.java:182-193 | the not-found message is printed exactly when no task matches, and then nothing changes; names, list sizes and counter are kept |
| `TaskList.AddDeadline` | java/src/main/java/com/codurance/training/tasks/TaskList.java:156-172 | the invalid-date message is printed exactly when the date does not parse, and then nothing changes; names and counter are kept |
| `TaskList.Delete` | java/src/main/java/com/codurance/training/tasks/TaskList.java:214-218 | silent; names and counter kept; the tasks in iteration order lose exactly the matching ones |
| `TaskList.View` | java/src/main/java/com/codurance/training/tasks/TaskList.java:77-89 | viewing never changes the state |
| `TaskListFacts.ExecuteParsed` | java/src/main/java/com/codurance/training/tasks/TaskList.java:51-65 | a line that tokenises to a command runs that command and continues |
| `TaskListFacts.ExecuteShowIsUnknown` | java/src/main/java/com/codurance/training/tasks/TaskList.java:54-64 | `show` is not dispatched: it is reported as an unknown command and changes nothing |
| `TaskListFacts.ParseOneWord` | java/src/main/java/com/codurance/training/tasks/TaskList.java:52-53 | a line without a space is its own command word |
| `TaskListFacts.ExecuteUnknownCommand` | java/src/main/java/com/codurance/training/tasks/TaskList.java:205-208 | any other first word is reported, quoted, as an unknown command, and nothing changes |
| `TaskListFacts.ExecuteMissingArgumentCrashes` | java/src/main/java/com/codurance/training/tasks/TaskList.java:55-62 | `add`, `check`, `uncheck`, `deadline`, `delete` or `view` alone ends the session |
| `TaskListFacts.ExecuteCrashOnlyOnArgument` | java/src/main/java/com/codurance/training/tasks/TaskList.java:51-65 | only a command that reads an argument can end the session, and whether it does depends on the line alone, not on the state or the day |
| `TaskListFacts.ExecuteAddTaskWithoutTextCrashes` | java/src/main/java/com/codurance/training/tasks/TaskList.java:121-122 | `add task P` without text after the project name ends the session |
| `TaskListFacts.ExecuteDeadlineWithoutDateCrashes` | java/src/main/java/com/codurance/training/tasks/TaskList.java:157-162 | `deadline X` without a date ends the session |
| `TaskListFacts.ExecuteAddProject` | java/src/main/java/com/codurance/training/tasks/TaskList.java:115-128 | `add project P` makes `P` map to an empty list, keeping the place of an existing `P` and appending a new one; nothing else changes, nothing is printed |
| `TaskListFacts.ParseAddProject` | java/src/main/java/com/codurance/training/tasks/TaskList.java:115-119 | the project name is all the text after `add project `, spaces included |
| `TaskListFacts.ExecuteAddOther` | java/src/main/java/com/codurance/training/tasks/TaskList.java:115-124 | `add` with another subcommand does nothing and prints nothing |
| `TaskListFacts.ParseAddTask` | java/src/main/java/com/codurance/training/tasks/TaskList.java:120-122 | `add task P text` gives the project `P` and all the text after it |
| `TaskListFacts.ParseAddRest` | java/src/main/java/com/codurance/training/tasks/TaskList.java:55 | everything after `add ` goes to the subcommand parser |
| `TaskListFacts.ExecuteAddTaskUnknownProject` | java/src/main/java/com/codurance/training/tasks/TaskList.java:130-136 | adding to a missing project prints the not-found message with the name and changes nothing |
| `TaskListFacts.ExecuteAddTaskAutoId` | java/src/main/java/com/codurance/training/tasks/TaskList.java:137-139 | text without a space becomes a new open task with no deadline, created today, with the next automatic id, at the end of the project; the counter takes that id; nothing else changes |
| `TaskListFacts.ExecuteAddTaskExplicitId` | java/src/main/java/com/codurance/training/tasks/TaskList.java:140-147 | with a valid first word the task gets that id and the rest as description, the counter unchanged; with an invalid one the invalid-id message is printed and nothing changes |
| `TaskListFacts.ParseSetDone` | java/src/main/java/com/codurance/training/tasks/TaskList.java:56-57 | the id of `check`/`uncheck` is all the text after the first space |
| `TaskListFacts.ExecuteSetDone` | java/src/main/java/com/codurance/training/tasks/TaskList.java:174-193 | only the first matching task in project then list order gets the flag; with no match the not-found message is printed and nothing changes |
| `TaskListFacts.CheckThenUncheck` | java/src/main/java/com/codurance/training/tasks/TaskList.java:174-180 | `uncheck X` after `check X` leaves what `uncheck X` alone leaves, and restores the table when the first match was open |
| `TaskListFacts.SetDoneCommandTwice` | java/src/main/java/com/codurance/training/tasks/TaskList.java:182-193 | the table-level form of the check-then-uncheck property |
| `TaskListFacts.ExecuteDeadline` | java/src/main/java/com/codurance/training/tasks/TaskList.java:156-172 | an unparsable date prints the invalid-date message and changes nothing; otherwise each project's first matching task gets the deadline, silently |
| `TaskListFacts.ExecuteDeadlineUnknownId` | java/src/main/java/com/codurance/training/tasks/TaskList.java:167-170 | a deadline for an id no task has changes nothing |
| `TaskListFacts.ParseDeadline` | java/src/main/java/com/codurance/training/tasks/TaskList.java:157-162 | `deadline X D` gives the id `X` and the date text `D` |
| `TaskListFacts.ExecuteDelete` | java/src/main/java/com/codurance/training/tasks/TaskList.java:214-218 | `delete X` silently removes every matching task in every project, keeping projects and the order of the rest |
| `TaskListFacts.ExecuteDeleteIdempotent` | java/src/main/java/com/codurance/training/tasks/TaskList.java:214-218 | a second `delete X` changes nothing and prints nothing |
| `TaskListFacts.ParseDelete` | java/src/main/java/com/codurance/training/tasks/TaskList.java:61 | the id of `delete` is all the text after the first space |
| `TaskListFacts.ExecuteView` | java/src/main/java/com/codurance/training/tasks/TaskList.java:62 | `view` passes all the text after it to the view command and never changes the state |
| `TaskListFacts.ParseView` | java/src/main/java/com/codurance/training/tasks/TaskList.java:62 | the argument of `view` is all the text after the first space |
| `TaskListFacts.ViewOneWord` | java/src/main/java/com/codurance/training/tasks/TaskList.java:86-88 | a one-word argument has no second word and prints the syntax message |
| `TaskListFacts.ViewTwoWords` | java/src/main/java/com/codurance/training/tasks/TaskList.java:79-85 | the second word `date`, `deadline` or `project` prints that listing; any other prints the syntax message |
| `TaskListFacts.ExecuteToday` | java/src/main/java/com/codurance/training/tasks/TaskList.java:60 | `today` prints the tasks due today and changes nothing |
| `TaskListFacts.ExecuteTodayWithWords` | java/src/main/java/com/codurance/training/tasks/TaskList.java:60 | words after `today` are ignored |
| `TaskListFacts.ParseTodayWithWords` | java/src/main/java/com/codurance/training/tasks/TaskList.java:53-60 | a line whose first word is `today` is the `today` command |
| `TaskListFacts.ExecuteHelp` | java/src/main/java/com/codurance/training/tasks/TaskList.java:195-203 | `help` prints the fixed command summary and changes nothing |
| `TaskListInvariants.SameNamesKeeps` | java/src/main/java/com/codurance/training/tasks/TaskList.java:17 | a command that keeps the names and the counter keeps unique names |
| `TaskListInvariants.AddProjectKeeps` | java/src/main/java/com/codurance/training/tasks/TaskList.java:126-128 | `addProject` keeps names unique and adds at most one name, at the end |
| `TaskListInvariants.AddTaskKeeps` | java/src/main/java/com/codurance/training/tasks/TaskList.java:130-148 | `addTask` keeps the names and moves the counter by at most one step |
| `TaskListInvariants.SetDoneKeeps` | java/src/main/java/com/codurance/training/tasks/TaskList.java:182-193 | `setDone` keeps the names and the counter |
| `TaskListInvariants.ApplyInvariants` | java/src/main/java/com/codurance/training/tasks/TaskList.java:54-64 | every command keeps names unique, only ever appends one name, and moves the counter by at most one step |
| `TaskListInvariants.ExecutePreservesValid` | java/src/main/java/com/codurance/training/tasks/TaskList.java:17 | after any completed line the project names are still unique |
| `TaskListInvariants.ExecuteKeepsProjects` | java/src/main/java/com/codurance/training/tasks/TaskList.java:51-65 | no line removes or reorders projects; at most one new name is appended |
| `TaskListInvariants.ExecuteCounterStep` | java/src/main/java/com/codurance/training/tasks/TaskList.java:21 | the counter either stays or takes the next `long` value, one more while below the maximum |
| `TaskListInvariants.AddProjectIdentities` | java/src/main/java/com/codurance/training/tasks/TaskList.java:126-128 | `addProject` brings in no task: every task afterwards carries the id, description and creation date of an earlier one |
| `TaskListInvariants.AddTaskIdentities` | java/src/main/java/com/codurance/training/tasks/TaskList.java:130-148 | `addTask` brings in at most the one task built from its text: open, no deadline, created today, with the next automatic id and the whole space-free text, or a valid typed id and the rest of the text |
| `TaskListInvariants.SetDoneIdentities` | java/src/main/java/com/codurance/training/tasks/TaskList.java:182-193 | `setDone` keeps every task's id, description and creation date |
| `TaskListInvariants.DeadlineIdentities` | java/src/main/java/com/codurance/training/tasks/TaskList.java:156-172 | `addDeadline` keeps every task's id, description and creation date |
| `TaskListInvariants.DeadlineFirstIdentities` | java/src/main/java/com/codurance/training/tasks/TaskList.java:168-169 | setting a deadline within one list keeps every task's id, description and creation date |
| `TaskListInvariants.DeadlineEachIdentities` | java/src/main/java/com/codurance/training/tasks/TaskList.java:167-170 | the per-project deadline update keeps every task's id, description and creation date |
| `TaskListInvariants.DeleteIdentities` | java/src/main/java/com/codurance/training/tasks/TaskList.java:214-218 | `delete` leaves only tasks that were there before |
| `TaskListInvariants.ApplyKeepsIdentities` | java/src/main/java/com/codurance/training/tasks/TaskList.java:54-64 | after any command every task was there before, up to flag and deadline; only `add task` may also bring in the one task built from its text |
| `TaskListInvariants.ExecuteKeepsIdentities` | java/src/main/java/com/codurance/training/tasks/Task.java:6-10 | id, description and creation date are final: after any line every task carries those of an earlier task, except the one task an `add task` line builds from its own text |
| `TaskListInvariants.RunPreservesValid` | java/src/main/java/com/codurance/training/tasks/TaskList.java:34-49 | over a whole session the project names stay unique |
| `TaskListInvariants.RunCounterBounds` | java/src/main/java/com/codurance/training/tasks/TaskList.java:210-212 | while the maximum is out of reach the counter never decreases and grows by at most one per line |
| `TaskListInvariants.RunKeepsProjects` | java/src/main/java/com/codurance/training/tasks/TaskList.java:34-49 | over a whole session the projects at the start stay, in order, at the front of the table |
| `TaskListExamples.FirstAutoIdExample` | java/src/main/java/com/codurance/training/tasks/TaskList.java:137-139 | on a fresh counter the first automatic id is `1` |
| `TaskListExamples.ExplicitIdExample` | java/src/main/java/com/codurance/training/tasks/TaskList.java:141-144 | `add task P t1 Buy milk` stores task `t1` and the project's listing shows `    [ ] t1: Buy milk` under `P` |
| `TaskListExamples.OneTaskListing` | java/src/main/java/com/codurance/training/tasks/TaskList.java:67-75 | the listing of one project with one open task |
| `TaskListExamples.DeadlineOrderExample` | java/src/main/java/com/codurance/training/tasks/TaskList.java:108 | tasks A (no deadline), B (later), C (earlier) are listed A, C, B |

## Left out

- `main`, `run` and `quit` (TaskList.java:23-49): the read loop, the prompt and the output stream. A session is modelled by `TaskListInvariants.Run` over a sequence of lines, and output is a sequence of printed lines. `printf` without a newline followed by `println` is one line.
- `LocalDate.now()` and `LocalDate.parse(text, "d/M/yyy")` are not modelled. They are parameters of `Env`: the current day, and a date parser that either gives a day or fails. A day is an integer, so `LocalDate` order is integer order. Within one command the current day is taken as fixed, although `today` asks for it once per task.
- `Text.EqualsIgnoreCaseIsFold`: `equalsIgnoreCase` is modelled with ASCII case mapping only. Stored ids are always ASCII: counter digits, or typed ids that pass `isValidId`. The gap is a typed id with a non-ASCII character that Java folds onto an ASCII letter: dotless `ı` matches `i`, long `ſ` matches `s`, and the Kelvin sign matches `k`. So in Java `check ı` checks task `i` and `delete ſ` deletes task `s`, where the model reports the task as not found or deletes nothing. This applies to `check`, `uncheck`, `deadline` and `delete`.
- `Ids.IsValidId`: the regular expression engine is modelled only for the one-character negated class `[^a-z0-9]` with `CASE_INSENSITIVE`, which is what `isValidId` uses.
- `TaskList.AddTask`: its own contract states only the invariants. What it stores and prints is stated per case on whole command lines, by `TaskListFacts.ExecuteAddTaskAutoId`, `TaskListFacts.ExecuteAddTaskExplicitId` and `TaskListFacts.ExecuteAddTaskUnknownProject`.
- `TaskList.View`: its own contract states only that the state is kept. The listings it prints are stated by `TaskListFacts.ViewOneWord` and `TaskListFacts.ViewTwoWords`.
- The getters of `Task` (Task.java:29-51) have no members of their own. They are the fields of the `Task` datatype, and like the Java class the datatype checks nothing.
- The help text is a fixed list of lines (TaskList.java:195-203), and its content is not interpreted.
- The `Stream`/`Comparator` machinery is modelled by its observable result: a stable sort by key (`Sorting.SortBy`). Its insertion-sort body is not Java's merge sort, but the result is the same, as `Sorting.StableSortUnique` shows.
- Mutable aliasing is not modelled. `Task` objects are shared between the map and the flattened lists. The model is functional, and a setter returns an updated task that replaces the old one in its list.
- `TaskListInvariants.RunCounterBounds`: stated only while the counter cannot reach the `long` maximum. The wrap-around itself is stated for a single step by `Longs.IncrementBelowMax` and `TaskListInvariants.ExecuteCounterStep`.
