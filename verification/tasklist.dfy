/**
  The command interpreter. One call of `Execute` is one call of the Java
  `execute(commandLine)`: it cuts the line into words, dispatches on the
  first one, updates the project table and the id counter, and produces the
  lines written to the output. The missing-argument cases, where the Java
  code indexes past the end of a `split` result and the exception escapes
  the read loop, end in `Crash`.
 */
module TaskList {
  import opened Wrappers
  import opened Text
  import opened Longs
  import opened Ids
  import opened Tasks
  import opened Projects
  import opened Views

  /** The interpreter's state: the project table and the last automatic id handed out. */
  datatype State = State(projects: seq<Project>, lastId: Long)

  /** A new interpreter: no projects, and the counter at zero. */
  const Initial: State := State([], 0)

  /** What every reachable state satisfies: the project names are unique, as map keys are. */
  predicate Valid(s: State) {
    UniqueNames(s.projects)
  }

  /**
    What the Java code gets from the platform: the current day
    (`LocalDate.now()`), and the parser of the `d/M/yyy` date pattern, which
    either yields a day or fails (`DateTimeParseException`).
   */
  datatype Env = Env(today: Date, parseDate: string -> Option<Date>)

  /** The new state and the lines printed by one command that ran to completion. */
  datatype Effect = Effect(state: State, output: seq<string>)

  /** The result of one line: the command completed, or an exception escaped and the session ends. */
  datatype Outcome = Continue(state: State, output: seq<string>) | Crash

  // ---------------------------------------------------------------------------
  // Messages
  // ---------------------------------------------------------------------------

  function ProjectNotFound(name: string): string {
    "Could not find a project with the name \"" + name + "\"."
  }

  function TaskNotFound(id: string): string {
    "Could not find a task with an ID of " + id + "."
  }

  function UnknownCommand(command: string): string {
    "I don't know what the command \"" + command + "\" is."
  }

  const INVALID_ID: string := "Please Enter a Valid ID"
  const INVALID_DATE: string := "Please enter a Valid Date"
  /** Printed by `view` when the second word is not one it knows. */
  const UNKNOWN_VIEW: string := "Please enter the correct Syntax"
  /** Printed by `view` when there is no second word (the out-of-bounds exception is caught). */
  const MISSING_VIEW: string := "Please Enter the Correct Syntax"

  const HELP: seq<string> := [
    "Commands:",
    "  show",
    "  add project <project name>",
    "  add task <project name> <task description>",
    "  check <task ID>",
    "  uncheck <task ID>",
    ""
  ]

  // ---------------------------------------------------------------------------
  // Tokenising and dispatch
  // ---------------------------------------------------------------------------

  /** A command line after tokenising, with the arguments each command reads. */
  datatype Command =
    | AddProjectCmd(name: string)
    | AddTaskCmd(project: string, inputs: string)
    | AddOtherCmd
    | SetDoneCmd(id: string, done: bool)
    | HelpCmd
    | DeadlineCmd(id: string, date: string)
    | TodayCmd
    | DeleteCmd(id: string)
    | ViewCmd(input: string)
    | UnknownCmd(command: string)

  /** The words of `execute` that read an argument after the first space. */
  predicate TakesArgument(word: string) {
    word == "add" || word == "check" || word == "uncheck" || word == "deadline"
    || word == "delete" || word == "view"
  }

  /** The words `execute` dispatches on; anything else is an unknown command. */
  predicate IsCommandWord(word: string) {
    TakesArgument(word) || word == "help" || word == "today"
  }

  /**
    `add(rest)`: the subcommand is the first word; `project` takes the rest
    as the name, `task` cuts the rest once more into project and inputs. Any
    other subcommand does nothing. `None` where an index is out of bounds.
   */
  function ParseAdd(rest: string): (r: Option<Command>)
    ensures r == Some(AddOtherCmd) <==> SplitFirst(rest)[0] != "project" && SplitFirst(rest)[0] != "task"
    ensures r.Some? ==> r.value.AddProjectCmd? || r.value.AddTaskCmd? || r.value.AddOtherCmd?
  {
    var sub := SplitFirst(rest);
    if sub[0] == "project" then
      if |sub| < 2 then None else Some(AddProjectCmd(sub[1]))
    else if sub[0] == "task" then
      if |sub| < 2 then None
      else
        var projectTask := SplitFirst(sub[1]);
        if |projectTask| < 2 then None else Some(AddTaskCmd(projectTask[0], projectTask[1]))
    else Some(AddOtherCmd)
  }

  /** `add project` takes the whole text after `project `; `add task` cuts a space-free project name off the text after `task `. */
  lemma ParseAddText(rest: string)
    ensures var r := ParseAdd(rest);
      && (r.Some? && r.value.AddProjectCmd? ==> rest == "project " + r.value.name)
      && (r.Some? && r.value.AddTaskCmd? ==>
            ' ' !in r.value.project && rest == "task " + r.value.project + " " + r.value.inputs)
  {
    var sub := SplitFirst(rest);
    if |sub| == 2 {
      if sub[0] == "project" {
        assert "project" + " " + sub[1] == "project " + sub[1];
      } else if sub[0] == "task" {
        var pt := SplitFirst(sub[1]);
        if |pt| == 2 {
          assert "task" + " " + (pt[0] + " " + pt[1]) == "task " + pt[0] + " " + pt[1];
        }
      }
    }
  }

  /**
    The dispatch of `execute`: the first word picks the command and the text
    after the first space is its argument. `None` stands for the uncaught
    out-of-bounds exception of a missing argument.
   */
  function Parse(line: string): (r: Option<Command>)
    ensures var w := SplitFirst(line)[0];
      && (r == Some(UnknownCmd(w)) <==> !IsCommandWord(w))
      && (r == Some(HelpCmd) <==> w == "help")
      && (r == Some(TodayCmd) <==> w == "today")
      && (r.None? ==> TakesArgument(w))
      && (' ' !in line && TakesArgument(w) ==> r.None?)
  {
    var commandRest := SplitFirst(line);
    var command := commandRest[0];
    if !IsCommandWord(command) then Some(UnknownCmd(command))
    else if command == "help" then Some(HelpCmd)
    else if command == "today" then Some(TodayCmd)
    else if |commandRest| < 2 then None
    else
      var rest := commandRest[1];
      if command == "add" then ParseAdd(rest)
      else if command == "check" then Some(SetDoneCmd(rest, true))
      else if command == "uncheck" then Some(SetDoneCmd(rest, false))
      else if command == "deadline" then
        var inputs := SplitTokens(rest);
        if |inputs| < 2 then None else Some(DeadlineCmd(inputs[0], inputs[1]))
      else if command == "delete" then Some(DeleteCmd(rest))
      else Some(ViewCmd(rest))
  }

  /** `check`, `uncheck`, `delete` and `view` take the whole text after the first space as their argument. */
  lemma ParseArgument(line: string)
    ensures var r := Parse(line);
      && (r.Some? && r.value.SetDoneCmd? ==> line == (if r.value.done then "check " else "uncheck ") + r.value.id)
      && (r.Some? && r.value.DeleteCmd? ==> line == "delete " + r.value.id)
      && (r.Some? && r.value.ViewCmd? ==> line == "view " + r.value.input)
  {
    var commandRest := SplitFirst(line);
    if |commandRest| == 2 {
      assert commandRest[0] + " " + commandRest[1] == line;
    }
  }

  // ---------------------------------------------------------------------------
  // The commands
  // ---------------------------------------------------------------------------

  /** `nextId()`: the counter after `++lastId` on a `long`. */
  function NextId(lastId: Long): (r: Long)
    ensures lastId < LONG_MAX ==> r == lastId + 1
  {
    IncrementBelowMax(lastId);
    Increment(lastId)
  }

  /** `addProject(name)`: `name` now maps to an empty task list; nothing else changes. */
  function AddProject(s: State, name: string): (e: Effect)
    ensures e.output == [] && e.state.lastId == s.lastId
    ensures Get(e.state.projects, name) == Some([])
    ensures forall n :: n != name ==> Get(e.state.projects, n) == Get(s.projects, n)
  {
    Effect(s.(projects := Put(s.projects, name, [])), [])
  }

  /**
    `addTask(project, inputs)`: inputs without a space are the description
    of a task with the next automatic id; otherwise the first word is an
    explicit id, checked by `isValidId`, and the rest the description. The
    new task is not done, has no deadline, was created today, and goes to the
    end of the project's list.
   */
  function AddTask(s: State, project: string, inputs: string, today: Date): (e: Effect)
    ensures Valid(s) ==> Valid(e.state)
    ensures Names(e.state.projects) == Names(s.projects)
    ensures e.state.lastId == s.lastId || e.state.lastId == NextId(s.lastId)
  {
    match Get(s.projects, project)
    case None => Effect(s, [ProjectNotFound(project)])
    case Some(ts) =>
      assert project in Names(s.projects);
      var values := SplitFirst(inputs);
      if |values| == 1 then
        var n := NextId(s.lastId);
        var t := NewTask(LongToString(n), inputs, false, today);
        Effect(State(Put(s.projects, project, ts + [t]), n), [])
      else if IsValidId(values[0]) then
        var t := NewTask(values[0], values[1], false, today);
        Effect(s.(projects := Put(s.projects, project, ts + [t])), [])
      else
        Effect(s, [INVALID_ID])
  }

  /** `check`/`uncheck` through `setDone(id, done)`. */
  function SetDoneCommand(s: State, id: string, done: bool): (e: Effect)
    ensures e.state.lastId == s.lastId
    ensures SameShape(e.state.projects, s.projects)
    ensures FirstMatch(Flatten(s.projects), id) == |Flatten(s.projects)| <==> e.output == [TaskNotFound(id)]
    ensures e.output != [] ==> e.state == s
  {
    match SetDoneFirst(s.projects, id, done)
    case None => Effect(s, [TaskNotFound(id)])
    case Some(ps) => Effect(s.(projects := ps), [])
  }

  /** `addDeadline`: an unparsable date is reported and changes nothing; otherwise a silent update. */
  function AddDeadline(s: State, id: string, date: string, env: Env): (e: Effect)
    ensures e.state.lastId == s.lastId
    ensures Names(e.state.projects) == Names(s.projects)
    ensures env.parseDate(date).None? <==> e.output == [INVALID_DATE]
    ensures env.parseDate(date).None? ==> e.state == s
  {
    match env.parseDate(date)
    case None => Effect(s, [INVALID_DATE])
    case Some(d) => Effect(s.(projects := SetDeadlineEach(s.projects, id, d)), [])
  }

  /** `delete(id)`: silent. */
  function Delete(s: State, id: string): (e: Effect)
    ensures e.output == [] && e.state.lastId == s.lastId
    ensures Names(e.state.projects) == Names(s.projects)
    ensures Flatten(e.state.projects) == RemoveMatching(Flatten(s.projects), id)
  {
    DeleteEachFlatten(s.projects, id);
    Effect(s.(projects := DeleteEach(s.projects, id)), [])
  }

  /**
    `view(input)`: the second word of `input.split(" ")` picks the listing.
    With fewer than two words the out-of-bounds exception is caught and
    reported.
   */
  function View(s: State, input: string): (e: Effect)
    ensures e.state == s
  {
    var words := SplitTokens(input);
    if |words| < 2 then Effect(s, [MISSING_VIEW])
    else if words[1] == "date" then Effect(s, ViewByDate(s.projects))
    else if words[1] == "deadline" then Effect(s, ViewByDeadline(s.projects))
    else if words[1] == "project" then Effect(s, Show(s.projects))
    else Effect(s, [UNKNOWN_VIEW])
  }

  /** Runs one parsed command. */
  function Apply(s: State, c: Command, env: Env): Effect {
    match c
    case AddProjectCmd(name) => AddProject(s, name)
    case AddTaskCmd(project, inputs) => AddTask(s, project, inputs, env.today)
    case AddOtherCmd => Effect(s, [])
    case SetDoneCmd(id, done) => SetDoneCommand(s, id, done)
    case HelpCmd => Effect(s, HELP)
    case DeadlineCmd(id, date) => AddDeadline(s, id, date, env)
    case TodayCmd => Effect(s, Today(s.projects, env.today))
    case DeleteCmd(id) => Delete(s, id)
    case ViewCmd(input) => View(s, input)
    case UnknownCmd(command) => Effect(s, [UnknownCommand(command)])
  }

  /** `execute(line)`. */
  function Execute(s: State, line: string, env: Env): (r: Outcome)
    ensures r.Crash? ==> TakesArgument(SplitFirst(line)[0])
    ensures ' ' !in line && TakesArgument(SplitFirst(line)[0]) ==> r.Crash?
  {
    match Parse(line)
    case None => Crash
    case Some(c) =>
      var e := Apply(s, c, env);
      Continue(e.state, e.output)
  }
}
