/**
  Properties of whole command lines: what `Execute` does for each command
  as the user types it, tokenising included, and what every command keeps
  unchanged.
 */
module TaskListFacts {
  import opened Wrappers
  import opened Text
  import opened Longs
  import opened Ids
  import opened Tasks
  import opened Projects
  import opened Views
  import opened Sorting
  import opened TaskList

  // ---------------------------------------------------------------------------
  // Dispatch and crashes
  // ---------------------------------------------------------------------------

  /** A line that parses runs its command. */
  lemma ExecuteParsed(s: State, line: string, env: Env, c: Command)
    requires Parse(line) == Some(c)
    ensures Execute(s, line, env) == Continue(Apply(s, c, env).state, Apply(s, c, env).output)
  {
  }

  /** `show` is not one of the dispatched words, so it is reported as unknown. */
  lemma ExecuteShowIsUnknown(s: State, env: Env)
    ensures Execute(s, "show", env) == Continue(s, [UnknownCommand("show")])
  {
    ParseOneWord("show");
    ExecuteParsed(s, "show", env, UnknownCmd("show"));
  }

  /** A line without a space is its own command word. */
  lemma ParseOneWord(w: string)
    requires ' ' !in w
    ensures SplitFirst(w) == [w]
  {
  }

  /** Any other first word is reported as unknown and changes nothing. */
  lemma ExecuteUnknownCommand(s: State, line: string, env: Env)
    requires var w := SplitFirst(line)[0];
      w != "add" && w != "check" && w != "uncheck" && w != "deadline" && w != "delete"
      && w != "view" && w != "help" && w != "today"
    ensures Execute(s, line, env) == Continue(s, [UnknownCommand(SplitFirst(line)[0])])
  {
    ExecuteParsed(s, line, env, UnknownCmd(SplitFirst(line)[0]));
  }

  /** A command that reads an argument but is given none ends the session. */
  lemma ExecuteMissingArgumentCrashes(s: State, w: string, env: Env)
    requires TakesArgument(w)
    ensures Execute(s, w, env) == Crash
  {
    assert ' ' !in w;
    ParseOneWord(w);
  }

  /** Only the commands that read an argument can end the session, and whether they do depends on the line alone. */
  lemma ExecuteCrashOnlyOnArgument(s: State, t: State, line: string, env: Env, env': Env)
    ensures Execute(s, line, env).Crash? ==> TakesArgument(SplitFirst(line)[0])
    ensures Execute(s, line, env).Crash? == Execute(t, line, env').Crash?
  {
  }

  /** `add task P` with no text after the project name ends the session. */
  lemma ExecuteAddTaskWithoutTextCrashes(s: State, p: string, env: Env)
    requires ' ' !in p
    ensures Execute(s, "add task " + p, env) == Crash
  {
    assert "add task " + p == "add" + " " + ("task" + " " + p);
    SplitFirstOfJoin("add", "task" + " " + p);
    SplitFirstOfJoin("task", p);
  }

  /** `deadline X` with no date ends the session. */
  lemma ExecuteDeadlineWithoutDateCrashes(s: State, id: string, env: Env)
    requires ' ' !in id
    ensures Execute(s, "deadline " + id, env) == Crash
  {
    assert "deadline " + id == "deadline" + " " + id;
    SplitFirstOfJoin("deadline", id);
  }

  // ---------------------------------------------------------------------------
  // add
  // ---------------------------------------------------------------------------

  /**
    `add project P` (the name is all the text after `project `) makes `P` map
    to an empty list: an existing project keeps its place and loses its
    tasks, a new one goes last. Nothing else changes and nothing is printed.
   */
  lemma ExecuteAddProject(s: State, name: string, env: Env)
    ensures var r := Execute(s, "add project " + name, env);
      && r.Continue? && r.output == [] && r.state.lastId == s.lastId
      && Get(r.state.projects, name) == Some([])
      && (forall n :: n != name ==> Get(r.state.projects, n) == Get(s.projects, n))
      && (name in Names(s.projects) ==> Names(r.state.projects) == Names(s.projects))
      && (name !in Names(s.projects) ==> Names(r.state.projects) == Names(s.projects) + [name])
  {
    ParseAddProject(name);
    ExecuteParsed(s, "add project " + name, env, AddProjectCmd(name));
  }

  /** Cuts `add project P`; the name is all the text after `project `. */
  lemma ParseAddProject(name: string)
    ensures Parse("add project " + name) == Some(AddProjectCmd(name))
  {
    assert "add project " + name == "add" + " " + ("project" + " " + name);
    SplitFirstOfJoin("add", "project" + " " + name);
    SplitFirstOfJoin("project", name);
  }

  /** `add` with a subcommand other than `project` or `task` does nothing and prints nothing. */
  lemma ExecuteAddOther(s: State, sub: string, rest: string, env: Env)
    requires ' ' !in sub && sub != "project" && sub != "task"
    ensures Execute(s, "add " + sub, env) == Continue(s, [])
    ensures Execute(s, "add " + sub + " " + rest, env) == Continue(s, [])
  {
    assert "add " + sub == "add" + " " + sub;
    SplitFirstOfJoin("add", sub);
    assert "add " + sub + " " + rest == "add" + " " + (sub + " " + rest);
    SplitFirstOfJoin("add", sub + " " + rest);
    SplitFirstOfJoin(sub, rest);
  }

  /** Cuts `add task P text` into its parts. */
  lemma ParseAddTask(p: string, text: string)
    requires ' ' !in p
    ensures Parse("add task " + p + " " + text) == Some(AddTaskCmd(p, text))
  {
    assert "add task " + p + " " + text == "add" + " " + ("task" + " " + (p + " " + text));
    ParseAddRest("task" + " " + (p + " " + text));
    SplitFirstOfJoin("task", p + " " + text);
    SplitFirstOfJoin(p, text);
  }

  /** Everything after `add ` goes to the `add` subcommand parser. */
  lemma ParseAddRest(rest: string)
    ensures Parse("add" + " " + rest) == ParseAdd(rest)
  {
    SplitFirstOfJoin("add", rest);
  }

  /** Adding a task to a project that does not exist is reported and changes nothing. */
  lemma ExecuteAddTaskUnknownProject(s: State, p: string, text: string, env: Env)
    requires ' ' !in p && Get(s.projects, p).None?
    ensures Execute(s, "add task " + p + " " + text, env) == Continue(s, [ProjectNotFound(p)])
  {
    ParseAddTask(p, text);
    ExecuteParsed(s, "add task " + p + " " + text, env, AddTaskCmd(p, text));
  }

  /**
    Text without a space is a description: the task gets the next automatic
    id, which is one more than the counter while the counter is below the
    `long` maximum, and the counter moves to it. The task, not done, without
    deadline and created today, goes to the end of the project's list;
    other projects are unchanged and nothing is printed.
   */
  lemma ExecuteAddTaskAutoId(s: State, p: string, text: string, env: Env)
    requires ' ' !in p && ' ' !in text && Get(s.projects, p).Some?
    ensures var r := Execute(s, "add task " + p + " " + text, env);
      var n := NextId(s.lastId);
      && r.Continue? && r.output == []
      && r.state.lastId == n
      && (s.lastId < LONG_MAX ==> n == s.lastId + 1)
      && Get(r.state.projects, p)
         == Some(Get(s.projects, p).value + [NewTask(LongToString(n), text, false, env.today)])
      && (forall q :: q != p ==> Get(r.state.projects, q) == Get(s.projects, q))
      && Names(r.state.projects) == Names(s.projects)
  {
    ParseAddTask(p, text);
    ExecuteParsed(s, "add task " + p + " " + text, env, AddTaskCmd(p, text));
  }

  /**
    Text with a space starts with an explicit id. A valid id adds the task
    with that id and the rest as description, whatever ids already exist,
    and leaves the counter alone; an invalid id is reported and changes
    nothing.
   */
  lemma ExecuteAddTaskExplicitId(s: State, p: string, id: string, desc: string, env: Env)
    requires ' ' !in p && ' ' !in id && Get(s.projects, p).Some?
    ensures var r := Execute(s, "add task " + p + " " + id + " " + desc, env);
      && (IsValidId(id) ==>
          && r.Continue? && r.output == []
          && r.state.lastId == s.lastId
          && Get(r.state.projects, p)
             == Some(Get(s.projects, p).value + [NewTask(id, desc, false, env.today)])
          && (forall q :: q != p ==> Get(r.state.projects, q) == Get(s.projects, q))
          && Names(r.state.projects) == Names(s.projects))
      && (!IsValidId(id) ==> r == Continue(s, [INVALID_ID]))
  {
    assert "add task " + p + " " + id + " " + desc == "add task " + p + " " + (id + " " + desc);
    ParseAddTask(p, id + " " + desc);
    ExecuteParsed(s, "add task " + p + " " + id + " " + desc, env, AddTaskCmd(p, id + " " + desc));
    SplitFirstOfJoin(id, desc);
  }

  // ---------------------------------------------------------------------------
  // check, uncheck
  // ---------------------------------------------------------------------------

  /** Cuts `check X` / `uncheck X`; the id is all the text after the first space. */
  lemma ParseSetDone(word: string, id: string)
    requires word == "check" || word == "uncheck"
    ensures Parse(word + " " + id) == Some(SetDoneCmd(id, word == "check"))
  {
    SplitFirstOfJoin(word, id);
  }

  /**
    `check X` and `uncheck X` set the flag of the first task, in project then
    list order, whose id equals `X` ignoring case, and of no other task; when
    no id matches they report it and change nothing.
   */
  lemma ExecuteSetDone(s: State, word: string, id: string, env: Env)
    requires word == "check" || word == "uncheck"
    ensures var F := Flatten(s.projects); var k := FirstMatch(F, id);
      var r := Execute(s, word + " " + id, env);
      && (k == |F| ==> r == Continue(s, [TaskNotFound(id)]))
      && (k < |F| ==>
          && r.Continue? && r.output == [] && r.state.lastId == s.lastId
          && SameShape(r.state.projects, s.projects)
          && Flatten(r.state.projects) == F[k := SetDone(F[k], word == "check")])
  {
    ParseSetDone(word, id);
    ExecuteParsed(s, word + " " + id, env, SetDoneCmd(id, word == "check"));
  }

  /**
    `uncheck X` after `check X` leaves the same table as `uncheck X` alone;
    so when the first match was not done, the pair restores the table.
   */
  lemma CheckThenUncheck(s: State, id: string, env: Env)
    ensures var s1 := Execute(s, "check " + id, env).state;
      Execute(s1, "uncheck " + id, env).state == Execute(s, "uncheck " + id, env).state
    ensures var F := Flatten(s.projects); var k := FirstMatch(F, id);
      k < |F| && !F[k].done ==>
        Execute(Execute(s, "check " + id, env).state, "uncheck " + id, env) == Continue(s, [])
  {
    assert "check " + id == "check" + " " + id;
    assert "uncheck " + id == "uncheck" + " " + id;
    ParseSetDone("check", id);
    ParseSetDone("uncheck", id);
    ExecuteParsed(s, "check " + id, env, SetDoneCmd(id, true));
    ExecuteParsed(s, "uncheck " + id, env, SetDoneCmd(id, false));
    var s1 := SetDoneCommand(s, id, true).state;
    ExecuteParsed(s1, "uncheck " + id, env, SetDoneCmd(id, false));
    SetDoneCommandTwice(s, id);
  }

  /** The table-level half of `CheckThenUncheck`. */
  lemma SetDoneCommandTwice(s: State, id: string)
    ensures SetDoneCommand(SetDoneCommand(s, id, true).state, id, false).state == SetDoneCommand(s, id, false).state
    ensures var F := Flatten(s.projects); var k := FirstMatch(F, id);
      k < |F| && !F[k].done ==> SetDoneCommand(SetDoneCommand(s, id, true).state, id, false) == Effect(s, [])
  {
    var F := Flatten(s.projects);
    var k := FirstMatch(F, id);
    if k < |F| {
      SetDoneFirstTwice(s.projects, id, true, false);
      if !F[k].done {
        var q := SetDoneFirst(s.projects, id, false).value;
        assert F[k := SetDone(F[k], false)] == F;
        ShapeAndFlattenDetermine(q, s.projects);
      }
    }
  }

  // ---------------------------------------------------------------------------
  // deadline
  // ---------------------------------------------------------------------------

  /**
    `deadline X D`: a date that does not parse is reported and changes
    nothing. Otherwise, silently, the first task matching `X` in each
    project gets deadline `D`.
   */
  lemma ExecuteDeadline(s: State, id: string, date: string, env: Env)
    requires ' ' !in id && ' ' !in date && date != ""
    ensures var r := Execute(s, "deadline " + id + " " + date, env);
      && (env.parseDate(date).None? ==> r == Continue(s, [INVALID_DATE]))
      && (env.parseDate(date).Some? ==>
          r == Continue(s.(projects := SetDeadlineEach(s.projects, id, env.parseDate(date).value)), []))
  {
    ParseDeadline(id, date);
    ExecuteParsed(s, "deadline " + id + " " + date, env, DeadlineCmd(id, date));
  }

  /** A deadline for an id that no task has is silently ignored. */
  lemma ExecuteDeadlineUnknownId(s: State, id: string, date: string, env: Env)
    requires ' ' !in id && ' ' !in date && date != ""
    requires forall t :: t in Flatten(s.projects) ==> !Matches(t, id)
    ensures var r := Execute(s, "deadline " + id + " " + date, env);
      r.Continue? && r.state == s
  {
    ExecuteDeadline(s, id, date, env);
    if env.parseDate(date).Some? {
      SetDeadlineEachNoMatch(s.projects, id, env.parseDate(date).value);
    }
  }

  lemma ParseDeadline(id: string, date: string)
    requires ' ' !in id && ' ' !in date && date != ""
    ensures Parse("deadline " + id + " " + date) == Some(DeadlineCmd(id, date))
  {
    assert "deadline " + id + " " + date == "deadline" + " " + (id + " " + date);
    SplitFirstOfJoin("deadline", id + " " + date);
    SplitTokensOfPair(id, date);
  }

  // ---------------------------------------------------------------------------
  // delete
  // ---------------------------------------------------------------------------

  /**
    `delete X` silently removes every task in every project whose id equals
    `X` ignoring case; the projects and the order of the remaining tasks
    stay.
   */
  lemma ExecuteDelete(s: State, id: string, env: Env)
    ensures var r := Execute(s, "delete " + id, env);
      && r.Continue? && r.output == [] && r.state.lastId == s.lastId
      && Names(r.state.projects) == Names(s.projects)
      && Flatten(r.state.projects) == RemoveMatching(Flatten(s.projects), id)
      && (forall t :: t in Flatten(r.state.projects) <==> t in Flatten(s.projects) && !Matches(t, id))
  {
    ParseDelete(id);
    ExecuteParsed(s, "delete " + id, env, DeleteCmd(id));
  }

  /** Deleting the same id twice is the same as deleting it once. */
  lemma ExecuteDeleteIdempotent(s: State, id: string, env: Env)
    ensures var r := Execute(s, "delete " + id, env);
      r.Continue? && Execute(r.state, "delete " + id, env) == r
  {
    ParseDelete(id);
    ExecuteParsed(s, "delete " + id, env, DeleteCmd(id));
    ExecuteParsed(Delete(s, id).state, "delete " + id, env, DeleteCmd(id));
    DeleteEachIdempotent(s.projects, id);
    assert Delete(Delete(s, id).state, id) == Delete(s, id);
  }

  lemma ParseDelete(id: string)
    ensures Parse("delete " + id) == Some(DeleteCmd(id))
  {
    assert "delete " + id == "delete" + " " + id;
    SplitFirstOfJoin("delete", id);
  }

  // ---------------------------------------------------------------------------
  // view, today, help
  // ---------------------------------------------------------------------------

  /** `view <rest>`: the whole text after `view ` goes to the view command, which changes nothing. */
  lemma ExecuteView(s: State, rest: string, env: Env)
    ensures Execute(s, "view " + rest, env) == Continue(s, View(s, rest).output)
  {
    ParseView(rest);
    ExecuteParsed(s, "view " + rest, env, ViewCmd(rest));
  }

  lemma ParseView(rest: string)
    ensures Parse("view " + rest) == Some(ViewCmd(rest))
  {
    assert "view " + rest == "view" + " " + rest;
    SplitFirstOfJoin("view", rest);
  }

  /** `view` reads the second word after it; with only one word (`view date`) it reports bad syntax. */
  lemma ViewOneWord(s: State, w: string)
    requires ' ' !in w
    ensures View(s, w) == Effect(s, [MISSING_VIEW])
  {
  }

  /**
    `view W K` with `K` one of `date`, `deadline`, `project` prints the
    matching listing, and any other `K` a syntax message.
   */
  lemma ViewTwoWords(s: State, w: string, k: string)
    requires ' ' !in w && ' ' !in k && k != ""
    ensures var e := View(s, w + " " + k);
      && (k == "date" ==> e.output == FormatAll(ByCreatedOn(Flatten(s.projects))) + [""])
      && (k == "deadline" ==> e.output == FormatAll(ByDeadline(Flatten(s.projects))) + [""])
      && (k == "project" ==> e.output == Show(s.projects))
      && (k != "date" && k != "deadline" && k != "project" ==> e.output == [UNKNOWN_VIEW])
  {
    SplitTokensOfPair(w, k);
  }

  /** `today` lists the tasks due today and changes nothing. */
  lemma ExecuteToday(s: State, env: Env)
    ensures Execute(s, "today", env) == Continue(s, Today(s.projects, env.today))
  {
    ParseOneWord("today");
    ExecuteParsed(s, "today", env, TodayCmd);
    ApplyToday(s, env);
  }

  /** Words after `today` are ignored. */
  lemma ExecuteTodayWithWords(s: State, rest: string, env: Env)
    ensures Execute(s, "today " + rest, env) == Continue(s, Today(s.projects, env.today))
  {
    ParseTodayWithWords(rest);
    ExecuteParsed(s, "today " + rest, env, TodayCmd);
    ApplyToday(s, env);
  }

  lemma ApplyToday(s: State, env: Env)
    ensures Apply(s, TodayCmd, env) == Effect(s, Today(s.projects, env.today))
  {
  }

  lemma ParseTodayWithWords(rest: string)
    ensures Parse("today " + rest) == Some(TodayCmd)
  {
    assert "today " + rest == "today" + " " + rest;
    SplitFirstOfJoin("today", rest);
  }

  /** `help` prints the fixed command summary and changes nothing. */
  lemma ExecuteHelp(s: State, env: Env)
    ensures Execute(s, "help", env) == Continue(s, HELP)
  {
    ParseOneWord("help");
    ExecuteParsed(s, "help", env, HelpCmd);
  }
}
