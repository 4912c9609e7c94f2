/**
  What every command line keeps: unique project names, projects that are
  never removed or reordered, a counter that moves by at most one, and task
  ids, descriptions and creation dates that never change once a task exists.
  And the same over a whole session of lines.
 */
module TaskListInvariants {
  import opened Wrappers
  import opened Longs
  import opened Tasks
  import opened Projects
  import opened TaskList
  import Text
  import Ids

  /** `a` is `b` followed by at most one more element. */
  predicate ExtendsByAtMostOne(a: seq<string>, b: seq<string>) {
    |b| <= |a| <= |b| + 1 && a[..|b|] == b
  }

  /** The task existed before: some task of `before` has its id, description and creation date. */
  ghost predicate Preexisting(t: Task, before: seq<Task>) {
    exists u :: u in before && SameIdentity(t, u)
  }

  /** What a command keeps: unique names, the existing projects in order, and a counter that moves by at most one. */
  ghost predicate StepKeeps(s: State, e: Effect) {
    && (Valid(s) ==> Valid(e.state))
    && ExtendsByAtMostOne(Names(e.state.projects), Names(s.projects))
    && (e.state.lastId == s.lastId || e.state.lastId == NextId(s.lastId))
  }

  /** A command that keeps the names and the counter keeps everything `StepKeeps` asks for. */
  lemma SameNamesKeeps(s: State, e: Effect)
    requires Names(e.state.projects) == Names(s.projects) && e.state.lastId == s.lastId
    ensures StepKeeps(s, e)
  {
    SameNamesUnique(e.state.projects, s.projects);
  }

  lemma AddProjectKeeps(s: State, name: string)
    ensures StepKeeps(s, AddProject(s, name))
  {
    var N := Names(s.projects);
    var N' := Names(AddProject(s, name).state.projects);
    assert N' == N + [name] ==> N'[..|N|] == N;
  }

  lemma AddTaskKeeps(s: State, project: string, inputs: string, today: Date)
    ensures StepKeeps(s, AddTask(s, project, inputs, today))
  {
    var N := Names(s.projects);
    assert N[..|N|] == N;
  }

  lemma SetDoneKeeps(s: State, id: string, done: bool)
    ensures StepKeeps(s, SetDoneCommand(s, id, done))
  {
    var e := SetDoneCommand(s, id, done);
    var N := Names(s.projects);
    var N' := Names(e.state.projects);
    assert N' == N by {
      assert forall i :: 0 <= i < |N| ==> N'[i] == e.state.projects[i].name == s.projects[i].name == N[i];
    }
    SameNamesKeeps(s, e);
  }

  lemma ApplyInvariants(s: State, c: Command, env: Env)
    ensures StepKeeps(s, Apply(s, c, env))
  {
    match c
    case AddProjectCmd(name) => AddProjectKeeps(s, name);
    case AddTaskCmd(project, inputs) => AddTaskKeeps(s, project, inputs, env.today);
    case SetDoneCmd(id, done) => SetDoneKeeps(s, id, done);
    case DeadlineCmd(id, date) => SameNamesKeeps(s, AddDeadline(s, id, date, env));
    case DeleteCmd(id) => SameNamesKeeps(s, Delete(s, id));
    case _ => SameNamesKeeps(s, Apply(s, c, env));
  }

  /** Every command that completes keeps the project names unique. */
  lemma ExecutePreservesValid(s: State, line: string, env: Env)
    requires Valid(s) && Execute(s, line, env).Continue?
    ensures Valid(Execute(s, line, env).state)
  {
    ApplyInvariants(s, Parse(line).value, env);
  }

  /**
    No command removes or reorders projects: the names after a command are
    the names before it, possibly followed by one new name.
   */
  lemma ExecuteKeepsProjects(s: State, line: string, env: Env)
    requires Execute(s, line, env).Continue?
    ensures ExtendsByAtMostOne(Names(Execute(s, line, env).state.projects), Names(s.projects))
  {
    ApplyInvariants(s, Parse(line).value, env);
  }

  /** The counter either stays or takes the next `long` value; it never moves otherwise. */
  lemma ExecuteCounterStep(s: State, line: string, env: Env)
    requires Execute(s, line, env).Continue?
    ensures var n := Execute(s, line, env).state.lastId;
      n == s.lastId || (n == NextId(s.lastId) && (s.lastId < LONG_MAX ==> n == s.lastId + 1))
  {
    ApplyInvariants(s, Parse(line).value, env);
  }

  /** Every task of `after` carries the id, description and creation date of a task of `before`. */
  ghost predicate KeepsAll(after: seq<Task>, before: seq<Task>) {
    forall t :: t in after ==> Preexisting(t, before)
  }

  /**
    The one task `add task <project> <inputs>` may create: not done, no
    deadline, created today, and either the next automatic id with the
    whole space-free `inputs` as description, or a valid id typed before
    the first space of `inputs` with the rest as description.
   */
  predicate CreatedFrom(t: Task, inputs: string, lastId: Long, today: Date) {
    && t == NewTask(t.id, t.description, false, today)
    && (|| (' ' !in inputs && t.id == LongToString(NextId(lastId)) && t.description == inputs)
        || (Ids.IsValidId(t.id) && t.id + " " + t.description == inputs))
  }

  /** Every task of `after` was there before, or is the task `add task` builds from `inputs`. */
  ghost predicate KeepsAllBut(after: seq<Task>, before: seq<Task>, inputs: string, lastId: Long, today: Date) {
    forall t :: t in after ==> Preexisting(t, before) || CreatedFrom(t, inputs, lastId, today)
  }

  /** What command `c` keeps: all tasks, except that `add task` may bring in the one task it builds. */
  ghost predicate CommandKeeps(after: seq<Task>, before: seq<Task>, c: Command, lastId: Long, today: Date) {
    if c.AddTaskCmd? then KeepsAllBut(after, before, c.inputs, lastId, today) else KeepsAll(after, before)
  }

  lemma AddProjectIdentities(s: State, name: string)
    ensures KeepsAll(Flatten(AddProject(s, name).state.projects), Flatten(s.projects))
  {
    forall t | t in Flatten(AddProject(s, name).state.projects)
      ensures Preexisting(t, Flatten(s.projects))
    {
      FlattenPut(s.projects, name, [], t);
      assert SameIdentity(t, t);
    }
  }

  lemma AddTaskIdentities(s: State, project: string, inputs: string, today: Date)
    ensures KeepsAllBut(Flatten(AddTask(s, project, inputs, today).state.projects), Flatten(s.projects), inputs, s.lastId, today)
  {
    var G := Flatten(AddTask(s, project, inputs, today).state.projects);
    var F := Flatten(s.projects);
    match Get(s.projects, project)
    case None =>
      assert forall t :: t in G ==> SameIdentity(t, t);
    case Some(ts) =>
      GetInFlatten(s.projects, project);
      var values := Text.SplitFirst(inputs);
      var u := if |values| == 1 then NewTask(LongToString(NextId(s.lastId)), inputs, false, today)
               else NewTask(values[0], values[1], false, today);
      assert |values| == 2 ==> values[0] + " " + values[1] == inputs;
      forall t | t in G ensures Preexisting(t, F) || CreatedFrom(t, inputs, s.lastId, today) {
        if |values| == 1 || Ids.IsValidId(values[0]) {
          FlattenPut(s.projects, project, ts + [u], t);
        }
        assert SameIdentity(t, t);
      }
  }

  lemma SetDoneIdentities(s: State, id: string, done: bool)
    ensures KeepsAll(Flatten(SetDoneCommand(s, id, done).state.projects), Flatten(s.projects))
  {
    var F := Flatten(s.projects);
    var G := Flatten(SetDoneCommand(s, id, done).state.projects);
    match SetDoneFirst(s.projects, id, done)
    case None =>
      assert forall t :: t in G ==> SameIdentity(t, t);
    case Some(ps) =>
      var k := FirstMatch(F, id);
      assert G == F[k := SetDone(F[k], done)];
      forall t | t in G ensures Preexisting(t, F) {
        var j :| 0 <= j < |G| && G[j] == t;
        assert SameIdentity(t, F[j]);
      }
  }

  lemma DeadlineIdentities(s: State, id: string, date: string, env: Env)
    ensures KeepsAll(Flatten(AddDeadline(s, id, date, env).state.projects), Flatten(s.projects))
  {
    match env.parseDate(date)
    case None =>
      assert forall t :: t in Flatten(s.projects) ==> SameIdentity(t, t);
    case Some(d) =>
      DeadlineEachIdentities(s.projects, id, d);
  }

  lemma DeadlineEachIdentities(ps: seq<Project>, id: string, d: Date)
    ensures KeepsAll(Flatten(SetDeadlineEach(ps, id, d)), Flatten(ps))
  {
    var r := SetDeadlineEach(ps, id, d);
    forall t | t in Flatten(r) ensures Preexisting(t, Flatten(ps)) {
      var i := FlattenMember(r, t);
      var ts := ps[i].tasks;
      assert r[i].tasks == SetDeadlineFirst(ts, id, d);
      DeadlineFirstIdentities(ts, id, d);
      var u :| u in ts && SameIdentity(t, u);
      FlattenContains(ps, i);
    }
  }

  /** Setting a deadline within one list keeps every task's identity. */
  lemma DeadlineFirstIdentities(ts: seq<Task>, id: string, d: Date)
    ensures KeepsAll(SetDeadlineFirst(ts, id, d), ts)
  {
    var r := SetDeadlineFirst(ts, id, d);
    forall t | t in r ensures Preexisting(t, ts) {
      var j :| 0 <= j < |r| && r[j] == t;
      assert SameIdentity(t, ts[j]);
    }
  }

  lemma DeleteIdentities(s: State, id: string)
    ensures KeepsAll(Flatten(Delete(s, id).state.projects), Flatten(s.projects))
  {
    assert forall t :: t in Flatten(Delete(s, id).state.projects) ==> t in Flatten(s.projects) && SameIdentity(t, t);
  }

  lemma ApplyKeepsIdentities(s: State, c: Command, env: Env)
    ensures CommandKeeps(Flatten(Apply(s, c, env).state.projects), Flatten(s.projects), c, s.lastId, env.today)
  {
    match c
    case AddProjectCmd(name) => AddProjectIdentities(s, name);
    case AddTaskCmd(project, inputs) => AddTaskIdentities(s, project, inputs, env.today);
    case SetDoneCmd(id, done) => SetDoneIdentities(s, id, done);
    case DeadlineCmd(id, date) => DeadlineIdentities(s, id, date, env);
    case DeleteCmd(id) => DeleteIdentities(s, id);
    case _ =>
      assert forall t :: t in Flatten(s.projects) ==> SameIdentity(t, t);
  }

  /**
    Ids, descriptions and creation dates are never changed: after any
    command, every task carries the id, description and creation date of a
    task that was there before; only an `add task` line may also bring in
    the one task it builds from its own text.
   */
  lemma ExecuteKeepsIdentities(s: State, line: string, env: Env)
    requires Execute(s, line, env).Continue?
    ensures CommandKeeps(Flatten(Execute(s, line, env).state.projects), Flatten(s.projects), Parse(line).value, s.lastId, env.today)
  {
    ApplyKeepsIdentities(s, Parse(line).value, env);
  }

  // ---------------------------------------------------------------------------
  // Sessions
  // ---------------------------------------------------------------------------

  /** One line typed by the user, with the day and date parser in effect when it is read. */
  datatype Input = Input(line: string, env: Env)

  /** The state after a sequence of lines, all output, and whether an exception ended it early. */
  datatype Session = Session(state: State, output: seq<string>, crashed: bool)

  /**
    Lines run one after another; after a crash no further line is run, and
    the state is the one the crashing line found.
   */
  function Run(s: State, inputs: seq<Input>): Session
    decreases |inputs|
  {
    if inputs == [] then Session(s, [], false)
    else
      match Execute(s, inputs[0].line, inputs[0].env)
      case Crash => Session(s, [], true)
      case Continue(s1, out) =>
        var rest := Run(s1, inputs[1..]);
        Session(rest.state, out + rest.output, rest.crashed)
  }

  /** Unique project names hold throughout any session. */
  lemma {:induction false} RunPreservesValid(s: State, inputs: seq<Input>)
    requires Valid(s)
    ensures Valid(Run(s, inputs).state)
    decreases |inputs|
  {
    if inputs != [] {
      var r := Execute(s, inputs[0].line, inputs[0].env);
      if r.Continue? {
        ExecutePreservesValid(s, inputs[0].line, inputs[0].env);
        RunPreservesValid(r.state, inputs[1..]);
      }
    }
  }

  /**
    While it cannot reach the `long` maximum, the counter never decreases
    and grows by at most one per line, so automatic ids are handed out as
    consecutive, strictly increasing numbers.
   */
  lemma {:induction false} RunCounterBounds(s: State, inputs: seq<Input>)
    requires s.lastId + |inputs| <= LONG_MAX
    ensures s.lastId <= Run(s, inputs).state.lastId <= s.lastId + |inputs|
    decreases |inputs|
  {
    if inputs != [] {
      var r := Execute(s, inputs[0].line, inputs[0].env);
      if r.Continue? {
        ExecuteCounterStep(s, inputs[0].line, inputs[0].env);
        RunCounterBounds(r.state, inputs[1..]);
      }
    }
  }

  /** Projects are never lost in a session: the names at the start are a prefix of the names at the end. */
  lemma {:induction false} RunKeepsProjects(s: State, inputs: seq<Input>)
    ensures var N := Names(Run(s, inputs).state.projects);
      |Names(s.projects)| <= |N| && N[..|s.projects|] == Names(s.projects)
    decreases |inputs|
  {
    if inputs != [] {
      var r := Execute(s, inputs[0].line, inputs[0].env);
      if r.Continue? {
        ExecuteKeepsProjects(s, inputs[0].line, inputs[0].env);
        RunKeepsProjects(r.state, inputs[1..]);
        var N1 := Names(r.state.projects);
        var N := Names(Run(s, inputs).state.projects);
        assert N[..|N1|] == N1;
        assert N1[..|s.projects|] == Names(s.projects);
        assert N[..|s.projects|] == N[..|N1|][..|s.projects|];
      }
    }
  }
}
