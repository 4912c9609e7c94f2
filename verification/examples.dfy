/** Small worked scenarios, each pinned down exactly. */
module TaskListExamples {
  import opened Wrappers
  import opened Longs
  import opened Tasks
  import opened Projects
  import opened Views
  import opened TaskList
  import opened TaskListFacts

  /** A task added to the only project, which is empty, ends up as its only task. */
  lemma OnlyProjectGetsTask(s: State, p: string, r: Outcome, t: Task)
    requires s.projects == [Project(p, [])]
    requires r.Continue? && Names(r.state.projects) == [p] && Get(r.state.projects, p) == Some([t])
    ensures r.state.projects == [Project(p, [t])]
  {
    assert |r.state.projects| == 1 && r.state.projects[0].name == p;
    assert IndexOf(r.state.projects, p) == 0;
  }

  /**
    On a fresh counter the first task added without an id gets id "1" and
    the counter becomes 1.
   */
  lemma FirstAutoIdExample(p: string, text: string, env: Env)
    requires ' ' !in p && ' ' !in text
    ensures Execute(State([Project(p, [])], 0), "add task " + p + " " + text, env)
         == Continue(State([Project(p, [NewTask("1", text, false, env.today)])], 1), [])
  {
    var s := State([Project(p, [])], 0);
    assert Names(s.projects) == [p];
    assert IndexOf(s.projects, p) == 0;
    assert Get(s.projects, p) == Some([]) && [] + [NewTask("1", text, false, env.today)] == [NewTask("1", text, false, env.today)];
    ExecuteAddTaskAutoId(s, p, text, env);
    assert LongToString(1) == "1" by {
      assert NatToString(1) == [DigitChar(1)];
    }
    var r := Execute(s, "add task " + p + " " + text, env);
    OnlyProjectGetsTask(s, p, r, NewTask("1", text, false, env.today));
  }

  /**
    `add task <p> <id> <description>` with a valid id on an empty project
    stores the task under that id and leaves the counter untouched; the
    project's listing then reads `[ ] <id>: <description>` under its name.
   */
  lemma ExplicitIdExample(p: string, id: string, desc: string, n: Long, env: Env)
    requires ' ' !in p && ' ' !in id && Ids.IsValidId(id)
    ensures var t := NewTask(id, desc, false, env.today);
      && Execute(State([Project(p, [])], n), "add task " + p + " " + id + " " + desc, env)
         == Continue(State([Project(p, [t])], n), [])
      && Show([Project(p, [t])]) == [p, "    [ ] " + id + ": " + desc, ""]
  {
    var s := State([Project(p, [])], n);
    var t := NewTask(id, desc, false, env.today);
    assert Names(s.projects) == [p];
    assert IndexOf(s.projects, p) == 0;
    assert Get(s.projects, p) == Some([]) && [] + [t] == [t];
    ExecuteAddTaskExplicitId(s, p, id, desc, env);
    var r := Execute(s, "add task " + p + " " + id + " " + desc, env);
    OnlyProjectGetsTask(s, p, r, t);
    OneTaskListing(p, t);
  }

  /** The listing of one project holding one open task. */
  lemma OneTaskListing(p: string, t: Task)
    requires !t.done
    ensures Show([Project(p, [t])]) == [p, "    [ ] " + t.id + ": " + t.description, ""]
  {
    assert Show([Project(p, [t])]) == ShowBlock(Project(p, [t])) + Show([]);
    assert FormatAll([t]) == [FormatTask(t)];
    assert "    [" + [' '] + "] " == "    [ ] ";
  }

  /**
    `view by deadline` puts a task with no deadline first, then the others by
    ascending deadline: tasks A (none), B (later), C (earlier) come out A, C, B.
   */
  lemma DeadlineOrderExample(a: Task, b: Task, c: Task)
    requires a.deadline.None? && b.deadline.Some? && c.deadline.Some?
    requires c.deadline.value < b.deadline.value
    ensures ByDeadline([a, b, c]) == [a, c, b]
  {
    var r := ByDeadline([a, b, c]);
    assert multiset(r) == multiset([a, b, c]);
    assert |r| == 3;
    assert r[0] in multiset([a, b, c]) && r[1] in multiset([a, b, c]) && r[2] in multiset([a, b, c]);
  }
}
