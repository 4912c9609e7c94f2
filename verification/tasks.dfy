/**
  The `Task` record: an id, a description and a creation date fixed at
  construction, and a completion flag and an optional deadline that can be
  changed afterwards. The getters of the Java class are this datatype's
  destructors (`t.id`, `t.description`, `t.done`, `t.createdOn`, `t.deadline`);
  no validation happens here.
 */
module Tasks {
  import opened Wrappers

  /** A calendar day, as a day number: later days are larger numbers. */
  type Date = int

  datatype Task = Task(
    id: string,
    description: string,
    done: bool,
    createdOn: Date,
    deadline: Option<Date>)

  /** The fields that never change once a task exists: id, description and creation date. */
  predicate SameIdentity(a: Task, b: Task) {
    a.id == b.id && a.description == b.description && a.createdOn == b.createdOn
  }

  /**
    The three-argument constructor: no deadline, and the creation date is
    the current day, `today`.
   */
  function NewTask(id: string, description: string, done: bool, today: Date): (t: Task)
    ensures t.id == id && t.description == description && t.done == done
    ensures t.createdOn == today && t.deadline == None
  {
    Task(id, description, done, today, None)
  }

  /**
    The four-argument constructor: the given deadline (possibly absent) is
    stored, and the creation date is the current day, `today`.
   */
  function NewTaskWithDeadline(id: string, description: string, done: bool, deadline: Option<Date>, today: Date): (t: Task)
    ensures t.id == id && t.description == description && t.done == done
    ensures t.createdOn == today && t.deadline == deadline
  {
    Task(id, description, done, today, deadline)
  }

  /** `setDone`: changes the completion flag and nothing else. */
  function SetDone(t: Task, done: bool): (r: Task)
    ensures r.done == done
    ensures SameIdentity(r, t) && r.deadline == t.deadline
  {
    t.(done := done)
  }

  /** `setDeadline`: changes the deadline and nothing else. */
  function SetDeadline(t: Task, deadline: Option<Date>): (r: Task)
    ensures r.deadline == deadline
    ensures SameIdentity(r, t) && r.done == t.done
  {
    t.(deadline := deadline)
  }

  /** The two mutators act on disjoint fields: applying them in either order gives the same task. */
  lemma SettersCommute(t: Task, done: bool, deadline: Option<Date>)
    ensures SetDone(SetDeadline(t, deadline), done) == SetDeadline(SetDone(t, done), deadline)
  {
  }

  /** Setting a flag overrides any earlier setting, and setting it back restores the task. */
  lemma SetDoneOverrides(t: Task, a: bool, b: bool)
    ensures SetDone(SetDone(t, a), b) == SetDone(t, b)
    ensures SetDone(SetDone(t, a), t.done) == t
  {
  }
}
