/**
  What the read-only commands print: the per-project listing (`show`), the
  tasks due on the current day (`today`), and the two flat listings sorted by
  creation date and by deadline (`viewByDate`, `viewByDeadline`).
 */
module Views {
  import opened Wrappers
  import opened Tasks
  import opened Projects
  import opened Sorting

  /** One task line, `    [x] <id>: <description>`, with a space in place of `x` when not done. */
  function FormatTask(t: Task): string {
    "    [" + [if t.done then 'x' else ' '] + "] " + t.id + ": " + t.description
  }

  /** The task lines of `ts`, one per task, in order. */
  function FormatAll(ts: seq<Task>): (r: seq<string>)
    ensures |r| == |ts|
    ensures forall i :: 0 <= i < |ts| ==> r[i] == FormatTask(ts[i])
  {
    if ts == [] then [] else [FormatTask(ts[0])] + FormatAll(ts[1..])
  }

  // ---------------------------------------------------------------------------
  // show
  // ---------------------------------------------------------------------------

  /** One block of `show`: the project name, its task lines, a blank line. */
  function ShowBlock(p: Project): seq<string> {
    [p.name] + FormatAll(p.tasks) + [""]
  }

  /** `show`: the blocks of all projects in iteration order; two lines per project plus one per task. */
  function Show(ps: seq<Project>): (r: seq<string>)
    ensures |r| == 2 * |ps| + |Flatten(ps)|
  {
    if ps == [] then []
    else
      FlattenCons(ps[0], ps[1..]);
      assert ps == [ps[0]] + ps[1..];
      ShowBlock(ps[0]) + Show(ps[1..])
  }

  /** Where the block of project `i` starts in the output of `show`. */
  function BlockStart(ps: seq<Project>, i: nat): nat
    requires i <= |ps|
  {
    2 * i + |Flatten(ps[..i])|
  }

  /** `show` of a concatenation is the concatenation of the listings. */
  lemma {:induction false} ShowAppend(a: seq<Project>, b: seq<Project>)
    ensures Show(a + b) == Show(a) + Show(b)
  {
    if a == [] {
      assert a + b == b;
    } else {
      assert (a + b)[0] == a[0] && (a + b)[1..] == a[1..] + b;
      ShowAppend(a[1..], b);
    }
  }

  /** The block of project `i` of a non-empty table: name, task lines, blank line. */
  lemma ShowBlockAt(ps: seq<Project>, i: nat)
    requires i < |ps|
    ensures var o := BlockStart(ps, i);
      && o + |ps[i].tasks| + 1 < |Show(ps)|
      && Show(ps)[o] == ps[i].name
      && (forall j :: 0 <= j < |ps[i].tasks| ==> Show(ps)[o + 1 + j] == FormatTask(ps[i].tasks[j]))
      && Show(ps)[o + 1 + |ps[i].tasks|] == ""
  {
    var before, after := ps[..i], ps[i + 1..];
    SplitAround(ps, i);
    ShowAppend(before, [ps[i]] + after);
    ShowCons(ps[i], after);
    assert |Show(before)| == BlockStart(ps, i);
    ShowBlockLayout(ps[i]);
    ShowBlockIndex(Show(before), ShowBlock(ps[i]), Show(after));
  }

  lemma ShowCons(p: Project, rest: seq<Project>)
    ensures Show([p] + rest) == ShowBlock(p) + Show(rest)
  {
    assert ([p] + rest)[0] == p && ([p] + rest)[1..] == rest;
  }

  lemma SplitAround<T>(s: seq<T>, i: nat)
    requires i < |s|
    ensures s == s[..i] + ([s[i]] + s[i + 1..])
  {
  }

  /** The lines of one block. */
  lemma ShowBlockLayout(p: Project)
    ensures |ShowBlock(p)| == |p.tasks| + 2
    ensures ShowBlock(p)[0] == p.name && ShowBlock(p)[|p.tasks| + 1] == ""
    ensures forall j :: 0 <= j < |p.tasks| ==> ShowBlock(p)[1 + j] == FormatTask(p.tasks[j])
  {
  }

  /** Positions inside the middle part of a three-part concatenation. */
  lemma ShowBlockIndex(a: seq<string>, m: seq<string>, c: seq<string>)
    ensures forall x :: 0 <= x < |m| ==> (a + (m + c))[|a| + x] == m[x]
  {
  }

  /**
    The layout of `show`: for every project, its name, then one line per task
    in list order, then a blank line, and nothing else.
   */
  lemma ShowLayout(ps: seq<Project>)
    ensures |Show(ps)| == 2 * |ps| + |Flatten(ps)|
    ensures forall i :: 0 <= i < |ps| ==>
      var o := BlockStart(ps, i);
      && o + |ps[i].tasks| + 1 < |Show(ps)|
      && Show(ps)[o] == ps[i].name
      && (forall j :: 0 <= j < |ps[i].tasks| ==> Show(ps)[o + 1 + j] == FormatTask(ps[i].tasks[j]))
      && Show(ps)[o + 1 + |ps[i].tasks|] == ""
  {
    forall i | 0 <= i < |ps|
      ensures var o := BlockStart(ps, i);
        && o + |ps[i].tasks| + 1 < |Show(ps)|
        && Show(ps)[o] == ps[i].name
        && (forall j :: 0 <= j < |ps[i].tasks| ==> Show(ps)[o + 1 + j] == FormatTask(ps[i].tasks[j]))
        && Show(ps)[o + 1 + |ps[i].tasks|] == ""
    {
      ShowBlockAt(ps, i);
    }
  }

  // ---------------------------------------------------------------------------
  // today
  // ---------------------------------------------------------------------------

  /** The tasks of `ts` whose deadline is the day `d`, in order. */
  function DueOn(ts: seq<Task>, d: Date): (r: seq<Task>)
    ensures |r| <= |ts|
    ensures forall t :: t in r <==> t in ts && t.deadline == Some(d)
  {
    if ts == [] then []
    else
      assert ts == [ts[0]] + ts[1..];
      (if ts[0].deadline == Some(d) then [ts[0]] else []) + DueOn(ts[1..], d)
  }

  /** A task due that day is kept as many times as it occurs; any other task is dropped. */
  lemma {:induction false} DueOnCounts(ts: seq<Task>, d: Date, t: Task)
    ensures multiset(DueOn(ts, d))[t] == if t.deadline == Some(d) then multiset(ts)[t] else 0
  {
    if ts != [] {
      DueOnCounts(ts[1..], d, t);
      assert ts == [ts[0]] + ts[1..];
    }
  }

  /** Filtering works element by element, so the due tasks keep their relative order. */
  lemma {:induction false} DueOnAppend(a: seq<Task>, b: seq<Task>, d: Date)
    ensures DueOn(a + b, d) == DueOn(a, d) + DueOn(b, d)
  {
    if a != [] {
      assert (a + b)[0] == a[0];
      assert (a + b)[1..] == a[1..] + b;
      DueOnAppend(a[1..], b, d);
    } else {
      assert a + b == b;
    }
  }

  /** One block of `today`: the lines of the project's tasks due on `d`, then a blank line. */
  function TodayBlock(p: Project, d: Date): seq<string> {
    FormatAll(DueOn(p.tasks, d)) + [""]
  }

  /**
    `today()`: the blocks of all projects in iteration order, no project
    names; one line per project plus one per task due on `d`.
   */
  function Today(ps: seq<Project>, d: Date): (r: seq<string>)
    ensures |r| == |ps| + |DueOn(Flatten(ps), d)|
  {
    if ps == [] then []
    else
      FlattenCons(ps[0], ps[1..]);
      DueOnAppend(ps[0].tasks, Flatten(ps[1..]), d);
      assert ps == [ps[0]] + ps[1..];
      TodayBlock(ps[0], d) + Today(ps[1..], d)
  }

  /** Where the block of project `i` starts in the output of `today`. */
  function TodayStart(ps: seq<Project>, i: nat, d: Date): nat
    requires i <= |ps|
  {
    i + |DueOn(Flatten(ps[..i]), d)|
  }

  /** `today` of a concatenation is the concatenation of the outputs. */
  lemma {:induction false} TodayAppend(a: seq<Project>, b: seq<Project>, d: Date)
    ensures Today(a + b, d) == Today(a, d) + Today(b, d)
  {
    if a == [] {
      assert a + b == b;
    } else {
      assert (a + b)[0] == a[0] && (a + b)[1..] == a[1..] + b;
      TodayAppend(a[1..], b, d);
    }
  }

  lemma TodayCons(p: Project, rest: seq<Project>, d: Date)
    ensures Today([p] + rest, d) == TodayBlock(p, d) + Today(rest, d)
  {
    assert ([p] + rest)[0] == p && ([p] + rest)[1..] == rest;
  }

  /** The middle part of a three-part concatenation, cut out again. */
  lemma SliceMiddle<T>(s: seq<T>, a: seq<T>, m: seq<T>, c: seq<T>)
    requires s == a + (m + c)
    ensures |a| + |m| <= |s| && s[|a|..|a| + |m|] == m
  {
  }

  /** The output of `today` around the block of project `i`. */
  lemma TodaySplit(ps: seq<Project>, i: nat, d: Date)
    requires i < |ps|
    ensures Today(ps, d) == Today(ps[..i], d) + (TodayBlock(ps[i], d) + Today(ps[i + 1..], d))
    ensures |Today(ps[..i], d)| == TodayStart(ps, i, d)
  {
    SplitAround(ps, i);
    TodayAppend(ps[..i], [ps[i]] + ps[i + 1..], d);
    TodayCons(ps[i], ps[i + 1..], d);
  }

  /** `out` holds the lines of `block` from position `o` on. */
  predicate HoldsAt(out: seq<string>, o: nat, block: seq<string>) {
    o + |block| <= |out| && out[o..o + |block|] == block
  }

  /** `a + (m + c)` holds `m` right after `a`. */
  lemma MiddleHoldsAt(s: seq<string>, a: seq<string>, m: seq<string>, c: seq<string>, o: nat)
    requires s == a + (m + c) && |a| == o
    ensures HoldsAt(s, o, m)
  {
    SliceMiddle(s, a, m, c);
  }

  /** The block of project `i`: its due task lines, then a blank line. */
  lemma TodayBlockAt(ps: seq<Project>, i: nat, d: Date)
    requires i < |ps|
    ensures HoldsAt(Today(ps, d), TodayStart(ps, i, d), FormatAll(DueOn(ps[i].tasks, d)) + [""])
  {
    TodaySplit(ps, i, d);
    MiddleHoldsAt(Today(ps, d), Today(ps[..i], d), TodayBlock(ps[i], d), Today(ps[i + 1..], d), TodayStart(ps, i, d));
  }

  /**
    The layout of `today`: for every project, in iteration order, the lines
    of its tasks due on `d` in list order, then a blank line, and nothing
    else; no project names.
   */
  lemma TodayLayout(ps: seq<Project>, d: Date)
    ensures |Today(ps, d)| == |ps| + |DueOn(Flatten(ps), d)|
    ensures forall i :: 0 <= i < |ps| ==>
      HoldsAt(Today(ps, d), TodayStart(ps, i, d), FormatAll(DueOn(ps[i].tasks, d)) + [""])
  {
    forall i | 0 <= i < |ps|
      ensures HoldsAt(Today(ps, d), TodayStart(ps, i, d), FormatAll(DueOn(ps[i].tasks, d)) + [""])
    {
      TodayBlockAt(ps, i, d);
    }
  }

  /**
    `today` prints one blank line per project and one line per task due that
    day; a line is either blank or the line of a task due that day, and every
    task due that day has its line printed.
   */
  lemma {:induction false} TodayContents(ps: seq<Project>, d: Date)
    ensures |Today(ps, d)| == |ps| + |DueOn(Flatten(ps), d)|
    ensures forall line :: line in Today(ps, d) ==>
      line == "" || exists t :: t in Flatten(ps) && t.deadline == Some(d) && line == FormatTask(t)
    ensures forall t :: t in Flatten(ps) && t.deadline == Some(d) ==> FormatTask(t) in Today(ps, d)
  {
    TodayLinesAreDue(ps, d);
    TodayListsAllDue(ps, d);
  }

  lemma {:induction false} TodayLinesAreDue(ps: seq<Project>, d: Date)
    ensures forall line :: line in Today(ps, d) ==>
      line == "" || exists t :: t in Flatten(ps) && t.deadline == Some(d) && line == FormatTask(t)
  {
    if ps != [] {
      var due := DueOn(ps[0].tasks, d);
      TodayLinesAreDue(ps[1..], d);
      FlattenCons(ps[0], ps[1..]);
      assert ps == [ps[0]] + ps[1..];
      TodayCons(ps[0], ps[1..], d);
      assert Today(ps, d) == (FormatAll(due) + [""]) + Today(ps[1..], d);
      forall line | line in Today(ps, d)
        ensures line == "" || exists t :: t in Flatten(ps) && t.deadline == Some(d) && line == FormatTask(t)
      {
        if line in FormatAll(due) {
          var j :| 0 <= j < |due| && FormatAll(due)[j] == line;
          assert due[j] in due;
          assert due[j] in Flatten(ps);
        }
      }
    }
  }

  lemma {:induction false} TodayListsAllDue(ps: seq<Project>, d: Date)
    ensures forall t :: t in Flatten(ps) && t.deadline == Some(d) ==> FormatTask(t) in Today(ps, d)
  {
    if ps != [] {
      var due := DueOn(ps[0].tasks, d);
      TodayListsAllDue(ps[1..], d);
      FlattenCons(ps[0], ps[1..]);
      assert ps == [ps[0]] + ps[1..];
      TodayCons(ps[0], ps[1..], d);
      assert Today(ps, d) == (FormatAll(due) + [""]) + Today(ps[1..], d);
      forall t | t in Flatten(ps) && t.deadline == Some(d) ensures FormatTask(t) in Today(ps, d) {
        if t in ps[0].tasks {
          assert t in due;
          var j :| 0 <= j < |due| && due[j] == t;
          assert FormatAll(due)[j] == FormatTask(t);
        }
      }
    }
  }

  // ---------------------------------------------------------------------------
  // viewByDate, viewByDeadline
  // ---------------------------------------------------------------------------

  function CreatedOnKey(t: Task): Date {
    t.createdOn
  }

  /** `LocalDate` natural order. */
  function DateLe(a: Date, b: Date): bool {
    a <= b
  }

  function DeadlineKey(t: Task): Option<Date> {
    t.deadline
  }

  /** `Comparator.nullsFirst(Comparator.naturalOrder())` on optional dates: absent before any date. */
  function NullsFirstLe(a: Option<Date>, b: Option<Date>): bool {
    a.None? || (b.Some? && a.value <= b.value)
  }

  lemma DateLeTotal()
    ensures TotalOrder(DateLe)
  {
  }

  lemma NullsFirstTotal()
    ensures TotalOrder(NullsFirstLe)
  {
  }

  /**
    The order of `viewByDate`: the given tasks rearranged by creation date,
    ascending, tasks created on the same day kept in their given order.
   */
  function ByCreatedOn(ts: seq<Task>): (r: seq<Task>)
    ensures multiset(r) == multiset(ts)
    ensures forall i, j :: 0 <= i < j < |r| ==> r[i].createdOn <= r[j].createdOn
    ensures forall d :: WithKey(r, CreatedOnKey, d) == WithKey(ts, CreatedOnKey, d)
  {
    DateLeTotal();
    var r := SortBy(ts, CreatedOnKey, DateLe);
    assert forall i, j :: 0 <= i < j < |r| ==> DateLe(CreatedOnKey(r[i]), CreatedOnKey(r[j]));
    r
  }

  /**
    The order of `viewByDeadline`: the given tasks rearranged so that those
    without a deadline come first and the rest follow by ascending deadline,
    tasks with the same deadline (or both without) kept in their given order.
   */
  function ByDeadline(ts: seq<Task>): (r: seq<Task>)
    ensures multiset(r) == multiset(ts)
    ensures forall i, j :: 0 <= i < j < |r| ==> NullsFirstLe(r[i].deadline, r[j].deadline)
    ensures forall d :: WithKey(r, DeadlineKey, d) == WithKey(ts, DeadlineKey, d)
  {
    NullsFirstTotal();
    var r := SortBy(ts, DeadlineKey, NullsFirstLe);
    assert forall i, j :: 0 <= i < j < |r| ==> NullsFirstLe(DeadlineKey(r[i]), DeadlineKey(r[j]));
    r
  }

  /** In the deadline order every task without a deadline precedes every task with one. */
  lemma ByDeadlineAbsentFirst(ts: seq<Task>, i: nat, j: nat)
    requires i < |ByDeadline(ts)| && j < |ByDeadline(ts)|
    requires ByDeadline(ts)[i].deadline.None? && ByDeadline(ts)[j].deadline.Some?
    ensures i < j
  {
  }

  /**
    The lines of a rearrangement `o` of `ts`, then a blank line: one line per
    task of `ts`, each the line of a task of `ts`, every task's line included.
   */
  lemma ReorderedLines(ts: seq<Task>, o: seq<Task>)
    requires multiset(o) == multiset(ts)
    ensures var r := FormatAll(o) + [""];
      && |r| == |ts| + 1 && r[|ts|] == ""
      && (forall t :: t in ts ==> FormatTask(t) in r)
      && (forall i :: 0 <= i < |ts| ==> exists t :: t in ts && r[i] == FormatTask(t))
  {
    var r := FormatAll(o) + [""];
    assert |o| == |multiset(o)| == |ts|;
    forall t | t in ts ensures FormatTask(t) in r {
      assert t in multiset(o);
      var j :| 0 <= j < |o| && o[j] == t;
      assert r[j] == FormatTask(t);
    }
    forall i | 0 <= i < |ts| ensures exists t :: t in ts && r[i] == FormatTask(t) {
      assert o[i] in multiset(ts);
      assert o[i] in ts && r[i] == FormatTask(o[i]);
    }
  }

  /** `viewByDate`: all tasks, flattened, in creation-date order, then a blank line. */
  function ViewByDate(ps: seq<Project>): (r: seq<string>)
    ensures |r| == |Flatten(ps)| + 1 && r[|Flatten(ps)|] == ""
    ensures forall t :: t in Flatten(ps) ==> FormatTask(t) in r
    ensures forall i :: 0 <= i < |Flatten(ps)| ==> exists t :: t in Flatten(ps) && r[i] == FormatTask(t)
  {
    var o := ByCreatedOn(Flatten(ps));
    ReorderedLines(Flatten(ps), o);
    FormatAll(o) + [""]
  }

  /** `viewByDeadline`: all tasks, flattened, in deadline order, then a blank line. */
  function ViewByDeadline(ps: seq<Project>): (r: seq<string>)
    ensures |r| == |Flatten(ps)| + 1 && r[|Flatten(ps)|] == ""
    ensures forall t :: t in Flatten(ps) ==> FormatTask(t) in r
    ensures forall i :: 0 <= i < |Flatten(ps)| ==> exists t :: t in Flatten(ps) && r[i] == FormatTask(t)
  {
    var o := ByDeadline(Flatten(ps));
    ReorderedLines(Flatten(ps), o);
    FormatAll(o) + [""]
  }
}
