/**
  The interpreter's project table: an insertion-ordered map from project
  name to an ordered list of tasks (a `LinkedHashMap<String, List<Task>>`),
  modelled as a sequence of named projects, together with the lookups by
  task id that the commands use.
 */
module Projects {
  import opened Wrappers
  import opened Text
  import opened Tasks

  datatype Project = Project(name: string, tasks: seq<Task>)

  // ---------------------------------------------------------------------------
  // The table as an ordered map
  // ---------------------------------------------------------------------------

  /** The project names in iteration order. */
  function Names(ps: seq<Project>): (r: seq<string>)
    ensures |r| == |ps|
    ensures forall i :: 0 <= i < |ps| ==> r[i] == ps[i].name
  {
    if ps == [] then [] else [ps[0].name] + Names(ps[1..])
  }

  /** Map keys are unique. */
  predicate UniqueNames(ps: seq<Project>) {
    forall i, j :: 0 <= i < j < |ps| ==> ps[i].name != ps[j].name
  }

  /** Position of the project called `name`, or `|ps|` when there is none. */
  function IndexOf(ps: seq<Project>, name: string): (r: nat)
    ensures r <= |ps|
    ensures r < |ps| ==> ps[r].name == name
    ensures forall j :: 0 <= j < r ==> ps[j].name != name
  {
    if ps == [] then 0
    else if ps[0].name == name then 0
    else 1 + IndexOf(ps[1..], name)
  }

  /** `Map.get`: the task list of project `name`, or `None` (Java's `null`). */
  function Get(ps: seq<Project>, name: string): Option<seq<Task>> {
    var i := IndexOf(ps, name);
    if i < |ps| then Some(ps[i].tasks) else None
  }

  /** `Get` finds a list exactly for the names of the table: the list of a project of that name. */
  lemma GetFinds(ps: seq<Project>, name: string)
    ensures Get(ps, name).Some? <==> name in Names(ps)
    ensures Get(ps, name).Some? ==> Project(name, Get(ps, name).value) in ps
  {
    var i := IndexOf(ps, name);
    if i < |ps| {
      assert Names(ps)[i] == name;
      assert ps[i] == Project(name, ps[i].tasks);
    }
  }

  /** With unique keys, `Get` returns the list of the one project of that name. */
  lemma GetUnique(ps: seq<Project>, name: string, p: Project)
    requires UniqueNames(ps) && p in ps && p.name == name
    ensures Get(ps, name) == Some(p.tasks)
  {
    var k :| 0 <= k < |ps| && ps[k] == p;
    assert !(IndexOf(ps, name) < k);
  }

  /**
    `LinkedHashMap.put`: afterwards `name` maps to `ts` and every other name
    maps to what it did before. An existing key keeps its place in the
    iteration order; a new key goes last.
   */
  function Put(ps: seq<Project>, name: string, ts: seq<Task>): (r: seq<Project>)
    ensures Get(r, name) == Some(ts)
    ensures forall n :: n != name ==> Get(r, n) == Get(ps, n)
    ensures name in Names(ps) ==> Names(r) == Names(ps)
    ensures name !in Names(ps) ==> Names(r) == Names(ps) + [name]
    ensures UniqueNames(ps) ==> UniqueNames(r)
  {
    var i := IndexOf(ps, name);
    if i < |ps| then
      PutExisting(ps, i, name, ts);
      ps[i := Project(name, ts)]
    else
      PutNew(ps, name, ts);
      ps + [Project(name, ts)]
  }

  /** Replacing the list of an existing key, in place. */
  lemma PutExisting(ps: seq<Project>, i: nat, name: string, ts: seq<Task>)
    requires i == IndexOf(ps, name) && i < |ps|
    ensures var r := ps[i := Project(name, ts)];
      && Get(r, name) == Some(ts)
      && (forall n :: n != name ==> Get(r, n) == Get(ps, n))
      && Names(r) == Names(ps)
      && (UniqueNames(ps) ==> UniqueNames(r))
  {
    var r := ps[i := Project(name, ts)];
    ReplaceKeepsNames(ps, i, Project(name, ts));
    forall n ensures IndexOf(r, n) == IndexOf(ps, n) {
      IndexOfSameNames(r, ps, n);
    }
  }

  /** Replacing a project by one with the same name keeps the names. */
  lemma ReplaceKeepsNames(ps: seq<Project>, i: nat, p: Project)
    requires i < |ps| && p.name == ps[i].name
    ensures Names(ps[i := p]) == Names(ps)
    ensures UniqueNames(ps) ==> UniqueNames(ps[i := p])
  {
    var r := ps[i := p];
    assert forall k :: 0 <= k < |r| ==> Names(r)[k] == Names(ps)[k];
  }

  /** Adding a new key at the end. */
  lemma PutNew(ps: seq<Project>, name: string, ts: seq<Task>)
    requires IndexOf(ps, name) == |ps|
    ensures var r := ps + [Project(name, ts)];
      && Get(r, name) == Some(ts)
      && (forall n :: n != name ==> Get(r, n) == Get(ps, n))
      && name !in Names(ps)
      && Names(r) == Names(ps) + [name]
      && (UniqueNames(ps) ==> UniqueNames(r))
  {
    var r := ps + [Project(name, ts)];
    forall n | n != name ensures Get(r, n) == Get(ps, n) {
      IndexOfExtend(ps, Project(name, ts), n);
    }
    IndexOfExtend(ps, Project(name, ts), name);
    PutNewNames(ps, name, ts);
  }

  lemma PutNewNames(ps: seq<Project>, name: string, ts: seq<Task>)
    requires IndexOf(ps, name) == |ps|
    ensures var r := ps + [Project(name, ts)];
      && name !in Names(ps)
      && Names(r) == Names(ps) + [name]
      && (UniqueNames(ps) ==> UniqueNames(r))
  {
    var r := ps + [Project(name, ts)];
    assert Names(r) == Names(ps) + [name] by {
      assert forall k :: 0 <= k < |r| ==> Names(r)[k] == (Names(ps) + [name])[k];
    }
    assert forall k :: 0 <= k < |ps| ==> Names(ps)[k] != name;
    if UniqueNames(ps) {
      forall i, j | 0 <= i < j < |r| ensures r[i].name != r[j].name {
        assert r[i] == ps[i];
        if j < |ps| { assert r[j] == ps[j]; }
      }
    }
  }

  /** Projects with equal names at every position are looked up at equal positions. */
  lemma IndexOfSameNames(a: seq<Project>, b: seq<Project>, n: string)
    requires Names(a) == Names(b)
    ensures IndexOf(a, n) == IndexOf(b, n)
  {
    var i, j := IndexOf(a, n), IndexOf(b, n);
    assert forall k :: 0 <= k < |a| ==> a[k].name == b[k].name by {
      forall k | 0 <= k < |a| ensures a[k].name == b[k].name {
        assert Names(a)[k] == Names(b)[k];
      }
    }
    assert !(i < j);
    assert !(j < i);
  }

  /** Appending a project does not move the lookups that already succeed. */
  lemma IndexOfExtend(ps: seq<Project>, p: Project, n: string)
    ensures IndexOf(ps + [p], n) == (if IndexOf(ps, n) < |ps| || p.name == n then IndexOf(ps, n) else |ps| + 1)
  {
    var r := ps + [p];
    var i, j := IndexOf(ps, n), IndexOf(r, n);
    assert forall k :: 0 <= k < |ps| ==> r[k] == ps[k];
    if i < |ps| {
      assert !(i < j);
      assert !(j < i);
    } else {
      assert j >= |ps|;
      if p.name == n {
        assert r[|ps|].name == n;
        assert !(|ps| < j);
      } else {
        assert r[|ps|].name != n;
        assert j != |ps|;
      }
    }
  }

  // ---------------------------------------------------------------------------
  // Flattening and shape
  // ---------------------------------------------------------------------------

  /** All tasks in project order, then list order. */
  function Flatten(ps: seq<Project>): seq<Task> {
    if ps == [] then [] else ps[0].tasks + Flatten(ps[1..])
  }

  lemma FlattenCons(p: Project, rest: seq<Project>)
    ensures Flatten([p] + rest) == p.tasks + Flatten(rest)
  {
    assert ([p] + rest)[1..] == rest;
  }

  /** The same names and the same number of tasks in each project. */
  predicate SameShape(a: seq<Project>, b: seq<Project>) {
    && |a| == |b|
    && forall i :: 0 <= i < |a| ==> a[i].name == b[i].name && |a[i].tasks| == |b[i].tasks|
  }

  /** A table is determined by its shape and its flattened task sequence. */
  lemma {:induction false} ShapeAndFlattenDetermine(a: seq<Project>, b: seq<Project>)
    requires SameShape(a, b) && Flatten(a) == Flatten(b)
    ensures a == b
  {
    if a != [] {
      var n := |a[0].tasks|;
      assert a[0].tasks == Flatten(a)[..n];
      assert b[0].tasks == Flatten(b)[..n];
      assert Flatten(a[1..]) == Flatten(a)[n..];
      assert Flatten(b[1..]) == Flatten(b)[n..];
      assert SameShape(a[1..], b[1..]) by {
        forall i | 0 <= i < |a[1..]|
          ensures a[1..][i].name == b[1..][i].name && |a[1..][i].tasks| == |b[1..][i].tasks|
        {
          assert a[1..][i] == a[i + 1] && b[1..][i] == b[i + 1];
        }
      }
      ShapeAndFlattenDetermine(a[1..], b[1..]);
      assert a[0] == b[0];
      assert a == [a[0]] + a[1..] && b == [b[0]] + b[1..];
    }
  }

  // ---------------------------------------------------------------------------
  // Lookup by id, ignoring case
  // ---------------------------------------------------------------------------

  /** `task.getId().equalsIgnoreCase(id)`. */
  predicate Matches(t: Task, id: string) {
    EqualsIgnoreCase(t.id, id)
  }

  /** Position of the first task whose id matches `id`, or `|ts|` when none does. */
  function FirstMatch(ts: seq<Task>, id: string): (k: nat)
    ensures k <= |ts|
    ensures k < |ts| ==> Matches(ts[k], id)
    ensures forall j :: 0 <= j < k ==> !Matches(ts[j], id)
  {
    if ts == [] then 0
    else if Matches(ts[0], id) then 0
    else 1 + FirstMatch(ts[1..], id)
  }

  /** Any position meeting the description of the first match is the first match. */
  lemma FirstMatchUnique(ts: seq<Task>, id: string, k: nat)
    requires k <= |ts|
    requires k < |ts| ==> Matches(ts[k], id)
    requires forall j :: 0 <= j < k ==> !Matches(ts[j], id)
    ensures FirstMatch(ts, id) == k
  {
    var m := FirstMatch(ts, id);
    assert !(m < k);
    assert !(k < m);
  }

  /** The first match in a concatenation is in the first part if it has one, else in the second. */
  lemma FirstMatchAppend(a: seq<Task>, b: seq<Task>, id: string)
    ensures FirstMatch(a + b, id)
            == if FirstMatch(a, id) < |a| then FirstMatch(a, id) else |a| + FirstMatch(b, id)
  {
    var ab := a + b;
    if FirstMatch(a, id) < |a| {
      FirstMatchUnique(ab, id, FirstMatch(a, id));
    } else {
      var k := |a| + FirstMatch(b, id);
      assert forall j :: |a| <= j < |ab| ==> ab[j] == b[j - |a|];
      FirstMatchUnique(ab, id, k);
    }
  }

  /** The first match depends only on the ids of the tasks. */
  lemma FirstMatchSameIds(a: seq<Task>, b: seq<Task>, id: string)
    requires |a| == |b| && forall i :: 0 <= i < |a| ==> a[i].id == b[i].id
    ensures FirstMatch(a, id) == FirstMatch(b, id)
  {
    FirstMatchUnique(b, id, FirstMatch(a, id));
  }

  /** Replaces the first task matching `id` by its image under `f`; no match leaves `ts` as it is. */
  function UpdateFirst(ts: seq<Task>, id: string, f: Task -> Task): (r: seq<Task>)
    ensures var k := FirstMatch(ts, id);
      r == if k < |ts| then ts[k := f(ts[k])] else ts
  {
    if ts == [] then []
    else if Matches(ts[0], id) then [f(ts[0])] + ts[1..]
    else
      var rest := UpdateFirst(ts[1..], id, f);
      assert ts == [ts[0]] + ts[1..];
      [ts[0]] + rest
  }

  // ---------------------------------------------------------------------------
  // setDone: the first match overall
  // ---------------------------------------------------------------------------

  /**
    `setDone(id, done)`: sets the flag of the first task, in project-then-list
    order, whose id matches `id` ignoring case, and of no other task. `None`
    when no task matches.
   */
  function SetDoneFirst(ps: seq<Project>, id: string, done: bool): (r: Option<seq<Project>>)
    ensures var F := Flatten(ps); var k := FirstMatch(F, id);
      && (r.None? <==> k == |F|)
      && (r.Some? ==> SameShape(r.value, ps) && Flatten(r.value) == F[k := SetDone(F[k], done)])
  {
    if ps == [] then None
    else
      var ts := ps[0].tasks;
      if FirstMatch(ts, id) < |ts| then
        SetDoneHere(ps, id, done);
        Some([ps[0].(tasks := UpdateFirst(ts, id, t => SetDone(t, done)))] + ps[1..])
      else
        match SetDoneFirst(ps[1..], id, done)
        case None =>
          SetDoneNowhere(ps, id);
          None
        case Some(rest) =>
          SetDoneLater(ps, id, done, rest);
          Some([ps[0]] + rest)
  }

  /** The first match lies in the first project. */
  lemma SetDoneHere(ps: seq<Project>, id: string, done: bool)
    requires ps != [] && FirstMatch(ps[0].tasks, id) < |ps[0].tasks|
    ensures var F := Flatten(ps); var k := FirstMatch(F, id);
      var r := [ps[0].(tasks := UpdateFirst(ps[0].tasks, id, t => SetDone(t, done)))] + ps[1..];
      && k < |F| && SameShape(r, ps) && Flatten(r) == F[k := SetDone(F[k], done)]
  {
    var ts := ps[0].tasks;
    var G := Flatten(ps[1..]);
    var k := FirstMatch(ts, id);
    var u := UpdateFirst(ts, id, t => SetDone(t, done));
    assert u == ts[k := SetDone(ts[k], done)];
    var p := ps[0].(tasks := u);
    FlattenCons(ps[0], ps[1..]);
    assert ps == [ps[0]] + ps[1..];
    FlattenCons(p, ps[1..]);
    FirstMatchAppend(ts, G, id);
    SpliceInFront(ts, G, k, SetDone(ts[k], done));
    var r := [p] + ps[1..];
    assert forall i :: 1 <= i < |ps| ==> r[i] == ps[i];
  }

  /** Updating a position of the front part of a concatenation. */
  lemma SpliceInFront<T>(a: seq<T>, b: seq<T>, k: nat, x: T)
    requires k < |a|
    ensures (a + b)[k := x] == a[k := x] + b
  {
  }

  /** No project holds a match. */
  lemma SetDoneNowhere(ps: seq<Project>, id: string)
    requires ps != [] && FirstMatch(ps[0].tasks, id) == |ps[0].tasks|
    requires FirstMatch(Flatten(ps[1..]), id) == |Flatten(ps[1..])|
    ensures FirstMatch(Flatten(ps), id) == |Flatten(ps)|
  {
    FlattenCons(ps[0], ps[1..]);
    assert ps == [ps[0]] + ps[1..];
    FirstMatchAppend(ps[0].tasks, Flatten(ps[1..]), id);
  }

  /** The first match lies in a later project. */
  lemma SetDoneLater(ps: seq<Project>, id: string, done: bool, rest: seq<Project>)
    requires ps != [] && FirstMatch(ps[0].tasks, id) == |ps[0].tasks|
    requires var G := Flatten(ps[1..]); var k := FirstMatch(G, id);
      k < |G| && SameShape(rest, ps[1..]) && Flatten(rest) == G[k := SetDone(G[k], done)]
    ensures var F := Flatten(ps); var k := FirstMatch(F, id);
      && k < |F| && SameShape([ps[0]] + rest, ps) && Flatten([ps[0]] + rest) == F[k := SetDone(F[k], done)]
  {
    var ts := ps[0].tasks;
    FlattenCons(ps[0], ps[1..]);
    FlattenCons(ps[0], rest);
    assert ps == [ps[0]] + ps[1..];
    FirstMatchAppend(ts, Flatten(ps[1..]), id);
    var r := [ps[0]] + rest;
    assert forall i :: 1 <= i < |ps| ==> r[i] == rest[i - 1] && ps[i] == ps[1..][i - 1];
  }

  /** Setting the flag of the first match twice is the same as setting it to the second value once. */
  lemma SetDoneFirstTwice(ps: seq<Project>, id: string, a: bool, b: bool)
    requires SetDoneFirst(ps, id, a).Some?
    ensures SetDoneFirst(SetDoneFirst(ps, id, a).value, id, b) == SetDoneFirst(ps, id, b)
  {
    var F := Flatten(ps);
    var k := FirstMatch(F, id);
    var q := SetDoneFirst(ps, id, a).value;
    var G := Flatten(q);
    FirstMatchSameIds(F, G, id);
    var q2 := SetDoneFirst(q, id, b).value;
    var r := SetDoneFirst(ps, id, b).value;
    assert Flatten(q2) == Flatten(r);
    ShapeAndFlattenDetermine(q2, r);
  }

  // ---------------------------------------------------------------------------
  // addDeadline: the first match in each project
  // ---------------------------------------------------------------------------

  /**
    The deadline update of `addDeadline` within one project: the first task
    whose id matches `id` ignoring case gets deadline `d`; every other task,
    and every other field, is left alone.
   */
  function SetDeadlineFirst(ts: seq<Task>, id: string, d: Date): (r: seq<Task>)
    ensures var k := FirstMatch(ts, id);
      r == if k < |ts| then ts[k := SetDeadline(ts[k], Some(d))] else ts
  {
    UpdateFirst(ts, id, t => SetDeadline(t, Some(d)))
  }

  /** The deadline update of `addDeadline`: every project, names and order kept, updated on its own. */
  function SetDeadlineEach(ps: seq<Project>, id: string, d: Date): (r: seq<Project>)
    ensures |r| == |ps|
    ensures forall i :: 0 <= i < |ps| ==> r[i] == Project(ps[i].name, SetDeadlineFirst(ps[i].tasks, id, d))
  {
    if ps == [] then []
    else
      var rest := SetDeadlineEach(ps[1..], id, d);
      var p := Project(ps[0].name, SetDeadlineFirst(ps[0].tasks, id, d));
      assert forall i :: 1 <= i < |ps| ==> ([p] + rest)[i] == rest[i - 1] && ps[i] == ps[1..][i - 1];
      [p] + rest
  }

  /** When no task anywhere matches, the deadline update changes nothing. */
  lemma SetDeadlineEachNoMatch(ps: seq<Project>, id: string, d: Date)
    requires forall t :: t in Flatten(ps) ==> !Matches(t, id)
    ensures SetDeadlineEach(ps, id, d) == ps
  {
    var r := SetDeadlineEach(ps, id, d);
    forall i | 0 <= i < |ps| ensures r[i] == ps[i] {
      var ts := ps[i].tasks;
      FlattenContains(ps, i);
      assert forall j :: 0 <= j < |ts| ==> !Matches(ts[j], id) by {
        assert forall j :: 0 <= j < |ts| ==> ts[j] in Flatten(ps);
      }
      FirstMatchUnique(ts, id, |ts|);
      assert SetDeadlineFirst(ts, id, d) == ts;
    }
  }

  /** Every task of every project occurs in the flattened sequence. */
  lemma {:induction false} FlattenContains(ps: seq<Project>, i: nat)
    requires i < |ps|
    ensures forall t :: t in ps[i].tasks ==> t in Flatten(ps)
  {
    FlattenCons(ps[0], ps[1..]);
    assert ps == [ps[0]] + ps[1..];
    if i > 0 {
      FlattenContains(ps[1..], i - 1);
    }
  }

  // ---------------------------------------------------------------------------
  // delete: every match everywhere
  // ---------------------------------------------------------------------------

  /**
    `removeIf(task -> task.getId().equalsIgnoreCase(id))`: keeps exactly the
    tasks that do not match.
   */
  function RemoveMatching(ts: seq<Task>, id: string): (r: seq<Task>)
    ensures forall t :: t in r <==> t in ts && !Matches(t, id)
    ensures |r| <= |ts|
  {
    if ts == [] then []
    else
      assert ts == [ts[0]] + ts[1..];
      (if Matches(ts[0], id) then [] else [ts[0]]) + RemoveMatching(ts[1..], id)
  }

  /** Every task that does not match is kept as many times as it occurs. */
  lemma {:induction false} RemoveMatchingCounts(ts: seq<Task>, id: string, t: Task)
    requires !Matches(t, id)
    ensures multiset(RemoveMatching(ts, id))[t] == multiset(ts)[t]
  {
    if ts != [] {
      RemoveMatchingCounts(ts[1..], id, t);
      var head := if Matches(ts[0], id) then [] else [ts[0]];
      assert RemoveMatching(ts, id) == head + RemoveMatching(ts[1..], id);
      assert ts == [ts[0]] + ts[1..];
    }
  }

  /** Removal works element by element, so it keeps the relative order of what remains. */
  lemma {:induction false} RemoveMatchingAppend(a: seq<Task>, b: seq<Task>, id: string)
    ensures RemoveMatching(a + b, id) == RemoveMatching(a, id) + RemoveMatching(b, id)
  {
    if a != [] {
      var head := if Matches(a[0], id) then [] else [a[0]];
      assert (a + b)[0] == a[0];
      assert (a + b)[1..] == a[1..] + b;
      RemoveMatchingCons(a + b, id);
      RemoveMatchingAppend(a[1..], b, id);
      RemoveMatchingCons(a, id);
      assert head + (RemoveMatching(a[1..], id) + RemoveMatching(b, id))
          == (head + RemoveMatching(a[1..], id)) + RemoveMatching(b, id);
    } else {
      assert a + b == b;
    }
  }

  lemma RemoveMatchingCons(ts: seq<Task>, id: string)
    requires ts != []
    ensures RemoveMatching(ts, id) == (if Matches(ts[0], id) then [] else [ts[0]]) + RemoveMatching(ts[1..], id)
  {
  }

  /** A list without matching tasks is left as it is. */
  lemma {:induction false} RemoveMatchingNone(ts: seq<Task>, id: string)
    requires forall t :: t in ts ==> !Matches(t, id)
    ensures RemoveMatching(ts, id) == ts
  {
    if ts != [] {
      assert ts[0] in ts;
      assert forall t :: t in ts[1..] ==> t in ts;
      RemoveMatchingNone(ts[1..], id);
      assert RemoveMatching(ts, id) == [ts[0]] + RemoveMatching(ts[1..], id);
      assert ts == [ts[0]] + ts[1..];
    }
  }

  /** `delete(id)`: removes every matching task from every project; the projects stay. */
  function DeleteEach(ps: seq<Project>, id: string): (r: seq<Project>)
    ensures |r| == |ps|
    ensures forall i :: 0 <= i < |ps| ==>
      r[i].name == ps[i].name && r[i].tasks == RemoveMatching(ps[i].tasks, id)
  {
    if ps == [] then []
    else
      var rest := DeleteEach(ps[1..], id);
      var p := ps[0].(tasks := RemoveMatching(ps[0].tasks, id));
      assert forall i :: 1 <= i < |ps| ==> ([p] + rest)[i] == rest[i - 1] && ps[i] == ps[1..][i - 1];
      [p] + rest
  }

  /** Across the whole table, deleting is removal from the flattened task sequence. */
  lemma {:induction false} DeleteEachFlatten(ps: seq<Project>, id: string)
    ensures Flatten(DeleteEach(ps, id)) == RemoveMatching(Flatten(ps), id)
  {
    if ps != [] {
      var r := DeleteEach(ps, id);
      FlattenCons(ps[0], ps[1..]);
      assert ps == [ps[0]] + ps[1..];
      assert r == [r[0]] + r[1..];
      assert r[1..] == DeleteEach(ps[1..], id) by {
        var q := DeleteEach(ps[1..], id);
        assert |r[1..]| == |q|;
        forall i | 0 <= i < |q| ensures r[1..][i] == q[i] {
          assert ps[1..][i] == ps[i + 1];
        }
      }
      FlattenCons(r[0], r[1..]);
      DeleteEachFlatten(ps[1..], id);
      RemoveMatchingAppend(ps[0].tasks, Flatten(ps[1..]), id);
    }
  }

  /** Deleting twice is deleting once. */
  lemma DeleteEachIdempotent(ps: seq<Project>, id: string)
    ensures DeleteEach(DeleteEach(ps, id), id) == DeleteEach(ps, id)
  {
    var r := DeleteEach(ps, id);
    forall i | 0 <= i < |ps| ensures DeleteEach(r, id)[i] == r[i] {
      RemoveMatchingNone(r[i].tasks, id);
    }
  }

  // ---------------------------------------------------------------------------
  // Membership in the flattened table
  // ---------------------------------------------------------------------------

  /** Equal names at every position give equal uniqueness. */
  lemma SameNamesUnique(a: seq<Project>, b: seq<Project>)
    requires Names(a) == Names(b)
    ensures UniqueNames(a) <==> UniqueNames(b)
  {
    assert forall i :: 0 <= i < |a| ==> Names(a)[i] == a[i].name && Names(b)[i] == b[i].name;
  }

  /** A task of the flattened table sits in one of the projects. */
  lemma {:induction false} FlattenMember(ps: seq<Project>, t: Task) returns (i: nat)
    requires t in Flatten(ps)
    ensures i < |ps| && t in ps[i].tasks
  {
    FlattenCons(ps[0], ps[1..]);
    assert ps == [ps[0]] + ps[1..];
    if t in ps[0].tasks {
      i := 0;
    } else {
      var j := FlattenMember(ps[1..], t);
      i := j + 1;
    }
  }

  /** Replacing one project brings in only that project's tasks. */
  lemma {:induction false} FlattenUpdate(ps: seq<Project>, i: nat, p: Project, t: Task)
    requires i < |ps| && t in Flatten(ps[i := p])
    ensures t in Flatten(ps) || t in p.tasks
  {
    var j := FlattenMember(ps[i := p], t);
    if j != i {
      FlattenContains(ps, j);
    }
  }

  /** Putting a list brings in only the tasks of that list. */
  lemma FlattenPut(ps: seq<Project>, name: string, ts: seq<Task>, t: Task)
    requires t in Flatten(Put(ps, name, ts))
    ensures t in Flatten(ps) || t in ts
  {
    var i := IndexOf(ps, name);
    if i < |ps| {
      FlattenUpdate(ps, i, Project(name, ts), t);
    } else {
      var j := FlattenMember(ps + [Project(name, ts)], t);
      if j < |ps| {
        assert (ps + [Project(name, ts)])[j] == ps[j];
        FlattenContains(ps, j);
      }
    }
  }

  /** The list that `Get` returns is part of the table. */
  lemma GetInFlatten(ps: seq<Project>, name: string)
    requires Get(ps, name).Some?
    ensures forall t :: t in Get(ps, name).value ==> t in Flatten(ps)
  {
    FlattenContains(ps, IndexOf(ps, name));
  }
}
