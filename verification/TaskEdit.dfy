/** Editing the task graph of a recipe: `addtask` and `deltask` in bb/build.py. */
module TaskEdit {
  import opened Sequences
  import opened TaskGraph
  import opened Wrappers

  /** `__BBTASKS`, the tasks whose `task` flag is set, and the `deps` flags. */
  datatype TaskState = TaskState(bbtasks: seq<Task>, flagged: set<Task>, deps: map<Task, seq<Task>>)

  const EMPTY := TaskState([], {}, map[])

  /** Reading a flag that is not set yields the empty list. */
  function DepsOf(deps: map<Task, seq<Task>>, task: Task): seq<Task> {
    if task in deps then deps[task] else []
  }

  /** Task names carry the prefix `do_`. */
  function Normal(task: string): Task {
    if "do_" <= task then task else "do_" + task
  }

  function Words(entries: Option<seq<Task>>): seq<Task> {
    if entries.None? then [] else entries.value
  }

  function AppendNew(list: seq<Task>, entries: seq<Task>): (r: seq<Task>)
    ensures forall x :: x in r <==> x in list || x in entries
    ensures NoRepeats(list) ==> NoRepeats(r)
  {
    if entries == [] then
      list
    else
      var r := AppendNew(list, entries[..|entries| - 1]);
      var last := entries[|entries| - 1];
      assert entries == entries[..|entries| - 1] + [last];
      if last in r then r else r + [last]
  }

  function Without(list: seq<Task>, task: Task): (r: seq<Task>)
    ensures forall x :: x in r <==> x in list && x != task
    ensures NoRepeats(list) ==> NoRepeats(r)
    ensures task !in list ==> r == list
  {
    if list == [] then
      []
    else
      var r := Without(list[1..], task);
      assert list == [list[0]] + list[1..];
      assert NoRepeats(list) ==> NoRepeats(list[1..]) && list[0] !in list[1..];
      if list[0] == task then r else [list[0]] + r
  }

  function Listed(list: seq<Task>, task: Task): seq<Task> {
    if task in list then list else list + [task]
  }

  /** No entry depends on the task any more. */
  function Dropped(deps: map<Task, seq<Task>>, task: Task, entries: set<Task>): map<Task, seq<Task>> {
    map e | e in deps && e != task :: if e in entries then Without(deps[e], task) else deps[e]
  }

  /** Every entry depends on the task; an entry that already did is left as it is. */
  function Prepended(deps: map<Task, seq<Task>>, task: Task, entries: set<Task>): map<Task, seq<Task>> {
    map e | e in deps.Keys + entries && (e in deps || task !in DepsOf(deps, e)) ::
      if e in entries && task !in DepsOf(deps, e) then [task] + DepsOf(deps, e) else DepsOf(deps, e)
  }

  function Added(s: TaskState, task: string, before: Option<seq<Task>>, after: Option<seq<Task>>): TaskState {
    var t := Normal(task);
    var own := AppendNew(DepsOf(s.deps, t), Words(after));
    TaskState(Listed(s.bbtasks, t), s.flagged + {t},
              Prepended(s.deps[t := own], t, Elements(Words(before))))
  }

  function Deleted(s: TaskState, task: string): TaskState {
    var t := Normal(task);
    TaskState(Without(s.bbtasks, t), if t in s.bbtasks then s.flagged - {t} else s.flagged,
              Dropped(s.deps, t, Elements(s.bbtasks)))
  }

  /** What every sequence of edits keeps. */
  ghost predicate Valid(s: TaskState) {
    && NoRepeats(s.bbtasks)
    && s.flagged == Elements(s.bbtasks)
    && (forall e | e in s.deps :: NoRepeats(s.deps[e]))
    && (forall t | t in s.bbtasks :: t in s.deps)
  }

  lemma AddedValid(s: TaskState, task: string, before: Option<seq<Task>>, after: Option<seq<Task>>)
    requires Valid(s)
    ensures Valid(Added(s, task, before, after))
  {
    var t := Normal(task);
    var own := AppendNew(DepsOf(s.deps, t), Words(after));
    ListedNoRepeats(s.bbtasks, t);
    PrependedNoRepeats(s.deps[t := own], t, Elements(Words(before)));
  }

  lemma ListedNoRepeats(list: seq<Task>, t: Task)
    requires NoRepeats(list)
    ensures NoRepeats(Listed(list, t)) && Elements(Listed(list, t)) == Elements(list) + {t}
  {
  }

  lemma PrependedNoRepeats(deps: map<Task, seq<Task>>, t: Task, entries: set<Task>)
    requires t in deps && forall e | e in deps :: NoRepeats(deps[e])
    ensures var r := Prepended(deps, t, entries); deps.Keys <= r.Keys && forall e | e in r :: NoRepeats(r[e])
  {
  }

  lemma PrependedToNone(deps: map<Task, seq<Task>>, t: Task)
    ensures Prepended(deps, t, {}) == deps
  {
  }

  method NormalName(name: string) returns (task: Task)
    ensures task == Normal(name)
  {
    task := name;
    if !("do_" <= task) {
      task := "do_" + task;
    }
  }

  /** A name gets the prefix once: with and without it the same task is meant, and different names stay different. */
  lemma NormalIsPrefixed(name: string, other: string)
    ensures Normal("do_" + name) == "do_" + name && Normal(Normal(name)) == Normal(name)
    ensures !("do_" <= name) ==> Normal(name) == Normal("do_" + name)
    ensures Normal(name) == Normal(other) ==> name == other || name == "do_" + other || other == "do_" + name
  {
    var prefixed := "do_" + name;
    assert prefixed[..3] == "do_";
    var a, b := "do_" + name, "do_" + other;
    assert a[3..] == name && b[3..] == other;
  }

  lemma DeletedValid(s: TaskState, task: string)
    requires Valid(s)
    ensures Valid(Deleted(s, task))
  {
  }

  /** `addtask` makes the task depend on `after` and the entries of `before` depend on it, and changes
      no other dependency. */
  lemma AddedDeps(s: TaskState, task: string, before: Option<seq<Task>>, after: Option<seq<Task>>, e: Task, x: Task)
    ensures x in DepsOf(Added(s, task, before, after).deps, e) <==>
            || x in DepsOf(s.deps, e)
            || (e == Normal(task) && x in Words(after))
            || (x == Normal(task) && e in Words(before))
  {
    var t := Normal(task);
    var own := AppendNew(DepsOf(s.deps, t), Words(after));
    var base := s.deps[t := own];
    assert DepsOf(base, e) == if e == t then own else DepsOf(s.deps, e);
    assert e in Elements(Words(before)) <==> e in Words(before);
  }

  /** Where `x` stands first in a list. */
  ghost predicate FirstAt(list: seq<Task>, x: Task, p: nat) {
    p < |list| && list[p] == x && x !in list[..p]
  }

  /** What an append adds: the entries that are new, each once, in the order in which they come. */
  ghost predicate NewOnesInOrder(list: seq<Task>, entries: seq<Task>, more: seq<Task>) {
    && NoRepeats(more) && (forall x :: x in more <==> x in entries && x !in list)
    && forall i, j, p: nat, q: nat | 0 <= i < j < |more| && FirstAt(entries, more[i], p) &&
       FirstAt(entries, more[j], q) :: p < q
  }

  lemma {:induction false} AppendIsOrdered(list: seq<Task>, entries: seq<Task>) returns (more: seq<Task>)
    ensures AppendNew(list, entries) == list + more && NewOnesInOrder(list, entries, more)
  {
    if entries == [] {
      more := [];
    } else {
      var n := |entries| - 1;
      assert entries == entries[..n] + [entries[n]];
      more := AppendIsOrdered(list, entries[..n]);
      OrderStays(list, entries, n, more);
      if entries[n] !in list + more {
        NewOneIsLast(list, entries, n, more);
        more := more + [entries[n]];
      }
    }
  }

  lemma FirstStays(entries: seq<Task>, n: nat, x: Task, p: nat)
    requires n + 1 == |entries| && x in entries[..n] && FirstAt(entries, x, p)
    ensures p < n && FirstAt(entries[..n], x, p)
  {
    var k :| 0 <= k < n && entries[..n][k] == x;
    assert forall m | 0 <= m < p :: entries[m] == entries[..p][m] != x;
    assert p <= k;
    assert entries[..n][..p] == entries[..p];
  }

  lemma OrderStays(list: seq<Task>, entries: seq<Task>, n: nat, more: seq<Task>)
    requires n + 1 == |entries| && NewOnesInOrder(list, entries[..n], more)
    ensures forall i, j, p: nat, q: nat | 0 <= i < j < |more| && FirstAt(entries, more[i], p) &&
            FirstAt(entries, more[j], q) :: p < q
    ensures entries[n] in list + more ==> NewOnesInOrder(list, entries, more)
  {
    assert entries == entries[..n] + [entries[n]];
    forall i, j, p: nat, q: nat | 0 <= i < j < |more| && FirstAt(entries, more[i], p) &&
      FirstAt(entries, more[j], q) ensures p < q {
      assert more[i] in more && more[j] in more;
      FirstStays(entries, n, more[i], p);
      FirstStays(entries, n, more[j], q);
    }
  }

  lemma NewOneIsLast(list: seq<Task>, entries: seq<Task>, n: nat, more: seq<Task>)
    requires n + 1 == |entries| && NewOnesInOrder(list, entries[..n], more) && entries[n] !in list + more
    ensures NewOnesInOrder(list, entries, more + [entries[n]])
  {
    var all := more + [entries[n]];
    assert entries == entries[..n] + [entries[n]];
    OrderStays(list, entries, n, more);
    forall i, j, p: nat, q: nat | 0 <= i < j < |all| && FirstAt(entries, all[i], p) &&
      FirstAt(entries, all[j], q) ensures p < q {
      assert all[i] == more[i] && more[i] in more;
      FirstStays(entries, n, all[i], p);
      if j == |more| {
        assert forall m | 0 <= m < n :: entries[m] == entries[..n][m] != entries[n];
        assert q == n;
      } else {
        assert all[j] == more[j];
      }
    }
  }

  /** The order of what `addtask` writes: a new task comes last in the list of tasks, what it comes after is appended
      to its own list, and it is put in front of the lists of the entries of `before`. */
  lemma AddedOrder(s: TaskState, task: string, before: Option<seq<Task>>, after: Option<seq<Task>>, e: Task)
    ensures var t, r := Normal(task), Added(s, task, before, after);
            && r.bbtasks == (if t in s.bbtasks then s.bbtasks else s.bbtasks + [t])
            && (e != t ==> DepsOf(r.deps, e) == DepsOf(s.deps, e) || DepsOf(r.deps, e) == [t] + DepsOf(s.deps, e))
            && (e == t ==> exists more ::
                  && NewOnesInOrder(DepsOf(s.deps, t), Words(after), more)
                  && (|| DepsOf(r.deps, t) == DepsOf(s.deps, t) + more
                      || DepsOf(r.deps, t) == [t] + (DepsOf(s.deps, t) + more)))
  {
    var t := Normal(task);
    var more := AppendIsOrdered(DepsOf(s.deps, t), Words(after));
    PrependedAt(s.deps[t := AppendNew(DepsOf(s.deps, t), Words(after))], t, Elements(Words(before)), e);
  }

  lemma PrependedAt(deps: map<Task, seq<Task>>, t: Task, entries: set<Task>, e: Task)
    ensures DepsOf(Prepended(deps, t, entries), e) == DepsOf(deps, e) ||
            DepsOf(Prepended(deps, t, entries), e) == [t] + DepsOf(deps, e)
  {
  }

  /** After `deltask` no listed task depends on the task, and it is neither listed nor flagged. */
  lemma DeletedIsGone(s: TaskState, task: string)
    requires Valid(s)
    ensures var r := Deleted(s, task); var t := Normal(task);
            && t !in r.bbtasks && t !in r.flagged && t !in r.deps
            && (forall e | e in r.bbtasks :: t !in DepsOf(r.deps, e))
            && (forall e | e in r.bbtasks :: forall x | x != t :: x in DepsOf(r.deps, e) <==> x in DepsOf(s.deps, e))
            && (forall x | x != t :: x in r.bbtasks <==> x in s.bbtasks)
  {
  }

  /** A task that is not listed, has no list of its own, and that no listed task depends on. */
  ghost predicate Fresh(s: TaskState, t: Task) {
    && t !in s.bbtasks
    && t !in s.deps
    && (forall e | e in s.bbtasks :: t !in DepsOf(s.deps, e))
  }

  /** Every name in `before` is listed, is the task itself, or already depended on it. */
  ghost predicate BeforeIsKnown(s: TaskState, t: Task, before: Option<seq<Task>>) {
    forall e | e in Words(before) :: e in s.bbtasks || e == t || t in DepsOf(s.deps, e)
  }

  /** `deltask` undoes `addtask` of a fresh task exactly when the names in `before` are known: the list
      that is written for any other name stays behind. */
  lemma DeleteUndoesAdd(s: TaskState, task: string, before: Option<seq<Task>>, after: Option<seq<Task>>)
    requires Valid(s) && Fresh(s, Normal(task))
    ensures Deleted(Added(s, task, before, after), task) == s <==> BeforeIsKnown(s, Normal(task), before)
  {
    var t := Normal(task);
    var a := Added(s, task, before, after);
    var r := Deleted(a, task);
    WithoutLast(s.bbtasks, t);
    var base := s.deps[t := AppendNew(DepsOf(s.deps, t), Words(after))];
    var entries := Elements(Words(before));
    DropPrepended(s.deps, base, t, entries, Elements(a.bbtasks));
    if BeforeIsKnown(s, t, before) {
      assert forall e | e in entries :: e in Words(before);
    } else {
      var e :| e in Words(before) && !(e in s.bbtasks || e == t || t in DepsOf(s.deps, e));
      assert e in entries && e !in Elements(a.bbtasks);
      assert e in r.deps && t in r.deps[e];
      assert t !in DepsOf(s.deps, e);
    }
  }

  /** Dropping the task from the entries that it was put in front of, one name at a time. */
  lemma DropPrepended(deps: map<Task, seq<Task>>, base: map<Task, seq<Task>>, t: Task, entries: set<Task>,
                      listed: set<Task>)
    requires t !in deps && base.Keys == deps.Keys + {t} && (forall e | e in deps :: base[e] == deps[e])
    requires forall e | e in listed && e != t :: e in deps && t !in deps[e]
    ensures var r := Dropped(Prepended(base, t, entries), t, listed);
            && (forall e | e in entries && e != t && e !in listed && t !in DepsOf(deps, e) :: e in r && t in r[e])
            && ((forall e | e in entries :: e in listed || e == t || t in DepsOf(deps, e)) ==> r == deps)
  {
    var p := Prepended(base, t, entries);
    var r := Dropped(p, t, listed);
    forall e | e in entries && e != t && e !in listed && t !in DepsOf(deps, e) ensures e in r && t in r[e] {
      assert e in p && p[e] == [t] + DepsOf(base, e);
    }
    if forall e | e in entries :: e in listed || e == t || t in DepsOf(deps, e) {
      assert r.Keys == deps.Keys;
      forall e | e in deps ensures r[e] == deps[e] {
        assert ([t] + deps[e])[1..] == deps[e];
      }
    }
  }

  lemma {:induction false} WithoutLast(list: seq<Task>, task: Task)
    requires task !in list
    ensures Without(list + [task], task) == list
  {
    var all := list + [task];
    if list == [] {
      assert all[1..] == [];
    } else {
      assert all[1..] == list[1..] + [task] && all[0] == list[0] && list[0] in list;
      WithoutLast(list[1..], task);
      assert list == [list[0]] + list[1..];
    }
  }

  datatype Edit =
    | Add(task: string, before: Option<seq<Task>>, after: Option<seq<Task>>)
    | Delete(task: string)

  function Apply(s: TaskState, edit: Edit): TaskState {
    match edit
    case Add(task, before, after) => Added(s, task, before, after)
    case Delete(task) => Deleted(s, task)
  }

  function Run(s: TaskState, edits: seq<Edit>): TaskState {
    if edits == [] then s else Apply(Run(s, edits[..|edits| - 1]), edits[|edits| - 1])
  }

  /** Every sequence of edits of an empty recipe leaves valid lists, on which the search between two
      tasks never meets a task without a dependency list. */
  lemma {:induction false} RunValid(edits: seq<Edit>)
    ensures var s := Run(EMPTY, edits);
            Valid(s) && forall t | t in s.flagged :: t in s.deps
  {
    if edits != [] {
      var s := Run(EMPTY, edits[..|edits| - 1]);
      RunValid(edits[..|edits| - 1]);
      match edits[|edits| - 1]
      case Add(task, before, after) => AddedValid(s, task, before, after);
      case Delete(task) => DeletedValid(s, task);
    }
  }

  /** A recipe's data store, as far as these two functions see it. */
  class TaskStore {
    var bbtasks: seq<Task>
    var flagged: set<Task>
    var deps: map<Task, seq<Task>>

    ghost function State(): TaskState
      reads this
    {
      TaskState(bbtasks, flagged, deps)
    }

    constructor ()
      ensures State() == EMPTY
    {
      bbtasks, flagged, deps := [], {}, map[];
    }

    /** Puts the task in front of the list of every entry that does not have it. */
    method PrependTo(task: Task, entries: seq<Task>)
      modifies this`deps
      ensures deps == Prepended(old(deps), task, Elements(entries))
    {
      for k := 0 to |entries|
        invariant deps == Prepended(old(deps), task, Elements(entries[..k]))
      {
        var existing := DepsOf(deps, entries[k]);
        PrependStep(old(deps), task, Elements(entries[..k]), entries[k]);
        assert Elements(entries[..k + 1]) == Elements(entries[..k]) + {entries[k]};
        if task !in existing {
          deps := deps[entries[k] := [task] + existing];
        }
      }
      assert entries[..|entries|] == entries;
    }

    method AddTask(name: string, before: Option<seq<Task>>, after: Option<seq<Task>>)
      requires Valid(State())
      modifies this
      ensures State() == Added(old(State()), name, before, after) && Valid(State())
    {
      AddedValid(State(), name, before, after);
      var task := NormalName(name);
      flagged := flagged + {task};
      if task !in bbtasks {
        bbtasks := bbtasks + [task];
      }
      SetDeps(task, before, after);
    }

    /** The task gets what it comes after, and the entries that it comes before get the task. */
    method SetDeps(task: Task, before: Option<seq<Task>>, after: Option<seq<Task>>)
      modifies this`deps
      ensures deps == Prepended(old(deps)[task := AppendNew(DepsOf(old(deps), task), Words(after))], task,
                                Elements(Words(before)))
    {
      var existing := DepsOf(deps, task);
      if after.Some? {
        existing := AppendEntries(existing, after.value);
      }
      deps := deps[task := existing];
      if before.Some? {
        PrependTo(task, before.value);
      } else {
        PrependedToNone(deps, task);
      }
    }

    /** Removes the task from the list of every entry. */
    method DropFrom(task: Task, entries: seq<Task>)
      requires NoRepeats(entries) && task !in deps
      requires forall e | e in deps :: NoRepeats(deps[e])
      modifies this`deps
      ensures deps == Dropped(old(deps), task, Elements(entries))
    {
      assert deps == Dropped(deps, task, {});
      for k := 0 to |entries|
        invariant deps == Dropped(old(deps), task, Elements(entries[..k]))
      {
        var list := DepsOf(deps, entries[k]);
        assert entries[k] !in entries[..k];
        assert Elements(entries[..k + 1]) == Elements(entries[..k]) + {entries[k]};
        if task in list {
          deps := deps[entries[k] := RemoveFirst(list, task)];
        }
      }
      assert entries[..|entries|] == entries;
    }

    method DelTask(name: string)
      requires Valid(State())
      modifies this
      ensures State() == Deleted(old(State()), name) && Valid(State())
    {
      DeletedValid(State(), name);
      var task := NormalName(name);
      if task in bbtasks {
        bbtasks := RemoveFirst(bbtasks, task);
        flagged := flagged - {task};
      }
      deps := map e | e in deps && e != task :: deps[e];
      DropFrom(task, bbtasks);
      DroppedListed(old(deps), task, old(bbtasks), bbtasks);
    }
  }

  lemma DroppedListed(deps: map<Task, seq<Task>>, task: Task, all: seq<Task>, rest: seq<Task>)
    requires rest == Without(all, task)
    ensures Dropped(map e | e in deps && e != task :: deps[e], task, Elements(rest)) ==
            Dropped(deps, task, Elements(all))
  {
    assert forall e | e != task :: e in Elements(rest) <==> e in Elements(all);
  }

  lemma PrependStep(deps: map<Task, seq<Task>>, task: Task, entries: set<Task>, entry: Task)
    ensures var p := Prepended(deps, task, entries);
            Prepended(deps, task, entries + {entry}) ==
            if task in DepsOf(p, entry) then p else p[entry := [task] + DepsOf(p, entry)]
  {
  }

  method AppendEntries(list: seq<Task>, entries: seq<Task>) returns (r: seq<Task>)
    ensures r == AppendNew(list, entries)
  {
    r := list;
    for k := 0 to |entries|
      invariant r == AppendNew(list, entries[..k])
    {
      assert entries[..k + 1][..k] == entries[..k];
      if entries[k] !in r {
        r := r + [entries[k]];
      }
    }
    assert entries[..|entries|] == entries;
  }

  /** `list.remove` takes out the first occurrence; on a list without repeats that is every one. */
  function RemoveFirst(list: seq<Task>, task: Task): (r: seq<Task>)
    requires task in list
    ensures NoRepeats(list) ==> r == Without(list, task)
  {
    if list[0] == task then
      assert NoRepeats(list) ==> task !in list[1..];
      list[1..]
    else
      assert NoRepeats(list) ==> NoRepeats(list[1..]);
      [list[0]] + RemoveFirst(list[1..], task)
  }
}
