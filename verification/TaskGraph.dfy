/** The search for the tasks between two tasks of a recipe: `tasksbetween` in bb/build.py.

  The search walks every chain of dependents from the start task and reports the chains that arrive
  at the end task.  A chain that comes back to one of its own tasks stops the search.
 */
module TaskGraph {
  import opened Sequences

  type Task = string

  /** The listed tasks, in the order the data store yields them, and the `deps` flags that are set. */
  datatype Graph = Graph(tasks: seq<Task>, deps: map<Task, seq<Task>>)

  /** How the search ends: a list, a fatal error, or a test for membership in a flag that is not set. */
  datatype Outcome =
    | Found(tasks: seq<Task>)
    | Circular(task: Task, chain: seq<Task>)
    | MissingDeps(task: Task)

  datatype Signal =
    | Continue
    | CircularAt(task: Task, chain: seq<Task>)
    | MissingDepsOf(task: Task)

  /** `b` is a listed task, other than `a`, that depends on `a`. */
  ghost predicate Edge(g: Graph, a: Task, b: Task) {
    b in g.tasks && b != a && b in g.deps && a in g.deps[b]
  }

  /** A chain of dependents that does not go on after reaching `end`. */
  ghost predicate Walk(g: Graph, end: Task, p: seq<Task>) {
    p != [] && forall i | 0 <= i < |p| - 1 :: p[i] != end && Edge(g, p[i], p[i + 1])
  }

  ghost predicate WalkFrom(g: Graph, end: Task, start: Task, p: seq<Task>) {
    Walk(g, end, p) && p[0] == start
  }

  /** `x` is in `prefix` or on a walk from `task` that arrives at `end`. */
  ghost predicate Reported(g: Graph, end: Task, prefix: seq<Task>, task: Task, x: Task) {
    exists p :: WalkFrom(g, end, task, p) && p[|p| - 1] == end && x in prefix + p
  }

  /** `x` lies on some path from `start` to its first arrival at `end`. */
  ghost predicate OnPath(g: Graph, start: Task, end: Task, x: Task) {
    Reported(g, end, [], start, x)
  }

  /** A closed walk of two tasks or more that avoids `end` is reachable without passing `end`. */
  ghost predicate CycleReachable(g: Graph, start: Task, end: Task) {
    exists w, c :: LeadsIntoCycle(g, start, end, w, c)
  }

  /** The walk `w` leads to the closed walk `c`, which avoids `end`. */
  ghost predicate LeadsIntoCycle(g: Graph, start: Task, end: Task, w: seq<Task>, c: seq<Task>) {
    && WalkFrom(g, end, start, w) && WalkFrom(g, end, w[|w| - 1], c)
    && |c| >= 3 && c[|c| - 1] == c[0] && end !in c
  }

  /** The search only appends to its result inside the loop over the tasks other than the end task. */
  ghost predicate HasOther(g: Graph, end: Task) {
    exists j :: 0 <= j < |g.tasks| && g.tasks[j] != end
  }

  ghost predicate AllSimple(g: Graph, end: Task, prefix: seq<Task>, task: Task) {
    forall p | WalkFrom(g, end, task, p) :: NoRepeats(prefix + p)
  }

  lemma WalkTail(g: Graph, end: Task, p: seq<Task>)
    requires Walk(g, end, p) && |p| >= 2
    ensures WalkFrom(g, end, p[1], p[1..]) && Edge(g, p[0], p[1]) && p[0] != end
  {
    var q := p[1..];
    forall i | 0 <= i < |q| - 1 ensures q[i] != end && Edge(g, q[i], q[i + 1]) {
      assert q[i] == p[i + 1] && q[i + 1] == p[i + 1 + 1];
    }
    assert p[0] != end && Edge(g, p[0], p[0 + 1]);
  }

  lemma WalkCons(g: Graph, end: Task, a: Task, q: seq<Task>)
    requires Walk(g, end, q) && a != end && Edge(g, a, q[0])
    ensures WalkFrom(g, end, a, [a] + q)
  {
    var p := [a] + q;
    forall i | 0 <= i < |p| - 1 ensures p[i] != end && Edge(g, p[i], p[i + 1]) {
      if i > 0 {
        assert p[i] == q[i - 1] && p[i + 1] == q[i - 1 + 1];
      }
    }
  }

  lemma WalkPart(g: Graph, end: Task, p: seq<Task>, i: nat, j: nat)
    requires Walk(g, end, p) && i < j <= |p|
    ensures Walk(g, end, p[i..j])
  {
    var q := p[i..j];
    forall k | 0 <= k < |q| - 1 ensures q[k] != end && Edge(g, q[k], q[k + 1]) {
      assert q[k] == p[i + k] && q[k + 1] == p[i + k + 1];
    }
  }

  lemma WalkAppend(g: Graph, end: Task, w: seq<Task>, c: seq<Task>)
    requires Walk(g, end, w) && Walk(g, end, c) && w[|w| - 1] == c[0] && c[0] != end
    ensures Walk(g, end, w + c[1..])
  {
    var p := w + c[1..];
    forall i | 0 <= i < |p| - 1 ensures p[i] != end && Edge(g, p[i], p[i + 1]) {
      if i < |w| - 1 {
        assert p[i] == w[i] && p[i + 1] == w[i + 1];
      } else {
        var k := i - (|w| - 1);
        assert p[i] == c[k] && p[i + 1] == c[k + 1];
      }
    }
  }

  /** Away from the end task, what a task reports is what its dependents report. */
  lemma ReportedStep(g: Graph, end: Task, prefix: seq<Task>, task: Task, x: Task)
    requires task != end
    ensures Reported(g, end, prefix, task, x) <==>
            exists j :: 0 <= j < |g.tasks| && Edge(g, task, g.tasks[j]) &&
              Reported(g, end, prefix + [task], g.tasks[j], x)
  {
    if Reported(g, end, prefix, task, x) {
      var p :| WalkFrom(g, end, task, p) && p[|p| - 1] == end && x in prefix + p;
      WalkTail(g, end, p);
      var q := p[1..];
      var j :| 0 <= j < |g.tasks| && g.tasks[j] == p[1];
      assert prefix + p == prefix + [task] + q;
      assert WalkFrom(g, end, g.tasks[j], q) && q[|q| - 1] == end;
      assert Reported(g, end, prefix + [task], g.tasks[j], x);
    }
    if j :| 0 <= j < |g.tasks| && Edge(g, task, g.tasks[j]) && Reported(g, end, prefix + [task], g.tasks[j], x) {
      var q :| WalkFrom(g, end, g.tasks[j], q) && q[|q| - 1] == end && x in prefix + [task] + q;
      WalkCons(g, end, task, q);
      var p := [task] + q;
      assert prefix + p == prefix + [task] + q;
      assert WalkFrom(g, end, task, p) && p[|p| - 1] == end;
    }
  }

  lemma ReportedAtEnd(g: Graph, end: Task, prefix: seq<Task>, x: Task)
    ensures Reported(g, end, prefix, end, x) <==> x in prefix + [end]
  {
    assert WalkFrom(g, end, end, [end]);
    if x in prefix + [end] {
      var p := [end];
      assert WalkFrom(g, end, end, p) && p[|p| - 1] == end;
    }
    if Reported(g, end, prefix, end, x) {
      var p :| WalkFrom(g, end, end, p) && p[|p| - 1] == end && x in prefix + p;
      if |p| >= 2 { WalkTail(g, end, p); }
      assert p == [end];
    }
  }

  /** Every walk through a task is simple once every walk through each of its dependents is. */
  lemma SimpleStep(g: Graph, end: Task, prefix: seq<Task>, task: Task)
    requires NoRepeats(prefix + [task])
    requires task == end || forall j | 0 <= j < |g.tasks| && Edge(g, task, g.tasks[j]) ::
               AllSimple(g, end, prefix + [task], g.tasks[j])
    ensures AllSimple(g, end, prefix, task)
  {
    forall p | WalkFrom(g, end, task, p) ensures NoRepeats(prefix + p) {
      if |p| == 1 {
        assert p == [task];
      } else {
        WalkTail(g, end, p);
        var j :| 0 <= j < |g.tasks| && g.tasks[j] == p[1];
        assert WalkFrom(g, end, g.tasks[j], p[1..]);
        assert prefix + p == prefix + [task] + p[1..];
      }
    }
  }

  lemma RepeatingWalk(g: Graph, start: Task, end: Task, p: seq<Task>)
    requires WalkFrom(g, end, start, p) && !NoRepeats(p)
    ensures CycleReachable(g, start, end)
  {
    var i, j :| 0 <= i < j < |p| && p[i] == p[j];
    RepeatGivesCycle(g, start, end, p, i, j);
  }

  /** A walk repeats a task exactly when a cycle is reachable. */
  lemma RepeatIsCycle(g: Graph, start: Task, end: Task)
    ensures CycleReachable(g, start, end) <==> !AllSimple(g, end, [], start)
  {
    if !AllSimple(g, end, [], start) {
      var p :| WalkFrom(g, end, start, p) && !NoRepeats([] + p);
      assert [] + p == p;
      RepeatingWalk(g, start, end, p);
    }
    if CycleReachable(g, start, end) {
      var w, c :| LeadsIntoCycle(g, start, end, w, c);
      CycleGivesRepeat(g, start, end, w, c);
    }
  }

  lemma CycleGivesRepeat(g: Graph, start: Task, end: Task, w: seq<Task>, c: seq<Task>)
    requires LeadsIntoCycle(g, start, end, w, c)
    ensures !AllSimple(g, end, [], start)
  {
    assert c[0] in c;
    WalkAppend(g, end, w, c);
    var p := w + c[1..];
    assert WalkFrom(g, end, start, p);
    assert ([] + p)[|w| - 1] == ([] + p)[|p| - 1];
    assert !NoRepeats([] + p);
  }

  lemma RepeatGivesCycle(g: Graph, start: Task, end: Task, p: seq<Task>, i: nat, j: nat)
    requires WalkFrom(g, end, start, p) && i < j < |p| && p[i] == p[j]
    ensures CycleReachable(g, start, end)
  {
    assert p[i] != end && Edge(g, p[i], p[i + 1]);
    var w, c := p[..i + 1], p[i..j + 1];
    assert w == p[0..i + 1];
    WalkPart(g, end, p, 0, i + 1);
    WalkPart(g, end, p, i, j + 1);
    forall k | 0 <= k < |c| ensures c[k] != end {
      assert c[k] == p[i + k];
    }
    assert c[|c| - 1] == p[j];
    assert LeadsIntoCycle(g, start, end, w, c);
  }

  /** The state that the nested function of the source closes over. */
  class TaskSearch {
    const g: Graph
    var chain: seq<Task>
    var outtasks: seq<Task>

    constructor (g: Graph)
      ensures this.g == g && chain == [] && outtasks == []
    {
      this.g := g;
      chain, outtasks := [], [];
    }

    /** Adds the tasks of the chain that are not in the result yet. */
    method ReportChain()
      requires chain != [] && NoRepeats(outtasks)
      modifies this`outtasks
      ensures NoRepeats(outtasks) && old(outtasks) <= outtasks
      ensures forall x :: x in outtasks <==> x in old(outtasks) || x in chain
      ensures outtasks != [] && old(outtasks) == [] ==> outtasks[0] == chain[0]
    {
      for k := 0 to |chain|
        invariant NoRepeats(outtasks) && old(outtasks) <= outtasks
        invariant forall x :: x in outtasks <==> x in old(outtasks) || x in chain[..k]
        invariant outtasks != [] && old(outtasks) == [] ==> outtasks[0] == chain[0]
        invariant k > 0 ==> outtasks != []
      {
        if chain[k] !in outtasks {
          outtasks := outtasks + [chain[k]];
        }
      }
      assert chain[..|chain|] == chain;
    }

    method FollowChain(task: Task, end: Task, ghost universe: set<Task>) returns (r: Signal)
      requires NoRepeats(chain) && NoRepeats(outtasks)
      requires task in universe && Elements(g.tasks) <= universe && Elements(chain) <= universe
      modifies this
      decreases |universe| - |chain|
      ensures r.Continue? ==>
                chain == old(chain) && NoRepeats(outtasks) && old(outtasks) <= outtasks &&
                AllSimple(g, end, old(chain), task) &&
                (forall x :: x in outtasks <==>
                   x in old(outtasks) || (HasOther(g, end) && Reported(g, end, old(chain), task, x))) &&
                (outtasks != [] && old(outtasks) == [] ==> outtasks[0] == (chain + [task])[0])
      ensures r.CircularAt? ==>
                r.task in r.chain &&
                exists p :: WalkFrom(g, end, task, p) && old(chain) + p == r.chain + [r.task]
      ensures r.MissingDepsOf? ==> r.task in g.tasks && r.task !in g.deps
    {
      if task in chain {
        assert WalkFrom(g, end, task, [task]);
        return CircularAt(task, chain);
      }
      ghost var before := chain;
      NoRepeatsLength(chain + [task], universe);
      chain := chain + [task];
      var k := 0;
      while k < |g.tasks|
        invariant 0 <= k <= |g.tasks|
        invariant chain == before + [task]
        invariant NoRepeats(outtasks) && old(outtasks) <= outtasks
        invariant outtasks != [] && old(outtasks) == [] ==> outtasks[0] == chain[0]
        invariant task == end ==>
                    forall x :: x in outtasks <==>
                                x in old(outtasks) || ((exists j :: 0 <= j < k && g.tasks[j] != end) && x in chain)
        invariant task != end ==>
                    forall j | 0 <= j < k && Edge(g, task, g.tasks[j]) :: AllSimple(g, end, chain, g.tasks[j])
        invariant task != end ==>
                    forall x :: x in outtasks <==>
                                x in old(outtasks) ||
                                (HasOther(g, end) &&
                                 exists j :: 0 <= j < k && Edge(g, task, g.tasks[j]) &&
                                   Reported(g, end, chain, g.tasks[j], x))
      {
        var othertask := g.tasks[k];
        if othertask != task {
          if task == end {
            ReportChain();
          } else {
            if othertask !in g.deps {
              return MissingDepsOf(othertask);
            }
            if task in g.deps[othertask] {
              assert Edge(g, task, othertask);
              r := FollowChain(othertask, end, universe);
              if !r.Continue? {
                if r.CircularAt? {
                  ghost var q :| WalkFrom(g, end, othertask, q) && before + [task] + q == r.chain + [r.task];
                  WalkCons(g, end, task, q);
                  assert before + ([task] + q) == r.chain + [r.task];
                }
                return;
              }
            }
          }
        }
        k := k + 1;
      }
      chain := chain[..|chain| - 1];
      r := Continue;
      assert chain == before;
      SimpleStep(g, end, before, task);
      forall x ensures x in outtasks <==>
        x in old(outtasks) || (HasOther(g, end) && Reported(g, end, before, task, x)) {
        if task == end {
          ReportedAtEnd(g, end, before, x);
        } else {
          ReportedStep(g, end, before, task, x);
        }
      }
    }
  }

  /** The result lists, without repeats, exactly the tasks on a path to the first arrival at the end;
      the fatal error is raised only when a cycle is reachable, and always when one is. */
  method TasksBetween(g: Graph, start: Task, end: Task) returns (r: Outcome)
    ensures r.Found? ==>
              NoRepeats(r.tasks) && !CycleReachable(g, start, end) &&
              (forall x :: x in r.tasks <==> HasOther(g, end) && OnPath(g, start, end, x)) &&
              (r.tasks != [] ==> r.tasks[0] == start)
    ensures r.Circular? ==>
              CycleReachable(g, start, end) && r.task in r.chain && WalkFrom(g, end, start, r.chain + [r.task])
    ensures r.MissingDeps? ==> r.task in g.tasks && r.task !in g.deps
  {
    var search := new TaskSearch(g);
    var signal := search.FollowChain(start, end, Elements(g.tasks) + {start});
    RepeatIsCycle(g, start, end);
    match signal
    case Continue => r := Found(search.outtasks);
    case CircularAt(task, chain) =>
      r := Circular(task, chain);
      assert WalkFrom(g, end, start, chain + [task]) by {
        var p :| WalkFrom(g, end, start, p) && [] + p == chain + [task];
        assert [] + p == p;
      }
      var p := chain + [task];
      var i :| 0 <= i < |chain| && chain[i] == task;
      assert p[i] == p[|p| - 1];
      RepeatGivesCycle(g, start, end, p, i, |p| - 1);
    case MissingDepsOf(task) => r := MissingDeps(task);
  }
}
