// The job graph of the release workflow: a three-colour depth-first search that refuses cycles, and a
// worklist that decides whether one job transitively needs another.
module ReleaseGraph {
  type Job = string
  type Graph = map<Job, set<Job>>

  function Needs(g: Graph, j: Job): set<Job> { if j in g then g[j] else {} }

  // Every needed job exists.
  predicate Closed(g: Graph) { forall j, d :: j in g && d in g[j] ==> d in g }

  // A sequence of jobs, each needing the next.
  predicate Path(g: Graph, p: seq<Job>) {
    p != [] && forall i :: 0 <= i < |p| - 1 ==> p[i + 1] in Needs(g, p[i])
  }

  // A path of at least one step from a to b.
  ghost predicate Reaches(g: Graph, a: Job, b: Job) {
    exists p :: Path(g, p) && |p| >= 2 && p[0] == a && p[|p| - 1] == b
  }

  ghost predicate Cyclic(g: Graph) { exists j :: Reaches(g, j, j) }

  // ---------------------------------------------------------------------------
  // Paths
  // ---------------------------------------------------------------------------

  lemma PathExtends(g: Graph, p: seq<Job>, j: Job)
    requires Path(g, p) && j in Needs(g, p[|p| - 1])
    ensures Path(g, p + [j])
  {
    var q := p + [j];
    forall i | 0 <= i < |q| - 1 ensures q[i + 1] in Needs(g, q[i]) {
      if i < |p| - 1 { assert p[i + 1] in Needs(g, p[i]); }
    }
  }

  lemma PathSuffix(g: Graph, p: seq<Job>, k: nat)
    requires Path(g, p) && k < |p|
    ensures Path(g, p[k..])
  {
    var q := p[k..];
    forall i | 0 <= i < |q| - 1 ensures q[i + 1] in Needs(g, q[i]) {
      assert p[k + i + 1] in Needs(g, p[k + i]);
    }
  }

  lemma ReachesStep(g: Graph, a: Job, b: Job, d: Job)
    requires (Reaches(g, a, b) && d in Needs(g, b)) || d in Needs(g, a)
    ensures Reaches(g, a, d)
  {
    if d in Needs(g, a) {
      assert Path(g, [a]);
      PathExtends(g, [a], d);
      assert ([a] + [d])[0] == a;
    } else {
      var p :| Path(g, p) && |p| >= 2 && p[0] == a && p[|p| - 1] == b;
      PathExtends(g, p, d);
      assert (p + [d])[0] == a;
    }
  }

  // ---------------------------------------------------------------------------
  // The depth-first search
  // ---------------------------------------------------------------------------

  // A finishing order: everything a job needs comes before it.
  predicate Finishing(g: Graph, order: seq<Job>) {
    order == []
    || (var front, last := order[..|order| - 1], order[|order| - 1];
        last in g && Visited(g[last], front) && Finishing(g, front))
  }

  predicate Visited(jobs: set<Job>, order: seq<Job>) { forall d :: d in jobs ==> d in order }

  lemma {:induction false} FinishedAt(g: Graph, order: seq<Job>, i: nat)
    requires Finishing(g, order) && i < |order|
    ensures order[i] in g && Visited(g[order[i]], order[..i])
  {
    if i < |order| - 1 {
      FinishedAt(g, order[..|order| - 1], i);
      assert order[..|order| - 1][..i] == order[..i];
    }
  }

  // What holds while the jobs on the chain `open` are being visited.
  ghost predicate Sound(g: Graph, state: map<Job, nat>, order: seq<Job>, open: seq<Job>) {
    && Closed(g)
    && (forall j :: j in state ==> j in g && (state[j] == 1 || state[j] == 2))
    && (forall j :: j in open <==> j in state && state[j] == 1)
    && (forall j :: j in order <==> j in state && state[j] == 2)
    && Finishing(g, order)
    && (open == [] || Path(g, open))
  }

  ghost predicate MetOrLeft(g: Graph, met: set<Job>, left: set<Job>) {
    forall j :: j in g && j !in met ==> j in left
  }

  class CycleCheck {
    const g: Graph
    // 1 while a job's needs are being visited, 2 once they all have been; absent before.
    var state: map<Job, nat>
    // The jobs in state 2, in the order they got there.
    ghost var order: seq<Job>

    constructor (g: Graph)
      ensures this.g == g && state == map[] && order == []
    {
      this.g := g;
      state := map[];
      order := [];
    }

    ghost predicate Valid(open: seq<Job>)
      reads this
    {
      Sound(g, state, order, open)
    }

    // Visits one job below the chain `open` of jobs still being visited; jobs not met so far are `left`.
    method Visit(job: Job, ghost open: seq<Job>, ghost left: set<Job>) returns (ok: bool)
      requires Valid(open) && job in g && (open != [] ==> job in Needs(g, open[|open| - 1]))
      requires MetOrLeft(g, state.Keys, left)
      modifies this
      ensures ok ==> Valid(open) && job in order && old(order) <= order && old(state.Keys) <= state.Keys
      ensures !ok ==> Cyclic(g)
      decreases left
    {
      var s := if job in state then state[job] else 0;
      if s == 1 {
        ClosesCycle(g, open, job);
        return false;
      }
      if s == 2 { return true; }
      ghost var below := open + [job];
      assert job in left && below[|below| - 1] == job && Needs(g, job) == g[job];
      Enter(g, state, order, open, job);
      state := state[job := 1];
      var todo := g[job];
      while todo != {}
        invariant Valid(below) && todo <= g[job] && old(order) <= order && old(state.Keys) <= state.Keys
        invariant MetOrLeft(g, state.Keys, left - {job}) && Visited(g[job] - todo, order)
        decreases todo
      {
        var dependency :| dependency in todo;
        assert dependency in g[job] && dependency in g;
        ghost var before := order;
        ok := Visit(dependency, below, left - {job});
        if !ok { return false; }
        OneMoreVisited(g[job], todo, before, order, dependency);
        todo := todo - {dependency};
      }
      assert g[job] - todo == g[job];
      Leave(g, state, order, open, job);
      state := state[job := 2];
      order := order + [job];
      return true;
    }

    // The whole pass completes exactly when no job transitively needs itself.
    method VisitAll(jobs: seq<Job>) returns (ok: bool)
      requires Valid([]) && (forall j :: j in jobs <==> j in g)
      modifies this
      ensures ok <==> !Cyclic(g)
    {
      for i := 0 to |jobs|
        invariant Valid([]) && forall k :: 0 <= k < i ==> jobs[k] in order
      {
        ok := Visit(jobs[i], [], g.Keys);
        if !ok { return false; }
      }
      if Cyclic(g) { OrderedMeansAcyclic(g, order); }
      return true;
    }
  }

  lemma OneMoreVisited(needs: set<Job>, todo: set<Job>, before: seq<Job>, order: seq<Job>, d: Job)
    requires Visited(needs - todo, before) && before <= order && d in order
    ensures Visited(needs - (todo - {d}), order)
  {
    forall j | j in needs - (todo - {d}) ensures j in order {
      if j != d { assert j in needs - todo && j in before; }
    }
  }

  // Two jobs' worth of bookkeeping: entering a job and leaving it.
  lemma Enter(g: Graph, state: map<Job, nat>, order: seq<Job>, open: seq<Job>, job: Job)
    requires Sound(g, state, order, open) && job in g && job !in state
    requires open != [] ==> job in Needs(g, open[|open| - 1])
    ensures Sound(g, state[job := 1], order, open + [job])
  {
    if open != [] { PathExtends(g, open, job); }
  }

  lemma Leave(g: Graph, state: map<Job, nat>, order: seq<Job>, open: seq<Job>, job: Job)
    requires Sound(g, state, order, open + [job]) && job in g && job !in open && Visited(g[job], order)
    ensures Sound(g, state[job := 2], order + [job], open)
  {
    Finished(g, order, job);
    if open != [] { PathShrinks(g, open, job); }
    forall j ensures j in open + [job] <==> j in open || j == job {}
    forall j ensures j in order + [job] <==> j in order || j == job {}
  }

  lemma PathShrinks(g: Graph, p: seq<Job>, j: Job)
    requires p != [] && Path(g, p + [j])
    ensures Path(g, p)
  {
    var q := p + [j];
    forall i | 0 <= i < |p| - 1 ensures p[i + 1] in Needs(g, p[i]) {
      assert q[i + 1] in Needs(g, q[i]);
    }
  }

  // A job found again on the chain of open jobs closes a cycle.
  lemma ClosesCycle(g: Graph, open: seq<Job>, job: Job)
    requires open != [] && Path(g, open) && job in open && job in Needs(g, open[|open| - 1])
    ensures Cyclic(g)
  {
    var k :| 0 <= k < |open| && open[k] == job;
    PathSuffix(g, open, k);
    PathExtends(g, open[k..], job);
    var p := open[k..] + [job];
    assert p[0] == job && p[|p| - 1] == job;
    assert Reaches(g, job, job);
  }

  lemma Finished(g: Graph, order: seq<Job>, job: Job)
    requires Finishing(g, order) && job in g && Visited(g[job], order)
    ensures Finishing(g, order + [job])
  {
    assert (order + [job])[..|order|] == order;
  }

  // Along a path every job that has finished is followed by jobs that finished earlier.
  lemma {:induction false} PathGoesBack(g: Graph, order: seq<Job>, p: seq<Job>, i: nat) returns (k: nat)
    requires Finishing(g, order) && Path(g, p) && i < |order| && order[i] == p[0]
    ensures k <= i && order[k] == p[|p| - 1] && (|p| >= 2 ==> k < i)
    decreases |p|
  {
    if |p| == 1 {
      k := i;
    } else {
      assert p[1] in Needs(g, p[0]);
      FinishedAt(g, order, i);
      var m :| 0 <= m < i && order[..i][m] == p[1];
      PathSuffix(g, p, 1);
      k := PathGoesBack(g, order, p[1..], m);
    }
  }

  // A complete finishing order rules cycles out.
  lemma OrderedMeansAcyclic(g: Graph, order: seq<Job>)
    requires Finishing(g, order) && forall j :: j in g ==> j in order
    ensures !Cyclic(g)
  {
    if Cyclic(g) {
      var j :| Reaches(g, j, j);
      var p :| Path(g, p) && |p| >= 2 && p[0] == j && p[|p| - 1] == j;
      assert p[1] in Needs(g, p[0]);
      var i := FirstIndex(order, j);
      var k := PathGoesBack(g, order, p, i);
      assert false;
    }
  }

  lemma {:induction false} FirstIndex(order: seq<Job>, j: Job) returns (i: nat)
    requires j in order
    ensures i < |order| && order[i] == j && j !in order[..i]
  {
    if j in order[..|order| - 1] {
      i := FirstIndex(order[..|order| - 1], j);
      assert order[..|order| - 1][..i] == order[..i];
    } else {
      i := |order| - 1;
    }
  }

  // ---------------------------------------------------------------------------
  // The worklist
  // ---------------------------------------------------------------------------

  method ToList(s: set<Job>) returns (list: seq<Job>)
    ensures forall j :: j in list <==> j in s
  {
    list := [];
    var rest := s;
    while rest != {}
      invariant rest <= s && forall j :: j in list <==> j in s && j !in rest
      decreases rest
    {
      var j :| j in rest;
      list := list + [j];
      rest := rest - {j};
    }
  }

  // Every job that is named at all.
  function Named(g: Graph): set<Job> { g.Keys + set j, d | j in g && d in g[j] :: d }

  // True exactly when the prerequisite is reached by a path of at least one step.
  method DependsOn(g: Graph, job: Job, prerequisite: Job) returns (depends: bool)
    ensures depends <==> Reaches(g, job, prerequisite)
  {
    var pending := ToList(Needs(g, job));
    var visited: set<Job> := {};
    forall d | d in pending ensures Reaches(g, job, d) { ReachesStep(g, job, job, d); }
    while pending != []
      invariant visited <= Named(g) && prerequisite !in visited
      invariant forall d :: d in pending ==> Reaches(g, job, d)
      invariant forall d :: d in visited ==> Reaches(g, job, d)
      invariant forall d :: d in Needs(g, job) ==> d in visited || d in pending
      invariant forall v, d :: v in visited && d in Needs(g, v) ==> d in visited || d in pending
      decreases Named(g) - visited, |pending|
    {
      var n := |pending| - 1;
      var dependency := pending[n];
      ghost var was := pending;
      pending := pending[..n];
      assert was == pending + [dependency];
      if dependency == prerequisite { return true; }
      if dependency in visited { continue; }
      NamedOnPath(g, job, dependency);
      visited := visited + {dependency};
      var more := ToList(Needs(g, dependency));
      forall d | d in more ensures Reaches(g, job, d) { ReachesStep(g, job, dependency, d); }
      pending := pending + more;
    }
    if Reaches(g, job, prerequisite) { ClosedSetHoldsAll(g, job, prerequisite, visited); }
    return false;
  }

  lemma NamedOnPath(g: Graph, a: Job, b: Job)
    requires Reaches(g, a, b)
    ensures b in Named(g)
  {
    var p :| Path(g, p) && |p| >= 2 && p[0] == a && p[|p| - 1] == b;
    assert p[|p| - 2 + 1] in Needs(g, p[|p| - 2]);
  }

  lemma ClosedSetHoldsAll(g: Graph, a: Job, b: Job, s: set<Job>)
    requires Reaches(g, a, b) && Needs(g, a) <= s
    requires forall v, d :: v in s && d in Needs(g, v) ==> d in s
    ensures b in s
  {
    var p :| Path(g, p) && |p| >= 2 && p[0] == a && p[|p| - 1] == b;
    AlongPath(g, p, s, |p| - 1);
  }

  lemma {:induction false} AlongPath(g: Graph, p: seq<Job>, s: set<Job>, k: nat)
    requires Path(g, p) && 1 <= k < |p| && Needs(g, p[0]) <= s
    requires forall v, d :: v in s && d in Needs(g, v) ==> d in s
    ensures p[k] in s
  {
    assert p[k - 1 + 1] in Needs(g, p[k - 1]);
    if k > 1 { AlongPath(g, p, s, k - 1); }
  }

  // ---------------------------------------------------------------------------
  // The workflow
  // ---------------------------------------------------------------------------

  const PREPARE_RELEASE: Job := "prepare-release"
  const RELEASE_GATES: Job := "release-gates"

  // The job transitively needs both gates.
  ghost predicate Gated(g: Graph, job: Job) {
    Reaches(g, job, "prepare-release") && Reaches(g, job, "release-gates")
  }

  method VerifyWriter(g: Graph, writer: Job) returns (gated: bool)
    ensures gated <==> Gated(g, writer)
  {
    gated := DependsOn(g, writer, PREPARE_RELEASE);
    if gated { gated := DependsOn(g, writer, RELEASE_GATES); }
  }

  // The graph part of the workflow check accepts exactly the graphs without unknown jobs and without
  // cycles in which every release-writing job transitively needs both gates.
  method VerifyWorkflowGraph(g: Graph, jobs: seq<Job>, writers: seq<Job>) returns (accepted: bool)
    requires forall j :: j in jobs <==> j in g
    ensures accepted <==> Closed(g) && !Cyclic(g) && forall w :: w in writers ==> Gated(g, w)
  {
    if !Closed(g) { return false; }
    var check := new CycleCheck(g);
    var acyclic := check.VisitAll(jobs);
    if !acyclic { return false; }
    for i := 0 to |writers|
      invariant forall k :: 0 <= k < i ==> Gated(g, writers[k])
    {
      var gated := VerifyWriter(g, writers[i]);
      if !gated {
        assert writers[i] in writers;
        return false;
      }
    }
    return true;
  }
}
