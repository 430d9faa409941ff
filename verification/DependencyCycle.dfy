/** Dependency cycles among planned tasks (scripts/check_planning.py). */
module DependencyCycle {

  datatype Task = Task(id: string, dependsOn: seq<string>)

  type Graph = map<string, seq<string>>

  // A dependency between two known tasks.
  predicate Edge(g: Graph, a: string, b: string) { a in g && b in g && b in g[a] }

  predicate Walk(g: Graph, p: seq<string>) {
    (forall i :: 0 <= i < |p| ==> p[i] in g) && forall i :: 0 <= i < |p| - 1 ==> Edge(g, p[i], p[i + 1])
  }

  predicate Closed(g: Graph, p: seq<string>) { |p| >= 2 && Walk(g, p) && p[0] == p[|p| - 1] }

  ghost predicate OnCycle(g: Graph, id: string) { exists p :: Closed(g, p) && p[0] == id }

  ghost predicate HasCycle(g: Graph) { exists p :: Closed(g, p) }

  // Every known dependency of a listed task is listed before it.
  predicate Topological(g: Graph, order: seq<string>) {
    forall i :: 0 <= i < |order| ==> order[i] in g && forall d :: d in g[order[i]] && d in g ==> d in order[..i]
  }

  function Elems(s: seq<string>): set<string> { set x | x in s }

  ghost predicate AllOnCycles(g: Graph, ids: seq<string>) { forall x :: x in ids ==> OnCycle(g, x) }

  // by_id: a later task with the same id replaces an earlier one.
  function ById(tasks: seq<Task>): Graph {
    if tasks == [] then map[] else ById(tasks[..|tasks| - 1])[tasks[|tasks| - 1].id := tasks[|tasks| - 1].dependsOn]
  }

  // A task id stands for the dependencies of its last definition.
  lemma {:induction false} LastDefinitionCounts(tasks: seq<Task>, i: nat)
    requires i < |tasks| && forall j :: i < j < |tasks| ==> tasks[j].id != tasks[i].id
    ensures tasks[i].id in ById(tasks) && ById(tasks)[tasks[i].id] == tasks[i].dependsOn
    ensures forall id :: id in ById(tasks) ==> exists j :: 0 <= j < |tasks| && tasks[j].id == id
  {
    KnownTasks(tasks);
    if i < |tasks| - 1 {
      LastDefinitionCounts(tasks[..|tasks| - 1], i);
    }
  }

  lemma {:induction false} KnownTasks(tasks: seq<Task>)
    ensures forall id :: id in ById(tasks) ==> exists j :: 0 <= j < |tasks| && tasks[j].id == id
  {
    if tasks != [] {
      var rest := tasks[..|tasks| - 1];
      KnownTasks(rest);
      forall id | id in ById(tasks) ensures exists j :: 0 <= j < |tasks| && tasks[j].id == id {
        if id == tasks[|tasks| - 1].id {
          assert tasks[|tasks| - 1].id == id;
        } else {
          assert id in ById(rest);
          var j :| 0 <= j < |rest| && rest[j].id == id;
          assert tasks[j].id == id;
        }
      }
    }
  }

  class Search {
    const g: Graph
    var visiting: set<string>
    var visited: set<string>
    var errors: seq<string> // the tasks reported as "dependency cycle at"
    ghost var order: seq<string> // visited, in finishing order

    constructor (g: Graph)
      ensures this.g == g && visiting == {} && visited == {} && errors == [] && order == []
    {
      this.g, visiting, visited, errors, order := g, {}, {}, [], [];
    }

    // path is the call stack.
    ghost predicate Valid(path: seq<string>)
      reads this
    {
      && Walk(g, path) && visiting == Elems(path)
      && AllOnCycles(g, errors)
      && (errors == [] ==> Topological(g, order) && visited == Elems(order))
    }

    method Visit(taskId: string, ghost path: seq<string>)
      requires Valid(path) && (path != [] && taskId in g ==> Edge(g, path[|path| - 1], taskId))
      modifies this
      ensures Valid(path) && visiting == old(visiting)
      ensures old(errors) <= errors && old(visited) <= visited
      ensures errors == [] && taskId in g ==> taskId in visited
      decreases |g.Keys - visiting|
    {
      hide Walk, Edge, Topological, OnCycle, Elems, AllOnCycles;
      StackIsKnown(g, path);
      if taskId in visiting {
        ClosesCycle(g, path, taskId, errors);
        errors := errors + [taskId];
        return;
      }
      if taskId in visited || taskId !in g {
        return;
      }
      var dependencies := g[taskId];
      ghost var stack := path + [taskId];
      Pushed(g, path, taskId);
      SmallerSet(g.Keys, visiting, taskId);
      visiting := visiting + {taskId};
      for i := 0 to |dependencies|
        invariant Valid(stack) && visiting == old(visiting) + {taskId}
        invariant old(errors) <= errors && old(visited) <= visited
        invariant errors == [] ==> forall k :: 0 <= k < i && dependencies[k] in g ==> dependencies[k] in visited
      {
        Visit(dependencies[i], stack);
      }
      Leave(taskId, path);
    }

    // All dependencies are visited: the task is finished.
    method Leave(taskId: string, ghost path: seq<string>)
      requires Valid(path + [taskId]) && Walk(g, path) && taskId in g && taskId !in Elems(path)
      requires visiting == Elems(path) + {taskId}
      requires errors == [] ==> forall k :: 0 <= k < |g[taskId]| && g[taskId][k] in g ==> g[taskId][k] in visited
      modifies this
      ensures Valid(path) && visiting == old(visiting) - {taskId}
      ensures errors == old(errors) && visited == old(visited) + {taskId}
    {
      hide Walk, Edge, Topological, OnCycle, Elems, AllOnCycles;
      Finished(g, order, taskId);
      visiting := visiting - {taskId};
      visited := visited + {taskId};
      order := order + [taskId];
    }
  }

  lemma StackIsKnown(g: Graph, path: seq<string>)
    requires Walk(g, path)
    ensures Elems(path) <= g.Keys && (path == [] <==> Elems(path) == {})
  {
    if path != [] {
      assert path[0] in Elems(path);
    }
  }

  lemma Pushed(g: Graph, path: seq<string>, id: string)
    requires Walk(g, path) && id in g && (path != [] ==> Edge(g, path[|path| - 1], id))
    ensures Walk(g, path + [id]) && Elems(path + [id]) == Elems(path) + {id}
    ensures forall d :: d in g[id] && d in g ==> Edge(g, id, d)
  {
  }

  lemma Finished(g: Graph, order: seq<string>, id: string)
    requires id in g
    ensures Topological(g, order) && (forall k :: 0 <= k < |g[id]| && g[id][k] in g ==> g[id][k] in Elems(order))
            ==> Topological(g, order + [id])
    ensures Elems(order + [id]) == Elems(order) + {id}
  {
    if Topological(g, order) {
      var more := order + [id];
      forall i | 0 <= i < |order|
        ensures more[i] in g && forall d :: d in g[more[i]] && d in g ==> d in more[..i]
      {
        assert more[..i] == order[..i];
      }
      assert more[..|order|] == order;
    }
  }

  lemma SmallerSet(all: set<string>, used: set<string>, x: string)
    requires x in all && x !in used
    ensures |all - (used + {x})| < |all - used|
  {
    assert all - used == (all - (used + {x})) + {x};
  }

  lemma ClosesCycle(g: Graph, path: seq<string>, id: string, errors: seq<string>)
    requires Walk(g, path) && id in Elems(path) && Edge(g, path[|path| - 1], id) && AllOnCycles(g, errors)
    ensures AllOnCycles(g, errors + [id])
  {
    var i :| 0 <= i < |path| && path[i] == id;
    assert Closed(g, path[i..] + [id]);
  }

  // The cycle check of check_records over a whole plan.
  method CycleErrors(tasks: seq<Task>) returns (errors: seq<string>)
    ensures errors != [] <==> HasCycle(ById(tasks))
    ensures AllOnCycles(ById(tasks), errors)
  {
    var byId: Graph := map[];
    var ids: seq<string> := [];
    for i := 0 to |tasks|
      invariant byId == ById(tasks[..i])
      invariant byId.Keys == Elems(ids)
    {
      assert tasks[..i + 1][..i] == tasks[..i];
      if tasks[i].id !in byId {
        ids := ids + [tasks[i].id];
      }
      byId := byId[tasks[i].id := tasks[i].dependsOn];
    }
    assert tasks[..|tasks|] == tasks;
    var s := new Search(byId);
    for i := 0 to |ids|
      invariant s.Valid([])
      invariant s.errors == [] ==> forall k :: 0 <= k < i ==> ids[k] in s.visited
    {
      s.Visit(ids[i], []);
    }
    errors := s.errors;
    if errors == [] {
      forall p ensures !Closed(byId, p) {
        if Closed(byId, p) {
          TopologicalIsAcyclic(byId, s.order, p);
        }
      }
    } else {
      assert OnCycle(byId, errors[0]);
    }
  }

  lemma {:induction false} WalkDescends(g: Graph, order: seq<string>, p: seq<string>, i: nat) returns (j: nat)
    requires Topological(g, order) && Walk(g, p) && p != [] && i < |order| && order[i] == p[0]
    ensures j + |p| - 1 <= i && order[j] == p[|p| - 1]
    decreases |p|
  {
    if |p| == 1 {
      j := i;
    } else {
      assert Edge(g, p[0], p[1]);
      var k :| 0 <= k < i && order[..i][k] == p[1];
      j := WalkDescends(g, order, p[1..], k);
    }
  }

  lemma {:induction false} NoCycleAt(g: Graph, order: seq<string>, p: seq<string>, i: nat)
    requires Topological(g, order) && Closed(g, p) && i < |order|
    ensures order[i] != p[0]
  {
    if order[i] == p[0] {
      var j := WalkDescends(g, order, p, i);
      NoCycleAt(g, order, p, j);
    }
  }

  // A plan that can be listed dependencies first has no cycle.
  lemma TopologicalIsAcyclic(g: Graph, order: seq<string>, p: seq<string>)
    requires Topological(g, order) && g.Keys == Elems(order)
    ensures !Closed(g, p)
  {
    if Closed(g, p) {
      assert p[0] in g.Keys;
      var i :| 0 <= i < |order| && order[i] == p[0];
      NoCycleAt(g, order, p, i);
    }
  }

}
