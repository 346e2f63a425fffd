/** Depth-first build order over the dependencies between sub-projects, cyclic or not. */
module BuildOrder {
  datatype SubProject = SubProject(name: string, dependsOn: seq<string>)

  predicate Known(projects: seq<SubProject>, name: string) {
    exists i :: 0 <= i < |projects| && projects[i].name == name
  }

  /** `p` is looked up as the first project of that name; one of its dependencies is `d`. */
  ghost predicate Edge(projects: seq<SubProject>, p: string, d: string) {
    exists i: nat :: FirstNamed(projects, p, i) && d in projects[i].dependsOn
  }

  predicate FirstNamed(projects: seq<SubProject>, name: string, i: nat) {
    i < |projects| && projects[i].name == name && forall j :: 0 <= j < i ==> projects[j].name != name
  }

  /** There is a dependency path of `n` edges from `a` to `b`. */
  ghost predicate Path(projects: seq<SubProject>, a: string, b: string, n: nat)
    decreases n
  {
    if n == 0 then a == b else exists c :: Path(projects, a, c, n - 1) && Edge(projects, c, b)
  }

  ghost predicate Reaches(projects: seq<SubProject>, a: string, b: string) {
    exists n: nat :: Path(projects, a, b, n)
  }

  predicate Before(order: seq<string>, a: string, b: string) {
    exists i, j :: 0 <= i < j < |order| && order[i] == a && order[j] == b
  }

  predicate Once(order: seq<string>) {
    forall i, j :: 0 <= i < j < |order| ==> order[i] != order[j]
  }

  /** Every dependency is built first, unless it depends back on the project that names it. */
  ghost predicate DependenciesFirst(projects: seq<SubProject>, order: seq<string>) {
    forall p, d :: p in order && Edge(projects, p, d) && Known(projects, d) ==>
      Before(order, d, p) || Reaches(projects, d, p)
  }

  /** What `_compute_build_order` promises. */
  ghost predicate IsBuildOrder(projects: seq<SubProject>, order: seq<string>) {
    Once(order) && (forall p :: p in order <==> Known(projects, p)) && DependenciesFirst(projects, order)
  }

  ghost predicate Topological(projects: seq<SubProject>, order: seq<string>) {
    forall p, d :: Edge(projects, p, d) && Known(projects, d) ==> Before(order, d, p)
  }

  ghost predicate Acyclic(projects: seq<SubProject>) {
    forall p, d :: Edge(projects, p, d) && Known(projects, d) ==> !Reaches(projects, d, p)
  }

  lemma EdgeKnown(projects: seq<SubProject>, p: string, d: string)
    requires Edge(projects, p, d)
    ensures Known(projects, p)
  {
  }

  /** A build order respects every dependency exactly when the dependencies have no cycle. */
  lemma TopologicalIffAcyclic(projects: seq<SubProject>, order: seq<string>)
    requires IsBuildOrder(projects, order)
    ensures Topological(projects, order) <==> Acyclic(projects)
  {
    hide Edge, Known, Reaches, Before, Once;
    forall p, d | Edge(projects, p, d) && Known(projects, d)
      ensures Topological(projects, order) ==> !Reaches(projects, d, p)
      ensures Acyclic(projects) ==> Before(order, d, p)
    {
      EdgeKnown(projects, p, d);
      if Topological(projects, order) {
        NoWayBack(projects, order, p, d);
      }
    }
  }

  lemma NoWayBack(projects: seq<SubProject>, order: seq<string>, p: string, d: string)
    requires Once(order) && Topological(projects, order) && Edge(projects, p, d) && Known(projects, d)
    ensures !Reaches(projects, d, p)
  {
    assert Before(order, d, p) && d != p && !Before(order, p, d);
    if n: nat :| Path(projects, d, p, n) {
      EdgeKnown(projects, p, d);
      PathBackwards(projects, order, d, p, n);
    }
  }

  /** In a topological order a path leads back to projects built earlier. */
  lemma {:induction false} PathBackwards(projects: seq<SubProject>, order: seq<string>, a: string, b: string, n: nat)
    requires Once(order) && Topological(projects, order) && Path(projects, a, b, n) && Known(projects, b)
    ensures a == b || Before(order, b, a)
    decreases n
  {
    if n > 0 {
      var c :| Path(projects, a, c, n - 1) && Edge(projects, c, b);
      EdgeKnown(projects, c, b);
      PathBackwards(projects, order, a, c, n - 1);
      BeforeTrans(order, b, c, a);
    }
  }

  lemma BeforeTrans(order: seq<string>, a: string, b: string, c: string)
    requires Once(order) && Before(order, a, b)
    ensures Before(order, b, c) ==> Before(order, a, c)
  {
  }

  // ---------------------------------------------------------------- the search

  /** `open` are the projects whose dependencies are being visited. */
  ghost predicate Inv(projects: seq<SubProject>, visited: set<string>, order: seq<string>, open: set<string>) {
    open <= visited && Once(order) && DependenciesFirst(projects, order) &&
    (forall p :: p in order ==> p in visited && p !in open && Known(projects, p)) &&
    (forall p :: p in visited && Known(projects, p) ==> p in order || p in open)
  }

  ghost predicate AllReach(projects: seq<SubProject>, open: set<string>, name: string) {
    forall g :: g in open ==> Reaches(projects, g, name)
  }

  ghost function Universe(projects: seq<SubProject>): set<string> {
    (set p | p in projects :: p.name) + (set p, d | p in projects && d in p.dependsOn :: d)
  }

  lemma ReachesEdge(projects: seq<SubProject>, open: set<string>, name: string, d: string)
    requires AllReach(projects, open, name) && Edge(projects, name, d)
    ensures AllReach(projects, open + {name}, d)
  {
    forall g | g in open + {name}
      ensures Reaches(projects, g, d)
    {
      assert Path(projects, name, name, 0);
      var n: nat :| Path(projects, g, name, n);
      assert Path(projects, g, d, n + 1);
    }
  }

  lemma BeforeGrows(order: seq<string>, name: string, a: string, b: string)
    ensures Before(order, a, b) ==> Before(order + [name], a, b)
    ensures a in order ==> Before(order + [name], a, name)
  {
    var more := order + [name];
    if Before(order, a, b) {
      var i, j :| 0 <= i < j < |order| && order[i] == a && order[j] == b;
      assert more[i] == a && more[j] == b;
    }
    if a in order {
      var i :| 0 <= i < |order| && order[i] == a;
      assert more[i] == a && more[|order|] == name;
    }
  }

  /** A project whose dependencies have all been visited may be appended. */
  lemma Append(projects: seq<SubProject>, visited: set<string>, order: seq<string>, open: set<string>, name: string)
    requires Inv(projects, visited, order, open + {name}) && name !in open && Known(projects, name)
    requires AllReach(projects, open, name)
    requires forall d :: Edge(projects, name, d) ==> d in visited
    ensures Inv(projects, visited, order + [name], open)
  {
    hide Known, Edge, Path;
    var more := order + [name];
    forall p, d | p in more && Edge(projects, p, d) && Known(projects, d)
      ensures Before(more, d, p) || Reaches(projects, d, p)
    {
      BeforeGrows(order, name, d, p);
      assert Path(projects, name, name, 0) by { ReachesSelf(projects, name); }
    }
  }

  lemma ReachesSelf(projects: seq<SubProject>, name: string)
    ensures Path(projects, name, name, 0)
  {
  }

  lemma DependencyInUniverse(projects: seq<SubProject>, i: nat, k: nat)
    requires i < |projects| && k < |projects[i].dependsOn|
    ensures projects[i].dependsOn[k] in Universe(projects)
  {
    assert projects[i] in projects && projects[i].dependsOn[k] in projects[i].dependsOn;
  }

  lemma EdgesOf(projects: seq<SubProject>, name: string, i: nat)
    requires FirstNamed(projects, name, i)
    ensures forall d :: Edge(projects, name, d) ==> d in projects[i].dependsOn
  {
  }

  class Planner {
    const projects: seq<SubProject>
    var visited: set<string>
    var order: seq<string>

    constructor (projects: seq<SubProject>)
      ensures this.projects == projects && visited == {} && order == []
    {
      this.projects := projects;
      visited, order := {}, [];
    }

    method Visit(name: string, ghost open: set<string>)
      requires name in Universe(projects) && AllReach(projects, open, name)
      requires Inv(projects, visited, order, open)
      modifies this
      ensures Inv(projects, visited, order, open)
      ensures old(visited) + {name} <= visited && old(order) <= order
      decreases Universe(projects) - visited, 0
    {
      if name in visited {
        return;
      }
      visited := visited + {name};
      var i := 0;
      while i < |projects|
        invariant i <= |projects| && forall j :: 0 <= j < i ==> projects[j].name != name
        invariant visited == old(visited) + {name} && order == old(order)
      {
        if projects[i].name == name {
          VisitDependencies(i, name, open);
          order := order + [name];
          return;
        }
        i := i + 1;
      }
    }

    /** The loop of `visit` over the dependencies of the project found. */
    method VisitDependencies(i: nat, name: string, ghost open: set<string>)
      requires FirstNamed(projects, name, i) && name in visited && name !in open && name !in order
      requires AllReach(projects, open, name) && Inv(projects, visited, order, open + {name})
      modifies this
      ensures Inv(projects, visited, order + [name], open)
      ensures old(visited) <= visited && old(order) <= order
      decreases Universe(projects) - visited, 1
    {
      hide Inv, AllReach, Universe;
      var k := 0;
      while k < |projects[i].dependsOn|
        invariant k <= |projects[i].dependsOn| && Inv(projects, visited, order, open + {name})
        invariant old(visited) <= visited && old(order) <= order
        invariant forall j :: 0 <= j < k ==> projects[i].dependsOn[j] in visited
      {
        var dep := projects[i].dependsOn[k];
        DependencyInUniverse(projects, i, k);
        assert Edge(projects, name, dep);
        ReachesEdge(projects, open, name, dep);
        Visit(dep, open + {name});
        k := k + 1;
      }
      EdgesOf(projects, name, i);
      Append(projects, visited, order, open, name);
    }

    /** `_compute_build_order`: all projects in turn. */
    method Compute()
      requires visited == {} && order == []
      modifies this
      ensures IsBuildOrder(projects, order)
    {
      hide AllReach;
      var i := 0;
      while i < |projects|
        invariant i <= |projects| && Inv(projects, visited, order, {})
        invariant forall j :: 0 <= j < i ==> projects[j].name in visited
      {
        Visit(projects[i].name, {});
        i := i + 1;
      }
    }
  }
}
