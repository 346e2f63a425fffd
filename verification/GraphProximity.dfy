/** Breadth-first proximity of a file to the touched files over the undirected file graph. */
module GraphProximity {
  import opened Text

  datatype Edge = Edge(source: string, target: string)

  predicate Linked(edges: seq<Edge>, a: string, b: string) {
    Edge(a, b) in edges || Edge(b, a) in edges
  }

  /** There is a walk of `n` hops from a touched file to `v`. */
  ghost predicate Walk(edges: seq<Edge>, touched: seq<string>, v: string, n: nat)
    decreases n
  {
    if n == 0 then v in touched else exists u :: Walk(edges, touched, u, n - 1) && Linked(edges, u, v)
  }

  /** `d` is the distance of `v` from the touched files. */
  ghost predicate Distance(edges: seq<Edge>, touched: seq<string>, v: string, d: nat) {
    Walk(edges, touched, v, d) && forall n: nat :: n < d ==> !Walk(edges, touched, v, n)
  }

  predicate OnEdge(edges: seq<Edge>, v: string) {
    exists i :: 0 <= i < |edges| && (edges[i].source == v || edges[i].target == v)
  }

  lemma LinkedOnEdge(edges: seq<Edge>, a: string, b: string)
    requires Linked(edges, a, b)
    ensures OnEdge(edges, a) && OnEdge(edges, b)
  {
    var i :| 0 <= i < |edges| && (edges[i] == Edge(a, b) || edges[i] == Edge(b, a));
  }

  // ---------------------------------------------------------------- the state of the search

  /**
   `dist` gives the depth at which each visited file was found; `done` are those whose neighbours have
   been looked at; the queue holds the others in order of depth.
   */
  ghost predicate Search(edges: seq<Edge>, touched: seq<string>, queue: seq<(string, nat)>, visited: set<string>,
                         done: set<string>, dist: map<string, nat>) {
    dist.Keys == visited && done <= visited &&
    (forall v :: v in visited ==> OnEdge(edges, v) && Walk(edges, touched, v, dist[v])) &&
    (forall v :: v in touched && OnEdge(edges, v) ==> v in visited && dist[v] == 0) &&
    (forall q :: q in queue ==> q.0 in visited && dist[q.0] == q.1) &&
    (forall v :: v in visited && v !in done ==> (v, dist[v]) in queue) &&
    (forall v, w :: v in done && Linked(edges, v, w) ==> w in visited && dist[w] <= dist[v] + 1)
  }

  predicate Sorted(queue: seq<(string, nat)>) {
    forall i, j :: 0 <= i < j < |queue| ==> queue[i].1 <= queue[j].1 <= queue[0].1 + 1
  }

  /** No visited file is more than one hop deeper than the file the search is at. */
  ghost predicate Level(dist: map<string, nat>, d: nat) {
    forall v :: v in dist ==> dist[v] <= d + 1
  }

  ghost predicate Searching(edges: seq<Edge>, touched: seq<string>, queue: seq<(string, nat)>, visited: set<string>,
                            done: set<string>, dist: map<string, nat>) {
    Search(edges, touched, queue, visited, done, dist) && Sorted(queue) && (queue != [] ==> Level(dist, queue[0].1))
  }

  /** A file within `n` hops has been found at that depth or less, unless the queue is not that far yet. */
  lemma {:induction false} Found(edges: seq<Edge>, touched: seq<string>, queue: seq<(string, nat)>, visited: set<string>,
                                 done: set<string>, dist: map<string, nat>, v: string, n: nat)
    requires Search(edges, touched, queue, visited, done, dist) && Walk(edges, touched, v, n) && OnEdge(edges, v)
    ensures (v in visited && dist[v] <= n) || exists q :: q in queue && q.1 < n
    decreases n
  {
    if n > 0 {
      var u :| Walk(edges, touched, u, n - 1) && Linked(edges, u, v);
      LinkedOnEdge(edges, u, v);
      Found(edges, touched, queue, visited, done, dist, u, n - 1);
      if u in visited && dist[u] <= n - 1 && u !in done {
        assert (u, dist[u]) in queue;
      }
    }
  }

  lemma HeadIsNearest(edges: seq<Edge>, touched: seq<string>, queue: seq<(string, nat)>, visited: set<string>,
                      done: set<string>, dist: map<string, nat>)
    requires Searching(edges, touched, queue, visited, done, dist) && queue != []
    ensures Distance(edges, touched, queue[0].0, queue[0].1)
  {
    var (v, d) := queue[0];
    assert queue[0] in queue;
    forall n: nat | n < d
      ensures !Walk(edges, touched, v, n)
    {
      if Walk(edges, touched, v, n) {
        Found(edges, touched, queue, visited, done, dist, v, n);
      }
    }
  }

  lemma NothingFound(edges: seq<Edge>, touched: seq<string>, visited: set<string>, done: set<string>,
                     dist: map<string, nat>, v: string, n: nat)
    requires Search(edges, touched, [], visited, done, dist) && v !in touched && v !in done
    ensures !Walk(edges, touched, v, n)
  {
    if Walk(edges, touched, v, n) {
      var u :| Walk(edges, touched, u, n - 1) && Linked(edges, u, v);
      LinkedOnEdge(edges, u, v);
      Found(edges, touched, [], visited, done, dist, v, n);
    }
  }

  // ---------------------------------------------------------------- the program

  ghost predicate Adjacent(edges: seq<Edge>, adjacency: map<string, seq<string>>) {
    (forall a :: a in adjacency <==> OnEdge(edges, a)) &&
    (forall a, b :: a in adjacency ==> (b in adjacency[a] <==> Linked(edges, a, b)))
  }

  function SetDefaultAppend(m: map<string, seq<string>>, k: string, v: string): map<string, seq<string>> {
    m[k := (if k in m then m[k] else []) + [v]]
  }

  lemma AdjacentStep(edges: seq<Edge>, adjacency: map<string, seq<string>>, e: Edge)
    requires Adjacent(edges, adjacency)
    ensures Adjacent(edges + [e], SetDefaultAppend(SetDefaultAppend(adjacency, e.source, e.target), e.target, e.source))
  {
    var more := edges + [e];
    var after := SetDefaultAppend(SetDefaultAppend(adjacency, e.source, e.target), e.target, e.source);
    forall a
      ensures OnEdge(more, a) <==> OnEdge(edges, a) || a == e.source || a == e.target
    {
      assert more[|edges|] == e;
      if OnEdge(edges, a) {
        var i :| 0 <= i < |edges| && (edges[i].source == a || edges[i].target == a);
        assert more[i] == edges[i];
      }
    }
    forall a, b
      ensures Linked(more, a, b) <==> Linked(edges, a, b) || e == Edge(a, b) || e == Edge(b, a)
      ensures Linked(edges, a, b) ==> OnEdge(edges, a)
    {
      if Linked(edges, a, b) {
        LinkedOnEdge(edges, a, b);
      }
    }
    forall a, b | a in after
      ensures b in after[a] <==> Linked(more, a, b)
    {
    }
  }

  method BuildAdjacency(edges: seq<Edge>) returns (adjacency: map<string, seq<string>>)
    ensures Adjacent(edges, adjacency)
  {
    adjacency := map[];
    var i := 0;
    while i < |edges|
      invariant i <= |edges| && Adjacent(edges[..i], adjacency)
    {
      var edge := edges[i];
      AdjacentStep(edges[..i], adjacency, edge);
      adjacency := SetDefaultAppend(adjacency, edge.source, edge.target);
      adjacency := SetDefaultAppend(adjacency, edge.target, edge.source);
      assert edges[..i + 1] == edges[..i] + [edge];
      i := i + 1;
    }
    assert edges[..|edges|] == edges;
  }

  /** Files at distance d score 1/(1+d); unreachable ones score like distance 5. */
  ghost predicate IsProximity(r: real, file: string, touched: seq<string>, edges: seq<Edge>) {
    (forall d: nat :: Distance(edges, touched, file, d) ==> r == 1.0 / (1.0 + d as real)) &&
    ((forall n: nat :: !Walk(edges, touched, file, n)) ==> r == 1.0 / 6.0)
  }

  lemma UniqueDistance(edges: seq<Edge>, touched: seq<string>, v: string, a: nat, b: nat)
    requires Distance(edges, touched, v, a) && Distance(edges, touched, v, b)
    ensures a == b
  {
  }

  /** The two cases of `IsProximity` cover every file. */
  lemma {:induction false} DistanceExists(edges: seq<Edge>, touched: seq<string>, v: string, n: nat) returns (d: nat)
    requires Walk(edges, touched, v, n)
    ensures d <= n && Distance(edges, touched, v, d)
    decreases n
  {
    if m: nat :| m < n && Walk(edges, touched, v, m) {
      d := DistanceExists(edges, touched, v, m);
    } else {
      d := n;
    }
  }

  /** One neighbour `w` of `current`, at depth `d`: found now if it was not visited. */
  ghost predicate Expanding(edges: seq<Edge>, touched: seq<string>, queue: seq<(string, nat)>, visited: set<string>,
                            done: set<string>, dist: map<string, nat>, current: string, d: nat, seen: seq<string>) {
    Search(edges, touched, [(current, d)] + queue, visited, done, dist) && Sorted([(current, d)] + queue) && Level(dist, d) &&
    forall w :: w in seen ==> w in visited
  }

  lemma WalkStep(edges: seq<Edge>, touched: seq<string>, u: string, v: string, n: nat)
    requires Walk(edges, touched, u, n) && Linked(edges, u, v)
    ensures Walk(edges, touched, v, n + 1)
  {
  }

  lemma Discover(edges: seq<Edge>, touched: seq<string>, queue: seq<(string, nat)>, visited: set<string>,
                 done: set<string>, dist: map<string, nat>, current: string, d: nat, seen: seq<string>, w: string)
    requires Expanding(edges, touched, queue, visited, done, dist, current, d, seen)
    requires Linked(edges, current, w) && w !in visited
    ensures Expanding(edges, touched, queue + [(w, d + 1)], visited + {w}, done, dist[w := d + 1], current, d, seen + [w])
  {
    hide Walk, Linked, OnEdge, Sorted;
    LinkedOnEdge(edges, current, w);
    var before, after := [(current, d)] + queue, [(current, d)] + (queue + [(w, d + 1)]);
    assert after == before + [(w, d + 1)];
    assert before[0] in before;
    WalkStep(edges, touched, current, w, d);
    assert forall q :: q in after <==> q in before || q == (w, d + 1);
    SortedAppend(before, w, d + 1);
  }

  lemma SortedAppend(queue: seq<(string, nat)>, w: string, d: nat)
    requires queue != [] && Sorted(queue) && d == queue[0].1 + 1
    ensures Sorted(queue + [(w, d)])
  {
    var more := queue + [(w, d)];
    forall i, j | 0 <= i < j < |more|
      ensures more[i].1 <= more[j].1 <= more[0].1 + 1
    {
      assert 0 < i ==> queue[0].1 <= queue[i].1 <= queue[0].1 + 1;
    }
  }

  lemma KnownNeighbour(edges: seq<Edge>, touched: seq<string>, queue: seq<(string, nat)>, visited: set<string>,
                       done: set<string>, dist: map<string, nat>, current: string, d: nat, seen: seq<string>, w: string)
    requires Expanding(edges, touched, queue, visited, done, dist, current, d, seen) && w in visited
    ensures Expanding(edges, touched, queue, visited, done, dist, current, d, seen + [w])
  {
    hide Search, Sorted, Level;
  }

  /** Taking the first file from the queue to look at its neighbours. */
  lemma Begin(edges: seq<Edge>, touched: seq<string>, queue: seq<(string, nat)>, visited: set<string>,
              done: set<string>, dist: map<string, nat>)
    requires Searching(edges, touched, queue, visited, done, dist) && queue != []
    ensures Expanding(edges, touched, queue[1..], visited, done, dist, queue[0].0, queue[0].1, [])
  {
    hide Search, Sorted, Level;
    assert [(queue[0].0, queue[0].1)] + queue[1..] == queue;
  }

  lemma InAdjacency(edges: seq<Edge>, touched: seq<string>, queue: seq<(string, nat)>, visited: set<string>,
                    done: set<string>, dist: map<string, nat>, adjacency: map<string, seq<string>>)
    requires Searching(edges, touched, queue, visited, done, dist) && queue != [] && Adjacent(edges, adjacency)
    ensures queue[0].0 in adjacency
  {
    hide Walk, Linked, OnEdge, Sorted, Level;
    assert queue[0] in queue;
  }

  lemma AdjacentLinked(edges: seq<Edge>, adjacency: map<string, seq<string>>, a: string, b: string)
    requires Adjacent(edges, adjacency) && a in adjacency && b in adjacency[a]
    ensures Linked(edges, a, b) && b in adjacency
  {
    LinkedOnEdge(edges, a, b);
  }

  /** When all neighbours of `current` are visited, it is done. */
  lemma Finish(edges: seq<Edge>, touched: seq<string>, queue: seq<(string, nat)>, visited: set<string>,
               done: set<string>, dist: map<string, nat>, current: string, d: nat, adjacency: map<string, seq<string>>)
    requires Adjacent(edges, adjacency) && current in adjacency
    requires Expanding(edges, touched, queue, visited, done, dist, current, d, adjacency[current])
    ensures Searching(edges, touched, queue, visited, done + {current}, dist)
  {
    hide Walk, Linked, OnEdge, Sorted;
    var before := [(current, d)] + queue;
    assert before[0] in before && before[1..] == queue;
    assert forall q :: q in before <==> q in queue || q == (current, d);
    SortedTail(before);
  }

  lemma SortedTail(queue: seq<(string, nat)>)
    requires queue != [] && Sorted(queue)
    ensures Sorted(queue[1..]) && (|queue| > 1 ==> queue[0].1 <= queue[1].1)
  {
    var rest := queue[1..];
    forall i, j | 0 <= i < j < |rest|
      ensures rest[i].1 <= rest[j].1 <= rest[0].1 + 1
    {
      assert queue[0].1 <= queue[1].1 && queue[i + 1].1 <= queue[j + 1].1 <= queue[0].1 + 1;
    }
  }

  lemma FewerLeft(all: set<string>, known: set<string>, visited: set<string>)
    requires known <= visited <= all
    ensures all - visited <= all - known && (visited != known ==> all - visited < all - known)
  {
    assert visited == all - (all - visited);
    assert known == all - (all - known);
  }

  lemma Unreached(edges: seq<Edge>, touched: seq<string>, visited: set<string>, done: set<string>,
                  dist: map<string, nat>, file: string)
    requires Searching(edges, touched, [], visited, done, dist) && file !in touched && file !in done
    ensures IsProximity(1.0 / (1.0 + 5.0), file, touched, edges)
  {
    hide Search, Walk, Sorted, Level;
    forall n: nat
      ensures !Walk(edges, touched, file, n)
    {
      NothingFound(edges, touched, visited, done, dist, file, n);
    }
  }

  method Proximity(file: string, touched: seq<string>, callGraph: Option<seq<Edge>>) returns (r: real)
    ensures file in touched ==> r == 1.0
    ensures file !in touched && (callGraph.None? || touched == []) ==> r == 0.5
    ensures file !in touched && callGraph.Some? && touched != [] ==> IsProximity(r, file, touched, callGraph.value)
  {
    if file in touched {
      return 1.0;
    }
    if callGraph.None? || touched == [] {
      return 0.5;
    }
    hide Walk, Linked, OnEdge, IsProximity, Distance, Search, Searching, Level, Expanding, Adjacent, Sorted;
    var edges := callGraph.value;
    var adjacency := BuildAdjacency(edges);
    var queue, visited := StartQueue(edges, touched, adjacency);
    ghost var dist := map v | v in visited :: 0;
    ghost var done: set<string> := {};
    while queue != []
      invariant Searching(edges, touched, queue, visited, done, dist) && file !in done && visited <= adjacency.Keys
      decreases adjacency.Keys - visited, |queue|
    {
      HeadIsNearest(edges, touched, queue, visited, done, dist);
      InAdjacency(edges, touched, queue, visited, done, dist, adjacency);
      Begin(edges, touched, queue, visited, done, dist);
      var (current, depth) := queue[0];
      queue := queue[1..];
      if current == file {
        r := ProximityOf(file, touched, edges, depth);
        return;
      }
      ghost var known := visited;
      queue, visited, dist := VisitNeighbours(edges, touched, adjacency, current, depth, queue, visited, done, dist);
      FewerLeft(adjacency.Keys, known, visited);
      Finish(edges, touched, queue, visited, done, dist, current, depth, adjacency);
      done := done + {current};
    }
    Unreached(edges, touched, visited, done, dist, file);
    return 1.0 / (1.0 + 5.0);
  }

  /** The inner loop: neighbours not seen before go to the end of the queue. */
  method VisitNeighbours(ghost edges: seq<Edge>, ghost touched: seq<string>, adjacency: map<string, seq<string>>,
                         current: string, depth: nat, before: seq<(string, nat)>, known: set<string>,
                         ghost done: set<string>, ghost dist0: map<string, nat>)
    returns (queue: seq<(string, nat)>, visited: set<string>, ghost dist: map<string, nat>)
    requires Adjacent(edges, adjacency) && current in adjacency && known <= adjacency.Keys
    requires Expanding(edges, touched, before, known, done, dist0, current, depth, [])
    ensures Expanding(edges, touched, queue, visited, done, dist, current, depth, adjacency[current])
    ensures known <= visited <= adjacency.Keys && (visited == known ==> queue == before)
  {
    hide Walk, Linked, Expanding, Adjacent;
    queue, visited, dist := before, known, dist0;
    var neighbours := adjacency[current];
    var k := 0;
    while k < |neighbours|
      invariant k <= |neighbours| && known <= visited <= adjacency.Keys && (visited == known ==> queue == before)
      invariant Expanding(edges, touched, queue, visited, done, dist, current, depth, neighbours[..k])
    {
      var neighbour := neighbours[k];
      AdjacentLinked(edges, adjacency, current, neighbour);
      assert neighbours[..k + 1] == neighbours[..k] + [neighbour];
      if neighbour !in visited {
        Discover(edges, touched, queue, visited, done, dist, current, depth, neighbours[..k], neighbour);
        visited := visited + {neighbour};
        queue := queue + [(neighbour, depth + 1)];
        dist := dist[neighbour := depth + 1];
      } else {
        KnownNeighbour(edges, touched, queue, visited, done, dist, current, depth, neighbours[..k], neighbour);
      }
      k := k + 1;
    }
    assert neighbours[..k] == neighbours;
  }

  /** The score of a file found at its distance. */
  method ProximityOf(file: string, touched: seq<string>, ghost edges: seq<Edge>, depth: nat) returns (r: real)
    requires Distance(edges, touched, file, depth)
    ensures IsProximity(r, file, touched, edges)
  {
    forall d: nat | Distance(edges, touched, file, d)
      ensures d == depth
    {
      UniqueDistance(edges, touched, file, d, depth);
    }
    return 1.0 / (1.0 + depth as real);
  }

  /** `[(f, 0) for f in touched_files if f in adjacency]`, repeats included, and the files in it. */
  method StartQueue(ghost edges: seq<Edge>, touched: seq<string>, adjacency: map<string, seq<string>>)
    returns (queue: seq<(string, nat)>, visited: set<string>)
    requires Adjacent(edges, adjacency)
    ensures Searching(edges, touched, queue, visited, {}, map v | v in visited :: 0) && visited <= adjacency.Keys
  {
    queue, visited := [], {};
    var i := 0;
    while i < |touched|
      invariant i <= |touched|
      invariant forall q :: q in queue ==> q.0 in visited && q.1 == 0
      invariant forall v :: v in visited ==> (v, 0) in queue && v in touched && OnEdge(edges, v)
      invariant forall j :: 0 <= j < i && OnEdge(edges, touched[j]) ==> touched[j] in visited
    {
      if touched[i] in adjacency {
        queue := queue + [(touched[i], 0)];
        visited := visited + {touched[i]};
      }
      i := i + 1;
    }
    assert forall j :: 0 <= j < |queue| ==> queue[j] in queue;
  }
}
