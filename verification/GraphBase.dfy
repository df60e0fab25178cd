/** GraphBase: vertices, one arc per (bottom, top) pair, and per-vertex in-arc and out-arc lists. */
module GraphBase {

  datatype Arc = Arc(bottom: string, top: string)

  /** The arc iterators of a vertex; a vertex without an entry has none. */
  type ArcLists = map<string, seq<Arc>>

  function ArcsAt(lists: ArcLists, v: string): seq<Arc> {
    if v in lists then lists[v] else []
  }

  /** An arc is listed at its top, among the in-arcs, and at its bottom, among the out-arcs. */
  datatype Side = InSide | OutSide

  function EndOf(side: Side, a: Arc): string {
    if side == InSide then a.top else a.bottom
  }

  /** push_back unless std::find finds it. */
  function Append<T(==)>(s: seq<T>, x: T): seq<T> {
    if x in s then s else s + [x]
  }

  ghost predicate Unique<T>(s: seq<T>) {
    forall i, j :: 0 <= i < j < |s| ==> s[i] != s[j]
  }

  /** The arc list holds each pair once, between vertices, and the weights belong to its arcs. */
  ghost predicate ArcsValid(vertices: set<string>, arcs: seq<Arc>, weighted: set<Arc>) {
    && Unique(arcs)
    && (forall a :: a in arcs <==> a in weighted)
    && (forall a :: a in arcs ==> a.bottom in vertices && a.top in vertices)
  }

  ghost predicate InListsValid(arcs: seq<Arc>, lists: ArcLists) {
    && (forall v :: v in lists ==> Unique(lists[v]))
    && (forall v, a :: v in lists && a in lists[v] ==> a.top == v && a in arcs)
  }

  ghost predicate OutListsValid(arcs: seq<Arc>, lists: ArcLists) {
    && (forall v :: v in lists ==> Unique(lists[v]))
    && (forall v, a :: v in lists && a in lists[v] ==> a.bottom == v && a in arcs)
  }

  lemma AppendUnique<T>(s: seq<T>, x: T)
    requires Unique(s)
    ensures Unique(Append(s, x))
    ensures forall y :: y in Append(s, x) <==> y in s || y == x
  {
  }

  lemma HeadIsNew<T>(front: seq<T>, rest: seq<T>)
    requires rest != [] && Unique(front + rest)
    ensures rest[0] !in front
  {
    var s := front + rest;
    forall i | 0 <= i < |front| ensures front[i] != rest[0] {
      assert s[i] == front[i] && s[|front|] == rest[0];
    }
  }

  lemma AppendKeepsArcs(vertices: set<string>, arcs: seq<Arc>, weighted: set<Arc>, a: Arc)
    requires ArcsValid(vertices, arcs, weighted) && a.bottom in vertices && a.top in vertices
    ensures ArcsValid(vertices, Append(arcs, a), weighted + {a})
  {
    AppendUnique(arcs, a);
  }

  lemma AppendKeepsInLists(arcs: seq<Arc>, lists: ArcLists, a: Arc)
    requires InListsValid(arcs, lists)
    ensures InListsValid(Append(arcs, a), lists[a.top := Append(ArcsAt(lists, a.top), a)])
  {
    AppendUnique(ArcsAt(lists, a.top), a);
  }

  lemma AppendKeepsOutLists(arcs: seq<Arc>, lists: ArcLists, a: Arc)
    requires OutListsValid(arcs, lists)
    ensures OutListsValid(Append(arcs, a), lists[a.bottom := Append(ArcsAt(lists, a.bottom), a)])
  {
    AppendUnique(ArcsAt(lists, a.bottom), a);
  }

  lemma MoreArcs(arcs: seq<Arc>, a: Arc, ins: ArcLists, outs: ArcLists)
    ensures InListsValid(arcs, ins) ==> InListsValid(Append(arcs, a), ins)
    ensures OutListsValid(arcs, outs) ==> OutListsValid(Append(arcs, a), outs)
  {
  }

  class GraphBase<V, W> {
    var vertices: map<string, V>
    /** _arcs, in the order in which they were first added. */
    var arcs: seq<Arc>
    var weights: map<Arc, W>
    var inArcs: ArcLists
    var outArcs: ArcLists

    ghost predicate Valid()
      reads this
    {
      && ArcsValid(vertices.Keys, arcs, weights.Keys)
      && InListsValid(arcs, inArcs)
      && OutListsValid(arcs, outArcs)
    }

    constructor ()
      ensures Valid() && vertices == map[] && arcs == [] && weights == map[] && inArcs == map[] && outArcs == map[]
    {
      vertices, arcs, weights, inArcs, outArcs := map[], [], map[], map[], map[];
    }

    predicate HasVertex(v: string)
      reads this
    {
      v in vertices
    }

    method ArcsClear()
      requires Valid()
      modifies this`arcs, this`weights, this`inArcs, this`outArcs
      ensures Valid() && arcs == [] && weights == map[] && inArcs == map[] && outArcs == map[]
    {
      arcs, weights, inArcs, outArcs := [], map[], map[], map[];
    }

    lemma ListedArcHasVertex(name: string, a: Arc)
      requires Valid()
      requires (name in inArcs && a in inArcs[name]) || (name in outArcs && a in outArcs[name])
      ensures HasVertex(name)
    {
    }

    lemma NoArcsWithoutVertex(name: string)
      requires Valid() && !HasVertex(name)
      ensures ArcsAt(inArcs, name) == [] && ArcsAt(outArcs, name) == []
    {
      if name in inArcs && inArcs[name] != [] {
        ListedArcHasVertex(name, inArcs[name][0]);
      }
      if name in outArcs && outArcs[name] != [] {
        ListedArcHasVertex(name, outArcs[name][0]);
      }
    }

    /** A vertex that exists already is left as it is. */
    method AddVertex(name: string, vertex: V)
      requires Valid()
      modifies this`vertices, this`inArcs, this`outArcs
      ensures Valid()
      ensures vertices == if name in old(vertices) then old(vertices) else old(vertices)[name := vertex]
      ensures forall v :: ArcsAt(inArcs, v) == ArcsAt(old(inArcs), v)
      ensures forall v :: ArcsAt(outArcs, v) == ArcsAt(old(outArcs), v)
      ensures forall side, v :: ArcsOn(side, v) == old(ArcsOn(side, v))
    {
      if !HasVertex(name) {
        NoArcsWithoutVertex(name);
        vertices := vertices[name := vertex];
        inArcs := inArcs[name := []];
        outArcs := outArcs[name := []];
      }
    }
 
    /** The arc joins the in-list of its top; a pair that is there already keeps its one arc and weight. */
    method AddInArc(a: Arc, w: W)
      requires Valid() && HasVertex(a.bottom) && HasVertex(a.top)
      modifies this`arcs, this`weights, this`inArcs
      ensures Valid()
      ensures arcs == Append(old(arcs), a)
      ensures weights == if a in old(arcs) then old(weights) else old(weights)[a := w]
      ensures inArcs == old(inArcs)[a.top := Append(ArcsAt(old(inArcs), a.top), a)]
    {
      AppendKeepsArcs(vertices.Keys, arcs, weights.Keys, a);
      AppendKeepsInLists(arcs, inArcs, a);
      MoreArcs(arcs, a, inArcs, outArcs);
      hide ArcsValid;
      hide InListsValid;
      hide OutListsValid;
      assert a in arcs ==> weights.Keys + {a} == weights.Keys;
      if a !in arcs {
        arcs := arcs + [a];
        weights := weights[a := w];
      }
      inArcs := inArcs[a.top := Append(ArcsAt(inArcs, a.top), a)];
    }

    method AddOutArc(a: Arc, w: W)
      requires Valid() && HasVertex(a.bottom) && HasVertex(a.top)
      modifies this`arcs, this`weights, this`outArcs
      ensures Valid()
      ensures arcs == Append(old(arcs), a)
      ensures weights == if a in old(arcs) then old(weights) else old(weights)[a := w]
      ensures outArcs == old(outArcs)[a.bottom := Append(ArcsAt(old(outArcs), a.bottom), a)]
    {
      AppendKeepsArcs(vertices.Keys, arcs, weights.Keys, a);
      AppendKeepsOutLists(arcs, outArcs, a);
      MoreArcs(arcs, a, inArcs, outArcs);
      hide ArcsValid;
      hide InListsValid;
      hide OutListsValid;
      assert a in arcs ==> weights.Keys + {a} == weights.Keys;
      if a !in arcs {
        arcs := arcs + [a];
        weights := weights[a := w];
      }
      outArcs := outArcs[a.bottom := Append(ArcsAt(outArcs, a.bottom), a)];
    }

    function ArcsOn(side: Side, v: string): seq<Arc>
      reads this`inArcs, this`outArcs
    {
      ArcsAt(if side == InSide then inArcs else outArcs, v)
    }

    /** add_in_arc or add_out_arc. */
    method AddArc(side: Side, a: Arc, w: W)
      requires Valid() && HasVertex(a.bottom) && HasVertex(a.top)
      modifies this
      ensures Valid() && vertices == old(vertices)
      ensures arcs == Append(old(arcs), a)
      ensures weights == if a in old(arcs) then old(weights) else old(weights)[a := w]
      ensures ArcsOn(side, EndOf(side, a)) == Append(old(ArcsOn(side, EndOf(side, a))), a)
      ensures forall s, v :: s != side || v != EndOf(side, a) ==> ArcsOn(s, v) == old(ArcsOn(s, v))
    {
      hide Valid;
      hide Append;
      if side == InSide {
        AddInArc(a, w);
      } else {
        AddOutArc(a, w);
      }
    }

    lemma ListedArcs(side: Side, v: string)
      requires Valid()
      ensures Unique(ArcsOn(side, v))
      ensures forall a :: a in ArcsOn(side, v) ==> EndOf(side, a) == v && a in arcs && a in weights
    {
    }

    lemma WeighedArcs(a: Arc)
      requires Valid()
      ensures a in weights <==> a in arcs
    {
    }

    /** Every arc is among the in-arcs of its top and among the out-arcs of its bottom. */
    ghost predicate AtBothEnds()
      reads this`inArcs, this`outArcs, this`arcs
    {
      && (forall a :: a in arcs <==> a in ArcsOn(InSide, a.top))
      && (forall a :: a in arcs <==> a in ArcsOn(OutSide, a.bottom))
    }

    // ----- breadth-first scan

    /** A vertex the scan starts from: it is the bottom of an arc and has no in-arc. */
    ghost predicate IsRoot(v: string)
      reads this`inArcs, this`arcs
    {
      ArcsAt(inArcs, v) == [] && exists a :: a in arcs && a.bottom == v
    }

    method GetGraphIns() returns (roots: seq<string>)
      requires Valid()
      ensures forall v :: v in roots <==> IsRoot(v)
    {
      roots := [];
      for i := 0 to |arcs|
        invariant forall v :: v in roots <==> ArcsAt(inArcs, v) == [] && exists a :: a in arcs[..i] && a.bottom == v
      {
        assert arcs[..i + 1] == arcs[..i] + [arcs[i]];
        var bottom := arcs[i].bottom;
        if HasVertex(bottom) && |ArcsAt(inArcs, bottom)| == 0 {
          roots := roots + [bottom];
        }
      }
      assert arcs[..|arcs|] == arcs;
    }

    ghost predicate Step(u: string, v: string)
      reads this`outArcs
    {
      exists a :: a in ArcsAt(outArcs, u) && a.top == v
    }

    ghost predicate IsPath(path: seq<string>)
      reads this`inArcs, this`outArcs, this`arcs
    {
      && path != [] && IsRoot(path[0])
      && forall i :: 0 <= i < |path| - 1 ==> Step(path[i], path[i + 1])
    }

    /** Some path of out-arcs leads from a root to v. */
    ghost predicate Reachable(v: string)
      reads this`inArcs, this`outArcs, this`arcs
    {
      exists path :: IsPath(path) && path[|path| - 1] == v
    }

    lemma StepReaches(u: string, v: string)
      requires Reachable(u) && Step(u, v)
      ensures Reachable(v)
    {
      var path :| IsPath(path) && path[|path| - 1] == u;
      assert IsPath(path + [v]);
    }

    lemma {:induction false} ClosedCovers(seen: seq<string>, path: seq<string>, k: nat)
      requires IsPath(path) && k < |path|
      requires forall v :: IsRoot(v) ==> v in seen
      requires forall u, v :: u in seen && Step(u, v) ==> v in seen
      ensures path[k] in seen
    {
      if k > 0 {
        ClosedCovers(seen, path, k - 1);
        assert Step(path[k - 1], path[k]);
      }
    }

    /** Some path from a root to v has d steps. */
    ghost predicate AtLevel(v: string, d: nat)
      reads this`inArcs, this`outArcs, this`arcs
    {
      exists path :: IsPath(path) && |path| == d + 1 && path[d] == v
    }

    lemma StepIsLevel(u: string, v: string, d: nat)
      requires AtLevel(u, d) && Step(u, v)
      ensures AtLevel(v, d + 1)
    {
      var path :| IsPath(path) && |path| == d + 1 && path[d] == u;
      assert IsPath(path + [v]);
    }

    /** The vertices with their levels, lowest first. */
    ghost predicate Leveled(vs: seq<string>, levels: seq<nat>)
      reads this`inArcs, this`outArcs, this`arcs
    {
      && |vs| == |levels|
      && (forall i :: 0 <= i < |vs| ==> AtLevel(vs[i], levels[i]))
      && (forall i, j :: 0 <= i < j < |vs| ==> levels[i] <= levels[j])
    }

    lemma LeveledNext(vs: seq<string>, levels: seq<nat>, v: string, d: nat)
      requires Leveled(vs, levels) && AtLevel(v, d) && forall i :: 0 <= i < |levels| ==> levels[i] <= d
      ensures Leveled(vs + [v], levels + [d])
    {
      hide AtLevel;
    }

    /** A step leads at most one level up, and roots are at level 0. */
    ghost predicate StepsUp(visited: seq<string>, vs: seq<string>, levels: seq<nat>)
      requires |vs| == |levels| && |visited| <= |vs|
      reads this`inArcs, this`outArcs, this`arcs
    {
      && (forall i, j :: 0 <= i < |visited| && 0 <= j < |vs| && Step(visited[i], vs[j]) ==> levels[j] <= levels[i] + 1)
      && (forall j :: 0 <= j < |vs| && IsRoot(vs[j]) ==> levels[j] == 0)
    }

    /** Who comes earlier is at most as far from the roots. */
    ghost predicate NearestFirst(visited: seq<string>)
      reads this`inArcs, this`outArcs, this`arcs
    {
      forall i, j, q :: 0 <= i < j < |visited| && IsPath(q) && q[|q| - 1] == visited[j] ==> Within(visited[i], |q|)
    }

    /** Some path from a root to v has at most n vertices. */
    ghost predicate Within(v: string, n: nat)
      reads this`inArcs, this`outArcs, this`arcs
    {
      exists p :: IsPath(p) && p[|p| - 1] == v && |p| <= n
    }

    lemma {:induction false} LevelBounds(visited: seq<string>, levels: seq<nat>, path: seq<string>, k: nat, j: nat)
      requires |visited| == |levels| && StepsUp(visited, visited, levels) && IsPath(path)
      requires forall v :: IsRoot(v) ==> v in visited
      requires forall u, v :: u in visited && Step(u, v) ==> v in visited
      requires k < |path| && j < |visited| && visited[j] == path[k]
      ensures levels[j] <= k
    {
      hide Step;
      hide IsRoot;
      if k > 0 {
        ClosedCovers(visited, path, k - 1);
        var i: nat :| i < |visited| && visited[i] == path[k - 1];
        LevelBounds(visited, levels, path, k - 1, i);
        assert Step(visited[i], visited[j]);
      }
    }

    lemma LevelIsWithin(v: string, d: nat, n: nat)
      requires AtLevel(v, d) && d < n
      ensures Within(v, n)
    {
    }

    lemma LevelsAreNearestFirst(visited: seq<string>, levels: seq<nat>)
      requires Leveled(visited, levels) && StepsUp(visited, visited, levels)
      requires forall v :: IsRoot(v) ==> v in visited
      requires forall u, v :: u in visited && Step(u, v) ==> v in visited
      ensures NearestFirst(visited)
    {
      hide Step;
      hide IsRoot;
      hide StepsUp;
      hide AtLevel;
      hide Within;
      forall i, j, q | 0 <= i < j < |visited| && IsPath(q) && q[|q| - 1] == visited[j]
        ensures Within(visited[i], |q|)
      {
        LevelBounds(visited, levels, q, |q| - 1, j);
        LevelIsWithin(visited[i], levels[i], |q|);
      }
    }

    lemma TopOfStep(u: string, a: Arc)
      requires Valid() && a in ArcsAt(outArcs, u)
      ensures Step(u, a.top) && a.top in vertices
    {
    }

    /** Queues the tops of u's out-arcs that were not queued before, one level above u. */
    method QueueTops(u: string, queue: seq<string>, backup: seq<string>, ghost popped: seq<string>,
                     ghost levels: seq<nat>, ghost d: nat)
        returns (queue': seq<string>, backup': seq<string>, ghost levels': seq<nat>)
      requires Valid() && Reachable(u) && AtLevel(u, d) && Unique(backup) && backup == popped + queue
      requires forall v :: v in backup ==> v in vertices && Reachable(v)
      requires Leveled(backup, levels) && forall i :: 0 <= i < |levels| ==> levels[i] <= d + 1
      ensures Unique(backup') && backup' == popped + queue' && backup <= backup'
      ensures forall v :: v in backup' ==> v in vertices && Reachable(v)
      ensures forall v :: Step(u, v) ==> v in backup'
      ensures Leveled(backup', levels') && levels <= levels'
      ensures forall i :: |levels| <= i < |levels'| ==> levels'[i] == d + 1
    {
      hide Reachable;
      hide IsRoot;
      hide AtLevel;
      hide Leveled;
      queue', backup', levels' := queue, backup, levels;
      var its := ArcsAt(outArcs, u);
      for i := 0 to |its|
        invariant Unique(backup') && backup' == popped + queue' && backup <= backup'
        invariant forall v :: v in backup' ==> v in vertices && Reachable(v)
        invariant forall k :: 0 <= k < i ==> its[k].top in backup'
        invariant Leveled(backup', levels') && levels <= levels'
        invariant forall k :: |levels| <= k < |levels'| ==> levels'[k] == d + 1
      {
        var top := its[i].top;
        if top !in backup' {
          TopOfStep(u, its[i]);
          StepReaches(u, top);
          StepIsLevel(u, top, d);
          LeveledNext(backup', levels', top, d + 1);
          queue' := queue' + [top];
          backup' := backup' + [top];
          levels' := levels' + [d + 1];
        }
      }
    }

    /** Queues each root once. */
    method QueueRoots(roots: seq<string>) returns (queue: seq<string>)
      requires Valid() && forall v :: v in roots <==> IsRoot(v)
      ensures Unique(queue) && (queue == [] <==> roots == [])
      ensures forall v :: v in queue ==> v in vertices && Reachable(v) && IsRoot(v)
      ensures forall v :: IsRoot(v) ==> v in queue
    {
      queue := [];
      for i := 0 to |roots|
        invariant Unique(queue) && (queue == [] <==> i == 0)
        invariant forall v :: v in queue ==> v in vertices && Reachable(v) && IsRoot(v)
        invariant forall k :: 0 <= k < i ==> roots[k] in queue
      {
        assert IsRoot(roots[i]) && IsPath([roots[i]]);
        if roots[i] !in queue {
          queue := queue + [roots[i]];
        }
      }
    }

    /** How far the scan is: visited is popped, backup was ever queued. */
    ghost predicate Scanning(visited: seq<string>, backup: seq<string>, levels: seq<nat>)
      reads this
    {
      && |visited| <= |backup| && Leveled(backup, levels) && StepsUp(visited, backup, levels)
      && (forall i :: 0 <= i < |levels| && |visited| < |backup| ==> levels[i] <= levels[|visited|] + 1)
    }

    lemma ScanningStarts(roots: seq<string>) returns (levels: seq<nat>)
      requires forall v :: v in roots ==> IsRoot(v)
      ensures Scanning([], roots, levels)
    {
      levels := seq(|roots|, i => 0);
      forall i | 0 <= i < |roots| ensures AtLevel(roots[i], 0) {
        assert IsPath([roots[i]]);
      }
    }

    lemma ScanningNext(visited: seq<string>, backup: seq<string>, levels: seq<nat>, backup': seq<string>,
                       levels': seq<nat>)
      requires Scanning(visited, backup, levels) && |visited| < |backup| && Unique(backup')
      requires backup <= backup' && levels <= levels' && Leveled(backup', levels')
      requires forall i :: |levels| <= i < |levels'| ==> levels'[i] == levels[|visited|] + 1
      requires forall u, v :: u in visited && Step(u, v) ==> v in backup
      requires forall v :: IsRoot(v) ==> v in backup
      ensures Scanning(visited + [backup[|visited|]], backup', levels')
    {
      hide Step;
      hide IsRoot;
      hide AtLevel;
      var n, all := |visited|, visited + [backup[|visited|]];
      forall i, j | 0 <= i < |all| && 0 <= j < |backup'| && Step(all[i], backup'[j])
        ensures levels'[j] <= levels'[i] + 1
      {
        if i < n {
          assert visited[i] in visited;
          var k: nat :| k < |backup| && backup[k] == backup'[j];
          assert backup'[k] == backup'[j];
        }
      }
      forall j | 0 <= j < |backup'| && IsRoot(backup'[j]) ensures levels'[j] == 0 {
        var k: nat :| k < |backup| && backup[k] == backup'[j];
        assert backup'[k] == backup'[j];
      }
    }

    lemma ScanningHead(visited: seq<string>, backup: seq<string>, levels: seq<nat>)
      requires Scanning(visited, backup, levels) && |visited| < |backup|
      ensures |levels| == |backup| && Leveled(backup, levels) && AtLevel(backup[|visited|], levels[|visited|])
      ensures forall i :: 0 <= i < |levels| ==> levels[i] <= levels[|visited|] + 1
    {
    }

    lemma ScanningEnds(visited: seq<string>, levels: seq<nat>)
      requires Scanning(visited, visited, levels)
      requires forall v :: IsRoot(v) ==> v in visited
      requires forall u, v :: u in visited && Step(u, v) ==> v in visited
      ensures NearestFirst(visited)
    {
      LevelsAreNearestFirst(visited, levels);
    }

    /** Pops the queue until it is empty. */
    method Drain(roots: seq<string>) returns (visited: seq<string>)
      requires Valid() && Unique(roots)
      requires forall v :: v in roots ==> v in vertices && Reachable(v) && IsRoot(v)
      requires forall v :: IsRoot(v) ==> v in roots
      ensures Unique(visited) && (visited == [] <==> roots == [])
      ensures forall v :: v in visited ==> Reachable(v)
      ensures forall v :: IsRoot(v) ==> v in visited
      ensures forall u, v :: u in visited && Step(u, v) ==> v in visited
      ensures NearestFirst(visited)
    {
      hide Step;
      hide Reachable;
      hide IsRoot;
      hide ArcsValid;
      hide InListsValid;
      hide OutListsValid;
      hide Scanning;
      hide Leveled;
      hide AtLevel;
      hide NearestFirst;
      visited := [];
      var queue, backup := roots, roots;
      ghost var left := vertices.Keys;
      ghost var levels := ScanningStarts(roots);
      while |queue| > 0
        invariant Unique(backup) && backup == visited + queue && roots <= backup
        invariant roots == [] ==> backup == []
        invariant forall v :: v in backup ==> v in vertices && Reachable(v)
        invariant forall u, v :: u in visited && Step(u, v) ==> v in backup
        invariant forall v :: v in left <==> v in vertices && v !in visited
        invariant Scanning(visited, backup, levels)
        decreases left
      {
        var u := queue[0];
        assert backup[|visited|] == u;
        ghost var before, lower := backup, levels;
        ScanningHead(visited, backup, levels);
        queue, backup, levels := QueueTops(u, queue, backup, visited, levels, levels[|visited|]);
        ScanningNext(visited, before, lower, backup, levels);
        assert queue[0] == backup[|visited|] == before[|visited|] == u;
        HeadIsNew(visited, queue);
        visited, queue := visited + [u], queue[1..];
        left := left - {u};
      }
      assert visited == backup;
      ScanningEnds(visited, levels);
    }

    lemma ReachableHasRoot(v: string)
      requires Reachable(v)
      ensures exists root :: IsRoot(root)
    {
      var path :| IsPath(path) && path[|path| - 1] == v;
      assert IsRoot(path[0]);
    }

    lemma ReachableHasVertex(v: string)
      requires Valid() && Reachable(v)
      ensures HasVertex(v)
    {
      var path :| IsPath(path) && path[|path| - 1] == v;
      if |path| == 1 {
        assert IsRoot(v);
      } else {
        assert Step(path[|path| - 2], path[|path| - 1]);
        var a :| a in ArcsAt(outArcs, path[|path| - 2]) && a.top == v;
        TopOfStep(path[|path| - 2], a);
      }
    }

    lemma CoversReachable(visited: seq<string>, v: string)
      requires forall v :: IsRoot(v) ==> v in visited
      requires forall u, v :: u in visited && Step(u, v) ==> v in visited
      requires Reachable(v)
      ensures v in visited
    {
      var path :| IsPath(path) && path[|path| - 1] == v;
      ClosedCovers(visited, path, |path| - 1);
    }

    /** Scanner->BFS: the vertices in the order in which they are handed to the functor, nearest to the roots first.
        A graph without roots fails the CHECK. */
    method Bfs() returns (ok: bool, visited: seq<string>)
      requires Valid()
      ensures ok <==> exists v :: IsRoot(v)
      ensures Unique(visited)
      ensures forall v :: v in visited <==> Reachable(v)
      ensures NearestFirst(visited)
    {
      hide NearestFirst;
      hide IsRoot;
      hide Reachable;
      hide Step;
      hide Valid;
      var roots := GetGraphIns();
      ok := |roots| > 0;
      var queue := QueueRoots(roots);
      visited := Drain(queue);
      forall v | Reachable(v) ensures v in visited {
        CoversReachable(visited, v);
      }
      if ok {
        ReachableHasRoot(visited[0]);
      }
    }
  }
}
