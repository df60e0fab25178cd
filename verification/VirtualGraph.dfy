/** From a graph to its virtual graph. */
module VirtualGraph {
  import opened GraphBase
  import opened Freezing

  /** Arc::name. */
  function EdgeName(a: Arc): string { a.bottom + "_" + a.top }

  datatype VNode = VNode(name: string, opName: string, needWait: bool, lane: int)

  datatype Io = Io(name: string, shared: bool, shareFrom: string, lane: int)

  // ----- reachability

  ghost predicate HasRoot<V, W>(g: GraphBase<V, W>)
    reads g`inArcs, g`arcs
  {
    exists v :: g.IsRoot(v)
  }

  /** No arc leads from an unreachable vertex to a reachable one. */
  ghost predicate Closed<V, W>(g: GraphBase<V, W>)
    reads g
  {
    forall a :: a in g.arcs && g.Reachable(a.top) ==> g.Reachable(a.bottom)
  }

  /** h has the arc lists that g has at its reachable vertices, and no others. */
  ghost predicate SameArcs<V, W, X, Y>(h: GraphBase<X, Y>, g: GraphBase<V, W>)
    reads h, g
  {
    forall side, v :: h.ArcsOn(side, v) == if g.Reachable(v) then g.ArcsOn(side, v) else []
  }

  lemma ArcReaches<V, W>(g: GraphBase<V, W>, a: Arc)
    requires g.AtBothEnds() && a in g.arcs && g.Reachable(a.bottom)
    ensures g.Reachable(a.top)
  {
    assert a in g.ArcsOn(OutSide, a.bottom);
    assert g.Step(a.bottom, a.top);
    g.StepReaches(a.bottom, a.top);
  }

  lemma SameRoots<V, W, X, Y>(h: GraphBase<X, Y>, g: GraphBase<V, W>, v: string)
    requires g.AtBothEnds() && h.AtBothEnds() && SameArcs(h, g)
    ensures h.IsRoot(v) <==> g.IsRoot(v)
  {
    hide GraphBase.Reachable;
    assert h.ArcsOn(InSide, v) == if g.Reachable(v) then g.ArcsOn(InSide, v) else [];
    if h.IsRoot(v) {
      var a :| a in h.arcs && a.bottom == v;
      assert a in h.ArcsOn(OutSide, v);
      assert a in g.arcs && g.Reachable(v);
    }
    if g.IsRoot(v) {
      RootReaches(g, v);
      var a :| a in g.arcs && a.bottom == v;
      assert a in g.ArcsOn(OutSide, v);
      assert a in h.ArcsOn(OutSide, v);
    }
  }

  lemma RootReaches<V, W>(g: GraphBase<V, W>, v: string)
    requires g.IsRoot(v)
    ensures g.Reachable(v)
  {
    assert g.IsPath([v]);
  }

  lemma {:induction false} PathInBoth<V, W, X, Y>(h: GraphBase<X, Y>, g: GraphBase<V, W>, path: seq<string>, k: nat)
    requires g.AtBothEnds() && h.AtBothEnds() && SameArcs(h, g)
    requires h.IsPath(path) || g.IsPath(path)
    requires k < |path|
    ensures g.Reachable(path[k]) && h.Reachable(path[k])
  {
    if k == 0 {
      SameRoots(h, g, path[0]);
      RootReaches(h, path[0]);
      RootReaches(g, path[0]);
    } else {
      PathInBoth(h, g, path, k - 1);
      hide GraphBase.Reachable;
      assert h.ArcsOn(OutSide, path[k - 1]) == g.ArcsOn(OutSide, path[k - 1]);
      assert h.IsPath(path) ==> h.Step(path[k - 1], path[k]);
      assert g.IsPath(path) ==> g.Step(path[k - 1], path[k]);
      g.StepReaches(path[k - 1], path[k]);
      h.StepReaches(path[k - 1], path[k]);
    }
  }

  lemma SameReach<V, W, X, Y>(h: GraphBase<X, Y>, g: GraphBase<V, W>, v: string)
    requires g.AtBothEnds() && h.AtBothEnds() && SameArcs(h, g)
    ensures h.Reachable(v) <==> g.Reachable(v)
  {
    if h.Reachable(v) {
      var path :| h.IsPath(path) && path[|path| - 1] == v;
      PathInBoth(h, g, path, |path| - 1);
    }
    if g.Reachable(v) {
      var path :| g.IsPath(path) && path[|path| - 1] == v;
      PathInBoth(h, g, path, |path| - 1);
    }
  }

  // ----- copying arcs

  /** Every arc of the copy is weighed from its original. */
  ghost predicate Weighed<V, W, X, Y>(dst: GraphBase<X, Y>, src: GraphBase<V, W>, weigh: (Arc, W) -> Y)
    reads dst, src
  {
    forall a :: a in dst.weights ==> a in src.weights && dst.weights[a] == weigh(a, src.weights[a])
  }

  predicate EndsIn(vertices: set<string>, a: Arc) { a.bottom in vertices && a.top in vertices }

  /** One vertex: its arcs are added in order; an arc whose end is missing fails the CHECK. */
  method CopyList<V, W, X, Y>(side: Side, src: GraphBase<V, W>, dst: GraphBase<X, Y>, v: string,
                              weigh: (Arc, W) -> Y) returns (ok: bool)
    requires src.Valid() && dst.Valid() && {src as object} !! {dst as object}
    requires dst.ArcsOn(side, v) == [] && Weighed(dst, src, weigh)
    modifies dst
    ensures dst.Valid() && dst.vertices == old(dst.vertices) && Weighed(dst, src, weigh)
    ensures ok <==> forall a :: a in src.ArcsOn(side, v) ==> EndsIn(dst.vertices.Keys, a)
    ensures ok ==> dst.ArcsOn(side, v) == src.ArcsOn(side, v)
    ensures forall s, u :: s != side || u != v ==> dst.ArcsOn(s, u) == old(dst.ArcsOn(s, u))
    ensures ok ==> forall a :: a in dst.arcs <==> a in old(dst.arcs) || a in src.ArcsOn(side, v)
  {
    hide GraphBase.Valid;
    hide GraphBase.ArcsOn;
    var list := src.ArcsOn(side, v);
    src.ListedArcs(side, v);
    for k := 0 to |list|
      invariant dst.Valid() && dst.vertices == old(dst.vertices) && Weighed(dst, src, weigh)
      invariant forall j :: 0 <= j < k ==> EndsIn(dst.vertices.Keys, list[j])
      invariant dst.ArcsOn(side, v) == list[..k]
      invariant forall s, u :: s != side || u != v ==> dst.ArcsOn(s, u) == old(dst.ArcsOn(s, u))
      invariant forall a :: a in dst.arcs <==> a in old(dst.arcs) || a in list[..k]
    {
      assert list[k] in list && list[..k + 1] == list[..k] + [list[k]];
      if !dst.HasVertex(list[k].bottom) || !dst.HasVertex(list[k].top) {
        assert !EndsIn(dst.vertices.Keys, list[k]);
        return false;
      }
      dst.AddArc(side, list[k], weigh(list[k], src.weights[list[k]]));
    }
    assert list[..|list|] == list;
    return true;
  }

  /** One side of the arcs of the visited vertices. */
  method CopySide<V, W, X, Y>(side: Side, src: GraphBase<V, W>, dst: GraphBase<X, Y>, visited: seq<string>,
                              weigh: (Arc, W) -> Y) returns (ok: bool)
    requires src.Valid() && dst.Valid() && {src as object} !! {dst as object}
    requires Unique(visited) && Weighed(dst, src, weigh) && forall v :: dst.ArcsOn(side, v) == []
    modifies dst
    ensures dst.Valid() && dst.vertices == old(dst.vertices) && Weighed(dst, src, weigh)
    ensures ok <==> forall v, a :: v in visited && a in src.ArcsOn(side, v) ==> EndsIn(dst.vertices.Keys, a)
    ensures ok ==> forall v :: dst.ArcsOn(side, v) == if v in visited then src.ArcsOn(side, v) else []
    ensures forall s, v :: s != side ==> dst.ArcsOn(s, v) == old(dst.ArcsOn(s, v))
    ensures ok ==> forall a :: a in dst.arcs <==>
      a in old(dst.arcs) || (EndOf(side, a) in visited && a in src.ArcsOn(side, EndOf(side, a)))
  {
    hide GraphBase.Valid;
    hide GraphBase.ArcsOn;
    hide Weighed;
    for k := 0 to |visited|
      invariant dst.Valid() && dst.vertices == old(dst.vertices) && Weighed(dst, src, weigh)
      invariant forall v, a :: v in visited[..k] && a in src.ArcsOn(side, v) ==> EndsIn(dst.vertices.Keys, a)
      invariant forall v :: dst.ArcsOn(side, v) == if v in visited[..k] then src.ArcsOn(side, v) else []
      invariant forall s, v :: s != side ==> dst.ArcsOn(s, v) == old(dst.ArcsOn(s, v))
      invariant forall a :: a in dst.arcs <==>
        a in old(dst.arcs) || (EndOf(side, a) in visited[..k] && a in src.ArcsOn(side, EndOf(side, a)))
    {
      assert visited[..k + 1] == visited[..k] + [visited[k]] && visited[k] !in visited[..k];
      src.ListedArcs(side, visited[k]);
      ok := CopyList(side, src, dst, visited[k], weigh);
      if !ok {
        return;
      }
    }
    assert visited[..|visited|] == visited;
    ok := true;
  }

  /** The scan of src that copies in-arcs, then the scan that copies out-arcs. */
  method CopyArcs<V, W, X, Y>(src: GraphBase<V, W>, dst: GraphBase<X, Y>, weigh: (Arc, W) -> Y) returns (ok: bool)
    requires src.Valid() && dst.Valid() && {src as object} !! {dst as object}
    requires dst.arcs == [] && dst.weights == map[] && forall side, v :: dst.ArcsOn(side, v) == []
    modifies dst
    ensures dst.Valid() && dst.vertices == old(dst.vertices)
    ensures ok <==> HasRoot(src) && Landed(src, dst.vertices.Keys)
    ensures ok ==> SameArcs(dst, src) && Weighed(dst, src, weigh)
    ensures ok ==> forall a :: a in dst.arcs <==> Scanned(src, a)
  {
    hide GraphBase.NearestFirst;
    hide GraphBase.Valid;
    hide GraphBase.ArcsOn;
    hide GraphBase.Reachable;
    hide GraphBase.IsRoot;
    var visited: seq<string>;
    ok, visited := src.Bfs();
    if !ok {
      return;
    }
    ok := CopySide(InSide, src, dst, visited, weigh);
    assert ok <==> LandedOn(src, InSide, dst.vertices.Keys);
    if !ok {
      return;
    }
    ok, visited := src.Bfs();
    ok := CopySide(OutSide, src, dst, visited, weigh);
    assert ok <==> LandedOn(src, OutSide, dst.vertices.Keys);
  }

  /** The arc is in a list of some reachable vertex. */
  ghost predicate Scanned<V, W>(g: GraphBase<V, W>, a: Arc)
    reads g
  {
    (g.Reachable(a.top) && a in g.ArcsOn(InSide, a.top)) || (g.Reachable(a.bottom) && a in g.ArcsOn(OutSide, a.bottom))
  }

  lemma ScannedArcs<V, W>(g: GraphBase<V, W>)
    requires g.AtBothEnds()
    ensures forall a :: Scanned(g, a) <==> a in g.arcs && g.Reachable(a.top)
  {
    hide GraphBase.Reachable;
    hide GraphBase.ArcsOn;
    hide GraphBase.AtBothEnds;
    forall a ensures Scanned(g, a) <==> a in g.arcs && g.Reachable(a.top) {
      ArcEnds(g, a);
    }
  }

  /** The arcs at the reachable vertices have both ends among these vertices. */
  ghost predicate Landed<V, W>(src: GraphBase<V, W>, vertices: set<string>)
    reads src
  {
    LandedOn(src, InSide, vertices) && LandedOn(src, OutSide, vertices)
  }

  ghost predicate LandedOn<V, W>(src: GraphBase<V, W>, side: Side, vertices: set<string>)
    reads src
  {
    forall v, a :: src.Reachable(v) && a in src.ArcsOn(side, v) ==> EndsIn(vertices, a)
  }

  lemma ArcEnds<V, W>(g: GraphBase<V, W>, a: Arc)
    requires g.AtBothEnds()
    ensures a in g.arcs <==> a in g.ArcsOn(InSide, a.top)
    ensures a in g.arcs <==> a in g.ArcsOn(OutSide, a.bottom)
    ensures a in g.arcs && g.Reachable(a.bottom) ==> g.Reachable(a.top)
  {
    if a in g.arcs && g.Reachable(a.bottom) {
      ArcReaches(g, a);
    }
  }

  /** With all its vertices' arcs closed, the copy lists its arcs at both ends too. */
  lemma CopyAtBothEnds<V, W, X, Y>(dst: GraphBase<X, Y>, src: GraphBase<V, W>)
    requires src.AtBothEnds() && Closed(src) && SameArcs(dst, src)
    requires forall a :: a in dst.arcs <==> a in src.arcs && src.Reachable(a.top)
    ensures dst.AtBothEnds()
  {
    hide GraphBase.Reachable;
    forall a
      ensures a in dst.arcs <==> a in dst.ArcsOn(InSide, a.top)
      ensures a in dst.arcs <==> a in dst.ArcsOn(OutSide, a.bottom)
    {
      ArcEnds(src, a);
    }
  }

  /** No list of a reachable vertex leads to an unreachable one. */
  ghost predicate Contained<V, W>(g: GraphBase<V, W>)
    reads g
  {
    forall side, v, a :: g.Reachable(v) && a in g.ArcsOn(side, v) ==> g.Reachable(a.bottom) && g.Reachable(a.top)
  }

  lemma LandedIffContained<V, W>(g: GraphBase<V, W>, vertices: set<string>)
    requires forall v :: v in vertices <==> g.Reachable(v)
    ensures Landed(g, vertices) <==> Contained(g)
  {
    hide GraphBase.Reachable;
    hide GraphBase.ArcsOn;
    if Landed(g, vertices) {
      forall side, v, a | g.Reachable(v) && a in g.ArcsOn(side, v) ensures g.Reachable(a.bottom) && g.Reachable(a.top) {
        assert if side == InSide then LandedOn(g, InSide, vertices) else LandedOn(g, OutSide, vertices);
        assert EndsIn(vertices, a);
      }
    }
  }

  /** When every arc is listed at both ends, only arcs from unreachable vertices matter. */
  lemma ContainedIffClosed<V, W>(g: GraphBase<V, W>)
    requires g.Valid() && g.AtBothEnds()
    ensures Contained(g) <==> Closed(g)
  {
    hide GraphBase.Reachable;
    hide GraphBase.AtBothEnds;
    hide GraphBase.Valid;
    if Contained(g) {
      forall a | a in g.arcs && g.Reachable(a.top) ensures g.Reachable(a.bottom) {
        ArcEnds(g, a);
      }
    }
    if Closed(g) {
      forall side, v, a | g.Reachable(v) && a in g.ArcsOn(side, v) ensures g.Reachable(a.bottom) && g.Reachable(a.top) {
        g.ListedArcs(side, v);
        ArcEnds(g, a);
      }
    }
  }

  // ----- get_vgraph

  /** The virtual graph has the reachable vertices and their arcs. */
  ghost predicate Image(vg: GraphBase<VNode, Io>, g: GraphBase<Node, EdgeData>)
    reads vg, g
  {
    && (forall v :: v in vg.vertices <==> g.Reachable(v))
    && (forall v :: v in vg.vertices ==> v in g.vertices && vg.vertices[v].opName == g.vertices[v].opName)
    && SameArcs(vg, g) && (forall a :: a in vg.arcs <==> Scanned(g, a))
  }

  ghost predicate PlainImage(nodes: map<string, VNode>, ios: map<Arc, Io>, before: map<string, Node>) {
    && nodes.Keys <= before.Keys
    && (forall v :: v in nodes ==> nodes[v] == VNode(v, before[v].opName, false, 0))
    && (forall a :: a in ios ==> ios[a] == Io(EdgeName(a), false, "", 0))
  }

  method CopyNodes(g: GraphBase<Node, EdgeData>, visited: seq<string>) returns (vg: GraphBase<VNode, Io>)
    requires forall v :: v in visited ==> v in g.vertices
    ensures fresh(vg) && vg.Valid() && vg.arcs == [] && vg.weights == map[]
    ensures forall side, v :: vg.ArcsOn(side, v) == []
    ensures forall v :: v in vg.vertices <==> v in visited
    ensures forall v :: v in visited ==> vg.vertices[v] == VNode(v, g.vertices[v].opName, false, 0)
  {
    vg := new GraphBase<VNode, Io>();
    for k := 0 to |visited|
      invariant fresh(vg) && vg.Valid() && vg.arcs == [] && vg.weights == map[]
      invariant forall side, v :: vg.ArcsOn(side, v) == []
      invariant forall v :: v in vg.vertices <==> v in visited[..k]
      invariant forall v :: v in visited[..k] ==> vg.vertices[v] == VNode(v, g.vertices[v].opName, false, 0)
    {
      assert visited[..k + 1] == visited[..k] + [visited[k]];
      vg.AddVertex(visited[k], VNode(visited[k], g.vertices[visited[k]].opName, false, 0));
    }
    assert visited[..|visited|] == visited;
  }

  /** The virtual graph is made exactly when some vertex starts the scan and no list of a reachable vertex leads to an
      unreachable one; otherwise a CHECK fails. */
  method GetVGraph(g: GraphBase<Node, EdgeData>) returns (ok: bool, vg: GraphBase<VNode, Io>)
    requires g.Valid()
    ensures fresh(vg) && vg.Valid()
    ensures ok <==> HasRoot(g) && Contained(g)
    ensures ok ==> Image(vg, g) && PlainImage(vg.vertices, vg.weights, g.vertices)
  {
    hide GraphBase.NearestFirst;
    hide GraphBase.Valid;
    hide GraphBase.Reachable;
    hide GraphBase.IsRoot;
    hide GraphBase.ArcsOn;
    hide SameArcs;
    hide Scanned;
    hide Landed;
    hide Contained;
    var visited: seq<string>;
    ok, visited := g.Bfs();
    forall v | v in visited ensures v in g.vertices {
      g.ReachableHasVertex(v);
    }
    vg := CopyNodes(g, visited);
    if !ok {
      return;
    }
    ok := CopyArcs(g, vg, (a: Arc, w: EdgeData) => Io(EdgeName(a), false, "", 0));
    LandedIffContained(g, vg.vertices.Keys);
  }
}
