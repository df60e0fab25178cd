/** From a virtual graph back to the graph, without fusion in between. */
module VirtualGraphBack {
  import opened GraphBase
  import opened Nets
  import opened FreezeArcs
  import opened FreezeMeaning
  import opened Freezing
  import opened VirtualGraph

  // ----- get_scale_map and get_layout_map

  /** Each name is mapped to what some arc of this name holds; from tells which. */
  ghost predicate Gathered<T(!new)>(side: Side, g: GraphBase<Node, EdgeData>, pick: EdgeData -> T, m: map<string, T>,
                                    from: map<string, Arc>)
    reads g
  {
    && m.Keys == from.Keys
    && forall n :: n in m ==>
         && EdgeName(from[n]) == n && from[n] in g.weights && m[n] == pick(g.weights[from[n]])
         && g.Reachable(EndOf(side, from[n]))
  }

  ghost predicate Named<T>(side: Side, g: GraphBase<Node, EdgeData>, m: map<string, T>, v: string)
    reads g
  {
    forall a :: a in g.ArcsOn(side, v) ==> EdgeName(a) in m
  }

  /** The arcs in the order in which a scan of these vertices comes across them. */
  ghost function ScanOf<V, W>(side: Side, g: GraphBase<V, W>, visited: seq<string>): seq<Arc>
    reads g
  {
    if visited == [] then []
    else ScanOf(side, g, visited[..|visited| - 1]) + g.ArcsOn(side, visited[|visited| - 1])
  }

  /** Of the arcs of this name, a is the last. */
  ghost predicate IsLast(arcs: seq<Arc>, n: string, a: Arc) {
    exists k :: 0 <= k < |arcs| && arcs[k] == a && forall j :: k < j < |arcs| ==> EdgeName(arcs[j]) != n
  }

  /** Every name is mapped to the last arc of this name. */
  ghost predicate LastWins(arcs: seq<Arc>, from: map<string, Arc>) {
    forall n :: n in from ==> IsLast(arcs, n, from[n])
  }

  lemma LastWinsNext(arcs: seq<Arc>, from: map<string, Arc>, a: Arc)
    requires LastWins(arcs, from)
    ensures LastWins(arcs + [a], from[EdgeName(a) := a])
  {
    var from', arcs' := from[EdgeName(a) := a], arcs + [a];
    hide EdgeName;
    forall n | n in from' ensures IsLast(arcs', n, from'[n]) {
      if n == EdgeName(a) {
        assert arcs'[|arcs|] == from'[n];
      } else {
        assert IsLast(arcs, n, from[n]);
        var k :| 0 <= k < |arcs| && arcs[k] == from[n] && forall j :: k < j < |arcs| ==> EdgeName(arcs[j]) != n;
        assert arcs'[k] == from'[n];
      }
    }
  }

  method GatherList<T(!new)>(side: Side, g: GraphBase<Node, EdgeData>, pick: EdgeData -> T, v: string,
                             m: map<string, T>, ghost from: map<string, Arc>, ghost arcs: seq<Arc>)
      returns (m': map<string, T>, ghost from': map<string, Arc>)
    requires g.Valid() && g.Reachable(v) && Gathered(side, g, pick, m, from) && LastWins(arcs, from)
    ensures Gathered(side, g, pick, m', from') && Named(side, g, m', v) && m.Keys <= m'.Keys
    ensures LastWins(arcs + g.ArcsOn(side, v), from')
  {
    hide LastWins;
    hide GraphBase.Valid;
    hide GraphBase.ArcsOn;
    hide GraphBase.Reachable;
    hide EdgeName;
    m', from' := m, from;
    var list := g.ArcsOn(side, v);
    g.ListedArcs(side, v);
    assert arcs + list[..0] == arcs;
    for k := 0 to |list|
      invariant Gathered(side, g, pick, m', from') && m.Keys <= m'.Keys
      invariant LastWins(arcs + list[..k], from')
      invariant forall j :: 0 <= j < k ==> EdgeName(list[j]) in m'
    {
      assert list[k] in list;
      m' := m'[EdgeName(list[k]) := pick(g.weights[list[k]])];
      LastWinsNext(arcs + list[..k], from', list[k]);
      assert arcs + list[..k + 1] == arcs + list[..k] + [list[k]];
      from' := from'[EdgeName(list[k]) := list[k]];
    }
    assert list[..|list|] == list;
  }

  /** A map from edge names to scales or layouts: a later edge of the same name overwrites an earlier one. */
  method Gather<T(!new)>(side: Side, g: GraphBase<Node, EdgeData>, pick: EdgeData -> T)
      returns (ok: bool, m: map<string, T>, ghost from: map<string, Arc>, ghost visited: seq<string>)
    requires g.Valid()
    ensures ok <==> HasRoot(g)
    ensures Gathered(side, g, pick, m, from) && forall v :: g.Reachable(v) ==> Named(side, g, m, v)
    ensures Unique(visited) && g.NearestFirst(visited) && forall v :: v in visited <==> g.Reachable(v)
    ensures LastWins(ScanOf(side, g, visited), from)
  {
    hide GraphBase.NearestFirst;
    hide GraphBase.Valid;
    hide GraphBase.Reachable;
    hide GraphBase.IsRoot;
    hide GraphBase.ArcsOn;
    hide Named;
    hide IsLast;
    var order: seq<string>;
    ok, order := g.Bfs();
    m, from, visited := map[], map[], order;
    assert order[..0] == [];
    for k := 0 to |order|
      invariant Gathered(side, g, pick, m, from)
      invariant forall j :: 0 <= j < k ==> Named(side, g, m, order[j])
      invariant LastWins(ScanOf(side, g, order[..k]), from)
    {
      ghost var before := m;
      m, from := GatherList(side, g, pick, order[k], m, from, ScanOf(side, g, order[..k]));
      assert order[..k + 1][..k] == order[..k];
      forall j | 0 <= j < k ensures Named(side, g, m, order[j]) {
        NamedGrows(side, g, before, m, order[j]);
      }
    }
    assert order[..|order|] == order;
  }

  lemma NamedGrows<T>(side: Side, g: GraphBase<Node, EdgeData>, m: map<string, T>, m': map<string, T>, v: string)
    requires Named(side, g, m, v) && m.Keys <= m'.Keys
    ensures Named(side, g, m', v)
  {
  }

  // ----- restore_from_vgraph

  /** All vertices of the virtual graph can be reached, and it has one to start from. */
  ghost predicate Scannable<V, W>(vg: GraphBase<V, W>)
    reads vg
  {
    vg.AtBothEnds() && HasRoot(vg) && forall v :: v in vg.vertices <==> vg.Reachable(v)
  }

  /** map_node_to_node_ptr, for the one node it finds. */
  method MarkNode(g: GraphBase<Node, EdgeData>, v: string, node: VNode) returns (ok: bool)
    requires g.Valid()
    modifies g`vertices
    ensures g.Valid() && g.vertices.Keys == old(g.vertices.Keys) && ok == HasRoot(g)
    ensures g.vertices == if g.Reachable(v) then old(g.vertices)[v := Marked(node)] else old(g.vertices)
  {
    hide GraphBase.NearestFirst;
    hide GraphBase.Reachable;
    hide GraphBase.IsRoot;
    hide ArcsValid;
    hide InListsValid;
    hide OutListsValid;
    var visited: seq<string>;
    ok, visited := g.Bfs();
    if v in visited {
      g.ReachableHasVertex(v);
      assert g.vertices[v := Marked(node)].Keys == g.vertices.Keys;
      g.vertices := g.vertices[v := Marked(node)];
    }
  }

  lemma RootIsVisited<V, W>(g: GraphBase<V, W>, visited: seq<string>)
    requires HasRoot(g) && forall v :: g.Reachable(v) ==> v in visited
    ensures visited != []
  {
    var root :| g.IsRoot(root);
    RootReaches(g, root);
  }

  function Marked(node: VNode): Node { Node(node.opName, node.needWait, node.lane) }

  /** Every vertex that both scans reach gets the op name and marks of its namesake. */
  method MarkNodes(g: GraphBase<Node, EdgeData>, vg: GraphBase<VNode, Io>) returns (ok: bool)
    requires g.Valid() && vg.Valid() && {g as object} !! {vg as object}
    modifies g`vertices
    ensures g.Valid() && g.vertices.Keys == old(g.vertices.Keys)
    ensures ok <==> HasRoot(vg) && HasRoot(g)
    ensures ok ==> forall v :: v in g.vertices && v in vg.vertices && vg.Reachable(v) && g.Reachable(v) ==>
              && g.vertices[v].opName == vg.vertices[v].opName
              && g.vertices[v].needWait == vg.vertices[v].needWait && g.vertices[v].lane == vg.vertices[v].lane
    ensures ok ==> forall v :: v in g.vertices && !(v in vg.vertices && vg.Reachable(v) && g.Reachable(v)) ==>
              g.vertices[v] == old(g.vertices[v])
  {
    hide GraphBase.NearestFirst;
    hide GraphBase.Valid;
    hide GraphBase.Reachable;
    hide GraphBase.IsRoot;
    hide Marked;
    var visited: seq<string>;
    ok, visited := vg.Bfs();
    assert ok <==> HasRoot(vg);
    forall v | v in visited ensures v in vg.vertices {
      vg.ReachableHasVertex(v);
    }
    if ok {
      RootIsVisited(vg, visited);
    }
    for k := 0 to |visited|
      invariant g.Valid() && g.vertices.Keys == old(g.vertices.Keys) && (k > 0 ==> HasRoot(g))
      invariant forall v :: v in g.vertices ==>
        g.vertices[v] == if v in visited[..k] && g.Reachable(v) then Marked(vg.vertices[v]) else old(g.vertices[v])
    {
      assert visited[..k + 1] == visited[..k] + [visited[k]] && visited[k] in visited;
      var found := MarkNode(g, visited[k], vg.vertices[visited[k]]);
      if !found {
        return false;
      }
    }
    assert visited[..|visited|] == visited;
    MarkedKeepsMarks();
  }

  lemma MarkedKeepsMarks()
    ensures forall node :: Marked(node).opName == node.opName && Marked(node).needWait == node.needWait &&
                           Marked(node).lane == node.lane
  {
  }

  function Looked<T>(m: map<string, T>, a: Arc, put: (EdgeData, T) -> EdgeData, w: EdgeData): EdgeData {
    if EdgeName(a) in m then put(w, m[EdgeName(a)]) else w
  }

  /** recover_scale or recover_layout: every edge is looked up under its name. */
  method Recover<T>(g: GraphBase<Node, EdgeData>, m: map<string, T>, put: (EdgeData, T) -> EdgeData) returns (ok: bool)
    requires g.Valid() && g.AtBothEnds()
    modifies g`weights
    ensures g.Valid() && ok == HasRoot(g) && g.weights.Keys == old(g.weights.Keys)
    ensures forall a :: a in g.weights ==>
      g.weights[a] == if g.Reachable(a.bottom) then Looked(m, a, put, old(g.weights[a])) else old(g.weights[a])
  {
    hide GraphBase.NearestFirst;
    hide GraphBase.Valid;
    hide GraphBase.Reachable;
    hide GraphBase.IsRoot;
    hide GraphBase.AtBothEnds;
    hide Looked;
    var visited: seq<string>;
    ok, visited := g.Bfs();
    for k := 0 to |visited|
      invariant g.Valid() && g.weights.Keys == old(g.weights.Keys)
      invariant forall a :: a in g.weights ==>
        g.weights[a] == if a.bottom in visited[..k] then Looked(m, a, put, old(g.weights[a])) else old(g.weights[a])
    {
      assert visited[..k + 1] == visited[..k] + [visited[k]] && visited[k] !in visited[..k];
      RecoverList(g, m, put, visited[k]);
    }
    assert visited[..|visited|] == visited;
  }

  method RecoverList<T>(g: GraphBase<Node, EdgeData>, m: map<string, T>, put: (EdgeData, T) -> EdgeData, v: string)
    requires g.Valid() && g.AtBothEnds()
    modifies g`weights
    ensures g.Valid() && g.weights.Keys == old(g.weights.Keys)
    ensures forall a :: a in g.weights ==>
      g.weights[a] == if a.bottom == v then Looked(m, a, put, old(g.weights[a])) else old(g.weights[a])
  {
    hide ArcsValid;
    hide InListsValid;
    hide OutListsValid;
    hide GraphBase.Reachable;
    hide GraphBase.ArcsOn;
    var list := g.ArcsOn(OutSide, v);
    g.ListedArcs(OutSide, v);
    for k := 0 to |list|
      invariant g.Valid() && g.weights.Keys == old(g.weights.Keys)
      invariant forall a :: a in g.weights ==>
        g.weights[a] == if a in list[..k] then Looked(m, a, put, old(g.weights[a])) else old(g.weights[a])
    {
      assert list[..k + 1] == list[..k] + [list[k]] && list[k] !in list[..k] && list[k] in list;
      if EdgeName(list[k]) in m {
        g.weights := g.weights[list[k] := put(g.weights[list[k]], m[EdgeName(list[k])])];
      }
    }
    assert list[..|list|] == list;
    forall a | a in g.weights ensures a in list <==> a.bottom == v {
      g.WeighedArcs(a);
      ArcEnds(g, a);
    }
  }

  /** Nothing hangs at a vertex that is missing. */
  lemma WholeImage<V, W>(vg: GraphBase<V, W>, vertices: set<string>)
    requires vg.Valid() && Scannable(vg) && vg.vertices.Keys <= vertices
    ensures Landed(vg, vertices) && Closed(vg)
    ensures forall side, v :: !vg.Reachable(v) ==> vg.ArcsOn(side, v) == []
    ensures forall a :: a in vg.arcs ==> vg.Reachable(a.top) && vg.Reachable(a.bottom)
  {
    hide GraphBase.Reachable;
    forall side, v | !vg.Reachable(v) ensures vg.ArcsOn(side, v) == [] {
      vg.NoArcsWithoutVertex(v);
    }
  }

  /** What the scans of the restored graph need. */
  lemma RestoredScannable<V, W, X, Y>(g: GraphBase<V, W>, vg: GraphBase<X, Y>)
    requires vg.Valid() && Scannable(vg) && SameArcs(g, vg)
    requires forall a :: a in g.arcs <==> a in vg.arcs && vg.Reachable(a.top)
    ensures g.AtBothEnds() && HasRoot(g)
    ensures forall v :: g.Reachable(v) <==> vg.Reachable(v)
  {
    hide GraphBase.Reachable;
    hide GraphBase.Valid;
    hide GraphBase.AtBothEnds;
    hide GraphBase.IsRoot;
    hide GraphBase.ArcsOn;
    hide SameArcs;
    hide Landed;
    WholeImage(vg, vg.vertices.Keys);
    CopyAtBothEnds(g, vg);
    forall v ensures g.Reachable(v) <==> vg.Reachable(v) {
      SameReach(g, vg, v);
    }
    var root :| vg.IsRoot(root);
    SameRoots(g, vg, root);
  }

  lemma RestoredArcs<V, W, X, Y>(g: GraphBase<V, W>, vg: GraphBase<X, Y>)
    requires vg.Valid() && Scannable(vg) && SameArcs(g, vg)
    requires forall a :: a in g.arcs <==> a in vg.arcs && vg.Reachable(a.top)
    ensures forall side, v :: g.ArcsOn(side, v) == vg.ArcsOn(side, v)
    ensures forall a :: a in g.arcs <==> a in vg.arcs
  {
    hide GraphBase.Reachable;
    hide GraphBase.Valid;
    hide GraphBase.AtBothEnds;
    hide GraphBase.IsRoot;
    hide GraphBase.ArcsOn;
    hide Scannable;
    hide Landed;
    hide Closed;
    WholeImage(vg, vg.vertices.Keys);
  }

  function PutScale(w: EdgeData, scale: seq<real>): EdgeData { w.(scale := scale) }

  function PutLayout(w: EdgeData, layout: Layout): EdgeData { w.(layout := layout) }

  /** A vertex of the virtual graph has the op name and the marks that it has there; the others are as they were. */
  ghost predicate MarkedAs(vertices: map<string, Node>, before: map<string, Node>, nodes: map<string, VNode>) {
    && vertices.Keys == before.Keys
    && (forall v :: v in vertices && v in nodes ==>
          && vertices[v].opName == nodes[v].opName
          && vertices[v].needWait == nodes[v].needWait && vertices[v].lane == nodes[v].lane)
    && (forall v :: v in vertices && v !in nodes ==> vertices[v] == before[v])
  }

  /** The edges of the virtual graph, with the marks that they have there, and scale and layout by name. */
  ghost predicate RestoredAs(weights: map<Arc, EdgeData>, ios: map<Arc, Io>, scales: map<string, seq<real>>,
                             layouts: map<string, Layout>) {
    && BareAs(weights, ios)
    && forall a :: a in weights ==>
         && weights[a].scale == (if EdgeName(a) in scales then scales[EdgeName(a)] else [])
         && weights[a].layout == (if EdgeName(a) in layouts then layouts[EdgeName(a)] else NCHW)
  }

  ghost predicate EqualArcs<V, W, X, Y>(g: GraphBase<V, W>, h: GraphBase<X, Y>)
    reads g, h
  {
    && (forall side, v :: g.ArcsOn(side, v) == h.ArcsOn(side, v))
    && (forall a :: a in g.arcs <==> a in h.arcs)
  }

  function Bare(io: Io): EdgeData { EdgeData([], NCHW, io.shared, io.shareFrom, io.lane) }

  ghost predicate BareAs(weights: map<Arc, EdgeData>, ios: map<Arc, Io>) {
    && weights.Keys == ios.Keys
    && forall a :: a in weights ==>
         && weights[a].shared == ios[a].shared
         && weights[a].shareFrom == ios[a].shareFrom && weights[a].lane == ios[a].lane
  }

  /** New edges have no scale and the default layout. */
  ghost predicate Unscaled(weights: map<Arc, EdgeData>) {
    forall a :: a in weights ==> weights[a].scale == [] && weights[a].layout == NCHW
  }

  lemma SameWeightKeys<V, W, X, Y>(g: GraphBase<V, W>, h: GraphBase<X, Y>)
    requires g.Valid() && h.Valid() && forall a :: a in g.arcs <==> a in h.arcs
    ensures g.weights.Keys == h.weights.Keys
  {
    hide GraphBase.Valid;
    forall a ensures a in g.weights <==> a in h.weights {
      g.WeighedArcs(a);
      h.WeighedArcs(a);
    }
  }

  /** arcs_clear, and the two scans that add the arcs of the virtual graph. */
  method RebuildArcs(g: GraphBase<Node, EdgeData>, vg: GraphBase<VNode, Io>)
    requires g.Valid() && vg.Valid() && Scannable(vg) && {g as object} !! {vg as object}
    requires vg.vertices.Keys <= g.vertices.Keys
    modifies g
    ensures g.Valid() && g.AtBothEnds() && EqualArcs(g, vg) && HasRoot(g) && g.vertices == old(g.vertices)
    ensures forall v :: g.Reachable(v) <==> vg.Reachable(v)
    ensures BareAs(g.weights, vg.weights) && Unscaled(g.weights)
  {
    hide GraphBase.Valid;
    hide GraphBase.Reachable;
    hide GraphBase.AtBothEnds;
    hide GraphBase.IsRoot;
    hide SameArcs;
    hide Landed;
    hide Scanned;
    g.ArcsClear();
    WholeImage(vg, g.vertices.Keys);
    var ok := CopyArcs(vg, g, (a: Arc, io: Io) => Bare(io));
    ScannedArcs(vg);
    RestoredScannable(g, vg);
    RestoredArcs(g, vg);
    SameWeightKeys(g, vg);
  }

  /** The two scans that look every edge up under its name. */
  method RecoverAll(g: GraphBase<Node, EdgeData>, scales: map<string, seq<real>>, layouts: map<string, Layout>,
                    ghost ios: map<Arc, Io>) returns (ok: bool)
    requires g.Valid() && g.AtBothEnds() && BareAs(g.weights, ios) && Unscaled(g.weights)
    requires HasRoot(g) && forall a :: a in g.weights ==> g.Reachable(a.bottom)
    modifies g`weights
    ensures ok && g.Valid() && RestoredAs(g.weights, ios, scales, layouts)
  {
    hide GraphBase.Valid;
    hide GraphBase.Reachable;
    hide GraphBase.AtBothEnds;
    hide GraphBase.IsRoot;
    hide EdgeName;
    hide Looked;
    hide BareAs;
    hide Unscaled;
    hide RestoredAs;
    ghost var before := g.weights;
    ok := Recover(g, scales, PutScale);
    ok := Recover(g, layouts, PutLayout);
    LookupsRestore(before, g.weights, ios, scales, layouts);
  }

  lemma LookupsRestore(before: map<Arc, EdgeData>, after: map<Arc, EdgeData>, ios: map<Arc, Io>,
                       scales: map<string, seq<real>>, layouts: map<string, Layout>)
    requires BareAs(before, ios) && Unscaled(before) && after.Keys == before.Keys
    requires forall a :: a in after ==>
               after[a] == Looked(layouts, a, PutLayout, Looked(scales, a, PutScale, before[a]))
    ensures RestoredAs(after, ios, scales, layouts)
  {
    hide EdgeName;
  }

  /** The arcs and marks are taken from a virtual graph in which no vertices were merged. */
  method RestoreArcs(g: GraphBase<Node, EdgeData>, vg: GraphBase<VNode, Io>, scales: map<string, seq<real>>,
                     layouts: map<string, Layout>) returns (ok: bool)
    requires g.Valid() && vg.Valid() && Scannable(vg) && {g as object} !! {vg as object}
    requires vg.vertices.Keys <= g.vertices.Keys
    modifies g
    ensures ok && g.Valid() && g.AtBothEnds() && EqualArcs(g, vg)
    ensures MarkedAs(g.vertices, old(g.vertices), vg.vertices)
    ensures RestoredAs(g.weights, vg.weights, scales, layouts)
  {
    hide GraphBase.Valid;
    hide GraphBase.Reachable;
    hide GraphBase.AtBothEnds;
    hide GraphBase.IsRoot;
    hide RestoredAs;
    hide Landed;
    hide GraphBase.ArcsOn;
    WholeImage(vg, vg.vertices.Keys);
    RebuildArcs(g, vg);
    ok := MarkNodes(g, vg);
    forall a | a in g.weights ensures g.Reachable(a.bottom) {
      g.WeighedArcs(a);
    }
    ok := RecoverAll(g, scales, layouts, vg.weights);
  }

  function ScaleOf(w: EdgeData): seq<real> { w.scale }

  function LayoutOf(w: EdgeData): Layout { w.layout }

  /** The arcs that a scan of the graph comes across. */
  ghost predicate Kept<V, W>(g: GraphBase<V, W>, kept: set<Arc>)
    reads g
  {
    forall a :: a in kept <==> a in g.arcs && g.Reachable(a.top)
  }

  /** Each name is mapped to what some kept arc of this name holds, and each kept arc's name is mapped. */
  ghost predicate NotedAs<T(!new)>(m: map<string, T>, from: map<string, Arc>, before: map<Arc, EdgeData>,
                                   kept: set<Arc>, pick: EdgeData -> T) {
    && m.Keys == from.Keys
    && (forall n :: n in m ==>
          from[n] in kept && from[n] in before && EdgeName(from[n]) == n && m[n] == pick(before[from[n]]))
    && (forall a :: a in kept ==> EdgeName(a) in m)
  }

  /** The scan over in-lists and the scan over out-lists come across the same arcs. */
  lemma GatheredIsNoted<T(!new)>(side: Side, g: GraphBase<Node, EdgeData>, pick: EdgeData -> T, m: map<string, T>,
                                 from: map<string, Arc>, kept: set<Arc>)
    requires g.Valid() && g.AtBothEnds() && Closed(g) && Kept(g, kept)
    requires Gathered(side, g, pick, m, from) && forall v :: g.Reachable(v) ==> Named(side, g, m, v)
    ensures NotedAs(m, from, g.weights, kept, pick)
  {
    hide GraphBase.Reachable;
    hide GraphBase.AtBothEnds;
    hide GraphBase.ArcsOn;
    hide EdgeName;
    hide GraphBase.Valid;
    forall n | n in m ensures from[n] in kept {
      g.WeighedArcs(from[n]);
      ArcEnds(g, from[n]);
    }
    forall a | a in kept ensures EdgeName(a) in m {
      ArcEnds(g, a);
      assert Named(side, g, m, EndOf(side, a));
    }
  }

  method GatherKept<T(!new)>(side: Side, g: GraphBase<Node, EdgeData>, pick: EdgeData -> T, ghost kept: set<Arc>)
      returns (m: map<string, T>, ghost from: map<string, Arc>)
    requires g.Valid() && g.AtBothEnds() && Closed(g) && Kept(g, kept) && HasRoot(g)
    ensures NotedAs(m, from, g.weights, kept, pick)
  {
    hide *;
    var ok: bool;
    ghost var visited: seq<string>;
    ok, m, from, visited := Gather(side, g, pick);
    GatheredIsNoted(side, g, pick, m, from, kept);
  }

  /** restore_from_vgraph: scales and layouts are noted by edge name before the arcs are cleared. */
  method RestoreFromVGraph(g: GraphBase<Node, EdgeData>, vg: GraphBase<VNode, Io>, ghost kept: set<Arc>)
      returns (ghost scales: map<string, seq<real>>, ghost layouts: map<string, Layout>,
               ghost scaleFrom: map<string, Arc>, ghost layoutFrom: map<string, Arc>)
    requires g.Valid() && g.AtBothEnds() && Closed(g) && Kept(g, kept) && HasRoot(g)
    requires vg.Valid() && Scannable(vg) && vg.vertices.Keys <= g.vertices.Keys && {g as object} !! {vg as object}
    modifies g
    ensures NotedAs(scales, scaleFrom, old(g.weights), kept, ScaleOf)
    ensures NotedAs(layouts, layoutFrom, old(g.weights), kept, LayoutOf)
    ensures g.Valid() && g.AtBothEnds() && EqualArcs(g, vg)
    ensures MarkedAs(g.vertices, old(g.vertices), vg.vertices)
    ensures RestoredAs(g.weights, vg.weights, scales, layouts)
  {
    hide *;
    var scaleMap: map<string, seq<real>>, layoutMap: map<string, Layout>;
    scaleMap, scaleFrom := GatherKept(InSide, g, ScaleOf, kept);
    layoutMap, layoutFrom := GatherKept(OutSide, g, LayoutOf, kept);
    scales, layouts := scaleMap, layoutMap;
    var ok := RestoreArcs(g, vg, scaleMap, layoutMap);
  }

  // ----- there and back

  ghost predicate SameByName<T(!new)>(weights: map<Arc, EdgeData>, kept: set<Arc>, pick: EdgeData -> T) {
    forall a, b :: a in kept && b in kept && a in weights && b in weights && EdgeName(a) == EdgeName(b) ==>
      pick(weights[a]) == pick(weights[b])
  }

  ghost predicate Unaltered<T(!new)>(weights: map<Arc, EdgeData>, before: map<Arc, EdgeData>, pick: EdgeData -> T) {
    forall a :: a in weights && a in before ==> pick(weights[a]) == pick(before[a])
  }

  /** What is looked up by name comes back exactly when edges of the same name hold the same. */
  lemma NamesDecide<T(!new)>(before: map<Arc, EdgeData>, after: map<Arc, EdgeData>, pick: EdgeData -> T,
                             m: map<string, T>, from: map<string, Arc>)
    requires NotedAs(m, from, before, after.Keys, pick) && after.Keys <= before.Keys
    requires forall a :: a in after && EdgeName(a) in m ==> pick(after[a]) == m[EdgeName(a)]
    ensures Unaltered(after, before, pick) <==> SameByName(before, after.Keys, pick)
  {
    hide EdgeName;
    if Unaltered(after, before, pick) {
      forall a, b | a in after && b in after && EdgeName(a) == EdgeName(b)
        ensures pick(before[a]) == pick(before[b])
      {
        assert pick(before[a]) == pick(after[a]) && pick(before[b]) == pick(after[b]);
      }
    }
    if SameByName(before, after.Keys, pick) {
      forall a | a in after ensures pick(after[a]) == pick(before[a]) {
        assert from[EdgeName(a)] in after;
      }
    }
  }

  /** The edges have the scales they had before. */
  ghost predicate SameScales(weights: map<Arc, EdgeData>, before: map<Arc, EdgeData>) {
    forall a :: a in weights && a in before ==> weights[a].scale == before[a].scale
  }

  /** Edges of the same name have the same scales. */
  ghost predicate ScalesByName(weights: map<Arc, EdgeData>, kept: set<Arc>) {
    forall a, b :: a in kept && b in kept && a in weights && b in weights && EdgeName(a) == EdgeName(b) ==>
      weights[a].scale == weights[b].scale
  }

  ghost predicate SameLayouts(weights: map<Arc, EdgeData>, before: map<Arc, EdgeData>) {
    forall a :: a in weights && a in before ==> weights[a].layout == before[a].layout
  }

  ghost predicate LayoutsByName(weights: map<Arc, EdgeData>, kept: set<Arc>) {
    forall a, b :: a in kept && b in kept && a in weights && b in weights && EdgeName(a) == EdgeName(b) ==>
      weights[a].layout == weights[b].layout
  }

  lemma PicksWrittenOut(weights: map<Arc, EdgeData>, before: map<Arc, EdgeData>, kept: set<Arc>)
    ensures Unaltered(weights, before, ScaleOf) <==> SameScales(weights, before)
    ensures Unaltered(weights, before, LayoutOf) <==> SameLayouts(weights, before)
    ensures SameByName(before, kept, ScaleOf) <==> ScalesByName(before, kept)
    ensures SameByName(before, kept, LayoutOf) <==> LayoutsByName(before, kept)
  {
    hide EdgeName;
  }

  ghost predicate FreshMarks(vertices: map<string, Node>, before: map<string, Node>, reach: set<string>) {
    && vertices.Keys == before.Keys
    && forall v :: v in vertices ==>
         vertices[v] == if v in reach then Node(before[v].opName, false, 0) else before[v]
  }

  ghost predicate FreshEdges(weights: map<Arc, EdgeData>, kept: set<Arc>) {
    && weights.Keys == kept
    && forall a :: a in weights ==> !weights[a].shared && weights[a].shareFrom == "" && weights[a].lane == 0
  }

  lemma PlainComesBack(vertices: map<string, Node>, weights: map<Arc, EdgeData>, before: map<string, Node>,
                       nodes: map<string, VNode>, ios: map<Arc, Io>, scales: map<string, seq<real>>,
                       layouts: map<string, Layout>)
    requires PlainImage(nodes, ios, before) && MarkedAs(vertices, before, nodes)
    requires RestoredAs(weights, ios, scales, layouts)
    ensures FreshMarks(vertices, before, nodes.Keys) && FreshEdges(weights, ios.Keys) && weights.Keys == ios.Keys
    ensures forall a :: a in weights && EdgeName(a) in scales ==> ScaleOf(weights[a]) == scales[EdgeName(a)]
    ensures forall a :: a in weights && EdgeName(a) in layouts ==> LayoutOf(weights[a]) == layouts[EdgeName(a)]
  {
    hide EdgeName;
  }

  /** get_vgraph followed by restore_from_vgraph, with nothing done to the virtual graph in between: the reachable
      vertices get their arcs and op names back, in order, with fresh marks; scales, and layouts, come back exactly
      when edges of the same name agree on them. Arcs among unreachable vertices are lost. */
  method RoundTrip(g: GraphBase<Node, EdgeData>) returns (ok: bool, ghost reach: set<string>, ghost kept: set<Arc>)
    requires g.Valid() && g.AtBothEnds()
    modifies g
    ensures ok <==> old(HasRoot(g)) && old(Closed(g))
    ensures !ok ==> unchanged(g)
    ensures ok ==> forall v :: v in reach <==> old(g.Reachable(v))
    ensures ok ==> old(Kept(g, kept))
    ensures ok ==> g.Valid() && g.AtBothEnds() && forall a :: a in g.arcs <==> a in kept
    ensures ok ==> forall side, v :: g.ArcsOn(side, v) == if v in reach then old(g.ArcsOn(side, v)) else []
    ensures ok ==> FreshMarks(g.vertices, old(g.vertices), reach) && FreshEdges(g.weights, kept)
    ensures ok ==> (SameScales(g.weights, old(g.weights)) <==> ScalesByName(old(g.weights), kept))
    ensures ok ==> (SameLayouts(g.weights, old(g.weights)) <==> LayoutsByName(old(g.weights), kept))
  {
    hide GraphBase.Valid;
    hide GraphBase.Reachable;
    hide GraphBase.IsRoot;
    hide GraphBase.AtBothEnds;
    hide GraphBase.ArcsOn;
    hide HasRoot;
    hide Closed;
    hide Contained;
    hide Image;
    hide PlainImage;
    hide Scannable;
    hide NotedAs;
    hide MarkedAs;
    hide RestoredAs;
    hide SameByName;
    hide Unaltered;
    hide SameScales;
    hide SameLayouts;
    hide ScalesByName;
    hide LayoutsByName;
    hide FreshMarks;
    hide FreshEdges;
    var vg: GraphBase<VNode, Io>;
    ContainedIffClosed(g);
    ok, vg := GetVGraph(g);
    reach, kept := {}, {};
    if ok {
      ImageFacts(vg, g);
      reach, kept := vg.vertices.Keys, vg.weights.Keys;
      ghost var nodes, ios := vg.vertices, vg.weights;
      ghost var scales, layouts, scaleFrom, layoutFrom := RestoreFromVGraph(g, vg, kept);
      PlainComesBack(g.vertices, g.weights, old(g.vertices), nodes, ios, scales, layouts);
      NamesDecide(old(g.weights), g.weights, ScaleOf, scales, scaleFrom);
      NamesDecide(old(g.weights), g.weights, LayoutOf, layouts, layoutFrom);
      PicksWrittenOut(g.weights, old(g.weights), kept);
    }
  }

  lemma ImageFacts(vg: GraphBase<VNode, Io>, g: GraphBase<Node, EdgeData>)
    requires g.Valid() && g.AtBothEnds() && HasRoot(g) && Closed(g) && vg.Valid() && Image(vg, g)
    ensures Scannable(vg) && vg.vertices.Keys <= g.vertices.Keys
    ensures Kept(g, vg.weights.Keys) && vg.weights.Keys <= g.weights.Keys
    ensures forall a :: a in vg.arcs <==> a in vg.weights
    ensures forall v :: v in vg.vertices <==> g.Reachable(v)
    ensures forall side, v :: vg.ArcsOn(side, v) == if v in vg.vertices then g.ArcsOn(side, v) else []
  {
    hide GraphBase.Reachable;
    hide GraphBase.IsRoot;
    hide GraphBase.AtBothEnds;
    hide GraphBase.ArcsOn;
    hide GraphBase.Valid;
    hide Scanned;
    ScannedArcs(g);
    CopyAtBothEnds(vg, g);
    forall v ensures vg.Reachable(v) <==> g.Reachable(v) {
      SameReach(vg, g, v);
    }
    var root :| g.IsRoot(root);
    SameRoots(vg, g, root);
    forall a ensures (a in vg.arcs <==> a in vg.weights) && (a in g.arcs <==> a in g.weights) {
      vg.WeighedArcs(a);
      g.WeighedArcs(a);
    }
  }

  // ----- edge names

  /** Two different edges can have the same name. */
  lemma NamesCollide()
    ensures Arc("a", "b_c") != Arc("a_b", "c") && EdgeName(Arc("a", "b_c")) == EdgeName(Arc("a_b", "c"))
  {
    assert EdgeName(Arc("a", "b_c")) == "a_b_c";
    assert EdgeName(Arc("a_b", "c")) == "a_b_c";
  }

  /** They cannot when no bottom vertex has an underscore in its name. */
  lemma NamesApart(a: Arc, b: Arc)
    requires '_' !in a.bottom && '_' !in b.bottom && EdgeName(a) == EdgeName(b)
    ensures a == b
  {
    var n := EdgeName(a);
    var i, j := |a.bottom|, |b.bottom|;
    assert n[i] == '_' && n[j] == '_';
    assert forall k :: 0 <= k < i ==> n[k] == a.bottom[k];
    assert forall k :: 0 <= k < j ==> n[k] == b.bottom[k];
    assert i == j;
    assert a.bottom == n[..i] && b.bottom == n[..j] && a.top == n[i + 1..] && b.top == n[j + 1..];
  }

  // ----- a frozen graph loses nothing

  lemma {:induction false} RisingReaches<V, W>(g: GraphBase<V, W>, rank: string -> nat, v: string)
    requires g.Valid() && g.AtBothEnds() && forall a :: a in g.arcs ==> rank(a.bottom) < rank(a.top)
    requires exists a :: a in g.arcs && (a.bottom == v || a.top == v)
    ensures g.Reachable(v)
    decreases rank(v)
  {
    hide GraphBase.Valid;
    hide GraphBase.Reachable;
    if g.ArcsOn(InSide, v) == [] {
      var a :| a in g.arcs && (a.bottom == v || a.top == v);
      assert a in g.ArcsOn(InSide, a.top);
      assert g.IsRoot(v);
      RootReaches(g, v);
    } else {
      g.ListedArcs(InSide, v);
      RisingStep(g, rank, v, g.ArcsOn(InSide, v)[0]);
    }
  }

  lemma {:induction false} RisingStep<V, W>(g: GraphBase<V, W>, rank: string -> nat, v: string, a: Arc)
    requires g.Valid() && g.AtBothEnds() && forall a :: a in g.arcs ==> rank(a.bottom) < rank(a.top)
    requires a in g.arcs && a.top == v
    ensures g.Reachable(v)
    decreases rank(v), 0
  {
    hide GraphBase.Valid;
    hide GraphBase.Reachable;
    RisingReaches(g, rank, a.bottom);
    ArcReaches(g, a);
  }

  /** When the arcs rise in some rank, the round trip succeeds exactly when there is an arc, and every arc survives. */
  lemma RisingSurvives<V, W>(g: GraphBase<V, W>, rank: string -> nat)
    requires g.Valid() && g.AtBothEnds() && forall a :: a in g.arcs ==> rank(a.bottom) < rank(a.top)
    ensures Closed(g) && (HasRoot(g) <==> g.arcs != [])
    ensures forall a :: a in g.arcs ==> g.Reachable(a.bottom) && g.Reachable(a.top)
  {
    hide GraphBase.Valid;
    hide GraphBase.Reachable;
    hide GraphBase.AtBothEnds;
    forall a | a in g.arcs ensures g.Reachable(a.bottom) && g.Reachable(a.top) {
      RisingReaches(g, rank, a.bottom);
      RisingReaches(g, rank, a.top);
    }
    if g.arcs != [] {
      assert g.arcs[0] in g.arcs;
      g.ReachableHasRoot(g.arcs[0].bottom);
    }
  }

  /** The arcs that Freeze makes for an acyclic net rise. */
  lemma FrozenArcsRise(g: Graph, run: ArcRun, rank: string -> nat)
    requires g.Wired(run) && Ranked(g.Shape(), rank)
    ensures forall a :: a in g.base.arcs ==> rank(a.bottom) < rank(a.top)
  {
    var net := g.Shape();
    hide Pairs;
    hide IsIndex;
    forall a | a in g.base.arcs ensures rank(a.bottom) < rank(a.top) {
      var pairs := Pairs(InSide, run.producers, a.top, VarsOf(net.ins, a.top));
      MergedIsUnique([], pairs);
      assert a in g.base.ArcsOn(InSide, a.top);
      PairOf(InSide, run.producers, a.top, VarsOf(net.ins, a.top), a);
      var v :| v in VarsOf(net.ins, a.top) && Links(run.producers, v) && a.bottom == OpAt(run.producers, v);
      IndexCovers(run.producers, net.outs, v);
      var j: nat :| Slot(net.outs, a.bottom, j, v);
      var k: nat :| k < |net.ins[a.top]| && net.ins[a.top][k] == v;
      assert Slot(net.ins, a.top, k, v);
    }
  }
}
