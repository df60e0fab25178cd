/** Graph: AddOp and Freeze. */
module Freezing {
  import opened GraphNames
  import opened Nets
  import opened FreezeScans
  import opened GraphBase
  import opened FreezeArcs
  import opened FreezePlan

  /** What a vertex carries: its op name, and the marks a scheduler may set. */
  datatype Node = Node(opName: string, needWait: bool, lane: int)

  datatype Layout = NCHW | NHWC | OtherLayout(id: int)

  /** What an edge carries besides its ends. */
  datatype EdgeData = EdgeData(scale: seq<real>, layout: Layout, shared: bool, shareFrom: string, lane: int)

  const NEW_EDGE := EdgeData([], NCHW, false, "", 0)

  ghost function OpNames(vertices: map<string, Node>): (m: map<string, string>)
    ensures m.Keys == vertices.Keys && forall o :: o in vertices ==> m[o] == vertices[o].opName
  {
    Table(vertices.Keys, o requires o in vertices => vertices[o].opName)
  }

  lemma OneMoreName(vertices: map<string, Node>, name: string, node: Node)
    ensures OpNames(vertices[name := node]) == OpNames(vertices)[name := node.opName]
  {
    hide OpNames;
  }

  ghost predicate SameLists(after: ArcLists, before: ArcLists) {
    forall v :: ArcsAt(after, v) == ArcsAt(before, v)
  }

  lemma SameListsReflexive(lists: ArcLists)
    ensures SameLists(lists, lists)
  {
  }

  lemma SameListsTransitive(a: ArcLists, b: ArcLists, c: ArcLists)
    requires SameLists(a, b) && SameLists(b, c)
    ensures SameLists(a, c)
  {
    forall v ensures ArcsAt(a, v) == ArcsAt(c, v) {
      assert ArcsAt(a, v) == ArcsAt(b, v);
    }
  }

  /** Old vertices are as they were; new ones carry no scheduler's marks. */
  ghost predicate Extends(after: map<string, Node>, before: map<string, Node>) {
    && (forall o :: o in before ==> o in after && after[o] == before[o])
    && (forall o :: o in after && o !in before ==> !after[o].needWait && after[o].lane == 0)
  }

  lemma ExtendsItself(vertices: map<string, Node>)
    ensures Extends(vertices, vertices)
  {
  }

  lemma ExtendsByOne(vertices: map<string, Node>, name: string, opName: string)
    ensures Extends(if name in vertices then vertices else vertices[name := Node(opName, false, 0)], vertices)
  {
  }

  lemma ExtendsTransitive(a: map<string, Node>, b: map<string, Node>, c: map<string, Node>)
    requires Extends(a, b) && Extends(b, c)
    ensures Extends(a, c)
  {
  }

  method NumberedOutputs(v: string, count: nat) returns (outputs: seq<string>)
    ensures outputs == SplitOuts(v, count)
  {
    outputs := [];
    for i := 0 to count
      invariant |outputs| == i && forall k :: 0 <= k < i ==> outputs[k] == SplitVar(v, k)
    {
      outputs := outputs + [SplitVar(v, i)];
    }
  }

  /** The maps the arcs are made from, and the order in which the two loops went. */
  datatype ArcRun = ArcRun(consumers: OpIndex, producers: OpIndex, insOrder: seq<string>, outsOrder: seq<string>)

  class Graph {
    const base: GraphBase<Node, EdgeData>
    var nodeIns: map<string, seq<string>>
    var nodeOuts: map<string, seq<string>>
    /** _ins and _outs. */
    var ins: seq<string>
    var outs: seq<string>
    /** The attribute "split_num". */
    var splitNum: map<string, int>

    constructor ()
      ensures fresh(base) && base.Valid() && Shape() == Net(map[], map[], map[])
      ensures ins == outs == [] && splitNum == map[]
      ensures base.arcs == [] && base.inArcs == map[] && base.outArcs == map[]
    {
      base := new GraphBase<Node, EdgeData>();
      nodeIns, nodeOuts, ins, outs, splitNum := map[], map[], [], [], map[];
    }

    ghost function Shape(): Net
      reads this, base
    {
      Net(OpNames(base.vertices), nodeIns, nodeOuts)
    }

    ghost predicate NoArcs()
      reads base
    {
      base.arcs == [] && forall v :: ArcsAt(base.inArcs, v) == [] && ArcsAt(base.outArcs, v) == []
    }

    /** The op name of an existing vertex stays; its variable lists are overwritten. */
    method AddOp(name: string, opName: string, inputs: seq<string>, outputs: seq<string>)
      requires base.Valid()
      modifies this, base
      ensures ins == old(ins) && outs == old(outs) && splitNum == old(splitNum) && base.arcs == old(base.arcs)
      ensures base.Valid()
      ensures Shape() == Net(
          if name in old(Shape()).types then old(Shape()).types else old(Shape()).types[name := opName],
          old(Shape()).ins[name := inputs], old(Shape()).outs[name := outputs])
      ensures SameLists(base.inArcs, old(base.inArcs)) && SameLists(base.outArcs, old(base.outArcs))
      ensures Extends(base.vertices, old(base.vertices))
    {
      hide OpNames;
      hide Extends;
      OneMoreName(base.vertices, name, Node(opName, false, 0));
      ExtendsByOne(base.vertices, name, opName);
      base.AddVertex(name, Node(opName, false, 0));
      nodeIns := nodeIns[name := inputs];
      nodeOuts := nodeOuts[name := outputs];
    }

    ghost function Noted(): Notes
      reads this
    {
      Notes(ins, outs, splitNum)
    }

    /** One made-up op: it is entered in _ins or _outs, or given its split_num, unless the name is taken. */
    method AddMadeUp(role: Role, v: string, inputs: seq<string>, outputs: seq<string>)
      requires base.Valid() && v !in base.vertices
      modifies this, base
      ensures base.arcs == old(base.arcs)
      ensures base.Valid() && base.vertices.Keys == old(base.vertices.Keys) + {v}
      ensures Shape() == With(old(Shape()), v, role.OpName(), inputs, outputs)
      ensures Noted() == old(Noted()).Enter(role, v, |outputs|)
      ensures SameLists(base.inArcs, old(base.inArcs)) && SameLists(base.outArcs, old(base.outArcs))
      ensures Extends(base.vertices, old(base.vertices))
    {
      assert base.vertices.Keys == Shape().types.Keys;
      hide Shape;
      if !base.HasVertex(v) {
        match role {
          case InputRole => ins := ins + [v];
          case OutputRole => outs := outs + [v];
          case SplitRole => splitNum := splitNum[v := |outputs|];
        }
        AddOp(v, role.OpName(), inputs, outputs);
      }
      assert base.vertices.Keys == Shape().types.Keys;
    }

    /** One op of a map, after those in done. */
    method AddNext(role: Role, v: string, opIns: map<string, seq<string>>, opOuts: map<string, seq<string>>,
                   ghost net: Net, ghost notes: Notes, ghost done: set<string>, ghost added: seq<string>)
        returns (ghost added': seq<string>)
      requires base.Valid() && v !in base.vertices && v in opIns && v in opOuts && v !in done
      requires Shape() == Grown(net, role, opIns, opOuts, done)
      requires Lists(added, done) && Noted() == notes.EnterAll(role, added, opOuts)
      modifies this, base
      ensures base.Valid() && base.vertices.Keys == old(base.vertices.Keys) + {v} && base.arcs == old(base.arcs)
      ensures Shape() == Grown(net, role, opIns, opOuts, done + {v})
      ensures Lists(added', done + {v}) && Noted() == notes.EnterAll(role, added', opOuts)
      ensures SameLists(base.inArcs, old(base.inArcs)) && SameLists(base.outArcs, old(base.outArcs))
      ensures Extends(base.vertices, old(base.vertices))
    {
      hide Lists;
      hide Grown;
      hide SameLists;
      hide Extends;
      hide Notes.EnterAll;
      hide Shape;
      hide Noted;
      GrownNext(net, role, opIns, opOuts, done, v);
      EnterNext(notes, role, added, done, v, opOuts);
      AddMadeUp(role, v, opIns[v], opOuts[v]);
      added' := added + [v];
    }

    /** Adds the ops of a map, in any order. */
    method AddOps(role: Role, opIns: map<string, seq<string>>, opOuts: map<string, seq<string>>)
        returns (ghost added: seq<string>)
      requires base.Valid() && opIns.Keys == opOuts.Keys && forall v :: v in opIns ==> v !in base.vertices
      modifies this, base
      ensures base.arcs == old(base.arcs)
      ensures base.Valid() && forall v :: v in base.vertices <==> v in old(base.vertices) || v in opIns
      ensures Shape() == Joined(old(Shape()), role, opIns, opOuts)
      ensures Lists(added, opIns.Keys)
      ensures Noted() == old(Noted()).EnterAll(role, added, opOuts)
      ensures SameLists(base.inArcs, old(base.inArcs)) && SameLists(base.outArcs, old(base.outArcs))
      ensures Extends(base.vertices, old(base.vertices))
    {
      added := [];
      var todo := opIns.Keys;
      ghost var done: set<string> := {};
      hide SameLists;
      hide Extends;
      hide Grown;
      hide Joined;
      ExtendsItself(base.vertices);
      SameListsReflexive(base.inArcs);
      SameListsReflexive(base.outArcs);
      GrownNone(old(Shape()), role, opIns, opOuts);
      assert Lists(added, {}) && Noted() == old(Noted()).EnterAll(role, added, opOuts);
      hide *;
      while todo != {}
        invariant base.Valid() && base.arcs == old(base.arcs)
        invariant forall v :: v in opIns <==> v in done || v in todo
        invariant forall v :: v in base.vertices <==> v in old(base.vertices) || v in done
        invariant forall v :: v in done ==> v !in todo
        invariant Shape() == Grown(old(Shape()), role, opIns, opOuts, done)
        invariant Lists(added, done)
        invariant Noted() == old(Noted()).EnterAll(role, added, opOuts)
        invariant SameLists(base.inArcs, old(base.inArcs)) && SameLists(base.outArcs, old(base.outArcs))
        invariant Extends(base.vertices, old(base.vertices))
        decreases todo
      {
        var v :| v in todo;
        ghost var inLists, outLists, vertices := base.inArcs, base.outArcs, base.vertices;
        added := AddNext(role, v, opIns, opOuts, old(Shape()), old(Noted()), done, added);
        SameListsTransitive(base.inArcs, inLists, old(base.inArcs));
        SameListsTransitive(base.outArcs, outLists, old(base.outArcs));
        ExtendsTransitive(base.vertices, vertices, old(base.vertices));
        todo, done := todo - {v}, done + {v};
      }
      assert done == opIns.Keys;
      GrownAll(old(Shape()), role, opIns, opOuts);
    }

    /** auto_replace_split_ins: each entry of ops reads its own copy of v from now on. */
    method ReplaceSplitIns(v: string, outputs: seq<string>, ops: seq<string>)
      requires outputs == SplitOuts(v, |ops|) && forall o :: o in ops ==> o in nodeIns
      modifies this`nodeIns
      ensures nodeIns == ReplacedFor(old(nodeIns), v, ops)
    {
      ghost var lists := nodeIns;
      assert ReplacedFor(lists, v, ops[..0]) == lists;
      for i := 0 to |ops|
        invariant nodeIns == ReplacedFor(lists, v, ops[..i])
      {
        ReplaceNext(lists, v, ops, i);
        hide ReplacedFor;
        hide SplitVar;
        var r := ReplaceIn(nodeIns[ops[i]], v, outputs[i]);
        nodeIns := nodeIns[ops[i] := r];
      }
      assert ops[..|ops|] == ops;
    }

    /** What the second scan does with one produced variable. */
    method VisitVariable(v: string, consumers: OpIndex, plan: Plan, ghost lists: map<string, seq<string>>,
                         ghost done: set<string>) returns (plan': Plan)
      requires IsIndex(consumers, lists) && v !in done
      requires forall u, i: nat :: Listed(lists, u) ==> SplitVar(u, i) != v
      requires nodeIns == PartIns(lists, consumers, done) && plan == PlanFor(consumers, done)
      modifies this`nodeIns
      ensures nodeIns == PartIns(lists, consumers, done + {v}) && plan' == PlanFor(consumers, done + {v})
    {
      hide PlanFor;
      hide PartIns;
      plan' := plan;
      if v !in consumers {
        PlanOutput(consumers, done, v);
        PartInsIdle(lists, consumers, done, v);
        plan' := plan.(opIns := plan.opIns[v := [v]], opOuts := plan.opOuts[v := []]);
      } else if |consumers[v]| > 1 {
        var outputs := NumberedOutputs(v, |consumers[v]|);
        PlanSplit(consumers, done, v);
        ReplaceIsPart(lists, consumers, done, v);
        ConsumersAreOps(lists, consumers, done, v);
        plan' := plan.(splitIns := plan.splitIns[SplitOp(v) := [v]],
                       splitOuts := plan.splitOuts[SplitOp(v) := outputs]);
        ReplaceSplitIns(v, outputs, consumers[v]);
      } else {
        PlanNothing(consumers, done, v);
        PartInsIdle(lists, consumers, done, v);
      }
    }

    /** The variables of one op's output list, in order. */
    method VisitOuts(o: string, consumers: OpIndex, plan: Plan, ghost lists: map<string, seq<string>>,
                     ghost done: set<string>) returns (plan': Plan, ghost done': set<string>)
      requires o in nodeOuts && OnceEach(nodeOuts) && IsIndex(consumers, lists)
      requires forall v, u, i: nat :: v in nodeOuts[o] && Listed(lists, u) ==> SplitVar(u, i) != v
      requires forall v :: v in nodeOuts[o] ==> v !in done
      requires nodeIns == PartIns(lists, consumers, done) && plan == PlanFor(consumers, done)
      modifies this`nodeIns
      ensures nodeIns == PartIns(lists, consumers, done') && plan' == PlanFor(consumers, done')
      ensures forall v :: v in done' <==> v in done || v in nodeOuts[o]
    {
      plan', done' := plan, done;
      hide PlanFor;
      hide PartIns;
      hide IsIndex;
      for k := 0 to |nodeOuts[o]|
        invariant nodeIns == PartIns(lists, consumers, done') && plan' == PlanFor(consumers, done')
        invariant forall v :: v in done' <==> v in done || v in nodeOuts[o][..k]
      {
        var v := nodeOuts[o][k];
        assert Slot(nodeOuts, o, k, v);
        assert forall j: nat :: j < k ==> Slot(nodeOuts, o, j, nodeOuts[o][j]);
        assert nodeOuts[o][..k + 1] == nodeOuts[o][..k] + [v];
        plan' := VisitVariable(v, consumers, plan', lists, done');
        done' := done' + {v};
      }
    }

    /** The scan of node_outs, in any order: it plans Outputs and Splits and rewires the readers of split variables. */
    method ScanProduced(consumers: OpIndex, ghost lists: map<string, seq<string>>)
        returns (plan: Plan, ghost done: set<string>)
      requires OnceEach(nodeOuts) && IsIndex(consumers, lists) && nodeIns == lists
      requires forall v, u, i: nat :: Listed(nodeOuts, v) && Listed(lists, u) ==> SplitVar(u, i) != v
      modifies this`nodeIns
      ensures nodeIns == PartIns(lists, consumers, done) && plan == PlanFor(consumers, done)
      ensures forall v :: v in done <==> Listed(nodeOuts, v)
    {
      plan, done := Plan(map[], map[], map[], map[]), {};
      PlanNone(lists, consumers);
      var todo := nodeOuts.Keys;
      hide PlanFor;
      hide PartIns;
      hide IsIndex;
      while todo != {}
        invariant todo <= nodeOuts.Keys
        invariant nodeIns == PartIns(lists, consumers, done) && plan == PlanFor(consumers, done)
        invariant forall v :: v in done <==> exists o: string, k: nat :: o !in todo && Slot(nodeOuts, o, k, v)
        decreases todo
      {
        var o :| o in todo;
        ListedBy(nodeOuts, o);
        plan, done := VisitOuts(o, consumers, plan, lists, done);
        todo := todo - {o};
      }
    }

    ghost predicate NewEdges()
      reads base
    {
      forall a :: a in base.weights ==>
        var w := base.weights[a];
        w.scale == [] && w.layout == NCHW && !w.shared && w.shareFrom == "" && w.lane == 0
    }

    /** One arc; a pair that is there already keeps its edge. */
    method Connect(side: Side, o: string, other: string)
      requires base.Valid() && NewEdges() && o in base.vertices && other in base.vertices
      modifies base
      ensures base.Valid() && NewEdges() && base.vertices == old(base.vertices)
      ensures base.ArcsOn(side, o) == Append(old(base.ArcsOn(side, o)), Link(side, o, other))
      ensures forall s, u :: s != side || u != o ==> base.ArcsOn(s, u) == old(base.ArcsOn(s, u))
      ensures forall a :: a in base.arcs <==> a in old(base.arcs) || a == Link(side, o, other)
    {
      base.AddArc(side, Link(side, o, other), NEW_EDGE);
    }

    /** The arcs of one op: the op at the other end of a variable is the first that the index names. */
    method ConnectOp(side: Side, index: OpIndex, o: string, vs: seq<string>)
      requires base.Valid() && NewEdges() && o in base.vertices && base.ArcsOn(side, o) == []
      requires forall v :: v in index ==> index[v] != [] && index[v][0] in base.vertices
      modifies base
      ensures base.Valid() && NewEdges() && base.vertices == old(base.vertices)
      ensures base.ArcsOn(side, o) == Merged([], Pairs(side, index, o, vs))
      ensures forall s, u :: s != side || u != o ==> base.ArcsOn(s, u) == old(base.ArcsOn(s, u))
      ensures forall a :: a in base.arcs <==> a in old(base.arcs) || a in Pairs(side, index, o, vs)
    {
      hide GraphBase.ArcsOn;
      hide NewEdges;
      assert vs[..0] == [];
      for k := 0 to |vs|
        invariant base.Valid() && NewEdges() && base.vertices == old(base.vertices)
        invariant base.ArcsOn(side, o) == Merged([], Pairs(side, index, o, vs[..k]))
        invariant forall s, u :: s != side || u != o ==> base.ArcsOn(s, u) == old(base.ArcsOn(s, u))
        invariant forall a :: a in base.arcs <==> a in old(base.arcs) || a in Pairs(side, index, o, vs[..k])
      {
        PairsNext(side, index, o, vs, k);
        if vs[k] in index {
          Connect(side, o, index[vs[k]][0]);
        }
      }
      assert vs[..|vs|] == vs;
    }

    /** One side of all arcs, op by op in any order. */
    method ConnectAll(side: Side, index: OpIndex, lists: map<string, seq<string>>) returns (ghost order: seq<string>)
      requires base.Valid() && NewEdges() && lists.Keys <= base.vertices.Keys
      requires forall o :: base.ArcsOn(side, o) == []
      requires forall v :: v in index ==> index[v] != [] && index[v][0] in base.vertices
      modifies base
      ensures base.Valid() && NewEdges() && base.vertices == old(base.vertices)
      ensures forall o :: base.ArcsOn(side, o) == Merged([], Pairs(side, index, o, VarsOf(lists, o)))
      ensures forall s, o :: s != side ==> base.ArcsOn(s, o) == old(base.ArcsOn(s, o))
      ensures Lists(order, lists.Keys)
      ensures forall a :: a in base.arcs <==> a in old(base.arcs) || a in AllPairs(side, index, lists, order)
    {
      hide GraphBase.ArcsOn;
      hide NewEdges;
      assert forall o :: Merged([], Pairs(side, index, o, [])) == [];
      order := [];
      assert AllPairs(side, index, lists, order) == [] && Lists(order, {});
      hide *;
      var todo := lists.Keys;
      ghost var done: set<string> := {};
      while todo != {}
        invariant base.Valid() && NewEdges() && base.vertices == old(base.vertices)
        invariant forall o :: o in lists <==> o in done || o in todo
        invariant forall o :: o in done ==> o !in todo
        invariant forall o :: o in done ==> base.ArcsOn(side, o) == Merged([], Pairs(side, index, o, lists[o]))
        invariant forall o :: o !in done ==> base.ArcsOn(side, o) == []
        invariant forall s, o :: s != side ==> base.ArcsOn(s, o) == old(base.ArcsOn(s, o))
        invariant Lists(order, done)
        invariant forall a :: a in base.arcs <==> a in old(base.arcs) || a in AllPairs(side, index, lists, order)
        decreases todo
      {
        var o :| o in todo;
        ConnectOp(side, index, o, lists[o]);
        OrderNext(side, index, lists, order, done, o);
        order := order + [o];
        todo, done := todo - {o}, done + {o};
      }
      assert done == lists.Keys;
      NoListNoVars(lists);
    }

    // ----- Freeze

    /** The round that adds Inputs. */
    method AddInputs(producers: OpIndex, ghost consumers: OpIndex, ghost net: Net) returns (ghost added: seq<string>)
      requires base.Valid() && Shape() == net && Freezable(net) && Indexed(net, consumers, producers)
      modifies this, base
      ensures base.Valid() && base.arcs == old(base.arcs)
      ensures Shape() == WithInputs(net, consumers, producers)
      ensures Lists(added, Inputs(consumers, producers)) && Noted() == old(Noted()).(ins := old(ins) + added)
      ensures SameLists(base.inArcs, old(base.inArcs)) && SameLists(base.outArcs, old(base.outArcs))
      ensures Extends(base.vertices, old(base.vertices))
    {
      var opIns, opOuts := UnproducedInputs(nodeIns, producers, consumers);
      FrozenNames(net, consumers, producers);
      hide Freezable;
      hide Indexed;
      hide Same;
      hide Own;
      hide SameLists;
      hide Extends;
      hide Inputs;
      hide Lists;
      hide Joined;
      assert base.vertices.Keys == net.types.Keys;
      added := AddOps(InputRole, opIns, opOuts);
      EnterInputs(old(Noted()), added, opOuts);
    }

    /** The rounds that add Outputs and Splits. */
    method AddPlanned(plan: Plan, ghost consumers: OpIndex, ghost producers: OpIndex, ghost net: Net)
        returns (ghost addedOuts: seq<string>, ghost addedSplits: seq<string>)
      requires base.Valid() && Freezable(net) && Indexed(net, consumers, producers)
      requires Shape().types == WithInputs(net, consumers, producers).types
      requires plan == WholePlan(consumers, producers)
      modifies this, base
      ensures base.Valid() && base.arcs == old(base.arcs)
      ensures Shape() == Joined(Joined(old(Shape()), OutputRole, plan.opIns, plan.opOuts),
                                SplitRole, plan.splitIns, plan.splitOuts)
      ensures Lists(addedOuts, Outputs(consumers, producers)) && Lists(addedSplits, SplitOps(consumers))
      ensures Noted() == old(Noted()).(outs := old(outs) + addedOuts)
                                     .EnterAll(SplitRole, addedSplits, SplitLists(consumers))
      ensures SameLists(base.inArcs, old(base.inArcs)) && SameLists(base.outArcs, old(base.outArcs))
      ensures Extends(base.vertices, old(base.vertices))
    {
      forall o
        ensures o in Outputs(consumers, producers) ==> o !in Shape().types
        ensures o in SplitOps(consumers) ==> o !in Shape().types && o !in Outputs(consumers, producers)
      {
        RoundsAreNew(net, consumers, producers, o);
      }
      SameSplitOps(consumers);
      assert base.vertices.Keys == Shape().types.Keys;
      assert plan.opIns.Keys == plan.opOuts.Keys == Outputs(consumers, producers);
      assert plan.splitIns.Keys == plan.splitOuts.Keys == SplitOps(consumers);
      assert plan.splitOuts == SplitLists(consumers);
      hide *;
      addedOuts := AddOps(OutputRole, plan.opIns, plan.opOuts);
      EnterInputs(old(Noted()), addedOuts, plan.opOuts);
      ghost var inLists, outLists, vertices := base.inArcs, base.outArcs, base.vertices;
      addedSplits := AddOps(SplitRole, plan.splitIns, plan.splitOuts);
      SameListsTransitive(base.inArcs, inLists, old(base.inArcs));
      SameListsTransitive(base.outArcs, outLists, old(base.outArcs));
      ExtendsTransitive(base.vertices, vertices, old(base.vertices));
    }

    /** The second scan plans the rounds that lead to the frozen net. */
    method PlanRest(consumers: OpIndex, ghost producers: OpIndex, ghost net: Net) returns (plan: Plan)
      requires base.Valid() && Shape() == WithInputs(net, consumers, producers)
      requires Freezable(net) && Indexed(net, consumers, producers)
      modifies this`nodeIns
      ensures Shape().types == WithInputs(net, consumers, producers).types
      ensures plan == WholePlan(consumers, producers)
      ensures Joined(Joined(Shape(), OutputRole, plan.opIns, plan.opOuts), SplitRole, plan.splitIns, plan.splitOuts) ==
              Frozen(net, consumers, producers)
    {
      hide Freezable;
      hide Indexed;
      hide IsIndex;
      hide OnceEach;
      hide Listed;
      hide PlanFor;
      hide WholePlan;
      hide PartIns;
      hide WithInputs;
      hide Frozen;
      hide Joined;
      hide SplitVar;
      hide OpNames;
      hide GraphBase.Valid;
      WithInputsScannable(net, consumers, producers);
      ghost var done: set<string>;
      plan, done := ScanProduced(consumers, nodeIns);
      forall v ensures v in done <==> v in producers || v in Inputs(consumers, producers) {
        WithInputsListed(net, consumers, producers, v);
      }
      PlanDone(net, consumers, producers, done);
      RoundsGiveFrozen(net, consumers, producers, done);
    }

    /** The second scan, and the rounds it plans. */
    method AddOutputsAndSplits(consumers: OpIndex, ghost producers: OpIndex, ghost net: Net)
        returns (ghost outputs: seq<string>, ghost splits: seq<string>)
      requires base.Valid() && Shape() == WithInputs(net, consumers, producers)
      requires Freezable(net) && Indexed(net, consumers, producers)
      modifies this, base
      ensures base.Valid() && base.arcs == old(base.arcs)
      ensures Shape() == Frozen(net, consumers, producers)
      ensures Lists(outputs, Outputs(consumers, producers)) && Lists(splits, SplitOps(consumers))
      ensures Noted() == old(Noted()).(outs := old(outs) + outputs).EnterAll(SplitRole, splits, SplitLists(consumers))
      ensures SameLists(base.inArcs, old(base.inArcs)) && SameLists(base.outArcs, old(base.outArcs))
      ensures Extends(base.vertices, old(base.vertices))
    {
      hide Freezable;
      hide Indexed;
      hide Frozen;
      hide WholePlan;
      hide Joined;
      hide Lists;
      hide SameLists;
      hide Extends;
      hide OpNames;
      hide WithInputs;
      hide Notes.EnterAll;
      hide SplitLists;
      hide SplitOps;
      hide Outputs;
      hide GraphBase.Valid;
      var plan := PlanRest(consumers, producers, net);
      outputs, splits := AddPlanned(plan, consumers, producers, net);
    }

    /** The last two loops, over maps built anew. */
    method ConnectArcs() returns (ghost run: ArcRun)
      requires base.Valid() && Nets.Valid(Shape()) && NoArcs()
      modifies base
      ensures base.Valid() && NewEdges() && Shape() == old(Shape()) && base.vertices == old(base.vertices)
      ensures Indexed(Shape(), run.consumers, run.producers)
      ensures forall o :: base.ArcsOn(InSide, o) == Merged([], Pairs(InSide, run.producers, o, VarsOf(nodeIns, o)))
      ensures forall o :: base.ArcsOn(OutSide, o) == Merged([], Pairs(OutSide, run.consumers, o, VarsOf(nodeOuts, o)))
      ensures Lists(run.insOrder, nodeIns.Keys) && Lists(run.outsOrder, nodeOuts.Keys)
      ensures forall a :: a in base.arcs <==>
                || a in AllPairs(InSide, run.producers, nodeIns, run.insOrder)
                || a in AllPairs(OutSide, run.consumers, nodeOuts, run.outsOrder)
    {
      hide OpNames;
      hide IsIndex;
      hide Indexes;
      hide Lists;
      hide Pairs;
      hide AllPairs;
      hide Merged;
      hide VarsOf;
      var consumers := BuildIndex(nodeIns);
      var producers := BuildIndex(nodeOuts);
      IndexNamesOps(consumers, nodeIns);
      IndexNamesOps(producers, nodeOuts);
      assert base.vertices.Keys == Shape().types.Keys;
      ghost var insOrder := ConnectAll(InSide, producers, nodeIns);
      ghost var outsOrder := ConnectAll(OutSide, consumers, nodeOuts);
      run := ArcRun(consumers, producers, insOrder, outsOrder);
    }

    /** The arcs of a frozen graph: made from its maps, each listed at both ends. */
    ghost predicate Wired(run: ArcRun)
      reads this, base
    {
      && Indexed(Shape(), run.consumers, run.producers)
      && Lists(run.insOrder, nodeIns.Keys) && Lists(run.outsOrder, nodeOuts.Keys)
      && (forall o :: base.ArcsOn(InSide, o) == Merged([], Pairs(InSide, run.producers, o, VarsOf(nodeIns, o))))
      && (forall o :: base.ArcsOn(OutSide, o) == Merged([], Pairs(OutSide, run.consumers, o, VarsOf(nodeOuts, o))))
      && base.AtBothEnds()
    }

    /** The loops that add arcs, for a graph whose ops are those of a frozen net. */
    method Wire(ghost net: Net, ghost consumers: OpIndex, ghost producers: OpIndex) returns (ghost run: ArcRun)
      requires base.Valid() && NoArcs()
      requires Freezable(net) && Indexed(net, consumers, producers) && Shape() == Frozen(net, consumers, producers)
      modifies base
      ensures base.Valid() && NewEdges() && Wired(run) && Shape() == old(Shape()) && base.vertices == old(base.vertices)
      ensures forall a :: a in base.arcs <==> Feeds(Shape(), a)
    {
      hide FreshNames;
      hide Indexed;
      hide Frozen;
      hide NoArcs;
      hide Lists;
      hide NewEdges;
      hide Joinable;
      hide OpNames;
      hide GraphBase.Valid;
      hide Merged;
      hide Pairs;
      hide AllPairs;
      hide VarsOf;
      hide Feeds;
      FrozenIsValid(net, consumers, producers);
      FrozenIsJoinable(net, consumers, producers);
      run := ConnectArcs();
      forall a
        ensures a in base.arcs <==> a in base.ArcsOn(InSide, a.top)
        ensures a in base.arcs <==> a in base.ArcsOn(OutSide, a.bottom)
        ensures a in base.arcs <==> Feeds(Shape(), a)
      {
        ArcsAtBothEnds(Shape(), run.consumers, run.producers, run.insOrder, run.outsOrder, a);
      }
    }

    /** The made-up ops of a frozen graph and the notes about them. */
    ghost predicate Marked(notes: Notes, inputs: seq<string>, outputs: seq<string>, splits: seq<string>)
      reads this
    {
      && ins == notes.ins + inputs && outs == notes.outs + outputs
      && (forall o :: o in splitNum <==> o in notes.splitNum || o in splits)
      && (forall o :: o in splits ==> splitNum[o] == |VarsOf(nodeOuts, o)|)
      && (forall o :: o in notes.splitNum && o !in splits ==> splitNum[o] == notes.splitNum[o])
    }

    /** The loops that come before the arcs. */
    method AddAll() returns (ghost consumers: OpIndex, ghost producers: OpIndex, ghost inputs: seq<string>,
                             ghost outputs: seq<string>, ghost splits: seq<string>)
      requires base.Valid() && Freezable(Shape()) && NoArcs()
      modifies this, base
      ensures base.Valid() && NoArcs() && Indexed(old(Shape()), consumers, producers)
      ensures Extends(base.vertices, old(base.vertices))
      ensures Shape() == Frozen(old(Shape()), consumers, producers)
      ensures Lists(inputs, Inputs(consumers, producers)) && Lists(outputs, Outputs(consumers, producers))
      ensures Lists(splits, SplitOps(consumers)) && Marked(old(Noted()), inputs, outputs, splits)
    {
      hide Freezable;
      hide IsIndex;
      hide Lists;
      hide WithInputs;
      hide Frozen;
      hide SplitLists;
      hide SplitOps;
      hide Inputs;
      hide Outputs;
      hide GraphBase.Valid;
      hide OpNames;
      hide Notes.EnterAll;
      hide Extends;
      ghost var net := Shape();
      var consumerOps := BuildIndex(nodeIns);
      var producerOps := BuildIndex(nodeOuts);
      consumers, producers := consumerOps, producerOps;
      inputs := AddInputs(producerOps, consumers, net);
      ghost var vertices := base.vertices;
      outputs, splits := AddOutputsAndSplits(consumerOps, producers, net);
      ExtendsTransitive(base.vertices, vertices, old(base.vertices));
      EnterSplits(old(Noted()).(ins := old(ins) + inputs, outs := old(outs) + outputs), splits, SplitLists(consumers));
      SplitCounts(net, consumers, producers, splits);
    }

    /** Inputs, Outputs and Splits are added, the readers of split variables renamed, arcs made. */
    method Freeze() returns (ghost consumers: OpIndex, ghost producers: OpIndex, ghost inputs: seq<string>,
                             ghost outputs: seq<string>, ghost splits: seq<string>, ghost run: ArcRun)
      requires base.Valid() && Freezable(Shape()) && NoArcs()
      modifies this, base
      ensures base.Valid() && Indexed(old(Shape()), consumers, producers)
      ensures Shape() == Frozen(old(Shape()), consumers, producers)
      ensures Lists(inputs, Inputs(consumers, producers)) && Lists(outputs, Outputs(consumers, producers))
      ensures Lists(splits, SplitOps(consumers)) && Marked(old(Noted()), inputs, outputs, splits)
      ensures Wired(run) && forall a :: a in base.arcs <==> Feeds(Shape(), a)
      ensures Extends(base.vertices, old(base.vertices)) && NewEdges()
    {
      hide *;
      consumers, producers, inputs, outputs, splits := AddAll();
      run := Wire(old(Shape()), consumers, producers);
    }
  }

  lemma NoListNoVars(lists: map<string, seq<string>>)
    ensures forall o :: VarsOf(lists, o) == if o in lists then lists[o] else []
  {
  }
}
