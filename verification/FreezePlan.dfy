/** What Freeze plans and adds: Input, Output and Split ops, and the notes kept about them. */
module FreezePlan {
  import opened GraphNames
  import opened Nets
  import opened FreezeScans
  import opened GraphBase
  import opened FreezeArcs

  datatype Role = InputRole | OutputRole | SplitRole {
    function OpName(): string {
      match this
      case InputRole => "Input"
      case OutputRole => "Output"
      case SplitRole => "Split"
    }
  }

  // ----- the scan that finds Outputs and Splits

  /** op_map_ins, op_map_outs, split_map_ins and split_map_outs. */
  datatype Plan = Plan(opIns: map<string, seq<string>>, opOuts: map<string, seq<string>>,
                       splitIns: map<string, seq<string>>, splitOuts: map<string, seq<string>>)

  /** The plan once the variables in done have been visited. */
  ghost function PlanFor(consumers: OpIndex, done: set<string>): Plan {
    Plan(Own(done - consumers.Keys), Same(done - consumers.Keys, []),
         SplitEntries(done * Splits(consumers), Own(Splits(consumers))),
         SplitEntries(done * Splits(consumers), SplitOutLists(consumers)))
  }

  lemma PartInsIdle(lists: map<string, seq<string>>, consumers: OpIndex, done: set<string>, v: string)
    requires !IsSplit(consumers, v)
    ensures PartIns(lists, consumers, done + {v}) == PartIns(lists, consumers, done)
  {
    var part, whole := PartIns(lists, consumers, done), PartIns(lists, consumers, done + {v});
    forall o | o in lists ensures part[o] == whole[o] {
    }
  }

  lemma SplitEntriesNext<T>(done: set<string>, v: string, consumers: OpIndex, entry: map<string, T>)
    requires IsSplit(consumers, v) && entry.Keys == Splits(consumers)
    ensures SplitEntries((done + {v}) * Splits(consumers), entry) ==
            SplitEntries(done * Splits(consumers), entry)[SplitOp(v) := entry[v]]
  {
    hide SplitOp;
    hide SplitEntries;
    SplitOpsInjective();
    var before := SplitEntries(done * Splits(consumers), entry);
    var after := SplitEntries((done + {v}) * Splits(consumers), entry);
    assert (done + {v}) * Splits(consumers) == done * Splits(consumers) + {v};
    forall o ensures o in after <==> o in before || o == SplitOp(v) {
    }
    forall o | o in after ensures after[o] == before[SplitOp(v) := entry[v]][o] {
      var u :| u in (done + {v}) * Splits(consumers) && o == SplitOp(u);
    }
  }

  /** A variable that nobody reads gets an Output. */
  lemma PlanOutput(consumers: OpIndex, done: set<string>, v: string)
    requires v !in consumers
    ensures var plan := PlanFor(consumers, done);
      PlanFor(consumers, done + {v}) == plan.(opIns := plan.opIns[v := [v]], opOuts := plan.opOuts[v := []])
  {
    hide SplitEntries;
    hide Same;
    hide Own;
    OneMore<seq<string>>(done - consumers.Keys, v, []);
    assert (done + {v}) * Splits(consumers) == done * Splits(consumers);
    assert done + {v} - consumers.Keys == done - consumers.Keys + {v};
  }

  lemma PlanNothing(consumers: OpIndex, done: set<string>, v: string)
    requires v in consumers && |consumers[v]| <= 1
    ensures PlanFor(consumers, done + {v}) == PlanFor(consumers, done)
  {
    hide SplitEntries;
    assert (done + {v}) * Splits(consumers) == done * Splits(consumers);
    assert done + {v} - consumers.Keys == done - consumers.Keys;
  }

  lemma PlanSplit(consumers: OpIndex, done: set<string>, v: string)
    requires IsSplit(consumers, v)
    ensures var plan := PlanFor(consumers, done);
      PlanFor(consumers, done + {v}) ==
      plan.(splitIns := plan.splitIns[SplitOp(v) := [v]],
            splitOuts := plan.splitOuts[SplitOp(v) := SplitOuts(v, |consumers[v]|)])
  {
    assert done + {v} - consumers.Keys == done - consumers.Keys && v in Splits(consumers);
    hide SplitEntries;
    hide Same;
    hide Own;
    hide SplitOutLists;
    hide Splits;
    hide SplitOuts;
    hide SplitOp;
    SplitEntriesNext(done, v, consumers, Own(Splits(consumers)));
    SplitEntriesNext(done, v, consumers, SplitOutLists(consumers));
  }

  lemma PlanNone(lists: map<string, seq<string>>, consumers: OpIndex)
    ensures PlanFor(consumers, {}) == Plan(map[], map[], map[], map[])
    ensures PartIns(lists, consumers, {}) == lists
  {
    assert {} * Splits(consumers) == {};
    forall o | o in lists ensures PartIns(lists, consumers, {})[o] == lists[o] {
    }
  }

  lemma ListedBy(lists: map<string, seq<string>>, o: string)
    requires o in lists
    ensures forall v :: v in lists[o] <==> exists k: nat :: Slot(lists, o, k, v)
    ensures forall v :: v in lists[o] ==> Listed(lists, v)
  {
    forall v | v in lists[o] ensures (exists k: nat :: Slot(lists, o, k, v)) && Listed(lists, v) {
      var k: nat :| k < |lists[o]| && lists[o][k] == v;
      assert Slot(lists, o, k, v);
    }
  }

  lemma ConsumersAreOps(lists: map<string, seq<string>>, consumers: OpIndex, done: set<string>, v: string)
    requires IsIndex(consumers, lists) && v in consumers
    ensures forall o :: o in consumers[v] ==> o in PartIns(lists, consumers, done)
  {
    IndexCovers(consumers, lists, v);
  }

  /** _ins, _outs and the split_num attributes. */
  datatype Notes = Notes(ins: seq<string>, outs: seq<string>, splitNum: map<string, int>) {
    function Enter(role: Role, v: string, count: nat): Notes {
      match role
      case InputRole => this.(ins := ins + [v])
      case OutputRole => this.(outs := outs + [v])
      case SplitRole => this.(splitNum := splitNum[v := count])
    }

    ghost function EnterAll(role: Role, vs: seq<string>, opOuts: map<string, seq<string>>): Notes
      decreases |vs|
    {
      if vs == [] then this
      else EnterAll(role, vs[..|vs| - 1], opOuts).Enter(role, vs[|vs| - 1], |VarsOf(opOuts, vs[|vs| - 1])|)
    }
  }

  lemma EnterNext(notes: Notes, role: Role, added: seq<string>, done: set<string>, v: string,
                  opOuts: map<string, seq<string>>)
    requires Lists(added, done) && v !in done && v in opOuts
    ensures Lists(added + [v], done + {v})
    ensures notes.EnterAll(role, added + [v], opOuts) ==
            notes.EnterAll(role, added, opOuts).Enter(role, v, |opOuts[v]|)
  {
    assert (added + [v])[..|added|] == added;
  }

  function With(net: Net, o: string, opName: string, inputs: seq<string>, outputs: seq<string>): Net {
    Net(net.types[o := opName], net.ins[o := inputs], net.outs[o := outputs])
  }

  /** A net with made-up ops added to it. */
  ghost function Joined(net: Net, role: Role, opIns: map<string, seq<string>>, opOuts: map<string, seq<string>>): Net {
    Net(net.types + Same(opIns.Keys, role.OpName()), net.ins + opIns, net.outs + opOuts)
  }

  function Only<T>(m: map<string, T>, vs: set<string>): map<string, T> {
    m - (m.Keys - vs)
  }

  lemma OnlyNext<T>(m: map<string, T>, entry: map<string, T>, done: set<string>, v: string)
    requires v in entry
    ensures m + Only(entry, done + {v}) == (m + Only(entry, done))[v := entry[v]]
  {
    assert Only(entry, done + {v}) == Only(entry, done)[v := entry[v]];
  }

  ghost function Grown(net: Net, role: Role, opIns: map<string, seq<string>>, opOuts: map<string, seq<string>>,
                       done: set<string>): Net {
    Joined(net, role, Only(opIns, done), Only(opOuts, done))
  }

  lemma GrownNone(net: Net, role: Role, opIns: map<string, seq<string>>, opOuts: map<string, seq<string>>)
    ensures Grown(net, role, opIns, opOuts, {}) == net
  {
  }

  lemma GrownNext(net: Net, role: Role, opIns: map<string, seq<string>>, opOuts: map<string, seq<string>>,
                  done: set<string>, v: string)
    requires v in opIns && v in opOuts
    ensures Grown(net, role, opIns, opOuts, done + {v}) ==
            With(Grown(net, role, opIns, opOuts, done), v, role.OpName(), opIns[v], opOuts[v])
  {
    OnlyNext(net.ins, opIns, done, v);
    OnlyNext(net.outs, opOuts, done, v);
    var entry := Same(opIns.Keys, role.OpName());
    OnlyNext(net.types, entry, done, v);
    assert Same(Only(opIns, done).Keys, role.OpName()) == Only(entry, done);
    assert Same(Only(opIns, done + {v}).Keys, role.OpName()) == Only(entry, done + {v});
    hide Only;
    hide Same;
  }

  lemma GrownAll(net: Net, role: Role, opIns: map<string, seq<string>>, opOuts: map<string, seq<string>>)
    requires opIns.Keys == opOuts.Keys
    ensures Grown(net, role, opIns, opOuts, opIns.Keys) == Joined(net, role, opIns, opOuts)
  {
    assert Only(opIns, opIns.Keys) == opIns;
    assert Only(opOuts, opIns.Keys) == opOuts;
  }

  // ----- the notes

  lemma {:induction false} EnterInputs(notes: Notes, vs: seq<string>, opOuts: map<string, seq<string>>)
    ensures notes.EnterAll(InputRole, vs, opOuts) == notes.(ins := notes.ins + vs)
    ensures notes.EnterAll(OutputRole, vs, opOuts) == notes.(outs := notes.outs + vs)
  {
    if vs != [] {
      var n := |vs| - 1;
      EnterInputs(notes, vs[..n], opOuts);
      assert vs == vs[..n] + [vs[n]];
      assert notes.ins + vs == notes.ins + vs[..n] + [vs[n]] && notes.outs + vs == notes.outs + vs[..n] + [vs[n]];
    }
  }

  /** Each Split gets the number of its outputs; other attributes stay. */
  lemma {:induction false} EnterSplits(notes: Notes, vs: seq<string>, opOuts: map<string, seq<string>>)
    ensures var after := notes.EnterAll(SplitRole, vs, opOuts);
      && after.ins == notes.ins && after.outs == notes.outs
      && (forall o :: o in after.splitNum <==> o in notes.splitNum || o in vs)
      && (forall o :: o in vs ==> o in after.splitNum && after.splitNum[o] == |VarsOf(opOuts, o)|)
      && (forall o :: o in notes.splitNum && o !in vs ==> after.splitNum[o] == notes.splitNum[o])
  {
    if vs != [] {
      var n := |vs| - 1;
      EnterSplits(notes, vs[..n], opOuts);
      assert vs == vs[..n] + [vs[n]];
    }
  }

  // ----- after the Inputs are added

  ghost function WithInputs(net: Net, consumers: OpIndex, producers: OpIndex): Net {
    Joined(net, InputRole, Same(Inputs(consumers, producers), []), Own(Inputs(consumers, producers)))
  }

  lemma WithInputsSlots(net: Net, consumers: OpIndex, producers: OpIndex)
    requires Freezable(net) && Indexed(net, consumers, producers)
    ensures var f := WithInputs(net, consumers, producers);
      && (forall o, k: nat, v :: Slot(f.ins, o, k, v) <==> Slot(net.ins, o, k, v))
      && (forall o, k: nat, v :: Slot(f.outs, o, k, v) <==>
            Slot(net.outs, o, k, v) || (v in Inputs(consumers, producers) && o == v && k == 0))
  {
    FrozenNames(net, consumers, producers);
    hide FreshNames;
    hide Indexed;
    hide OnceEach;
    hide Inputs;
    hide Outputs;
    hide SplitOp;
    hide Same;
    hide Own;
  }

  lemma SameSlotsSameIndex(index: OpIndex, lists: map<string, seq<string>>, lists': map<string, seq<string>>)
    requires IsIndex(index, lists)
    requires forall o, k: nat, v :: Slot(lists', o, k, v) <==> Slot(lists, o, k, v)
    ensures IsIndex(index, lists')
  {
    var slots: SlotIndex :| Indexes(index, slots, lists);
    hide Slot;
    assert Indexes(index, slots, lists');
  }

  lemma WithInputsListed(net: Net, consumers: OpIndex, producers: OpIndex, v: string)
    requires Freezable(net) && Indexed(net, consumers, producers)
    ensures var f := WithInputs(net, consumers, producers);
      && (Listed(f.ins, v) <==> v in consumers)
      && (Listed(f.outs, v) <==> v in producers || v in Inputs(consumers, producers))
  {
    WithInputsSlots(net, consumers, producers);
    IndexKeys(net, consumers, producers);
    hide Freezable;
    hide Indexed;
    hide Slot;
    hide WithInputs;
    var f := WithInputs(net, consumers, producers);
    if Listed(net.ins, v) {
      var o: string, k: nat :| Slot(net.ins, o, k, v);
      assert Slot(f.ins, o, k, v);
    }
    if Listed(net.outs, v) {
      var o: string, k: nat :| Slot(net.outs, o, k, v);
      assert Slot(f.outs, o, k, v);
    }
    if v in Inputs(consumers, producers) {
      assert Slot(f.outs, v, 0, v);
    }
  }

  /** The net with its Inputs meets what the second scan needs. */
  lemma WithInputsScannable(net: Net, consumers: OpIndex, producers: OpIndex)
    requires Freezable(net) && Indexed(net, consumers, producers)
    ensures var f := WithInputs(net, consumers, producers);
      && IsIndex(consumers, f.ins) && OnceEach(f.outs)
      && forall v, u, i: nat :: Listed(f.outs, v) && Listed(f.ins, u) ==> SplitVar(u, i) != v
  {
    var f := WithInputs(net, consumers, producers);
    WithInputsSlots(net, consumers, producers);
    SameSlotsSameIndex(consumers, net.ins, f.ins);
    IndexKeys(net, consumers, producers);
    forall v, u, i: nat | Listed(f.outs, v) && Listed(f.ins, u) ensures SplitVar(u, i) != v {
      WithInputsListed(net, consumers, producers, u);
      WithInputsListed(net, consumers, producers, v);
    }
    forall v: string, o: string, k: nat, o': string, k': nat | Slot(f.outs, o, k, v) && Slot(f.outs, o', k', v)
      ensures o == o' && k == k'
    {
      hide FreshNames;
      hide WithInputs;
      if v in Inputs(consumers, producers) {
        assert !Listed(net.outs, v);
        assert !Slot(net.outs, o, k, v) && !Slot(net.outs, o', k', v);
      }
    }
  }

  // ----- after the second scan

  ghost function SplitLists(consumers: OpIndex): map<string, seq<string>> {
    SplitEntries(Splits(consumers), SplitOutLists(consumers))
  }

  ghost function SplitOps(consumers: OpIndex): set<string> { SplitLists(consumers).Keys }

  ghost function WholePlan(consumers: OpIndex, producers: OpIndex): Plan {
    Plan(Own(Outputs(consumers, producers)), Same(Outputs(consumers, producers), []),
         SplitEntries(Splits(consumers), Own(Splits(consumers))), SplitLists(consumers))
  }

  lemma PlanDone(net: Net, consumers: OpIndex, producers: OpIndex, done: set<string>)
    requires forall v :: v in done <==> v in producers || v in Inputs(consumers, producers)
    ensures PlanFor(consumers, done) == WholePlan(consumers, producers)
  {
    hide SplitEntries;
    assert done - consumers.Keys == Outputs(consumers, producers);
    assert done * Splits(consumers) == Splits(consumers);
  }

  lemma RenamedListDone(net: Net, consumers: OpIndex, producers: OpIndex, done: set<string>, o: string)
    requires Indexed(net, consumers, producers) && o in net.ins
    requires forall v :: v in done <==> v in producers || v in Inputs(consumers, producers)
    ensures RenamedList(consumers, done, o, net.ins[o]) == RenamedAll(consumers, o, net.ins[o])
  {
    IndexKeys(net, consumers, producers);
    hide Indexed;
    hide SplitVar;
    forall k: nat | k < |net.ins[o]|
      ensures RenamedList(consumers, done, o, net.ins[o])[k] == RenamedAll(consumers, o, net.ins[o])[k]
    {
      assert Slot(net.ins, o, k, net.ins[o][k]);
      hide Renamed;
    }
  }

  lemma PartInsAt(net: Net, consumers: OpIndex, producers: OpIndex, done: set<string>, o: string)
    requires Freezable(net) && Indexed(net, consumers, producers)
    requires forall v :: v in done <==> v in producers || v in Inputs(consumers, producers)
    ensures var a := PartIns(net.ins + Same(Inputs(consumers, producers), []), consumers, done);
      var b := RenamedIns(net, consumers) + Same(Inputs(consumers, producers), []);
      (o in a <==> o in b) && (o in a ==> a[o] == b[o])
  {
    FrozenNames(net, consumers, producers);
    hide FreshNames;
    hide PartIns;
    hide RenamedIns;
    hide Same;
    if o in net.ins {
      RenamedListDone(net, consumers, producers, done, o);
      hide Inputs;
    }
  }

  lemma PartInsDone(net: Net, consumers: OpIndex, producers: OpIndex, done: set<string>)
    requires Freezable(net) && Indexed(net, consumers, producers)
    requires forall v :: v in done <==> v in producers || v in Inputs(consumers, producers)
    ensures PartIns(net.ins + Same(Inputs(consumers, producers), []), consumers, done) ==
            RenamedIns(net, consumers) + Same(Inputs(consumers, producers), [])
  {
    hide *;
    var a := PartIns(net.ins + Same(Inputs(consumers, producers), []), consumers, done);
    var b := RenamedIns(net, consumers) + Same(Inputs(consumers, producers), []);
    forall o ensures (o in a <==> o in b) && (o in a ==> a[o] == b[o]) {
      PartInsAt(net, consumers, producers, done, o);
    }
  }

  lemma SplitTypes(consumers: OpIndex, entry: map<string, seq<string>>)
    requires entry.Keys == Splits(consumers)
    ensures Same(SplitEntries(Splits(consumers), entry).Keys, "Split") ==
            SplitEntries(Splits(consumers), Same(Splits(consumers), "Split"))
  {
    hide SplitEntries;
    hide Same;
    hide SplitOp;
    var a := SplitEntries(Splits(consumers), entry);
    var b := SplitEntries(Splits(consumers), Same(Splits(consumers), "Split"));
    forall o ensures o in a <==> o in b {
    }
  }

  /** The three rounds of AddOp and the renaming give the frozen net. */
  lemma RoundsGiveFrozen(net: Net, consumers: OpIndex, producers: OpIndex, done: set<string>)
    requires Freezable(net) && Indexed(net, consumers, producers)
    requires forall v :: v in done <==> v in producers || v in Inputs(consumers, producers)
    ensures var plan := PlanFor(consumers, done);
      var before := WithInputs(net, consumers, producers);
      var renamed := Net(before.types, PartIns(before.ins, consumers, done), before.outs);
      Joined(Joined(renamed, OutputRole, plan.opIns, plan.opOuts), SplitRole, plan.splitIns, plan.splitOuts) ==
      Frozen(net, consumers, producers)
  {
    PlanDone(net, consumers, producers, done);
    PartInsDone(net, consumers, producers, done);
    SplitTypes(consumers, Own(Splits(consumers)));
    hide PlanFor;
    hide PartIns;
    hide SplitEntries;
    hide Same;
    hide Own;
    hide RenamedIns;
    hide SplitOutLists;
    hide Freezable;
    hide Indexed;
    hide Splits;
    hide Inputs;
    hide Outputs;
  }

  /** No round adds an op that is there already. */
  lemma RoundsAreNew(net: Net, consumers: OpIndex, producers: OpIndex, o: string)
    requires Freezable(net) && Indexed(net, consumers, producers)
    ensures var types := WithInputs(net, consumers, producers).types;
      && (o in types <==> o in net.types || o in Inputs(consumers, producers))
      && (o in Outputs(consumers, producers) ==> o !in types)
      && (o in SplitOps(consumers) ==> o !in types && o !in Outputs(consumers, producers))
  {
    FrozenNames(net, consumers, producers);
    hide FreshNames;
    hide Indexed;
    hide SplitEntries;
    hide Same;
    hide Own;
    hide SplitOp;
    hide SplitOutLists;
  }

  lemma SameSplitOps(consumers: OpIndex)
    ensures SplitEntries(Splits(consumers), Own(Splits(consumers))).Keys == SplitOps(consumers)
  {
    hide SplitEntries;
    hide Own;
    hide SplitOp;
    hide SplitOutLists;
    var a, b := SplitEntries(Splits(consumers), Own(Splits(consumers))), SplitLists(consumers);
    forall o ensures o in a <==> o in b {
    }
  }

  // ----- the arcs

  lemma PairsNext(side: Side, index: OpIndex, o: string, vs: seq<string>, k: nat)
    requires k < |vs|
    ensures var before, after := Pairs(side, index, o, vs[..k]), Pairs(side, index, o, vs[..k + 1]);
      && after == before + (if Links(index, vs[k]) then [Link(side, o, OpAt(index, vs[k]))] else [])
      && Merged([], after) ==
           if Links(index, vs[k]) then Append(Merged([], before), Link(side, o, OpAt(index, vs[k])))
           else Merged([], before)
  {
    assert vs[..k + 1][..k] == vs[..k] && vs[..k + 1][k] == vs[k];
    var before, a := Pairs(side, index, o, vs[..k]), Link(side, o, OpAt(index, vs[k]));
    assert (before + [a])[..|before|] == before;
    assert before + [] == before;
  }

  lemma OrderNext(side: Side, index: OpIndex, lists: map<string, seq<string>>, order: seq<string>, done: set<string>,
                  o: string)
    requires Lists(order, done) && o !in done && o in lists
    ensures Lists(order + [o], done + {o})
    ensures AllPairs(side, index, lists, order + [o]) ==
            AllPairs(side, index, lists, order) + Pairs(side, index, o, lists[o])
  {
    assert (order + [o])[..|order|] == order;
  }

  lemma SplitCounts(net: Net, consumers: OpIndex, producers: OpIndex, splits: seq<string>)
    requires Lists(splits, SplitOps(consumers))
    ensures forall o :: o in splits ==>
      |VarsOf(SplitLists(consumers), o)| == |VarsOf(Frozen(net, consumers, producers).outs, o)|
  {
    forall o | o in splits
      ensures |VarsOf(SplitLists(consumers), o)| == |VarsOf(Frozen(net, consumers, producers).outs, o)|
    {
      var v :| v in Splits(consumers) && o == SplitOp(v);
      FrozenSplit(net, consumers, producers, v);
      hide Frozen;
    }
  }
}
