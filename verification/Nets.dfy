/** Operator nets: ops with named input and output variables, and the net that Freeze turns one into. */
module Nets {
  import opened GraphNames

  /** What AddOp records: the op name of each vertex and its variable lists. */
  datatype Net = Net(types: map<string, string>, ins: map<string, seq<string>>, outs: map<string, seq<string>>)

  ghost predicate Valid(net: Net) {
    net.types.Keys == net.ins.Keys == net.outs.Keys
  }

  /** Op o lists variable v at place k. */
  ghost predicate Slot(lists: map<string, seq<string>>, o: string, k: nat, v: string) {
    o in lists && k < |lists[o]| && lists[o][k] == v
  }

  ghost predicate Listed(lists: map<string, seq<string>>, v: string) {
    exists o: string, k: nat :: Slot(lists, o, k, v)
  }

  /** No variable is listed twice. */
  ghost predicate OnceEach(lists: map<string, seq<string>>) {
    forall v: string, o: string, k: nat, o': string, k': nat ::
      Slot(lists, o, k, v) && Slot(lists, o', k', v) ==> o == o' && k == k'
  }

  /** No op lists a variable twice. */
  ghost predicate NoRepeats(lists: map<string, seq<string>>) {
    forall v: string, o: string, k: nat, k': nat :: Slot(lists, o, k, v) && Slot(lists, o, k', v) ==> k == k'
  }

  /** Made-up names are free, and no variable that lacks a producer or a consumer is named like an op. */
  ghost predicate FreshNames(net: Net) {
    && (forall v :: Listed(net.ins, v) != Listed(net.outs, v) ==> v !in net.types)
    && (forall v :: Listed(net.ins, v) ==> SplitOp(v) !in net.types)
    && (forall v, w :: Listed(net.ins, v) && (Listed(net.ins, w) || Listed(net.outs, w)) ==> SplitOp(v) != w)
    && (forall v, i: nat :: Listed(net.ins, v) ==>
          !Listed(net.ins, SplitVar(v, i)) && !Listed(net.outs, SplitVar(v, i)))
  }

  /** What Freeze needs: at most one producer per variable, and names that do not collide. */
  ghost predicate Freezable(net: Net) {
    Valid(net) && OnceEach(net.outs) && FreshNames(net)
  }

  // ----- the variable-to-op maps

  /** in_to_op_map and out_to_op_map: for each variable the ops that list it, one entry per place. */
  type OpIndex = map<string, seq<string>>

  /** The places behind the entries of an index. */
  type SlotIndex = map<string, seq<(string, nat)>>

  ghost predicate Indexes(index: OpIndex, slots: SlotIndex, lists: map<string, seq<string>>) {
    && index.Keys == slots.Keys
    && (forall v :: v in index ==> index[v] != [] && |index[v]| == |slots[v]|)
    && (forall v, i: nat :: v in index && i < |index[v]| ==>
          index[v][i] == slots[v][i].0 && Slot(lists, slots[v][i].0, slots[v][i].1, v))
    && (forall v, i, j :: v in slots && 0 <= i < j < |slots[v]| ==> slots[v][i] != slots[v][j])
    && (forall v: string, o: string, k: nat :: Slot(lists, o, k, v) ==> v in slots && (o, k) in slots[v])
  }

  ghost predicate IsIndex(index: OpIndex, lists: map<string, seq<string>>) {
    exists slots: SlotIndex :: Indexes(index, slots, lists)
  }

  lemma IndexCovers(index: OpIndex, lists: map<string, seq<string>>, v: string)
    requires IsIndex(index, lists)
    ensures v in index <==> Listed(lists, v)
    ensures v in index ==> index[v] != [] && forall o :: o in index[v] ==> exists k: nat :: Slot(lists, o, k, v)
    ensures forall o, k: nat :: Slot(lists, o, k, v) ==> v in index && o in index[v]
  {
    var slots: SlotIndex :| Indexes(index, slots, lists);
    if v in index {
      assert Slot(lists, slots[v][0].0, slots[v][0].1, v);
      forall o | o in index[v] ensures exists k: nat :: Slot(lists, o, k, v) {
        var i: nat :| i < |index[v]| && index[v][i] == o;
        assert Slot(lists, slots[v][i].0, slots[v][i].1, v);
      }
    }
    forall o, k: nat | Slot(lists, o, k, v) ensures v in index && o in index[v] {
      var i: nat :| i < |slots[v]| && slots[v][i] == (o, k);
      assert index[v][i] == o;
    }
  }

  // ----- the frozen net

  function FirstIndex(ops: seq<string>, o: string): (i: nat)
    requires o in ops
    ensures i < |ops| && ops[i] == o && o !in ops[..i]
  {
    if ops[0] == o then 0 else 1 + FirstIndex(ops[1..], o)
  }

  lemma FirstIndexIs(ops: seq<string>, o: string, i: nat)
    requires i < |ops| && ops[i] == o && o !in ops[..i]
    ensures FirstIndex(ops, o) == i
  {
    if i > 0 {
      assert ops[0] == ops[..i][0] && ops[1..][..i - 1] == ops[..i][1..];
      FirstIndexIs(ops[1..], o, i - 1);
    }
  }

  predicate IsSplit(index: OpIndex, v: string) {
    v in index && |index[v]| > 1
  }

  /** The name op o reads variable v under once v is split. */
  function Renamed(index: OpIndex, o: string, v: string): string {
    if IsSplit(index, v) && o in index[v] then SplitVar(v, FirstIndex(index[v], o)) else v
  }

  function RenamedAll(index: OpIndex, o: string, vs: seq<string>): (r: seq<string>)
    ensures |r| == |vs|
  {
    seq(|vs|, k requires 0 <= k < |vs| => Renamed(index, o, vs[k]))
  }

  function Splits(index: OpIndex): set<string> { set v | v in index && |index[v]| > 1 }

  function SplitOuts(v: string, count: nat): (r: seq<string>)
    ensures |r| == count
  {
    seq(count, i requires 0 <= i < count => SplitVar(v, i))
  }

  /** Consumed but not produced, and produced but not consumed; the two indexes are those of the given net. */
  function Inputs(consumers: OpIndex, producers: OpIndex): set<string> { consumers.Keys - producers.Keys }

  function Outputs(consumers: OpIndex, producers: OpIndex): set<string> { producers.Keys - consumers.Keys }

  /** One entry per kept op, Input, Output and Split. */
  function Assemble<T>(kept: map<string, T>, inputs: map<string, T>, outputs: map<string, T>,
                       splits: map<string, T>): map<string, T> {
    kept + inputs + outputs + splits
  }

  /** The map with these keys that f describes. */
  ghost function Table<T>(vs: set<string>, f: string --> T): (m: map<string, T>)
    requires forall v :: v in vs ==> f.requires(v)
    ensures m.Keys == vs && forall v :: v in vs ==> m[v] == f(v)
  {
    if vs == {} then map[]
    else var v :| v in vs; Table(vs - {v}, f)[v := f(v)]
  }

  ghost function SplitEntries<T>(vs: set<string>, entry: map<string, T>): (m: map<string, T>)
    requires vs <= entry.Keys
    ensures forall v :: v in vs ==> SplitOp(v) in m && m[SplitOp(v)] == entry[v]
    ensures forall o :: o in m ==> exists v :: v in vs && o == SplitOp(v)
  {
    SplitOpsInjective();
    if vs == {} then map[]
    else var v :| v in vs; SplitEntries(vs - {v}, entry)[SplitOp(v) := entry[v]]
  }

  ghost function Same<T>(vs: set<string>, x: T): (m: map<string, T>)
    ensures m.Keys == vs && forall v :: v in vs ==> m[v] == x
  {
    Table(vs, v => x)
  }

  ghost function Own(vs: set<string>): (m: map<string, seq<string>>)
    ensures m.Keys == vs && forall v :: v in vs ==> m[v] == [v]
  {
    Table(vs, v => [v])
  }

  lemma OneMore<T>(vs: set<string>, v: string, x: T)
    ensures Same(vs + {v}, x) == Same(vs, x)[v := x]
    ensures Own(vs + {v}) == Own(vs)[v := [v]]
  {
    hide Same;
    hide Own;
  }

  lemma NoneYet<T>(x: T)
    ensures Same({}, x) == map[] && Own({}) == map[]
  {
    hide Same;
    hide Own;
  }

  ghost function RenamedIns(net: Net, consumers: OpIndex): (m: map<string, seq<string>>)
    ensures m.Keys == net.ins.Keys && forall o :: o in net.ins ==> m[o] == RenamedAll(consumers, o, net.ins[o])
  {
    Table(net.ins.Keys, o requires o in net.ins => RenamedAll(consumers, o, net.ins[o]))
  }

  ghost function SplitOutLists(consumers: OpIndex): (m: map<string, seq<string>>)
    ensures m.Keys == Splits(consumers)
    ensures forall v :: v in Splits(consumers) ==> m[v] == SplitOuts(v, |consumers[v]|)
  {
    Table(Splits(consumers), v requires v in consumers => SplitOuts(v, |consumers[v]|))
  }

  ghost function FrozenTypes(net: Net, consumers: OpIndex, producers: OpIndex): map<string, string> {
    Assemble(net.types, Same(Inputs(consumers, producers), "Input"), Same(Outputs(consumers, producers), "Output"),
             SplitEntries(Splits(consumers), Same(Splits(consumers), "Split")))
  }

  ghost function FrozenIns(net: Net, consumers: OpIndex, producers: OpIndex): map<string, seq<string>> {
    Assemble(RenamedIns(net, consumers), Same(Inputs(consumers, producers), []), Own(Outputs(consumers, producers)),
             SplitEntries(Splits(consumers), Own(Splits(consumers))))
  }

  ghost function FrozenOuts(net: Net, consumers: OpIndex, producers: OpIndex): map<string, seq<string>> {
    Assemble(net.outs, Own(Inputs(consumers, producers)), Same(Outputs(consumers, producers), []),
             SplitEntries(Splits(consumers), SplitOutLists(consumers)))
  }

  /** The net after Freeze, for the order in which the maps happened to be scanned. */
  ghost function Frozen(net: Net, consumers: OpIndex, producers: OpIndex): Net {
    Net(FrozenTypes(net, consumers, producers), FrozenIns(net, consumers, producers),
        FrozenOuts(net, consumers, producers))
  }

  ghost predicate Indexed(net: Net, consumers: OpIndex, producers: OpIndex) {
    IsIndex(consumers, net.ins) && IsIndex(producers, net.outs)
  }

  lemma IndexKeys(net: Net, consumers: OpIndex, producers: OpIndex)
    requires Indexed(net, consumers, producers)
    ensures forall v :: v in consumers <==> Listed(net.ins, v)
    ensures forall v :: v in producers <==> Listed(net.outs, v)
  {
    forall v ensures (v in consumers <==> Listed(net.ins, v)) && (v in producers <==> Listed(net.outs, v)) {
      IndexCovers(consumers, net.ins, v);
      IndexCovers(producers, net.outs, v);
    }
  }

  /** The four kinds of op in a frozen net have different names. */
  lemma FrozenNames(net: Net, consumers: OpIndex, producers: OpIndex)
    requires Freezable(net) && Indexed(net, consumers, producers)
    ensures Inputs(consumers, producers) !! net.types.Keys
    ensures Outputs(consumers, producers) !! net.types.Keys
    ensures forall v :: v in Splits(consumers) ==> SplitOp(v) !in net.types
    ensures forall v :: v in Splits(consumers) ==> SplitOp(v) !in Inputs(consumers, producers)
    ensures forall v :: v in Splits(consumers) ==> SplitOp(v) !in Outputs(consumers, producers)
  {
    IndexKeys(net, consumers, producers);
  }

  ghost predicate Entry(net: Net, o: string, opName: string, ins: seq<string>, outs: seq<string>) {
    && o in net.types && o in net.ins && o in net.outs
    && net.types[o] == opName && net.ins[o] == ins && net.outs[o] == outs
  }

  lemma AssembleGets<T>(kept: map<string, T>, inputs: map<string, T>, outputs: map<string, T>,
                        splits: map<string, T>, o: string)
    ensures var m := Assemble(kept, inputs, outputs, splits);
      && (o in splits ==> o in m && m[o] == splits[o])
      && (o in outputs && o !in splits ==> o in m && m[o] == outputs[o])
      && (o in inputs && o !in outputs && o !in splits ==> o in m && m[o] == inputs[o])
      && (o in kept && o !in inputs && o !in outputs && o !in splits ==> o in m && m[o] == kept[o])
      && (o in m <==> o in kept || o in inputs || o in outputs || o in splits)
  {
  }

  predicate NotMadeUp(consumers: OpIndex, producers: OpIndex, o: string) {
    o !in Inputs(consumers, producers) && o !in Outputs(consumers, producers)
  }

  lemma GetsTypes(net: Net, consumers: OpIndex, producers: OpIndex, o: string)
    ensures var m := FrozenTypes(net, consumers, producers);
      var splits := SplitEntries(Splits(consumers), Same(Splits(consumers), "Split"));
      && (o in splits ==> o in m && m[o] == splits[o])
      && (o in Outputs(consumers, producers) && o !in splits ==> o in m && m[o] == "Output")
      && (o in Inputs(consumers, producers) && o !in splits ==> o in m && m[o] == "Input")
      && (o in net.types && NotMadeUp(consumers, producers, o) && o !in splits ==> o in m && m[o] == net.types[o])
  {
    AssembleGets(net.types, Same(Inputs(consumers, producers), "Input"), Same(Outputs(consumers, producers), "Output"),
                 SplitEntries(Splits(consumers), Same(Splits(consumers), "Split")), o);
    hide Assemble;
  }

  lemma GetsIns(net: Net, consumers: OpIndex, producers: OpIndex, o: string)
    ensures var m := FrozenIns(net, consumers, producers);
      var splits := SplitEntries(Splits(consumers), Own(Splits(consumers)));
      && (o in splits ==> o in m && m[o] == splits[o])
      && (o in Outputs(consumers, producers) && o !in splits ==> o in m && m[o] == [o])
      && (o in Inputs(consumers, producers) && o !in splits ==> o in m && m[o] == [])
      && (o in net.ins && NotMadeUp(consumers, producers, o) && o !in splits ==>
            o in m && m[o] == RenamedAll(consumers, o, net.ins[o]))
  {
    AssembleGets(RenamedIns(net, consumers), Same(Inputs(consumers, producers), []), Own(Outputs(consumers, producers)),
                 SplitEntries(Splits(consumers), Own(Splits(consumers))), o);
    hide Assemble;
  }

  lemma GetsOuts(net: Net, consumers: OpIndex, producers: OpIndex, o: string)
    ensures var m := FrozenOuts(net, consumers, producers);
      var splits := SplitEntries(Splits(consumers), SplitOutLists(consumers));
      && (o in splits ==> o in m && m[o] == splits[o])
      && (o in Outputs(consumers, producers) && o !in splits ==> o in m && m[o] == [])
      && (o in Inputs(consumers, producers) && o !in splits ==> o in m && m[o] == [o])
      && (o in net.outs && NotMadeUp(consumers, producers, o) && o !in splits ==> o in m && m[o] == net.outs[o])
  {
    AssembleGets(net.outs, Own(Inputs(consumers, producers)), Same(Outputs(consumers, producers), []),
                 SplitEntries(Splits(consumers), SplitOutLists(consumers)), o);
    hide Assemble;
  }

  lemma FrozenOp(net: Net, consumers: OpIndex, producers: OpIndex, o: string)
    requires Freezable(net) && Indexed(net, consumers, producers) && o in net.types
    ensures Entry(Frozen(net, consumers, producers), o, net.types[o],
                  RenamedAll(consumers, o, net.ins[o]), net.outs[o])
  {
    hide Assemble;
    FrozenNames(net, consumers, producers);
    GetsTypes(net, consumers, producers, o);
    GetsIns(net, consumers, producers, o);
    GetsOuts(net, consumers, producers, o);
    hide FreshNames;
    hide IsIndex;
    hide OnceEach;
  }

  lemma FrozenInput(net: Net, consumers: OpIndex, producers: OpIndex, v: string)
    requires Freezable(net) && Indexed(net, consumers, producers) && v in Inputs(consumers, producers)
    ensures Entry(Frozen(net, consumers, producers), v, "Input", [], [v])
  {
    hide Assemble;
    FrozenNames(net, consumers, producers);
    GetsTypes(net, consumers, producers, v);
    GetsIns(net, consumers, producers, v);
    GetsOuts(net, consumers, producers, v);
    hide FreshNames;
    hide IsIndex;
    hide OnceEach;
  }

  lemma FrozenOutput(net: Net, consumers: OpIndex, producers: OpIndex, v: string)
    requires Freezable(net) && Indexed(net, consumers, producers) && v in Outputs(consumers, producers)
    ensures Entry(Frozen(net, consumers, producers), v, "Output", [v], [])
  {
    hide Assemble;
    FrozenNames(net, consumers, producers);
    GetsTypes(net, consumers, producers, v);
    GetsIns(net, consumers, producers, v);
    GetsOuts(net, consumers, producers, v);
    hide FreshNames;
    hide IsIndex;
    hide OnceEach;
  }

  lemma FrozenSplit(net: Net, consumers: OpIndex, producers: OpIndex, v: string)
    requires v in Splits(consumers)
    ensures Entry(Frozen(net, consumers, producers), SplitOp(v), "Split", [v], SplitOuts(v, |consumers[v]|))
  {
    hide Assemble;
    GetsTypes(net, consumers, producers, SplitOp(v));
    GetsIns(net, consumers, producers, SplitOp(v));
    GetsOuts(net, consumers, producers, SplitOp(v));
  }

  /** There are no other ops. */
  lemma FrozenKinds(net: Net, consumers: OpIndex, producers: OpIndex, o: string)
    requires Valid(net)
    ensures var f := Frozen(net, consumers, producers);
      && (o in f.types <==> o in f.ins) && (o in f.types <==> o in f.outs)
      && (o in f.types ==>
            || o in net.types || o in Inputs(consumers, producers) || o in Outputs(consumers, producers)
            || exists v :: v in Splits(consumers) && o == SplitOp(v))
  {
  }

  lemma FrozenIsValid(net: Net, consumers: OpIndex, producers: OpIndex)
    requires Valid(net)
    ensures Valid(Frozen(net, consumers, producers))
  {
    hide Frozen;
    var f := Frozen(net, consumers, producers);
    forall o ensures (o in f.types <==> o in f.ins) && (o in f.types <==> o in f.outs) {
      FrozenKinds(net, consumers, producers, o);
    }
  }
}
