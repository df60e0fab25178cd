/** The names and places in a frozen net, written out. */
module FreezeResult {
  import opened GraphNames
  import opened Nets

  /** A shared variable v feeds one Split, called vsplit, with the outputs v_split_0, v_split_1, and so on, as many as
      there are places that read v. */
  lemma SplitOfVariable(net: Net, consumers: OpIndex, producers: OpIndex, v: string)
    requires v in consumers && |consumers[v]| > 1
    ensures var f := Frozen(net, consumers, producers);
      && v + "split" in f.types && v + "split" in f.ins && v + "split" in f.outs
      && f.types[v + "split"] == "Split" && f.ins[v + "split"] == [v]
      && |f.outs[v + "split"]| == |consumers[v]|
      && forall i: nat :: i < |consumers[v]| ==> f.outs[v + "split"][i] == v + "_split_" + Decimal(i)
  {
    hide Frozen;
    hide Decimal;
    FrozenSplit(net, consumers, producers, v);
    MadeUpNames(v, 0);
    forall i: nat | i < |consumers[v]| ensures SplitOuts(v, |consumers[v]|)[i] == v + "_split_" + Decimal(i) {
      MadeUpNames(v, i);
    }
  }

  /** An op that reads v reads the copy whose number is that of its first entry among the readers of v, and v itself
      when it is the only place that reads it. */
  lemma ReaderOfVariable(net: Net, consumers: OpIndex, producers: OpIndex, v: string, i: nat, o: string, k: nat)
    requires Freezable(net) && Indexed(net, consumers, producers) && Slot(net.ins, o, k, v)
    requires v in consumers && i < |consumers[v]| && consumers[v][i] == o && o !in consumers[v][..i]
    ensures var f := Frozen(net, consumers, producers);
      && o in f.ins && |f.ins[o]| == |net.ins[o]|
      && f.ins[o][k] == if |consumers[v]| > 1 then v + "_split_" + Decimal(i) else v
  {
    hide Frozen;
    hide Decimal;
    hide Indexed;
    hide FreshNames;
    FrozenOp(net, consumers, producers, o);
    MadeUpNames(v, i);
    FirstIndexIs(consumers[v], o, i);
  }
}
