/** Freeze leaves every variable with one producer and one consumer. */
module FreezeLinear {
  import opened GraphNames
  import opened Nets

  ghost predicate Var(net: Net, v: string) { Listed(net.ins, v) || Listed(net.outs, v) }

  // ----- where a variable of the frozen net is listed

  /** Op o of the given net reads, at place k, the variable now called w. */
  ghost predicate ReadByOp(net: Net, consumers: OpIndex, o: string, k: nat, w: string) {
    o in net.types && o in net.ins && k < |net.ins[o]| && w == Renamed(consumers, o, net.ins[o][k])
  }

  lemma InSlot(net: Net, consumers: OpIndex, producers: OpIndex, o: string, k: nat, w: string)
    requires Freezable(net) && Indexed(net, consumers, producers)
    requires Slot(Frozen(net, consumers, producers).ins, o, k, w)
    ensures || ReadByOp(net, consumers, o, k, w)
            || (w in Outputs(consumers, producers) && o == w && k == 0)
            || (w in Splits(consumers) && o == SplitOp(w) && k == 0)
  {
    hide Frozen;
    hide FreshNames;
    FrozenKinds(net, consumers, producers, o);
    if o in net.types {
      FrozenOp(net, consumers, producers, o);
    } else if o in Inputs(consumers, producers) {
      FrozenInput(net, consumers, producers, o);
    } else if o in Outputs(consumers, producers) {
      FrozenOutput(net, consumers, producers, o);
    } else {
      var v :| v in Splits(consumers) && o == SplitOp(v);
      FrozenSplit(net, consumers, producers, v);
    }
  }

  lemma OutSlot(net: Net, consumers: OpIndex, producers: OpIndex, o: string, k: nat, w: string)
    requires Freezable(net) && Indexed(net, consumers, producers)
    requires Slot(Frozen(net, consumers, producers).outs, o, k, w)
    ensures || (o in net.types && Slot(net.outs, o, k, w))
            || (w in Inputs(consumers, producers) && o == w && k == 0)
            || exists v :: v in Splits(consumers) && o == SplitOp(v) && k < |consumers[v]| && w == SplitVar(v, k)
  {
    hide Frozen;
    hide FreshNames;
    FrozenKinds(net, consumers, producers, o);
    if o in net.types {
      FrozenOp(net, consumers, producers, o);
    } else if o in Inputs(consumers, producers) {
      FrozenInput(net, consumers, producers, o);
    } else if o in Outputs(consumers, producers) {
      FrozenOutput(net, consumers, producers, o);
    } else {
      var v :| v in Splits(consumers) && o == SplitOp(v);
      FrozenSplit(net, consumers, producers, v);
    }
  }

  lemma OpReads(net: Net, consumers: OpIndex, producers: OpIndex, o: string, k: nat)
    requires Freezable(net) && Indexed(net, consumers, producers) && o in net.types && k < |net.ins[o]|
    ensures Slot(Frozen(net, consumers, producers).ins, o, k, Renamed(consumers, o, net.ins[o][k]))
  {
    FrozenOp(net, consumers, producers, o);
  }

  /** A place whose variable keeps its name belongs to a variable that is not split. */
  lemma KeptName(net: Net, consumers: OpIndex, producers: OpIndex, o: string, k: nat, w: string)
    requires Freezable(net) && Indexed(net, consumers, producers) && ReadByOp(net, consumers, o, k, w) && Var(net, w)
    ensures net.ins[o][k] == w && !IsSplit(consumers, w)
  {
    var v := net.ins[o][k];
    assert Slot(net.ins, o, k, v);
    IndexCovers(consumers, net.ins, v);
    if IsSplit(consumers, w) {
      SplitVarIsNew(v, FirstIndex(consumers[v], o));
    }
  }

  /** A place that reads a made-up variable belongs to the op it was made for. */
  lemma MadeUpName(net: Net, consumers: OpIndex, producers: OpIndex, o: string, k: nat, v: string, i: nat)
    requires Freezable(net) && Indexed(net, consumers, producers) && Listed(net.ins, v)
    requires ReadByOp(net, consumers, o, k, SplitVar(v, i))
    ensures IsSplit(consumers, v) && net.ins[o][k] == v && i < |consumers[v]| && o == consumers[v][i]
  {
    var u := net.ins[o][k];
    assert Slot(net.ins, o, k, u);
    IndexCovers(consumers, net.ins, u);
    assert u != SplitVar(v, i);
    SplitVarInjective(u, FirstIndex(consumers[u], o), v, i);
  }

  lemma OneEntryOneSlot(index: OpIndex, lists: map<string, seq<string>>, v: string,
                        o: string, k: nat, o': string, k': nat)
    requires IsIndex(index, lists) && v in index && |index[v]| == 1
    requires Slot(lists, o, k, v) && Slot(lists, o', k', v)
    ensures o == o' && k == k'
  {
    var slots: SlotIndex :| Indexes(index, slots, lists);
    assert (o, k) in slots[v] && (o', k') in slots[v];
    assert slots[v][0] == (o, k) && slots[v][0] == (o', k');
  }

  // ----- one consumer

  lemma SameConsumer(net: Net, consumers: OpIndex, producers: OpIndex, w: string,
                     o: string, k: nat, o': string, k': nat)
    requires Freezable(net) && Indexed(net, consumers, producers)
    requires Slot(Frozen(net, consumers, producers).ins, o, k, w)
    requires Slot(Frozen(net, consumers, producers).ins, o', k', w)
    ensures o == o' && (NoRepeats(net.ins) ==> k == k')
  {
    hide Frozen;
    InSlot(net, consumers, producers, o, k, w);
    InSlot(net, consumers, producers, o', k', w);
    IndexKeys(net, consumers, producers);
    if ReadByOp(net, consumers, o, k, w) {
      if Var(net, w) {
        KeptName(net, consumers, producers, o, k, w);
        assert Slot(net.ins, o, k, w);
        if ReadByOp(net, consumers, o', k', w) {
          KeptName(net, consumers, producers, o', k', w);
          assert Slot(net.ins, o', k', w);
          OneEntryOneSlot(consumers, net.ins, w, o, k, o', k');
        }
      } else {
        MadeUpTwice(net, consumers, producers, w, o, k, o', k');
      }
    } else if ReadByOp(net, consumers, o', k', w) {
      assert Slot(net.ins, o', k', net.ins[o'][k']);
      KeptName(net, consumers, producers, o', k', w);
    }
  }

  lemma MadeUpTwice(net: Net, consumers: OpIndex, producers: OpIndex, w: string,
                    o: string, k: nat, o': string, k': nat)
    requires Freezable(net) && Indexed(net, consumers, producers) && !Var(net, w)
    requires ReadByOp(net, consumers, o, k, w)
    requires ReadByOp(net, consumers, o', k', w) || w in Outputs(consumers, producers) || w in Splits(consumers)
    ensures o == o' && (NoRepeats(net.ins) ==> k == k')
  {
    IndexKeys(net, consumers, producers);
    var v := net.ins[o][k];
    assert Slot(net.ins, o, k, v);
    var i := FirstIndex(consumers[v], o);
    assert w == SplitVar(v, i);
    MadeUpName(net, consumers, producers, o', k', v, i);
    assert Slot(net.ins, o', k', v);
  }

  // ----- one producer

  lemma SameProducer(net: Net, consumers: OpIndex, producers: OpIndex, w: string,
                     o: string, k: nat, o': string, k': nat)
    requires Freezable(net) && Indexed(net, consumers, producers)
    requires Slot(Frozen(net, consumers, producers).outs, o, k, w)
    requires Slot(Frozen(net, consumers, producers).outs, o', k', w)
    ensures o == o' && k == k'
  {
    hide Frozen;
    OutSlot(net, consumers, producers, o, k, w);
    OutSlot(net, consumers, producers, o', k', w);
    IndexKeys(net, consumers, producers);
    if v: string :| v in Splits(consumers) && w == SplitVar(v, k) && o == SplitOp(v) {
      if v': string :| v' in Splits(consumers) && w == SplitVar(v', k') && o' == SplitOp(v') {
        SplitVarInjective(v, k, v', k');
      }
    }
  }

  // ----- every variable has a producer and a consumer

  lemma ConsumedIsProduced(net: Net, consumers: OpIndex, producers: OpIndex, w: string)
    requires Freezable(net) && Indexed(net, consumers, producers)
    requires Listed(Frozen(net, consumers, producers).ins, w)
    ensures Listed(Frozen(net, consumers, producers).outs, w)
  {
    hide Frozen;
    var f := Frozen(net, consumers, producers);
    IndexKeys(net, consumers, producers);
    var o: string, k: nat :| Slot(f.ins, o, k, w);
    InSlot(net, consumers, producers, o, k, w);
    if ReadByOp(net, consumers, o, k, w) {
      var v := net.ins[o][k];
      assert Slot(net.ins, o, k, v);
      IndexCovers(consumers, net.ins, v);
      if IsSplit(consumers, v) {
        var i := FirstIndex(consumers[v], o);
        FrozenSplit(net, consumers, producers, v);
        assert Slot(f.outs, SplitOp(v), i, w);
      } else {
        VarProduced(net, consumers, producers, v);
      }
    } else {
      VarProduced(net, consumers, producers, w);
    }
  }

  lemma VarProduced(net: Net, consumers: OpIndex, producers: OpIndex, v: string)
    requires Freezable(net) && Indexed(net, consumers, producers) && Var(net, v)
    ensures Listed(Frozen(net, consumers, producers).outs, v)
  {
    var f := Frozen(net, consumers, producers);
    IndexKeys(net, consumers, producers);
    if v in Inputs(consumers, producers) {
      FrozenInput(net, consumers, producers, v);
      assert Slot(f.outs, v, 0, v);
    } else {
      var o: string, k: nat :| Slot(net.outs, o, k, v);
      FrozenOp(net, consumers, producers, o);
      assert Slot(f.outs, o, k, v);
    }
  }

  lemma VarConsumed(net: Net, consumers: OpIndex, producers: OpIndex, v: string)
    requires Freezable(net) && Indexed(net, consumers, producers) && Var(net, v)
    ensures Listed(Frozen(net, consumers, producers).ins, v)
  {
    var f := Frozen(net, consumers, producers);
    IndexKeys(net, consumers, producers);
    if v in Outputs(consumers, producers) {
      FrozenOutput(net, consumers, producers, v);
      assert Slot(f.ins, v, 0, v);
    } else if IsSplit(consumers, v) {
      FrozenSplit(net, consumers, producers, v);
      assert Slot(f.ins, SplitOp(v), 0, v);
    } else {
      var o: string, k: nat :| Slot(net.ins, o, k, v);
      OpReads(net, consumers, producers, o, k);
      assert Slot(f.ins, o, k, v);
    }
  }

  lemma MadeUpConsumed(net: Net, consumers: OpIndex, producers: OpIndex, v: string, i: nat)
    requires Freezable(net) && Indexed(net, consumers, producers) && NoRepeats(net.ins)
    requires v in Splits(consumers) && i < |consumers[v]|
    ensures Listed(Frozen(net, consumers, producers).ins, SplitVar(v, i))
  {
    var slots: SlotIndex :| Indexes(consumers, slots, net.ins);
    var o, k := slots[v][i].0, slots[v][i].1;
    var j := FirstIndex(consumers[v], o);
    assert Slot(net.ins, o, k, v) && Slot(net.ins, slots[v][j].0, slots[v][j].1, v);
    assert slots[v][j] == (o, k);
    assert j == i;
    OpReads(net, consumers, producers, o, k);
    assert Slot(Frozen(net, consumers, producers).ins, o, k, SplitVar(v, i));
  }

  lemma ProducedIsConsumed(net: Net, consumers: OpIndex, producers: OpIndex, w: string)
    requires Freezable(net) && Indexed(net, consumers, producers) && NoRepeats(net.ins)
    requires Listed(Frozen(net, consumers, producers).outs, w)
    ensures Listed(Frozen(net, consumers, producers).ins, w)
  {
    hide Frozen;
    IndexKeys(net, consumers, producers);
    var o: string, k: nat :| Slot(Frozen(net, consumers, producers).outs, o, k, w);
    OutSlot(net, consumers, producers, o, k, w);
    if v: string :| v in Splits(consumers) && k < |consumers[v]| && w == SplitVar(v, k) {
      MadeUpConsumed(net, consumers, producers, v, k);
    } else {
      VarConsumed(net, consumers, producers, w);
    }
  }

  // ----- the linear form

  /** Every variable has exactly one producer and exactly one consumer. */
  ghost predicate Linear(net: Net) {
    OnceEach(net.ins) && OnceEach(net.outs) && forall v :: Listed(net.ins, v) <==> Listed(net.outs, v)
  }

  /** An op that reads a variable twice reads the same made-up variable twice. */
  lemma RepeatsSurvive(net: Net, consumers: OpIndex, producers: OpIndex, v: string, o: string, k: nat, k': nat)
    requires Freezable(net) && Indexed(net, consumers, producers)
    requires Slot(net.ins, o, k, v) && Slot(net.ins, o, k', v) && k != k'
    ensures !OnceEach(Frozen(net, consumers, producers).ins)
  {
    var w := Renamed(consumers, o, v);
    OpReads(net, consumers, producers, o, k);
    OpReads(net, consumers, producers, o, k');
    assert Slot(Frozen(net, consumers, producers).ins, o, k, w);
    assert Slot(Frozen(net, consumers, producers).ins, o, k', w);
  }

  /** Freeze yields the linear form exactly when no op lists an input variable twice,
      whatever order the maps were scanned in. */
  lemma LinearIffNoRepeats(net: Net, consumers: OpIndex, producers: OpIndex)
    requires Freezable(net) && Indexed(net, consumers, producers)
    ensures Linear(Frozen(net, consumers, producers)) <==> NoRepeats(net.ins)
  {
    hide Frozen;
    hide FreshNames;
    hide Indexed;
    var f := Frozen(net, consumers, producers);
    if NoRepeats(net.ins) {
      forall v: string, o: string, k: nat, o': string, k': nat | Slot(f.ins, o, k, v) && Slot(f.ins, o', k', v)
        ensures o == o' && k == k'
      {
        SameConsumer(net, consumers, producers, v, o, k, o', k');
      }
      forall v: string, o: string, k: nat, o': string, k': nat | Slot(f.outs, o, k, v) && Slot(f.outs, o', k', v)
        ensures o == o' && k == k'
      {
        SameProducer(net, consumers, producers, v, o, k, o', k');
      }
      forall v ensures Listed(f.ins, v) <==> Listed(f.outs, v) {
        if Listed(f.ins, v) {
          ConsumedIsProduced(net, consumers, producers, v);
        } else if Listed(f.outs, v) {
          ProducedIsConsumed(net, consumers, producers, v);
        }
      }
    } else {
      var v: string, o: string, k: nat, k': nat :| Slot(net.ins, o, k, v) && Slot(net.ins, o, k', v) && k != k';
      RepeatsSurvive(net, consumers, producers, v, o, k, k');
    }
  }

  /** All places that list v belong to one op. */
  ghost predicate OneOpEach(lists: map<string, seq<string>>) {
    forall v: string, o: string, k: nat, o': string, k': nat ::
      Slot(lists, o, k, v) && Slot(lists, o', k', v) ==> o == o'
  }

  /** Even with repeated inputs no two ops consume the same variable. */
  lemma OneConsumingOp(net: Net, consumers: OpIndex, producers: OpIndex)
    requires Freezable(net) && Indexed(net, consumers, producers)
    ensures OneOpEach(Frozen(net, consumers, producers).ins)
  {
    hide Frozen;
    hide FreshNames;
    hide Indexed;
    var f := Frozen(net, consumers, producers);
    forall v: string, o: string, k: nat, o': string, k': nat | Slot(f.ins, o, k, v) && Slot(f.ins, o', k', v)
      ensures o == o'
    {
      SameConsumer(net, consumers, producers, v, o, k, o', k');
    }
  }

  /** Even with repeated inputs every variable has one producer, and every consumed one is produced. */
  lemma OneProducerAlways(net: Net, consumers: OpIndex, producers: OpIndex)
    requires Freezable(net) && Indexed(net, consumers, producers)
    ensures OnceEach(Frozen(net, consumers, producers).outs)
    ensures forall v :: Listed(Frozen(net, consumers, producers).ins, v) ==>
              Listed(Frozen(net, consumers, producers).outs, v)
  {
    hide Frozen;
    hide FreshNames;
    hide Indexed;
    var f := Frozen(net, consumers, producers);
    forall v: string, o: string, k: nat, o': string, k': nat | Slot(f.outs, o, k, v) && Slot(f.outs, o', k', v)
      ensures o == o' && k == k'
    {
      SameProducer(net, consumers, producers, v, o, k, o', k');
    }
    forall v | Listed(f.ins, v) ensures Listed(f.outs, v) {
      ConsumedIsProduced(net, consumers, producers, v);
    }
  }
}
