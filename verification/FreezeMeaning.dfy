/** Freeze preserves what every op computes, and acyclicity, for any interpretation of the ops. */
module FreezeMeaning {
  import opened GraphNames
  import opened Nets
  import opened FreezeLinear

  /** What the ops mean: op(opName, name, inputs, k) is output k; feed(v) is the value of a variable
      that no op produces. */
  datatype Meaning<!T> = Meaning(op: (string, string, seq<T>, nat) -> T, feed: string -> T)

  /** Split copies its one input, Input delivers the variable it is named after. */
  ghost predicate Standard<T(!new)>(m: Meaning<T>) {
    && (forall o: string, x: T, k: nat :: m.op("Split", o, [x], k) == x)
    && (forall v: string :: m.op("Input", v, [], 0) == m.feed(v))
  }

  /** rank orders the ops so that every op comes after the producers of its inputs. */
  ghost predicate Ranked(net: Net, rank: string -> nat) {
    forall o, k: nat, v, o', k': nat :: Slot(net.ins, o, k, v) && Slot(net.outs, o', k', v) ==> rank(o') < rank(o)
  }

  ghost predicate Acyclic(net: Net) { exists rank: string -> nat :: Ranked(net, rank) }

  ghost function ProducerOf(net: Net, v: string): (r: (string, nat))
    requires Listed(net.outs, v)
    ensures Slot(net.outs, r.0, r.1, v)
  {
    var o: string, k: nat :| Slot(net.outs, o, k, v);
    (o, k)
  }

  ghost function Height(net: Net, rank: string -> nat, v: string): nat {
    if Listed(net.outs, v) then rank(ProducerOf(net, v).0) + 1 else 0
  }

  lemma InputsAreLower(net: Net, rank: string -> nat, v: string, j: nat)
    requires Valid(net) && Ranked(net, rank) && Listed(net.outs, v)
    requires j < |net.ins[ProducerOf(net, v).0]|
    ensures Height(net, rank, net.ins[ProducerOf(net, v).0][j]) < Height(net, rank, v)
  {
    var o := ProducerOf(net, v).0;
    var u := net.ins[o][j];
    assert Slot(net.ins, o, j, u);
    if Listed(net.outs, u) {
      assert Slot(net.outs, ProducerOf(net, u).0, ProducerOf(net, u).1, u);
    }
  }

  /** The value of variable v when the ops are run in rank order. */
  ghost function Value<T>(net: Net, rank: string -> nat, m: Meaning<T>, v: string): T
    requires Valid(net) && Ranked(net, rank)
    decreases Height(net, rank, v)
  {
    if Listed(net.outs, v) then
      var p := ProducerOf(net, v);
      var args := seq(|net.ins[p.0]|, j requires 0 <= j < |net.ins[p.0]| =>
                      InputsAreLower(net, rank, v, j);
                      Value(net, rank, m, net.ins[p.0][j]));
      m.op(net.types[p.0], p.0, args, p.1)
    else m.feed(v)
  }

  ghost function Args<T>(net: Net, rank: string -> nat, m: Meaning<T>, o: string): seq<T>
    requires Valid(net) && Ranked(net, rank) && o in net.ins
  {
    seq(|net.ins[o]|, j requires 0 <= j < |net.ins[o]| => Value(net, rank, m, net.ins[o][j]))
  }

  lemma ValueOfProduced<T>(net: Net, rank: string -> nat, m: Meaning<T>, v: string, o: string, k: nat)
    requires Valid(net) && Ranked(net, rank) && OnceEach(net.outs) && Slot(net.outs, o, k, v)
    ensures Value(net, rank, m, v) == m.op(net.types[o], o, Args(net, rank, m, o), k)
  {
    var p := ProducerOf(net, v);
    assert p == (o, k);
    var args := seq(|net.ins[p.0]|, j requires 0 <= j < |net.ins[p.0]| =>
                    InputsAreLower(net, rank, v, j);
                    Value(net, rank, m, net.ins[p.0][j]));
    assert args == Args(net, rank, m, o);
  }

  /** The value does not depend on which rank orders the ops. */
  lemma {:induction false} RankDoesNotMatter<T>(net: Net, rank: string -> nat, rank': string -> nat,
                                                m: Meaning<T>, v: string)
    requires Valid(net) && OnceEach(net.outs) && Ranked(net, rank) && Ranked(net, rank')
    ensures Value(net, rank, m, v) == Value(net, rank', m, v)
    decreases Height(net, rank, v)
  {
    if Listed(net.outs, v) {
      var p := ProducerOf(net, v);
      forall j | 0 <= j < |net.ins[p.0]|
        ensures Value(net, rank, m, net.ins[p.0][j]) == Value(net, rank', m, net.ins[p.0][j])
      {
        InputsAreLower(net, rank, v, j);
        RankDoesNotMatter(net, rank, rank', m, net.ins[p.0][j]);
      }
      ValueOfProduced(net, rank, m, v, p.0, p.1);
      ValueOfProduced(net, rank', m, v, p.0, p.1);
      assert Args(net, rank, m, p.0) == Args(net, rank', m, p.0);
    }
  }

  // ----- acyclicity

  /** Twice the height leaves room for the Split between a producer and its consumers. */
  ghost function NewRank(net: Net, consumers: OpIndex, rank: string -> nat): string -> nat {
    o => if o in net.types then 2 * rank(o) + 2
         else if Listed(net.outs, o) && !Listed(net.ins, o) then 2 * Height(net, rank, o) + 1
         else if IsSplitOp(consumers, o) then 2 * Height(net, rank, SplitSource(consumers, o)) + 1
         else 0
  }

  /** The op is a Split. */
  ghost predicate IsSplitOp(consumers: OpIndex, o: string) { exists v :: v in Splits(consumers) && o == SplitOp(v) }

  ghost function SplitSource(consumers: OpIndex, o: string): (v: string)
    requires IsSplitOp(consumers, o)
    ensures v in Splits(consumers) && o == SplitOp(v)
  {
    var v :| v in Splits(consumers) && o == SplitOp(v);
    v
  }

  lemma NewRankOfSplit(net: Net, consumers: OpIndex, producers: OpIndex, rank: string -> nat, v: string)
    requires Freezable(net) && Indexed(net, consumers, producers) && v in Splits(consumers)
    ensures NewRank(net, consumers, rank)(SplitOp(v)) == 2 * Height(net, rank, v) + 1
  {
    hide Height;
    hide IsIndex;
    hide OnceEach;
    hide Listed;
    hide SplitOp;
    IndexKeys(net, consumers, producers);
    assert IsSplitOp(consumers, SplitOp(v));
    SplitOpInjective(SplitSource(consumers, SplitOp(v)), v);
    assert Listed(net.ins, v) && SplitOp(v) !in net.types && !Listed(net.outs, SplitOp(v));
  }

  lemma HeightOf(net: Net, rank: string -> nat, v: string, o: string, k: nat)
    requires OnceEach(net.outs) && Slot(net.outs, o, k, v)
    ensures Height(net, rank, v) == rank(o) + 1
  {
  }

  /** The rank of whichever op delivers variable v in the frozen net is at most twice v's old height. */
  lemma ProducerRank(net: Net, consumers: OpIndex, producers: OpIndex, rank: string -> nat,
                     v: string, o: string, k: nat)
    requires Freezable(net) && Indexed(net, consumers, producers) && Var(net, v)
    requires Slot(Frozen(net, consumers, producers).outs, o, k, v)
    ensures NewRank(net, consumers, rank)(o) <= 2 * Height(net, rank, v)
  {
    hide Frozen;
    IndexKeys(net, consumers, producers);
    OutSlot(net, consumers, producers, o, k, v);
    if o in net.types && Slot(net.outs, o, k, v) {
      HeightOf(net, rank, v, o, k);
    } else {
      FrozenNames(net, consumers, producers);
      assert v in Inputs(consumers, producers) && o == v;
      assert !exists u :: u in Splits(consumers) && o == SplitOp(u);
    }
  }

  lemma NewRankRises(net: Net, consumers: OpIndex, producers: OpIndex, rank: string -> nat,
                     o: string, k: nat, w: string, o': string, k': nat)
    requires Freezable(net) && Indexed(net, consumers, producers) && Ranked(net, rank)
    requires Slot(Frozen(net, consumers, producers).ins, o, k, w)
    requires Slot(Frozen(net, consumers, producers).outs, o', k', w)
    ensures NewRank(net, consumers, rank)(o') < NewRank(net, consumers, rank)(o)
  {
    hide Frozen;
    hide FreshNames;
    InSlot(net, consumers, producers, o, k, w);
    IndexKeys(net, consumers, producers);
    FrozenNames(net, consumers, producers);
    if ReadByOp(net, consumers, o, k, w) {
      var v := net.ins[o][k];
      assert Slot(net.ins, o, k, v);
      IndexCovers(consumers, net.ins, v);
      HeightBelow(net, rank, o, k);
      if IsSplit(consumers, v) {
        SplitDelivers(net, consumers, producers, v, FirstIndex(consumers[v], o), o', k');
        NewRankOfSplit(net, consumers, producers, rank, v);
      } else {
        ProducerRank(net, consumers, producers, rank, v, o', k');
      }
    } else {
      ProducerRank(net, consumers, producers, rank, w, o', k');
      if w in Splits(consumers) && o == SplitOp(w) {
        NewRankOfSplit(net, consumers, producers, rank, w);
      }
    }
  }

  lemma HeightBelow(net: Net, rank: string -> nat, o: string, k: nat)
    requires Ranked(net, rank) && o in net.ins && k < |net.ins[o]|
    ensures Height(net, rank, net.ins[o][k]) <= rank(o)
  {
    var v := net.ins[o][k];
    assert Slot(net.ins, o, k, v);
    if Listed(net.outs, v) {
      assert Slot(net.outs, ProducerOf(net, v).0, ProducerOf(net, v).1, v);
    }
  }

  /** A made-up variable is delivered by its Split. */
  lemma SplitDelivers(net: Net, consumers: OpIndex, producers: OpIndex, v: string, i: nat, o: string, k: nat)
    requires Freezable(net) && Indexed(net, consumers, producers) && v in Splits(consumers) && i < |consumers[v]|
    requires Slot(Frozen(net, consumers, producers).outs, o, k, SplitVar(v, i))
    ensures o == SplitOp(v) && k == i
  {
    hide Frozen;
    hide FreshNames;
    FrozenSplit(net, consumers, producers, v);
    assert Slot(Frozen(net, consumers, producers).outs, SplitOp(v), i, SplitVar(v, i));
    SameProducer(net, consumers, producers, SplitVar(v, i), o, k, SplitOp(v), i);
  }

  lemma FrozenRanked(net: Net, consumers: OpIndex, producers: OpIndex, rank: string -> nat)
    requires Freezable(net) && Indexed(net, consumers, producers) && Ranked(net, rank)
    ensures Ranked(Frozen(net, consumers, producers), NewRank(net, consumers, rank))
  {
    hide Frozen;
    var f := Frozen(net, consumers, producers);
    forall o: string, k: nat, v: string, o': string, k': nat | Slot(f.ins, o, k, v) && Slot(f.outs, o', k', v)
      ensures NewRank(net, consumers, rank)(o') < NewRank(net, consumers, rank)(o)
    {
      NewRankRises(net, consumers, producers, rank, o, k, v, o', k');
    }
  }

  lemma RankRestricts(net: Net, consumers: OpIndex, producers: OpIndex, rank: string -> nat)
    requires Freezable(net) && Indexed(net, consumers, producers)
    requires Ranked(Frozen(net, consumers, producers), rank)
    ensures Ranked(net, rank)
  {
    hide Frozen;
    hide FreshNames;
    var f := Frozen(net, consumers, producers);
    forall o: string, k: nat, v: string, o': string, k': nat | Slot(net.ins, o, k, v) && Slot(net.outs, o', k', v)
      ensures rank(o') < rank(o)
    {
      IndexCovers(consumers, net.ins, v);
      OpReads(net, consumers, producers, o, k);
      FrozenOp(net, consumers, producers, o');
      assert Slot(f.outs, o', k', v);
      if IsSplit(consumers, v) {
        var i := FirstIndex(consumers[v], o);
        FrozenSplit(net, consumers, producers, v);
        assert Slot(f.ins, SplitOp(v), 0, v) && Slot(f.outs, SplitOp(v), i, SplitVar(v, i));
      }
    }
  }

  /** A net can be run in some order exactly when its frozen form can. */
  lemma AcyclicIffFrozenAcyclic(net: Net, consumers: OpIndex, producers: OpIndex)
    requires Freezable(net) && Indexed(net, consumers, producers)
    ensures Acyclic(net) <==> Acyclic(Frozen(net, consumers, producers))
  {
    if rank: string -> nat :| Ranked(net, rank) {
      FrozenRanked(net, consumers, producers, rank);
    }
    if rank: string -> nat :| Ranked(Frozen(net, consumers, producers), rank) {
      RankRestricts(net, consumers, producers, rank);
    }
  }

  // ----- values

  /** The ranks of a net and of its frozen form. */
  ghost predicate BothRanked(net: Net, consumers: OpIndex, producers: OpIndex,
                             rank: string -> nat, rank': string -> nat) {
    && Freezable(net) && Indexed(net, consumers, producers)
    && Ranked(net, rank) && Ranked(Frozen(net, consumers, producers), rank')
    && Valid(Frozen(net, consumers, producers)) && OnceEach(Frozen(net, consumers, producers).outs)
  }

  /** A made-up variable carries the value of the variable it was split from. */
  lemma MadeUpValue<T(!new)>(net: Net, consumers: OpIndex, producers: OpIndex,
                             rank: string -> nat, rank': string -> nat, m: Meaning<T>, v: string, i: nat)
    requires BothRanked(net, consumers, producers, rank, rank') && Standard(m)
    requires v in Splits(consumers) && i < |consumers[v]|
    ensures Value(Frozen(net, consumers, producers), rank', m, SplitVar(v, i)) ==
            Value(Frozen(net, consumers, producers), rank', m, v)
  {
    hide Frozen;
    hide FreshNames;
    var f := Frozen(net, consumers, producers);
    FrozenSplit(net, consumers, producers, v);
    assert Slot(f.outs, SplitOp(v), i, SplitVar(v, i));
    ValueOfProduced(f, rank', m, SplitVar(v, i), SplitOp(v), i);
    assert Args(f, rank', m, SplitOp(v)) == [Value(f, rank', m, v)];
  }

  /** What op o reads at place k in the frozen net has the value of the variable it was given. */
  lemma ReadsSameValue<T(!new)>(net: Net, consumers: OpIndex, producers: OpIndex, rank: string -> nat,
                          rank': string -> nat, m: Meaning<T>, o: string, k: nat)
    requires BothRanked(net, consumers, producers, rank, rank') && Standard(m)
    requires o in net.types && k < |net.ins[o]|
    requires Value(Frozen(net, consumers, producers), rank', m, net.ins[o][k]) == Value(net, rank, m, net.ins[o][k])
    ensures Value(Frozen(net, consumers, producers), rank', m, Renamed(consumers, o, net.ins[o][k])) ==
            Value(net, rank, m, net.ins[o][k])
  {
    hide Frozen;
    hide FreshNames;
    var v := net.ins[o][k];
    assert Slot(net.ins, o, k, v);
    IndexCovers(consumers, net.ins, v);
    if IsSplit(consumers, v) {
      MadeUpValue(net, consumers, producers, rank, rank', m, v, FirstIndex(consumers[v], o));
    }
  }

  /** Every variable of the given net keeps its value. */
  lemma {:induction false} VarKeepsValue<T(!new)>(net: Net, consumers: OpIndex, producers: OpIndex, rank: string -> nat,
                                            rank': string -> nat, m: Meaning<T>, v: string)
    requires BothRanked(net, consumers, producers, rank, rank') && Standard(m) && Var(net, v)
    ensures Value(Frozen(net, consumers, producers), rank', m, v) == Value(net, rank, m, v)
    decreases Height(net, rank, v)
  {
    hide Frozen;
    hide FreshNames;
    var f := Frozen(net, consumers, producers);
    IndexKeys(net, consumers, producers);
    if Listed(net.outs, v) {
      var p := ProducerOf(net, v);
      var o := p.0;
      forall j | 0 <= j < |net.ins[o]|
        ensures Value(f, rank', m, Renamed(consumers, o, net.ins[o][j])) == Value(net, rank, m, net.ins[o][j])
      {
        InputsAreLower(net, rank, v, j);
        assert Slot(net.ins, o, j, net.ins[o][j]);
        VarKeepsValue(net, consumers, producers, rank, rank', m, net.ins[o][j]);
        ReadsSameValue(net, consumers, producers, rank, rank', m, o, j);
      }
      FrozenOp(net, consumers, producers, o);
      assert Slot(f.outs, o, p.1, v);
      ValueOfProduced(net, rank, m, v, o, p.1);
      ValueOfProduced(f, rank', m, v, o, p.1);
      assert Args(f, rank', m, o) == Args(net, rank, m, o);
    } else {
      FrozenInput(net, consumers, producers, v);
      assert Slot(f.outs, v, 0, v);
      ValueOfProduced(f, rank', m, v, v, 0);
      assert Args(f, rank', m, v) == [];
    }
  }

  /** Freeze preserves meaning: for every interpretation of the ops and every order in which the maps
      were scanned, each op's k-th input has, after Freeze, the value of the variable it was given. */
  lemma FreezePreservesMeaning<T(!new)>(net: Net, consumers: OpIndex, producers: OpIndex, rank: string -> nat,
                                  rank': string -> nat, m: Meaning<T>, o: string, k: nat)
    requires Freezable(net) && Indexed(net, consumers, producers) && Standard(m)
    requires Ranked(net, rank) && Ranked(Frozen(net, consumers, producers), rank')
    requires o in net.types && k < |net.ins[o]|
    ensures var f := Frozen(net, consumers, producers);
            && Valid(f) && o in f.ins && |f.ins[o]| == |net.ins[o]|
            && Value(f, rank', m, f.ins[o][k]) == Value(net, rank, m, net.ins[o][k])
  {
    FrozenIsValid(net, consumers, producers);
    OneProducerAlways(net, consumers, producers);
    FrozenOp(net, consumers, producers, o);
    assert Slot(net.ins, o, k, net.ins[o][k]);
    hide Frozen;
    hide FreshNames;
    VarKeepsValue(net, consumers, producers, rank, rank', m, net.ins[o][k]);
    ReadsSameValue(net, consumers, producers, rank, rank', m, o, k);
  }

  /** Each Output op reads the value of the unconsumed variable it is named after. */
  lemma OutputsReadTheirVariable<T(!new)>(net: Net, consumers: OpIndex, producers: OpIndex, rank: string -> nat,
                                    rank': string -> nat, m: Meaning<T>, v: string)
    requires Freezable(net) && Indexed(net, consumers, producers) && Standard(m)
    requires Ranked(net, rank) && Ranked(Frozen(net, consumers, producers), rank')
    requires Listed(net.outs, v) && !Listed(net.ins, v)
    ensures var f := Frozen(net, consumers, producers);
            && Valid(f) && Entry(f, v, "Output", [v], [])
            && Value(f, rank', m, v) == Value(net, rank, m, v)
  {
    IndexKeys(net, consumers, producers);
    FrozenIsValid(net, consumers, producers);
    OneProducerAlways(net, consumers, producers);
    FrozenOutput(net, consumers, producers, v);
    hide Frozen;
    hide FreshNames;
    VarKeepsValue(net, consumers, producers, rank, rank', m, v);
  }

  // ----- a net with an unproduced, a shared and an unconsumed variable

  const EXAMPLE := Net(map["a" := "Relu", "b" := "Relu", "c" := "Sigmoid"],
                       map["a" := ["x"], "b" := ["y"], "c" := ["y"]],
                       map["a" := ["y"], "b" := ["z"], "c" := []])

  lemma ExampleSlots(o: string, k: nat, v: string)
    ensures Slot(EXAMPLE.ins, o, k, v) <==> k == 0 && (o, v) in {("a", "x"), ("b", "y"), ("c", "y")}
    ensures Slot(EXAMPLE.outs, o, k, v) <==> k == 0 && (o, v) in {("a", "y"), ("b", "z")}
  {
  }

  lemma ExampleListed(v: string)
    ensures Listed(EXAMPLE.ins, v) <==> v in {"x", "y"}
    ensures Listed(EXAMPLE.outs, v) <==> v in {"y", "z"}
  {
    hide Slot;
    ExampleSlots("a", 0, "x");
    ExampleSlots("b", 0, "y");
    ExampleSlots("a", 0, "y");
    ExampleSlots("b", 0, "z");
    if o: string, k: nat :| Slot(EXAMPLE.ins, o, k, v) {
      ExampleSlots(o, k, v);
    }
    if o: string, k: nat :| Slot(EXAMPLE.outs, o, k, v) {
      ExampleSlots(o, k, v);
    }
  }

  lemma ExampleIsValid()
    ensures Valid(EXAMPLE)
  {
    assert EXAMPLE.types.Keys == {"a", "b", "c"};
  }

  lemma ExampleIsFresh()
    ensures FreshNames(EXAMPLE)
  {
    hide Listed;
    forall v ensures (Listed(EXAMPLE.ins, v) <==> v in {"x", "y"}) && (Listed(EXAMPLE.outs, v) <==> v in {"y", "z"}) {
      ExampleListed(v);
    }
    forall v, i: nat ensures |SplitOp(v)| >= 5 && |SplitVar(v, i)| > 5 {
    }
    hide SplitOp;
    hide SplitVar;
  }

  lemma ExampleOnce()
    ensures OnceEach(EXAMPLE.outs) && NoRepeats(EXAMPLE.ins)
  {
    hide Slot;
    forall v: string, o: string, k: nat, o': string, k': nat
      | Slot(EXAMPLE.outs, o, k, v) && Slot(EXAMPLE.outs, o', k', v)
      ensures o == o' && k == k'
    {
      ExampleSlots(o, k, v);
      ExampleSlots(o', k', v);
    }
    forall v: string, o: string, k: nat, k': nat | Slot(EXAMPLE.ins, o, k, v) && Slot(EXAMPLE.ins, o, k', v)
      ensures k == k'
    {
      ExampleSlots(o, k, v);
      ExampleSlots(o, k', v);
    }
  }

  lemma ExampleIsAcyclic()
    ensures Acyclic(EXAMPLE)
  {
    hide Slot;
    var rank: string -> nat := o => if o == "a" then 0 else 1;
    forall o, k: nat, v, o', k': nat | Slot(EXAMPLE.ins, o, k, v) && Slot(EXAMPLE.outs, o', k', v)
      ensures rank(o') < rank(o)
    {
      ExampleSlots(o, k, v);
      ExampleSlots(o', k', v);
    }
    assert Ranked(EXAMPLE, rank);
  }

  /** What is asked of a net can be met. */
  lemma ExampleIsFreezable()
    ensures Freezable(EXAMPLE) && NoRepeats(EXAMPLE.ins) && Acyclic(EXAMPLE)
  {
    hide FreshNames;
    hide OnceEach;
    hide NoRepeats;
    hide Acyclic;
    hide Valid;
    ExampleIsValid();
    ExampleIsFresh();
    ExampleOnce();
    ExampleIsAcyclic();
  }
}
