/** The arcs Freeze adds: one call of add_in_arc per input place, one call of add_out_arc per output place. */
module FreezeArcs {
  import opened Nets
  import opened FreezeLinear
  import opened GraphBase

  /** The arc between op o and the op at the other end of one of its variables. */
  function Link(side: Side, o: string, other: string): Arc {
    if side == InSide then Arc(other, o) else Arc(o, other)
  }

  /** Index names an op for v. */
  ghost predicate Links(index: OpIndex, v: string) { v in index && index[v] != [] }

  /** The op whose arc is added: the first entry. */
  ghost function OpAt(index: OpIndex, v: string): string { if Links(index, v) then index[v][0] else "" }

  /** The calls for the variables of op o, in order; index tells the op at the other end. */
  ghost function Pairs(side: Side, index: OpIndex, o: string, vs: seq<string>): seq<Arc> {
    if vs == [] then []
    else
      var v := vs[|vs| - 1];
      Pairs(side, index, o, vs[..|vs| - 1]) +
      if Links(index, v) then [Link(side, o, OpAt(index, v))] else []
  }

  /** The arc list after these calls: a pair that is there already is not added again. */
  ghost function Merged(arcs: seq<Arc>, pairs: seq<Arc>): seq<Arc> {
    if pairs == [] then arcs else Append(Merged(arcs, pairs[..|pairs| - 1]), pairs[|pairs| - 1])
  }

  function VarsOf(lists: map<string, seq<string>>, o: string): seq<string> {
    if o in lists then lists[o] else []
  }

  /** All calls, for the order in which the map is scanned. */
  ghost function AllPairs(side: Side, index: OpIndex, lists: map<string, seq<string>>, order: seq<string>): seq<Arc> {
    if order == [] then []
    else
      var o := order[|order| - 1];
      AllPairs(side, index, lists, order[..|order| - 1]) + Pairs(side, index, o, VarsOf(lists, o))
  }

  /** vs lists the set once each. */
  ghost predicate Lists(vs: seq<string>, all: set<string>) {
    Unique(vs) && forall v :: v in vs <==> v in all
  }

  // ----- what the calls leave

  lemma {:induction false} MergedIsUnique(arcs: seq<Arc>, pairs: seq<Arc>)
    requires Unique(arcs)
    ensures Unique(Merged(arcs, pairs))
    ensures forall a :: a in Merged(arcs, pairs) <==> a in arcs || a in pairs
  {
    if pairs != [] {
      var n := |pairs| - 1;
      MergedIsUnique(arcs, pairs[..n]);
      AppendUnique(Merged(arcs, pairs[..n]), pairs[n]);
      assert pairs == pairs[..n] + [pairs[n]];
    }
  }

  /** A list keeps every call exactly when no pair was added twice. */
  lemma {:induction false} MergedKeepsAll(pairs: seq<Arc>)
    ensures |Merged([], pairs)| <= |pairs|
    ensures Unique(pairs) <==> Merged([], pairs) == pairs
    ensures Unique(pairs) <==> |Merged([], pairs)| == |pairs|
  {
    if pairs != [] {
      var n := |pairs| - 1;
      MergedKeepsAll(pairs[..n]);
      MergedIsUnique([], pairs[..n]);
      assert pairs == pairs[..n] + [pairs[n]];
      if Unique(pairs) {
        assert forall i :: 0 <= i < n ==> pairs[i] != pairs[n];
      } else if Unique(pairs[..n]) {
        assert pairs[n] in pairs[..n];
      }
    }
  }

  lemma {:induction false} PairsAt(side: Side, index: OpIndex, o: string, vs: seq<string>)
    requires forall v :: v in vs ==> Links(index, v)
    ensures |Pairs(side, index, o, vs)| == |vs|
    ensures forall k :: 0 <= k < |vs| ==> Pairs(side, index, o, vs)[k] == Link(side, o, OpAt(index, vs[k]))
  {
    if vs != [] {
      var n := |vs| - 1;
      assert vs == vs[..n] + [vs[n]];
      PairsAt(side, index, o, vs[..n]);
      assert Links(index, vs[n]);
    }
  }

  lemma {:induction false} PairOf(side: Side, index: OpIndex, o: string, vs: seq<string>, a: Arc)
    ensures a in Pairs(side, index, o, vs) <==>
            exists v :: v in vs && Links(index, v) && a == Link(side, o, OpAt(index, v))
  {
    if vs != [] {
      var n := |vs| - 1;
      assert vs == vs[..n] + [vs[n]];
      PairOf(side, index, o, vs[..n], a);
      if v :| v in vs && Links(index, v) && a == Link(side, o, OpAt(index, v)) {
        assert v in vs[..n] || v == vs[n];
      }
      assert Links(index, vs[n]) ==> Link(side, o, OpAt(index, vs[n])) in Pairs(side, index, o, vs);
    }
  }

  // ----- both ends agree

  /** What OneConsumingOp and OneProducerAlways give for a frozen net. */
  ghost predicate Joinable(net: Net) {
    && OnceEach(net.outs) && OneOpEach(net.ins)
    && forall v :: Listed(net.ins, v) ==> Listed(net.outs, v)
  }

  /** The ops that an index names for v. */
  lemma FirstOpLists(index: OpIndex, lists: map<string, seq<string>>, v: string)
    requires IsIndex(index, lists) && OneOpEach(lists)
    ensures Links(index, v) <==> Listed(lists, v)
    ensures forall o :: o in lists && v in lists[o] ==> Links(index, v) && OpAt(index, v) == o
    ensures Links(index, v) ==> OpAt(index, v) in lists && v in lists[OpAt(index, v)]
  {
    IndexCovers(index, lists, v);
    forall o | o in lists && v in lists[o] ensures Links(index, v) && OpAt(index, v) == o {
      var k: nat :| k < |lists[o]| && lists[o][k] == v;
      assert Slot(lists, o, k, v);
    }
  }

  lemma OnceIsOneOp(lists: map<string, seq<string>>)
    requires OnceEach(lists)
    ensures OneOpEach(lists)
  {
  }

  /** A pair is among the in-arcs of its top exactly when it is among the out-arcs of its bottom,
      although only the first entry of each map is looked at. */
  lemma ArcsAgree(net: Net, consumers: OpIndex, producers: OpIndex, a: Arc)
    requires Indexed(net, consumers, producers) && Joinable(net)
    ensures a in Pairs(InSide, producers, a.top, VarsOf(net.ins, a.top)) <==>
            a in Pairs(OutSide, consumers, a.bottom, VarsOf(net.outs, a.bottom))
  {
    PairOf(InSide, producers, a.top, VarsOf(net.ins, a.top), a);
    PairOf(OutSide, consumers, a.bottom, VarsOf(net.outs, a.bottom), a);
    OnceIsOneOp(net.outs);
    hide IsIndex;
    hide Pairs;
    hide OnceEach;
    hide OneOpEach;
    hide Listed;
    if v :| v in VarsOf(net.ins, a.top) && Links(producers, v) && a == Link(InSide, a.top, OpAt(producers, v)) {
      FirstOpLists(producers, net.outs, v);
      FirstOpLists(consumers, net.ins, v);
    }
    if v :| v in VarsOf(net.outs, a.bottom) && Links(consumers, v) && a == Link(OutSide, a.bottom, OpAt(consumers, v)) {
      FirstOpLists(producers, net.outs, v);
      FirstOpLists(consumers, net.ins, v);
    }
  }

  /** The top op reads a variable that the bottom op writes. */
  ghost predicate Feeds(net: Net, a: Arc) {
    exists v: string, j: nat, k: nat :: Slot(net.outs, a.bottom, j, v) && Slot(net.ins, a.top, k, v)
  }

  /** There is an arc between two ops exactly when one reads what the other writes. */
  lemma ArcIffFeeds(net: Net, consumers: OpIndex, producers: OpIndex, a: Arc)
    requires Indexed(net, consumers, producers) && Joinable(net)
    ensures a in Pairs(InSide, producers, a.top, VarsOf(net.ins, a.top)) <==> Feeds(net, a)
  {
    PairOf(InSide, producers, a.top, VarsOf(net.ins, a.top), a);
    OnceIsOneOp(net.outs);
    hide IsIndex;
    hide Pairs;
    hide OnceEach;
    hide OneOpEach;
    hide Listed;
    if v :| v in VarsOf(net.ins, a.top) && Links(producers, v) && a == Link(InSide, a.top, OpAt(producers, v)) {
      FirstOpLists(producers, net.outs, v);
      var k: nat :| k < |net.ins[a.top]| && net.ins[a.top][k] == v;
      var j: nat :| j < |net.outs[a.bottom]| && net.outs[a.bottom][j] == v;
      assert Slot(net.outs, a.bottom, j, v) && Slot(net.ins, a.top, k, v);
    }
    if v: string, j: nat, k: nat :| Slot(net.outs, a.bottom, j, v) && Slot(net.ins, a.top, k, v) {
      FirstOpLists(producers, net.outs, v);
    }
  }

  /** An op has an in-arc per input exactly when its inputs come from different ops; then its k-th in-arc comes from the
      op that writes its k-th input. */
  lemma InArcPerInput(net: Net, consumers: OpIndex, producers: OpIndex, o: string)
    requires Indexed(net, consumers, producers) && Joinable(net) && o in net.ins
    ensures forall v :: v in net.ins[o] ==> Links(producers, v)
    ensures |Merged([], Pairs(InSide, producers, o, net.ins[o]))| == |net.ins[o]| <==>
            forall j, k :: 0 <= j < k < |net.ins[o]| ==>
              OpAt(producers, net.ins[o][j]) != OpAt(producers, net.ins[o][k])
    ensures var list := Merged([], Pairs(InSide, producers, o, net.ins[o]));
      |list| == |net.ins[o]| ==> forall k :: 0 <= k < |list| ==>
        list[k].top == o && list[k].bottom in net.outs && net.ins[o][k] in net.outs[list[k].bottom]
  {
    hide Pairs;
    hide Merged;
    hide OpAt;
    hide Links;
    hide Indexed;
    hide Joinable;
    var vs := net.ins[o];
    forall v | v in vs ensures Links(producers, v) {
      InputLinks(net, consumers, producers, o, v);
    }
    PairsAt(InSide, producers, o, vs);
    var pairs := Pairs(InSide, producers, o, vs);
    MergedKeepsAll(pairs);
    assert forall j, k :: 0 <= j < k < |vs| ==>
      (pairs[j] != pairs[k] <==> OpAt(producers, vs[j]) != OpAt(producers, vs[k]));
    forall k | 0 <= k < |vs|
      ensures pairs[k].top == o && pairs[k].bottom in net.outs && vs[k] in net.outs[pairs[k].bottom]
    {
      InputLinks(net, consumers, producers, o, vs[k]);
    }
  }

  lemma InputLinks(net: Net, consumers: OpIndex, producers: OpIndex, o: string, v: string)
    requires Indexed(net, consumers, producers) && Joinable(net) && o in net.ins && v in net.ins[o]
    ensures Links(producers, v)
    ensures OpAt(producers, v) in net.outs && v in net.outs[OpAt(producers, v)]
  {
    hide IsIndex;
    hide Links;
    var k: nat :| k < |net.ins[o]| && net.ins[o][k] == v;
    assert Slot(net.ins, o, k, v);
    OnceIsOneOp(net.outs);
    FirstOpLists(producers, net.outs, v);
  }

  // ----- as many calls from either side

  /** All variables of the lists, in scanning order. */
  ghost function AllVars(lists: map<string, seq<string>>, order: seq<string>): seq<string> {
    if order == [] then []
    else AllVars(lists, order[..|order| - 1]) + VarsOf(lists, order[|order| - 1])
  }

  lemma {:induction false} AllVarsCover(lists: map<string, seq<string>>, order: seq<string>, v: string)
    ensures v in AllVars(lists, order) <==> exists o :: o in order && v in VarsOf(lists, o)
  {
    if order != [] {
      var n := |order| - 1;
      AllVarsCover(lists, order[..n], v);
      assert order == order[..n] + [order[n]];
    }
  }

  /** No variable is listed twice, so none is scanned twice. */
  lemma {:induction false} AllVarsUnique(lists: map<string, seq<string>>, order: seq<string>)
    requires OnceEach(lists) && Unique(order)
    ensures Unique(AllVars(lists, order))
  {
    if order != [] {
      var n := |order| - 1;
      AllVarsUnique(lists, order[..n]);
      var front, back := AllVars(lists, order[..n]), VarsOf(lists, order[n]);
      hide AllVars;
      forall i, j | 0 <= i < |front| && 0 <= j < |back| ensures front[i] != back[j] {
        AllVarsCover(lists, order[..n], front[i]);
        var o :| o in order[..n] && front[i] in VarsOf(lists, o);
        var k: nat :| k < |lists[o]| && lists[o][k] == front[i];
        assert Slot(lists, o, k, front[i]) && Slot(lists, order[n], j, back[j]);
      }
      BackIsUnique(lists, order[n]);
      UniqueConcat(front, back);
    }
  }

  lemma BackIsUnique(lists: map<string, seq<string>>, o: string)
    requires OnceEach(lists)
    ensures Unique(VarsOf(lists, o))
  {
    var vs := VarsOf(lists, o);
    forall i, j | 0 <= i < j < |vs| ensures vs[i] != vs[j] {
      assert Slot(lists, o, i, vs[i]) && Slot(lists, o, j, vs[j]);
    }
  }

  lemma UniqueConcat<T>(a: seq<T>, b: seq<T>)
    requires Unique(a) && Unique(b)
    requires forall i, j :: 0 <= i < |a| && 0 <= j < |b| ==> a[i] != b[j]
    ensures Unique(a + b)
  {
  }

  lemma {:induction false} UniqueCounts<T>(s: seq<T>)
    requires Unique(s)
    ensures forall x :: multiset(s)[x] == if x in s then 1 else 0
  {
    if s != [] {
      var n := |s| - 1;
      UniqueCounts(s[..n]);
      assert s == s[..n] + [s[n]];
      assert s[n] !in s[..n];
    }
  }

  /** The arc of variable v: from its producer to its consumer. */
  ghost function ArcOf(consumers: OpIndex, producers: OpIndex, v: string): Arc {
    if Links(consumers, v) && Links(producers, v) then Arc(OpAt(producers, v), OpAt(consumers, v)) else Arc("", "")
  }

  ghost function ArcsOf(consumers: OpIndex, producers: OpIndex, vs: seq<string>): (r: seq<Arc>)
    ensures |r| == |vs|
  {
    seq(|vs|, i requires 0 <= i < |vs| => ArcOf(consumers, producers, vs[i]))
  }

  lemma ArcsOfConcat(consumers: OpIndex, producers: OpIndex, vs: seq<string>, ws: seq<string>)
    ensures ArcsOf(consumers, producers, vs + ws) == ArcsOf(consumers, producers, vs) + ArcsOf(consumers, producers, ws)
  {
    hide ArcOf;
  }

  lemma WithoutPlace<T>(s: seq<T>, i: nat)
    requires i < |s|
    ensures multiset(s) == multiset(s[..i] + s[i + 1..]) + multiset([s[i]])
  {
    assert s == s[..i] + ([s[i]] + s[i + 1..]);
  }

  lemma SameWithoutPlace<T>(s: seq<T>, t: seq<T>, i: nat)
    requires multiset(s) == multiset(t) && i < |t| && s != [] && t[i] == s[0]
    ensures multiset(s[..0] + s[1..]) == multiset(t[..i] + t[i + 1..])
  {
    WithoutPlace(s, 0);
    WithoutPlace(t, i);
    Cancel(multiset(s[..0] + s[1..]), multiset(t[..i] + t[i + 1..]), multiset([s[0]]));
  }

  lemma Cancel<T>(a: multiset<T>, b: multiset<T>, c: multiset<T>)
    requires a + c == b + c
    ensures a == b
  {
    assert a == a + c - c && b == b + c - c;
  }

  lemma ArcsWithoutPlace(consumers: OpIndex, producers: OpIndex, vs: seq<string>, i: nat)
    requires i < |vs|
    ensures multiset(ArcsOf(consumers, producers, vs)) ==
            multiset(ArcsOf(consumers, producers, vs[..i] + vs[i + 1..])) +
            multiset([ArcOf(consumers, producers, vs[i])])
  {
    hide ArcOf;
    var arcs := ArcsOf(consumers, producers, vs);
    WithoutPlace(arcs, i);
    assert arcs[..i] + arcs[i + 1..] == ArcsOf(consumers, producers, vs[..i] + vs[i + 1..]);
  }

  lemma {:induction false} SamePermutation(consumers: OpIndex, producers: OpIndex, vs: seq<string>, ws: seq<string>)
    requires multiset(vs) == multiset(ws)
    ensures multiset(ArcsOf(consumers, producers, vs)) == multiset(ArcsOf(consumers, producers, ws))
    decreases |vs|
  {
    hide ArcsOf;
    hide ArcOf;
    if vs == [] {
      assert |multiset(vs)| == 0 && |multiset(ws)| == |ws|;
    } else {
      assert vs[0] in multiset(ws);
      var i: nat :| i < |ws| && ws[i] == vs[0];
      SameWithoutPlace(vs, ws, i);
      SamePermutation(consumers, producers, vs[..0] + vs[1..], ws[..i] + ws[i + 1..]);
      ArcsWithoutPlace(consumers, producers, vs, 0);
      ArcsWithoutPlace(consumers, producers, ws, i);
    }
  }

  /** The calls of one op, seen as the arcs of its variables. */
  lemma PairsAreArcs(side: Side, consumers: OpIndex, producers: OpIndex, o: string, vs: seq<string>)
    requires forall v :: v in vs ==> Links(consumers, v) && Links(producers, v)
    requires forall v :: v in vs ==> OpAt(if side == InSide then consumers else producers, v) == o
    ensures Pairs(side, if side == InSide then producers else consumers, o, vs) == ArcsOf(consumers, producers, vs)
  {
    var index := if side == InSide then producers else consumers;
    PairsAt(side, index, o, vs);
    hide Pairs;
    var arcs := ArcsOf(consumers, producers, vs);
    forall k | 0 <= k < |vs| ensures Pairs(side, index, o, vs)[k] == arcs[k] {
      assert vs[k] in vs;
    }
  }

  /** The indexes lead from each listed variable back to its op. */
  ghost predicate Leads(side: Side, consumers: OpIndex, producers: OpIndex, lists: map<string, seq<string>>) {
    forall o, v :: o in lists && v in lists[o] ==>
      Links(consumers, v) && Links(producers, v) && OpAt(if side == InSide then consumers else producers, v) == o
  }

  lemma {:induction false} AllPairsAreArcs(side: Side, consumers: OpIndex, producers: OpIndex,
                                           lists: map<string, seq<string>>, order: seq<string>)
    requires Leads(side, consumers, producers, lists)
    ensures AllPairs(side, if side == InSide then producers else consumers, lists, order) ==
            ArcsOf(consumers, producers, AllVars(lists, order))
  {
    if order != [] {
      var n := |order| - 1;
      var vs := VarsOf(lists, order[n]);
      AllPairsAreArcs(side, consumers, producers, lists, order[..n]);
      assert forall v :: v in vs ==> order[n] in lists;
      PairsAreArcs(side, consumers, producers, order[n], vs);
      ArcsOfConcat(consumers, producers, AllVars(lists, order[..n]), vs);
      hide Pairs;
      hide ArcsOf;
      hide Links;
      hide OpAt;
    }
  }

  lemma VarsByOrder(lists: map<string, seq<string>>, order: seq<string>, v: string)
    requires Lists(order, lists.Keys)
    ensures v in AllVars(lists, order) <==> Listed(lists, v)
  {
    AllVarsCover(lists, order, v);
    if o :| o in order && v in VarsOf(lists, o) {
      var k: nat :| k < |lists[o]| && lists[o][k] == v;
      assert Slot(lists, o, k, v);
    }
    if o: string, k: nat :| Slot(lists, o, k, v) {
      assert o in order && v in VarsOf(lists, o);
    }
  }

  lemma SameVars(net: Net, insOrder: seq<string>, outsOrder: seq<string>)
    requires Linear(net) && Lists(insOrder, net.ins.Keys) && Lists(outsOrder, net.outs.Keys)
    ensures multiset(AllVars(net.ins, insOrder)) == multiset(AllVars(net.outs, outsOrder))
  {
    var vs, ws := AllVars(net.ins, insOrder), AllVars(net.outs, outsOrder);
    forall v ensures v in vs <==> v in ws {
      VarsByOrder(net.ins, insOrder, v);
      VarsByOrder(net.outs, outsOrder, v);
    }
    AllVarsUnique(net.ins, insOrder);
    AllVarsUnique(net.outs, outsOrder);
    UniqueCounts(vs);
    UniqueCounts(ws);
    hide AllVars;
    hide Unique;
    hide Lists;
  }

  lemma LeadBack(net: Net, consumers: OpIndex, producers: OpIndex)
    requires Indexed(net, consumers, producers) && Linear(net)
    ensures Leads(InSide, consumers, producers, net.ins) && Leads(OutSide, consumers, producers, net.outs)
  {
    OnceIsOneOp(net.ins);
    OnceIsOneOp(net.outs);
    hide IsIndex;
    hide OnceEach;
    hide OneOpEach;
    hide Listed;
    hide Links;
    forall v
      ensures Links(consumers, v) <==> Links(producers, v)
      ensures forall o :: o in net.ins && v in net.ins[o] ==> Links(consumers, v) && OpAt(consumers, v) == o
      ensures forall o :: o in net.outs && v in net.outs[o] ==> Links(producers, v) && OpAt(producers, v) == o
    {
      FirstOpLists(consumers, net.ins, v);
      FirstOpLists(producers, net.outs, v);
    }
  }

  /** In the linear form the same pairs are added from both sides, each as often, in whatever order
      the two maps are scanned. */
  lemma SameCalls(net: Net, consumers: OpIndex, producers: OpIndex, insOrder: seq<string>, outsOrder: seq<string>)
    requires Indexed(net, consumers, producers) && Linear(net)
    requires Lists(insOrder, net.ins.Keys) && Lists(outsOrder, net.outs.Keys)
    ensures multiset(AllPairs(InSide, producers, net.ins, insOrder)) ==
            multiset(AllPairs(OutSide, consumers, net.outs, outsOrder))
  {
    SameVars(net, insOrder, outsOrder);
    LeadBack(net, consumers, producers);
    SamePermutation(consumers, producers, AllVars(net.ins, insOrder), AllVars(net.outs, outsOrder));
    AllPairsAreArcs(InSide, consumers, producers, net.ins, insOrder);
    AllPairsAreArcs(OutSide, consumers, producers, net.outs, outsOrder);
  }

  // ----- more calls from one side

  lemma {:induction false} UniqueFits<T>(s: seq<T>, t: seq<T>)
    requires Unique(s) && forall x :: x in s ==> x in t
    ensures |s| <= |t|
  {
    if s != [] {
      var n := |s| - 1;
      assert s[n] in t;
      var i: nat :| i < |t| && t[i] == s[n];
      var rest := t[..i] + t[i + 1..];
      assert t == t[..i] + [t[i]] + t[i + 1..];
      forall x | x in s[..n] ensures x in rest {
        var j: nat :| j < n && s[j] == x;
        assert x in t && x != s[n];
      }
      UniqueFits(s[..n], rest);
    }
  }

  lemma RepeatsAreLonger<T>(s: seq<T>, t: seq<T>)
    requires Unique(s) && !Unique(t) && forall x :: x in s ==> x in t
    ensures |s| < |t|
  {
    var i, j :| 0 <= i < j < |t| && t[i] == t[j];
    var rest := t[..j] + t[j + 1..];
    assert t == t[..j] + [t[j]] + t[j + 1..];
    assert rest[i] == t[j];
    UniqueFits(s, rest);
  }

  lemma {:induction false} PartOfUnique(lists: map<string, seq<string>>, order: seq<string>, o: string)
    requires Unique(AllVars(lists, order)) && o in order
    ensures Unique(VarsOf(lists, o))
  {
    var n := |order| - 1;
    var all, front, back := AllVars(lists, order), AllVars(lists, order[..n]), VarsOf(lists, order[n]);
    if o == order[n] {
      assert forall i :: 0 <= i < |back| ==> back[i] == all[|front| + i];
    } else {
      assert forall i :: 0 <= i < |front| ==> front[i] == all[i];
      assert order == order[..n] + [order[n]];
      PartOfUnique(lists, order[..n], o);
    }
  }

  ghost function Linked(index: OpIndex, vs: seq<string>): seq<string> {
    if vs == [] then []
    else Linked(index, vs[..|vs| - 1]) + if Links(index, vs[|vs| - 1]) then [vs[|vs| - 1]] else []
  }

  lemma {:induction false} LinkedConcat(index: OpIndex, vs: seq<string>, ws: seq<string>)
    ensures Linked(index, vs + ws) == Linked(index, vs) + Linked(index, ws)
  {
    if ws == [] {
      assert vs + ws == vs;
    } else {
      var n := |ws| - 1;
      LinkedConcat(index, vs, ws[..n]);
      assert (vs + ws)[..|vs| + n] == vs + ws[..n];
    }
  }

  lemma {:induction false} LinkedIn(index: OpIndex, vs: seq<string>)
    ensures forall v :: v in Linked(index, vs) <==> v in vs && Links(index, v)
    ensures Unique(vs) ==> Unique(Linked(index, vs))
  {
    if vs != [] {
      var n := |vs| - 1;
      LinkedIn(index, vs[..n]);
      assert vs == vs[..n] + [vs[n]];
      assert Unique(vs) ==> forall i :: 0 <= i < n ==> vs[i] != vs[n];
    }
  }

  lemma {:induction false} PairsCount(side: Side, index: OpIndex, o: string, vs: seq<string>)
    ensures |Pairs(side, index, o, vs)| == |Linked(index, vs)|
  {
    if vs != [] {
      PairsCount(side, index, o, vs[..|vs| - 1]);
    }
  }

  /** A call for every listed variable that the index knows. */
  lemma {:induction false} CallsCount(side: Side, index: OpIndex, lists: map<string, seq<string>>, order: seq<string>)
    ensures |AllPairs(side, index, lists, order)| == |Linked(index, AllVars(lists, order))|
  {
    if order != [] {
      var n := |order| - 1;
      CallsCount(side, index, lists, order[..n]);
      PairsCount(side, index, order[n], VarsOf(lists, order[n]));
      LinkedConcat(index, AllVars(lists, order[..n]), VarsOf(lists, order[n]));
    }
  }

  lemma {:induction false} AllLinked(index: OpIndex, vs: seq<string>)
    requires forall v :: v in vs ==> Links(index, v)
    ensures Linked(index, vs) == vs
  {
    if vs != [] {
      AllLinked(index, vs[..|vs| - 1]);
      assert Links(index, vs[|vs| - 1]);
    }
  }

  /** An op that lists a variable twice makes more calls of add_in_arc than there are of add_out_arc. */
  lemma RepeatsMakeMoreCalls(net: Net, consumers: OpIndex, producers: OpIndex, insOrder: seq<string>,
                             outsOrder: seq<string>)
    requires Indexed(net, consumers, producers) && Joinable(net)
    requires Lists(insOrder, net.ins.Keys) && Lists(outsOrder, net.outs.Keys)
    requires exists o :: o in net.ins && !Unique(net.ins[o])
    ensures |AllPairs(InSide, producers, net.ins, insOrder)| > |AllPairs(OutSide, consumers, net.outs, outsOrder)|
  {
    var vs, ws := AllVars(net.ins, insOrder), AllVars(net.outs, outsOrder);
    CallsCount(InSide, producers, net.ins, insOrder);
    CallsCount(OutSide, consumers, net.outs, outsOrder);
    OnceIsOneOp(net.outs);
    forall v
      ensures v in vs ==> Links(producers, v)
      ensures v in ws && Links(consumers, v) ==> v in vs
    {
      VarsByOrder(net.ins, insOrder, v);
      FirstOpLists(consumers, net.ins, v);
      FirstOpLists(producers, net.outs, v);
    }
    AllLinked(producers, vs);
    AllVarsUnique(net.outs, outsOrder);
    LinkedIn(consumers, ws);
    var o :| o in net.ins && !Unique(net.ins[o]);
    if Unique(vs) {
      PartOfUnique(net.ins, insOrder, o);
    }
    RepeatsAreLonger(Linked(consumers, ws), vs);
  }

  // ----- the arcs of the whole graph

  lemma {:induction false} AllPairsOf(side: Side, index: OpIndex, lists: map<string, seq<string>>, order: seq<string>,
                                      a: Arc)
    ensures a in AllPairs(side, index, lists, order) <==>
            var o := if side == InSide then a.top else a.bottom;
            o in order && a in Pairs(side, index, o, VarsOf(lists, o))
  {
    if order != [] {
      var n := |order| - 1;
      assert order == order[..n] + [order[n]];
      AllPairsOf(side, index, lists, order[..n], a);
      PairOf(side, index, order[n], VarsOf(lists, order[n]), a);
    }
  }

  /** Every arc is in the in-list of its top and in the out-list of its bottom. */
  lemma ArcsAtBothEnds(net: Net, consumers: OpIndex, producers: OpIndex, insOrder: seq<string>, outsOrder: seq<string>,
                       a: Arc)
    requires Indexed(net, consumers, producers) && Joinable(net)
    requires Lists(insOrder, net.ins.Keys) && Lists(outsOrder, net.outs.Keys)
    ensures var all := a in AllPairs(InSide, producers, net.ins, insOrder) ||
                       a in AllPairs(OutSide, consumers, net.outs, outsOrder);
      && (all <==> a in Merged([], Pairs(InSide, producers, a.top, VarsOf(net.ins, a.top))))
      && (all <==> a in Merged([], Pairs(OutSide, consumers, a.bottom, VarsOf(net.outs, a.bottom))))
      && (all <==> Feeds(net, a))
  {
    hide Indexed;
    hide Joinable;
    hide Feeds;
    AllPairsOf(InSide, producers, net.ins, insOrder, a);
    AllPairsOf(OutSide, consumers, net.outs, outsOrder, a);
    MergedIsUnique([], Pairs(InSide, producers, a.top, VarsOf(net.ins, a.top)));
    MergedIsUnique([], Pairs(OutSide, consumers, a.bottom, VarsOf(net.outs, a.bottom)));
    ArcsAgree(net, consumers, producers, a);
    ArcIffFeeds(net, consumers, producers, a);
  }

  lemma FrozenIsJoinable(net: Net, consumers: OpIndex, producers: OpIndex)
    requires Freezable(net) && Indexed(net, consumers, producers)
    ensures Joinable(Frozen(net, consumers, producers))
  {
    OneConsumingOp(net, consumers, producers);
    OneProducerAlways(net, consumers, producers);
    hide Frozen;
    hide Freezable;
    hide Indexed;
  }

  /** The ops an index names are ops. */
  lemma IndexNamesOps(index: OpIndex, lists: map<string, seq<string>>)
    requires IsIndex(index, lists)
    ensures forall v :: v in index ==> index[v] != [] && index[v][0] in lists
  {
    forall v | v in index ensures index[v] != [] && index[v][0] in lists {
      IndexCovers(index, lists, v);
      assert index[v][0] in index[v];
    }
  }

  /** After Freeze both loops make the same calls, each as often, exactly when no op of the given net lists
      an input variable twice. */
  lemma CallsMatchIffNoRepeats(net: Net, consumers: OpIndex, producers: OpIndex, laterConsumers: OpIndex,
                               laterProducers: OpIndex, insOrder: seq<string>, outsOrder: seq<string>)
    requires Freezable(net) && Indexed(net, consumers, producers)
    requires var f := Frozen(net, consumers, producers);
      Indexed(f, laterConsumers, laterProducers) && Lists(insOrder, f.ins.Keys) && Lists(outsOrder, f.outs.Keys)
    ensures var f := Frozen(net, consumers, producers);
      NoRepeats(net.ins) <==> multiset(AllPairs(InSide, laterProducers, f.ins, insOrder)) ==
                              multiset(AllPairs(OutSide, laterConsumers, f.outs, outsOrder))
  {
    hide Frozen;
    hide FreshNames;
    hide IsIndex;
    hide AllPairs;
    hide Lists;
    var f := Frozen(net, consumers, producers);
    LinearIffNoRepeats(net, consumers, producers);
    if NoRepeats(net.ins) {
      SameCalls(f, laterConsumers, laterProducers, insOrder, outsOrder);
    } else {
      FrozenIsJoinable(net, consumers, producers);
      RepeatInOneOp(net, consumers, producers);
      RepeatsMakeMoreCalls(f, laterConsumers, laterProducers, insOrder, outsOrder);
      var a := AllPairs(InSide, laterProducers, f.ins, insOrder);
      var b := AllPairs(OutSide, laterConsumers, f.outs, outsOrder);
      assert |multiset(a)| == |a| && |multiset(b)| == |b|;
    }
  }

  lemma RepeatInOneOp(net: Net, consumers: OpIndex, producers: OpIndex)
    requires Freezable(net) && Indexed(net, consumers, producers) && !NoRepeats(net.ins)
    ensures exists o :: o in Frozen(net, consumers, producers).ins && !Unique(Frozen(net, consumers, producers).ins[o])
  {
    hide Frozen;
    hide FreshNames;
    hide Indexed;
    var v: string, o: string, k: nat, k': nat :| Slot(net.ins, o, k, v) && Slot(net.ins, o, k', v) && k != k';
    OpReads(net, consumers, producers, o, k);
    OpReads(net, consumers, producers, o, k');
    var vs := Frozen(net, consumers, producers).ins[o];
    assert vs[k] == vs[k'];
  }
}
