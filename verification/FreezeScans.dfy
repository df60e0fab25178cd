/** The scans of Freeze: building the variable-to-op maps, finding unproduced variables, rewiring splits. */
module FreezeScans {
  import opened GraphNames
  import opened Nets

  // ----- building the variable-to-op maps

  function Push<T>(m: map<string, seq<T>>, v: string, x: T): map<string, seq<T>> {
    m[v := (if v in m then m[v] else []) + [x]]
  }

  lemma PushKeepsIndex(index: OpIndex, slots: SlotIndex, lists: map<string, seq<string>>, o: string, v: string)
    requires o in lists && Indexes(index, slots, lists)
    ensures Indexes(Push(index, v, o), Push(slots, v, (o, |lists[o]|)), lists[o := lists[o] + [v]])
  {
    var lists' := lists[o := lists[o] + [v]];
    var slots': SlotIndex := Push(slots, v, (o, |lists[o]|));
    var index': OpIndex := Push(index, v, o);
    forall u, i: nat | u in index' && i < |index'[u]|
      ensures index'[u][i] == slots'[u][i].0 && Slot(lists', slots'[u][i].0, slots'[u][i].1, u)
    {
      if u in index && i < |index[u]| {
        assert Slot(lists, slots[u][i].0, slots[u][i].1, u);
      }
    }
    forall u: string, o': string, k: nat | Slot(lists', o', k, u) ensures u in slots' && (o', k) in slots'[u] {
      if Slot(lists, o', k, u) {
        assert (o', k) in slots[u];
      } else {
        assert o' == o && k == |lists[o]| && slots'[v][|slots'[v]| - 1] == (o, k);
      }
    }
    forall u, i, j | u in slots' && 0 <= i < j < |slots'[u]| ensures slots'[u][i] != slots'[u][j] {
      if u in slots && i < |slots[u]| {
        assert Slot(lists, slots[u][i].0, slots[u][i].1, u);
      }
    }
  }

  lemma EmptyEntryKeepsIndex(index: OpIndex, slots: SlotIndex, lists: map<string, seq<string>>, o: string)
    requires o !in lists && Indexes(index, slots, lists)
    ensures Indexes(index, slots, lists[o := []])
  {
    var lists' := lists[o := []];
    forall v, i: nat | v in index && i < |index[v]|
      ensures index[v][i] == slots[v][i].0 && Slot(lists', slots[v][i].0, slots[v][i].1, v)
    {
      assert Slot(lists, slots[v][i].0, slots[v][i].1, v);
    }
    forall v: string, o': string, k: nat | Slot(lists', o', k, v) ensures v in slots && (o', k) in slots[v] {
      assert Slot(lists, o', k, v);
    }
  }

  /** Enters the variables of op o, front to back. */
  method IndexOp(index: OpIndex, o: string, vs: seq<string>, ghost slots: SlotIndex,
                 ghost lists: map<string, seq<string>>) returns (index': OpIndex, ghost slots': SlotIndex)
    requires o !in lists && Indexes(index, slots, lists)
    ensures Indexes(index', slots', lists[o := vs])
  {
    index', slots' := index, slots;
    EmptyEntryKeepsIndex(index, slots, lists, o);
    assert vs[..0] == [];
    for k := 0 to |vs|
      invariant Indexes(index', slots', lists[o := vs[..k]])
    {
      PushKeepsIndex(index', slots', lists[o := vs[..k]], o, vs[k]);
      assert vs[..k + 1] == vs[..k] + [vs[k]];
      assert lists[o := vs[..k]][o := vs[..k] + [vs[k]]] == lists[o := vs[..k + 1]];
      slots' := Push(slots', vs[k], (o, k));
      index' := Push(index', vs[k], o);
    }
    assert vs[..|vs|] == vs;
  }

  /** Scans the entries of node_ins or node_outs, in any order. */
  method BuildIndex(lists: map<string, seq<string>>) returns (index: OpIndex)
    ensures IsIndex(index, lists)
  {
    index := map[];
    ghost var slots: SlotIndex := map[];
    var todo := lists.Keys;
    ghost var done: map<string, seq<string>> := map[];
    while todo != {}
      invariant todo <= lists.Keys && done.Keys == lists.Keys - todo
      invariant forall o :: o in done ==> done[o] == lists[o]
      invariant Indexes(index, slots, done)
      decreases todo
    {
      var o :| o in todo;
      index, slots := IndexOp(index, o, lists[o], slots, done);
      done := done[o := lists[o]];
      todo := todo - {o};
    }
    assert done == lists;
  }

  // ----- the scans of Freeze

  ghost predicate AllIn(vs: seq<string>, kept: set<string>, dropped: set<string>) {
    forall k :: 0 <= k < |vs| ==> vs[k] in kept || vs[k] in dropped
  }

  /** Notes the variables of one list that have no producer. */
  method NoteUnproduced(vs: seq<string>, producers: OpIndex, opIns: map<string, seq<string>>,
                        opOuts: map<string, seq<string>>, ghost seen: set<string>)
      returns (opIns': map<string, seq<string>>, opOuts': map<string, seq<string>>, ghost seen': set<string>)
    requires opIns == Same(seen, []) && opOuts == Own(seen)
    ensures opIns' == Same(seen', []) && opOuts' == Own(seen')
    ensures seen <= seen' && AllIn(vs, seen', producers.Keys)
    ensures forall v :: v in seen' ==> v in seen || (v in vs && v !in producers)
  {
    opIns', opOuts', seen' := opIns, opOuts, seen;
    hide Same;
    hide Own;
    for k := 0 to |vs|
      invariant opIns' == Same(seen', []) && opOuts' == Own(seen')
      invariant seen <= seen' && AllIn(vs[..k], seen', producers.Keys)
      invariant forall v :: v in seen' ==> v in seen || (v in vs && v !in producers)
    {
      if vs[k] !in producers {
        OneMore<seq<string>>(seen', vs[k], []);
        opIns' := opIns'[vs[k] := []];
        opOuts' := opOuts'[vs[k] := [vs[k]]];
        seen' := seen' + {vs[k]};
      }
    }
  }

  /** The first scan of node_ins: op_map_ins and op_map_outs of the Input ops. */
  method UnproducedInputs(lists: map<string, seq<string>>, producers: OpIndex, ghost consumers: OpIndex)
      returns (opIns: map<string, seq<string>>, opOuts: map<string, seq<string>>)
    requires IsIndex(consumers, lists)
    ensures opIns == Same(Inputs(consumers, producers), []) && opOuts == Own(Inputs(consumers, producers))
  {
    opIns, opOuts := map[], map[];
    ghost var seen: set<string> := {};
    NoneYet<seq<string>>([]);
    hide Same;
    hide Own;
    var todo := lists.Keys;
    while todo != {}
      invariant todo <= lists.Keys
      invariant opIns == Same(seen, []) && opOuts == Own(seen)
      invariant forall o :: o in lists && o !in todo ==> AllIn(lists[o], seen, producers.Keys)
      invariant forall v :: v in seen ==> Listed(lists, v) && v !in producers
      decreases todo
    {
      var o :| o in todo;
      ghost var before := seen;
      opIns, opOuts, seen := NoteUnproduced(lists[o], producers, opIns, opOuts, seen);
      forall v | v in seen ensures Listed(lists, v) && v !in producers {
        if v !in before {
          var k: nat :| k < |lists[o]| && lists[o][k] == v;
          assert Slot(lists, o, k, v);
        }
      }
      todo := todo - {o};
    }
    forall v ensures v in seen <==> v in Inputs(consumers, producers) {
      IndexCovers(consumers, lists, v);
      if v in Inputs(consumers, producers) {
        var o: string, k: nat :| Slot(lists, o, k, v);
        assert AllIn(lists[o], seen, producers.Keys);
      }
    }
    assert seen == Inputs(consumers, producers);
  }

  function RenamedIn(index: OpIndex, done: set<string>, o: string, v: string): string {
    if v in done then Renamed(index, o, v) else v
  }

  /** The input lists once the variables in done have been split. */
  ghost function PartIns(base: map<string, seq<string>>, index: OpIndex, done: set<string>)
      : (m: map<string, seq<string>>)
    ensures m.Keys == base.Keys && forall o :: o in base ==> m[o] == RenamedList(index, done, o, base[o])
  {
    Table(base.Keys, o requires o in base => RenamedList(index, done, o, base[o]))
  }

  function RenamedList(index: OpIndex, done: set<string>, o: string, vs: seq<string>): (r: seq<string>)
    ensures |r| == |vs|
  {
    seq(|vs|, k requires 0 <= k < |vs| => RenamedIn(index, done, o, vs[k]))
  }

  function Replaced(vs: seq<string>, v: string, w: string): (r: seq<string>)
    ensures |r| == |vs|
  {
    seq(|vs|, k requires 0 <= k < |vs| => if vs[k] == v then w else vs[k])
  }

  ghost function ReplacedFor(lists: map<string, seq<string>>, v: string, ops: seq<string>)
      : (m: map<string, seq<string>>)
    ensures m.Keys == lists.Keys
    ensures forall o :: o in lists ==>
      m[o] == if o in ops then Replaced(lists[o], v, SplitVar(v, FirstIndex(ops, o))) else lists[o]
  {
    Table(lists.Keys, o requires o in lists =>
      if o in ops then Replaced(lists[o], v, SplitVar(v, FirstIndex(ops, o))) else lists[o])
  }

  method ReplaceIn(vs: seq<string>, v: string, w: string) returns (r: seq<string>)
    ensures r == Replaced(vs, v, w)
  {
    r := vs;
    for k := 0 to |vs|
      invariant |r| == |vs|
      invariant forall j :: 0 <= j < k ==> r[j] == Replaced(vs, v, w)[j]
      invariant forall j :: k <= j < |vs| ==> r[j] == vs[j]
    {
      if r[k] == v {
        r := r[k := w];
      }
    }
  }

  lemma FirstIndexInPrefix(ops: seq<string>, i: nat, o: string)
    requires i <= |ops| && o in ops[..i]
    ensures FirstIndex(ops[..i], o) == FirstIndex(ops, o)
  {
    var a, b := FirstIndex(ops[..i], o), FirstIndex(ops, o);
    assert ops[a] == o && ops[..i][..a] == ops[..a];
  }

  lemma FirstIndexAtEnd(ops: seq<string>, i: nat)
    requires i < |ops| && ops[i] !in ops[..i]
    ensures FirstIndex(ops[..i + 1], ops[i]) == i
  {
    var a := FirstIndex(ops[..i + 1], ops[i]);
    assert ops[..i + 1][a] == ops[i];
  }

  lemma LaterEntryElsewhere(lists: map<string, seq<string>>, v: string, ops: seq<string>, i: nat, o: string)
    requires i < |ops| && o in lists && o != ops[i]
    ensures ReplacedFor(lists, v, ops[..i + 1])[o] == ReplacedFor(lists, v, ops[..i])[o]
  {
    hide SplitVar;
    assert ops[..i + 1] == ops[..i] + [ops[i]];
    if o in ops[..i] {
      FirstIndexInPrefix(ops[..i + 1], i, o);
      assert ops[..i + 1][..i] == ops[..i];
    }
  }

  lemma EntryHere(lists: map<string, seq<string>>, v: string, ops: seq<string>, i: nat)
    requires i < |ops| && ops[i] in lists
    ensures ReplacedFor(lists, v, ops[..i + 1])[ops[i]] ==
            Replaced(ReplacedFor(lists, v, ops[..i])[ops[i]], v, SplitVar(v, i))
  {
    hide SplitVar;
    var o := ops[i];
    assert ops[..i + 1] == ops[..i] + [o];
    if o in ops[..i] {
      FirstIndexInPrefix(ops[..i + 1], i, o);
      assert ops[..i + 1][..i] == ops[..i];
      SplitVarIsNew(v, FirstIndex(ops[..i], o));
    } else {
      FirstIndexAtEnd(ops, i);
    }
  }

  /** One more entry of the split: it takes effect only at the first entry of its op. */
  lemma ReplaceNext(lists: map<string, seq<string>>, v: string, ops: seq<string>, i: nat)
    requires i < |ops| && ops[i] in lists
    ensures var r := ReplacedFor(lists, v, ops[..i]);
            && ops[i] in r
            && ReplacedFor(lists, v, ops[..i + 1]) == r[ops[i] := Replaced(r[ops[i]], v, SplitVar(v, i))]
  {
    hide SplitVar;
    hide Replaced;
    hide ReplacedFor;
    EntryHere(lists, v, ops, i);
    forall o | o in lists && o != ops[i]
      ensures ReplacedFor(lists, v, ops[..i + 1])[o] == ReplacedFor(lists, v, ops[..i])[o]
    {
      LaterEntryElsewhere(lists, v, ops, i, o);
    }
  }

  lemma ReplacedEntry(base: map<string, seq<string>>, index: OpIndex, done: set<string>, v: string,
                      o: string, k: nat)
    requires IsIndex(index, base) && IsSplit(index, v) && v !in done && o in base && k < |base[o]|
    requires forall u, i: nat :: Listed(base, u) ==> SplitVar(u, i) != v
    ensures var u := RenamedIn(index, done, o, base[o][k]);
      RenamedIn(index, done + {v}, o, base[o][k]) ==
      if o in index[v] && u == v then SplitVar(v, FirstIndex(index[v], o)) else u
  {
    hide SplitVar;
    var u := base[o][k];
    assert Slot(base, o, k, u);
    IndexCovers(index, base, u);
    hide IsIndex;
  }

  /** Splitting v in the lists so far is the same as counting v among the split variables. */
  lemma ReplaceIsPart(base: map<string, seq<string>>, index: OpIndex, done: set<string>, v: string)
    requires IsIndex(index, base) && IsSplit(index, v) && v !in done
    requires forall u, i: nat :: Listed(base, u) ==> SplitVar(u, i) != v
    ensures ReplacedFor(PartIns(base, index, done), v, index[v]) == PartIns(base, index, done + {v})
  {
    hide PartIns;
    hide ReplacedFor;
    hide SplitVar;
    var part, whole := PartIns(base, index, done), PartIns(base, index, done + {v});
    var r := ReplacedFor(part, v, index[v]);
    forall o | o in base ensures r[o] == whole[o] {
      hide RenamedIn;
      hide IsIndex;
      forall k: nat | k < |base[o]| ensures r[o][k] == whole[o][k] {
        ReplacedEntry(base, index, done, v, o, k);
      }
    }
  }
}
