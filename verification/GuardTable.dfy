/** The address-keyed table of "already used" flags, and the block-keyed table that it stands for. */
module GuardTable {

  datatype Level = Level0 | Level1 | Level2 | Level3

  /** GlobalResRestrain: one accessible flag per level. */
  datatype LevelList = LevelList(open0: bool, open1: bool, open2: bool, open3: bool) {
    function CheckAccess(level: Level): bool {
      match level
      case Level0 => open0
      case Level1 => open1
      case Level2 => open2
      case Level3 => open3
    }

    function Use(level: Level): LevelList {
      match level
      case Level0 => this.(open0 := false)
      case Level1 => this.(open1 := false)
      case Level2 => this.(open2 := false)
      case Level3 => this.(open3 := false)
    }
  }

  const NEW_LIST := LevelList(true, true, true, true)

  /** The null pointer. */
  const NULL: nat := 0

  lemma UseCloses(list: LevelList, level: Level, other: Level)
    ensures list.Use(level).CheckAccess(other) <==> list.CheckAccess(other) && other != level
  {
  }

  // ----- what happens to the table

  /** Blocks have names; at is the address of the data. ApplyNull is apply on a tensor without data;
      Release is the owner of an external block deleting it. */
  datatype Event =
    | NewBlock(id: nat, at: nat)
    | RegisterBlock(id: nat, at: nat)
    | Apply(id: nat, level: Level, to: nat)
    | ApplyNull(level: Level, to: nat)
    | Release(id: nat)
    | CleanAll

  /** _res_guard, the addresses of the live registered blocks, and the blocks of the memory pools. */
  datatype Table = Table(guard: map<nat, LevelList>, where: map<nat, nat>, pool: set<nat>)

  const START := Table(map[NULL := NEW_LIST], map[], {})

  /** No live block other than id has its data here. */
  ghost predicate FreeFor(t: Table, id: nat, at: nat) {
    at != NULL && forall j :: j in t.where && j != id ==> t.where[j] != at
  }

  /** The environment: allocation gives non-null addresses that no live block has, and a functor leaves the data at
      the old address or at one that no other live block has. */
  ghost predicate Allowed(t: Table, e: Event) {
    match e
    case NewBlock(id, at) => id !in t.where && FreeFor(t, id, at)
    case RegisterBlock(id, at) => FreeFor(t, id, at) && (id in t.where ==> t.where[id] == at)
    case Apply(id, level, to) => id in t.where && FreeFor(t, id, to)
    case ApplyNull(level, to) => forall j :: j in t.where ==> t.where[j] != to
    case Release(id) => id in t.where && id !in t.pool
    case CleanAll => true
  }

  /** emplace, swap and erase: the flags move to the new key, whatever was there. */
  function MoveKey(guard: map<nat, LevelList>, key: nat, newKey: nat): map<nat, LevelList>
    requires key in guard
  {
    if key == newKey then guard
    else if key != NULL then guard[newKey := guard[key]] - {key}
    else guard[newKey := guard[key]][key := if newKey in guard then guard[newKey] else NEW_LIST]
  }

  function AfterApply(guard: map<nat, LevelList>, key: nat, level: Level, newKey: nat): map<nat, LevelList>
    requires key in guard
  {
    if guard[key].CheckAccess(level) then MoveKey(guard[key := guard[key].Use(level)], key, newKey) else guard
  }

  /** The functor is called. */
  ghost predicate Runs(t: Table, e: Event) {
    e.Apply? && e.id in t.where && t.where[e.id] in t.guard && t.guard[t.where[e.id]].CheckAccess(e.level)
  }

  ghost function Step(t: Table, e: Event): Table {
    match e
    case NewBlock(id, at) => Table(t.guard[at := NEW_LIST], t.where[id := at], t.pool + {id})
    case RegisterBlock(id, at) => Table(t.guard[at := NEW_LIST], t.where[id := at], t.pool)
    case Apply(id, level, to) =>
      if Runs(t, e) then Table(AfterApply(t.guard, t.where[id], level, to), t.where[id := to], t.pool) else t
    case ApplyNull(level, to) => if NULL in t.guard then t.(guard := AfterApply(t.guard, NULL, level, to)) else t
    case Release(id) => t.(where := t.where - {id})
    case CleanAll => Table(t.guard, t.where - t.pool, {})
  }

  // ----- the block-keyed table

  /** For each live registered block, the levels that were used since it was registered. */
  type Used = map<nat, set<Level>>

  ghost predicate AbstractRuns(used: Used, e: Event) {
    e.Apply? && e.id in used && e.level !in used[e.id]
  }

  ghost function AbstractStep(used: Used, pool: set<nat>, e: Event): Used {
    match e
    case NewBlock(id, at) => used[id := {}]
    case RegisterBlock(id, at) => used[id := {}]
    case Apply(id, level, to) => if id in used then used[id := used[id] + {level}] else used
    case ApplyNull(level, to) => used
    case Release(id) => used - {id}
    case CleanAll => used - pool
  }

  ghost predicate Stands(list: LevelList, levels: set<Level>) {
    forall level :: list.CheckAccess(level) <==> level !in levels
  }

  /** Live blocks have different non-null addresses, and the flags found at the address of a block are its own. */
  ghost predicate Refines(t: Table, used: Used) {
    && t.where.Keys == used.Keys
    && (forall id :: id in t.where ==> FreeFor(t, id, t.where[id]))
    && (forall id :: id in t.where ==> t.where[id] in t.guard && Stands(t.guard[t.where[id]], used[id]))
    && NULL in t.guard
  }

  lemma StartRefines()
    ensures Refines(START, map[])
  {
  }

  /** Every allowed event keeps the tables in step, and the functor is called in one when it is in the other,
      also when the data moves, or moves to an address that a deleted block left in the table. */
  lemma StepRefines(t: Table, used: Used, e: Event)
    requires Refines(t, used) && Allowed(t, e)
    ensures Runs(t, e) <==> AbstractRuns(used, e)
    ensures Refines(Step(t, e), AbstractStep(used, t.pool, e))
  {
    if Runs(t, e) {
      MoveRefines(t, used, e);
    } else if e.ApplyNull? {
      NullRefines(t, used, e);
    } else {
      hide AfterApply;
    }
  }

  lemma NullRefines(t: Table, used: Used, e: Event)
    requires Refines(t, used) && Allowed(t, e) && e.ApplyNull?
    ensures Refines(Step(t, e), used)
  {
    hide LevelList.Use;
    hide LevelList.CheckAccess;
    var t' := Step(t, e);
    forall id | id in t'.where
      ensures FreeFor(t', id, t'.where[id])
      ensures t'.where[id] in t'.guard && t'.guard[t'.where[id]] == t.guard[t.where[id]]
    {
      assert FreeFor(t, id, t.where[id]);
    }
  }

  lemma MoveRefines(t: Table, used: Used, e: Event)
    requires Refines(t, used) && Allowed(t, e) && Runs(t, e)
    ensures Refines(Step(t, e), AbstractStep(used, t.pool, e))
  {
    var key := t.where[e.id];
    var t', used' := Step(t, e), AbstractStep(used, t.pool, e);
    forall level ensures t.guard[key].Use(e.level).CheckAccess(level) <==> level !in used[e.id] + {e.level} {
      UseCloses(t.guard[key], e.level, level);
    }
    forall id | id in t'.where
      ensures FreeFor(t', id, t'.where[id]) && t'.where[id] in t'.guard && Stands(t'.guard[t'.where[id]], used'[id])
    {
      assert FreeFor(t, id, t.where[id]);
    }
  }

  // ----- whole runs

  ghost function After(events: seq<Event>): Table {
    if events == [] then START else Step(After(events[..|events| - 1]), events[|events| - 1])
  }

  ghost function AbstractAfter(events: seq<Event>): Used {
    if events == [] then map[]
    else AbstractStep(AbstractAfter(events[..|events| - 1]), After(events[..|events| - 1]).pool, events[|events| - 1])
  }

  ghost predicate AllAllowed(events: seq<Event>) {
    forall k :: 0 <= k < |events| ==> Allowed(After(events[..k]), events[k])
  }

  ghost predicate Registers(e: Event, id: nat) {
    (e.NewBlock? || e.RegisterBlock?) && e.id == id
  }

  lemma {:induction false} RunRefines(events: seq<Event>)
    requires AllAllowed(events)
    ensures Refines(After(events), AbstractAfter(events))
  {
    if events == [] {
      StartRefines();
    } else {
      var n := |events| - 1;
      assert forall k :: 0 <= k < n ==> events[..n][..k] == events[..k];
      RunRefines(events[..n]);
      StepRefines(After(events[..n]), AbstractAfter(events[..n]), events[n]);
    }
  }

  /** Some event applies the level to the block, and the block is not registered again afterwards. */
  ghost predicate AppliedSince(events: seq<Event>, id: nat, level: Level) {
    exists j :: 0 <= j < |events| && events[j].Apply? && events[j].id == id && events[j].level == level
                && forall m :: j < m < |events| ==> !Registers(events[m], id)
  }

  lemma AppliedSinceNext(events: seq<Event>, e: Event, id: nat, level: Level)
    ensures AppliedSince(events + [e], id, level) <==>
      || (e.Apply? && e.id == id && e.level == level)
      || (AppliedSince(events, id, level) && !Registers(e, id))
  {
    var all := events + [e];
    if AppliedSince(all, id, level) {
      var j :| 0 <= j < |all| && all[j].Apply? && all[j].id == id && all[j].level == level
               && forall m :: j < m < |all| ==> !Registers(all[m], id);
      if j < |events| {
        assert all[j] == events[j];
        assert forall m :: j < m < |events| ==> all[m] == events[m];
        assert !Registers(all[|events|], id);
      }
    }
    if AppliedSince(events, id, level) && !Registers(e, id) {
      var j :| 0 <= j < |events| && events[j].Apply? && events[j].id == id && events[j].level == level
               && forall m :: j < m < |events| ==> !Registers(events[m], id);
      assert all[j] == events[j];
      assert forall m :: j < m < |all| ==> all[m] == if m < |events| then events[m] else e;
    }
    if e.Apply? && e.id == id && e.level == level {
      assert all[|events|] == e;
    }
  }

  lemma UsedNext(used: Used, pool: set<nat>, e: Event, id: nat, level: Level)
    requires id in AbstractStep(used, pool, e)
    ensures level in AbstractStep(used, pool, e)[id] <==>
      || (e.Apply? && e.id == id && e.level == level)
      || (id in used && level in used[id] && !Registers(e, id))
    ensures id !in used ==> Registers(e, id)
  {
  }

  lemma {:induction false} UsedIsAppliedSince(events: seq<Event>, id: nat, level: Level)
    requires AllAllowed(events) && id in After(events).where
    ensures id in AbstractAfter(events) && (level in AbstractAfter(events)[id] <==> AppliedSince(events, id, level))
  {
    hide AppliedSince;
    hide Stands;
    hide FreeFor;
    hide AfterApply;
    hide Step;
    hide AbstractStep;
    RunRefines(events);
    assert events == [] ==> id !in After(events).where;
    if events != [] {
      var n := |events| - 1;
      var e := events[n];
      assert events == events[..n] + [e];
      assert forall k :: 0 <= k < n ==> events[..n][..k] == events[..k];
      AppliedSinceNext(events[..n], e, id, level);
      UsedNext(AbstractAfter(events[..n]), After(events[..n]).pool, e, id, level);
      RunRefines(events[..n]);
      if id in After(events[..n]).where {
        UsedIsAppliedSince(events[..n], id, level);
      }
    }
  }

  /** Over every run: the functor is called on a live registered block exactly when the level was not applied to that
      block since it was last registered. */
  lemma FunctorRunsOnce(events: seq<Event>, k: nat)
    requires AllAllowed(events) && k < |events| && events[k].Apply?
    ensures Runs(After(events[..k]), events[k]) <==> !AppliedSince(events[..k], events[k].id, events[k].level)
  {
    assert forall j :: 0 <= j < k ==> events[..k][..j] == events[..j];
    RunRefines(events[..k]);
    StepRefines(After(events[..k]), AbstractAfter(events[..k]), events[k]);
    UsedIsAppliedSince(events[..k], events[k].id, events[k].level);
  }

  // ----- the class

  /** A PBlock; at is where its data is. */
  class Block {
    ghost const id: nat
    var at: nat

    constructor (ghost id: nat, at: nat)
      ensures this.id == id && this.at == at
    {
      this.id, this.at := id, at;
    }
  }

  datatype DataType = AK_INT8 | AK_HALF | AK_FLOAT

  lemma NextAllowed(events: seq<Event>, e: Event)
    requires AllAllowed(events) && Allowed(After(events), e)
    ensures AllAllowed(events + [e]) && After(events + [e]) == Step(After(events), e)
  {
    var all := events + [e];
    assert all[..|events|] == events;
    forall k | 0 <= k < |all| ensures Allowed(After(all[..k]), all[k]) {
      if k < |events| {
        assert all[..k] == events[..k];
      }
    }
  }

  class GraphGlobalMem {
    var guard: map<nat, LevelList>
    var int8Pool: seq<Block>
    var fp16Pool: seq<Block>
    var fp32Pool: seq<Block>
    /** What happened so far, and the live registered blocks by name. */
    ghost var events: seq<Event>
    ghost var blocks: map<nat, Block>

    ghost function Now(): Table
      reads this
    {
      After(events)
    }

    function Pool(): seq<Block>
      reads this
    {
      int8Pool + fp16Pool + fp32Pool
    }

    function PoolOf(dtype: DataType): seq<Block>
      reads this`int8Pool, this`fp16Pool, this`fp32Pool
    {
      match dtype
      case AK_INT8 => int8Pool
      case AK_HALF => fp16Pool
      case AK_FLOAT => fp32Pool
    }

    ghost predicate Valid()
      reads this, blocks.Values
    {
      && AllAllowed(events) && guard == Now().guard && NULL in guard
      && blocks.Keys == Now().where.Keys
      && (forall id :: id in blocks ==> blocks[id].id == id && blocks[id].at == Now().where[id])
      && (forall id :: id in Now().pool ==> id in blocks && blocks[id] in Pool())
      && (forall b :: b in Pool() ==> Live(b) && b.id in Now().pool)
    }

    ghost predicate Live(b: Block)
      reads this
    {
      b.id in blocks && blocks[b.id] == b
    }

    constructor ()
      ensures Valid() && events == [] && blocks == map[]
    {
      guard := map[NULL := NEW_LIST];
      int8Pool, fp16Pool, fp32Pool := [], [], [];
      events, blocks := [], map[];
    }

    method PushMemPool(block: Block, dtype: DataType)
      modifies this`int8Pool, this`fp16Pool, this`fp32Pool
      ensures forall b :: b in Pool() <==> b in old(Pool()) || b == block
      ensures PoolOf(dtype) == old(PoolOf(dtype)) + [block]
      ensures forall other :: other != dtype ==> PoolOf(other) == old(PoolOf(other))
    {
      match dtype {
        case AK_INT8 => int8Pool := int8Pool + [block];
        case AK_HALF => fp16Pool := fp16Pool + [block];
        case AK_FLOAT => fp32Pool := fp32Pool + [block];
      }
    }

    /** The new block is called id and gets its data at the given address. */
    method NewBlock(dtype: DataType, at: nat, ghost id: nat) returns (block: Block)
      requires Valid() && Allowed(Now(), Event.NewBlock(id, at))
      modifies this
      ensures Valid() && fresh(block) && Live(block) && block in Pool() && block.id == id && block.at == at
      ensures events == old(events) + [Event.NewBlock(id, at)] && blocks == old(blocks)[id := block]
      ensures PoolOf(dtype) == old(PoolOf(dtype)) + [block]
    {
      hide After;
      hide AllAllowed;
      hide PoolOf;
      block := new Block(id, at);
      guard := guard[at := NEW_LIST];
      PushMemPool(block, dtype);
      NextAllowed(events, Event.NewBlock(id, at));
      events, blocks := events + [Event.NewBlock(id, at)], blocks[id := block];
    }

    /** An external block; registering a block again makes all levels accessible again. */
    method RegisterBlock(block: Block)
      requires Valid() && Allowed(Now(), Event.RegisterBlock(block.id, block.at))
      requires block.id in blocks ==> Live(block)
      modifies this
      ensures Valid() && Live(block)
      ensures events == old(events) + [Event.RegisterBlock(block.id, block.at)]
      ensures blocks == old(blocks)[block.id := block]
    {
      hide After;
      hide AllAllowed;
      assert block in Pool() ==> Live(block);
      NextAllowed(events, Event.RegisterBlock(block.id, block.at));
      guard := guard[block.at := NEW_LIST];
      events, blocks := events + [Event.RegisterBlock(block.id, block.at)], blocks[block.id := block];
    }

    /** emplace, swap, and erase for a non-null key; the CHECK on erase cannot fail. */
    method Rekey(key: nat, newKey: nat)
      requires key in guard && key != newKey
      modifies this`guard
      ensures guard == MoveKey(old(guard), key, newKey)
      ensures newKey in guard && guard[newKey] == old(guard)[key]
      ensures key != NULL ==> key !in guard
      ensures key == NULL ==>
        && key in guard
        && guard[key] == if newKey in old(guard) then old(guard)[newKey] else LevelList(true, true, true, true)
      ensures forall k :: k != key && k != newKey ==>
        (k in guard <==> k in old(guard)) && (k in guard ==> guard[k] == old(guard)[k])
    {
      if newKey !in guard {
        guard := guard[newKey := NEW_LIST];
      }
      guard := guard[newKey := guard[key]][key := guard[newKey]];
      if key != NULL {
        guard := guard - {key};
      }
    }

    /** apply<level> on one tensor. func tells where the functor leaves the data. The functor is called once if the
        level was not applied to the block since it was registered, else not at all. */
    method Apply(level: Level, block: Block, func: nat -> nat) returns (ran: bool)
      requires Valid() && Live(block) && Allowed(Now(), Event.Apply(block.id, level, func(block.at)))
      modifies this, block
      ensures Valid() && Live(block) && blocks == old(blocks)
      ensures events == old(events) + [Event.Apply(block.id, level, func(old(block.at)))]
      ensures ran <==> !AppliedSince(old(events), block.id, level)
      ensures block.at == if ran then func(old(block.at)) else old(block.at)
    {
      hide After;
      hide AllAllowed;
      hide AppliedSince;
      hide LevelList.CheckAccess;
      hide LevelList.Use;
      ghost var e := Event.Apply(block.id, level, func(block.at));
      LiveInGuard(events, block.id);
      NextAllowed(events, e);
      NowRuns(events, e);
      var key := block.at;
      ran := guard[key].CheckAccess(level);
      if ran {
        guard := guard[key := guard[key].Use(level)];
        block.at := func(block.at);
        if block.at != key {
          Rekey(key, block.at);
        }
      }
      events := events + [e];
    }

    /** apply<level> on a tensor without data: the functor is called in any case, and a second time if the flag of
        the null address was still set. */
    method ApplyNull(level: Level, tensor: Block, func: nat -> nat) returns (runs: nat)
      requires Valid() && !Live(tensor) && tensor.at == NULL && Allowed(Now(), Event.ApplyNull(level, func(NULL)))
      modifies this, tensor
      ensures Valid() && blocks == old(blocks)
      ensures runs == if old(guard)[NULL].CheckAccess(level) then 2 else 1
      ensures tensor.at == if runs == 2 then func(func(NULL)) else func(NULL)
      ensures events == old(events) + [Event.ApplyNull(level, func(NULL))]
      ensures runs == 1 ==> guard == old(guard)
      ensures runs == 2 && func(NULL) != NULL ==>
        && func(NULL) in guard && guard[func(NULL)] == old(guard)[NULL].Use(level)
        && guard[NULL] == if func(NULL) in old(guard) then old(guard)[func(NULL)] else LevelList(true, true, true, true)
      ensures runs == 2 && func(NULL) == NULL ==> guard == old(guard)[NULL := old(guard)[NULL].Use(level)]
    {
      hide After;
      hide AllAllowed;
      hide LevelList.CheckAccess;
      hide LevelList.Use;
      ghost var e := Event.ApplyNull(level, func(NULL));
      NextAllowed(events, e);
      runs := 0;
      var key := tensor.at;
      if guard[key].CheckAccess(level) {
        guard := guard[key := guard[key].Use(level)];
        tensor.at, runs := func(tensor.at), runs + 1;
        if tensor.at != key {
          Rekey(key, tensor.at);
        }
      }
      if key == NULL {
        tensor.at, runs := func(tensor.at), runs + 1;
      }
      events := events + [e];
    }

    /** The pools are emptied; the table keeps the addresses. */
    method CleanAll()
      requires Valid()
      modifies this
      ensures Valid() && Pool() == [] && guard == old(guard)
      ensures events == old(events) + [Event.CleanAll]
      ensures forall id :: id in blocks <==> id in old(blocks) && old(blocks)[id] !in old(Pool())
      ensures forall id :: id in blocks ==> blocks[id] == old(blocks)[id]
    {
      hide After;
      hide AllAllowed;
      NextAllowed(events, Event.CleanAll);
      blocks := blocks - Now().pool;
      int8Pool, fp16Pool, fp32Pool := [], [], [];
      events := events + [Event.CleanAll];
    }

    /** The owner of an external block deletes it. */
    ghost method Release(block: Block)
      requires Valid() && Live(block) && block !in Pool()
      modifies this`events, this`blocks
      ensures Valid() && !Live(block) && events == old(events) + [Event.Release(block.id)]
    {
      hide After;
      hide AllAllowed;
      NextAllowed(events, Event.Release(block.id));
      events, blocks := events + [Event.Release(block.id)], blocks - {block.id};
    }
  }

  lemma NowRuns(events: seq<Event>, e: Event)
    requires AllAllowed(events) && Allowed(After(events), e) && e.Apply?
    ensures Runs(After(events), e) <==> !AppliedSince(events, e.id, e.level)
  {
    NextAllowed(events, e);
    var all := events + [e];
    assert all[..|events|] == events;
    FunctorRunsOnce(all, |events|);
  }

  lemma LiveInGuard(events: seq<Event>, id: nat)
    requires AllAllowed(events) && id in After(events).where
    ensures After(events).where[id] in After(events).guard && After(events).where[id] != NULL
  {
    RunRefines(events);
  }
}
