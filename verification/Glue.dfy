/** PGlue: one logical buffer kept on the host, on the device, or on both. */
module Glue {

  datatype SyncHead = UNINITIALIZED | HEAD_AT_HOST | HEAD_AT_DEVICE | SYNCED

  datatype Side = Host | Device {
    function Other(): Side { if this == Host then Device else Host }

    function Head(): SyncHead { if this == Host then HEAD_AT_HOST else HEAD_AT_DEVICE }
  }

  /** What a tensor holds: its shape and its elements. */
  datatype Value = Value(shape: seq<nat>, data: seq<real>)

  datatype Cell = Null | Holds(value: Value)

  // ----- the state machine

  datatype State = State(head: SyncHead, host: Cell, device: Cell) {
    function At(side: Side): Cell { if side == Host then host else device }

    function With(side: Side, value: Value): State {
      if side == Host then this.(host := Holds(value)) else this.(device := Holds(value))
    }
  }

  /** Write is host_mutable_data or device_mutable_data, and the store that the caller makes through the pointer. */
  datatype Op = Install(side: Side, value: Value) | Read(side: Side) | Write(side: Side, value: Value)

  const EMPTY := State(UNINITIALIZED, Null, Null)

  /** The side named by head has a tensor; when the sides are synced they agree. */
  predicate Coherent(s: State) {
    && (s.head == UNINITIALIZED ==> s == EMPTY)
    && (s.head == HEAD_AT_HOST ==> s.host.Holds?)
    && (s.head == HEAD_AT_DEVICE ==> s.device.Holds?)
    && (s.head == SYNCED ==> s.host.Holds? && s.device == s.host)
  }

  /** to_host or to_device: a copy is made only when the other side is ahead. */
  function Sync(s: State, side: Side): State {
    if s.head == side.Other().Head() && s.At(side.Other()).Holds? then
      s.With(side, s.At(side.Other()).value).(head := SYNCED)
    else s
  }

  function Step(s: State, op: Op): State {
    match op
    case Install(side, value) => s.With(side, value).(head := side.Head())
    case Read(side) => Sync(s, side)
    case Write(side, value) =>
      if s.head == UNINITIALIZED then s else Sync(s, side).With(side, value).(head := side.Head())
  }

  ghost function Run(s: State, ops: seq<Op>): State {
    if ops == [] then s else Step(Run(s, ops[..|ops| - 1]), ops[|ops| - 1])
  }

  /** The one logical buffer: the value written or installed last, on whichever side. */
  ghost function Buffer(start: Cell, ops: seq<Op>): Cell {
    if ops == [] then start
    else
      var before := Buffer(start, ops[..|ops| - 1]);
      match ops[|ops| - 1]
      case Install(side, value) => Holds(value)
      case Read(side) => before
      case Write(side, value) => if before == Null then before else Holds(value)
  }

  /** What the buffer holds in a coherent state. */
  function Content(s: State): Cell {
    if s.head == HEAD_AT_DEVICE then s.device else s.host
  }

  lemma StepKeepsBuffer(s: State, op: Op)
    requires Coherent(s)
    ensures Coherent(Step(s, op))
    ensures op.Read? ==> Content(Step(s, op)) == Content(s)
    ensures op.Install? ==> Content(Step(s, op)) == Holds(op.value)
    ensures op.Write? ==> Content(Step(s, op)) == if Content(s) == Null then Null else Holds(op.value)
    ensures op.Read? && s.head != UNINITIALIZED ==> Step(s, op).At(op.side) == Content(s)
  {
  }

  lemma {:induction false} RunKeepsBuffer(s: State, ops: seq<Op>)
    requires Coherent(s)
    ensures Coherent(Run(s, ops)) && Content(Run(s, ops)) == Buffer(Content(s), ops)
  {
    if ops != [] {
      RunKeepsBuffer(s, ops[..|ops| - 1]);
      StepKeepsBuffer(Run(s, ops[..|ops| - 1]), ops[|ops| - 1]);
    }
  }

  /** The buffer holds something at first, or something is installed up to place j. */
  ghost predicate Filled(start: Cell, ops: seq<Op>, j: nat) {
    start.Holds? || exists i :: 0 <= i <= j && i < |ops| && ops[i].Install?
  }

  lemma {:induction false} FilledHolds(start: Cell, ops: seq<Op>)
    requires start.Holds? || (ops != [] && Filled(start, ops, |ops| - 1))
    ensures Buffer(start, ops).Holds?
  {
    if ops != [] && !ops[|ops| - 1].Install? {
      var n := |ops| - 1;
      if !start.Holds? {
        var i :| 0 <= i <= n && ops[i].Install?;
        assert ops[..n][i].Install?;
      }
      FilledHolds(start, ops[..n]);
    }
  }

  lemma {:induction false} LastChangeCounts(start: Cell, ops: seq<Op>, j: nat)
    requires j < |ops| && Filled(start, ops, j)
    requires !ops[j].Read? && forall k :: j < k < |ops| ==> ops[k].Read?
    ensures Buffer(start, ops) == Holds(ops[j].value)
  {
    var n := |ops| - 1;
    if j < n {
      assert ops[..n][j] == ops[j];
      if i :| 0 <= i <= j && ops[i].Install? {
        assert ops[..n][i].Install?;
      }
      LastChangeCounts(start, ops[..n], j);
    } else {
      FilledHolds(start, ops);
    }
  }

  /** Over every run: a read on either side finds the value that was written or installed last, on either side. */
  lemma ReadsLastChange(s: State, ops: seq<Op>, side: Side, j: nat)
    requires Coherent(s) && j < |ops| && Filled(Content(s), ops, j)
    requires !ops[j].Read? && forall k :: j < k < |ops| ==> ops[k].Read?
    ensures Step(Run(s, ops), Read(side)).At(side) == Holds(ops[j].value)
  {
    RunKeepsBuffer(s, ops);
    LastChangeCounts(Content(s), ops, j);
    StepKeepsBuffer(Run(s, ops), Read(side));
  }

  /** Without a change in between, both sides read what the glue held at first. */
  lemma ReadsFirstContent(s: State, ops: seq<Op>, side: Side)
    requires Coherent(s) && s.head != UNINITIALIZED && forall k :: 0 <= k < |ops| ==> ops[k].Read?
    ensures Step(Run(s, ops), Read(side)).At(side) == Content(s)
  {
    RunKeepsBuffer(s, ops);
    OnlyReads(Content(s), ops);
    StepKeepsBuffer(Run(s, ops), Read(side));
  }

  lemma {:induction false} OnlyReads(start: Cell, ops: seq<Op>)
    requires forall k :: 0 <= k < |ops| ==> ops[k].Read?
    ensures Buffer(start, ops) == start
  {
    if ops != [] {
      OnlyReads(start, ops[..|ops| - 1]);
    }
  }

  /** The operation makes a copy: it is for one side and the other is ahead. */
  predicate Copies(s: State, op: Op) {
    || (op.side == Host && !op.Install? && s.head == HEAD_AT_DEVICE)
    || (op.side == Device && !op.Install? && s.head == HEAD_AT_HOST)
  }

  ghost function CopiesIn(s: State, ops: seq<Op>): nat {
    if ops == [] then 0
    else
      var n := |ops| - 1;
      CopiesIn(s, ops[..n]) + if Copies(Run(s, ops[..n]), ops[n]) then 1 else 0
  }

  /** Reads copy at most once: the first read on the side that is behind copies, and both sides are in step from then
      on. */
  lemma {:induction false} ReadsCopyOnce(s: State, ops: seq<Op>)
    requires Coherent(s) && forall k :: 0 <= k < |ops| ==> ops[k].Read?
    ensures var behind := exists k :: 0 <= k < |ops| && Copies(s, ops[k]);
      && CopiesIn(s, ops) == (if behind then 1 else 0)
      && Run(s, ops).head == if behind then SYNCED else s.head
  {
    if ops != [] {
      var n := |ops| - 1;
      ReadsCopyOnce(s, ops[..n]);
      RunKeepsBuffer(s, ops[..n]);
      assert ops == ops[..n] + [ops[n]];
      assert (exists k :: 0 <= k < |ops| && Copies(s, ops[k])) <==>
        Copies(s, ops[n]) || exists k :: 0 <= k < n && Copies(s, ops[..n][k]);
    }
  }

  /** A glue made from two tensors is taken to be synced: its sides read alike exactly when the tensors did. */
  lemma PairReads(host: Value, device: Value)
    ensures var s := State(SYNCED, Holds(host), Holds(device));
      && (Coherent(s) <==> host == device)
      && Step(s, Read(Host)).At(Host) == Holds(host) && Step(s, Read(Device)).At(Device) == Holds(device)
  {
  }

  // ----- ownership

  /** A side has no tensor, one from outside (extern), or one allocated by the glue. */
  datatype Slot<T> = Empty | Outside(tensor: T) | Inside(tensor: T)

  /** The tensors in use, all that were handed in, all that were allocated, and the deletions in order. */
  datatype Ledger<T> = Ledger(host: Slot<T>, device: Slot<T>, given: seq<T>, made: seq<T>, deleted: seq<T>) {
    function At(side: Side): Slot<T> { if side == Host then host else device }

    function With(side: Side, slot: Slot<T>): Ledger<T> {
      if side == Host then this.(host := slot) else this.(device := slot)
    }
  }

  function Blank<T>(): Ledger<T> { Ledger(Empty, Empty, [], [], []) }

  /** Give is set_extern_tensor, or a constructor's tensor; Make is an allocation by to_host or to_device; Close is the
      destructor. */
  datatype Move<T> = Give(side: Side, tensor: T) | Make(side: Side, tensor: T) | Close

  function Freed<T>(slot: Slot<T>): seq<T> { if slot.Inside? then [slot.tensor] else [] }

  function Moved<T>(l: Ledger<T>, m: Move<T>): Ledger<T> {
    match m
    case Give(side, t) =>
      l.With(side, Outside(t)).(given := l.given + [t], deleted := l.deleted + Freed(l.At(side)))
    case Make(side, t) => l.With(side, Inside(t)).(made := l.made + [t])
    case Close => l.(host := Empty, device := Empty, deleted := l.deleted + Freed(l.host) + Freed(l.device))
  }

  /** What is handed in was not allocated by the glue; a side gets a new tensor only when it has none, and new memory is
      no tensor known before. */
  ghost predicate MayMove<T>(l: Ledger<T>, m: Move<T>) {
    match m
    case Give(side, t) => t !in l.made
    case Make(side, t) => l.At(side) == Empty && t !in l.made && t !in l.given
    case Close => true
  }

  ghost function Books<T>(moves: seq<Move<T>>): Ledger<T> {
    if moves == [] then Blank() else Moved(Books(moves[..|moves| - 1]), moves[|moves| - 1])
  }

  ghost predicate AllMayMove<T>(moves: seq<Move<T>>) {
    forall k :: 0 <= k < |moves| ==> MayMove(Books(moves[..k]), moves[k])
  }

  ghost predicate NoRepeats<T>(s: seq<T>) {
    forall i, j :: 0 <= i < j < |s| ==> s[i] != s[j]
  }

  /** Nothing is deleted twice; an allocated tensor is either deleted or in use on one side; a tensor from outside is
      never deleted. */
  ghost predicate InOrder<T>(l: Ledger<T>) {
    && NoRepeats(l.deleted)
    && (forall t :: t in l.deleted ==> t in l.made)
    && (forall t :: t in l.made ==> (t in l.deleted <==> l.host != Inside(t) && l.device != Inside(t)))
    && (forall t :: t in l.given ==> t !in l.made)
    && (l.host.Inside? ==> l.host.tensor in l.made)
    && (l.device.Inside? ==> l.device.tensor in l.made)
    && (l.host.Inside? ==> l.host != l.device)
  }

  lemma MoveKeepsOrder<T>(l: Ledger<T>, m: Move<T>)
    requires InOrder(l) && MayMove(l, m)
    ensures InOrder(Moved(l, m))
  {
    assert forall t :: t in Freed(l.host) ==> l.host == Inside(t);
    assert forall t :: t in Freed(l.device) ==> l.device == Inside(t);
  }

  lemma {:induction false} BooksInOrder<T>(moves: seq<Move<T>>)
    requires AllMayMove(moves)
    ensures InOrder(Books(moves))
  {
    if moves != [] {
      var n := |moves| - 1;
      assert forall k :: 0 <= k < n ==> moves[..n][..k] == moves[..k];
      BooksInOrder(moves[..n]);
      MoveKeepsOrder(Books(moves[..n]), moves[n]);
    }
  }

  /** Over every run that ends with the destructor: the deletions are exactly the allocated tensors, once each, and no
      tensor from outside is among them. Before the end, nothing in use is deleted. */
  lemma EachMadeIsDeletedOnce<T>(moves: seq<Move<T>>)
    requires AllMayMove(moves)
    ensures var l := Books(moves + [Close]);
      && NoRepeats(l.deleted)
      && (forall t :: t in l.deleted <==> t in l.made)
      && (forall t :: t in l.given ==> t !in l.deleted)
    ensures var l := Books(moves);
      forall side :: l.At(side) != Empty ==> l.At(side).tensor !in l.deleted
  {
    var all := moves + [Close];
    assert all[..|moves|] == moves;
    BooksInOrder(moves);
    var l := Books(moves);
    MoveKeepsOrder(l, Close);
    forall side | l.At(side) != Empty ensures l.At(side).tensor !in l.deleted {
      SlotIsKnown(moves, side);
    }
  }

  lemma NextMove<T>(moves: seq<Move<T>>, m: Move<T>)
    requires AllMayMove(moves) && MayMove(Books(moves), m)
    ensures AllMayMove(moves + [m]) && Books(moves + [m]) == Moved(Books(moves), m)
  {
    var all := moves + [m];
    assert all[..|moves|] == moves;
    forall k | 0 <= k < |all| ensures MayMove(Books(all[..k]), all[k]) {
      if k < |moves| {
        assert all[..k] == moves[..k];
      }
    }
  }

  lemma NoMoves<T>()
    ensures AllMayMove<T>([]) && Books<T>([]) == Blank<T>()
  {
  }

  /** A tensor from outside that is in use was handed in. */
  lemma {:induction false} SlotIsKnown<T>(moves: seq<Move<T>>, side: Side)
    ensures Books(moves).At(side).Outside? ==> Books(moves).At(side).tensor in Books(moves).given
  {
    if moves != [] {
      SlotIsKnown(moves[..|moves| - 1], side);
    }
  }

  lemma FirstMove<T>(m: Move<T>)
    requires MayMove(Blank(), m)
    ensures AllMayMove([m]) && Books([m]) == Moved(Blank(), m)
  {
    NoMoves<T>();
    NextMove([], m);
    assert [] + [m] == [m];
  }

  function SlotOf(t: Tensor?, extern: bool): Slot<Tensor> {
    if t == null then Empty
    else
      var tensor: Tensor := t;
      if extern then Outside(tensor) else Inside(tensor)
  }

  // ----- the class

  class Tensor {
    var value: Value

    /** The contents of new memory are unspecified. */
    constructor ()
    {
      value := *;
    }

    method ReAlloc(shape: seq<nat>)
      modifies this
      ensures value.shape == shape
    {
      var data: seq<real> := *;
      value := Value(shape, data);
    }

    method Reshape(shape: seq<nat>)
      modifies this
      ensures value.shape == shape
    {
      var data: seq<real> := *;
      value := Value(shape, data);
    }

    /** async_copy_from, record_event and sync. */
    method CopyFrom(other: Tensor)
      requires value.shape == other.value.shape
      modifies this
      ensures value == old(other.value)
    {
      value := Value(value.shape, other.value.data);
    }
  }

  class PGlue {
    var externDTensor: bool
    var externHTensor: bool
    var dTensor: Tensor?
    var hTensor: Tensor?
    var head: SyncHead
    /** What happened to the tensors so far, the books about it, and the calls of delete. */
    ghost var moves: seq<Move<Tensor>>
    ghost var books: Ledger<Tensor>
    ghost var deletions: seq<Tensor>

    ghost function Tensors(): set<Tensor>
      reads this
    {
      (if dTensor == null then {} else {dTensor}) + (if hTensor == null then {} else {hTensor})
    }

    ghost function View(): State
      reads this, Tensors()
    {
      State(head, if hTensor == null then Null else Holds(hTensor.value),
            if dTensor == null then Null else Holds(dTensor.value))
    }

    /** The flags, the pointers and the deletions are what the books say. */
    ghost predicate Owns()
      reads this
    {
      && AllMayMove(moves) && books == Books(moves) && deletions == books.deleted
      && books.host == SlotOf(hTensor, externHTensor) && books.device == SlotOf(dTensor, externDTensor)
      && (hTensor == null ==> !externHTensor) && (dTensor == null ==> !externDTensor)
    }

    ghost predicate Valid()
      reads this, Tensors()
    {
      Owns() && Coherent(View()) && (dTensor == null || dTensor != hTensor)
    }

    constructor ()
      ensures Valid() && View() == EMPTY && hTensor == null && dTensor == null
      ensures books == Blank() && deletions == []
    {
      head, externHTensor, externDTensor := UNINITIALIZED, false, false;
      dTensor, hTensor := null, null;
      moves, books, deletions := [], Blank(), [];
    }

    /** The caller vouches for equal contents. */
    constructor FromBoth(tensorD: Tensor, tensorH: Tensor)
      requires tensorD != tensorH && tensorD.value == tensorH.value
      ensures Valid() && View() == State(SYNCED, Holds(tensorH.value), Holds(tensorD.value))
      ensures dTensor == tensorD && hTensor == tensorH && deletions == []
      ensures books == Moved(Moved(Blank(), Give(Device, tensorD)), Give(Host, tensorH))
    {
      head, externHTensor, externDTensor := SYNCED, true, true;
      dTensor, hTensor := tensorD, tensorH;
      moves, deletions := [Give(Device, tensorD)] + [Give(Host, tensorH)], [];
      books := Moved(Moved(Blank(), Give(Device, tensorD)), Give(Host, tensorH));
      new;
      FirstMove(Give(Device, tensorD));
      NextMove([Give(Device, tensorD)], Give(Host, tensorH));
    }

    constructor FromDevice(tensorD: Tensor)
      ensures Valid() && View() == Step(EMPTY, Install(Device, tensorD.value))
      ensures dTensor == tensorD && hTensor == null && deletions == []
      ensures books == Moved(Blank(), Give(Device, tensorD))
    {
      head, externHTensor, externDTensor := HEAD_AT_DEVICE, false, true;
      dTensor, hTensor := tensorD, null;
      moves, books, deletions := [Give(Device, tensorD)], Moved(Blank(), Give(Device, tensorD)), [];
      new;
      FirstMove(Give(Device, tensorD));
    }

    constructor FromHost(tensorH: Tensor)
      ensures Valid() && View() == Step(EMPTY, Install(Host, tensorH.value))
      ensures dTensor == null && hTensor == tensorH && deletions == []
      ensures books == Moved(Blank(), Give(Host, tensorH))
    {
      head, externHTensor, externDTensor := HEAD_AT_HOST, true, false;
      dTensor, hTensor := null, tensorH;
      moves, books, deletions := [Give(Host, tensorH)], Moved(Blank(), Give(Host, tensorH)), [];
      new;
      FirstMove(Give(Host, tensorH));
    }

    /** delete: never twice, and never what came from outside. */
    method Delete(t: Tensor?)
      requires t != null ==> t in books.made && t !in books.given && t !in deletions
      modifies this`deletions
      ensures deletions == old(deletions) + if t == null then [] else [t]
    {
      if t != null {
        deletions := deletions + [t];
      }
    }

    /** The destructor: all that was allocated is deleted by then, once each, and nothing that was handed in. */
    method Destroy()
      requires Valid()
      modifies this
      ensures moves == old(moves) + [Close] && books == Moved(old(books), Close) && deletions == books.deleted
      ensures NoRepeats(deletions) && (forall t :: t in deletions <==> t in old(books).made)
      ensures forall t :: t in old(books).given ==> t !in deletions
    {
      hide Books;
      hide AllMayMove;
      BooksInOrder(moves);
      NextMove(moves, Close);
      EachMadeIsDeletedOnce(moves);
      if !externHTensor {
        Delete(hTensor);
      }
      if !externDTensor {
        Delete(dTensor);
      }
      moves, books := moves + [Close], Moved(books, Close);
    }

    method SetExternDevice(tensorD: Tensor)
      requires Valid() && tensorD !in books.made && tensorD != hTensor
      modifies this
      ensures Valid() && View() == Step(old(View()), Install(Device, tensorD.value))
      ensures dTensor == tensorD && hTensor == old(hTensor) && books == Moved(old(books), Give(Device, tensorD))
    {
      hide Books;
      hide AllMayMove;
      BooksInOrder(moves);
      NextMove(moves, Give(Device, tensorD));
      if !externDTensor {
        Delete(dTensor);
      }
      externDTensor := true;
      dTensor := tensorD;
      head := HEAD_AT_DEVICE;
      moves, books := moves + [Give(Device, tensorD)], Moved(books, Give(Device, tensorD));
    }

    method SetExternHost(tensorH: Tensor)
      requires Valid() && tensorH !in books.made && tensorH != dTensor
      modifies this
      ensures Valid() && View() == Step(old(View()), Install(Host, tensorH.value))
      ensures hTensor == tensorH && dTensor == old(dTensor) && books == Moved(old(books), Give(Host, tensorH))
    {
      hide Books;
      hide AllMayMove;
      BooksInOrder(moves);
      NextMove(moves, Give(Host, tensorH));
      if !externHTensor {
        Delete(hTensor);
      }
      externHTensor := true;
      hTensor := tensorH;
      head := HEAD_AT_HOST;
      moves, books := moves + [Give(Host, tensorH)], Moved(books, Give(Host, tensorH));
    }

    /** A tensor is allocated when the device is ahead and the host has none. */
    ghost predicate NeedsHost()
      reads this
    {
      head == HEAD_AT_DEVICE && hTensor == null
    }

    ghost predicate NeedsDevice()
      reads this
    {
      head == HEAD_AT_HOST && dTensor == null
    }

    /** An uninitialized glue is fatal. */
    method ToHost() returns (ok: bool)
      requires Valid()
      modifies this, Tensors()
      ensures Valid() && ok == (old(head) != UNINITIALIZED) && View() == Sync(old(View()), Host)
      ensures head == if old(head) == HEAD_AT_DEVICE then SYNCED else old(head)
      ensures dTensor == old(dTensor) && deletions == old(deletions)
      ensures if old(NeedsHost()) then fresh(hTensor) && books == Moved(old(books), Make(Host, hTensor))
              else hTensor == old(hTensor) && books == old(books)
    {
      hide Books;
      hide AllMayMove;
      match head
      case UNINITIALIZED =>
        ok := false;
      case HEAD_AT_DEVICE =>
        if hTensor == null {
          hTensor := new Tensor();
          NextMove(moves, Make(Host, hTensor));
          moves, books := moves + [Make(Host, hTensor)], Moved(books, Make(Host, hTensor));
          hTensor.ReAlloc(dTensor.value.shape);
        }
        if hTensor.value.shape != dTensor.value.shape {
          hTensor.Reshape(dTensor.value.shape);
        }
        hTensor.CopyFrom(dTensor);
        head := SYNCED;
        ok := true;
      case HEAD_AT_HOST | SYNCED =>
        ok := true;
    }

    method ToDevice() returns (ok: bool)
      requires Valid()
      modifies this, Tensors()
      ensures Valid() && ok == (old(head) != UNINITIALIZED) && View() == Sync(old(View()), Device)
      ensures head == if old(head) == HEAD_AT_HOST then SYNCED else old(head)
      ensures hTensor == old(hTensor) && deletions == old(deletions)
      ensures if old(NeedsDevice()) then fresh(dTensor) && books == Moved(old(books), Make(Device, dTensor))
              else dTensor == old(dTensor) && books == old(books)
    {
      hide Books;
      hide AllMayMove;
      match head
      case UNINITIALIZED =>
        ok := false;
      case HEAD_AT_HOST =>
        if dTensor == null {
          dTensor := new Tensor();
          NextMove(moves, Make(Device, dTensor));
          moves, books := moves + [Make(Device, dTensor)], Moved(books, Make(Device, dTensor));
          dTensor.ReAlloc(hTensor.value.shape);
        }
        if dTensor.value.shape != hTensor.value.shape {
          dTensor.Reshape(hTensor.value.shape);
        }
        dTensor.CopyFrom(hTensor);
        head := SYNCED;
        ok := true;
      case HEAD_AT_DEVICE | SYNCED =>
        ok := true;
    }

    /** A read on the host finds what the buffer holds. */
    method HostData() returns (ok: bool, t: Tensor?)
      requires Valid()
      modifies this, Tensors()
      ensures Valid() && ok == (old(head) != UNINITIALIZED) && View() == Step(old(View()), Read(Host))
      ensures ok ==> t != null && t == hTensor && Holds(t.value) == Content(old(View()))
      ensures dTensor == old(dTensor) && deletions == old(deletions)
      ensures if old(NeedsHost()) then fresh(hTensor) && books == Moved(old(books), Make(Host, hTensor))
              else hTensor == old(hTensor) && books == old(books)
    {
      ok := ToHost();
      t := hTensor;
    }

    method DeviceData() returns (ok: bool, t: Tensor?)
      requires Valid()
      modifies this, Tensors()
      ensures Valid() && ok == (old(head) != UNINITIALIZED) && View() == Step(old(View()), Read(Device))
      ensures ok ==> t != null && t == dTensor && Holds(t.value) == Content(old(View()))
      ensures hTensor == old(hTensor) && deletions == old(deletions)
      ensures if old(NeedsDevice()) then fresh(dTensor) && books == Moved(old(books), Make(Device, dTensor))
              else dTensor == old(dTensor) && books == old(books)
    {
      ok := ToDevice();
      t := dTensor;
    }

    /** The caller may store through the pointer from now on: the host is ahead. */
    method HostMutableData() returns (ok: bool, t: Tensor?)
      requires Valid()
      modifies this, Tensors()
      ensures Valid() && ok == (old(head) != UNINITIALIZED)
      ensures ok ==> t != null && t == hTensor && Holds(t.value) == Content(old(View()))
      ensures ok ==> View() == Sync(old(View()), Host).(head := HEAD_AT_HOST)
      ensures ok ==> forall v :: View().With(Host, v) == Step(old(View()), Write(Host, v))
      ensures !ok ==> View() == old(View())
      ensures dTensor == old(dTensor) && deletions == old(deletions)
      ensures if old(NeedsHost()) then fresh(hTensor) && books == Moved(old(books), Make(Host, hTensor))
              else hTensor == old(hTensor) && books == old(books)
    {
      ok := ToHost();
      if ok {
        head := HEAD_AT_HOST;
      }
      t := hTensor;
    }

    method DeviceMutableData() returns (ok: bool, t: Tensor?)
      requires Valid()
      modifies this, Tensors()
      ensures Valid() && ok == (old(head) != UNINITIALIZED)
      ensures ok ==> t != null && t == dTensor && Holds(t.value) == Content(old(View()))
      ensures ok ==> View() == Sync(old(View()), Device).(head := HEAD_AT_DEVICE)
      ensures ok ==> forall v :: View().With(Device, v) == Step(old(View()), Write(Device, v))
      ensures !ok ==> View() == old(View())
      ensures hTensor == old(hTensor) && deletions == old(deletions)
      ensures if old(NeedsDevice()) then fresh(dTensor) && books == Moved(old(books), Make(Device, dTensor))
              else dTensor == old(dTensor) && books == old(books)
    {
      ok := ToDevice();
      if ok {
        head := HEAD_AT_DEVICE;
      }
      t := dTensor;
    }

    /** The caller's store through the pointer, while the host is ahead. */
    method StoreHost(value: Value)
      requires Valid() && head == HEAD_AT_HOST
      modifies hTensor
      ensures Valid() && View() == old(View()).With(Host, value)
    {
      hTensor.value := value;
    }

    method StoreDevice(value: Value)
      requires Valid() && head == HEAD_AT_DEVICE
      modifies dTensor
      ensures Valid() && View() == old(View()).With(Device, value)
    {
      dTensor.value := value;
    }
  }
}
