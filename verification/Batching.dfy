/** Data::get_batch_data, and the loop of AKRNNExampleX86::run that collects batches. */
module Batching {
  import opened Splitting

  type Row = seq<real>

  /** What one call fills in. */
  datatype Batch = Batch(fea: seq<Row>, week: seq<Row>, time: seq<Row>, offsets: seq<int>)

  // ----- one line: links '|' ... ':' times ':' weeks

  ghost function Fields(line: string): seq<string> { Returned(line, ":") }

  /** The fields that get_batch_data indexes exist. */
  ghost predicate WellFormed(line: string) { |Fields(line)| >= 3 }

  ghost predicate AllWellFormed(lines: seq<string>) {
    forall k :: 0 <= k < |lines| ==> WellFormed(lines[k])
  }

  ghost function Field(line: string, i: nat): string { if i < |Fields(line)| then Fields(line)[i] else "" }

  ghost function Numbers(text: string, atof: string -> real): (r: Row)
    ensures |r| == |Returned(text, ",")|
  {
    seq(|Returned(text, ",")|, i requires 0 <= i < |Returned(text, ",")| => atof(Returned(text, ",")[i]))
  }

  ghost function RowsOf(texts: seq<string>, atof: string -> real): (r: seq<Row>)
    ensures |r| == |texts|
  {
    seq(|texts|, i requires 0 <= i < |texts| => Numbers(texts[i], atof))
  }

  /** The rows of a line: one per link. */
  ghost function Links(line: string, atof: string -> real): (r: seq<Row>)
    ensures |r| > 0
  {
    RowsOf(Returned(Field(line, 0), "|"), atof)
  }

  // ----- all lines

  ghost function AllLinks(lines: seq<string>, atof: string -> real): seq<Row> {
    if lines == [] then [] else AllLinks(lines[..|lines| - 1], atof) + Links(lines[|lines| - 1], atof)
  }

  /** The numbers of one field, line by line. */
  ghost function Column(lines: seq<string>, i: nat, atof: string -> real): (r: seq<Row>)
    ensures |r| == |lines|
  {
    seq(|lines|, k requires 0 <= k < |lines| => Numbers(Field(lines[k], i), atof))
  }

  /** Line k has rows from.. to.. of the batch. */
  ghost predicate Slice(fea: seq<Row>, from: int, to: int, rows: seq<Row>) {
    0 <= from <= to <= |fea| && fea[from..to] == rows
  }

  /** The batch that holds these lines, line by line: its rows, and where each line's rows start and end. */
  ghost predicate Holds(batch: Batch, lines: seq<string>, atof: string -> real) {
    && batch.week == Column(lines, 2, atof) && batch.time == Column(lines, 1, atof)
    && Partitions(batch.offsets, |lines|, |batch.fea|)
    && forall k :: 0 <= k < |lines| ==>
         Slice(batch.fea, batch.offsets[k], batch.offsets[k + 1], Links(lines[k], atof))
  }

  /** The offsets start at 0, rise strictly, and end at the number of rows. */
  ghost predicate Partitions(offsets: seq<int>, lines: nat, rows: nat) {
    && |offsets| == lines + 1 && offsets[0] == 0 && offsets[lines] == rows
    && forall j, k :: 0 <= j < k <= lines ==> offsets[j] < offsets[k]
  }

  /** The rows of a batch are the rows of its lines, in order. */
  lemma {:induction false} HoldsAllLinks(batch: Batch, lines: seq<string>, atof: string -> real)
    requires Holds(batch, lines, atof)
    ensures batch.fea == AllLinks(lines, atof)
  {
    hide Returned;
    PrefixLinks(batch, lines, atof, |lines|);
    assert lines[..|lines|] == lines && batch.fea[..|batch.fea|] == batch.fea;
  }

  lemma {:induction false} PrefixLinks(batch: Batch, lines: seq<string>, atof: string -> real, n: nat)
    requires Holds(batch, lines, atof) && n <= |lines|
    ensures 0 <= batch.offsets[n] <= |batch.fea| && batch.fea[..batch.offsets[n]] == AllLinks(lines[..n], atof)
  {
    hide Returned;
    if n > 0 {
      PrefixLinks(batch, lines, atof, n - 1);
      hide Links;
      assert lines[..n][..n - 1] == lines[..n - 1];
      assert batch.fea[..batch.offsets[n]] ==
             batch.fea[..batch.offsets[n - 1]] + batch.fea[batch.offsets[n - 1]..batch.offsets[n]];
    }
  }

  lemma AllLinksNext(front: seq<string>, last: string, atof: string -> real)
    ensures AllLinks(front + [last], atof) == AllLinks(front, atof) + Links(last, atof)
  {
    hide Returned;
    hide Links;
    assert (front + [last])[..|front|] == front;
  }

  lemma {:induction false} AllLinksConcat(a: seq<string>, b: seq<string>, atof: string -> real)
    ensures AllLinks(a + b, atof) == AllLinks(a, atof) + AllLinks(b, atof)
  {
    hide Returned;
    hide Links;
    hide AllLinks;
    if b == [] {
      assert a + b == a && b == [][..0];
      NoLinks(atof);
    } else {
      var c, last := b[..|b| - 1], b[|b| - 1];
      AllLinksConcat(a, c, atof);
      assert a + b == (a + c) + [last] && b == c + [last];
      AllLinksNext(a + c, last, atof);
      AllLinksNext(c, last, atof);
    }
  }

  lemma NoLinks(atof: string -> real)
    ensures AllLinks([], atof) == []
  {
  }

  // ----- the methods

  method ParseNumbers(text: string, atof: string -> real) returns (row: Row)
    ensures row == Numbers(text, atof)
  {
    hide Returned;
    var data := StringSplit(text, ",");
    row := [];
    for i := 0 to |data|
      invariant |row| == i && forall k :: 0 <= k < i ==> row[k] == atof(data[k])
    {
      row := row + [atof(data[i])];
    }
  }

  method ParseLinks(field: string, atof: string -> real, fea: seq<Row>) returns (fea': seq<Row>, count: nat)
    ensures count == |Returned(field, "|")|
    ensures fea' == fea + RowsOf(Returned(field, "|"), atof)
  {
    hide Returned;
    var links := StringSplit(field, "|");
    fea', count := fea, |links|;
    for i := 0 to |links|
      invariant |fea'| == |fea| + i && forall k :: 0 <= k < |fea| ==> fea'[k] == fea[k]
      invariant forall k :: 0 <= k < i ==> fea'[|fea| + k] == Numbers(links[k], atof)
    {
      var row := ParseNumbers(links[i], atof);
      fea' := fea' + [row];
    }
  }

  lemma SliceGrows(fea: seq<Row>, more: seq<Row>, from: int, to: int, rows: seq<Row>)
    requires Slice(fea, from, to, rows)
    ensures Slice(fea + more, from, to, rows)
  {
    assert (fea + more)[from..to] == fea[from..to];
  }

  lemma PartitionsNext(offsets: seq<int>, lines: nat, rows: nat, more: nat)
    requires Partitions(offsets, lines, rows) && more > 0
    ensures Partitions(offsets + [rows + more], lines + 1, rows + more)
  {
    var all := offsets + [rows + more];
    forall j, k | 0 <= j < k <= lines + 1 ensures all[j] < all[k] {
      assert j < lines ==> offsets[j] < offsets[lines];
    }
  }

  lemma ColumnNext(lines: seq<string>, line: string, i: nat, atof: string -> real)
    ensures Column(lines + [line], i, atof) == Column(lines, i, atof) + [Numbers(Field(line, i), atof)]
  {
    hide Returned;
    hide Numbers;
    hide Field;
  }

  /** One more line in the batch. */
  lemma HoldsNext(batch: Batch, lines: seq<string>, line: string, atof: string -> real)
    requires Holds(batch, lines, atof)
    ensures var links := Links(line, atof);
      Holds(Batch(batch.fea + links, batch.week + [Numbers(Field(line, 2), atof)],
                  batch.time + [Numbers(Field(line, 1), atof)], batch.offsets + [|batch.fea| + |links|]),
            lines + [line], atof)
  {
    hide Returned;
    hide Numbers;
    hide Column;
    hide Slice;
    hide Links;
    var links := Links(line, atof);
    ColumnNext(lines, line, 1, atof);
    ColumnNext(lines, line, 2, atof);
    PartitionsNext(batch.offsets, |lines|, |batch.fea|, |links|);
    var offsets, fea := batch.offsets + [|batch.fea| + |links|], batch.fea + links;
    LastSlice(batch.fea, links);
    forall k: nat | k < |lines| + 1
      ensures Slice(fea, offsets[k], offsets[k + 1], Links((lines + [line])[k], atof))
    {
      if k < |lines| {
        SliceGrows(batch.fea, links, batch.offsets[k], batch.offsets[k + 1], Links(lines[k], atof));
      }
    }
  }

  lemma LastSlice(fea: seq<Row>, rows: seq<Row>)
    ensures Slice(fea + rows, |fea|, |fea| + |rows|, rows)
  {
  }

  lemma OneDelimiter(s: string, d: string)
    requires d != ""
    ensures ReturnedBy(s, [d]) == Returned(s, d)
  {
    hide Returned;
    assert [d][..0] == [];
    assert ReturnedAll([s], d) == ReturnedAll([s][..0], d) + Returned(s, d);
  }

  /** The body of the reading loop. */
  method ReadLine(s: string, batch: Batch, cum: int, ghost lines: seq<string>, atof: string -> real)
      returns (batch': Batch, cum': int)
    requires Holds(batch, lines, atof) && WellFormed(s) && cum == |batch.fea|
    ensures Holds(batch', lines + [s], atof) && cum' == |batch'.fea|
  {
    hide Returned;
    hide Numbers;
    hide Holds;
    hide ReturnedBy;
    OneDelimiter(s, ":");
    var dataVec := StringSplitAll(s, [":"]);
    var fea, count := ParseLinks(dataVec[0], atof, batch.fea);
    var weekRow := ParseNumbers(dataVec[2], atof);
    var timeRow := ParseNumbers(dataVec[1], atof);
    cum' := cum + count;
    batch' := Batch(fea, batch.week + [weekRow], batch.time + [timeRow], batch.offsets + [cum']);
    HoldsNext(batch, lines, s, atof);
  }

  lemma HoldsNothing(atof: string -> real)
    ensures Holds(Batch([], [], [], [0]), [], atof)
  {
  }

  class Data {
    /** The lines that are still to be read. */
    var lines: seq<string>
    const batchSize: int

    constructor (lines: seq<string>, batchSize: int)
      ensures this.lines == lines && this.batchSize == batchSize
    {
      this.lines, this.batchSize := lines, batchSize;
    }

    /** A batch size below one acts as one. */
    function Size(): nat { if batchSize < 1 then 1 else batchSize }

    /** How many of so many lines one call reads. */
    function Taken(count: nat): nat { if count < Size() then count else Size() }

    method GetBatchData(atof: string -> real) returns (batch: Batch)
      requires AllWellFormed(lines[..Taken(|lines|)])
      modifies this
      ensures lines == old(lines[Taken(|lines|)..])
      ensures Holds(batch, old(lines[..Taken(|lines|)]), atof)
      ensures var size := if batchSize < 1 then 1 else batchSize;
        |batch.week| == if |old(lines)| < size then |old(lines)| else size
    {
      hide Holds;
      hide WellFormed;
      var seqNum, cum := 0, 0;
      batch := Batch([], [], [], [0]);
      ghost var all := lines;
      HoldsNothing(atof);
      assert all[..0] == [];
      while lines != []
        invariant seqNum <= |all| && lines == all[seqNum..] && (seqNum == 0 || seqNum < batchSize)
        invariant Holds(batch, all[..seqNum], atof) && cum == |batch.fea|
        decreases |lines|
      {
        var s := lines[0];
        assert all[..Taken(|all|)][seqNum] == s;
        lines := lines[1..];
        batch, cum := ReadLine(s, batch, cum, all[..seqNum], atof);
        assert all[..seqNum + 1] == all[..seqNum] + [s];
        seqNum := seqNum + 1;
        if seqNum >= batchSize {
          break;
        }
      }
      WeekPerLine(batch, all[..seqNum], atof);
    }
  }

  // ----- collecting the batches

  ghost function Concat(chunks: seq<seq<string>>): seq<string> {
    if chunks == [] then [] else Concat(chunks[..|chunks| - 1]) + chunks[|chunks| - 1]
  }

  /** The chunks have the full size, save that the last may be shorter; none is empty. */
  ghost predicate Chunked(chunks: seq<seq<string>>, size: nat) {
    && (forall i :: 0 <= i < |chunks| - 1 ==> |chunks[i]| == size)
    && (chunks != [] ==> 0 < |chunks[|chunks| - 1]| <= size)
  }

  ghost predicate EachHolds(batches: seq<Batch>, chunks: seq<seq<string>>, atof: string -> real) {
    && |batches| == |chunks|
    && forall i :: 0 <= i < |chunks| ==> Holds(batches[i], chunks[i], atof)
  }

  ghost function AllRows(batches: seq<Batch>): seq<Row> {
    if batches == [] then [] else AllRows(batches[..|batches| - 1]) + batches[|batches| - 1].fea
  }

  ghost function AllWeeks(batches: seq<Batch>): seq<Row> {
    if batches == [] then [] else AllWeeks(batches[..|batches| - 1]) + batches[|batches| - 1].week
  }

  ghost function AllTimes(batches: seq<Batch>): seq<Row> {
    if batches == [] then [] else AllTimes(batches[..|batches| - 1]) + batches[|batches| - 1].time
  }

  lemma ColumnConcat(a: seq<string>, b: seq<string>, i: nat, atof: string -> real)
    ensures Column(a + b, i, atof) == Column(a, i, atof) + Column(b, i, atof)
  {
    hide Numbers;
    hide Field;
  }

  lemma ConcatNext(chunks: seq<seq<string>>, chunk: seq<string>)
    ensures Concat([]) == [] && Concat(chunks + [chunk]) == Concat(chunks) + chunk
  {
    assert (chunks + [chunk])[..|chunks|] == chunks;
  }

  lemma OffsetsTellLines(batch: Batch, lines: seq<string>, atof: string -> real)
    requires Holds(batch, lines, atof)
    ensures |batch.offsets| == |lines| + 1
  {
  }

  lemma WeekPerLine(batch: Batch, lines: seq<string>, atof: string -> real)
    requires Holds(batch, lines, atof)
    ensures |batch.week| == |lines|
  {
  }

  lemma ChunkNext(batches: seq<Batch>, chunks: seq<seq<string>>, size: nat, batch: Batch, chunk: seq<string>,
                  atof: string -> real)
    requires EachHolds(batches, chunks, atof) && Holds(batch, chunk, atof)
    requires Chunked(chunks, size) && Full(chunks, size) && 0 < |chunk| <= size
    ensures EachHolds(batches + [batch], chunks + [chunk], atof) && Chunked(chunks + [chunk], size)
    ensures Full(chunks + [chunk], size) <==> |chunk| == size
  {
    hide Holds;
  }

  /** The last chunk has the full size too. */
  ghost predicate Full(chunks: seq<seq<string>>, size: nat) {
    chunks != [] ==> |chunks[|chunks| - 1]| == size
  }

  /** The loop of run: it stops at the first batch without lines. */
  method Collect(data: Data, atof: string -> real) returns (batches: seq<Batch>, ghost chunks: seq<seq<string>>)
    requires AllWellFormed(data.lines)
    modifies data
    ensures data.lines == [] && Concat(chunks) == old(data.lines)
    ensures Chunked(chunks, if data.batchSize < 1 then 1 else data.batchSize) && EachHolds(batches, chunks, atof)
  {
    hide Returned;
    hide WellFormed;
    hide Holds;
    hide Concat;
    hide Chunked;
    hide EachHolds;
    hide Full;
    ConcatNext([], []);
    ghost var all := data.lines;
    batches, chunks := [], [];
    NothingHolds(data.Size(), atof);
    while true
      invariant Concat(chunks) + data.lines == all && AllWellFormed(data.lines)
      invariant Chunked(chunks, data.Size()) && EachHolds(batches, chunks, atof)
      invariant data.lines != [] ==> Full(chunks, data.Size())
      decreases |data.lines|
    {
      ghost var left := data.lines;
      ghost var chunk := left[..data.Taken(|left|)];
      var batch := data.GetBatchData(atof);
      OffsetsTellLines(batch, chunk, atof);
      if |batch.offsets| <= 1 {
        break;
      }
      ChunkNext(batches, chunks, data.Size(), batch, chunk, atof);
      ConcatNext(chunks, chunk);
      assert left == chunk + data.lines;
      batches, chunks := batches + [batch], chunks + [chunk];
    }
  }

  lemma NothingHolds(size: nat, atof: string -> real)
    ensures Chunked([], size) && Full([], size) && EachHolds([], [], atof)
  {
  }

  /** Batching loses nothing: the link, week and time rows of all batches are those of the whole file, in order. */
  lemma {:induction false} BatchesHoldAll(batches: seq<Batch>, chunks: seq<seq<string>>, atof: string -> real)
    requires EachHolds(batches, chunks, atof)
    ensures AllRows(batches) == AllLinks(Concat(chunks), atof)
    ensures AllWeeks(batches) == Column(Concat(chunks), 2, atof)
    ensures AllTimes(batches) == Column(Concat(chunks), 1, atof)
  {
    hide Links;
    hide Returned;
    hide Column;
    if batches == [] {
      NoColumn(1, atof);
      NoColumn(2, atof);
    } else {
      var n := |batches| - 1;
      BatchesHoldAll(batches[..n], chunks[..n], atof);
      HoldsAllLinks(batches[n], chunks[n], atof);
      AllLinksConcat(Concat(chunks[..n]), chunks[n], atof);
      ColumnConcat(Concat(chunks[..n]), chunks[n], 1, atof);
      ColumnConcat(Concat(chunks[..n]), chunks[n], 2, atof);
    }
  }

  lemma NoColumn(i: nat, atof: string -> real)
    ensures Column([], i, atof) == []
  {
  }
}
