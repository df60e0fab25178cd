/** What a line of the data file says, and where a batch keeps it. */
module BatchMeaning {
  import opened Splitting
  import opened Batching

  predicate FreeOf(s: string, c: char) { forall i :: 0 <= i < |s| ==> s[i] != c }

  // ----- cutting at one character

  /** The text up to the first such character is the first piece. */
  lemma FirstPiece(a: string, c: char, rest: string)
    requires FreeOf(a, c)
    ensures Returned(a, [c]) == [a]
    ensures Returned(a + [c] + rest, [c]) == [a] + Returned(rest, [c])
  {
    var s := a + [c] + rest;
    PiecesAreCut(a, c);
    PiecesAreCut(s, c);
    PiecesAreCut(rest, c);
    CutNowhere(a, {c});
    CutAtFirst(s, {c}, |a|);
    assert s[..|a|] == a && s[|a| + 1..] == rest;
  }

  /** The pieces at a character are free of it, and joining them with it gives the text back. */
  lemma PiecesOf(s: string, c: char)
    ensures var p := Returned(s, [c]);
      p != [] && Join(p, [c]) == s && forall k :: 0 <= k < |p| ==> FreeOf(p[k], c)
  {
    SplitThenJoin(s, [c]);
    PiecesAreCut(s, c);
    hide Join;
    hide Pieces;
    hide Returned;
    hide Cut;
    var p := Returned(s, [c]);
    forall k, i | 0 <= k < |p| && 0 <= i < |p[k]| ensures p[k][i] != c {
      CutIsFree(s, {c}, k, i);
    }
  }

  // ----- one line

  /** What follows the third field: nothing, or more fields. */
  predicate Tail(rest: string) { rest == "" || rest[0] == ':' }

  lemma LineFields(a: string, b: string, c: string, rest: string)
    requires FreeOf(a, ':') && FreeOf(b, ':') && FreeOf(c, ':') && Tail(rest)
    ensures var line := a + ":" + b + ":" + c + rest;
      WellFormed(line) && Field(line, 0) == a && Field(line, 1) == b && Field(line, 2) == c
  {
    hide Returned;
    var third := c + rest;
    if rest == "" {
      assert third == c;
      FirstPiece(c, ':', "");
    } else {
      assert third == c + [':'] + rest[1..];
      FirstPiece(c, ':', rest[1..]);
    }
    assert Returned(third, ":") != [] && Returned(third, ":")[0] == c;
    FirstPiece(b, ':', third);
    FirstPiece(a, ':', b + [':'] + third);
    assert a + ":" + b + ":" + c + rest == a + [':'] + (b + [':'] + third);
    assert [a] + ([b] + Returned(third, ":")) == Fields(a + ":" + b + ":" + c + rest);
  }

  /** The row holds the numbers of the text: it is cut at the commas, and each piece is read by atof. */
  ghost predicate NumbersOf(row: Row, text: string, atof: string -> real) {
    exists pieces: seq<string> ::
      && |row| == |pieces| && Join(pieces, ",") == text && pieces != []
      && (forall k :: 0 <= k < |pieces| ==> FreeOf(pieces[k], ','))
      && (forall k :: 0 <= k < |pieces| ==> row[k] == atof(pieces[k]))
  }

  /** The rows hold the links of the text: it is cut at the bars, and each link gives a row. */
  ghost predicate LinksOf(rows: seq<Row>, text: string, atof: string -> real) {
    exists links: seq<string> ::
      && |rows| == |links| && Join(links, "|") == text && links != []
      && (forall k :: 0 <= k < |links| ==> FreeOf(links[k], '|'))
      && (forall k :: 0 <= k < |links| ==> NumbersOf(rows[k], links[k], atof))
  }

  lemma NumbersMeaning(text: string, atof: string -> real)
    ensures NumbersOf(Numbers(text, atof), text, atof)
  {
    PiecesOf(text, ',');
    hide Returned;
    hide Join;
    hide FreeOf;
    var pieces := Returned(text, ",");
    assert |Numbers(text, atof)| == |pieces|;
  }

  lemma LinksMeaning(line: string, atof: string -> real)
    ensures LinksOf(Links(line, atof), Field(line, 0), atof)
  {
    PiecesOf(Field(line, 0), '|');
    hide Returned;
    hide Join;
    hide FreeOf;
    hide Numbers;
    hide NumbersOf;
    hide Field;
    var links := Returned(Field(line, 0), "|");
    forall k | 0 <= k < |links| ensures NumbersOf(Links(line, atof)[k], links[k], atof) {
      NumbersMeaning(links[k], atof);
    }
  }

  /** A line a:b:c, or longer, leaves in the batch: the links of a as the rows between its offsets, the numbers of b as
      its time row, and the numbers of c as its week row. */
  lemma LineInBatch(batch: Batch, lines: seq<string>, atof: string -> real, k: nat, a: string, b: string, c: string,
                    rest: string)
    requires Holds(batch, lines, atof) && k < |lines| && lines[k] == a + ":" + b + ":" + c + rest
    requires FreeOf(a, ':') && FreeOf(b, ':') && FreeOf(c, ':') && Tail(rest)
    ensures |batch.week| == |batch.time| == |lines| && |batch.offsets| == |lines| + 1
    ensures NumbersOf(batch.week[k], c, atof) && NumbersOf(batch.time[k], b, atof)
    ensures 0 <= batch.offsets[k] < batch.offsets[k + 1] <= |batch.fea|
    ensures LinksOf(batch.fea[batch.offsets[k]..batch.offsets[k + 1]], a, atof)
  {
    hide Numbers;
    hide NumbersOf;
    hide Links;
    hide LinksOf;
    hide Field;
    hide WellFormed;
    LineFields(a, b, c, rest);
    NumbersMeaning(c, atof);
    NumbersMeaning(b, atof);
    LinksMeaning(lines[k], atof);
    assert Slice(batch.fea, batch.offsets[k], batch.offsets[k + 1], Links(lines[k], atof));
  }

  /** Every line with three fields is of this form. */
  lemma LineHasForm(line: string) returns (a: string, b: string, c: string, rest: string)
    requires WellFormed(line)
    ensures FreeOf(a, ':') && FreeOf(b, ':') && FreeOf(c, ':') && Tail(rest)
    ensures line == a + ":" + b + ":" + c + rest
  {
    PiecesOf(line, ':');
    hide Returned;
    hide FreeOf;
    var f := Fields(line);
    a, b, c := f[0], f[1], f[2];
    JoinCons(f, ":");
    JoinCons(f[1..], ":");
    if |f| == 3 {
      rest := "";
      assert f[2..] == [c];
    } else {
      JoinCons(f[2..], ":");
      rest := ":" + Join(f[3..], ":");
      assert f[2..][1..] == f[3..];
    }
    assert f[1..][1..] == f[2..];
  }

  lemma JoinCons(pieces: seq<string>, d: string)
    requires |pieces| > 1
    ensures Join(pieces, d) == pieces[0] + d + Join(pieces[1..], d)
  {
  }
}
