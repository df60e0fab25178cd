/** Splitting strings: ReadDataHelper::string_split and RNNDataHelper::split_string. */
module Splitting {

  // ----- std::string::find

  predicate OccursAt(s: string, d: string, i: nat) {
    i + |d| <= |s| && s[i..i + |d|] == d
  }

  ghost predicate Occurs(s: string, d: string) {
    exists i: nat :: OccursAt(s, d, i)
  }

  /** The first occurrence from place from on, or |s| + 1 for npos. */
  function Find(s: string, d: string, from: nat): (f: nat)
    requires from <= |s| + 1
    ensures f == |s| + 1 || (from <= f <= |s| && OccursAt(s, d, f))
    ensures forall i: nat :: from <= i < f ==> !OccursAt(s, d, i)
    decreases |s| + 1 - from
  {
    if from == |s| + 1 then from
    else if OccursAt(s, d, from) then from
    else Find(s, d, from + 1)
  }

  predicate Found(s: string, f: nat) { f <= |s| }

  // ----- pieces and joins

  /** The text between the occurrences of d, each found after the one before. */
  ghost function Pieces(s: string, d: string): (r: seq<string>)
    requires d != ""
    ensures r != []
    decreases |s|
  {
    var f := Find(s, d, 0);
    if !Found(s, f) then [s] else [s[..f]] + Pieces(s[f + |d|..], d)
  }

  ghost function Join(pieces: seq<string>, d: string): string {
    if pieces == [] then ""
    else if |pieces| == 1 then pieces[0]
    else pieces[0] + d + Join(pieces[1..], d)
  }

  lemma {:induction false} JoinPieces(s: string, d: string)
    requires d != ""
    ensures Join(Pieces(s, d), d) == s
    decreases |s|
  {
    var f := Find(s, d, 0);
    if Found(s, f) {
      JoinPieces(s[f + |d|..], d);
      assert ([s[..f]] + Pieces(s[f + |d|..], d))[1..] == Pieces(s[f + |d|..], d);
      assert s == s[..f] + s[f..f + |d|] + s[f + |d|..];
    }
  }

  lemma OccursInPrefix(s: string, d: string, f: nat, i: nat)
    requires f <= |s| && d != ""
    ensures OccursAt(s[..f], d, i) ==> OccursAt(s, d, i) && i < f
  {
    if i + |d| <= f {
      assert s[..f][i..i + |d|] == s[i..i + |d|];
    }
  }

  /** No piece holds the delimiter. */
  lemma {:induction false} PiecesAreFree(s: string, d: string, k: nat)
    requires d != "" && k < |Pieces(s, d)|
    ensures !Occurs(Pieces(s, d)[k], d)
    decreases |s|
  {
    var f := Find(s, d, 0);
    if Found(s, f) {
      if k == 0 {
        forall i: nat ensures !OccursAt(s[..f], d, i) {
          OccursInPrefix(s, d, f, i);
        }
      } else {
        PiecesAreFree(s[f + |d|..], d, k - 1);
      }
    } else {
      forall i: nat ensures !OccursAt(s, d, i) {
        assert OccursAt(s, d, i) ==> i <= |s|;
      }
    }
  }

  lemma SuffixOccurs(s: string, d: string, from: nat, i: nat)
    requires d != "" && from <= |s|
    ensures OccursAt(s[from..], d, i) <==> OccursAt(s, d, from + i)
  {
    if i + |d| <= |s| - from {
      assert s[from..][i..i + |d|] == s[from + i..from + i + |d|];
    }
  }

  /** Searching from a place on is searching the rest. */
  lemma FindFrom(s: string, d: string, from: nat)
    requires d != "" && from <= |s|
    ensures var f, g := Find(s, d, from), Find(s[from..], d, 0);
      (Found(s, f) <==> Found(s[from..], g)) && (Found(s, f) ==> f == from + g)
  {
    hide OccursAt;
    hide Find;
    var f, g := Find(s, d, from), Find(s[from..], d, 0);
    if Found(s, f) {
      SuffixOccurs(s, d, from, f - from);
    }
    if Found(s[from..], g) {
      SuffixOccurs(s, d, from, g);
    }
  }

  /** One more piece from place from on. */
  lemma NextPiece(s: string, d: string, from: nat)
    requires d != "" && from <= |s|
    ensures var f := Find(s, d, from);
      if Found(s, f) then f + |d| <= |s| && Pieces(s[from..], d) == [s[from..f]] + Pieces(s[f + |d|..], d)
      else Pieces(s[from..], d) == [s[from..]]
  {
    hide Find;
    hide OccursAt;
    FindFrom(s, d, from);
    var f := Find(s, d, from);
    if Found(s, f) {
      FoundIsOccurrence(s, d, from);
      assert s[from..][..f - from] == s[from..f];
      assert s[from..][f - from + |d|..] == s[f + |d|..];
    }
  }

  // ----- string_split with one delimiter

  /** What string_split returns: the last piece starts right after the first character of the last delimiter. */
  ghost function Returned(s: string, d: string): seq<string>
    requires d != ""
  {
    var p := Pieces(s, d);
    if |p| == 1 then p else p[..|p| - 1] + [d[1..] + p[|p| - 1]]
  }

  lemma FoundIsOccurrence(s: string, d: string, from: nat)
    requires d != "" && from <= |s| && Found(s, Find(s, d, from))
    ensures var f := Find(s, d, from); from <= f && f + |d| <= |s| && s[f..f + |d|] == d
  {
  }

  method StringSplit(s: string, d: string) returns (pieces: seq<string>)
    requires d != ""
    ensures pieces == Returned(s, d)
  {
    hide Find;
    hide OccursAt;
    hide Pieces;
    assert s[0..] == s;
    pieces := [];
    var found: nat := Find(s, d, 0);
    var preFound: int := -1;
    ghost var rest := 0;
    while Found(s, found)
      invariant found <= |s| + 1 && rest <= |s|
      invariant preFound == -1 ==> rest == 0 && pieces == []
      invariant preFound != -1 ==> 0 <= preFound && rest == preFound + |d| && pieces != []
      invariant preFound != -1 ==> s[preFound..rest] == d
      invariant found == Find(s, d, rest)
      invariant Pieces(s, d) == pieces + Pieces(s[rest..], d)
      decreases |s| + 1 - found
    {
      NextPiece(s, d, rest);
      FoundIsOccurrence(s, d, rest);
      if preFound == -1 {
        pieces := pieces + [s[0..found]];
      } else {
        pieces := pieces + [s[preFound + |d|..preFound + |d| + (found - |d| - preFound)]];
      }
      preFound := found;
      rest := found + |d|;
      found := Find(s, d, preFound + |d|);
    }
    NextPiece(s, d, rest);
    assert preFound != -1 ==> s[preFound + 1..] == d[1..] + s[rest..];
    pieces := pieces + [s[preFound + 1..]];
  }

  /** The last piece is a suffix of the text: with a delimiter in it, that suffix begins one character after the last
      delimiter does. */
  lemma LastStartsEarly(s: string, d: string)
    requires d != "" && Occurs(s, d)
    ensures var r := Returned(s, d);
      var last := r[|r| - 1];
      && |last| < |s| && s[|s| - |last|..] == last && OccursAt(s, d, |s| - |last| - 1)
      && forall i: nat :: |s| - |last| - 1 + |d| <= i ==> !OccursAt(s, d, i)
  {
    hide Pieces;
    OnePieceIffFree(s, d);
    JoinPieces(s, d);
    var p := Pieces(s, d);
    var front, last := p[..|p| - 1], p[|p| - 1];
    assert p == front + [last];
    JoinLast(front, last, d);
    var from := |Join(front, d)|;
    assert s == Join(front, d) + d + last;
    assert s[from + |d|..] == last && s[from..from + |d|] == d && s[from + 1..] == d[1..] + last;
    PiecesAreFree(s, d, |p| - 1);
    forall i: nat | from + |d| <= i ensures !OccursAt(s, d, i) {
      SuffixOccurs(s, d, from + |d|, i - from - |d|);
    }
  }

  lemma {:induction false} JoinLast(front: seq<string>, last: string, d: string)
    requires front != []
    ensures Join(front + [last], d) == Join(front, d) + d + last
  {
    if |front| == 1 {
      assert (front + [last])[1..] == [last];
    } else {
      assert (front + [last])[1..] == front[1..] + [last];
      JoinLast(front[1..], last, d);
    }
  }

  lemma OnePieceIffFree(s: string, d: string)
    requires d != ""
    ensures |Pieces(s, d)| == 1 <==> !Occurs(s, d)
  {
    var f := Find(s, d, 0);
    if Occurs(s, d) {
      var i: nat :| OccursAt(s, d, i);
      assert i <= |s|;
    }
  }

  /** Joining the returned pieces gives the input back exactly when the delimiter is one character or absent. */
  lemma SplitThenJoin(s: string, d: string)
    requires d != ""
    ensures Join(Returned(s, d), d) == s <==> |d| == 1 || !Occurs(s, d)
  {
    hide Pieces;
    hide Occurs;
    hide Join;
    hide Returned;
    JoinPieces(s, d);
    OnePieceIffFree(s, d);
    ReturnedPieces(s, d);
    var p := Pieces(s, d);
    if |p| > 1 {
      var front, last := p[..|p| - 1], p[|p| - 1];
      assert p == front + [last];
      JoinLast(front, last, d);
      JoinLast(front, d[1..] + last, d);
      Inserted(Join(front, d) + d, d[1..], last);
    }
  }

  lemma ReturnedPieces(s: string, d: string)
    requires d != ""
    ensures var p, r := Pieces(s, d), Returned(s, d);
      r == if |p| == 1 then p else p[..|p| - 1] + [d[1..] + p[|p| - 1]]
  {
  }

  lemma Inserted(x: string, a: string, b: string)
    ensures x + (a + b) == x + b <==> a == ""
  {
    if a != "" {
      assert |x + (a + b)| > |x + b|;
    } else {
      assert a + b == b;
    }
  }

  // ----- split_string

  /** The pieces without an empty last one. */
  ghost function Trimmed(pieces: seq<string>): seq<string>
    requires pieces != []
  {
    if pieces[|pieces| - 1] == "" then pieces[..|pieces| - 1] else pieces
  }

  method SplitString(s: string, c: string, v: seq<string>) returns (v': seq<string>)
    requires c != ""
    ensures v' == v + Trimmed(Pieces(s, c))
  {
    hide Find;
    hide OccursAt;
    hide Pieces;
    assert s[0..] == s;
    v' := v;
    var pos2: nat := Find(s, c, 0);
    var pos1: nat := 0;
    ghost var pieces: seq<string> := [];
    while Found(s, pos2)
      invariant pos1 <= |s| && pos2 <= |s| + 1 && pos2 == Find(s, c, pos1)
      invariant v' == v + pieces && Pieces(s, c) == pieces + Pieces(s[pos1..], c)
      decreases |s| + 1 - pos2
    {
      NextPiece(s, c, pos1);
      FoundIsOccurrence(s, c, pos1);
      v' := v' + [s[pos1..pos1 + (pos2 - pos1)]];
      pieces := pieces + [s[pos1..pos2]];
      pos1 := pos2 + |c|;
      pos2 := Find(s, c, pos1);
    }
    NextPiece(s, c, pos1);
    if pos1 != |s| {
      v' := v' + [s[pos1..]];
    }
  }

  lemma EmptyJoins(d: string)
    ensures Join([], d) == "" && Join([""], d) == ""
  {
  }

  /** Joining what split_string yields gives the input back, up to one trailing delimiter. */
  lemma SplitStringThenJoin(s: string, d: string)
    requires d != ""
    ensures var r := Join(Trimmed(Pieces(s, d)), d);
      s == if s != "" && Pieces(s, d)[|Pieces(s, d)| - 1] == "" then r + d else r
  {
    hide Pieces;
    hide Join;
    JoinPieces(s, d);
    EmptyJoins(d);
    var p := Pieces(s, d);
    var n := |p| - 1;
    if p[n] == "" {
      assert p == p[..n] + [""];
      if n > 0 {
        JoinLast(p[..n], "", d);
        assert |s| >= |d|;
      } else {
        assert p == [""] && p[..n] == [];
      }
    }
  }

  /** Nothing is appended for the empty text, and never an empty last piece. */
  lemma SplitStringPieces(s: string, d: string)
    requires d != ""
    ensures var t := Trimmed(Pieces(s, d));
      (t == [] <==> s == "") && (t != [] && |t| == |Pieces(s, d)| ==> t[|t| - 1] != "")
  {
    JoinPieces(s, d);
    hide Join;
    EmptyJoins(d);
  }

  // ----- several delimiters

  /** The pieces with one more character in front of the first. */
  function Grow(c: char, pieces: seq<string>): (r: seq<string>)
    requires pieces != []
    ensures r != []
  {
    [[c] + pieces[0]] + pieces[1..]
  }

  /** One scan that cuts at every character of the set. */
  ghost function Cut(s: string, cuts: set<char>): (r: seq<string>)
    ensures r != []
  {
    if s == "" then [""]
    else if s[0] in cuts then [""] + Cut(s[1..], cuts)
    else Grow(s[0], Cut(s[1..], cuts))
  }

  /** Cutting up to the first place where the set occurs. */
  lemma {:induction false} CutAtFirst(s: string, cuts: set<char>, f: nat)
    requires f < |s| && s[f] in cuts && forall i :: 0 <= i < f ==> s[i] !in cuts
    ensures Cut(s, cuts) == [s[..f]] + Cut(s[f + 1..], cuts)
  {
    if f > 0 {
      CutAtFirst(s[1..], cuts, f - 1);
      assert s[1..][..f - 1] == s[1..f] && s[1..][f..] == s[f + 1..];
      assert [s[0]] + s[1..f] == s[..f];
    } else {
      assert s[..0] == "";
    }
  }

  lemma {:induction false} CutNowhere(s: string, cuts: set<char>)
    requires forall i :: 0 <= i < |s| ==> s[i] !in cuts
    ensures Cut(s, cuts) == [s]
  {
    if s != "" {
      CutNowhere(s[1..], cuts);
      assert [s[0]] + s[1..] == s;
    }
  }

  lemma OneCharOccurs(s: string, c: char, i: nat)
    ensures OccursAt(s, [c], i) <==> i < |s| && s[i] == c
  {
    if i < |s| {
      assert s[i..i + 1] == [s[i]];
    }
  }

  /** For a delimiter of one character string_split is the scan. */
  lemma {:induction false} PiecesAreCut(s: string, c: char)
    ensures Pieces(s, [c]) == Cut(s, {c}) && Returned(s, [c]) == Cut(s, {c})
    decreases |s|
  {
    hide OccursAt;
    hide Find;
    hide Cut;
    var f := Find(s, [c], 0);
    forall i: nat ensures OccursAt(s, [c], i) <==> i < |s| && s[i] == c {
      OneCharOccurs(s, c, i);
    }
    if Found(s, f) {
      PiecesAreCut(s[f + 1..], c);
      CutAtFirst(s, {c}, f);
    } else {
      CutNowhere(s, {c});
    }
    var p := Pieces(s, [c]);
    assert [c][1..] + p[|p| - 1] == p[|p| - 1];
  }

  /** The pieces of the pieces. */
  ghost function CutAll(pieces: seq<string>, cuts: set<char>): seq<string> {
    if pieces == [] then [] else Cut(pieces[0], cuts) + CutAll(pieces[1..], cuts)
  }

  lemma {:induction false} CutAllLast(front: seq<string>, last: string, cuts: set<char>)
    ensures CutAll(front + [last], cuts) == CutAll(front, cuts) + Cut(last, cuts)
  {
    hide Cut;
    if front == [] {
      assert front + [last] == [last];
    } else {
      assert (front + [last])[1..] == front[1..] + [last];
      CutAllLast(front[1..], last, cuts);
    }
  }

  lemma CutCons(c: char, t: string, cuts: set<char>)
    ensures Cut([c] + t, cuts) == if c in cuts then [""] + Cut(t, cuts) else Grow(c, Cut(t, cuts))
  {
    assert ([c] + t)[1..] == t;
  }

  lemma GrowConcat(c: char, q: seq<string>, rest: seq<string>)
    requires q != []
    ensures Grow(c, q) + rest == Grow(c, q + rest)
  {
    assert (q + rest)[1..] == q[1..] + rest;
  }

  /** Cutting pieces whose first piece has one more character in front. */
  lemma CutAllGrown(c: char, pieces: seq<string>, cuts: set<char>)
    requires pieces != []
    ensures CutAll(pieces, cuts) != []
    ensures CutAll(Grow(c, pieces), cuts) ==
            if c in cuts then [""] + CutAll(pieces, cuts) else Grow(c, CutAll(pieces, cuts))
  {
    hide Cut;
    var q, rest := Cut(pieces[0], cuts), CutAll(pieces[1..], cuts);
    assert Grow(c, pieces)[0] == [c] + pieces[0] && Grow(c, pieces)[1..] == pieces[1..];
    hide Grow;
    CutCons(c, pieces[0], cuts);
    GrowConcat(c, q, rest);
    assert [""] + q + rest == [""] + (q + rest);
  }

  /** Cutting the pieces again is one scan that cuts at either set. */
  lemma {:induction false} CutTwice(s: string, a: set<char>, b: set<char>)
    ensures CutAll(Cut(s, a), b) == Cut(s, a + b)
  {
    if s == "" {
      assert CutAll([""], b) == Cut("", b) + CutAll([""][1..], b);
    } else {
      var r := Cut(s[1..], a);
      CutTwice(s[1..], a, b);
      CutAllGrown(s[0], r, b);
      assert ([""] + r)[1..] == r;
      assert Cut("", b) == [""];
      hide Grow;
    }
  }

  /** One round of the nested loops, for any delimiter. */
  ghost function ReturnedAll(pieces: seq<string>, d: string): seq<string>
    requires d != ""
  {
    if pieces == [] then [] else ReturnedAll(pieces[..|pieces| - 1], d) + Returned(pieces[|pieces| - 1], d)
  }

  ghost function ReturnedBy(s: string, delimiters: seq<string>): seq<string>
    requires forall k :: 0 <= k < |delimiters| ==> delimiters[k] != ""
  {
    if delimiters == [] then [s]
    else ReturnedAll(ReturnedBy(s, delimiters[..|delimiters| - 1]), delimiters[|delimiters| - 1])
  }

  /** The delimiters are applied in their order, each to the pieces so far, and the pieces keep their order. */
  lemma RoundsInOrder(s: string, first: seq<string>, d: string, a: seq<string>, b: seq<string>)
    requires d != "" && forall k :: 0 <= k < |first| ==> first[k] != ""
    ensures ReturnedBy(s, []) == [s]
    ensures ReturnedBy(s, first) == a + b ==>
      ReturnedBy(s, first + [d]) == ReturnedAll(a, d) + ReturnedAll(b, d)
    ensures ReturnedAll([s], d) == Returned(s, d)
  {
    hide Returned;
    assert (first + [d])[..|first|] == first;
    ReturnedAllConcat(a, b, d);
    assert [s][..0] == [];
  }

  lemma {:induction false} ReturnedAllConcat(a: seq<string>, b: seq<string>, d: string)
    requires d != ""
    ensures ReturnedAll(a + b, d) == ReturnedAll(a, d) + ReturnedAll(b, d)
  {
    hide Returned;
    if b == [] {
      assert a + b == a;
    } else {
      var n := |b| - 1;
      ReturnedAllConcat(a, b[..n], d);
      assert (a + b)[..|a + b| - 1] == a + b[..n];
    }
  }

  method SplitRound(before: seq<string>, d: string) returns (pieces: seq<string>)
    requires d != ""
    ensures pieces == ReturnedAll(before, d)
  {
    hide Returned;
    pieces := [];
    for i := 0 to |before|
      invariant pieces == ReturnedAll(before[..i], d)
    {
      assert before[..i + 1][..i] == before[..i];
      var more := StringSplit(before[i], d);
      ghost var done := pieces;
      for j := 0 to |more|
        invariant pieces == done + more[..j]
      {
        pieces := pieces + [more[j]];
      }
      assert more[..|more|] == more;
    }
    assert before[..|before|] == before;
  }

  method StringSplitAll(s: string, delimiters: seq<string>) returns (pieces: seq<string>)
    requires forall k :: 0 <= k < |delimiters| ==> delimiters[k] != ""
    ensures pieces == ReturnedBy(s, delimiters)
  {
    hide ReturnedAll;
    pieces := [s];
    assert delimiters[..0] == [];
    for k := 0 to |delimiters|
      invariant pieces == ReturnedBy(s, delimiters[..k])
    {
      assert delimiters[..k + 1][..k] == delimiters[..k];
      pieces := SplitRound(pieces, delimiters[k]);
    }
    assert delimiters[..|delimiters|] == delimiters;
  }

  predicate OneCharEach(delimiters: seq<string>) {
    forall k :: 0 <= k < |delimiters| ==> |delimiters[k]| == 1
  }

  function CutsOf(delimiters: seq<string>): set<char>
    requires OneCharEach(delimiters)
  {
    set k | 0 <= k < |delimiters| :: delimiters[k][0]
  }

  lemma {:induction false} ReturnedAllIsCutAll(pieces: seq<string>, c: char)
    ensures ReturnedAll(pieces, [c]) == CutAll(pieces, {c})
  {
    hide Returned;
    hide Pieces;
    hide Cut;
    if pieces == [] {
      assert CutAll(pieces, {c}) == [];
    } else {
      var n := |pieces| - 1;
      ReturnedAllIsCutAll(pieces[..n], c);
      PiecesAreCut(pieces[n], c);
      CutAllLast(pieces[..n], pieces[n], {c});
      assert pieces == pieces[..n] + [pieces[n]];
    }
  }

  lemma CutsOfLast(delimiters: seq<string>)
    requires OneCharEach(delimiters) && delimiters != []
    ensures CutsOf(delimiters) == CutsOf(delimiters[..|delimiters| - 1]) + {delimiters[|delimiters| - 1][0]}
  {
    var n := |delimiters| - 1;
    forall c ensures c in CutsOf(delimiters) <==> c in CutsOf(delimiters[..n]) || c == delimiters[n][0] {
      if c in CutsOf(delimiters) {
        var k :| 0 <= k < |delimiters| && delimiters[k][0] == c;
        assert k < n ==> delimiters[..n][k] == delimiters[k];
      }
      if c in CutsOf(delimiters[..n]) {
        var k :| 0 <= k < n && delimiters[..n][k][0] == c;
        assert delimiters[k][0] == c;
      }
    }
  }

  /** For delimiters of one character the rounds amount to one scan that cuts at any of them. */
  lemma {:induction false} RoundsAreOneScan(s: string, delimiters: seq<string>)
    requires OneCharEach(delimiters)
    ensures ReturnedBy(s, delimiters) == Cut(s, CutsOf(delimiters))
  {
    if delimiters == [] {
      assert CutsOf(delimiters) == {};
      CutNowhere(s, {});
    } else {
      var n := |delimiters| - 1;
      var d := delimiters[n];
      hide Cut;
      hide CutAll;
      hide ReturnedAll;
      hide CutsOf;
      RoundsAreOneScan(s, delimiters[..n]);
      assert d == [d[0]];
      ReturnedAllIsCutAll(ReturnedBy(s, delimiters[..n]), d[0]);
      CutTwice(s, CutsOf(delimiters[..n]), {d[0]});
      CutsOfLast(delimiters);
    }
  }

  /** No piece holds any of the delimiters. */
  lemma {:induction false} CutIsFree(s: string, cuts: set<char>, k: nat, i: nat)
    requires k < |Cut(s, cuts)| && i < |Cut(s, cuts)[k]|
    ensures Cut(s, cuts)[k][i] !in cuts
  {
    if s != "" {
      if s[0] in cuts {
        if k > 0 {
          CutIsFree(s[1..], cuts, k - 1, i);
        }
      } else if k > 0 {
        CutIsFree(s[1..], cuts, k, i);
      } else if i > 0 {
        CutIsFree(s[1..], cuts, 0, i - 1);
      }
    }
  }

  /** So their order does not matter, nor does a repetition. */
  lemma OrderDoesNotMatter(s: string, delimiters: seq<string>, others: seq<string>)
    requires OneCharEach(delimiters) && OneCharEach(others) && forall d :: d in delimiters <==> d in others
    ensures ReturnedBy(s, delimiters) == ReturnedBy(s, others)
  {
    RoundsAreOneScan(s, delimiters);
    RoundsAreOneScan(s, others);
    forall c ensures c in CutsOf(delimiters) <==> c in CutsOf(others) {
      CutsListed(delimiters, c);
      CutsListed(others, c);
    }
    assert CutsOf(delimiters) == CutsOf(others);
  }

  lemma CutsListed(delimiters: seq<string>, c: char)
    requires OneCharEach(delimiters)
    ensures c in CutsOf(delimiters) <==> [c] in delimiters
  {
    if k :| 0 <= k < |delimiters| && delimiters[k] == [c] {
      assert delimiters[k][0] == c;
    }
    if c in CutsOf(delimiters) {
      var k :| 0 <= k < |delimiters| && delimiters[k][0] == c;
      assert delimiters[k] == [c];
    }
  }
}
