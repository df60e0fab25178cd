/** What soft_nms_lm leaves, told from the sorted boxes and the scores that each round leaves. */
module SoftNmsMeaning {
  import opened Boxes
  import opened StableSorting
  import opened SoftNms
  import opened SoftNmsLaws
  import HardNmsLaws

  // ----- how many boxes are picked and marked

  function Fewer(a: int, b: int): int { if a < b then a else b }

  /** A negative top_N apart, a run picks, and marks, as many boxes as top_N and max_candidate_N and the number of boxes
      allow. */
  lemma MarksAndPicks(s: seq<BBox>, p: Config, m: seq<bool>)
    requires p.topN >= 0 && |m| == |s|
    requires forall k :: 0 <= k < |s| ==> (m[k] <==> k < p.topN && (p.maxCandidates > 0 ==> k < p.maxCandidates))
    ensures var n := if p.maxCandidates > 0 then Fewer(|s|, p.maxCandidates) else |s|;
      && HardNmsLaws.Chosen(m, |s|) == Fewer(p.topN, n)
      && |After(s, n, p, Fewer(p.topN, n)).st.picks| == Fewer(p.topN, n)
  {
    var n := if p.maxCandidates > 0 then Fewer(|s|, p.maxCandidates) else |s|;
    PrefixCount(m, Fewer(p.topN, n), |s|);
    AfterIsReady(s, n, p, Fewer(p.topN, n));
  }

  lemma {:induction false} PrefixCount(m: seq<bool>, marked: nat, i: nat)
    requires i <= |m| && forall k :: 0 <= k < i ==> (m[k] <==> k < marked)
    ensures HardNmsLaws.Chosen(m, i) == Fewer(marked, i)
  {
    if i > 0 {
      PrefixCount(m, marked, i - 1);
    }
  }

  // ----- the vote of a round

  /** Box k has a say in the corners of pick b: it is the pick, or an unpicked box that overlaps it more than
      vote_iou. */
  ghost predicate Joins(s: seq<BBox>, p: Config, st: State, b: nat, k: nat)
    requires |st.scores| <= |s| && b < |s| && k < |st.scores|
  {
    || k == b
    || (k !in st.picks && Intersects(s[b], s[k], SizeOffset(p.addOne))
        && Iou(s[b], s[k], SizeOffset(p.addOne)) > p.voteIou)
  }

  /** The sum of coordinate times weight over the boxes before place to that have a say; the weights are the scores that
      the round leaves. */
  ghost function Moment(s: seq<BBox>, p: Config, st: State, b: nat, weights: seq<real>, c: Coordinate, to: nat): real
    requires |weights| == |st.scores| <= |s| && b < |s| && to <= |weights|
  {
    if to == 0 then 0.0
    else
      Moment(s, p, st, b, weights, c, to - 1) +
      if Joins(s, p, st, b, to - 1) then Times(c.Of(s[to - 1]), weights[to - 1]) else 0.0
  }

  /** What box b itself adds once the sum has come past it. */
  function Opening(s: seq<BBox>, b: nat, x: real, c: Coordinate, to: nat): real
    requires b < |s|
  {
    if b < to then 0.0 else Times(c.Of(s[b]), x)
  }

  lemma BestIsUnpicked(st: State)
    ensures -1 <= Best(st) < |st.scores| && (Best(st) != -1 ==> Best(st) !in st.picks)
  {
  }

  lemma BestKeepsScore(s: seq<BBox>, p: Config, st: State)
    requires |st.scores| <= |s| && Best(st) != -1
    ensures |Next(s, p, st).scores| == |st.scores| && Next(s, p, st).scores[Best(st)] == st.scores[Best(st)]
    ensures forall k: nat :: k < |st.scores| ==> Next(s, p, st).scores[k] == Decayed(s, p, st, Best(st), k)
  {
  }

  lemma JoinsMeaning(s: seq<BBox>, p: Config, st: State, b: nat, k: nat)
    requires |st.scores| <= |s| && b < |st.scores| && k < |st.scores|
    ensures Joins(s, p, st, b, k) <==> k == b || VotesFor(s, p, st, b, k)
    ensures k == b ==> !VotesFor(s, p, st, b, k)
  {
  }

  lemma {:induction false} VotesAreMoments(s: seq<BBox>, p: Config, st: State, weights: seq<real>, c: Coordinate,
                                           to: nat)
    requires |weights| == |st.scores| <= |s| && to <= |weights| && p.voting && Best(st) != -1
    requires weights == Next(s, p, st).scores
    ensures c.In(Votes(s, p, st, Best(st), to)) ==
            Moment(s, p, st, Best(st), weights, c, to) + Opening(s, Best(st), weights[Best(st)], c, to)
  {
    hide Joins;
    hide VotesFor;
    hide Best;
    hide Next;
    hide Decayed;
    hide Vote.Cast;
    hide OpeningVote;
    hide Coordinate.In;
    hide Times;
    hide Coordinate.Of;
    var b := Best(st);
    BestIsUnpicked(st);
    BestKeepsScore(s, p, st);
    if to == 0 {
      var pick := s[b].(score := st.scores[b]);
      OpeningIs(pick, c);
      ScoreIsNoCoordinate(s[b], st.scores[b], c);
    } else {
      VotesAreMoments(s, p, st, weights, c, to - 1);
      JoinsMeaning(s, p, st, b, to - 1);
      CastAdds(Votes(s, p, st, b, to - 1), s[to - 1], weights[to - 1], c);
    }
  }

  lemma ScoreIsNoCoordinate(b: BBox, x: real, c: Coordinate)
    ensures c.Of(b.(score := x)) == c.Of(b)
  {
  }

  /** A picked box keeps the score it was picked with, and its voted corners are the means of those that have a say,
      weighted by the scores that its round leaves. */
  lemma CornersAreMeans(s: seq<BBox>, n: nat, p: Config, c: nat, m: nat)
    requires c < m <= n <= |s|
    ensures 0 <= Best(After(s, n, p, c).st) < n
    ensures var st, weights := After(s, n, p, c).st, After(s, n, p, c + 1).st.scores;
      var b := Best(st);
      var f, weight := After(s, n, p, m).boxes[b], Moment(s, p, st, b, weights, One, n);
      && f.score == st.scores[b] && f.id == s[b].id
      && if p.voting && weight > 0.0001 then
           && f.x1 * weight == Moment(s, p, st, b, weights, X1, n)
           && f.y1 * weight == Moment(s, p, st, b, weights, Y1, n)
           && f.x2 * weight == Moment(s, p, st, b, weights, X2, n)
           && f.y2 * weight == Moment(s, p, st, b, weights, Y2, n)
         else
           f.x1 == s[b].x1 && f.y1 == s[b].y1 && f.x2 == s[b].x2 && f.y2 == s[b].y2
  {
    hide Moment;
    hide Votes;
    hide Voted;
    hide Best;
    hide Next;
    hide AfterRound;
    PicksStay(s, n, p, c, m);
    BestIsUnpicked(After(s, n, p, c).st);
    var st := After(s, n, p, c).st;
    var b := Best(st);
    if p.voting {
      var weights := After(s, n, p, c + 1).st.scores;
      VotesAreMoments(s, p, st, weights, One, n);
      VotesAreMoments(s, p, st, weights, X1, n);
      VotesAreMoments(s, p, st, weights, Y1, n);
      VotesAreMoments(s, p, st, weights, X2, n);
      VotesAreMoments(s, p, st, weights, Y2, n);
    }
    VotedIsMean(s[b].(score := st.scores[b]), Votes(s, p, st, b, n), p.voting);
  }

  /** Unpicked boxes keep their corners; boxes that take no part are not touched. */
  lemma OthersStay(s: seq<BBox>, n: nat, p: Config, c: nat, j: nat)
    requires c <= n <= |s| && j < |s|
    ensures var g := After(s, n, p, c);
      && (j < n && j !in g.st.picks ==> g.boxes[j] == s[j].(score := g.st.scores[j]))
      && (n <= j ==> g.boxes[j] == s[j])
  {
    hide Next;
    AfterIsReady(s, n, p, c);
    if c > 0 && n <= j {
      OthersStay(s, n, p, c - 1, j);
    }
  }

  // ----- the voting checks

  /** In round r a box has a say whose score is negative when the round is over. */
  ghost predicate NegativeJoins(s: seq<BBox>, n: nat, p: Config, r: nat, k: nat)
    requires n <= |s|
  {
    && k < n && 0 <= Best(After(s, n, p, r).st)
    && Joins(s, p, After(s, n, p, r).st, Best(After(s, n, p, r).st), k)
    && After(s, n, p, r + 1).st.scores[k] < 0.0
  }

  lemma {:induction false} VotersPassMeaning(s: seq<BBox>, p: Config, st: State, b: nat, m: nat)
    requires |st.scores| <= |s| && b < |st.scores| && m <= |st.scores|
    ensures VotersPass(s, p, st, b, m) <==> forall k: nat :: k < m ==> !NegativeVoter(s, p, st, b, k)
  {
    if m > 0 {
      VotersPassMeaning(s, p, st, b, m - 1);
    }
  }

  lemma RoundFailsExactly(s: seq<BBox>, n: nat, p: Config, r: nat)
    requires r < n <= |s|
    ensures !RoundPasses(s, p, After(s, n, p, r).st) <==> p.voting && exists k: nat :: NegativeJoins(s, n, p, r, k)
  {
    hide Joins;
    hide Best;
    hide AfterRound;
    hide After;
    hide VotesFor;
    hide VotersPass;
    var st := After(s, n, p, r).st;
    AfterIsReady(s, n, p, r);
    RoundFindsBox(st);
    BestIsUnpicked(st);
    BestKeepsScore(s, p, st);
    hide Next;
    AfterNext(s, n, p, r);
    var b := Best(st);
    VotersPassMeaning(s, p, st, b, n);
    forall k: nat | k < n
      ensures NegativeJoins(s, n, p, r, k) <==> Joins(s, p, st, b, k) && Decayed(s, p, st, b, k) < 0.0
      ensures Joins(s, p, st, b, k) <==> k == b || VotesFor(s, p, st, b, k)
    {
      JoinsMeaning(s, p, st, b, k);
    }
    if p.voting && st.scores[b] < 0.0 {
      assert NegativeJoins(s, n, p, r, b);
    } else if p.voting && !VotersPass(s, p, st, b, n) {
      var k: nat :| k < n && NegativeVoter(s, p, st, b, k);
      assert NegativeJoins(s, n, p, r, k);
    }
    if k: nat :| p.voting && NegativeJoins(s, n, p, r, k) {
      assert k == b || NegativeVoter(s, p, st, b, k);
    }
  }

  lemma AfterNext(s: seq<BBox>, n: nat, p: Config, r: nat)
    requires n <= |s|
    ensures After(s, n, p, r + 1).st == Next(s, p, After(s, n, p, r).st)
    ensures After(s, n, p, r + 1).passed <==> After(s, n, p, r).passed && RoundPasses(s, p, After(s, n, p, r).st)
  {
  }

  /** A CHECK_GE fails exactly when voting is on and in some round a box of negative score has a say. */
  lemma {:induction false} FailsExactly(s: seq<BBox>, n: nat, p: Config, c: nat)
    requires c <= n <= |s|
    ensures !After(s, n, p, c).passed <==> p.voting && exists r: nat, k: nat :: r < c && NegativeJoins(s, n, p, r, k)
  {
    hide NegativeJoins;
    hide RoundPasses;
    hide Next;
    hide AfterRound;
    if c > 0 {
      FailsExactly(s, n, p, c - 1);
      RoundFailsExactly(s, n, p, c - 1);
      AfterNext(s, n, p, c - 1);
    }
  }
}
