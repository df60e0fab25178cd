/** What nms_lm leaves, told from the sorted boxes and the returned mask alone. */
module HardNmsMeaning {
  import opened Boxes
  import opened StableSorting
  import opened HardNms
  import opened HardNmsLaws

  /** A positive max_candidate_N is the number of boxes that take part; otherwise all do. */
  predicate TakesPart(p: Config, i: nat) { p.maxCandidates <= 0 || i < p.maxCandidates }

  /** The overlap ratio of the two boxes is above the bound. */
  predicate Covers(p: Config, a: BBox, b: BBox, bound: real) {
    Intersects(a, b, SizeOffset(p.addOne)) && Iou(a, b, SizeOffset(p.addOne)) > bound
  }

  /** No marked box before place i overlaps box k too much. */
  ghost predicate InPlay(s: seq<BBox>, p: Config, m: seq<bool>, i: nat, k: nat)
    requires i <= |m| <= |s| && k < |s|
  {
    forall l: nat :: l < i && m[l] ==> !Covers(p, s[l], s[k], p.overlap)
  }

  /** There is room for box i and it is still in play. */
  ghost predicate Fits(s: seq<BBox>, p: Config, m: seq<bool>, i: nat)
    requires i < |m| <= |s|
  {
    Chosen(m, i) < p.topN && InPlay(s, p, m, i, i)
  }

  /** A box is marked when it takes part, fewer than top_N are marked before it, and it is still in play. */
  ghost predicate IsMask(s: seq<BBox>, p: Config, m: seq<bool>) {
    |m| == |s| && forall i: nat :: i < |s| ==> (m[i] <==> TakesPart(p, i) && Fits(s, p, m, i))
  }

  /** The rule has exactly one mask, the one that nms_lm returns. */
  lemma MaskMeaning(s: seq<BBox>, p: Config, m: seq<bool>)
    ensures IsMask(s, p, m) <==> m == Mask(s, p.Considered(|s|), p)
  {
    hide Fits;
    hide Greedy;
    hide Kept;
    var n := p.Considered(|s|);
    if |m| == |s| {
      GreedyFits(s, p, m, n);
      GreedyExactly(s, n, p, m[..n]);
      if m[..n] == Mask(s, n, p)[..n] && forall i :: n <= i < |s| ==> !m[i] {
        forall i: nat | i < |s| ensures m[i] == Mask(s, n, p)[i] {
          assert i < n ==> m[i] == m[..n][i] == Mask(s, n, p)[..n][i];
        }
      }
    }
  }

  lemma GreedyFits(s: seq<BBox>, p: Config, m: seq<bool>, n: nat)
    requires n <= |m| == |s|
    ensures Greedy(s, p, m[..n]) <==> forall i: nat :: i < n ==> (m[i] <==> Fits(s, p, m, i))
  {
    hide Suppresses;
    hide Chosen;
    forall i: nat | i < n
      ensures Fits(s, p, m, i) <==>
        Chosen(m[..n], i) < p.topN && forall k: nat :: k < i && m[..n][k] ==> !Suppresses(p, s[k], s[i])
    {
      ChosenOfPrefix(m, n, i);
      forall k: nat | k < i ensures Suppresses(p, s[k], s[i]) <==> Covers(p, s[k], s[i], p.overlap) {
        SuppressesIsCovers(p, s[k], s[i]);
      }
    }
  }

  lemma SuppressesIsCovers(p: Config, a: BBox, b: BBox)
    ensures Suppresses(p, a, b) <==> Covers(p, a, b, p.overlap)
    ensures VotesFor(p, a, b) <==> Covers(p, a, b, p.voteIou)
  {
  }

  lemma {:induction false} ChosenOfPrefix(m: seq<bool>, n: nat, i: nat)
    requires i <= n <= |m|
    ensures Chosen(m[..n], i) == Chosen(m, i)
  {
    if i > 0 {
      ChosenOfPrefix(m, n, i - 1);
    }
  }

  lemma InPlayMeaning(s: seq<BBox>, p: Config, m: seq<bool>, i: nat, k: nat)
    requires IsMask(s, p, m) && i <= k < |s| && TakesPart(p, k)
    ensures InPlay(s, p, m, i, k) <==> !Skipped(s, p, i, k)
  {
    MaskMeaning(s, p, m);
    SkippedMeaning(s, p, i, k);
  }

  // ----- the voting checks

  /** Box k has a say in the corners of the marked box i: it is box i, or a later box in play that overlaps it more than
      vote_iou. */
  ghost predicate Joins(s: seq<BBox>, p: Config, m: seq<bool>, i: nat, k: nat)
    requires i < |m| <= |s| && k < |s|
  {
    k == i || (i < k && TakesPart(p, k) && InPlay(s, p, m, i, k) && Covers(p, s[i], s[k], p.voteIou))
  }

  lemma JoinsMeaning(s: seq<BBox>, p: Config, m: seq<bool>, i: nat, k: nat)
    requires IsMask(s, p, m) && i <= k < p.Considered(|s|)
    ensures Joins(s, p, m, i, k) <==> k == i || (InRound(s, p, i, k) && VotesFor(p, s[i], s[k]))
  {
    InPlayMeaning(s, p, m, i, k);
  }

  ghost predicate NegativeJoins(s: seq<BBox>, p: Config, m: seq<bool>, i: nat, k: nat)
    requires |m| == |s|
  {
    i < |s| && k < |s| && m[i] && Joins(s, p, m, i, k) && s[k].score < 0.0
  }

  /** A CHECK_GE fails exactly when voting is on and a box of negative score has a say. */
  lemma FailsExactly(s: seq<BBox>, p: Config, m: seq<bool>)
    requires IsMask(s, p, m)
    ensures CheckFails(s, p.Considered(|s|), p) <==> p.voting && exists i: nat, k: nat :: NegativeJoins(s, p, m, i, k)
  {
    var n := p.Considered(|s|);
    MaskMeaning(s, p, m);
    if CheckFails(s, n, p) {
      var i: nat :| i < n && RoundFails(s, n, p, i);
      if s[i].score < 0.0 {
        assert NegativeJoins(s, p, m, i, i);
      } else {
        var k: nat :| i < k < n && NegativeVoter(s, p, i, k);
        JoinsMeaning(s, p, m, i, k);
        assert NegativeJoins(s, p, m, i, k);
      }
    }
    if i: nat, k: nat :| p.voting && NegativeJoins(s, p, m, i, k) {
      if k != i {
        JoinsMeaning(s, p, m, i, k);
        assert NegativeVoter(s, p, i, k);
      }
      assert RoundFails(s, n, p, i);
    }
  }

  // ----- corners and scores

  /** The sum of coordinate times score over the boxes before place to that have a say in box i. */
  ghost function Moment(s: seq<BBox>, p: Config, m: seq<bool>, i: nat, c: Coordinate, to: nat): real
    requires i < |m| <= |s| && to <= |s|
  {
    if to <= i then 0.0
    else
      Moment(s, p, m, i, c, to - 1) +
      if Joins(s, p, m, i, to - 1) then Times(c.Of(s[to - 1]), s[to - 1].score) else 0.0
  }

  /** The sum of the scores of the boxes before place to that box i suppresses first. */
  ghost function Taken(s: seq<BBox>, p: Config, m: seq<bool>, i: nat, to: nat): real
    requires i < |m| <= |s| && to <= |s|
  {
    if to <= i + 1 then 0.0
    else
      Taken(s, p, m, i, to - 1) +
      if TakesPart(p, to - 1) && InPlay(s, p, m, i, to - 1) && Covers(p, s[i], s[to - 1], p.overlap)
      then s[to - 1].score else 0.0
  }

  lemma {:induction false} VotesAreMoments(s: seq<BBox>, p: Config, m: seq<bool>, i: nat, to: nat)
    requires IsMask(s, p, m) && p.voting && i < to <= p.Considered(|s|)
    ensures var v := Votes(s, p, i, to);
      && v.s == Moment(s, p, m, i, One, to)
      && v.x1 == Moment(s, p, m, i, X1, to) && v.y1 == Moment(s, p, m, i, Y1, to)
      && v.x2 == Moment(s, p, m, i, X2, to) && v.y2 == Moment(s, p, m, i, Y2, to)
  {
    hide Joins;
    hide InRound;
    hide VotesFor;
    JoinsMeaning(s, p, m, i, to - 1);
    if to > i + 1 {
      VotesAreMoments(s, p, m, i, to - 1);
    }
  }

  lemma {:induction false} MomentEnds(s: seq<BBox>, p: Config, m: seq<bool>, i: nat, c: Coordinate, to: nat)
    requires |m| == |s| && i < p.Considered(|s|) <= to <= |s|
    ensures Moment(s, p, m, i, c, to) == Moment(s, p, m, i, c, p.Considered(|s|))
  {
    if to > p.Considered(|s|) {
      MomentEnds(s, p, m, i, c, to - 1);
    }
  }

  lemma {:induction false} AbsorbedIsTaken(s: seq<BBox>, p: Config, m: seq<bool>, i: nat, to: nat)
    requires IsMask(s, p, m) && i < to <= p.Considered(|s|)
    ensures Absorbed(s, p, i, to) == Taken(s, p, m, i, to)
  {
    hide InPlay;
    hide Skipped;
    hide Suppresses;
    hide Covers;
    hide IsMask;
    if to > i + 1 {
      AbsorbedIsTaken(s, p, m, i, to - 1);
      InPlayMeaning(s, p, m, i, to - 1);
      SuppressesIsCovers(p, s[i], s[to - 1]);
    }
  }

  lemma {:induction false} TakenEnds(s: seq<BBox>, p: Config, m: seq<bool>, i: nat, to: nat)
    requires |m| == |s| && i < p.Considered(|s|) <= to <= |s|
    ensures Taken(s, p, m, i, to) == Taken(s, p, m, i, p.Considered(|s|))
  {
    if to > p.Considered(|s|) {
      TakenEnds(s, p, m, i, to - 1);
    }
  }

  /** The voted corners of a marked box are the means of those that have a say, weighted by their scores. */
  lemma CornersAreMeans(s: seq<BBox>, p: Config, m: seq<bool>, i: nat)
    requires IsMask(s, p, m) && i < |s| && m[i]
    ensures var f := FinalBoxes(s, p.Considered(|s|), p)[i];
      var weight := Moment(s, p, m, i, One, |s|);
      if p.voting && weight > 0.0001 then
        && f.x1 * weight == Moment(s, p, m, i, X1, |s|)
        && f.y1 * weight == Moment(s, p, m, i, Y1, |s|)
        && f.x2 * weight == Moment(s, p, m, i, X2, |s|)
        && f.y2 * weight == Moment(s, p, m, i, Y2, |s|)
      else
        f.x1 == s[i].x1 && f.y1 == s[i].y1 && f.x2 == s[i].x2 && f.y2 == s[i].y2
  {
    hide Moment;
    hide Votes;
    hide Absorbed;
    hide Voted;
    hide IsMask;
    MaskMeaning(s, p, m);
    MomentEnds(s, p, m, i, One, |s|);
    MomentEnds(s, p, m, i, X1, |s|);
    MomentEnds(s, p, m, i, Y1, |s|);
    MomentEnds(s, p, m, i, X2, |s|);
    MomentEnds(s, p, m, i, Y2, |s|);
    if p.voting {
      VotesAreMoments(s, p, m, i, p.Considered(|s|));
    }
    VotedIsMean(Summed(s, p, i, p.Considered(|s|)), Votes(s, p, i, p.Considered(|s|)), p.voting);
  }

  /** With addScore a marked box ends up with its score and those of the boxes it suppresses first; without, scores
      stay. Unmarked boxes stay as they are, and nothing but scores and corners changes. */
  lemma ScoresAreSums(s: seq<BBox>, p: Config, m: seq<bool>, i: nat)
    requires IsMask(s, p, m) && i < |s|
    ensures var f := FinalBoxes(s, p.Considered(|s|), p)[i];
      && f.id == s[i].id && (!m[i] ==> f == s[i])
      && (m[i] ==> f.score == s[i].score + if p.addScore then Taken(s, p, m, i, |s|) else 0.0)
  {
    hide Taken;
    hide Absorbed;
    MaskMeaning(s, p, m);
    if m[i] {
      AbsorbedIsTaken(s, p, m, i, p.Considered(|s|));
      TakenEnds(s, p, m, i, |s|);
    }
  }
}
