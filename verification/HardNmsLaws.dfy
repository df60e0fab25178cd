/** What greedy suppression promises: which boxes survive, what voting and score summing may change,
    and where every suppressed score goes. */
module HardNmsLaws {
  import opened Boxes
  import opened StableSorting
  import opened HardNms

  // ----- which boxes are kept

  ghost function Chosen(m: seq<bool>, i: nat): nat
    requires i <= |m|
  {
    if i == 0 then 0 else Chosen(m, i - 1) + if m[i - 1] then 1 else 0
  }

  /** Mask m is a greedy choice: it takes box i exactly when there is room for it and
      no box taken earlier suppresses it. */
  ghost predicate Greedy(s: seq<BBox>, p: Config, m: seq<bool>)
    requires |m| <= |s|
  {
    forall i: nat :: i < |m| ==>
      (m[i] <==> Chosen(m, i) < p.topN && forall k: nat :: k < i && m[k] ==> !Suppresses(p, s[k], s[i]))
  }

  lemma {:induction false} ChosenIsKeptBefore(s: seq<BBox>, p: Config, m: seq<bool>, i: nat)
    requires i <= |m| <= |s|
    requires forall k: nat :: k < i ==> m[k] == Kept(s, p, k)
    ensures Chosen(m, i) == KeptBefore(s, p, i)
  {
    if i > 0 {
      ChosenIsKeptBefore(s, p, m, i - 1);
    }
  }

  lemma {:induction false} GreedyAgreesTo(s: seq<BBox>, p: Config, m: seq<bool>, i: nat)
    requires i <= |m| <= |s| && Greedy(s, p, m)
    ensures forall k: nat :: k < i ==> m[k] == Kept(s, p, k)
  {
    hide Skipped;
    hide Suppresses;
    hide Chosen;
    hide KeptBefore;
    if i > 0 {
      GreedyAgreesTo(s, p, m, i - 1);
      ChosenIsKeptBefore(s, p, m, i - 1);
      SkippedMeaning(s, p, i - 1, i - 1);
      assert m[i - 1] == Kept(s, p, i - 1);
    }
  }

  /** The run's mask is a greedy choice, and there is no other one. */
  lemma GreedyExactly(s: seq<BBox>, n: nat, p: Config, m: seq<bool>)
    requires |m| == n <= |s|
    ensures Greedy(s, p, m) <==> m == Mask(s, n, p)[..n]
  {
    if Greedy(s, p, m) {
      GreedyAgreesTo(s, p, m, n);
    }
    if m == Mask(s, n, p)[..n] {
      forall i: nat | i < n
        ensures m[i] <==> Chosen(m, i) < p.topN && forall k: nat :: k < i && m[k] ==> !Suppresses(p, s[k], s[i])
      {
        ChosenIsKeptBefore(s, p, m, i);
        SkippedMeaning(s, p, i, i);
      }
    }
  }

  lemma {:induction false} KeptStaysUnsuppressed(s: seq<BBox>, p: Config, j: nat, m: nat)
    requires j < |s| && m <= |s| && Kept(s, p, j)
    ensures !Skipped(s, p, m, j)
  {
    SkippedMeaning(s, p, m, j);
    SkippedMeaning(s, p, j, j);
  }

  /** Two kept boxes never overlap more than allowed, whichever is named first. */
  lemma KeptBoxesApart(s: seq<BBox>, p: Config, i: nat, j: nat)
    requires i < |s| && j < |s| && i != j && Kept(s, p, i) && Kept(s, p, j)
    ensures Intersects(s[i], s[j], p.Off()) ==> Iou(s[i], s[j], p.Off()) <= p.overlap
  {
    SkippedMeaning(s, p, i, i);
    SkippedMeaning(s, p, j, j);
    IouIsSymmetric(s[i], s[j], p.Off());
  }

  /** A considered box is not kept exactly when it overlaps an earlier kept box or top_N kept boxes precede it. */
  lemma DroppedForAReason(s: seq<BBox>, n: nat, p: Config, j: nat)
    requires j < n <= |s|
    ensures !Mask(s, n, p)[j] <==>
            KeptBefore(s, p, j) >= p.topN || exists k: nat :: k < j && Kept(s, p, k) && Suppresses(p, s[k], s[j])
  {
    SkippedMeaning(s, p, j, j);
  }

  lemma {:induction false} KeptCountBounded(s: seq<BBox>, p: Config, m: nat)
    requires m <= |s|
    ensures KeptBefore(s, p, m) <= m && KeptBefore(s, p, m) <= if p.topN > 0 then p.topN else 0
  {
    if m > 0 {
      KeptCountBounded(s, p, m - 1);
    }
  }

  // ----- a smaller top_N keeps a prefix

  /** At most top_N, and none for a negative one. */
  function Capped(count: nat, topN: int): nat {
    if count <= topN then count else if topN < 0 then 0 else topN
  }

  lemma {:induction false} SmallerTopN(s: seq<BBox>, p: Config, q: Config, m: nat)
    requires m <= |s| && p == q.(topN := p.topN) && p.topN <= q.topN
    ensures KeptBefore(s, p, m) == Capped(KeptBefore(s, q, m), p.topN)
    ensures forall i: nat :: i < m ==> (Kept(s, p, i) <==> Kept(s, q, i) && KeptBefore(s, q, i) < p.topN)
    ensures KeptBefore(s, q, m) <= p.topN ==>
            forall j: nat :: j < |s| ==> Skipped(s, p, m, j) == Skipped(s, q, m, j)
  {
    if m > 0 {
      SmallerTopN(s, p, q, m - 1);
      assert Kept(s, p, m - 1) <==> Kept(s, q, m - 1) && KeptBefore(s, q, m - 1) < p.topN;
      assert forall j: nat :: j < |s| ==> Suppresses(p, s[m - 1], s[j]) == Suppresses(q, s[m - 1], s[j]);
    }
  }

  /** With a smaller top_N exactly the first boxes kept under the larger one are kept. */
  lemma TopNKeepsPrefix(s: seq<BBox>, n: nat, p: Config, q: Config)
    requires n <= |s| && p == q.(topN := p.topN) && p.topN <= q.topN
    ensures forall i: nat :: i < n ==> (Mask(s, n, p)[i] <==> Mask(s, n, q)[i] && KeptBefore(s, q, i) < p.topN)
    ensures KeptBefore(s, p, n) == Capped(KeptBefore(s, q, n), p.topN)
  {
    SmallerTopN(s, p, q, n);
  }

  // ----- rewrites never leak into decisions

  /** Both runs decide by the same rule; how they vote and sum may differ. */
  predicate SameRule(p: Config, q: Config) {
    p.overlap == q.overlap && p.topN == q.topN && p.maxCandidates == q.maxCandidates && p.addOne == q.addOne
  }

  lemma {:induction false} SameRuleSameRun(s: seq<BBox>, p: Config, q: Config, m: nat)
    requires m <= |s| && SameRule(p, q)
    ensures KeptBefore(s, p, m) == KeptBefore(s, q, m)
    ensures forall i: nat :: i < m ==> Kept(s, p, i) == Kept(s, q, i)
    ensures forall j: nat :: j < |s| ==> Skipped(s, p, m, j) == Skipped(s, q, m, j)
  {
    if m > 0 {
      SameRuleSameRun(s, p, q, m - 1);
      assert Kept(s, p, m - 1) == Kept(s, q, m - 1);
      forall j: nat | j < |s| ensures Skipped(s, p, m, j) == Skipped(s, q, m, j) {
        assert Suppresses(p, s[m - 1], s[j]) == Suppresses(q, s[m - 1], s[j]);
      }
    }
  }

  lemma {:induction false} AbsorbedIgnoresVoting(s: seq<BBox>, p: Config, q: Config, i: nat, m: nat)
    requires i < m <= |s| && SameRule(p, q)
    ensures Absorbed(s, p, i, m) == Absorbed(s, q, i, m)
  {
    if m > i + 1 {
      AbsorbedIgnoresVoting(s, p, q, i, m - 1);
      SameRuleSameRun(s, p, q, i);
      assert Suppresses(p, s[i], s[m - 1]) == Suppresses(q, s[i], s[m - 1]);
    }
  }

  lemma {:induction false} VotesIgnoreSumming(s: seq<BBox>, p: Config, q: Config, i: nat, m: nat)
    requires i < m <= |s| && SameRule(p, q) && p.voting == q.voting && p.voteIou == q.voteIou
    ensures Votes(s, p, i, m) == Votes(s, q, i, m)
  {
    if m > i + 1 {
      VotesIgnoreSumming(s, p, q, i, m - 1);
      SameRuleSameRun(s, p, q, i);
      assert VotesFor(p, s[i], s[m - 1]) == VotesFor(q, s[i], s[m - 1]);
    }
  }

  /** The mask is the same for every choice of voting, vote_iou and addScore, although both
      rewrite the array that is being scanned. */
  lemma MaskIgnoresRewrites(s: seq<BBox>, n: nat, p: Config, q: Config)
    requires n <= |s| && SameRule(p, q)
    ensures Mask(s, n, p) == Mask(s, n, q)
  {
    SameRuleSameRun(s, p, q, n);
  }

  /** Summed scores do not depend on voting. */
  lemma ScoresIgnoreVoting(s: seq<BBox>, n: nat, p: Config, q: Config, i: nat)
    requires i < n <= |s| && SameRule(p, q) && p.addScore == q.addScore
    ensures FinalBoxes(s, n, p)[i].score == FinalBoxes(s, n, q)[i].score
  {
    SameRuleSameRun(s, p, q, n);
    AbsorbedIgnoresVoting(s, p, q, i, n);
  }

  /** Voted corners do not depend on addScore. */
  lemma CornersIgnoreSumming(s: seq<BBox>, n: nat, p: Config, q: Config, i: nat)
    requires i < n <= |s| && SameRule(p, q) && p.voting == q.voting && p.voteIou == q.voteIou
    ensures SameCorners(FinalBoxes(s, n, p)[i], FinalBoxes(s, n, q)[i])
  {
    SameRuleSameRun(s, p, q, n);
    VotesIgnoreSumming(s, p, q, i, n);
  }

  // ----- where the scores go

  /** Box i suppresses box j in its round: i is the first kept box to do so. */
  ghost predicate Owns(s: seq<BBox>, p: Config, i: nat, j: nat)
    requires i < |s| && j < |s|
  {
    Kept(s, p, i) && InRound(s, p, i, j) && Suppresses(p, s[i], s[j])
  }

  lemma {:induction false} OwnerExists(s: seq<BBox>, p: Config, m: nat, j: nat) returns (i: nat)
    requires m <= |s| && j < |s| && Skipped(s, p, m, j)
    ensures i < m && Owns(s, p, i, j)
  {
    if Skipped(s, p, m - 1, j) {
      i := OwnerExists(s, p, m - 1, j);
    } else {
      i := m - 1;
    }
  }

  lemma {:induction false} SkippedGrows(s: seq<BBox>, p: Config, m: nat, m': nat, j: nat)
    requires m <= m' <= |s| && j < |s| && Skipped(s, p, m, j)
    ensures Skipped(s, p, m', j)
    decreases m' - m
  {
    if m < m' {
      SkippedGrows(s, p, m + 1, m', j);
    }
  }

  /** Every suppressed box is owned by exactly one kept box. */
  lemma OneOwner(s: seq<BBox>, p: Config, i: nat, i': nat, j: nat)
    requires i < |s| && i' < |s| && j < |s| && Owns(s, p, i, j) && Owns(s, p, i', j)
    ensures i == i'
  {
    if i < i' {
      SkippedGrows(s, p, i + 1, i', j);
    } else if i' < i {
      SkippedGrows(s, p, i' + 1, i, j);
    }
  }

  /** Final scores of the kept boxes among the first m. */
  ghost function KeptScores(s: seq<BBox>, n: nat, p: Config, m: nat): real
    requires m <= n <= |s|
  {
    if m == 0 then 0.0
    else KeptScores(s, n, p, m - 1) + if Kept(s, p, m - 1) then FinalBox(s, n, p, m - 1).score else 0.0
  }

  /** Original scores of the first m boxes that are kept among the first i or skipped by them. */
  ghost function SettledScores(s: seq<BBox>, p: Config, i: nat, m: nat): real
    requires i <= |s| && m <= |s|
  {
    if m == 0 then 0.0
    else SettledScores(s, p, i, m - 1) +
         if (m - 1 < i && Kept(s, p, m - 1)) || Skipped(s, p, i, m - 1) then s[m - 1].score else 0.0
  }

  lemma {:induction false} SettledStep(s: seq<BBox>, p: Config, i: nat, m: nat)
    requires i < |s| && m <= |s|
    ensures SettledScores(s, p, i + 1, m) == SettledScores(s, p, i, m) +
            if i < m && Kept(s, p, i) then s[i].score + Absorbed(s, p, i, m) else 0.0
  {
    if m > 0 {
      SettledStep(s, p, i, m - 1);
      var j := m - 1;
      if Kept(s, p, j) {
        KeptStaysUnsuppressed(s, p, j, i);
        KeptStaysUnsuppressed(s, p, j, i + 1);
      }
    }
  }

  lemma {:induction false} NothingSettled(s: seq<BBox>, p: Config, m: nat)
    requires m <= |s|
    ensures SettledScores(s, p, 0, m) == 0.0
  {
    if m > 0 {
      NothingSettled(s, p, m - 1);
    }
  }

  lemma {:induction false} ScoresConservedTo(s: seq<BBox>, n: nat, p: Config, i: nat)
    requires i <= n <= |s| && p.addScore
    ensures KeptScores(s, n, p, i) == SettledScores(s, p, i, n)
  {
    if i == 0 {
      NothingSettled(s, p, n);
    } else {
      ScoresConservedTo(s, n, p, i - 1);
      SettledStep(s, p, i - 1, n);
    }
  }

  ghost function TotalScore(s: seq<BBox>, m: nat): real
    requires m <= |s|
  {
    if m == 0 then 0.0 else TotalScore(s, m - 1) + s[m - 1].score
  }

  lemma {:induction false} AllSettled(s: seq<BBox>, p: Config, n: nat, m: nat)
    requires m <= n <= |s| && NoneLeftOver(s, n, p)
    ensures SettledScores(s, p, n, m) == TotalScore(s, m)
  {
    if m > 0 {
      AllSettled(s, p, n, m - 1);
    }
  }

  /** top_N does not bind: every considered box is kept or suppressed. */
  ghost predicate NoneLeftOver(s: seq<BBox>, n: nat, p: Config)
    requires n <= |s|
  {
    forall j: nat :: j < n ==> Kept(s, p, j) || Skipped(s, p, n, j)
  }

  lemma TopNNotReached(s: seq<BBox>, n: nat, p: Config)
    requires n <= |s| && KeptBefore(s, p, n) < p.topN
    ensures NoneLeftOver(s, n, p)
  {
    forall j: nat | j < n ensures Kept(s, p, j) || Skipped(s, p, n, j) {
      KeptBeforeGrows(s, p, j, n);
      if Skipped(s, p, j, j) {
        SkippedGrows(s, p, j, n, j);
      }
    }
  }

  lemma {:induction false} KeptBeforeGrows(s: seq<BBox>, p: Config, m: nat, m': nat)
    requires m <= m' <= |s|
    ensures KeptBefore(s, p, m) <= KeptBefore(s, p, m')
    decreases m'
  {
    if m < m' {
      KeptBeforeGrows(s, p, m, m' - 1);
    }
  }

  /** With addScore the kept boxes end up with the scores of all kept and suppressed boxes,
      and with the whole score of the considered boxes when top_N leaves none over, as when it is not reached. */
  lemma ScoreConservation(s: seq<BBox>, n: nat, p: Config)
    requires n <= |s| && p.addScore
    ensures KeptScores(s, n, p, n) == SettledScores(s, p, n, n)
    ensures NoneLeftOver(s, n, p) ==> KeptScores(s, n, p, n) == TotalScore(s, n)
    ensures KeptBefore(s, p, n) < p.topN ==> NoneLeftOver(s, n, p)
  {
    ScoresConservedTo(s, n, p, n);
    if NoneLeftOver(s, n, p) {
      AllSettled(s, p, n, n);
    }
    if KeptBefore(s, p, n) < p.topN {
      TopNNotReached(s, n, p);
    }
  }

  // ----- voting is a weighted mean

  ghost predicate Contributes(s: seq<BBox>, p: Config, i: nat, k: nat)
    requires i < |s| && k < |s|
  {
    k == i || (InRound(s, p, i, k) && VotesFor(p, s[i], s[k]))
  }

  lemma {:induction false} VotesBetween(s: seq<BBox>, n: nat, p: Config, i: nat, m: nat, lo: BBox, hi: BBox)
    requires i < m <= n <= |s| && p.voting && Kept(s, p, i) && !RoundFails(s, n, p, i)
    requires forall k: nat :: k < n && Contributes(s, p, i, k) ==> CornersBetween(s[k], lo, hi)
    ensures WeightedBetween(Votes(s, p, i, m), lo, hi)
  {
    if m == i + 1 {
      OpeningBetween(s[i], lo, hi);
    } else {
      VotesBetween(s, n, p, i, m - 1, lo, hi);
      if InRound(s, p, i, m - 1) && VotesFor(p, s[i], s[m - 1]) {
        assert Contributes(s, p, i, m - 1) && !NegativeVoter(s, p, i, m - 1);
        CastStaysBetween(Votes(s, p, i, m - 1), s[m - 1], s[m - 1].score, lo, hi);
      }
    }
  }

  /** Each voted corner lies between any bounds that hold for the contributing boxes. */
  lemma VotedCornersBetween(s: seq<BBox>, n: nat, p: Config, i: nat, lo: BBox, hi: BBox)
    requires i < n <= |s| && p.voting && Kept(s, p, i) && !CheckFails(s, n, p)
    requires forall k: nat :: k < n && Contributes(s, p, i, k) ==> CornersBetween(s[k], lo, hi)
    ensures CornersBetween(FinalBoxes(s, n, p)[i], lo, hi)
  {
    VotesBetween(s, n, p, i, n, lo, hi);
    assert Contributes(s, p, i, i);
    VotedStaysBetween(s[i], Votes(s, p, i, n), lo, hi);
  }

  lemma {:induction false} VotesInOrder(s: seq<BBox>, n: nat, p: Config, i: nat, m: nat)
    requires i < m <= n <= |s| && p.voting && Kept(s, p, i) && !RoundFails(s, n, p, i)
    requires forall k: nat :: k < n && Contributes(s, p, i, k) ==> Proper(s[k])
    ensures SumsInOrder(Votes(s, p, i, m))
  {
    if m == i + 1 {
      assert Contributes(s, p, i, i);
      OpeningInOrder(s[i]);
    } else {
      VotesInOrder(s, n, p, i, m - 1);
      if InRound(s, p, i, m - 1) && VotesFor(p, s[i], s[m - 1]) {
        assert Contributes(s, p, i, m - 1) && !NegativeVoter(s, p, i, m - 1);
        CastKeepsOrder(Votes(s, p, i, m - 1), s[m - 1], s[m - 1].score);
      }
    }
  }

  /** If every contributor has x1 <= x2 and y1 <= y2, so has the voted box. */
  lemma VotedBoxIsProper(s: seq<BBox>, n: nat, p: Config, i: nat)
    requires i < n <= |s| && p.voting && Kept(s, p, i) && !CheckFails(s, n, p)
    requires forall k: nat :: k < n && Contributes(s, p, i, k) ==> Proper(s[k])
    ensures Proper(FinalBoxes(s, n, p)[i])
  {
    VotesInOrder(s, n, p, i, n);
    assert Contributes(s, p, i, i);
    VotedIsProper(s[i], Votes(s, p, i, n));
  }
}
