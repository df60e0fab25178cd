/** nms_lm: greedy non-maximum suppression over the boxes in descending score order. */
module HardNms {
  import opened Boxes
  import opened StableSorting

  datatype Config = Config(overlap: real, topN: int, addScore: bool, maxCandidates: int,
                           addOne: bool, voting: bool, voteIou: real) {
    function Off(): real { SizeOffset(addOne) }

    /** consider_size: how many of the sorted boxes take part. */
    function Considered(size: nat): nat {
      if 0 < maxCandidates < size then maxCandidates else size
    }
  }

  predicate Suppresses(p: Config, a: BBox, b: BBox) {
    Intersects(a, b, p.Off()) && Iou(a, b, p.Off()) > p.overlap
  }

  predicate VotesFor(p: Config, a: BBox, b: BBox) {
    Intersects(a, b, p.Off()) && Iou(a, b, p.Off()) > p.voteIou
  }

  // The greedy rule, stated on the sorted boxes s as they are before any rewrite.

  /** Box i is kept: fewer than top_N were kept before it and none of those suppresses it. */
  ghost predicate Kept(s: seq<BBox>, p: Config, i: nat)
    requires i < |s|
    decreases i, 2
  {
    KeptBefore(s, p, i) < p.topN && !Skipped(s, p, i, i)
  }

  /** Some box kept among the first m comes before box j and suppresses it. */
  ghost predicate Skipped(s: seq<BBox>, p: Config, m: nat, j: nat)
    requires m <= |s| && j < |s|
    decreases m, 1
  {
    m > 0 && (Skipped(s, p, m - 1, j) || (m - 1 < j && Kept(s, p, m - 1) && Suppresses(p, s[m - 1], s[j])))
  }

  lemma {:induction false} SkippedMeaning(s: seq<BBox>, p: Config, m: nat, j: nat)
    requires m <= |s| && j < |s|
    ensures Skipped(s, p, m, j) <==>
            exists k: nat :: k < m && k < j && Kept(s, p, k) && Suppresses(p, s[k], s[j])
  {
    if m > 0 {
      SkippedMeaning(s, p, m - 1, j);
    }
  }

  ghost function KeptBefore(s: seq<BBox>, p: Config, m: nat): nat
    requires m <= |s|
    decreases m, 0
  {
    if m == 0 then 0 else KeptBefore(s, p, m - 1) + if Kept(s, p, m - 1) then 1 else 0
  }

  /** Box k is in round i: it was not skipped when round i began. */
  ghost predicate InRound(s: seq<BBox>, p: Config, i: nat, k: nat)
    requires i < |s| && k < |s|
  {
    i < k && !Skipped(s, p, i, k)
  }

  /** The scores round i takes over from the boxes it suppresses among the first m. */
  ghost function Absorbed(s: seq<BBox>, p: Config, i: nat, m: nat): real
    requires i < m <= |s|
  {
    if m == i + 1 then 0.0
    else Absorbed(s, p, i, m - 1) +
         if InRound(s, p, i, m - 1) && Suppresses(p, s[i], s[m - 1]) then s[m - 1].score else 0.0
  }

  /** The vote of round i over the first m boxes. */
  ghost function Votes(s: seq<BBox>, p: Config, i: nat, m: nat): Vote
    requires i < m <= |s|
  {
    if m == i + 1 then OpeningVote(s[i], p.voting)
    else if p.voting && InRound(s, p, i, m - 1) && VotesFor(p, s[i], s[m - 1]) then
      Votes(s, p, i, m - 1).Cast(s[m - 1], s[m - 1].score)
    else Votes(s, p, i, m - 1)
  }

  /** What box i looks like after the run over the first n boxes. */
  ghost function FinalBox(s: seq<BBox>, n: nat, p: Config, i: nat): BBox
    requires i < n <= |s|
  {
    if !Kept(s, p, i) then s[i]
    else
      var summed := if p.addScore then s[i].(score := s[i].score + Absorbed(s, p, i, n)) else s[i];
      Voted(summed, Votes(s, p, i, n), p.voting)
  }

  /** One of the CHECK_GE tests on a voting score fails in round i. */
  ghost predicate RoundFails(s: seq<BBox>, n: nat, p: Config, i: nat)
    requires i < n <= |s|
  {
    && p.voting && Kept(s, p, i)
    && (s[i].score < 0.0 || exists k: nat | i < k < n :: NegativeVoter(s, p, i, k))
  }

  ghost predicate NegativeVoter(s: seq<BBox>, p: Config, i: nat, k: nat)
    requires i < |s| && k < |s|
  {
    InRound(s, p, i, k) && VotesFor(p, s[i], s[k]) && s[k].score < 0.0
  }

  ghost predicate CheckFails(s: seq<BBox>, n: nat, p: Config)
    requires n <= |s|
  {
    exists i: nat | i < n :: RoundFails(s, n, p, i)
  }

  ghost predicate ChecksPass(s: seq<BBox>, n: nat, p: Config, m: nat)
    requires m <= n <= |s|
  {
    m == 0 || (ChecksPass(s, n, p, m - 1) && !RoundFails(s, n, p, m - 1))
  }

  lemma {:induction false} ChecksPassMeaning(s: seq<BBox>, n: nat, p: Config, m: nat)
    requires m <= n <= |s|
    ensures ChecksPass(s, n, p, m) <==> forall i: nat :: i < m ==> !RoundFails(s, n, p, i)
  {
    if m > 0 {
      ChecksPassMeaning(s, n, p, m - 1);
    }
  }

  ghost function Mask(s: seq<BBox>, n: nat, p: Config): seq<bool>
    requires n <= |s|
  {
    seq(|s|, i requires 0 <= i < |s| => i < n && Kept(s, p, i))
  }

  /** The boxes when i of the first n have had their round. */
  ghost function Rewritten(s: seq<BBox>, n: nat, p: Config, i: nat): seq<BBox>
    requires i <= n <= |s|
  {
    seq(|s|, k requires 0 <= k < |s| => if k < i then FinalBox(s, n, p, k) else s[k])
  }

  ghost function FinalBoxes(s: seq<BBox>, n: nat, p: Config): seq<BBox>
    requires n <= |s|
  {
    Rewritten(s, n, p, n)
  }

  method CopyPrefix(candidates: array<BBox>, sorted: seq<BBox>)
    requires |sorted| <= candidates.Length
    modifies candidates
    ensures candidates[..] == sorted + old(candidates[|sorted|..])
  {
    for i := 0 to |sorted|
      invariant forall k :: 0 <= k < i ==> candidates[k] == sorted[k]
      invariant forall k :: i <= k < candidates.Length ==> candidates[k] == old(candidates[k])
    {
      candidates[i] := sorted[i];
    }
  }

  /** std::stable_sort over the first n candidates. */
  method SortPrefix(candidates: array<BBox>, n: nat)
    requires n <= candidates.Length
    modifies candidates
    ensures candidates[..] == StableSort(old(candidates[..n]), Score) + old(candidates[n..])
  {
    SortIsDescending(candidates[..n], Score);
    CopyPrefix(candidates, StableSort(candidates[..n], Score));
  }

  method Areas(candidates: array<BBox>, n: nat, off: real) returns (areas: array<real>)
    requires n <= candidates.Length
    ensures fresh(areas) && areas.Length == n
    ensures forall i :: 0 <= i < n ==> areas[i] == Area(candidates[i], off)
  {
    areas := new real[n];
    for i := 0 to n
      invariant forall k :: 0 <= k < i ==> areas[k] == Area(candidates[k], off)
    {
      areas[i] := (candidates[i].x2 - candidates[i].x1 + off) * (candidates[i].y2 - candidates[i].y1 + off);
    }
  }

  /** Kept box i with the scores it has taken over from the first m boxes. */
  ghost function Summed(s: seq<BBox>, p: Config, i: nat, m: nat): BBox
    requires i < m <= |s|
  {
    if p.addScore then s[i].(score := s[i].score + Absorbed(s, p, i, m)) else s[i]
  }

  /** One step of the inner loop of nms_lm: what kept box i does to box j.
      passed is false when the CHECK_GE on j's score fails. */
  method Visit(candidates: array<BBox>, skip: array<bool>, areas: array<real>, p: Config, i: nat, j: nat,
               vote: Vote, ghost s: seq<BBox>) returns (passed: bool, vote': Vote)
    requires i < j < skip.Length == areas.Length <= candidates.Length == |s|
    requires Kept(s, p, i)
    requires candidates[i] == Summed(s, p, i, j) && candidates[j] == s[j]
    requires skip[j] == Skipped(s, p, i, j)
    requires areas[i] == Area(s[i], p.Off()) && areas[j] == Area(s[j], p.Off())
    requires vote == Votes(s, p, i, j)
    modifies candidates, skip
    ensures passed <==> !(p.voting && NegativeVoter(s, p, i, j))
    ensures passed ==> vote' == Votes(s, p, i, j + 1)
    ensures passed ==> candidates[..] == old(candidates[..])[i := Summed(s, p, i, j + 1)]
    ensures passed ==> skip[..] == old(skip[..])[j := Skipped(s, p, i + 1, j)]
  {
    GeometryIgnoresScore(candidates[i], s[i], candidates[j], s[j], p.Off());
    passed, vote' := true, vote;
    if !skip[j] {
      var meet, o := MeasureOverlap(candidates[i], candidates[j], areas[i], areas[j], p.Off());
      if meet {
        assert o == Iou(s[i], s[j], p.Off());
        if o > p.overlap {
          skip[j] := true;
          if p.addScore {
            candidates[i] := candidates[i].(score := candidates[i].score + candidates[j].score);
          }
        }
        if p.voting && o > p.voteIou {
          var current := candidates[j].score;
          if current < 0.0 {
            return false, vote;
          }
          vote' := vote.Cast(candidates[j], current);
        }
      }
    }
  }

  /** The inner loop of nms_lm: kept box i suppresses, takes over scores and collects its vote.
      The result is false when a CHECK_GE fails. */
  method Round(candidates: array<BBox>, skip: array<bool>, areas: array<real>, n: nat, p: Config, i: nat,
               ghost s: seq<BBox>) returns (passed: bool)
    requires i < n <= |s| == candidates.Length && skip.Length == areas.Length == n
    requires Kept(s, p, i)
    requires forall k :: i <= k < |s| ==> candidates[k] == s[k]
    requires forall k :: i <= k < n ==> skip[k] == Skipped(s, p, i, k)
    requires forall k :: 0 <= k < n ==> areas[k] == Area(s[k], p.Off())
    modifies candidates, skip
    ensures passed <==> !RoundFails(s, n, p, i)
    ensures passed ==> candidates[..] == old(candidates[..])[i := FinalBox(s, n, p, i)]
    ensures passed ==> forall k :: i < k < n ==> skip[k] == Skipped(s, p, i + 1, k)
  {
    var vote := OpeningVote(candidates[i], p.voting);
    if p.voting && vote.s < 0.0 {
      return false;
    }
    var j := i + 1;
    while j < n
      invariant i < j <= n
      invariant forall k :: i < k < j ==> skip[k] == Skipped(s, p, i + 1, k)
      invariant forall k :: j <= k < n ==> skip[k] == Skipped(s, p, i, k)
      invariant candidates[..] == old(candidates[..])[i := Summed(s, p, i, j)]
      invariant vote == Votes(s, p, i, j)
      invariant forall k: nat :: i < k < j && p.voting ==> !NegativeVoter(s, p, i, k)
    {
      assert candidates[j] == candidates[..][j] == s[j] && candidates[i] == candidates[..][i];
      passed, vote := Visit(candidates, skip, areas, p, i, j, vote, s);
      if !passed {
        return;
      }
      j := j + 1;
    }
    candidates[i] := Voted(candidates[i], vote, p.voting);
    passed := true;
  }

  /** The outer loop of nms_lm over the sorted candidates. */
  method Scan(candidates: array<BBox>, n: nat, p: Config, ghost s: seq<BBox>) returns (r: Result<seq<bool>>)
    requires candidates[..] == s && n <= |s|
    modifies candidates
    ensures r.Failure? <==> CheckFails(s, n, p)
    ensures r.Failure? ==> r.error == NegativeScore
    ensures r.Success? ==> r.value == Mask(s, n, p) && candidates[..] == FinalBoxes(s, n, p)
  {
    var mask := new bool[candidates.Length](_ => false);
    var skip := new bool[n](_ => false);
    assert forall k :: 0 <= k < n ==> candidates[k] == s[k];
    var areas := Areas(candidates, n, p.Off());
    var count, i := 0, 0;
    while count < p.topN && i < n
      invariant 0 <= i <= n && count == KeptBefore(s, p, i)
      invariant forall k :: 0 <= k < i ==> mask[k] == Kept(s, p, k)
      invariant forall k :: i <= k < mask.Length ==> !mask[k]
      invariant forall k :: i <= k < n ==> skip[k] == Skipped(s, p, i, k)
      invariant candidates[..] == Rewritten(s, n, p, i)
      invariant forall k :: 0 <= k < n ==> areas[k] == Area(s[k], p.Off())
      invariant ChecksPass(s, n, p, i)
    {
      if !skip[i] {
        mask[i] := true;
        count := count + 1;
        assert forall k :: i <= k < |s| ==> candidates[k] == candidates[..][k] == s[k];
        var passed := Round(candidates, skip, areas, n, p, i, s);
        if !passed {
          return Failure(NegativeScore);
        }
      }
      i := i + 1;
    }
    RestUntouched(s, n, p, i);
    ChecksPassMeaning(s, n, p, n);
    assert mask[..] == Mask(s, n, p);
    r := Success(mask[..]);
  }

  /** The whole of nms_lm: candidates is sorted and rewritten in place, the mask is returned. */
  method Nms(candidates: array<BBox>, p: Config) returns (r: Result<seq<bool>>)
    modifies candidates
    ensures var s := StableSort(old(candidates[..]), Score);
            && |s| == candidates.Length && multiset(s) == multiset(old(candidates[..]))
            && forall i, j :: 0 <= i < j < |s| ==> s[i].score >= s[j].score
    ensures var s := StableSort(old(candidates[..]), Score);
            && |s| == candidates.Length
            && var n := if 0 < p.maxCandidates < |s| then p.maxCandidates else |s|;
            && (r.Failure? <==> CheckFails(s, n, p))
            && (r.Failure? ==> r.error == NegativeScore)
            && (r.Success? ==> r.value == Mask(s, n, p) && candidates[..] == FinalBoxes(s, n, p))
  {
    SortIsDescending(candidates[..], Score);
    ghost var s := StableSort(candidates[..], Score);
    assert candidates[..candidates.Length] == candidates[..];
    SortPrefix(candidates, candidates.Length);
    assert candidates[..] == s;
    if candidates.Length == 0 {
      return Success([]);
    }
    r := Scan(candidates, p.Considered(candidates.Length), p, s);
  }

  /** Once top_N boxes are kept or the boxes run out, no later box is kept, voted or checked. */
  lemma {:induction false} RestUntouched(s: seq<BBox>, n: nat, p: Config, i: nat)
    requires i <= n <= |s| && (KeptBefore(s, p, i) >= p.topN || i == n)
    ensures forall k: nat :: i <= k < n ==> !Kept(s, p, k)
    ensures ChecksPass(s, n, p, i) ==> ChecksPass(s, n, p, n)
    ensures Rewritten(s, n, p, i) == FinalBoxes(s, n, p)
    decreases n - i
  {
    if i < n {
      RestUntouched(s, n, p, i + 1);
      assert Rewritten(s, n, p, i) == Rewritten(s, n, p, i + 1);
    }
  }
}
