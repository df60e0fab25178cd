/** soft_nms_lm: pick the best box, decay the scores of the boxes it overlaps, repeat; a final
    stable sort and a prefix mask report the picks. */
module SoftNms {
  import opened Boxes
  import opened StableSorting
  import HardNms

  /** decay(o) is the factor exp(-o * o / iou_std) applied at overlap o. */
  datatype Config = Config(decay: real -> real, topN: int, maxCandidates: int,
                           addOne: bool, voting: bool, voteIou: real) {
    function Off(): real { SizeOffset(addOne) }

    /** consider_size. */
    function Considered(size: nat): nat {
      if 0 < maxCandidates < size then maxCandidates else size
    }

    /** top_n_real. */
    function Rounds(n: nat): int { if topN < n then topN else n }
  }

  // The run, stated on the sorted boxes s as they are before any corner is rewritten.

  /** Current scores of the considered boxes and the picks so far, in order. */
  datatype State = State(scores: seq<real>, picks: seq<nat>)

  /** The linear search over the first m boxes: the first unpicked box with the highest score, or -1. */
  function BestBefore(st: State, m: nat): (b: int)
    requires m <= |st.scores|
    ensures -1 <= b < m
    ensures b != -1 ==> b !in st.picks
  {
    if m == 0 then -1
    else
      var b := BestBefore(st, m - 1);
      if m - 1 in st.picks then b
      else if b == -1 || st.scores[m - 1] > st.scores[b] then m - 1
      else b
  }

  function Best(st: State): int { BestBefore(st, |st.scores|) }

  /** The score of box j after box b was picked. */
  function Decayed(s: seq<BBox>, p: Config, st: State, b: nat, j: nat): real
    requires |st.scores| <= |s| && b < |st.scores| && j < |st.scores|
  {
    if j == b || j in st.picks || !Intersects(s[b], s[j], p.Off()) then st.scores[j]
    else Times(st.scores[j], p.decay(Iou(s[b], s[j], p.Off())))
  }

  function Next(s: seq<BBox>, p: Config, st: State): State
    requires |st.scores| <= |s|
  {
    if Best(st) == -1 then st
    else
      State(seq(|st.scores|, j requires 0 <= j < |st.scores| => Decayed(s, p, st, Best(st), j)),
            st.picks + [Best(st)])
  }

  /** Box k adds its decayed score to the vote of pick b. */
  predicate VotesFor(s: seq<BBox>, p: Config, st: State, b: nat, k: nat)
    requires |st.scores| <= |s| && b < |st.scores| && k < |st.scores|
  {
    k != b && k !in st.picks && Intersects(s[b], s[k], p.Off()) && Iou(s[b], s[k], p.Off()) > p.voteIou
  }

  /** The vote of pick b over the first m boxes. */
  function Votes(s: seq<BBox>, p: Config, st: State, b: nat, m: nat): Vote
    requires |st.scores| <= |s| && b < |st.scores| && m <= |st.scores|
  {
    if m == 0 then OpeningVote(s[b].(score := st.scores[b]), p.voting)
    else if p.voting && VotesFor(s, p, st, b, m - 1) then
      Votes(s, p, st, b, m - 1).Cast(s[m - 1], Decayed(s, p, st, b, m - 1))
    else Votes(s, p, st, b, m - 1)
  }

  /** What pick b looks like when its round is over. */
  function Picked(s: seq<BBox>, p: Config, st: State, b: nat): BBox
    requires |st.scores| <= |s| && b < |st.scores|
  {
    Voted(s[b].(score := st.scores[b]), Votes(s, p, st, b, |st.scores|), p.voting)
  }

  /** All boxes after the round that starts in state st with boxes t. */
  function AfterRound(t: seq<BBox>, s: seq<BBox>, p: Config, st: State): (u: seq<BBox>)
    requires |st.scores| <= |s| == |t|
    ensures |u| == |t|
  {
    if Best(st) == -1 then t
    else seq(|t|, j requires 0 <= j < |t| =>
               if j == Best(st) then Picked(s, p, st, j)
               else if j < |st.scores| then t[j].(score := Decayed(s, p, st, Best(st), j))
               else t[j])
  }

  predicate NegativeVoter(s: seq<BBox>, p: Config, st: State, b: nat, k: nat)
    requires |st.scores| <= |s| && b < |st.scores| && k < |st.scores|
  {
    p.voting && VotesFor(s, p, st, b, k) && Decayed(s, p, st, b, k) < 0.0
  }

  /** No CHECK_GE fails on the voting scores of pick b among the first m boxes. */
  predicate VotersPass(s: seq<BBox>, p: Config, st: State, b: nat, m: nat)
    requires |st.scores| <= |s| && b < |st.scores| && m <= |st.scores|
  {
    m == 0 || (VotersPass(s, p, st, b, m - 1) && !NegativeVoter(s, p, st, b, m - 1))
  }

  predicate RoundPasses(s: seq<BBox>, p: Config, st: State)
    requires |st.scores| <= |s|
  {
    Best(st) == -1 ||
    (!(p.voting && st.scores[Best(st)] < 0.0) && VotersPass(s, p, st, Best(st), |st.scores|))
  }

  /** How far a run is: its state, all boxes, and whether every CHECK_GE has held. */
  datatype Progress = Progress(st: State, boxes: seq<BBox>, passed: bool)

  function Start(s: seq<BBox>, n: nat): Progress
    requires n <= |s|
  {
    Progress(State(seq(n, j requires 0 <= j < n => s[j].score), []), s, true)
  }

  function OneRound(s: seq<BBox>, p: Config, g: Progress): Progress
    requires |g.st.scores| <= |s| == |g.boxes|
  {
    Progress(Next(s, p, g.st), AfterRound(g.boxes, s, p, g.st), g.passed && RoundPasses(s, p, g.st))
  }

  /** The run after c rounds. */
  function After(s: seq<BBox>, n: nat, p: Config, c: nat): (g: Progress)
    requires n <= |s|
    ensures |g.st.scores| == n && |g.boxes| == |s|
  {
    if c == 0 then Start(s, n) else OneRound(s, p, After(s, n, p, c - 1))
  }

  // ----- the program

  /** Array candidates holds, among its first n boxes, exactly the state st and the unpicked corners of s. */
  ghost predicate Holds(boxes: seq<BBox>, s: seq<BBox>, n: nat, st: State) {
    && n == |st.scores| <= |s| == |boxes|
    && (forall j: nat :: j < n ==> boxes[j].score == st.scores[j])
    && (forall j: nat :: j < n && j !in st.picks ==> boxes[j] == s[j].(score := st.scores[j]))
  }

  method FindBest(candidates: array<BBox>, mask: array<bool>, n: nat, ghost st: State, ghost s: seq<BBox>)
      returns (best: int)
    requires n <= candidates.Length == mask.Length && Holds(candidates[..], s, n, st)
    requires forall j: nat :: j < n ==> mask[j] == (j in st.picks)
    ensures best == Best(st)
  {
    best := -1;
    for i := 0 to n
      invariant best == BestBefore(st, i)
    {
      assert candidates[i] == candidates[..][i];
      if !mask[i] {
        assert best != -1 ==> candidates[best] == candidates[..][best];
        if best == -1 || candidates[i].score > candidates[best].score {
          best := i;
        }
      }
    }
  }

  /** Pick b and the first m boxes of its inner loop, the others as in t. */
  ghost function Midway(t: seq<BBox>, s: seq<BBox>, p: Config, st: State, b: nat, m: nat): seq<BBox>
    requires |st.scores| <= |s| == |t| && b < |st.scores| && m <= |st.scores|
  {
    seq(|t|, j requires 0 <= j < |t| => if j < m then t[j].(score := Decayed(s, p, st, b, j)) else t[j])
  }

  lemma MidwayStep(t: seq<BBox>, s: seq<BBox>, p: Config, st: State, b: nat, j: nat)
    requires Holds(t, s, |st.scores|, st) && b < |st.scores| && j < |st.scores| && b !in st.picks
    ensures var u := Midway(t, s, p, st, b, j);
            && Midway(t, s, p, st, b, j + 1) == u[j := t[j].(score := Decayed(s, p, st, b, j))]
            && u[j] == t[j] && u[b] == t[b] == s[b].(score := st.scores[b])
  {
    assert t[b].(score := t[b].score) == t[b];
  }

  /** One step of the inner loop: pick b decays box j and lets it vote. */
  method Visit(candidates: array<BBox>, mask: array<bool>, areas: array<real>, p: Config, b: nat, j: nat,
               vote: Vote, ghost t: seq<BBox>, ghost s: seq<BBox>, ghost st: State)
      returns (passed: bool, vote': Vote)
    requires candidates.Length == mask.Length && Holds(t, s, areas.Length, st) && |s| == candidates.Length
    requires b < areas.Length && j < areas.Length && b !in st.picks
    requires candidates[..] == Midway(t, s, p, st, b, j)
    requires mask[j] == (j == b || j in st.picks)
    requires areas[b] == Area(s[b], p.Off()) && areas[j] == Area(s[j], p.Off())
    requires vote == Votes(s, p, st, b, j)
    modifies candidates
    ensures passed <==> !NegativeVoter(s, p, st, b, j)
    ensures passed ==> vote' == Votes(s, p, st, b, j + 1)
    ensures passed ==> candidates[..] == Midway(t, s, p, st, b, j + 1)
  {
    MidwayStep(t, s, p, st, b, j);
    assert candidates[b] == candidates[..][b] && candidates[j] == candidates[..][j];
    ghost var u := candidates[..];
    passed, vote' := true, vote;
    assert t[j].(score := t[j].score) == t[j];
    if !mask[j] {
      assert t[j] == s[j].(score := st.scores[j]);
      GeometryIgnoresScore(candidates[b], s[b], candidates[j], s[j], p.Off());
      var meet, o := MeasureOverlap(candidates[b], candidates[j], areas[b], areas[j], p.Off());
      if meet {
        assert o == Iou(s[b], s[j], p.Off());
        candidates[j] := candidates[j].(score := candidates[j].score * p.decay(o));
        assert candidates[j] == t[j].(score := Decayed(s, p, st, b, j));
        if p.voting && o > p.voteIou {
          var current := candidates[j].score;
          if current < 0.0 {
            return false, vote;
          }
          CastIgnoresScore(vote, candidates[j], s[j], current);
          vote' := vote.Cast(candidates[j], current);
        }
      }
    }
    assert candidates[..] == u[j := t[j].(score := Decayed(s, p, st, b, j))];
  }

  lemma VotersPassAt(s: seq<BBox>, p: Config, st: State, b: nat, m: nat, k: nat)
    requires |st.scores| <= |s| && b < |st.scores| && k < m <= |st.scores| && NegativeVoter(s, p, st, b, k)
    ensures !VotersPass(s, p, st, b, m)
  {
    if k < m - 1 {
      VotersPassAt(s, p, st, b, m - 1, k);
    }
  }

  /** The inner loop of a round: pick b decays every unpicked box it meets. */
  method Decay(candidates: array<BBox>, mask: array<bool>, areas: array<real>, n: nat, p: Config, b: nat,
               ghost s: seq<BBox>, ghost st: State) returns (passed: bool)
    requires candidates.Length == mask.Length == |s| && areas.Length == n && Holds(candidates[..], s, n, st)
    requires b == Best(st) && forall j: nat :: j < n ==> mask[j] == (j == b || j in st.picks)
    requires forall j :: 0 <= j < n ==> areas[j] == Area(s[j], p.Off())
    modifies candidates
    ensures passed <==> RoundPasses(s, p, st)
    ensures passed ==> candidates[..] == AfterRound(old(candidates[..]), s, p, st)
  {
    ghost var t := candidates[..];
    assert candidates[b] == t[b] == s[b].(score := st.scores[b]);
    var vote := OpeningVote(candidates[b], p.voting);
    if p.voting && vote.s < 0.0 {
      return false;
    }
    var j := 0;
    assert Midway(t, s, p, st, b, 0) == t;
    while j < n
      invariant 0 <= j <= n
      invariant candidates[..] == Midway(t, s, p, st, b, j)
      invariant vote == Votes(s, p, st, b, j)
      invariant VotersPass(s, p, st, b, j)
    {
      passed, vote := Visit(candidates, mask, areas, p, b, j, vote, t, s, st);
      if !passed {
        VotersPassAt(s, p, st, b, n, j);
        return;
      }
      j := j + 1;
    }
    assert candidates[b] == candidates[..][b] == t[b].(score := st.scores[b]);
    assert t[b].(score := t[b].score) == t[b];
    candidates[b] := Voted(candidates[b], vote, p.voting);
    passed := true;
  }

  /** The linear search finds the first of the highest scores among the unpicked boxes. */
  lemma {:induction false} BestIsFirstHighest(st: State, m: nat)
    requires m <= |st.scores|
    ensures var b := BestBefore(st, m);
            && (b == -1 <==> forall j: nat :: j < m ==> j in st.picks)
            && (b != -1 ==> forall j: nat :: j < m && j !in st.picks ==>
                  st.scores[j] < st.scores[b] || (st.scores[j] == st.scores[b] && b <= j))
  {
    if m > 0 {
      BestIsFirstHighest(st, m - 1);
    }
  }

  ghost predicate Distinct(picks: seq<nat>, n: nat) {
    (forall t :: 0 <= t < |picks| ==> picks[t] < n) &&
    (forall t, u :: 0 <= t < u < |picks| ==> picks[t] != picks[u])
  }

  /** Picking every box below n takes at least n picks. */
  lemma {:induction false} AllPicked(picks: seq<nat>, n: nat)
    requires forall j: nat :: j < n ==> j in picks
    ensures n <= |picks|
  {
    if n > 0 {
      assert n - 1 in picks;
      var k :| 0 <= k < |picks| && picks[k] == n - 1;
      var rest := picks[..k] + picks[k + 1..];
      forall j: nat | j < n - 1 ensures j in rest {
        assert j in picks;
        var t :| 0 <= t < |picks| && picks[t] == j;
        assert t != k && rest[if t < k then t else t - 1] == j;
      }
      AllPicked(rest, n - 1);
    }
  }

  /** What every round keeps: distinct picks, one per round. */
  ghost predicate Picking(st: State, c: nat) {
    Distinct(st.picks, |st.scores|) && |st.picks| == c
  }

  /** Every round that the run makes finds a box: CHECK(max_box_idx != -1) never fires. */
  lemma RoundFindsBox(st: State)
    requires Picking(st, |st.picks|) && |st.picks| < |st.scores|
    ensures Best(st) != -1
  {
    BestIsFirstHighest(st, |st.scores|);
    if Best(st) == -1 {
      AllPicked(st.picks, |st.scores|);
    }
  }

  lemma NextPicks(s: seq<BBox>, p: Config, st: State, c: nat)
    requires |st.scores| <= |s| && Picking(st, c) && c < |st.scores|
    ensures Best(st) != -1 && Picking(Next(s, p, st), c + 1)
  {
    RoundFindsBox(st);
  }

  lemma HoldsAfterRound(t: seq<BBox>, s: seq<BBox>, n: nat, p: Config, st: State)
    requires Holds(t, s, n, st) && Best(st) != -1
    ensures Holds(AfterRound(t, s, p, st), s, n, Next(s, p, st))
  {
  }

  lemma {:induction false} FailureStays(s: seq<BBox>, n: nat, p: Config, c: nat, m: nat)
    requires c <= m && n <= |s| && !After(s, n, p, c).passed
    ensures !After(s, n, p, m).passed
    decreases m - c
  {
    if c < m {
      FailureStays(s, n, p, c + 1, m);
    }
  }

  /** What every round starts from. */
  ghost predicate Ready(g: Progress, s: seq<BBox>, n: nat, c: nat) {
    Holds(g.boxes, s, n, g.st) && Picking(g.st, c)
  }

  lemma {:induction false} AfterIsReady(s: seq<BBox>, n: nat, p: Config, c: nat)
    requires c <= n <= |s|
    ensures Ready(After(s, n, p, c), s, n, c)
  {
    if c == 0 {
      var st := Start(s, n).st;
      assert forall j: nat :: j < n ==> s[j] == s[j].(score := st.scores[j]);
    } else {
      AfterIsReady(s, n, p, c - 1);
      var g := After(s, n, p, c - 1);
      NextPicks(s, p, g.st, c - 1);
      HoldsAfterRound(g.boxes, s, n, p, g.st);
    }
  }

  ghost predicate Masks(mask: seq<bool>, picks: seq<nat>, n: nat) {
    n <= |mask| && forall j: nat :: j < n ==> mask[j] == (j in picks)
  }

  /** One round of the outer loop: find the pick, mask it, decay the others. */
  method Round(candidates: array<BBox>, mask: array<bool>, areas: array<real>, n: nat, p: Config,
               ghost s: seq<BBox>, ghost c: nat) returns (r: Result<()>)
    requires candidates.Length == mask.Length == |s| && areas.Length == n && c < n <= |s|
    requires candidates[..] == After(s, n, p, c).boxes && Masks(mask[..], After(s, n, p, c).st.picks, n)
    requires After(s, n, p, c).passed
    requires forall j :: 0 <= j < n ==> areas[j] == Area(s[j], p.Off())
    modifies candidates, mask
    ensures r == if After(s, n, p, c + 1).passed then Success(()) else Failure(NegativeScore)
    ensures r.Success? ==> candidates[..] == After(s, n, p, c + 1).boxes
    ensures r.Success? ==> Masks(mask[..], After(s, n, p, c + 1).st.picks, n)
  {
    AfterIsReady(s, n, p, c);
    ghost var st := After(s, n, p, c).st;
    RoundFindsBox(st);
    assert forall j: nat :: j < n ==> mask[j] == mask[..][j];
    var best := FindBest(candidates, mask, n, st, s);
    if best == -1 {
      return Failure(NoCandidate);
    }
    mask[best] := true;
    var passed := Decay(candidates, mask, areas, n, p, best, s, st);
    r := if passed then Success(()) else Failure(NegativeScore);
  }

  /** The outer loop of soft_nms_lm over the sorted candidates. */
  method Rounds(candidates: array<BBox>, n: nat, p: Config, rounds: nat, ghost s: seq<BBox>)
      returns (r: Result<()>)
    requires candidates[..] == s && rounds <= n <= |s|
    modifies candidates
    ensures r.Failure? <==> !After(s, n, p, rounds).passed
    ensures r.Failure? ==> r.error == NegativeScore
    ensures r.Success? ==> candidates[..] == After(s, n, p, rounds).boxes
  {
    hide AfterRound;
    hide Next;
    var mask := new bool[candidates.Length](_ => false);
    assert forall k :: 0 <= k < n ==> candidates[k] == s[k];
    var areas := HardNms.Areas(candidates, n, p.Off());
    var count := 0;
    while count < rounds
      invariant 0 <= count <= rounds
      invariant After(s, n, p, count).passed
      invariant candidates[..] == After(s, n, p, count).boxes
      invariant Masks(mask[..], After(s, n, p, count).st.picks, n)
      invariant forall j :: 0 <= j < n ==> areas[j] == Area(s[j], p.Off())
    {
      r := Round(candidates, mask, areas, n, p, s, count);
      count := count + 1;
      if r.Failure? {
        FailureStays(s, n, p, count, rounds);
        return;
      }
    }
    r := Success(());
  }

  /** The candidates when the run is over: the considered ones sorted again. */
  function Finished(t: seq<BBox>, n: nat): (f: seq<BBox>)
    requires n <= |t|
    ensures |f| == |t| && f[n..] == t[n..]
  {
    SortIsDescending(t[..n], Score);
    StableSort(t[..n], Score) + t[n..]
  }

  lemma FinishedIsSorted(t: seq<BBox>, n: nat)
    requires n <= |t|
    ensures forall i, j :: 0 <= i < j < n ==> Finished(t, n)[i].score >= Finished(t, n)[j].score
  {
    SortIsDescending(t[..n], Score);
    hide StableSort;
    assert forall i, j :: 0 <= i < j < n ==>
      Score(StableSort(t[..n], Score)[i]) >= Score(StableSort(t[..n], Score)[j]);
  }

  lemma NoRoundPasses(s: seq<BBox>, n: nat, p: Config)
    requires n <= |s|
    ensures After(s, n, p, 0).passed
  {
  }

  /** The whole of soft_nms_lm. A negative top_N makes the mask's resize throw. */
  method SoftNms(candidates: array<BBox>, p: Config) returns (r: Result<seq<bool>>)
    modifies candidates
    ensures var s := StableSort(old(candidates[..]), Score);
            && |s| == candidates.Length
            && var n := if 0 < p.maxCandidates < |s| then p.maxCandidates else |s|;
            && var rounds := if p.topN < n then p.topN else n;
            && (s == [] ==> r == Success([]))
            && (s != [] && p.topN < 0 ==> r == Failure(NegativeLength))
            && (s != [] && p.topN >= 0 ==>
                  && (r.Failure? <==> !After(s, n, p, rounds).passed)
                  && (r.Failure? ==> r.error == NegativeScore)
                  && (r.Success? ==> candidates[..] == Finished(After(s, n, p, rounds).boxes, n)))
    ensures var n := if 0 < p.maxCandidates < candidates.Length then p.maxCandidates else candidates.Length;
            r.Success? ==> forall i, j :: 0 <= i < j < n ==> candidates[i].score >= candidates[j].score
    ensures r.Success? ==> |r.value| == candidates.Length && forall k :: 0 <= k < candidates.Length ==>
              (r.value[k] <==> k < p.topN && (p.maxCandidates > 0 ==> k < p.maxCandidates))
  {
    hide AfterRound;
    hide Next;
    hide StableSort;
    hide After;
    SortIsDescending(candidates[..], Score);
    ghost var s := StableSort(candidates[..], Score);
    assert candidates[..candidates.Length] == candidates[..];
    HardNms.SortPrefix(candidates, candidates.Length);
    assert candidates[..] == s;
    if candidates.Length == 0 {
      return Success([]);
    }
    var n := p.Considered(candidates.Length);
    var chosen := p.Rounds(n);
    NoRoundPasses(s, n, p);
    var done := Rounds(candidates, n, p, if chosen < 0 then 0 else chosen, s);
    if done.Failure? {
      return Failure(done.error);
    }
    ghost var t := candidates[..];
    assert candidates[..n] == t[..n] && candidates[n..] == t[n..];
    HardNms.SortPrefix(candidates, n);
    FinishedIsSorted(t, n);
    assert candidates[..] == Finished(t, n);
    assert forall i :: 0 <= i < n ==> candidates[i] == candidates[..][i];
    if chosen < 0 {
      return Failure(NegativeLength);
    }
    r := Success(seq(chosen, _ => true) + seq(candidates.Length - chosen, _ => false));
  }
}
