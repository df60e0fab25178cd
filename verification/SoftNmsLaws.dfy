/** What soft suppression promises: the prefix mask marks the picks, voting decides nothing, and
    exactly when scores below zero break the mask. */
module SoftNmsLaws {
  import opened Boxes
  import opened StableSorting
  import opened SoftNms

  /** exp of a non-positive number: overlaps in (0, 1] give factors in (0, 1]. */
  ghost predicate Damping(decay: real -> real) {
    forall o: real :: 0.0 < o <= 1.0 ==> 0.0 < decay(o) <= 1.0
  }

  lemma DampedScore(x: real, d: real)
    requires 0.0 < d <= 1.0
    ensures x >= 0.0 ==> 0.0 <= Times(x, d) <= x
    ensures x < 0.0 ==> Times(x, d) < 0.0
  {
  }

  /** What a round does to the scores: picks keep theirs, a non-negative score stays non-negative
      and does not rise, a negative one stays negative. */
  ghost predicate ScoresFall(st: State, st': State) {
    && |st'.scores| == |st.scores|
    && forall j: nat :: j < |st.scores| ==>
         && (j in st'.picks ==> st'.scores[j] == st.scores[j])
         && (st.scores[j] >= 0.0 ==> 0.0 <= st'.scores[j] <= st.scores[j])
         && (st.scores[j] < 0.0 ==> st'.scores[j] < 0.0)
  }

  lemma RoundLowersScores(s: seq<BBox>, p: Config, st: State)
    requires Damping(p.decay) && |st.scores| <= |s|
    ensures ScoresFall(st, Next(s, p, st))
  {
    hide Times;
    var b, st' := Best(st), Next(s, p, st);
    forall j: nat | b != -1 && j < |st.scores|
      ensures j in st'.picks ==> st'.scores[j] == st.scores[j]
      ensures st.scores[j] >= 0.0 ==> 0.0 <= st'.scores[j] <= st.scores[j]
      ensures st.scores[j] < 0.0 ==> st'.scores[j] < 0.0
    {
      assert st'.scores[j] == Decayed(s, p, st, b, j);
      if Intersects(s[b], s[j], p.Off()) {
        DampedScore(st.scores[j], p.decay(Iou(s[b], s[j], p.Off())));
      }
    }
  }

  /** The factor that pick b leaves on box j: none on itself or on a box apart from it. */
  function Factor(s: seq<BBox>, p: Config, b: nat, j: nat): real
    requires b < |s| && j < |s|
  {
    if b != j && Intersects(s[b], s[j], p.Off()) then p.decay(Iou(s[b], s[j], p.Off())) else 1.0
  }

  /** The product of the factors of the picks that came before box j was picked itself. */
  ghost function Damped(s: seq<BBox>, p: Config, picks: seq<nat>, j: nat): real
    requires j < |s| && forall t :: 0 <= t < |picks| ==> picks[t] < |s|
  {
    if picks == [] then 1.0
    else
      var n := |picks| - 1;
      var before := Damped(s, p, picks[..n], j);
      if j in picks[..n] then before else Times(before, Factor(s, p, picks[n], j))
  }

  lemma TimesAssociates(x: real, y: real, z: real)
    ensures Times(Times(x, y), z) == Times(x, Times(y, z)) && Times(x, 1.0) == x
  {
  }

  lemma DampedNext(s: seq<BBox>, p: Config, picks: seq<nat>, b: nat, j: nat)
    requires j < |s| && b < |s| && forall t :: 0 <= t < |picks| ==> picks[t] < |s|
    ensures var before := Damped(s, p, picks, j);
      Damped(s, p, picks + [b], j) == if j in picks then before else Times(before, Factor(s, p, b, j))
  {
    hide Times;
    hide Factor;
    assert (picks + [b])[..|picks|] == picks;
  }

  lemma DampedRound(s: seq<BBox>, p: Config, st: State, j: nat, x: real)
    requires |st.scores| <= |s| && j < |st.scores| && Best(st) != -1
    requires forall t :: 0 <= t < |st.picks| ==> st.picks[t] < |s|
    requires st.scores[j] == Times(x, Damped(s, p, st.picks, j))
    ensures Next(s, p, st).scores[j] == Times(x, Damped(s, p, st.picks + [Best(st)], j))
  {
    hide Times;
    hide Damped;
    hide Intersects;
    hide Iou;
    var b := Best(st);
    var before := Damped(s, p, st.picks, j);
    DampedNext(s, p, st.picks, b, j);
    TimesAssociates(x, before, Factor(s, p, b, j));
    TimesAssociates(before, 1.0, 1.0);
    assert Next(s, p, st).scores[j] == Decayed(s, p, st, b, j);
  }

  /** After any number of rounds the score of a box is its first score times the decay of every box picked before it
      that it meets, at the overlap on the corners before voting. */
  lemma {:induction false} ScoresAreDamped(s: seq<BBox>, n: nat, p: Config, c: nat, j: nat)
    requires c <= n <= |s| && j < n
    ensures var st := After(s, n, p, c).st;
      && (forall t :: 0 <= t < |st.picks| ==> st.picks[t] < |s|)
      && st.scores[j] == Times(s[j].score, Damped(s, p, st.picks, j))
  {
    hide Times;
    hide Next;
    hide Best;
    hide AfterRound;
    hide RoundPasses;
    hide Holds;
    AfterIsReady(s, n, p, c);
    if c == 0 {
      TimesAssociates(s[j].score, 1.0, 1.0);
    } else {
      ScoresAreDamped(s, n, p, c - 1, j);
      AfterIsReady(s, n, p, c - 1);
      var st := After(s, n, p, c - 1).st;
      NextPicks(s, p, st, c - 1);
      DampedRound(s, p, st, j, s[j].score);
      PicksGrow(s, p, st);
    }
  }

  lemma PicksGrow(s: seq<BBox>, p: Config, st: State)
    requires |st.scores| <= |s| && Best(st) != -1
    ensures Next(s, p, st).picks == st.picks + [Best(st)]
  {
  }

  // ----- the mask marks exactly the picks

  predicate Leads(scores: seq<real>, a: nat, b: nat)
    requires a < |scores| && b < |scores|
  {
    scores[a] > scores[b] || (scores[a] == scores[b] && a < b)
  }

  /** Every pick leads the later picks and all unpicked boxes, and none is negative while boxes are left. */
  ghost predicate InOrder(st: State) {
    && Distinct(st.picks, |st.scores|)
    && (forall t, u :: 0 <= t < u < |st.picks| ==> Leads(st.scores, st.picks[t], st.picks[u]))
    && (forall t, j: nat :: 0 <= t < |st.picks| && j < |st.scores| && j !in st.picks ==>
          Leads(st.scores, st.picks[t], j))
    && (|st.picks| < |st.scores| ==> forall t :: 0 <= t < |st.picks| ==> st.scores[st.picks[t]] >= 0.0)
  }

  /** A pick that leads all other unpicked boxes and is not negative, or is the last one. */
  ghost predicate GoodPick(st: State, b: int) {
    && 0 <= b < |st.scores| && b !in st.picks
    && (forall j: nat :: j < |st.scores| && j !in st.picks && j != b ==> Leads(st.scores, b, j))
    && (st.scores[b] >= 0.0 || |st.picks| + 1 == |st.scores|)
  }

  lemma LeadSurvives(st: State, st': State, a: nat, j: nat)
    requires ScoresFall(st, st') && a < |st.scores| && j < |st.scores|
    requires Leads(st.scores, a, j) && st.scores[a] >= 0.0 && st'.scores[a] == st.scores[a]
    ensures Leads(st'.scores, a, j)
  {
  }

  lemma GoodPickStaysInOrder(st: State, st': State, b: nat)
    requires InOrder(st) && |st.picks| < |st.scores| && GoodPick(st, b)
    requires ScoresFall(st, st') && st'.picks == st.picks + [b]
    ensures InOrder(st')
  {
    var n := |st.scores|;
    if |st'.picks| == n {
      NoneLeft(st');
    }
    forall t, j: nat | 0 <= t < |st'.picks| && j < n && j !in st'.picks
      ensures Leads(st'.scores, st'.picks[t], j)
    {
      assert j !in st.picks && j != b;
      LeadSurvives(st, st', st'.picks[t], j);
    }
    forall t, u | 0 <= t < u < |st'.picks| ensures Leads(st'.scores, st'.picks[t], st'.picks[u]) {
      assert st'.picks[t] == st.picks[t] && st'.picks[u] in st'.picks;
      LeadSurvives(st, st', st'.picks[t], st'.picks[u]);
    }
  }

  lemma NoneLeft(st: State)
    requires Distinct(st.picks, |st.scores|) && |st.picks| == |st.scores|
    ensures forall j: nat :: j < |st.scores| ==> j in st.picks
  {
    forall j: nat | j < |st.scores| ensures j in st.picks {
      if j !in st.picks {
        DistinctMissing(st.picks, |st.scores|, j);
      }
    }
  }

  /** Distinct numbers below n that miss one of them are fewer than n. */
  lemma {:induction false} DistinctMissing(picks: seq<nat>, n: nat, j: nat)
    requires Distinct(picks, n) && j < n && j !in picks
    ensures |picks| < n
  {
    var moved := seq(|picks|, t requires 0 <= t < |picks| => if picks[t] == n - 1 then j else picks[t]);
    if n - 1 in picks {
      forall t, u | 0 <= t < u < |moved| ensures moved[t] != moved[u] {
        assert picks[t] != picks[u] && picks[t] != j && picks[u] != j;
      }
    }
    DistinctBounded(moved, n - 1);
  }

  lemma {:induction false} DistinctBounded(picks: seq<nat>, n: nat)
    requires Distinct(picks, n)
    ensures |picks| <= n
    decreases n
  {
    if picks != [] {
      assert picks[0] < n;
      if n - 1 in picks {
        var k :| 0 <= k < |picks| && picks[k] == n - 1;
        DistinctBounded(picks[..k] + picks[k + 1..], n - 1);
      } else {
        DistinctBounded(picks, n - 1);
      }
    }
  }

  /** Scores that cannot break the order of the picks: no negative box is picked while a second one waits.
      In the sorted boxes one score decides. */
  predicate Safe(s: seq<BBox>, n: nat, rounds: nat)
    requires rounds <= n <= |s|
  {
    rounds == 0 || n < 2 || s[if rounds < n then rounds - 1 else n - 2].score >= 0.0
  }

  ghost predicate SignsKept(s: seq<BBox>, st: State) {
    |st.scores| <= |s| && forall j: nat :: j < |st.scores| ==> (st.scores[j] >= 0.0 <==> s[j].score >= 0.0)
  }

  lemma BestLeads(st: State)
    requires Best(st) != -1
    ensures forall j: nat :: j < |st.scores| && j !in st.picks && j != Best(st) ==> Leads(st.scores, Best(st), j)
  {
    BestIsFirstHighest(st, |st.scores|);
  }

  lemma SafePick(s: seq<BBox>, st: State, rounds: nat)
    requires |st.picks| < rounds <= |st.scores| <= |s| && Descending(s, Score) && Safe(s, |st.scores|, rounds)
    requires SignsKept(s, st) && Best(st) != -1
    ensures GoodPick(st, Best(st))
  {
    var n, c, b := |st.scores|, |st.picks|, Best(st);
    BestLeads(st);
    if st.scores[b] < 0.0 && c + 1 < n {
      forall j: nat | j < c + 1 ensures j in st.picks {
        assert Score(s[j]) >= Score(s[if rounds < n then rounds - 1 else n - 2]);
        assert st.scores[j] >= 0.0;
      }
      AllPicked(st.picks, c + 1);
    }
  }

  lemma OneMoreInOrder(s: seq<BBox>, n: nat, p: Config, c: nat)
    requires Damping(p.decay) && c < n <= |s|
    requires InOrder(After(s, n, p, c).st) && SignsKept(s, After(s, n, p, c).st)
    requires GoodPick(After(s, n, p, c).st, Best(After(s, n, p, c).st))
    ensures InOrder(After(s, n, p, c + 1).st) && SignsKept(s, After(s, n, p, c + 1).st)
  {
    AfterIsReady(s, n, p, c);
    var st := After(s, n, p, c).st;
    RoundLowersScores(s, p, st);
    GoodPickStaysInOrder(st, Next(s, p, st), Best(st));
  }

  lemma StartInOrder(s: seq<BBox>, n: nat, p: Config)
    requires n <= |s|
    ensures InOrder(After(s, n, p, 0).st) && SignsKept(s, After(s, n, p, 0).st)
  {
  }

  lemma {:induction false} SafeRunInOrder(s: seq<BBox>, n: nat, p: Config, rounds: nat, c: nat)
    requires Damping(p.decay) && Descending(s, Score) && c <= rounds <= n <= |s| && Safe(s, n, rounds)
    ensures InOrder(After(s, n, p, c).st) && SignsKept(s, After(s, n, p, c).st)
  {
    hide AfterRound;
    hide Next;
    hide InOrder;
    StartInOrder(s, n, p);
    if c > 0 {
      SafeRunInOrder(s, n, p, rounds, c - 1);
      AfterIsReady(s, n, p, c - 1);
      var st := After(s, n, p, c - 1).st;
      RoundFindsBox(st);
      SafePick(s, st, rounds);
      OneMoreInOrder(s, n, p, c - 1);
    }
  }

  lemma {:induction false} VotingRunInOrder(s: seq<BBox>, n: nat, p: Config, c: nat)
    requires Damping(p.decay) && p.voting && c <= n <= |s| && After(s, n, p, c).passed
    ensures InOrder(After(s, n, p, c).st) && SignsKept(s, After(s, n, p, c).st)
  {
    hide AfterRound;
    hide Next;
    hide InOrder;
    StartInOrder(s, n, p);
    if c > 0 {
      VotingRunInOrder(s, n, p, c - 1);
      AfterIsReady(s, n, p, c - 1);
      var st := After(s, n, p, c - 1).st;
      RoundFindsBox(st);
      BestLeads(st);
      OneMoreInOrder(s, n, p, c - 1);
    }
  }

  /** The final sort puts pick k at place k, and every unpicked box behind all picks. */
  ghost predicate PrefixIsPicks(g: Progress, n: nat)
    requires n == |g.st.scores| <= |g.boxes|
  {
    && (forall k :: 0 <= k < |g.st.picks| ==>
          && g.st.picks[k] < n
          && Rank(g.boxes[..n], Score, g.st.picks[k]) == k)
    && (forall j: nat :: j < n && j !in g.st.picks ==> Rank(g.boxes[..n], Score, j) >= |g.st.picks|)
  }

  ghost function Earlier(picks: seq<nat>, k: nat): set<nat>
    requires k <= |picks|
  {
    if k == 0 then {} else Earlier(picks, k - 1) + {picks[k - 1]}
  }

  lemma {:induction false} EarlierHas(picks: seq<nat>, k: nat, t: nat)
    requires t < k <= |picks|
    ensures picks[t] in Earlier(picks, k)
  {
    if t < k - 1 {
      EarlierHas(picks, k - 1, t);
    }
  }

  lemma {:induction false} EarlierFrom(picks: seq<nat>, k: nat, j: nat) returns (t: nat)
    requires k <= |picks| && j in Earlier(picks, k)
    ensures t < k && picks[t] == j
  {
    if j == picks[k - 1] {
      t := k - 1;
    } else {
      t := EarlierFrom(picks, k - 1, j);
    }
  }

  lemma {:induction false} EarlierCard(picks: seq<nat>, n: nat, k: nat)
    requires Distinct(picks, n) && k <= |picks|
    ensures |Earlier(picks, k)| == k
  {
    if k > 0 {
      EarlierCard(picks, n, k - 1);
      if picks[k - 1] in Earlier(picks, k - 1) {
        var t := EarlierFrom(picks, k - 1, picks[k - 1]);
      }
    }
  }

  /** The boxes that beat pick k are the earlier picks. */
  lemma PickWinners(t: seq<BBox>, st: State, k: nat)
    requires InOrder(st) && |t| == |st.scores| && k < |st.picks|
    requires forall j: nat :: j < |t| ==> Score(t[j]) == st.scores[j]
    ensures Winners(t, Score, st.picks[k]) == Earlier(st.picks, k)
  {
    forall j: nat | j in Winners(t, Score, st.picks[k]) ensures j in Earlier(st.picks, k) {
      assert !Leads(st.scores, st.picks[k], j) && j != st.picks[k];
      assert j in st.picks;
      var u: nat :| u < |st.picks| && st.picks[u] == j;
      EarlierHas(st.picks, k, u);
    }
    forall j: nat | j in Earlier(st.picks, k) ensures j in Winners(t, Score, st.picks[k]) {
      var u := EarlierFrom(st.picks, k, j);
      assert Leads(st.scores, st.picks[u], st.picks[k]);
    }
  }

  lemma UnpickedBehind(t: seq<BBox>, st: State, j: nat)
    requires InOrder(st) && |t| == |st.scores| && j < |t| && j !in st.picks
    requires forall i: nat :: i < |t| ==> Score(t[i]) == st.scores[i]
    ensures Rank(t, Score, j) >= |st.picks|
  {
    var c := |st.picks|;
    forall i: nat | i in Earlier(st.picks, c) ensures i in Winners(t, Score, j) {
      var u := EarlierFrom(st.picks, c, i);
      assert Leads(st.scores, st.picks[u], j);
    }
    EarlierCard(st.picks, |t|, c);
    SubsetCard(Earlier(st.picks, c), Winners(t, Score, j));
  }

  lemma OrderGivesPrefix(s: seq<BBox>, n: nat, g: Progress)
    requires Holds(g.boxes, s, n, g.st) && InOrder(g.st)
    ensures PrefixIsPicks(g, n)
  {
    var t := g.boxes[..n];
    forall k | 0 <= k < |g.st.picks| ensures Rank(t, Score, g.st.picks[k]) == k {
      PickWinners(t, g.st, k);
      EarlierCard(g.st.picks, n, k);
    }
    forall j: nat | j < n && j !in g.st.picks ensures Rank(t, Score, j) >= |g.st.picks| {
      UnpickedBehind(t, g.st, j);
    }
  }

  /** What PrefixIsPicks means for the array and its mask. */
  lemma PrefixInArray(g: Progress, n: nat)
    requires n == |g.st.scores| <= |g.boxes| && PrefixIsPicks(g, n)
    ensures var f := Finished(g.boxes, n);
            && (forall k :: 0 <= k < |g.st.picks| && k < n ==> f[k] == g.boxes[g.st.picks[k]])
            && (forall j: nat :: j < n && j !in g.st.picks ==>
                  exists k :: |g.st.picks| <= k < n && f[k] == g.boxes[j])
  {
    var t := g.boxes[..n];
    SortIsDescending(t, Score);
    forall k | 0 <= k < |g.st.picks| && k < n ensures Finished(g.boxes, n)[k] == g.boxes[g.st.picks[k]] {
      SortPlacesByRank(t, Score, g.st.picks[k]);
    }
    forall j: nat | j < n && j !in g.st.picks
      ensures exists k :: |g.st.picks| <= k < n && Finished(g.boxes, n)[k] == g.boxes[j]
    {
      SortPlacesByRank(t, Score, j);
      assert Finished(g.boxes, n)[Rank(t, Score, j)] == g.boxes[j];
    }
  }

  /** Boxes past consider_size are never touched. */
  lemma {:induction false} TailUntouched(s: seq<BBox>, n: nat, p: Config, c: nat)
    requires n <= |s|
    ensures After(s, n, p, c).boxes[n..] == s[n..]
    ensures Finished(After(s, n, p, c).boxes, n)[n..] == s[n..]
  {
    if c > 0 {
      TailUntouched(s, n, p, c - 1);
    }
  }

  /** The final sort puts the picked boxes, in whatever order, before all others: the mask marks exactly the picks. */
  ghost predicate PrefixHoldsPicks(g: Progress, n: nat)
    requires n == |g.st.scores| <= |g.boxes|
  {
    forall j: nat :: j < n ==> (j in g.st.picks <==> Rank(g.boxes[..n], Score, j) < |g.st.picks|)
  }

  lemma PrefixInOrderHoldsPicks(g: Progress, n: nat)
    requires n == |g.st.scores| <= |g.boxes| && PrefixIsPicks(g, n)
    ensures PrefixHoldsPicks(g, n)
  {
    hide Rank;
  }

  /** Entry k of the array at the end is box j, and it is marked exactly if box j was picked. */
  ghost predicate EntryOf(g: Progress, n: nat, j: nat, k: nat)
    requires n == |g.st.scores| <= |g.boxes| && j < n && k < n
  {
    Finished(g.boxes, n)[k] == g.boxes[j] && (j in g.st.picks <==> k < |g.st.picks|)
  }

  lemma BoxIsMarked(g: Progress, n: nat, j: nat)
    requires n == |g.st.scores| <= |g.boxes| && PrefixHoldsPicks(g, n) && j < n
    ensures Rank(g.boxes[..n], Score, j) < n && EntryOf(g, n, j, Rank(g.boxes[..n], Score, j))
  {
    hide Rank;
    hide StableSort;
    SortPlacesByRank(g.boxes[..n], Score, j);
  }

  /** What PrefixHoldsPicks means for the array: every considered box has an entry, marked exactly if it was picked,
      and every entry below consider_size is some considered box. */
  lemma MarkedInArray(g: Progress, n: nat, i: nat) returns (j: nat, k: nat)
    requires n == |g.st.scores| <= |g.boxes| && PrefixHoldsPicks(g, n) && i < n
    ensures j < n && EntryOf(g, n, j, i)
    ensures k < n && EntryOf(g, n, i, k)
  {
    hide Rank;
    hide EntryOf;
    hide PrefixHoldsPicks;
    j := RankIsOnto(g.boxes[..n], Score, i);
    k := Rank(g.boxes[..n], Score, i);
    BoxIsMarked(g, n, j);
    BoxIsMarked(g, n, i);
  }

  /** Without negative scores among the deciding ones, the mask marks exactly the picks, in pick order. */
  lemma SafeRunsMarkPicks(s: seq<BBox>, n: nat, p: Config, rounds: nat)
    requires Damping(p.decay) && Descending(s, Score) && rounds <= n <= |s| && Safe(s, n, rounds)
    ensures PrefixIsPicks(After(s, n, p, rounds), n)
  {
    SafeRunInOrder(s, n, p, rounds, rounds);
    AfterIsReady(s, n, p, rounds);
    OrderGivesPrefix(s, n, After(s, n, p, rounds));
  }

  /** A voting run that passes its checks always marks exactly its picks, in pick order. */
  lemma VotingRunsMarkPicks(s: seq<BBox>, n: nat, p: Config, rounds: nat)
    requires Damping(p.decay) && p.voting && rounds <= n <= |s| && After(s, n, p, rounds).passed
    ensures PrefixIsPicks(After(s, n, p, rounds), n)
  {
    VotingRunInOrder(s, n, p, rounds);
    AfterIsReady(s, n, p, rounds);
    OrderGivesPrefix(s, n, After(s, n, p, rounds));
  }

  // ----- unsafe scores break the order, or the mask, for some boxes

  /** Boxes with the scores of s in a row, all apart except that box q + 1 lies on box q. */
  function Row(s: seq<BBox>, q: nat): (r: seq<BBox>)
    ensures |r| == |s|
  {
    seq(|s|, i requires 0 <= i < |s| =>
      var x := 4.0 * ((if i == q + 1 then q else i) as real);
      BBox(s[i].score, x, 0.0, x + 1.0, 1.0, i))
  }

  lemma RowApart(s: seq<BBox>, q: nat, off: real, i: nat, j: nat)
    requires i < |s| && j < |s| && i != j && 0.0 <= off <= 1.0
    ensures Intersects(Row(s, q)[i], Row(s, q)[j], off) <==> (i == q && j == q + 1) || (i == q + 1 && j == q)
  {
    var a, b := if i == q + 1 then q else i, if j == q + 1 then q else j;
    if a < b {
      assert (b as real) - (a as real) >= 1.0;
    } else if b < a {
      assert (a as real) - (b as real) >= 1.0;
    }
  }

  /** Boxes q and q + 1 overlap fully. */
  lemma RowOverlap(s: seq<BBox>, q: nat, off: real)
    requires q + 1 < |s| && 0.0 <= off <= 1.0
    ensures Intersects(Row(s, q)[q], Row(s, q)[q + 1], off)
    ensures Iou(Row(s, q)[q], Row(s, q)[q + 1], off) == 1.0
  {
    UnitOverlap(Row(s, q)[q], Row(s, q)[q + 1], off);
  }

  lemma UnitOverlap(a: BBox, b: BBox, off: real)
    requires SameCorners(a, b) && a.x2 == a.x1 + 1.0 && a.y2 == a.y1 + 1.0 && 0.0 <= off <= 1.0
    ensures Intersects(a, b, off) && Iou(a, b, off) == 1.0
  {
    var w := 1.0 + off;
    assert OverlapWidth(a, b, off) == w && OverlapHeight(a, b, off) == w;
    assert a.x2 - a.x1 + off == w && a.y2 - a.y1 + off == w;
    hide Times;
    assert Area(a, off) == Times(w, w) && Area(b, off) == Times(w, w) && OverlapArea(a, b, off) == Times(w, w);
    QuotientOfItself(w);
  }

  lemma QuotientOfItself(w: real)
    requires w > 0.0
    ensures Times(w, w) > 0.0 && Times(w, w) / (Times(w, w) + Times(w, w) - Times(w, w)) == 1.0
  {
    ProductMonotone(w, w, w, w);
    SelfQuotient(Times(w, w));
  }

  lemma SelfQuotient(x: real)
    requires x > 0.0
    ensures x / (x + x - x) == 1.0
  {
    assert x + x - x == x;
  }

  /** The decay that lifts box q + 1 above box q once q was picked. */
  function Lift(s: seq<BBox>, q: nat): real
    requires q + 1 < |s| && s[q + 1].score < 0.0
  {
    s[q].score / (2.0 * s[q + 1].score)
  }

  lemma LiftLifts(s: seq<BBox>, q: nat)
    requires q + 1 < |s| && s[q + 1].score <= s[q].score < 0.0
    ensures 0.0 < Lift(s, q) < 1.0
    ensures Times(s[q + 1].score, Lift(s, q)) == s[q].score / 2.0
  {
    var a, b := -s[q].score, -s[q + 1].score;
    assert Lift(s, q) == a / (2.0 * b);
    QuotientInUnit(a, 2.0 * b);
    var d := Lift(s, q);
    assert d * (2.0 * b) == a;
  }

  /** The state of the row run: boxes 0..q are picked in turn, the pick of q lifts box q + 1. */
  ghost predicate RowState(s: seq<BBox>, n: nat, q: nat, c: nat, st: State) {
    && n == |st.scores| <= |s| && q + 1 < n && |st.picks| == c
    && (forall t :: 0 <= t < c && t <= q ==> st.picks[t] == t)
    && (forall j: nat :: j < n ==>
          st.scores[j] == if c > q && j == q + 1 then s[q].score / 2.0 else s[j].score)
  }

  /** Round c of the row run picks box c while c is at most q. */
  lemma RowPick(s: seq<BBox>, n: nat, q: nat, c: nat, st: State)
    requires RowState(s, n, q, c, st) && Best(st) != -1 && Descending(s, Score)
    ensures c <= q ==> Best(st) == c
    ensures c > q ==> q in st.picks
  {
    var b := Best(st);
    BestIsFirstHighest(st, n);
    if c <= q {
      forall j: nat | j < n ensures j in st.picks <==> j < c {
        if j < c { assert st.picks[j] == j; }
      }
      assert Score(s[c]) >= Score(s[b]) && st.scores[c] == s[c].score;
      assert b == c;
    } else {
      assert st.picks[q] == q;
    }
  }

  lemma RowStep(s: seq<BBox>, n: nat, p: Config, q: nat, c: nat, st: State)
    requires RowState(s, n, q, c, st) && Best(st) != -1 && Distinct(st.picks, n)
    requires Descending(s, Score) && s[q + 1].score <= s[q].score < 0.0
    requires p.decay(1.0) == Lift(s, q)
    ensures RowState(s, n, q, c + 1, Next(Row(s, q), p, st))
  {
    hide Iou;
    hide Times;
    hide Row;
    hide Lift;
    hide Intersects;
    hide Descending;
    var b, r, st' := Best(st), Row(s, q), Next(Row(s, q), p, st);
    RowPick(s, n, q, c, st);
    LiftLifts(s, q);
    RowOverlap(s, q, p.Off());
    hide Best;
    forall j: nat | j < n
      ensures st'.scores[j] == if c + 1 > q && j == q + 1 then s[q].score / 2.0 else s[j].score
    {
      assert st'.scores[j] == Decayed(r, p, st, b, j);
      if j != b {
        RowApart(s, q, p.Off(), b, j);
      }
    }
  }

  lemma {:induction false} RowRun(s: seq<BBox>, n: nat, p: Config, q: nat, c: nat)
    requires c <= n <= |s| && q + 1 < n && Descending(s, Score) && s[q + 1].score <= s[q].score < 0.0
    requires p.decay(1.0) == Lift(s, q)
    ensures RowState(s, n, q, c, After(Row(s, q), n, p, c).st)
  {
    hide Next;
    hide AfterRound;
    if c > 0 {
      RowRun(s, n, p, q, c - 1);
      AfterIsReady(Row(s, q), n, p, c - 1);
      var st := After(Row(s, q), n, p, c - 1).st;
      RoundFindsBox(st);
      RowStep(s, n, p, q, c - 1, st);
    }
  }

  /** A box with q boxes before it that are no lower and a higher one right after it is out-ranked q + 1 times. */
  lemma OutRanked(t: seq<BBox>, q: nat)
    requires q + 1 < |t| && Score(t[q + 1]) > Score(t[q])
    requires forall j :: 0 <= j < q ==> Score(t[j]) >= Score(t[q])
    ensures Rank(t, Score, q) >= q + 1
  {
    var ids := seq(q, i requires 0 <= i < q => i) + [q + 1];
    forall j: nat | j in Earlier(ids, q + 1) ensures j in Winners(t, Score, q) {
      var i := EarlierFrom(ids, q + 1, j);
    }
    EarlierCard(ids, q + 2, q + 1);
    SubsetCard(Earlier(ids, q + 1), Winners(t, Score, q));
  }

  /** At the end of the row run box q, picked in round q, is behind box q + 1. If round q was the last one, box q is
      not among the marked ones. */
  lemma RowMisplaced(s: seq<BBox>, n: nat, p: Config, q: nat, c: nat)
    requires q < c <= n <= |s| && q + 1 < n && Descending(s, Score) && s[q + 1].score <= s[q].score < 0.0
    requires p.decay(1.0) == Lift(s, q)
    ensures !PrefixIsPicks(After(Row(s, q), n, p, c), n)
    ensures c == q + 1 ==> !PrefixHoldsPicks(After(Row(s, q), n, p, c), n)
  {
    hide Next;
    hide AfterRound;
    hide After;
    hide Rank;
    hide Row;
    RowRun(s, n, p, q, c);
    AfterIsReady(Row(s, q), n, p, c);
    var g := After(Row(s, q), n, p, c);
    var t := g.boxes[..n];
    assert forall j: nat :: j < n ==> Score(t[j]) == g.st.scores[j];
    assert forall j: nat :: j < q ==> Score(s[j]) >= Score(s[q]);
    OutRanked(t, q);
    assert g.st.picks[q] == q;
  }

  predicate SameScores(s: seq<BBox>, r: seq<BBox>) {
    |s| == |r| && forall i :: 0 <= i < |s| ==> r[i].score == s[i].score
  }

  /** decays(std)(o) stands for exp(-o * o / std): every positive std damps, and at a full overlap every factor below
      one is reached by some std. */
  ghost predicate LikeExp(decays: real -> real -> real) {
    && (forall std: real :: std > 0.0 ==> Damping(decays(std)))
    && (forall d: real :: 0.0 < d < 1.0 ==> IsReached(decays, d))
  }

  ghost predicate IsReached(decays: real -> real -> real, d: real) {
    exists std: real :: std > 0.0 && decays(std)(1.0) == d
  }

  /** A run without voting over boxes with these scores, for some iou_std. */
  ghost predicate SilentRun(s: seq<BBox>, r: seq<BBox>, p: Config, decays: real -> real -> real, std: real) {
    SameScores(s, r) && std > 0.0 && p.decay == decays(std) && !p.voting
  }

  /** Whatever the corners and iou_std, the mask of a run without voting marks the picks. */
  ghost predicate AlwaysMarksPicks(s: seq<BBox>, n: nat, rounds: nat, decays: real -> real -> real)
    requires n <= |s|
  {
    forall r: seq<BBox>, p: Config, std: real :: SilentRun(s, r, p, decays, std) ==>
      PrefixHoldsPicks(After(r, n, p, rounds), n)
  }

  /** Whatever the corners and iou_std, the picks end up first and in pick order. */
  ghost predicate AlwaysInPickOrder(s: seq<BBox>, n: nat, rounds: nat, decays: real -> real -> real)
    requires n <= |s|
  {
    forall r: seq<BBox>, p: Config, std: real :: SilentRun(s, r, p, decays, std) ==>
      PrefixIsPicks(After(r, n, p, rounds), n)
  }

  /** Scores that cannot break the mask: all considered boxes are picked, or the last of the sorted scores that are as
      many as the picks is not negative. */
  predicate SafeToMark(s: seq<BBox>, n: nat, rounds: nat)
    requires rounds <= n <= |s|
  {
    rounds == 0 || rounds == n || s[rounds - 1].score >= 0.0
  }

  lemma SafeRunsMarkSet(s: seq<BBox>, n: nat, p: Config, rounds: nat)
    requires Damping(p.decay) && Descending(s, Score) && rounds <= n <= |s| && SafeToMark(s, n, rounds)
    ensures PrefixHoldsPicks(After(s, n, p, rounds), n)
  {
    hide After;
    if Safe(s, n, rounds) {
      SafeRunsMarkPicks(s, n, p, rounds);
      PrefixInOrderHoldsPicks(After(s, n, p, rounds), n);
    } else {
      var g := After(s, n, p, rounds);
      AfterIsReady(s, n, p, rounds);
      NoneLeft(g.st);
      forall j: nat | j < n ensures Rank(g.boxes[..n], Score, j) < n {
        SortPlacesByRank(g.boxes[..n], Score, j);
      }
    }
  }

  /** The run that lifts box q + 1 above box q, for the iou_std that does so. */
  lemma RowIsSilentRun(s: seq<BBox>, q: nat, topN: int, decays: real -> real -> real) returns (p: Config, std: real)
    requires LikeExp(decays) && q + 1 < |s| && s[q + 1].score <= s[q].score < 0.0
    ensures SilentRun(s, Row(s, q), p, decays, std) && p.decay(1.0) == Lift(s, q)
  {
    LiftLifts(s, q);
    assert IsReached(decays, Lift(s, q));
    std :| std > 0.0 && decays(std)(1.0) == Lift(s, q);
    p := Config(decays(std), topN, 0, false, false, 0.0);
  }

  /** The mask marks exactly the picked boxes, for every geometry and iou_std, exactly when the scores are
      SafeToMark. */
  lemma MarksPicksIffSafe(s: seq<BBox>, n: nat, rounds: nat, decays: real -> real -> real)
    requires LikeExp(decays) && Descending(s, Score) && rounds <= n <= |s|
    ensures AlwaysMarksPicks(s, n, rounds, decays) <==> SafeToMark(s, n, rounds)
  {
    hide PrefixHoldsPicks;
    hide Row;
    hide After;
    if SafeToMark(s, n, rounds) {
      forall r: seq<BBox>, p: Config, std: real | SilentRun(s, r, p, decays, std)
        ensures PrefixHoldsPicks(After(r, n, p, rounds), n)
      {
        SameScoresSameOrder(s, r);
        SafeRunsMarkSet(r, n, p, rounds);
      }
    } else {
      var q := rounds - 1;
      assert Score(s[q]) >= Score(s[q + 1]);
      var p, std := RowIsSilentRun(s, q, rounds, decays);
      RowMisplaced(s, n, p, q, rounds);
    }
  }

  /** The picks are first and in pick order, for every geometry and iou_std, exactly when the scores are Safe. */
  lemma PicksInOrderIffSafe(s: seq<BBox>, n: nat, rounds: nat, decays: real -> real -> real)
    requires LikeExp(decays) && Descending(s, Score) && rounds <= n <= |s|
    ensures AlwaysInPickOrder(s, n, rounds, decays) <==> Safe(s, n, rounds)
  {
    hide PrefixIsPicks;
    hide Row;
    hide After;
    if Safe(s, n, rounds) {
      forall r: seq<BBox>, p: Config, std: real | SilentRun(s, r, p, decays, std)
        ensures PrefixIsPicks(After(r, n, p, rounds), n)
      {
        SameScoresSameOrder(s, r);
        SafeRunsMarkPicks(r, n, p, rounds);
      }
    } else {
      var q := if rounds < n then rounds - 1 else n - 2;
      assert Score(s[q]) >= Score(s[q + 1]);
      var p, std := RowIsSilentRun(s, q, rounds, decays);
      RowMisplaced(s, n, p, q, rounds);
    }
  }

  lemma SameScoresSameOrder(s: seq<BBox>, r: seq<BBox>)
    requires SameScores(s, r) && Descending(s, Score)
    ensures Descending(r, Score)
  {
    forall i, j | 0 <= i < j < |r| ensures Score(r[i]) >= Score(r[j]) {
      assert Score(s[i]) >= Score(s[j]);
    }
  }

  // ----- voting decides nothing

  /** Both runs pick by the same rule; how they vote may differ. */
  ghost predicate SameRule(p: Config, q: Config) {
    p.decay == q.decay && p.topN == q.topN && p.maxCandidates == q.maxCandidates && p.addOne == q.addOne
  }

  /** Picks and decayed scores do not depend on voting, although the corners are voted in place. */
  lemma {:induction false} PicksIgnoreVoting(s: seq<BBox>, n: nat, p: Config, q: Config, c: nat)
    requires n <= |s| && SameRule(p, q)
    ensures After(s, n, p, c).st == After(s, n, q, c).st
  {
    if c > 0 {
      PicksIgnoreVoting(s, n, p, q, c - 1);
      var st := After(s, n, p, c - 1).st;
      assert forall j: nat :: Best(st) != -1 && j < n ==>
        Decayed(s, p, st, Best(st), j) == Decayed(s, q, st, Best(st), j);
      assert Next(s, p, st).scores == Next(s, q, st).scores;
    }
  }

  /** With no negative score no CHECK_GE can fail. */
  lemma {:induction false} NonNegativeScoresPass(s: seq<BBox>, n: nat, p: Config, c: nat)
    requires n <= |s| && Damping(p.decay) && forall j: nat :: j < n ==> s[j].score >= 0.0
    ensures After(s, n, p, c).passed
    ensures forall j: nat :: j < n ==> After(s, n, p, c).st.scores[j] >= 0.0
  {
    hide Next;
    hide AfterRound;
    if c > 0 {
      NonNegativeScoresPass(s, n, p, c - 1);
      var st := After(s, n, p, c - 1).st;
      RoundLowersScores(s, p, st);
      if Best(st) != -1 {
        VotersNonNegative(s, p, st, Best(st), n);
      }
    }
  }

  lemma {:induction false} VotersNonNegative(s: seq<BBox>, p: Config, st: State, b: nat, m: nat)
    requires b < |st.scores| <= |s| && m <= |st.scores| && b == Best(st) && Damping(p.decay)
    requires forall j: nat :: j < |st.scores| ==> st.scores[j] >= 0.0
    ensures VotersPass(s, p, st, b, m)
  {
    if m > 0 {
      VotersNonNegative(s, p, st, b, m - 1);
      RoundLowersScores(s, p, st);
      assert Next(s, p, st).scores[m - 1] == Decayed(s, p, st, b, m - 1);
    }
  }

  // ----- voting is a weighted mean

  ghost predicate Contributes(s: seq<BBox>, p: Config, st: State, b: nat, k: nat)
    requires |st.scores| <= |s| && b < |st.scores| && k < |st.scores|
  {
    k == b || VotesFor(s, p, st, b, k)
  }

  lemma {:induction false} VotesBetween(s: seq<BBox>, p: Config, st: State, b: nat, m: nat, lo: BBox, hi: BBox)
    requires b < |st.scores| <= |s| && m <= |st.scores| && p.voting
    requires st.scores[b] >= 0.0 && VotersPass(s, p, st, b, m)
    requires forall k: nat :: k < |st.scores| && Contributes(s, p, st, b, k) ==> CornersBetween(s[k], lo, hi)
    ensures WeightedBetween(Votes(s, p, st, b, m), lo, hi)
  {
    if m == 0 {
      assert Contributes(s, p, st, b, b);
      OpeningBetween(s[b].(score := st.scores[b]), lo, hi);
    } else {
      VotesBetween(s, p, st, b, m - 1, lo, hi);
      if VotesFor(s, p, st, b, m - 1) {
        assert Contributes(s, p, st, b, m - 1) && !NegativeVoter(s, p, st, b, m - 1);
        CastStaysBetween(Votes(s, p, st, b, m - 1), s[m - 1], Decayed(s, p, st, b, m - 1), lo, hi);
      }
    }
  }

  /** The corners a pick is left with lie between any bounds that hold for its contributors. */
  lemma PickedCornersBetween(s: seq<BBox>, p: Config, st: State, b: nat, lo: BBox, hi: BBox)
    requires b < |st.scores| <= |s| && b == Best(st) && p.voting && RoundPasses(s, p, st)
    requires forall k: nat :: k < |st.scores| && Contributes(s, p, st, b, k) ==> CornersBetween(s[k], lo, hi)
    ensures CornersBetween(Picked(s, p, st, b), lo, hi)
  {
    VotesBetween(s, p, st, b, |st.scores|, lo, hi);
    assert Contributes(s, p, st, b, b);
    VotedStaysBetween(s[b].(score := st.scores[b]), Votes(s, p, st, b, |st.scores|), lo, hi);
  }

  lemma {:induction false} VotesInOrder(s: seq<BBox>, p: Config, st: State, b: nat, m: nat)
    requires b < |st.scores| <= |s| && m <= |st.scores| && p.voting
    requires st.scores[b] >= 0.0 && VotersPass(s, p, st, b, m)
    requires forall k: nat :: k < |st.scores| && Contributes(s, p, st, b, k) ==> Proper(s[k])
    ensures SumsInOrder(Votes(s, p, st, b, m))
  {
    if m == 0 {
      assert Contributes(s, p, st, b, b);
      OpeningInOrder(s[b].(score := st.scores[b]));
    } else {
      VotesInOrder(s, p, st, b, m - 1);
      if VotesFor(s, p, st, b, m - 1) {
        assert Contributes(s, p, st, b, m - 1) && !NegativeVoter(s, p, st, b, m - 1);
        CastKeepsOrder(Votes(s, p, st, b, m - 1), s[m - 1], Decayed(s, p, st, b, m - 1));
      }
    }
  }

  /** Proper contributors leave a proper pick. */
  lemma PickedIsProper(s: seq<BBox>, p: Config, st: State, b: nat)
    requires b < |st.scores| <= |s| && b == Best(st) && p.voting && RoundPasses(s, p, st)
    requires forall k: nat :: k < |st.scores| && Contributes(s, p, st, b, k) ==> Proper(s[k])
    ensures Proper(Picked(s, p, st, b))
  {
    VotesInOrder(s, p, st, b, |st.scores|);
    assert Contributes(s, p, st, b, b);
    VotedIsProper(s[b].(score := st.scores[b]), Votes(s, p, st, b, |st.scores|));
  }

  lemma RoundKeepsPick(t: seq<BBox>, s: seq<BBox>, n: nat, p: Config, st: State, b: nat)
    requires Holds(t, s, n, st) && b < n && b in st.picks && Best(st) != -1
    ensures AfterRound(t, s, p, st)[b] == t[b] && b in Next(s, p, st).picks
  {
    assert t[b].(score := t[b].score) == t[b];
  }

  lemma RoundLeavesPick(s: seq<BBox>, p: Config, g: Progress)
    requires |g.st.scores| <= |s| == |g.boxes| && Best(g.st) != -1
    ensures OneRound(s, p, g).boxes[Best(g.st)] == Picked(s, p, g.st, Best(g.st))
    ensures Best(g.st) in OneRound(s, p, g).st.picks
  {
  }

  /** A pick keeps the box its round left behind: later rounds change neither its score nor its corners. */
  lemma {:induction false} PicksStay(s: seq<BBox>, n: nat, p: Config, c: nat, m: nat)
    requires c < m <= n <= |s|
    ensures var st := After(s, n, p, c).st;
            && 0 <= Best(st) < n && Best(st) in After(s, n, p, m).st.picks
            && After(s, n, p, m).boxes[Best(st)] == Picked(s, p, st, Best(st))
  {
    hide Picked;
    hide AfterRound;
    hide Next;
    var g := After(s, n, p, m - 1);
    AfterIsReady(s, n, p, m - 1);
    RoundFindsBox(g.st);
    if c + 1 < m {
      PicksStay(s, n, p, c, m - 1);
      RoundKeepsPick(g.boxes, s, n, p, g.st, Best(After(s, n, p, c).st));
    } else {
      RoundLeavesPick(s, p, g);
    }
  }
}
