/** The stable descending sort behind std::stable_sort and Python's list.sort(reverse=True).
    Both are library calls in the program; here the sort is an insertion sort on values, and it is
    specified completely by Rank: the position of an element is the number of elements that beat it. */
module StableSorting {

  ghost predicate Descending<T>(s: seq<T>, key: T -> real) {
    forall i, j :: 0 <= i < j < |s| ==> key(s[i]) >= key(s[j])
  }

  /** Element j comes out before element i: a larger key, or the same key and an earlier place. */
  predicate Beats<T>(s: seq<T>, key: T -> real, j: nat, i: nat)
    requires i < |s| && j < |s|
  {
    key(s[j]) > key(s[i]) || (key(s[j]) == key(s[i]) && j < i)
  }

  ghost function Winners<T>(s: seq<T>, key: T -> real, i: nat): set<nat>
    requires i < |s|
  {
    set j: nat | j < |s| && Beats(s, key, j, i)
  }

  ghost function Rank<T>(s: seq<T>, key: T -> real, i: nat): nat
    requires i < |s|
  {
    |Winners(s, key, i)|
  }

  function Insert<T>(x: T, s: seq<T>, key: T -> real): seq<T> {
    if s == [] then [x]
    else if key(s[0]) > key(x) then [s[0]] + Insert(x, s[1..], key)
    else [x] + s
  }

  function StableSort<T>(s: seq<T>, key: T -> real): seq<T> {
    if s == [] then [] else Insert(s[0], StableSort(s[1..], key), key)
  }

  /** Where Insert puts x: in front of the first element whose key is not larger. */
  lemma {:induction false} InsertSplits<T>(x: T, s: seq<T>, key: T -> real) returns (p: nat)
    requires Descending(s, key)
    ensures p <= |s| && Insert(x, s, key) == s[..p] + [x] + s[p..]
    ensures forall k :: 0 <= k < p ==> key(s[k]) > key(x)
    ensures forall k :: p <= k < |s| ==> key(s[k]) <= key(x)
  {
    if s == [] || key(s[0]) <= key(x) {
      p := 0;
    } else {
      var q := InsertSplits(x, s[1..], key);
      p := q + 1;
      assert s[..p] == [s[0]] + s[1..][..q];
      forall k | 0 <= k < p ensures key(s[k]) > key(x) {
        if k > 0 { assert s[k] == s[1..][k - 1]; }
      }
      forall k | p <= k < |s| ensures key(s[k]) <= key(x) {
        assert s[k] == s[1..][k - 1];
      }
    }
  }

  lemma InsertedDescending<T>(x: T, t: seq<T>, key: T -> real, p: nat, u: seq<T>)
    requires Descending(t, key) && p <= |t| && u == t[..p] + [x] + t[p..]
    requires forall k :: 0 <= k < p ==> key(t[k]) > key(x)
    requires forall k :: p <= k < |t| ==> key(t[k]) <= key(x)
    ensures Descending(u, key)
  {
    forall i, j | 0 <= i < j < |u| ensures key(u[i]) >= key(u[j]) {
      var before := if i < p then t[i] else if i == p then x else t[i - 1];
      var after := if j < p then t[j] else if j == p then x else t[j - 1];
      assert u[i] == before && u[j] == after;
    }
  }

  lemma {:induction false} SortIsDescending<T>(s: seq<T>, key: T -> real)
    ensures Descending(StableSort(s, key), key)
    ensures multiset(StableSort(s, key)) == multiset(s)
    ensures |StableSort(s, key)| == |s|
  {
    if s != [] {
      SortIsDescending(s[1..], key);
      var t := StableSort(s[1..], key);
      var p := InsertSplits(s[0], t, key);
      InsertedDescending(s[0], t, key, p, StableSort(s, key));
      assert t == t[..p] + t[p..];
      assert s == [s[0]] + s[1..];
    }
  }

  lemma ShiftedCard(a: set<nat>, b: set<nat>)
    requires forall j :: j in b <==> j > 0 && j - 1 in a
    ensures |a| == |b|
  {
    if a == {} {
      assert b == {};
    } else {
      var m :| m in a;
      assert m + 1 in b;
      ShiftedCard(a - {m}, b - {m + 1});
    }
  }

  lemma RankOfTail<T>(s: seq<T>, key: T -> real, i: nat)
    requires 0 < i < |s|
    ensures Rank(s, key, i) == Rank(s[1..], key, i - 1) + if key(s[0]) >= key(s[i]) then 1 else 0
  {
    var tail := Winners(s[1..], key, i - 1);
    var shifted := Winners(s, key, i) - {0};
    forall j: nat ensures j in shifted <==> j > 0 && j - 1 in tail {
      if 0 < j < |s| { assert s[j] == s[1..][j - 1]; }
    }
    ShiftedCard(tail, shifted);
  }

  lemma RankOfHead<T>(s: seq<T>, key: T -> real, t: seq<T>, p: nat)
    requires s != [] && |t| == |s| - 1 && multiset(t) == multiset(s[1..]) && p <= |t|
    requires forall k :: 0 <= k < p ==> key(t[k]) > key(s[0])
    requires forall k :: p <= k < |t| ==> key(t[k]) <= key(s[0])
    ensures Rank(s, key, 0) == p
  {
    var above := set j: nat | j < |s| - 1 && key(s[1..][j]) > key(s[0]);
    ShiftedCard(above, Winners(s, key, 0));
    CountAboveInSet(s[1..], key, key(s[0]), above);
    CountAbovePerm(s[1..], t, key, key(s[0]));
    CountAboveSplit(t, key, key(s[0]), p);
  }

  function CountAbove<T>(s: seq<T>, key: T -> real, v: real): nat {
    if s == [] then 0 else (if key(s[|s| - 1]) > v then 1 else 0) + CountAbove(s[..|s| - 1], key, v)
  }

  lemma {:induction false} CountAboveInSet<T>(s: seq<T>, key: T -> real, v: real, a: set<nat>)
    requires a == set j: nat | j < |s| && key(s[j]) > v
    ensures |a| == CountAbove(s, key, v)
  {
    if s != [] {
      var n := |s| - 1;
      var b := set j: nat | j < |s[..n]| && key(s[..n][j]) > v;
      CountAboveInSet(s[..n], key, v, b);
      forall j: nat ensures j in a <==> j in b || (j == n && key(s[n]) > v) {
        if j < n { assert s[j] == s[..n][j]; }
      }
      if key(s[n]) > v {
        assert a == b + {n};
      } else {
        assert a == b;
      }
    }
  }

  lemma {:induction false} CountAboveSplit<T>(s: seq<T>, key: T -> real, v: real, p: nat)
    requires p <= |s|
    requires forall k :: 0 <= k < p ==> key(s[k]) > v
    requires forall k :: p <= k < |s| ==> key(s[k]) <= v
    ensures CountAbove(s, key, v) == p
  {
    if s != [] {
      CountAboveSplit(s[..|s| - 1], key, v, if p == |s| then p - 1 else p);
    }
  }

  lemma {:induction false} CountAboveConcat<T>(s: seq<T>, t: seq<T>, key: T -> real, v: real)
    ensures CountAbove(s + t, key, v) == CountAbove(s, key, v) + CountAbove(t, key, v)
  {
    if t == [] {
      assert s + t == s;
    } else {
      assert (s + t)[..|s + t| - 1] == s + t[..|t| - 1];
      CountAboveConcat(s, t[..|t| - 1], key, v);
    }
  }

  lemma CountAboveWithout<T>(t: seq<T>, k: nat, key: T -> real, v: real)
    requires k < |t|
    ensures CountAbove(t, key, v) == CountAbove(t[..k] + t[k + 1..], key, v) + if key(t[k]) > v then 1 else 0
    ensures multiset(t) == multiset(t[..k] + t[k + 1..]) + multiset{t[k]}
  {
    assert t == t[..k] + [t[k]] + t[k + 1..];
    CountAboveConcat(t[..k] + [t[k]], t[k + 1..], key, v);
    CountAboveConcat(t[..k], [t[k]], key, v);
    CountAboveConcat(t[..k], t[k + 1..], key, v);
  }

  lemma {:induction false} CountAbovePerm<T>(s: seq<T>, t: seq<T>, key: T -> real, v: real)
    requires multiset(s) == multiset(t)
    ensures CountAbove(s, key, v) == CountAbove(t, key, v)
    decreases |s|
  {
    if s == [] {
      assert |multiset(t)| == 0;
    } else {
      var n := |s| - 1;
      hide CountAbove;
      assert s[n] in multiset(s);
      var k: nat :| k < |t| && t[k] == s[n];
      CountAboveWithout(s, n, key, v);
      CountAboveWithout(t, k, key, v);
      assert multiset(s[..n] + s[n + 1..]) == multiset(s) - multiset{s[n]};
      assert multiset(t[..k] + t[k + 1..]) == multiset(t) - multiset{s[n]};
      CountAbovePerm(s[..n] + s[n + 1..], t[..k] + t[k + 1..], key, v);
    }
  }

  /** Inserting x at p moves the elements from p on by one place. */
  lemma Inserted<T>(t: seq<T>, x: T, p: nat, r: nat)
    requires p <= |t| && r < |t|
    ensures (t[..p] + [x] + t[p..])[if r < p then r else r + 1] == t[r]
  {
  }

  lemma InsertShifts<T>(x: T, t: seq<T>, key: T -> real, r: nat)
    requires Descending(t, key) && r < |t|
    ensures |Insert(x, t, key)| == |t| + 1
    ensures Insert(x, t, key)[if key(x) >= key(t[r]) then r + 1 else r] == t[r]
  {
    var p := InsertSplits(x, t, key);
    Inserted(t, x, p, r);
  }

  lemma HeadPlaced<T>(s: seq<T>, key: T -> real)
    requires s != []
    ensures Rank(s, key, 0) < |s| == |StableSort(s, key)| && StableSort(s, key)[Rank(s, key, 0)] == s[0]
  {
    var t := StableSort(s[1..], key);
    SortIsDescending(s[1..], key);
    var p := InsertSplits(s[0], t, key);
    RankOfHead(s, key, t, p);
  }

  lemma TailPlaced<T>(s: seq<T>, key: T -> real, i: nat, r: nat)
    requires 0 < i < |s| && r == Rank(s[1..], key, i - 1)
    requires r < |StableSort(s[1..], key)| && StableSort(s[1..], key)[r] == s[i]
    ensures Rank(s, key, i) < |StableSort(s, key)| && StableSort(s, key)[Rank(s, key, i)] == s[i]
  {
    hide Rank;
    SortIsDescending(s[1..], key);
    RankOfTail(s, key, i);
    InsertShifts(s[0], StableSort(s[1..], key), key, r);
  }

  /** Every element lands at the place its rank names: larger keys first, ties in their old order. */
  lemma {:induction false} SortPlacesByRank<T>(s: seq<T>, key: T -> real, i: nat)
    requires i < |s|
    ensures |StableSort(s, key)| == |s|
    ensures Rank(s, key, i) < |s| && StableSort(s, key)[Rank(s, key, i)] == s[i]
  {
    hide Rank;
    SortIsDescending(s, key);
    if i == 0 {
      HeadPlaced(s, key);
    } else {
      SortPlacesByRank(s[1..], key, i - 1);
      TailPlaced(s, key, i, Rank(s[1..], key, i - 1));
    }
  }

  /** Every place of the sorted sequence is some element's rank. */
  lemma {:induction false} RankIsOnto<T>(s: seq<T>, key: T -> real, k: nat) returns (i: nat)
    requires k < |s|
    ensures i < |s| && Rank(s, key, i) == k
  {
    SortIsDescending(s[1..], key);
    var t := StableSort(s[1..], key);
    var p := InsertSplits(s[0], t, key);
    RankOfHead(s, key, t, p);
    if k == p {
      i := 0;
    } else {
      var before := if k < p then k else k - 1;
      var r := RankIsOnto(s[1..], key, before);
      i := r + 1;
      SortPlacesByRank(s[1..], key, r);
      RankOfTail(s, key, i);
      assert t[before] == s[i];
    }
  }

  /** The ranks determine the sorted sequence: nothing else is a stable descending sort of s. */
  lemma StableSortIsUnique<T>(s: seq<T>, t: seq<T>, key: T -> real)
    requires |t| == |s|
    requires forall i: nat :: i < |s| ==> Rank(s, key, i) < |s| && t[Rank(s, key, i)] == s[i]
    ensures t == StableSort(s, key)
  {
    SortIsDescending(s, key);
    forall k: nat | k < |s| ensures t[k] == StableSort(s, key)[k] {
      var i := RankIsOnto(s, key, k);
      SortPlacesByRank(s, key, i);
    }
  }

  /** The ranks are ordered as the elements beat each other. */
  lemma RankOrder<T>(s: seq<T>, key: T -> real, i: nat, j: nat)
    requires i < |s| && j < |s| && i != j
    ensures Rank(s, key, i) < Rank(s, key, j) <==> Beats(s, key, i, j)
  {
    if Beats(s, key, i, j) {
      FewerWinners(s, key, i, j);
    } else {
      FewerWinners(s, key, j, i);
    }
  }

  lemma FewerWinners<T>(s: seq<T>, key: T -> real, i: nat, j: nat)
    requires i < |s| && j < |s| && Beats(s, key, i, j)
    ensures Rank(s, key, i) < Rank(s, key, j)
  {
    var few, many := Winners(s, key, i), Winners(s, key, j);
    assert few + {i} <= many && i !in few;
    SubsetCard(few + {i}, many);
  }

  lemma {:induction false} SubsetCard<T>(a: set<T>, b: set<T>)
    requires a <= b
    ensures |a| <= |b|
  {
    if a != {} {
      var m :| m in a;
      SubsetCard(a - {m}, b - {m});
    }
  }

  lemma {:induction false} SameKeysSameInsert<T(!new)>(x: T, s: seq<T>, key: T -> real, key': T -> real)
    requires forall y :: key(y) == key'(y)
    ensures Insert(x, s, key) == Insert(x, s, key')
  {
    if s != [] {
      SameKeysSameInsert(x, s[1..], key, key');
    }
  }

  lemma {:induction false} SameKeysSameSort<T(!new)>(s: seq<T>, key: T -> real, key': T -> real)
    requires forall y :: key(y) == key'(y)
    ensures StableSort(s, key) == StableSort(s, key')
  {
    if s != [] {
      SameKeysSameSort(s[1..], key, key');
      SameKeysSameInsert(s[0], StableSort(s[1..], key), key, key');
    }
  }
}
