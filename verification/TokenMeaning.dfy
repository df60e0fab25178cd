/** What the counters and the sequences of indexes say, told from the words in the order in which they were read. */
module TokenMeaning {
  import opened Tokenizing

  // ----- the counters

  /** All words, text by text. */
  ghost function AllWords(docs: seq<Doc>): seq<string> {
    if docs == [] then [] else AllWords(docs[..|docs| - 1]) + docs[|docs| - 1]
  }

  ghost function TextsWith(docs: seq<Doc>, w: string): set<nat> {
    set k: nat | k < |docs| && w in docs[k]
  }

  /** A word counts as often as it was read, and in as many texts as hold it. */
  lemma {:induction false} CountsMeaning(docs: seq<Doc>, w: string)
    ensures Occurrences(docs, w) == multiset(AllWords(docs))[w]
    ensures DocsWith(docs, w) == |TextsWith(docs, w)|
  {
    if docs == [] {
      assert TextsWith(docs, w) == {};
    } else {
      var n := |docs| - 1;
      CountsMeaning(docs[..n], w);
      assert TextsWith(docs, w) == TextsWith(docs[..n], w) + if w in docs[n] then {n} else {};
    }
  }

  /** What the tokenizer has counted: each word read, as often as it was read, and the texts that hold it. */
  lemma CountersMeaning(c: Counters, docs: seq<Doc>)
    requires Counted(c, docs)
    ensures forall w :: w in c.counts <==> w in AllWords(docs)
    ensures forall w :: w in c.counts ==> c.counts[w] == multiset(AllWords(docs))[w]
    ensures forall w :: w in c.docs <==> w in AllWords(docs)
    ensures forall w :: w in c.docs ==> c.docs[w] == |TextsWith(docs, w)|
  {
    OrderIsDistinct(docs);
    forall w ensures Occurrences(docs, w) == multiset(AllWords(docs))[w] && DocsWith(docs, w) == |TextsWith(docs, w)| {
      CountsMeaning(docs, w);
    }
    assert forall w :: w in AllWords(docs) <==> multiset(AllWords(docs))[w] > 0;
    assert forall w :: w in Order(docs) <==> Occurrences(docs, w) > 0;
    hide Occurrences;
    hide DocsWith;
    hide Order;
  }

  lemma {:induction false} FirstSeenConcat(before: seq<string>, a: seq<string>, b: seq<string>)
    ensures FirstSeen(before, a + b) == FirstSeen(FirstSeen(before, a), b)
  {
    if b == [] {
      assert a + b == a;
    } else {
      var n := |b| - 1;
      FirstSeenConcat(before, a, b[..n]);
      assert (a + b)[..|a + b| - 1] == a + b[..n];
    }
  }

  lemma {:induction false} OrderOfAll(docs: seq<Doc>)
    ensures Order(docs) == FirstSeen([], AllWords(docs))
  {
    if docs != [] {
      var n := |docs| - 1;
      OrderOfAll(docs[..n]);
      FirstSeenConcat([], AllWords(docs[..n]), docs[n]);
    }
  }

  /** Place k of the words holds v, and w was not read before or there. */
  ghost predicate ReadBefore(words: seq<string>, v: string, w: string, k: nat) {
    k < |words| && words[k] == v && w !in words[..k + 1]
  }

  lemma {:induction false} FirstSeenInOrder(words: seq<string>, i: nat, j: nat) returns (k: nat)
    requires i < j < |FirstSeen([], words)|
    ensures ReadBefore(words, FirstSeen([], words)[i], FirstSeen([], words)[j], k)
  {
    var n := |words| - 1;
    var front := FirstSeen([], words[..n]);
    FirstSeenDistinct([], words[..n]);
    if j < |front| {
      k := FirstSeenInOrder(words[..n], i, j);
      assert words[..n][..k + 1] == words[..k + 1];
    } else {
      assert front[i] in words[..n];
      k :| 0 <= k < n && words[..n][k] == front[i];
      assert forall x :: x in words[..k + 1] ==> x in words[..n];
    }
  }

  /** The words are ordered by where they were first read. */
  lemma OrderIsByFirstUse(docs: seq<Doc>, i: nat, j: nat) returns (k: nat)
    requires i < j < |Order(docs)|
    ensures ReadBefore(AllWords(docs), Order(docs)[i], Order(docs)[j], k)
  {
    OrderOfAll(docs);
    k := FirstSeenInOrder(AllWords(docs), i, j);
  }

  // ----- the sequences

  /** Before fitting a text without words gives an empty sequence, every other text an AttributeError. */
  lemma {:induction false} BeforeFitting(numWords: Option<int>, oov: Option<string>, words: Doc)
    ensures Emitted(None, numWords, oov, words) == if words == [] then Ok([]) else AttributeError
  {
    if words != [] {
      BeforeFitting(numWords, oov, words[..|words| - 1]);
    }
  }

  /** Without num_words, or with num_words 0, each word gives its index, and an unknown one None. */
  lemma {:induction false} EntriesWithoutBound(index: map<string, nat>, numWords: Option<int>, oov: Option<string>,
                                               words: Doc)
    requires numWords == None || numWords == Some(0)
    ensures var r := Emitted(Some(index), numWords, oov, words);
      && r.Ok? && |r.value| == |words|
      && forall k :: 0 <= k < |words| ==> r.value[k] == if words[k] in index then Index(index[words[k]]) else NoneItem
  {
    if words != [] {
      EntriesWithoutBound(index, numWords, oov, words[..|words| - 1]);
    }
  }

  /** With num_words and a token for unknown words, each known word gives its index if that is below num_words, and
      num_words otherwise. */
  lemma {:induction false} EntriesWithToken(index: map<string, nat>, n: int, token: string, words: Doc)
    requires n != 0 && forall w :: w in words ==> w in index
    ensures var r := Emitted(Some(index), Some(n), Some(token), words);
      && r.Ok? && |r.value| == |words|
      && forall k :: 0 <= k < |words| ==>
           r.value[k] == Index(if index[words[k]] < n then index[words[k]] else n)
  {
    if words != [] {
      var m := |words| - 1;
      assert forall w :: w in words[..m] ==> w in words;
      EntriesWithToken(index, n, token, words[..m]);
    }
  }

  /** With num_words and no token, the words whose index is below num_words give their indexes, in order, and the others
      nothing. */
  lemma {:induction false} EntriesWithoutToken(index: map<string, nat>, n: int, words: Doc)
    requires n != 0 && forall w :: w in words ==> w in index
    ensures var r, kept := Emitted(Some(index), Some(n), None, words), Filter(words, index, n);
      && r.Ok? && |r.value| == |kept|
      && forall k :: 0 <= k < |kept| ==> kept[k] in index && r.value[k] == Index(index[kept[k]]) && index[kept[k]] < n
  {
    if words != [] {
      var m := |words| - 1;
      assert forall w :: w in words[..m] ==> w in words;
      EntriesWithoutToken(index, n, words[..m]);
    }
  }
}
