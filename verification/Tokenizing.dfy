/** Tokenizer: words, their counts, and the index that ranks them by frequency. */
module Tokenizing {
  import opened StableSorting
  import opened Splitting

  datatype Option<T> = None | Some(value: T)

  // ----- text_to_word_sequence

  function Translate(text: string, filters: set<char>, split: char): (r: string)
    ensures |r| == |text|
  {
    seq(|text|, i requires 0 <= i < |text| => if text[i] in filters then split else text[i])
  }

  /** [i for i in seq if i] */
  ghost function NonEmpty(pieces: seq<string>): seq<string> {
    if pieces == [] then []
    else (if pieces[0] == "" then [] else [pieces[0]]) + NonEmpty(pieces[1..])
  }

  /** lower stands for str.lower, or for the identity when the option is off. */
  ghost function TextToWordSequence(text: string, filters: set<char>, lower: string -> string, split: char)
      : seq<string>
  {
    NonEmpty(Pieces(Translate(lower(text), filters, split), [split]))
  }

  lemma {:induction false} TranslatedCuts(text: string, filters: set<char>, split: char)
    ensures Cut(Translate(text, filters, split), {split}) == Cut(text, filters + {split})
  {
    if text != "" {
      TranslatedCuts(text[1..], filters, split);
      assert Translate(text, filters, split)[1..] == Translate(text[1..], filters, split);
    }
  }

  ghost function Flat(pieces: seq<string>): string {
    if pieces == [] then "" else pieces[0] + Flat(pieces[1..])
  }

  ghost function Without(text: string, cuts: set<char>): string {
    if text == "" then ""
    else if text[0] in cuts then Without(text[1..], cuts)
    else [text[0]] + Without(text[1..], cuts)
  }

  lemma FlatFirst(pieces: seq<string>)
    ensures Flat([""] + pieces) == Flat(pieces)
  {
    assert ([""] + pieces)[1..] == pieces;
  }

  lemma FlatGrow(c: char, pieces: seq<string>)
    requires pieces != []
    ensures Flat(Grow(c, pieces)) == [c] + Flat(pieces)
  {
    assert Grow(c, pieces)[1..] == pieces[1..];
  }

  lemma {:induction false} FlatCut(text: string, cuts: set<char>)
    ensures Flat(Cut(text, cuts)) == Without(text, cuts)
  {
    hide Grow;
    if text == "" {
      assert Flat([""]) == "" + Flat([""][1..]);
    } else {
      FlatCut(text[1..], cuts);
      FlatFirst(Cut(text[1..], cuts));
      FlatGrow(text[0], Cut(text[1..], cuts));
    }
  }

  lemma {:induction false} FlatNonEmpty(pieces: seq<string>)
    ensures Flat(NonEmpty(pieces)) == Flat(pieces)
    ensures forall w :: w in NonEmpty(pieces) <==> w in pieces && w != ""
  {
    if pieces != [] {
      FlatNonEmpty(pieces[1..]);
      assert pieces == [pieces[0]] + pieces[1..];
      if pieces[0] != "" {
        assert ([pieces[0]] + NonEmpty(pieces[1..]))[1..] == NonEmpty(pieces[1..]);
      } else {
        assert [] + NonEmpty(pieces[1..]) == NonEmpty(pieces[1..]);
      }
    }
  }

  lemma {:induction false} FlatChars(text: string, chars: seq<string>)
    requires |chars| == |text| && forall i :: 0 <= i < |text| ==> chars[i] == [text[i]]
    ensures Flat(chars) == text
  {
    if text != "" {
      FlatChars(text[1..], chars[1..]);
    }
  }

  /** The words are the non-empty stretches between filtered characters and separators; no other character is lost. */
  lemma WordsAreStretches(text: string, filters: set<char>, lower: string -> string, split: char)
    ensures TextToWordSequence(text, filters, lower, split) == NonEmpty(Cut(lower(text), filters + {split}))
    ensures forall w, i: nat :: w in TextToWordSequence(text, filters, lower, split) && i < |w| ==>
              w[i] != split && w[i] !in filters
    ensures "" !in TextToWordSequence(text, filters, lower, split)
    ensures Flat(TextToWordSequence(text, filters, lower, split)) == Without(lower(text), filters + {split})
  {
    hide Cut;
    hide Pieces;
    hide NonEmpty;
    var t := lower(text);
    TranslatedCuts(t, filters, split);
    PiecesAreCut(Translate(t, filters, split), split);
    FlatCut(t, filters + {split});
    var pieces := Cut(t, filters + {split});
    FlatNonEmpty(pieces);
    forall w, i: nat | w in NonEmpty(pieces) && i < |w| ensures w[i] != split && w[i] !in filters {
      var k: nat :| k < |pieces| && pieces[k] == w;
      CutIsFree(t, filters + {split}, k, i);
    }
  }

  // ----- what the counters mean

  /** A text, as the list of its words. */
  type Doc = seq<string>

  ghost function Occurrences(docs: seq<Doc>, w: string): nat {
    if docs == [] then 0 else Occurrences(docs[..|docs| - 1], w) + multiset(docs[|docs| - 1])[w]
  }

  ghost function DocsWith(docs: seq<Doc>, w: string): nat {
    if docs == [] then 0 else DocsWith(docs[..|docs| - 1], w) + if w in docs[|docs| - 1] then 1 else 0
  }

  /** The words in the order of their first appearance. */
  ghost function FirstSeen(before: seq<string>, words: seq<string>): seq<string> {
    if words == [] then before
    else
      var seen := FirstSeen(before, words[..|words| - 1]);
      if words[|words| - 1] in seen then seen else seen + [words[|words| - 1]]
  }

  ghost function Order(docs: seq<Doc>): seq<string> {
    if docs == [] then [] else FirstSeen(Order(docs[..|docs| - 1]), docs[|docs| - 1])
  }

  ghost predicate Distinct(words: seq<string>) {
    forall i, j :: 0 <= i < j < |words| ==> words[i] != words[j]
  }

  lemma {:induction false} FirstSeenDistinct(before: seq<string>, words: seq<string>)
    requires Distinct(before)
    ensures Distinct(FirstSeen(before, words))
    ensures forall w :: w in FirstSeen(before, words) <==> w in before || w in words
  {
    if words != [] {
      var n := |words| - 1;
      FirstSeenDistinct(before, words[..n]);
      assert words == words[..n] + [words[n]];
    }
  }

  /** The seen words are listed once each. */
  lemma {:induction false} OrderIsDistinct(docs: seq<Doc>)
    ensures Distinct(Order(docs))
    ensures forall w :: w in Order(docs) <==> Occurrences(docs, w) > 0
    ensures forall w :: w in Order(docs) <==> DocsWith(docs, w) > 0
  {
    if docs != [] {
      var n := |docs| - 1;
      OrderIsDistinct(docs[..n]);
      FirstSeenDistinct(Order(docs[..n]), docs[n]);
    }
  }

  ghost function CountKey(docs: seq<Doc>): string -> real {
    w => Occurrences(docs, w) as real
  }

  /** The vocabulary, most frequent words first, ties by first appearance. */
  ghost function Ranked(docs: seq<Doc>): seq<string> {
    StableSort(Order(docs), CountKey(docs))
  }

  lemma RankedWords(docs: seq<Doc>)
    ensures |Ranked(docs)| == |Order(docs)| && Distinct(Ranked(docs))
    ensures forall w :: w in Ranked(docs) <==> w in Order(docs)
  {
    OrderIsDistinct(docs);
    SortIsDescending(Order(docs), CountKey(docs));
    hide StableSort;
    hide Order;
    SameMembers(Ranked(docs), Order(docs));
  }

  lemma {:induction false} DistinctCounts(words: seq<string>)
    ensures Distinct(words) <==> forall w :: multiset(words)[w] <= 1
  {
    if words != [] {
      var n := |words| - 1;
      DistinctCounts(words[..n]);
      assert words == words[..n] + [words[n]];
      if Distinct(words) {
        assert words[n] !in words[..n];
        assert multiset(words[..n])[words[n]] == 0;
      } else if Distinct(words[..n]) {
        var i :| 0 <= i < n && words[i] == words[n];
        assert words[..n][i] == words[n];
        assert multiset(words[..n])[words[n]] > 0;
        assert multiset(words)[words[n]] > 1;
      } else {
        var w :| multiset(words[..n])[w] > 1;
        assert multiset(words)[w] > 1;
      }
    }
  }

  lemma SameMembers(a: seq<string>, b: seq<string>)
    requires multiset(a) == multiset(b) && Distinct(b)
    ensures Distinct(a) && forall w :: w in a <==> w in b
  {
    DistinctCounts(a);
    DistinctCounts(b);
    forall w ensures w in a <==> w in b {
      assert w in a <==> w in multiset(a);
      assert w in b <==> w in multiset(b);
    }
  }

  // ----- the counters

  /** The counters after the documents so far. */
  datatype Counters = Counters(order: seq<string>, counts: map<string, nat>, docs: map<string, nat>, documents: nat)

  ghost predicate Counted(c: Counters, docs: seq<Doc>) {
    && c.order == Order(docs) && c.documents == |docs|
    && (forall w :: w in c.counts <==> Occurrences(docs, w) > 0)
    && (forall w :: w in c.counts ==> c.counts[w] == Occurrences(docs, w))
    && (forall w :: w in c.docs <==> DocsWith(docs, w) > 0)
    && (forall w :: w in c.docs ==> c.docs[w] == DocsWith(docs, w))
  }

  function Get(m: map<string, nat>, w: string): nat { if w in m then m[w] else 0 }

  /** The words of one text, in order. */
  method CountWords(order: seq<string>, counts: map<string, nat>, words: Doc)
      returns (order': seq<string>, counts': map<string, nat>)
    requires forall w :: w in counts <==> w in order
    ensures order' == FirstSeen(order, words)
    ensures forall w :: w in counts' <==> w in counts || w in words
    ensures forall w :: Get(counts', w) == Get(counts, w) + multiset(words)[w]
  {
    order', counts' := order, counts;
    assert words[..0] == [];
    for k := 0 to |words|
      invariant order' == FirstSeen(order, words[..k])
      invariant forall w :: w in counts' <==> w in order'
      invariant forall w :: w in counts' <==> w in counts || w in words[..k]
      invariant forall w :: Get(counts', w) == Get(counts, w) + multiset(words[..k])[w]
    {
      var w := words[k];
      assert words[..k + 1] == words[..k] + [w];
      assert words[..k + 1][..k] == words[..k];
      if w in counts' {
        counts' := counts'[w := counts'[w] + 1];
      } else {
        counts' := counts'[w := 1];
        order' := order' + [w];
      }
    }
    assert words[..|words|] == words;
  }

  /** The set of the words of one text, in any order. */
  method CountDocs(docs: map<string, nat>, words: Doc) returns (docs': map<string, nat>)
    ensures forall w :: w in docs' <==> w in docs || w in words
    ensures forall w :: Get(docs', w) == Get(docs, w) + if w in words then 1 else 0
  {
    docs' := docs;
    var all := set w | w in words;
    var todo := all;
    while todo != {}
      invariant todo <= all
      invariant forall w :: w in docs' <==> w in docs || (w in words && w !in todo)
      invariant forall w :: Get(docs', w) == Get(docs, w) + if w in words && w !in todo then 1 else 0
      decreases todo
    {
      var w :| w in todo;
      docs' := docs'[w := if w in docs' then docs'[w] + 1 else 1];
      todo := todo - {w};
    }
  }

  lemma CountedNext(c: Counters, docs: seq<Doc>, words: Doc, counts': map<string, nat>, docs': map<string, nat>)
    requires Counted(c, docs)
    requires forall w :: w in counts' <==> w in c.counts || w in words
    requires forall w :: Get(counts', w) == Get(c.counts, w) + multiset(words)[w]
    requires forall w :: w in docs' <==> w in c.docs || w in words
    requires forall w :: Get(docs', w) == Get(c.docs, w) + if w in words then 1 else 0
    ensures Counted(Counters(FirstSeen(c.order, words), counts', docs', c.documents + 1), docs + [words])
  {
    var all := docs + [words];
    assert all[..|docs|] == docs;
    forall w
      ensures Occurrences(all, w) == Get(counts', w) && DocsWith(all, w) == Get(docs', w)
      ensures w in counts' <==> Occurrences(all, w) > 0
      ensures w in docs' <==> DocsWith(all, w) > 0
    {
      assert Get(c.counts, w) == Occurrences(docs, w) && Get(c.docs, w) == DocsWith(docs, w);
      assert w in words <==> multiset(words)[w] > 0;
    }
  }

  // ----- the index

  /** Word k of the ranked vocabulary has index k + 1; the token for unknown words, if any, comes last unless it was
      seen itself. */
  ghost predicate IndexedAs(index: map<string, nat>, ranked: seq<string>, oov: Option<string>) {
    && (forall k :: 0 <= k < |ranked| ==> ranked[k] in index && index[ranked[k]] == k + 1)
    && (forall w :: w in index <==> w in ranked || Some(w) == oov)
    && (oov.Some? && oov.value !in ranked ==> oov.value in index && index[oov.value] == |ranked| + 1)
  }

  /** Every index of a seen word, and no other, tells in how many documents the word occurs. */
  ghost predicate DocsIndexed(indexDocs: map<nat, nat>, docs: seq<Doc>) {
    && (forall i :: i in indexDocs <==> 1 <= i <= |Ranked(docs)|)
    && (forall i :: i in indexDocs ==> indexDocs[i] == DocsWith(docs, Ranked(docs)[i - 1]))
  }

  /** Everything that fitting leaves. */
  datatype Fitted = Fitted(counters: Counters, index: map<string, nat>, indexDocs: map<nat, nat>)

  ghost predicate FittedTo(f: Fitted, docs: seq<Doc>, oov: Option<string>) {
    Counted(f.counters, docs) && IndexedAs(f.index, Ranked(docs), oov) && DocsIndexed(f.indexDocs, docs)
  }

  /** The documents determine everything, so it does not matter in how many calls they were fitted. */
  lemma FittedIsUnique(f: Fitted, g: Fitted, docs: seq<Doc>, oov: Option<string>)
    requires FittedTo(f, docs, oov) && FittedTo(g, docs, oov)
    ensures f == g
  {
    hide Ranked;
    assert f.counters.counts == g.counters.counts && f.counters.docs == g.counters.docs;
    IndexIsUnique(f.index, g.index, Ranked(docs), oov);
    assert f.indexDocs == g.indexDocs;
  }

  lemma IndexIsUnique(f: map<string, nat>, g: map<string, nat>, ranked: seq<string>, oov: Option<string>)
    requires IndexedAs(f, ranked, oov) && IndexedAs(g, ranked, oov)
    ensures f == g
  {
    forall w ensures (w in f <==> w in g) && (w in f ==> f[w] == g[w]) {
      if w in ranked {
        var k :| 0 <= k < |ranked| && ranked[k] == w;
      }
    }
  }

  /** A more frequent word has a smaller index; among equally frequent words the one seen first has. */
  lemma IndexRanks(docs: seq<Doc>, index: map<string, nat>, oov: Option<string>, i: nat, j: nat)
    requires IndexedAs(index, Ranked(docs), oov) && i < |Order(docs)| && j < |Order(docs)| && i != j
    ensures var a, b := Order(docs)[i], Order(docs)[j];
      a in index && b in index &&
      (index[a] < index[b] <==>
         Occurrences(docs, a) > Occurrences(docs, b) || (Occurrences(docs, a) == Occurrences(docs, b) && i < j))
  {
    var order, key := Order(docs), CountKey(docs);
    SortPlacesByRank(order, key, i);
    SortPlacesByRank(order, key, j);
    RankOrder(order, key, i, j);
    hide Rank;
    hide Order;
    hide StableSort;
  }

  ghost predicate IsUsed(docs: seq<Doc>, index: map<string, nat>, n: nat) {
    exists w :: w in Order(docs) && w in index && index[w] == n
  }

  /** The indexes of the seen words are exactly 1 to the number of seen words, each once; 0 is never used. */
  lemma IndexIsOnto(docs: seq<Doc>, index: map<string, nat>, oov: Option<string>)
    requires IndexedAs(index, Ranked(docs), oov)
    ensures forall w :: w in Order(docs) ==> w in index
    ensures forall n: nat :: IsUsed(docs, index, n) <==> 1 <= n <= |Order(docs)|
    ensures forall v, w :: v in index && w in index && index[v] == index[w] ==> v == w
    ensures forall w :: w in index ==> index[w] != 0
  {
    hide Order;
    hide Ranked;
    RankedWords(docs);
    var ranked := Ranked(docs);
    forall w | w in ranked ensures w in index && 1 <= index[w] <= |ranked| && ranked[index[w] - 1] == w {
      var k :| 0 <= k < |ranked| && ranked[k] == w;
    }
    forall n: nat ensures IsUsed(docs, index, n) <==> 1 <= n <= |ranked| {
      if 1 <= n <= |ranked| {
        assert ranked[n - 1] in ranked;
      }
    }
  }

  /** dict(zip(sorted_voc, range(1, ...))), and the token for unknown words. */
  method BuildIndex(ranked: seq<string>, oov: Option<string>) returns (index: map<string, nat>)
    requires Distinct(ranked)
    ensures IndexedAs(index, ranked, oov)
  {
    index := map[];
    for k := 0 to |ranked|
      invariant forall j :: 0 <= j < k ==> ranked[j] in index && index[ranked[j]] == j + 1
      invariant forall w :: w in index <==> w in ranked[..k]
      invariant |index| == k
    {
      index := index[ranked[k] := k + 1];
    }
    if oov.Some? && oov.value !in index {
      index := index[oov.value := |index| + 1];
    }
  }

  lemma {:induction false} FirstSeenGrows(before: seq<string>, words: seq<string>)
    ensures |before| <= |FirstSeen(before, words)|
  {
    if words != [] {
      FirstSeenGrows(before, words[..|words| - 1]);
    }
  }

  lemma {:induction false} OrderGrows(docs: seq<Doc>, more: seq<Doc>)
    ensures |Order(docs)| <= |Order(docs + more)|
  {
    if more == [] {
      assert docs + more == docs;
    } else {
      var n := |more| - 1;
      OrderGrows(docs, more[..n]);
      assert (docs + more)[..|docs| + n] == docs + more[..n];
      FirstSeenGrows(Order(docs + more[..n]), more[n]);
    }
  }

  lemma RankedHasIndex(docs: seq<Doc>, index: map<string, nat>, oov: Option<string>, w: string)
    requires IndexedAs(index, Ranked(docs), oov) && DocsWith(docs, w) > 0
    ensures w in index && 1 <= index[w] <= |Ranked(docs)| && Ranked(docs)[index[w] - 1] == w
  {
    hide Ranked;
    hide Order;
    hide DocsWith;
    OrderIsDistinct(docs);
    RankedWords(docs);
    assert w in Order(docs) && w in Ranked(docs);
    var k :| 0 <= k < |Ranked(docs)| && Ranked(docs)[k] == w;
  }

  /** Every entry of word_docs, in any order: what an earlier call left is overwritten. */
  method IndexDocs(wordDocs: map<string, nat>, index: map<string, nat>, before: map<nat, nat>, ghost docs: seq<Doc>,
                   ghost oov: Option<string>) returns (indexDocs: map<nat, nat>)
    requires forall w :: w in wordDocs <==> DocsWith(docs, w) > 0
    requires forall w :: w in wordDocs ==> wordDocs[w] == DocsWith(docs, w)
    requires IndexedAs(index, Ranked(docs), oov) && forall i :: i in before ==> 1 <= i <= |Ranked(docs)|
    ensures DocsIndexed(indexDocs, docs)
  {
    hide Ranked;
    hide DocsWith;
    hide IndexedAs;
    indexDocs := before;
    var todo := wordDocs.Keys;
    forall w | w in wordDocs
      ensures w in index && 1 <= index[w] <= |Ranked(docs)| && Ranked(docs)[index[w] - 1] == w
    {
      RankedHasIndex(docs, index, oov, w);
    }
    while todo != {}
      invariant todo <= wordDocs.Keys
      invariant forall i :: i in indexDocs ==> 1 <= i <= |Ranked(docs)|
      invariant forall w :: w in wordDocs && w !in todo ==> index[w] in indexDocs && indexDocs[index[w]] == wordDocs[w]
      decreases todo
    {
      var w :| w in todo;
      indexDocs := indexDocs[index[w] := wordDocs[w]];
      todo := todo - {w};
    }
    forall i: nat
      ensures 1 <= i <= |Ranked(docs)| ==> i in indexDocs && indexDocs[i] == DocsWith(docs, Ranked(docs)[i - 1])
    {
      if 1 <= i <= |Ranked(docs)| {
        RankedOccurs(docs, index, oov, i - 1);
      }
    }
  }

  lemma RankedOccurs(docs: seq<Doc>, index: map<string, nat>, oov: Option<string>, k: nat)
    requires IndexedAs(index, Ranked(docs), oov) && k < |Ranked(docs)|
    ensures Ranked(docs)[k] in index && index[Ranked(docs)[k]] == k + 1 && DocsWith(docs, Ranked(docs)[k]) > 0
  {
    OrderIsDistinct(docs);
    RankedWords(docs);
    assert Ranked(docs)[k] in Order(docs);
  }

  // ----- sequences of indexes

  /** An entry of a sequence: word_index.get gives None for an unknown word. */
  datatype Item = Index(index: int) | NoneItem

  datatype Outcome<T> = Ok(value: T) | TypeError | AttributeError

  /** None and 0 are false. */
  predicate Truthy(numWords: Option<int>) { numWords.Some? && numWords.value != 0 }

  /** What one word adds; comparing None with a number is an error. */
  function WordItems(wordIndex: Option<map<string, nat>>, numWords: Option<int>, oov: Option<string>, w: string)
      : Outcome<seq<Item>>
  {
    if wordIndex == None then AttributeError
    else
      var index := wordIndex.value;
      if Truthy(numWords) then
        if w !in index then TypeError
        else if index[w] < numWords.value then Ok([Index(index[w])])
        else Ok(if oov == None then [] else [Index(numWords.value)])
      else Ok([if w in index then Index(index[w]) else NoneItem])
  }

  /** What one text yields: the first error, or the items of all words. */
  ghost function Emitted(wordIndex: Option<map<string, nat>>, numWords: Option<int>, oov: Option<string>, words: Doc)
      : Outcome<seq<Item>>
  {
    if words == [] then Ok([])
    else
      var before := Emitted(wordIndex, numWords, oov, words[..|words| - 1]);
      var last := WordItems(wordIndex, numWords, oov, words[|words| - 1]);
      if !before.Ok? then before
      else if !last.Ok? then last
      else Ok(before.value + last.value)
  }

  lemma EmittedNext(wordIndex: Option<map<string, nat>>, numWords: Option<int>, oov: Option<string>, words: Doc, k: nat)
    requires k < |words| && Emitted(wordIndex, numWords, oov, words[..k]).Ok?
    ensures var before := Emitted(wordIndex, numWords, oov, words[..k]);
      var last := WordItems(wordIndex, numWords, oov, words[k]);
      if last.Ok? then Emitted(wordIndex, numWords, oov, words[..k + 1]) == Ok(before.value + last.value)
      else Emitted(wordIndex, numWords, oov, words) == last
  {
    hide WordItems;
    assert words[..k + 1][..k] == words[..k];
    if !WordItems(wordIndex, numWords, oov, words[k]).Ok? {
      FailureStays(wordIndex, numWords, oov, words, k + 1);
    }
  }

  lemma {:induction false} WhichError(wordIndex: Option<map<string, nat>>, numWords: Option<int>, oov: Option<string>,
                                      words: Doc)
    ensures var r := Emitted(wordIndex, numWords, oov, words);
      r.Ok? || r == if wordIndex == None then AttributeError else TypeError
  {
    if words != [] {
      WhichError(wordIndex, numWords, oov, words[..|words| - 1]);
    }
  }

  lemma NothingEmitted(wordIndex: Option<map<string, nat>>, numWords: Option<int>, oov: Option<string>, words: Doc)
    ensures Emitted(wordIndex, numWords, oov, words[..0]) == Ok([])
  {
  }

  lemma {:induction false} FailureStays(wordIndex: Option<map<string, nat>>, numWords: Option<int>, oov: Option<string>,
                                        words: Doc, n: nat)
    requires n <= |words| && !Emitted(wordIndex, numWords, oov, words[..n]).Ok?
    ensures Emitted(wordIndex, numWords, oov, words) == Emitted(wordIndex, numWords, oov, words[..n])
  {
    if n == |words| {
      assert words[..n] == words;
    } else {
      assert words[..|words| - 1][..n] == words[..n];
      FailureStays(wordIndex, numWords, oov, words[..|words| - 1], n);
    }
  }

  /** A text with an unknown word fails when num_words is set; otherwise the unknown word leaves a None. Neither is what
      the documentation says, that only known words are taken into account. */
  lemma {:induction false} UnknownWords(index: map<string, nat>, numWords: Option<int>, oov: Option<string>, words: Doc)
    ensures var r := Emitted(Some(index), numWords, oov, words);
      var isSet := numWords != None && numWords != Some(0);
      && r != AttributeError
      && (r == TypeError <==> isSet && exists w :: w in words && w !in index)
      && (r.Ok? ==> (NoneItem in r.value <==> !isSet && exists w :: w in words && w !in index))
  {
    if words != [] {
      var n := |words| - 1;
      UnknownWords(index, numWords, oov, words[..n]);
      assert words == words[..n] + [words[n]];
    }
  }

  ghost function Filter(words: Doc, index: map<string, nat>, below: int): Doc {
    if words == [] then []
    else
      var w := words[|words| - 1];
      Filter(words[..|words| - 1], index, below) + if w in index && index[w] < below then [w] else []
  }

  /** The words behind the entries below the bound. */
  ghost function Decoded(items: seq<Item>, ranked: seq<string>, below: int): Doc {
    if items == [] then []
    else
      var item := items[|items| - 1];
      Decoded(items[..|items| - 1], ranked, below) +
      if item.Index? && 1 <= item.index < below && item.index <= |ranked| then [ranked[item.index - 1]] else []
  }

  lemma {:induction false} DecodedConcat(a: seq<Item>, b: seq<Item>, ranked: seq<string>, below: int)
    ensures Decoded(a + b, ranked, below) == Decoded(a, ranked, below) + Decoded(b, ranked, below)
  {
    if b == [] {
      assert a + b == a;
    } else {
      var n := |b| - 1;
      DecodedConcat(a, b[..n], ranked, below);
      assert (a + b)[..|a + b| - 1] == a + b[..n] && (a + b)[|a + b| - 1] == b[n];
    }
  }

  lemma DecodedOne(item: Item, ranked: seq<string>, below: int)
    ensures Decoded([], ranked, below) == []
    ensures Decoded([item], ranked, below) ==
            if item.Index? && 1 <= item.index < below && item.index <= |ranked| then [ranked[item.index - 1]] else []
  {
    assert [item][..0] == [];
  }

  /** Each word of the text is decoded to itself, or left out when it is not below the bound. */
  ghost predicate WordDecodes(index: map<string, nat>, numWords: Option<int>, oov: Option<string>, ranked: seq<string>,
                              below: int, w: string) {
    var one := WordItems(Some(index), numWords, oov, w);
    one.Ok? && Decoded(one.value, ranked, below) == if w in index && index[w] < below then [w] else []
  }

  lemma {:induction false} DecodeWords(index: map<string, nat>, numWords: Option<int>, oov: Option<string>,
                                       ranked: seq<string>, below: int, words: Doc)
    requires forall w :: w in words ==> WordDecodes(index, numWords, oov, ranked, below, w)
    ensures var r := Emitted(Some(index), numWords, oov, words);
      r.Ok? && Decoded(r.value, ranked, below) == Filter(words, index, below)
  {
    hide WordItems;
    if words != [] {
      var m := |words| - 1;
      assert words == words[..m] + [words[m]] && words[m] in words;
      DecodeWords(index, numWords, oov, ranked, below, words[..m]);
      DecodedConcat(Emitted(Some(index), numWords, oov, words[..m]).value,
                    WordItems(Some(index), numWords, oov, words[m]).value, ranked, below);
      hide Decoded;
    }
  }

  /** Decoding the entries below num_words gives the words below num_words back, in order. */
  lemma DecodeRestores(docs: seq<Doc>, index: map<string, nat>, n: int, oov: Option<string>, words: Doc)
    requires IndexedAs(index, Ranked(docs), oov) && n != 0 && forall w :: w in words ==> w in Order(docs)
    ensures var r := Emitted(Some(index), Some(n), oov, words);
      r.Ok? && Decoded(r.value, Ranked(docs), n) == Filter(words, index, n)
  {
    hide Ranked;
    hide Order;
    hide IndexedAs;
    hide Decoded;
    forall w | w in words ensures WordDecodes(index, Some(n), oov, Ranked(docs), n, w) {
      SeenHasIndex(docs, index, oov, w);
      DecodedOne(Index(index[w]), Ranked(docs), n);
      DecodedOne(Index(n), Ranked(docs), n);
    }
    DecodeWords(index, Some(n), oov, Ranked(docs), n, words);
  }

  /** Without num_words every known word comes back. */
  lemma DecodeRestoresAll(docs: seq<Doc>, index: map<string, nat>, oov: Option<string>, words: Doc)
    requires IndexedAs(index, Ranked(docs), oov) && forall w :: w in words ==> w in Order(docs)
    ensures var r := Emitted(Some(index), None, oov, words);
      r.Ok? && Decoded(r.value, Ranked(docs), |Ranked(docs)| + 1) == words
  {
    hide Ranked;
    hide Order;
    hide IndexedAs;
    hide Decoded;
    var n := |Ranked(docs)| + 1;
    forall w | w in words
      ensures WordDecodes(index, None, oov, Ranked(docs), n, w) && w in index && index[w] < n
    {
      SeenHasIndex(docs, index, oov, w);
      DecodedOne(Index(index[w]), Ranked(docs), n);
    }
    DecodeWords(index, None, oov, Ranked(docs), n, words);
    FilterAll(words, index, n);
  }

  lemma {:induction false} FilterAll(words: Doc, index: map<string, nat>, below: int)
    requires forall w :: w in words ==> w in index && index[w] < below
    ensures Filter(words, index, below) == words
  {
    if words != [] {
      FilterAll(words[..|words| - 1], index, below);
      assert words[|words| - 1] in words;
    }
  }

  lemma SeenHasIndex(docs: seq<Doc>, index: map<string, nat>, oov: Option<string>, w: string)
    requires IndexedAs(index, Ranked(docs), oov) && w in Order(docs)
    ensures w in index && 1 <= index[w] <= |Ranked(docs)| && Ranked(docs)[index[w] - 1] == w
  {
    OrderIsDistinct(docs);
    RankedHasIndex(docs, index, oov, w);
  }

  /** A word that is kept is at least as frequent as every word that is dropped or replaced. */
  lemma KeptAreMostFrequent(docs: seq<Doc>, index: map<string, nat>, oov: Option<string>, n: int, v: string, w: string)
    requires IndexedAs(index, Ranked(docs), oov) && v in Order(docs) && w in Order(docs)
    requires v in index && w in index && index[v] < n <= index[w]
    ensures Occurrences(docs, v) >= Occurrences(docs, w)
  {
    SeenHasIndex(docs, index, oov, v);
    SeenHasIndex(docs, index, oov, w);
    SortIsDescending(Order(docs), CountKey(docs));
    hide StableSort;
    hide Order;
    hide IndexedAs;
    assert CountKey(docs)(Ranked(docs)[index[v] - 1]) >= CountKey(docs)(Ranked(docs)[index[w] - 1]);
  }

  /** num_words keeps the num_words - 1 most frequent words: the word ranked num_words is dropped, or replaced by an
      entry that is its own index. */
  lemma RankNumWordsIsDropped(docs: seq<Doc>, index: map<string, nat>, oov: Option<string>, n: nat)
    requires IndexedAs(index, Ranked(docs), oov) && 1 <= n <= |Ranked(docs)|
    ensures Emitted(Some(index), Some(n), oov, [Ranked(docs)[n - 1]]) == Ok(if oov == None then [] else [Index(n)])
    ensures n > 1 ==> Emitted(Some(index), Some(n), oov, [Ranked(docs)[n - 2]]) == Ok([Index(n - 1)])
  {
    hide Ranked;
    hide IndexedAs;
    hide Emitted;
    RankedOccurs(docs, index, oov, n - 1);
    EmittedOne(Some(index), Some(n), oov, Ranked(docs)[n - 1]);
    if n > 1 {
      RankedOccurs(docs, index, oov, n - 2);
      EmittedOne(Some(index), Some(n), oov, Ranked(docs)[n - 2]);
    }
  }

  lemma EmittedOne(wordIndex: Option<map<string, nat>>, numWords: Option<int>, oov: Option<string>, w: string)
    ensures Emitted(wordIndex, numWords, oov, [w]) == WordItems(wordIndex, numWords, oov, w)
  {
    hide WordItems;
    NothingEmitted(wordIndex, numWords, oov, [w]);
    EmittedNext(wordIndex, numWords, oov, [w], 0);
    assert [w][..1] == [w];
    assert WordItems(wordIndex, numWords, oov, w).Ok? ==>
             [] + WordItems(wordIndex, numWords, oov, w).value == WordItems(wordIndex, numWords, oov, w).value;
  }

  // ----- the class

  datatype Text = Raw(text: string) | Tokens(words: seq<string>)

  class Tokenizer {
    const numWords: Option<int>
    const filters: set<char>
    const lower: string -> string
    const split: char
    const charLevel: bool
    const oovToken: Option<string>
    /** word_counts: the words in insertion order, and their counts. */
    var order: seq<string>
    var wordCounts: map<string, nat>
    var wordDocs: map<string, nat>
    var documentCount: nat
    /** Absent until fit_on_texts is called. */
    var wordIndex: Option<map<string, nat>>
    var indexDocs: map<nat, nat>
    /** The texts fitted so far, as lists of words. */
    ghost var docs: seq<Doc>

    ghost function Counts(): Counters
      reads this
    {
      Counters(order, wordCounts, wordDocs, documentCount)
    }

    ghost function State(): Fitted
      requires wordIndex.Some?
      reads this
    {
      Fitted(Counts(), wordIndex.value, indexDocs)
    }

    ghost predicate Valid()
      reads this
    {
      && Counted(Counts(), docs)
      && (if wordIndex.Some? then FittedTo(State(), docs, oovToken) else docs == [] && indexDocs == map[])
    }

    constructor (numWords: Option<int>, filters: set<char>, lower: string -> string, split: char, charLevel: bool,
                 oovToken: Option<string>)
      ensures Valid() && docs == [] && wordIndex == None && this.oovToken == oovToken && this.numWords == numWords
      ensures this.filters == filters && this.lower == lower && this.split == split && this.charLevel == charLevel
    {
      this.numWords, this.filters, this.lower := numWords, filters, lower;
      this.split, this.charLevel, this.oovToken := split, charLevel, oovToken;
      order, wordCounts, wordDocs, documentCount := [], map[], map[], 0;
      wordIndex, indexDocs, docs := None, map[], [];
    }

    /** The words of a text: its characters at character level, else a list as it is, else the split text. */
    ghost function SeqOf(text: Text): Doc {
      match text
      case Tokens(words) => words
      case Raw(s) =>
        if charLevel then seq(|s|, i requires 0 <= i < |s| => [s[i]])
        else TextToWordSequence(s, filters, lower, split)
    }

    /** The three cases written out: a list of tokens, single characters, or the non-empty stretches between filtered
        characters and separators. */
    ghost predicate AreWordsOf(words: Doc, text: Text) {
      match text
      case Tokens(list) => words == list
      case Raw(s) =>
        if charLevel then |words| == |s| && (forall i :: 0 <= i < |s| ==> words[i] == [s[i]]) && Flat(words) == s
        else words == NonEmpty(Cut(lower(s), filters + {split}))
    }

    lemma SeqOfMeaning(text: Text)
      ensures AreWordsOf(SeqOf(text), text)
    {
      if text.Raw? && charLevel {
        FlatChars(text.text, SeqOf(text));
      } else if text.Raw? {
        WordsAreStretches(text.text, filters, lower, split);
      }
    }

    ghost predicate SameOptions(other: Tokenizer) {
      && filters == other.filters && lower == other.lower && split == other.split && charLevel == other.charLevel
      && oovToken == other.oovToken && numWords == other.numWords
    }

    ghost function SeqsOf(texts: seq<Text>): (r: seq<Doc>)
      ensures |r| == |texts|
    {
      seq(|texts|, i requires 0 <= i < |texts| => SeqOf(texts[i]))
    }

    method Words(text: Text) returns (words: Doc)
      ensures words == SeqOf(text) && AreWordsOf(words, text)
    {
      SeqOfMeaning(text);
      if text.Tokens? {
        words := text.words;
      } else if charLevel {
        words := seq(|text.text|, i requires 0 <= i < |text.text| => [text.text[i]]);
      } else {
        words := SplitWords(Translate(lower(text.text), filters, split), split);
      }
    }

    /** One round of the loop over the texts. */
    method CountText(words: Doc)
      requires Counted(Counts(), docs)
      modifies this`order, this`wordCounts, this`wordDocs, this`documentCount, this`docs
      ensures Counted(Counts(), docs) && docs == old(docs) + [words]
    {
      hide Counted;
      hide FirstSeen;
      CountsMatchOrder(Counts(), docs);
      ghost var before := Counts();
      documentCount := documentCount + 1;
      order, wordCounts := CountWords(order, wordCounts, words);
      wordDocs := CountDocs(wordDocs, words);
      CountedNext(before, docs, words, wordCounts, wordDocs);
      docs := docs + [words];
    }

    /** The loop over the texts. */
    method CountTexts(texts: seq<Text>)
      requires Counted(Counts(), docs)
      modifies this`order, this`wordCounts, this`wordDocs, this`documentCount, this`docs
      ensures Counted(Counts(), docs) && docs == old(docs) + SeqsOf(texts)
    {
      hide Counted;
      hide SeqOf;
      hide AreWordsOf;
      for k := 0 to |texts|
        invariant Counted(Counts(), docs) && docs == old(docs) + SeqsOf(texts)[..k]
      {
        var words := Words(texts[k]);
        CountText(words);
        assert SeqsOf(texts)[..k + 1] == SeqsOf(texts)[..k] + [words];
      }
      assert SeqsOf(texts)[..|texts|] == SeqsOf(texts);
    }

    /** fit_on_texts: the vocabulary is ranked and indexed anew. */
    method FitOnTexts(texts: seq<Text>)
      requires Valid()
      modifies this
      ensures Valid() && wordIndex.Some? && docs == old(docs) + SeqsOf(texts)
      ensures |docs| == |old(docs)| + |texts| && old(docs) <= docs
      ensures forall i :: 0 <= i < |texts| ==> AreWordsOf(docs[|old(docs)| + i], texts[i])
    {
      hide AreWordsOf;
      hide SeqsOf;
      hide Ranked;
      hide Counted;
      hide Occurrences;
      hide DocsWith;
      hide Order;
      CountTexts(texts);
      var counts := wordCounts;
      var sortedVoc := StableSort(order, w => Get(counts, w) as real);
      SortedVocabulary(Counts(), docs, counts);
      RankedWords(docs);
      var index := BuildIndex(sortedVoc, oovToken);
      OldIndexes(indexDocs, old(docs), SeqsOf(texts));
      CountedDocs(Counts(), docs);
      indexDocs := IndexDocs(wordDocs, index, indexDocs, docs, oovToken);
      wordIndex := Some(index);
      NewDocs(old(docs), texts);
    }

    lemma NewDocs(before: seq<Doc>, texts: seq<Text>)
      ensures var all := before + SeqsOf(texts);
        && |all| == |before| + |texts| && before <= all
        && forall i :: 0 <= i < |texts| ==> AreWordsOf(all[|before| + i], texts[i])
    {
      forall i | 0 <= i < |texts| ensures AreWordsOf(SeqsOf(texts)[i], texts[i]) {
        SeqOfMeaning(texts[i]);
      }
      hide AreWordsOf;
    }

    /** One text of texts_to_sequences_generator. */
    method TextToSequence(text: Text) returns (r: Outcome<seq<Item>>)
      ensures r == Emitted(wordIndex, numWords, oovToken, SeqOf(text))
    {
      hide Emitted;
      hide SeqOf;
      var words := Words(text);
      var vect: seq<Item> := [];
      NothingEmitted(wordIndex, numWords, oovToken, words);
      for k := 0 to |words|
        invariant Ok(vect) == Emitted(wordIndex, numWords, oovToken, words[..k])
      {
        var w := words[k];
        EmittedNext(wordIndex, numWords, oovToken, words, k);
        if wordIndex == None {
          return AttributeError;
        }
        var i := if w in wordIndex.value then Some(wordIndex.value[w]) else None;
        if Truthy(numWords) {
          if i == None {
            return TypeError;
          }
          if i.value >= numWords.value {
            if oovToken == None {
              assert vect + [] == vect;
              continue;
            } else {
              vect := vect + [Index(numWords.value)];
            }
          } else {
            vect := vect + [Index(i.value)];
          }
        } else {
          vect := vect + [if i == None then NoneItem else Index(i.value)];
        }
      }
      assert words[..|words|] == words;
      return Ok(vect);
    }

    method TextsToSequences(texts: seq<Text>) returns (r: Outcome<seq<seq<Item>>>)
      ensures r.Ok? <==> forall k :: 0 <= k < |texts| ==> Emitted(wordIndex, numWords, oovToken, SeqOf(texts[k])).Ok?
      ensures r.Ok? ==> |r.value| == |texts| && forall k :: 0 <= k < |texts| ==>
                Ok(r.value[k]) == Emitted(wordIndex, numWords, oovToken, SeqOf(texts[k]))
      ensures !r.Ok? ==> r == if wordIndex == None then AttributeError else TypeError
    {
      hide Emitted;
      hide SeqOf;
      var res: seq<seq<Item>> := [];
      for k := 0 to |texts|
        invariant |res| == k
        invariant forall j :: 0 <= j < k ==> Ok(res[j]) == Emitted(wordIndex, numWords, oovToken, SeqOf(texts[j]))
      {
        var one := TextToSequence(texts[k]);
        WhichError(wordIndex, numWords, oovToken, SeqOf(texts[k]));
        match one {
          case Ok(vect) => res := res + [vect];
          case TypeError => return TypeError;
          case AttributeError => return AttributeError;
        }
      }
      return Ok(res);
    }
  }

  method SplitWords(text: string, split: char) returns (words: seq<string>)
    ensures words == NonEmpty(Pieces(text, [split]))
  {
    hide Returned;
    hide Pieces;
    PiecesAreCut(text, split);
    hide Cut;
    var pieces := StringSplit(text, [split]);
    words := [];
    for k := 0 to |pieces|
      invariant NonEmpty(pieces) == words + NonEmpty(pieces[k..])
    {
      if pieces[k] != "" {
        words := words + [pieces[k]];
      }
    }
  }

  lemma CountsMatchOrder(c: Counters, docs: seq<Doc>)
    requires Counted(c, docs)
    ensures forall w :: w in c.counts <==> w in c.order
  {
    OrderIsDistinct(docs);
  }

  lemma CountedDocs(c: Counters, docs: seq<Doc>)
    requires Counted(c, docs)
    ensures forall w :: w in c.docs <==> DocsWith(docs, w) > 0
    ensures forall w :: w in c.docs ==> c.docs[w] == DocsWith(docs, w)
  {
  }

  lemma SortedVocabulary(c: Counters, docs: seq<Doc>, counts: map<string, nat>)
    requires Counted(c, docs) && counts == c.counts
    ensures StableSort(c.order, w => Get(counts, w) as real) == Ranked(docs)
  {
    hide StableSort;
    var key := w => Get(counts, w) as real;
    assert forall w :: key(w) == CountKey(docs)(w);
    SameKeysSameSort(c.order, key, CountKey(docs));
  }

  /** The indexes of the call before are still indexes. */
  lemma OldIndexes(indexDocs: map<nat, nat>, docs: seq<Doc>, more: seq<Doc>)
    requires DocsIndexed(indexDocs, docs) || indexDocs == map[]
    ensures forall i :: i in indexDocs ==> 1 <= i <= |Ranked(docs + more)|
  {
    OrderGrows(docs, more);
    RankedWords(docs);
    RankedWords(docs + more);
    hide Ranked;
    hide Order;
  }

  /** Fitting in two calls leaves the same tokenizer as fitting all texts in one. */
  method FitTwice(t: Tokenizer, u: Tokenizer, a: seq<Text>, b: seq<Text>)
    requires t.Valid() && u.Valid() && t != u && t.docs == u.docs && t.SameOptions(u)
    modifies t, u
    ensures t.Valid() && u.Valid() && t.wordIndex.Some? && u.wordIndex.Some? && t.State() == u.State()
  {
    hide FittedTo;
    hide Counted;
    hide Tokenizer.SeqsOf;
    SeqsOfBoth(t, u, a, b);
    t.FitOnTexts(a);
    t.FitOnTexts(b);
    u.FitOnTexts(a + b);
    FittedIsUnique(t.State(), u.State(), t.docs, t.oovToken);
  }

  lemma SeqsOfBoth(t: Tokenizer, u: Tokenizer, a: seq<Text>, b: seq<Text>)
    requires t.SameOptions(u)
    ensures forall docs :: docs + u.SeqsOf(a + b) == docs + t.SeqsOf(a) + t.SeqsOf(b)
  {
    hide TextToWordSequence;
    forall text ensures t.SeqOf(text) == u.SeqOf(text) {
    }
    assert u.SeqsOf(a + b) == t.SeqsOf(a) + t.SeqsOf(b);
    forall docs: seq<Doc> ensures docs + u.SeqsOf(a + b) == docs + t.SeqsOf(a) + t.SeqsOf(b) {
    }
  }
}
