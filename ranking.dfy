/** The scoring loop of `identify_main_points` and the ranking that
    follows it: each sentence gets an integer score, the (score, sentence)
    pairs are sorted in descending tuple order and the first N are kept. */
module Ranking {
  import opened Text
  import opened Concepts

  const Indicators: seq<string> :=
    ["important", "key", "main", "primary", "essential", "critical", "significant", "fundamental"]

  /** The highest score a sentence can get against at most eight concepts. */
  const MaxScore: int := 23

  /** `xs.index(x)`: the position of the first occurrence of x. */
  function IndexOf(xs: seq<string>, x: string): (i: nat)
    requires x in xs
    ensures i < |xs| && xs[i] == x
    ensures forall j :: 0 <= j < i ==> xs[j] != x
  {
    if xs[0] == x then 0 else 1 + IndexOf(xs[1..], x)
  }

  /** The `if`/`elif` chain on the position: exactly one case applies. */
  function PositionBonus(position: nat, count: nat): (b: int)
    ensures b == 3 <==> position == 0
    ensures b == 2 <==> (1 <= position < 3 || (3 <= position && position == count - 1))
    ensures b == 0 <==> (3 <= position && position != count - 1)
  {
    if position == 0 then 3
    else if position < 3 then 2
    else if position == count - 1 then 2
    else 0
  }

  /** The words of a token list, lower-cased (the set `sentence_words`). */
  function LowerAll(tokens: seq<string>): seq<string> {
    seq(|tokens|, i requires 0 <= i < |tokens| => LowerStr(tokens[i]))
  }

  /** How many of the concepts have their lower-case form among the words. */
  function MatchedConcepts(concepts: seq<string>, words: seq<string>): (m: nat)
    ensures m <= |concepts|
  {
    if concepts == [] then 0
    else
      MatchedConcepts(concepts[..|concepts| - 1], words)
      + (if LowerStr(concepts[|concepts| - 1]) in words then 1 else 0)
  }

  /** One point for a sentence of 8 to 20 whitespace-separated words. */
  function LengthBonus(sentence: string): int {
    if 8 <= WordCount(sentence) <= 20 then 1 else 0
  }

  /** Some indicator occurs in the lower-cased sentence, as a substring. */
  predicate HasIndicator(sentence: string) {
    exists ind :: ind in Indicators && Contains(LowerStr(sentence), ind)
  }

  /** Three points once, however many indicators occur. */
  function IndicatorBonus(sentence: string): int {
    if HasIndicator(sentence) then 3 else 0
  }

  /** The score the loop of `identify_main_points` gives a sentence; its
      position is that of the sentence's first occurrence. With at most
      eight concepts it lies in 0..23. */
  function Score(sentences: seq<string>, sentence: string, concepts: seq<string>,
                 tokenize: string -> seq<string>): (score: int)
    requires sentence in sentences
    ensures |concepts| <= MaxConcepts ==> 0 <= score <= MaxScore
  {
    PositionBonus(IndexOf(sentences, sentence), |sentences|)
    + 2 * MatchedConcepts(concepts, LowerAll(tokenize(sentence)))
    + LengthBonus(sentence)
    + IndicatorBonus(sentence)
  }

  /** The list `scored_sentences` the loop builds. */
  function Scored(sentences: seq<string>, concepts: seq<string>,
                  tokenize: string -> seq<string>): (ps: seq<(int, string)>)
    ensures |ps| == |sentences|
  {
    seq(|sentences|, i requires 0 <= i < |sentences| =>
      (Score(sentences, sentences[i], concepts, tokenize), sentences[i]))
  }

  /** Each pair holds the sentence at its position and, against at most
      eight concepts, a score in 0..23. */
  lemma ScoredShape(sentences: seq<string>, concepts: seq<string>,
                    tokenize: string -> seq<string>)
    ensures var ps := Scored(sentences, concepts, tokenize);
      && (forall i :: 0 <= i < |ps| ==> ps[i].1 == sentences[i])
      && (|concepts| <= MaxConcepts ==> forall i :: 0 <= i < |ps| ==> 0 <= ps[i].0 <= MaxScore)
  {
  }

  /** The loop of `identify_main_points` that scores each sentence in turn. */
  method ScoreSentences(sentences: seq<string>, concepts: seq<string>,
                        tokenize: string -> seq<string>) returns (scored: seq<(int, string)>)
    ensures scored == Scored(sentences, concepts, tokenize)
  {
    scored := [];
    for k := 0 to |sentences|
      invariant |scored| == k
      invariant forall i :: 0 <= i < k ==>
        scored[i] == (Score(sentences, sentences[i], concepts, tokenize), sentences[i])
    {
      var sentence := sentences[k];
      var score := ScoreSentence(sentences, sentence, concepts, tokenize);
      scored := scored + [(score, sentence)];
    }
  }

  /** The body of the scoring loop for one sentence, with its inner loop
      over the concepts. */
  method ScoreSentence(sentences: seq<string>, sentence: string, concepts: seq<string>,
                       tokenize: string -> seq<string>) returns (score: int)
    requires sentence in sentences
    ensures score == Score(sentences, sentence, concepts, tokenize)
  {
    score := 0;
    var position := IndexOf(sentences, sentence);
    if position == 0 {
      score := score + 3;
    } else if position < 3 {
      score := score + 2;
    } else if position == |sentences| - 1 {
      score := score + 2;
    }
    var base := score;
    var words := LowerAll(tokenize(sentence));
    for j := 0 to |concepts|
      invariant score == base + 2 * MatchedConcepts(concepts[..j], words)
    {
      assert concepts[..j + 1][..j] == concepts[..j];
      if LowerStr(concepts[j]) in words {
        score := score + 2;
      }
    }
    assert concepts[..|concepts|] == concepts;
    var wordCount := WordCount(sentence);
    if 8 <= wordCount <= 20 {
      score := score + 1;
    }
    if HasIndicator(sentence) {
      score := score + 3;
    }
  }

  /** Python's `<` on (score, sentence) tuples. */
  predicate PairLess(a: (int, string), b: (int, string)) {
    a.0 < b.0 || (a.0 == b.0 && StrLess(a.1, b.1))
  }

  /** The order `sort(reverse=True)` leaves a list in. */
  predicate SortedDesc(xs: seq<(int, string)>) {
    forall i, j :: 0 <= i < j < |xs| ==> !PairLess(xs[i], xs[j])
  }

  lemma PairLessAsymmetric(a: (int, string), b: (int, string))
    ensures PairLess(a, b) ==> !PairLess(b, a)
  {
    if PairLess(a, b) && a.0 == b.0 && StrLess(b.1, a.1) {
      StrLessTransitive(a.1, b.1, a.1);
      StrLessIrreflexive(a.1);
    }
  }

  /** "Not below" is transitive. */
  lemma PairNotLessTransitive(a: (int, string), b: (int, string), c: (int, string))
    requires !PairLess(a, b) && !PairLess(b, c)
    ensures !PairLess(a, c)
  {
    if PairLess(a, c) {
      StrLessTotal(a.1, b.1);
      if a.1 != b.1 {
        StrLessTransitive(b.1, a.1, c.1);
      }
    }
  }

  /** Two pairs neither of which is below the other are equal. */
  lemma PairNotLessAntisymmetric(a: (int, string), b: (int, string))
    requires !PairLess(a, b) && !PairLess(b, a)
    ensures a == b
  {
    StrLessTotal(a.1, b.1);
  }

  /** Inserts x in front of the first element it is not below. */
  function Insert(x: (int, string), ys: seq<(int, string)>): (r: seq<(int, string)>)
    requires SortedDesc(ys)
    ensures SortedDesc(r)
    ensures multiset(r) == multiset(ys) + multiset{x}
  {
    if ys == [] then [x]
    else if !PairLess(x, ys[0]) then
      InsertFront(x, ys);
      [x] + ys
    else
      var r' := Insert(x, ys[1..]);
      assert ys == [ys[0]] + ys[1..];
      InsertBehind(x, ys, r');
      [ys[0]] + r'
  }

  lemma InsertFront(x: (int, string), ys: seq<(int, string)>)
    requires SortedDesc(ys) && ys != [] && !PairLess(x, ys[0])
    ensures SortedDesc([x] + ys)
  {
    forall j | 0 <= j < |ys| ensures !PairLess(x, ys[j]) {
      if j > 0 {
        PairNotLessTransitive(x, ys[0], ys[j]);
      }
    }
    var r := [x] + ys;
    forall i, j | 0 <= i < j < |r| ensures !PairLess(r[i], r[j]) {
      if i > 0 {
        assert r[i] == ys[i - 1] && r[j] == ys[j - 1];
      }
    }
  }

  lemma InsertBehind(x: (int, string), ys: seq<(int, string)>, r': seq<(int, string)>)
    requires SortedDesc(ys) && ys != [] && PairLess(x, ys[0])
    requires SortedDesc(r') && multiset(r') == multiset(ys[1..]) + multiset{x}
    ensures SortedDesc([ys[0]] + r')
  {
    PairLessAsymmetric(x, ys[0]);
    forall k | 0 <= k < |r'| ensures !PairLess(ys[0], r'[k]) {
      assert r'[k] in multiset(r');
      if r'[k] != x {
        assert r'[k] in multiset(ys[1..]);
        var j :| 0 <= j < |ys[1..]| && ys[1..][j] == r'[k];
        assert ys[j + 1] == r'[k];
      }
    }
    var r := [ys[0]] + r';
    forall i, j | 0 <= i < j < |r| ensures !PairLess(r[i], r[j]) {
      if i > 0 {
        assert r[i] == r'[i - 1] && r[j] == r'[j - 1];
      }
    }
  }

  /** `list.sort(reverse=True)` on the scored pairs: sorted in descending
      tuple order, and a permutation of its input. */
  function SortDesc(xs: seq<(int, string)>): (r: seq<(int, string)>)
    ensures SortedDesc(r)
    ensures multiset(r) == multiset(xs)
    ensures |r| == |xs|
  {
    if xs == [] then []
    else
      assert xs == [xs[0]] + xs[1..];
      Insert(xs[0], SortDesc(xs[1..]))
  }

  /** A descending arrangement of a multiset of pairs is unique, so
      SortDesc gives exactly what Python's sort gives, whatever algorithm
      either uses: ties in score are broken by the sentence text, larger
      first, and never by position. */
  lemma {:induction false} SortedDescUnique(xs: seq<(int, string)>, ys: seq<(int, string)>)
    requires SortedDesc(xs) && SortedDesc(ys)
    requires multiset(xs) == multiset(ys)
    ensures xs == ys
  {
    assert |xs| == |multiset(xs)| == |multiset(ys)| == |ys|;
    if xs != [] {
      SortedHeadsAgree(xs, ys);
      TailsAgree(xs, ys);
      SortedDescUnique(xs[1..], ys[1..]);
      assert xs == [xs[0]] + xs[1..] && ys == [ys[0]] + ys[1..];
    }
  }

  lemma SortedHeadsAgree(xs: seq<(int, string)>, ys: seq<(int, string)>)
    requires SortedDesc(xs) && SortedDesc(ys) && xs != [] && ys != []
    requires multiset(xs) == multiset(ys)
    ensures xs[0] == ys[0]
  {
    assert xs[0] in multiset(ys);
    var j :| 0 <= j < |ys| && ys[j] == xs[0];
    assert ys[0] in multiset(xs);
    var i :| 0 <= i < |xs| && xs[i] == ys[0];
    StrLessIrreflexive(xs[0].1);
    StrLessIrreflexive(ys[0].1);
    assert !PairLess(ys[0], xs[0]) by {
      if j > 0 { assert !PairLess(ys[0], ys[j]); }
    }
    assert !PairLess(xs[0], ys[0]) by {
      if i > 0 { assert !PairLess(xs[0], xs[i]); }
    }
    PairNotLessAntisymmetric(xs[0], ys[0]);
  }

  lemma TailsAgree(xs: seq<(int, string)>, ys: seq<(int, string)>)
    requires xs != [] && ys != [] && xs[0] == ys[0]
    requires multiset(xs) == multiset(ys)
    requires SortedDesc(xs) && SortedDesc(ys)
    ensures multiset(xs[1..]) == multiset(ys[1..])
    ensures SortedDesc(xs[1..]) && SortedDesc(ys[1..])
  {
    TailMultiset(xs);
    TailMultiset(ys);
    SortedTail(xs);
    SortedTail(ys);
  }

  lemma TailMultiset(xs: seq<(int, string)>)
    requires xs != []
    ensures multiset(xs[1..]) == multiset(xs) - multiset{xs[0]}
  {
    assert xs == [xs[0]] + xs[1..];
  }

  lemma SortedTail(xs: seq<(int, string)>)
    requires xs != [] && SortedDesc(xs)
    ensures SortedDesc(xs[1..])
  {
    var t := xs[1..];
    forall i, j | 0 <= i < j < |t| ensures !PairLess(t[i], t[j]) {
      assert t[i] == xs[i + 1] && t[j] == xs[j + 1];
    }
  }

  /** Sorting the scored pairs brings in no sentence the list lacked. */
  lemma SortedScoredFrom(sentences: seq<string>, concepts: seq<string>,
                         tokenize: string -> seq<string>, k: nat)
    requires k < |sentences|
    ensures SortDesc(Scored(sentences, concepts, tokenize))[k].1 in sentences
  {
    var scored := Scored(sentences, concepts, tokenize);
    var ranked := SortDesc(scored);
    assert ranked[k] in multiset(scored);
    var i :| 0 <= i < |scored| && scored[i] == ranked[k];
  }

  /** The sentences of the first n ranked pairs. */
  function TopSentences(ranked: seq<(int, string)>, n: nat): (top: seq<string>)
    requires n <= |ranked|
    ensures |top| == n
    ensures forall k :: 0 <= k < n ==> top[k] == ranked[k].1
  {
    seq(n, k requires 0 <= k < n => ranked[k].1)
  }

  /** Selection keeps the best: a pair among the first n of the ranking
      scores at least as much as any pair left out. */
  lemma SelectedOutscoreRest(ranked: seq<(int, string)>, n: nat, i: nat, j: nat)
    requires SortedDesc(ranked)
    requires i < n <= j < |ranked|
    ensures ranked[j].0 <= ranked[i].0
    ensures ranked[j].0 == ranked[i].0 ==> !StrLess(ranked[i].1, ranked[j].1)
  {
  }
}
