/** `identify_main_points`, `create_basic_summary` and
    `generate_smart_summary`: split the text into sentences, rank them,
    simplify the best ones, and fall back to a positional summary when the
    ranking yields fewer than two points. */
module Summary {
  import opened Wrappers
  import opened Text
  import opened Simplifier
  import opened Concepts
  import opened Ranking

  /** Sentences of `identify_main_points` are longer than this. */
  const MinMainSentence: nat := 10

  /** Sentences of `create_basic_summary` are longer than this. */
  const MinBasicSentence: nat := 20

  /** A simplified point of the ranked path has at least this many words. */
  const MinPointWords: nat := 4

  /** A sentence of text: longer than minLen, stripped, holding none of
      `.`, `!`, `?`, and made of characters of the text. */
  predicate IsSentenceOf(x: string, text: string, minLen: nat) {
    |x| > minLen && Trimmed(x) && NoTerminal(x) && CharsFrom(x, text)
  }

  /** The stripped fragments longer than minLen, in order. */
  function KeepLonger(frags: seq<string>, minLen: nat): (kept: seq<string>)
    ensures |kept| <= |frags|
    ensures forall k :: 0 <= k < |kept| ==> |kept[k]| > minLen && Trimmed(kept[k])
  {
    if frags == [] then []
    else
      var rest := KeepLonger(frags[1..], minLen);
      var s := Strip(frags[0]);
      if |s| > minLen then [s] + rest else rest
  }

  /** Every kept string is a long enough stripped fragment. */
  lemma {:induction false} KeepLongerSound(frags: seq<string>, minLen: nat, x: string)
    requires x in KeepLonger(frags, minLen)
    ensures exists k :: 0 <= k < |frags| && x == Strip(frags[k]) && |x| > minLen
  {
    var rest := KeepLonger(frags[1..], minLen);
    if x in rest {
      KeepLongerSound(frags[1..], minLen, x);
      var k :| 0 <= k < |frags[1..]| && x == Strip(frags[1..][k]) && |x| > minLen;
      assert frags[1..][k] == frags[k + 1];
    }
  }

  /** No long enough fragment is lost. */
  lemma {:induction false} KeepLongerKeeps(frags: seq<string>, minLen: nat, k: nat)
    requires k < |frags| && |Strip(frags[k])| > minLen
    ensures Strip(frags[k]) in KeepLonger(frags, minLen)
  {
    var tail := frags[1..];
    var rest := KeepLonger(tail, minLen);
    var s := Strip(frags[0]);
    if k > 0 {
      assert tail[k - 1] == frags[k];
      KeepLongerKeeps(tail, minLen, k - 1);
      assert Strip(frags[k]) in rest;
    }
    if |s| > minLen {
      assert KeepLonger(frags, minLen) == [s] + rest;
    } else {
      assert KeepLonger(frags, minLen) == rest;
    }
  }

  /** `[s.strip() for s in re.split(r'[.!?]', text) if len(s.strip()) > minLen]`. */
  function Segment(text: string, minLen: nat): (sentences: seq<string>)
    ensures |sentences| <= |Terminals(text)| + 1
    ensures forall k :: 0 <= k < |sentences| ==> |sentences[k]| > minLen && Trimmed(sentences[k])
  {
    KeepLonger(SplitTerminals(text), minLen)
  }

  /** Every sentence is longer than minLen, stripped, free of terminal
      punctuation and made of characters of the text. */
  lemma SegmentSound(text: string, minLen: nat, x: string)
    requires x in Segment(text, minLen)
    ensures IsSentenceOf(x, text, minLen)
  {
    var frags := SplitTerminals(text);
    KeepLongerSound(frags, minLen, x);
    var k :| 0 <= k < |frags| && x == Strip(frags[k]) && |x| > minLen;
    forall c | c in x ensures !IsTerminal(c) && c in text {
      SplitTerminalsPieces(text, k, c);
    }
  }

  /** Every piece between terminal punctuation that is longer than minLen
      once stripped is a sentence. */
  lemma SegmentKeeps(text: string, minLen: nat, k: nat)
    requires k < |SplitTerminals(text)| && |Strip(SplitTerminals(text)[k])| > minLen
    ensures Strip(SplitTerminals(text)[k]) in Segment(text, minLen)
  {
    KeepLongerKeeps(SplitTerminals(text), minLen, k);
  }

  /** The sentences `identify_main_points` works on: those of the text
      after its whitespace is normalised. */
  function Sentences(text: string): (sentences: seq<string>)
    ensures forall k :: 0 <= k < |sentences| ==>
      |sentences[k]| > MinMainSentence && Trimmed(sentences[k])
  {
    Segment(NormalizeSpace(text), MinMainSentence)
  }

  /** A sentence of normalised text holds no terminal punctuation and no
      newline. */
  lemma SentencesHaveNoBreaks(text: string, x: string)
    requires x in Sentences(text)
    ensures '.' !in x && '\n' !in x
  {
    var t := NormalizeSpace(text);
    SegmentSound(t, MinMainSentence, x);
    NormalizeSpaceIsTidy(text);
    assert IsSpace('\n');
    assert '\n' !in t;
  }

  /** `[simplify_sentence(s) for s in xs]`. */
  function SimplifyAll(xs: seq<string>): (r: seq<string>)
    ensures |r| == |xs| && forall k :: 0 <= k < |xs| ==> r[k] == Simplify(xs[k])
  {
    seq(|xs|, k requires 0 <= k < |xs| => Simplify(xs[k]))
  }

  /** `s[0].upper() + s[1:] if s else ""`: only the first character changes,
      and the words stay as they were. */
  function Capitalize(s: string): (r: string)
    ensures |r| == |s|
    ensures s != [] ==> r[0] == Upper(s[0]) && r[1..] == s[1..]
  {
    if s == [] then [] else [Upper(s[0])] + s[1..]
  }

  /** The simplified sentence has four words or more, so it becomes a point. */
  predicate HasPointWords(sentence: string) {
    WordCount(Simplify(sentence)) >= MinPointWords
  }

  /** The point a kept sentence becomes. */
  function Point(sentence: string): string {
    Capitalize(Simplify(sentence))
  }

  /** The loop over the top sentences once simplified: each is kept,
      capitalised, when it has at least four words. */
  function KeepPoints(simplified: seq<string>): (points: seq<string>)
    ensures |points| <= |simplified|
  {
    if simplified == [] then []
    else
      var points := KeepPoints(simplified[..|simplified| - 1]);
      var last := simplified[|simplified| - 1];
      if WordCount(last) >= MinPointWords then points + [Capitalize(last)] else points
  }

  /** Every point is a capitalised simplification with four words or more. */
  lemma {:induction false} KeepPointsSound(simplified: seq<string>, p: string)
    requires p in KeepPoints(simplified)
    ensures exists j :: (0 <= j < |simplified| && WordCount(simplified[j]) >= MinPointWords &&
      p == Capitalize(simplified[j]))
  {
    var init := simplified[..|simplified| - 1];
    if p in KeepPoints(init) {
      KeepPointsSound(init, p);
      var j :| 0 <= j < |init| && WordCount(init[j]) >= MinPointWords && p == Capitalize(init[j]);
      assert init[j] == simplified[j];
    }
  }

  /** One more simplified sentence adds its point, if it keeps one. */
  lemma KeepPointsSnoc(simplified: seq<string>, i: nat)
    requires i < |simplified|
    ensures WordCount(simplified[i]) >= MinPointWords ==>
      KeepPoints(simplified[..i + 1]) == KeepPoints(simplified[..i]) + [Capitalize(simplified[i])]
    ensures WordCount(simplified[i]) < MinPointWords ==>
      KeepPoints(simplified[..i + 1]) == KeepPoints(simplified[..i])
  {
    assert simplified[..i + 1][..i] == simplified[..i];
  }

  /** Every simplification with four words or more yields its point. */
  lemma {:induction false} KeepPointsComplete(simplified: seq<string>, j: nat)
    requires j < |simplified| && WordCount(simplified[j]) >= MinPointWords
    ensures Capitalize(simplified[j]) in KeepPoints(simplified)
  {
    var init := simplified[..|simplified| - 1];
    if j < |init| {
      assert init[j] == simplified[j];
      KeepPointsComplete(init, j);
    }
  }

  /** The loop of `identify_main_points` over the top sentences. */
  function FinishPoints(top: seq<string>): (points: seq<string>)
    ensures |points| <= |top|
  {
    KeepPoints(SimplifyAll(top))
  }

  /** Every point is the point of a kept top sentence. */
  lemma FinishPointsSound(top: seq<string>, p: string)
    requires p in FinishPoints(top)
    ensures exists j :: 0 <= j < |top| && HasPointWords(top[j]) && p == Point(top[j])
  {
    var simplified := SimplifyAll(top);
    KeepPointsSound(simplified, p);
    var j :| 0 <= j < |simplified| && WordCount(simplified[j]) >= MinPointWords &&
      p == Capitalize(simplified[j]);
    assert simplified[j] == Simplify(top[j]);
    assert HasPointWords(top[j]) && p == Point(top[j]);
  }

  /** Every kept top sentence yields its point. */
  lemma FinishPointsComplete(top: seq<string>, j: nat)
    requires j < |top| && HasPointWords(top[j])
    ensures Point(top[j]) in FinishPoints(top)
  {
    var simplified := SimplifyAll(top);
    assert simplified[j] == Simplify(top[j]);
    KeepPointsComplete(simplified, j);
  }

  /** The ranking `identify_main_points` builds when it has more sentences
      than points to give: the scored sentences in descending order. */
  function Ranked(text: string, nlp: Nlp, hashOrder: seq<string>): (ranked: seq<(int, string)>)
    requires nlp.tokenize.Some?
    ensures |ranked| == |Sentences(text)| && SortedDesc(ranked)
  {
    RankedOf(Sentences(text), NormalizeSpace(text), nlp, hashOrder)
  }

  /** The ranking of the given sentences, scored against the concepts of
      the normalised text t. */
  function RankedOf(sentences: seq<string>, t: string, nlp: Nlp, hashOrder: seq<string>): (ranked: seq<(int, string)>)
    requires nlp.tokenize.Some?
    ensures |ranked| == |sentences| && SortedDesc(ranked)
  {
    var concepts := ExtractKeyConcepts(t, nlp, hashOrder);
    SortDesc(Scored(sentences, concepts, nlp.tokenize.value))
  }

  /** `identify_main_points`. With no more sentences than points asked for,
      every sentence is simplified; otherwise the sentences are ranked, the
      first n are simplified and those with at least four words kept. The
      scoring loop calls `word_tokenize` outside any `try`, so a missing
      tokenizer makes the call fail exactly on that path. */
  function MainPoints(text: string, n: nat, nlp: Nlp, hashOrder: seq<string>): (r: Result<seq<string>>)
    ensures r.Ok? ==> |r.value| <= n
  {
    PointsOf(Sentences(text), NormalizeSpace(text), n, nlp, hashOrder)
  }

  /** `identify_main_points` once the normalised text t is split into its
      sentences. */
  function PointsOf(sentences: seq<string>, t: string, n: nat, nlp: Nlp, hashOrder: seq<string>): (r: Result<seq<string>>)
    ensures r.Ok? ==> |r.value| <= n
  {
    if |sentences| <= n then Ok(SimplifyAll(sentences))
    else if nlp.tokenize.None? then Failure(LookupError)
    else
      var points := FinishPoints(TopSentences(RankedOf(sentences, t, nlp, hashOrder), n));
      Ok(points[..Min(n, |points|)])
  }

  /** The call fails exactly when the text has more sentences than points
      asked for and no tokenizer is available. */
  lemma MainPointsFailsExactly(text: string, n: nat, nlp: Nlp, hashOrder: seq<string>)
    ensures MainPoints(text, n, nlp, hashOrder).Failure? <==> |Sentences(text)| > n && nlp.tokenize.None?
  {
  }

  /** With few sentences every one of them becomes a point, simplified but
      not capitalised, in text order, none with a comma or semicolon. */
  lemma MainPointsFewSentences(text: string, n: nat, nlp: Nlp, hashOrder: seq<string>)
    requires |Sentences(text)| <= n
    ensures MainPoints(text, n, nlp, hashOrder) == Ok(SimplifyAll(Sentences(text)))
    ensures forall p :: p in MainPoints(text, n, nlp, hashOrder).value ==>
      Tidy(p) && ',' !in p && ';' !in p
  {
    var sentences := Sentences(text);
    var r := SimplifyAll(sentences);
    forall p | p in r ensures Tidy(p) && ',' !in p && ';' !in p {
      var k :| 0 <= k < |r| && r[k] == p;
      SentencesHaveNoBreaks(text, sentences[k]);
      SimplifyDropsClauseMarks(sentences[k]);
      SimplifyIsTidy(sentences[k]);
    }
  }

  /** Every sentence of the ranking is a sentence of the text. */
  lemma RankedFromSentences(text: string, nlp: Nlp, hashOrder: seq<string>, k: nat)
    requires nlp.tokenize.Some?
    requires k < |Ranked(text, nlp, hashOrder)|
    ensures Ranked(text, nlp, hashOrder)[k].1 in Sentences(text)
  {
    var concepts := ExtractKeyConcepts(NormalizeSpace(text), nlp, hashOrder);
    SortedScoredFrom(Sentences(text), concepts, nlp.tokenize.value, k);
  }

  /** The points made of sentences with no `.` and no newline have at
      least four words, tidy spacing, no lower-case first letter and no
      comma or semicolon. */
  lemma PointsAreClean(top: seq<string>, p: string)
    requires forall j :: 0 <= j < |top| ==> '.' !in top[j] && '\n' !in top[j]
    requires p in FinishPoints(top)
    ensures WordCount(p) >= MinPointWords && Tidy(p) && !IsAsciiLower(p[0])
    ensures ',' !in p && ';' !in p
    ensures exists j :: 0 <= j < |top| && p == Point(top[j])
  {
    FinishPointsSound(top, p);
    var j :| 0 <= j < |top| && HasPointWords(top[j]) && p == Point(top[j]);
    var q := Simplify(top[j]);
    SimplifyDropsClauseMarks(top[j]);
    SimplifyIsTidy(top[j]);
    assert Tidy(q) && WordCount(q) >= MinPointWords;
    assert q != [];
    CapitalizeKeeps(q);
    CapitalizeKeepsWords(q);
    CapitalizeKeepsOut(q);
    assert p == Capitalize(q);
  }

  /** On the ranked path the points are the capitalised simplifications of
      the first n ranked sentences that keep four words, and nothing is
      cut. */
  lemma MainPointsRanked(text: string, n: nat, nlp: Nlp, hashOrder: seq<string>)
    requires |Sentences(text)| > n && nlp.tokenize.Some?
    ensures MainPoints(text, n, nlp, hashOrder) ==
      Ok(FinishPoints(TopSentences(Ranked(text, nlp, hashOrder), n)))
  {
    var top := TopSentences(Ranked(text, nlp, hashOrder), n);
    var points := FinishPoints(top);
    assert |points| <= n;
    FullPrefix(points, n);
  }

  /** A prefix at least as long as the list is the list. */
  lemma FullPrefix(xs: seq<string>, n: nat)
    requires |xs| <= n
    ensures xs[..Min(n, |xs|)] == xs
  {
  }

  /** Every point of the ranked path comes from a sentence of the text, has
      at least four words and tidy spacing, starts with no lower-case letter
      and holds no comma or semicolon. */
  lemma RankedPointClean(text: string, n: nat, nlp: Nlp, hashOrder: seq<string>, p: string)
    requires |Sentences(text)| > n && nlp.tokenize.Some?
    requires MainPoints(text, n, nlp, hashOrder).Ok? && p in MainPoints(text, n, nlp, hashOrder).value
    ensures WordCount(p) >= MinPointWords && Tidy(p) && !IsAsciiLower(p[0])
    ensures ',' !in p && ';' !in p
    ensures exists s :: s in Sentences(text) && p == Point(s)
  {
    var top := TopSentences(Ranked(text, nlp, hashOrder), n);
    assert p in FinishPoints(top) by { MainPointsRanked(text, n, nlp, hashOrder); }
    TopAreSentences(text, n, nlp, hashOrder);
    PointsAreClean(top, p);
    var j :| 0 <= j < |top| && p == Point(top[j]);
    assert top[j] in Sentences(text);
  }

  /** The sentences the ranked path selects are sentences of the text, so
      they hold no `.` and no newline. */
  lemma TopAreSentences(text: string, n: nat, nlp: Nlp, hashOrder: seq<string>)
    requires |Sentences(text)| > n && nlp.tokenize.Some?
    ensures var top := TopSentences(Ranked(text, nlp, hashOrder), n);
      forall j :: 0 <= j < |top| ==> top[j] in Sentences(text) && '.' !in top[j] && '\n' !in top[j]
  {
    var top := TopSentences(Ranked(text, nlp, hashOrder), n);
    forall j | 0 <= j < |top| ensures top[j] in Sentences(text) && '.' !in top[j] && '\n' !in top[j] {
      RankedFromSentences(text, nlp, hashOrder, j);
      SentencesHaveNoBreaks(text, top[j]);
    }
  }

  /** Upper-casing the first character of tidy text keeps it tidy, and
      what comes out starts with no lower-case letter. */
  lemma CapitalizeKeeps(s: string)
    requires Tidy(s) && s != []
    ensures Tidy(Capitalize(s)) && !IsAsciiLower(Capitalize(s)[0])
  {
    var r := Capitalize(s);
    assert IsSpace(r[0]) == IsSpace(s[0]) && !IsAsciiLower(r[0]);
    assert forall i :: 0 < i < |s| ==> r[i] == s[i] by {
      forall i | 0 < i < |s| ensures r[i] == s[i] {
        assert r[i] == r[1..][i - 1];
      }
    }
  }

  /** Upper-casing the first character writes no comma or semicolon. */
  lemma CapitalizeKeepsOut(s: string)
    requires ',' !in s && ';' !in s
    ensures ',' !in Capitalize(s) && ';' !in Capitalize(s)
  {
    if s != [] {
      assert Capitalize(s) == [Upper(s[0])] + s[1..];
    }
  }

  /** Upper-casing the first character changes no word boundary. */
  lemma CapitalizeKeepsWords(s: string)
    requires s != []
    ensures WordCount(Capitalize(s)) == WordCount(s)
  {
    var r := Capitalize(s);
    assert r[1..] == s[1..];
    assert IsSpace(r[0]) == IsSpace(s[0]);
  }

  /** `identify_main_points`, step by step: scoring, sorting, and the loop
      that simplifies and keeps the top sentences. */
  method IdentifyMainPoints(text: string, n: nat, nlp: Nlp, hashOrder: seq<string>)
    returns (r: Result<seq<string>>)
    ensures r == MainPoints(text, n, nlp, hashOrder)
  {
    var t := NormalizeSpace(text);
    var sentences := Segment(t, MinMainSentence);
    if |sentences| <= n {
      return Ok(SimplifyAll(sentences));
    }
    if nlp.tokenize.None? {
      return Failure(LookupError);
    }
    var concepts := ExtractKeyConcepts(t, nlp, hashOrder);
    var scored := ScoreSentences(sentences, concepts, nlp.tokenize.value);
    var ranked := SortDesc(scored);
    assert ranked == RankedOf(sentences, t, nlp, hashOrder);
    var top := TopSentences(ranked, n);
    var points := FinishTop(top);
    return Ok(points[..Min(n, |points|)]);
  }

  /** The loop of `identify_main_points` over the top sentences. */
  method FinishTop(top: seq<string>) returns (points: seq<string>)
    ensures points == FinishPoints(top)
  {
    ghost var all := SimplifyAll(top);
    points := [];
    for i := 0 to |top|
      invariant points == KeepPoints(all[..i])
    {
      var simplified := Simplify(top[i]);
      assert simplified == all[i];
      KeepPointsSnoc(all, i);
      if WordCount(simplified) >= MinPointWords {
        simplified := Capitalize(simplified);
        points := points + [simplified];
      }
    }
    assert all[..|top|] == all;
  }

  /** The positional anchors of `create_basic_summary`: the first, the
      middle and the last sentence, as far as there are any. A sentence
      can be an anchor twice when the text repeats it. */
  function Anchors(s: seq<string>): (a: seq<string>)
    ensures |a| == Min(3, |s|)
    ensures |s| > 2 ==> a == [s[0], s[|s| / 2], s[|s| - 1]]
  {
    (if |s| > 0 then [s[0]] else [])
    + (if |s| > 2 then [s[|s| / 2]] else [])
    + (if |s| > 1 then [s[|s| - 1]] else [])
  }

  /** The filler loop over `range(i, hi)`: a sentence is added unless it is
      already a point. What comes back is the points given followed by the
      new ones, at most one per sentence of the range. */
  function Fill(s: seq<string>, points: seq<string>, i: nat, hi: int): (r: seq<string>)
    requires hi <= |s|
    ensures |points| <= |r| <= |points| + (if i < hi then hi - i else 0)
    ensures r[..|points|] == points
    decreases hi - i
  {
    if i >= hi then points
    else
      var next := if s[i] in points then points else points + [s[i]];
      var r := Fill(s, next, i + 1, hi);
      assert r[..|points|] == r[..|next|][..|points|];
      r
  }

  /** Each new point is a sentence of the range that is not already among
      the points before it. */
  lemma {:induction false} FillNew(s: seq<string>, points: seq<string>, i: nat, hi: int, k: nat)
    requires hi <= |s| && |points| <= k < |Fill(s, points, i, hi)|
    ensures var r := Fill(s, points, i, hi);
      r[k] !in r[..k] && exists j :: i <= j < hi && r[k] == s[j]
    decreases hi - i
  {
    if i < hi {
      var next := if s[i] in points then points else points + [s[i]];
      var r := Fill(s, next, i + 1, hi);
      assert Fill(s, points, i, hi) == r;
      if k < |next| {
        assert r[..|next|] == next;
        assert r[k] == s[i] && r[..k] == points;
      } else {
        FillNew(s, next, i + 1, hi, k);
      }
    }
  }

  /** Every sentence of the range is a point at the end. */
  lemma {:induction false} FillComplete(s: seq<string>, points: seq<string>, i: nat, hi: int, j: nat)
    requires hi <= |s| && i <= j < hi
    ensures s[j] in Fill(s, points, i, hi)
    decreases hi - i
  {
    var next := if s[i] in points then points else points + [s[i]];
    var r := Fill(s, next, i + 1, hi);
    assert Fill(s, points, i, hi) == r;
    if j == i {
      assert s[i] in next;
      assert r[..|next|] == next;
    } else {
      FillComplete(s, next, i + 1, hi, j);
    }
  }

  /** The points of `create_basic_summary` before the final cut, for more
      sentences than points asked for. */
  function BasicPoints(s: seq<string>, n: nat): (points: seq<string>)
    ensures |Anchors(s)| <= |points| && points[..|Anchors(s)|] == Anchors(s)
  {
    var anchors := Anchors(s);
    var remaining := n - |anchors|;
    if remaining > 0 then Fill(s, anchors, 1, Min(remaining + 1, |s| - 1)) else anchors
  }

  /** The sentences `create_basic_summary` works on: no whitespace
      normalisation, and a larger length threshold. */
  function BasicSentences(text: string): (sentences: seq<string>)
    ensures forall k :: 0 <= k < |sentences| ==>
      |sentences[k]| > MinBasicSentence && Trimmed(sentences[k])
  {
    Segment(text, MinBasicSentence)
  }

  /** `create_basic_summary` once the sentences are split off. With no
      more sentences than points asked for they come back as they are, not
      simplified; otherwise the first n of the anchors and fillers,
      simplified. */
  function BasicSummaryOf(s: seq<string>, n: nat): (r: seq<string>)
    ensures |r| <= n
  {
    if |s| <= n then s[..Min(n, |s|)]
    else
      var points := BasicPoints(s, n);
      SimplifyAll(points[..Min(n, |points|)])
  }

  /** `create_basic_summary`. */
  function BasicSummary(text: string, n: nat): (r: seq<string>)
    ensures |r| <= n
  {
    BasicSummaryOf(BasicSentences(text), n)
  }

  /** Few sentences are returned verbatim. */
  lemma BasicSummaryFewSentences(s: seq<string>, n: nat)
    requires |s| <= n
    ensures BasicSummaryOf(s, n) == s
  {
    assert s[..Min(n, |s|)] == s;
  }

  /** When the anchors leave room, the fillers are the sentences from the
      second to position min(room, count - 2) not already among the points,
      in order, none repeated, and nothing is cut; the anchors are not
      de-duplicated against each other. */
  lemma BasicPointsLayout(s: seq<string>, n: nat)
    requires |s| > n && |Anchors(s)| < n
    ensures var points := BasicPoints(s, n);
      var hi := Min(n - |Anchors(s)| + 1, |s| - 1);
      && |points| <= n
      && points[..|Anchors(s)|] == Anchors(s)
      && (forall k :: |Anchors(s)| <= k < |points| ==>
            points[k] !in points[..k] && exists j :: 1 <= j < hi && points[k] == s[j])
      && (forall j :: 1 <= j < hi ==> s[j] in points)
  {
    var anchors := Anchors(s);
    var hi := Min(n - |anchors| + 1, |s| - 1);
    var points := BasicPoints(s, n);
    assert points == Fill(s, anchors, 1, hi);
    forall k | |anchors| <= k < |points|
      ensures points[k] !in points[..k] && exists j :: 1 <= j < hi && points[k] == s[j]
    {
      FillNew(s, anchors, 1, hi, k);
    }
    forall j | 1 <= j < hi ensures s[j] in points {
      FillComplete(s, anchors, 1, hi, j);
    }
  }

  /** Every point is one of the sentences. */
  lemma BasicPointsFromSentences(s: seq<string>, n: nat, k: nat)
    requires |s| > n && k < |BasicPoints(s, n)|
    ensures exists j :: 0 <= j < |s| && BasicPoints(s, n)[k] == s[j]
  {
    var anchors := Anchors(s);
    var points := BasicPoints(s, n);
    assert points[..|anchors|] == anchors;
    if k < |anchors| {
      assert points[k] == anchors[k];
      if k == 0 {
        assert points[k] == s[0];
      } else if k == 1 && |s| > 2 {
        assert points[k] == s[|s| / 2];
      } else {
        assert points[k] == s[|s| - 1];
      }
    } else {
      var hi := Min(n - |anchors| + 1, |s| - 1);
      FillNew(s, anchors, 1, hi, k);
      var j :| 1 <= j < hi && points[k] == s[j];
    }
  }

  /** With more sentences than points, every item of the summary is the
      simplification of one of the sentences. */
  lemma BasicSummaryFromSentences(s: seq<string>, n: nat, k: nat)
    requires |s| > n && k < |BasicSummaryOf(s, n)|
    ensures exists j :: 0 <= j < |s| && BasicSummaryOf(s, n)[k] == Simplify(s[j])
  {
    var points := BasicPoints(s, n);
    var cut := points[..Min(n, |points|)];
    assert BasicSummaryOf(s, n) == SimplifyAll(cut);
    BasicPointsFromSentences(s, n, k);
    var j :| 0 <= j < |s| && points[k] == s[j];
    assert cut[k] == s[j];
  }

  /** With more sentences than points, the summary starts with the
      simplified anchors, as many as there is room for: the first sentence,
      then the middle and the last one. */
  lemma BasicSummaryAnchorsFirst(s: seq<string>, n: nat)
    requires |s| > n
    ensures var m := Min(3, n);
      m <= |Anchors(s)| && BasicSummaryOf(s, n)[..m] == SimplifyAll(Anchors(s)[..m])
  {
    var m := Min(3, n);
    var anchors := Anchors(s);
    var points := BasicPoints(s, n);
    var cut := points[..Min(n, |points|)];
    assert |points| >= |anchors| && points[..|anchors|] == anchors;
    assert cut[..m] == anchors[..m];
    SimplifyAllPrefix(cut, m);
  }

  /** Simplifying every element commutes with taking a prefix. */
  lemma SimplifyAllPrefix(xs: seq<string>, m: nat)
    requires m <= |xs|
    ensures SimplifyAll(xs)[..m] == SimplifyAll(xs[..m])
  {
    assert forall k :: 0 <= k < m ==> SimplifyAll(xs)[..m][k] == SimplifyAll(xs[..m])[k];
  }

  /** The anchors are not checked against each other: a text whose first
      and last of four sentences agree repeats that sentence. */
  lemma BasicPointsRepeatAnchor(s: seq<string>)
    requires |s| == 4 && s[0] == s[3]
    ensures BasicPoints(s, 3) == [s[0], s[2], s[0]]
  {
  }

  /** `create_basic_summary`: the sentences are split off, then summarised. */
  method CreateBasicSummary(text: string, n: nat) returns (r: seq<string>)
    ensures r == BasicSummary(text, n)
  {
    var sentences := Segment(text, MinBasicSentence);
    r := SummarizeSentences(sentences, n);
  }

  /** The body of `create_basic_summary` after the split. */
  method SummarizeSentences(sentences: seq<string>, n: nat) returns (r: seq<string>)
    ensures r == BasicSummaryOf(sentences, n)
  {
    if |sentences| <= n {
      return sentences[..Min(n, |sentences|)];
    }
    var points := SelectBasicPoints(sentences, n);
    return SimplifyAll(points[..Min(n, |points|)]);
  }

  /** The anchor steps and the filler loop of `create_basic_summary`. */
  method SelectBasicPoints(sentences: seq<string>, n: nat) returns (points: seq<string>)
    ensures points == BasicPoints(sentences, n)
  {
    points := [];
    if |sentences| > 0 {
      points := points + [sentences[0]];
    }
    if |sentences| > 2 {
      points := points + [sentences[|sentences| / 2]];
    }
    if |sentences| > 1 {
      points := points + [sentences[|sentences| - 1]];
    }
    assert points == Anchors(sentences);
    var remaining: int := n - |points|;
    if remaining > 0 {
      var hi := Min(remaining + 1, |sentences| - 1);
      ghost var anchors := points;
      var i: nat := 1;
      while i < hi
        invariant Fill(sentences, points, i, hi) == Fill(sentences, anchors, 1, hi)
        decreases hi - i
      {
        if sentences[i] !in points {
          points := points + [sentences[i]];
        }
        i := i + 1;
      }
    }
  }

  /** `generate_smart_summary`: the ranked points when there are at least
      two of them, the basic summary otherwise; a failure of the ranking
      propagates. */
  function SmartSummary(text: string, n: nat, nlp: Nlp, hashOrder: seq<string>): (r: Result<seq<string>>)
    ensures r.Failure? <==> |Sentences(text)| > n && nlp.tokenize.None?
    ensures r.Ok? ==> |r.value| <= n
  {
    var main := MainPoints(text, n, nlp, hashOrder);
    if main.Failure? then main
    else if main.value == [] || |main.value| < 2 then Ok(BasicSummary(text, n))
    else main
  }

  /** `generate_smart_summary`, calling the two summarisers in turn. */
  method GenerateSmartSummary(text: string, n: nat, nlp: Nlp, hashOrder: seq<string>)
    returns (r: Result<seq<string>>)
    ensures r == SmartSummary(text, n, nlp, hashOrder)
  {
    var main := IdentifyMainPoints(text, n, nlp, hashOrder);
    if main.Failure? {
      return main;
    }
    if main.value == [] || |main.value| < 2 {
      var basic := CreateBasicSummary(text, n);
      return Ok(basic);
    }
    return main;
  }

  /** The ranked points are the answer when there are at least two of
      them; with fewer the basic summary replaces them. */
  lemma SmartSummaryChoice(text: string, n: nat, nlp: Nlp, hashOrder: seq<string>)
    requires MainPoints(text, n, nlp, hashOrder).Ok?
    ensures |MainPoints(text, n, nlp, hashOrder).value| >= 2 ==>
      SmartSummary(text, n, nlp, hashOrder) == MainPoints(text, n, nlp, hashOrder)
    ensures |MainPoints(text, n, nlp, hashOrder).value| < 2 ==>
      SmartSummary(text, n, nlp, hashOrder) == Ok(BasicSummary(text, n))
  {
  }

  /** Empty text gives an empty summary. */
  lemma SmartSummaryOfEmptyText(n: nat, nlp: Nlp, hashOrder: seq<string>)
    ensures SmartSummary("", n, nlp, hashOrder) == Ok([])
  {
    assert SplitTerminals("") == [[]];
    assert Strip([]) == [];
    assert Sentences("") == [];
    assert BasicSentences("") == [];
  }

  /** Two to n sentences: every one of them, simplified, in text order. */
  lemma SmartSummaryFewSentences(text: string, n: nat, nlp: Nlp, hashOrder: seq<string>)
    requires 2 <= |Sentences(text)| <= n
    ensures SmartSummary(text, n, nlp, hashOrder) == Ok(SimplifyAll(Sentences(text)))
  {
    MainPointsFewSentences(text, n, nlp, hashOrder);
  }

  /** A text of a single sentence always takes the basic summary. */
  lemma SmartSummaryOneSentence(text: string, n: nat, nlp: Nlp, hashOrder: seq<string>)
    requires |Sentences(text)| == 1 && n >= 1
    ensures SmartSummary(text, n, nlp, hashOrder) == Ok(BasicSummary(text, n))
  {
    MainPointsFewSentences(text, n, nlp, hashOrder);
  }
}
