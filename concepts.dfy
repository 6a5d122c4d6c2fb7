/** `extract_key_concepts`: distinct noun-like words of the text, at most
    eight. The primary path asks NLTK to tokenize and tag the text; when any
    of the NLTK services it needs cannot be loaded the call raises and the
    `except` branch takes over with a capitalisation pattern. */
module Concepts {
  import opened Wrappers
  import opened Text

  /** The NLTK services the summariser calls, each absent when NLTK cannot
      load the resource behind it (the call then raises LookupError):
      `word_tokenize`, `pos_tag` (word/tag pairs) and
      `stopwords.words('english')`. */
  datatype Nlp = Nlp(
    tokenize: Option<string -> seq<string>>,
    tag: Option<seq<string> -> seq<(string, string)>>,
    stopWords: Option<seq<string>>)

  const MaxConcepts: nat := 8

  /** The tags of singular and plural, common and proper nouns. */
  const NounTags: seq<string> := ["NN", "NNS", "NNP", "NNPS"]

  /** The exclusion list of the fallback path. */
  const CommonWords: seq<string> :=
    ["the", "and", "is", "in", "of", "to", "a", "that", "it", "with", "for", "as", "was", "on"]

  predicate NoDuplicates(xs: seq<string>) {
    forall i, j :: 0 <= i < j < |xs| ==> xs[i] != xs[j]
  }

  /** The distinct elements of xs, each at its first occurrence. */
  function Dedup(xs: seq<string>): (r: seq<string>)
    ensures NoDuplicates(r) && |r| <= |xs|
    ensures forall x :: x in r <==> x in xs
  {
    if xs == [] then []
    else
      var init := xs[..|xs| - 1];
      var last := xs[|xs| - 1];
      assert xs == init + [last];
      var r := Dedup(init);
      if last in r then r else r + [last]
  }

  /** The elements of order that occur in xs, in the order of order. */
  function Keep(order: seq<string>, xs: seq<string>): (r: seq<string>)
    ensures forall x :: x in r <==> x in order && x in xs
  {
    if order == [] then []
    else if order[0] in xs then [order[0]] + Keep(order[1..], xs)
    else Keep(order[1..], xs)
  }

  /** `list(set(xs))`. The order a Python set yields its strings in comes
      from their hashes, so it is an input here: the elements of hashOrder
      that occur in xs come first, in that order, then any others of xs in
      first-occurrence order. The result lists each element of xs once. */
  function SetToList(xs: seq<string>, hashOrder: seq<string>): (r: seq<string>)
    ensures NoDuplicates(r)
    ensures forall x :: x in r <==> x in xs
  {
    Dedup(Keep(hashOrder, xs) + xs)
  }

  lemma {:induction false} DedupOfDistinct(a: seq<string>)
    requires NoDuplicates(a)
    ensures Dedup(a) == a
  {
    if a != [] {
      var init := a[..|a| - 1];
      assert NoDuplicates(init);
      DedupOfDistinct(init);
      assert a[|a| - 1] !in init;
      assert a == init + [a[|a| - 1]];
    }
  }

  lemma {:induction false} DedupAbsorbs(a: seq<string>, b: seq<string>)
    requires NoDuplicates(a) && forall x :: x in b ==> x in a
    ensures Dedup(a + b) == a
  {
    if b == [] {
      assert a + b == a;
      DedupOfDistinct(a);
    } else {
      var init := b[..|b| - 1];
      assert (a + b)[..|a + b| - 1] == a + init;
      DedupAbsorbs(a, init);
    }
  }

  lemma {:induction false} KeepAll(order: seq<string>, xs: seq<string>)
    requires forall x :: x in order ==> x in xs
    ensures Keep(order, xs) == order
  {
    if order != [] {
      KeepAll(order[1..], xs);
    }
  }

  /** The hash order is all SetToList leaves open: every duplicate-free
      listing of the elements of xs is the result for some hash order. */
  lemma SetToListReachesEveryListing(xs: seq<string>, listing: seq<string>)
    requires NoDuplicates(listing)
    requires forall x :: x in listing <==> x in xs
    ensures SetToList(xs, listing) == listing
  {
    KeepAll(listing, xs);
    DedupAbsorbs(listing, xs);
  }

  /** A token the tagger marked as a noun, at least four characters long,
      whose lower-case form is not a stop word. */
  predicate IsNounCandidate(t: (string, string), stops: seq<string>) {
    t.1 in NounTags && LowerStr(t.0) !in stops && |t.0| > 3
  }

  /** The list comprehension of the primary path. */
  function NounCandidates(tagged: seq<(string, string)>, stops: seq<string>): (cs: seq<string>)
    ensures forall w :: w in cs <==> exists t :: t in tagged && IsNounCandidate(t, stops) && t.0 == w
  {
    if tagged == [] then []
    else
      var rest := NounCandidates(tagged[1..], stops);
      assert forall t :: t in tagged <==> t == tagged[0] || t in tagged[1..];
      if IsNounCandidate(tagged[0], stops) then [tagged[0].0] + rest else rest
  }

  /** w has the shape `[A-Z][a-z]+`. */
  predicate IsCapitalized(w: string) {
    2 <= |w| && IsAsciiUpper(w[0]) && forall i :: 1 <= i < |w| ==> IsAsciiLower(w[i])
  }

  /** The end of the run of ASCII lower-case letters that starts at k. */
  function LowerRunEnd(s: string, k: nat): (e: nat)
    requires k <= |s|
    ensures k <= e <= |s|
    ensures forall i :: k <= i < e ==> IsAsciiLower(s[i])
    decreases |s| - k
  {
    if k < |s| && IsAsciiLower(s[k]) then LowerRunEnd(s, k + 1) else k
  }

  /** `\b[A-Z][a-z]+\b` at position p: where the match ends. Giving back
      letters of the greedy `[a-z]+` cannot help, since it would leave a
      letter on both sides of the final `\b`. */
  function CapitalizedAt(s: string, p: nat): (e: Option<nat>)
    requires p < |s|
    ensures e.Some? ==> p + 2 <= e.value <= |s| && IsCapitalized(s[p..e.value])
  {
    if IsBoundary(s, p) && IsAsciiUpper(s[p]) then
      var e := LowerRunEnd(s, p + 1);
      if p + 1 < e && IsBoundary(s, e) then Some(e) else None
    else None
  }

  /** `re.findall(r'\b[A-Z][a-z]+\b', s)` from position p on. */
  function CapitalizedFrom(s: string, p: nat): (ws: seq<string>)
    ensures forall k :: 0 <= k < |ws| ==> IsCapitalized(ws[k])
    decreases |s| - p
  {
    if p >= |s| then []
    else match CapitalizedAt(s, p)
      case Some(e) => [s[p..e]] + CapitalizedFrom(s, e)
      case None => CapitalizedFrom(s, p + 1)
  }

  /** A capitalised word of the fallback path that is kept. */
  predicate IsFallbackCandidate(w: string) {
    LowerStr(w) !in CommonWords && |w| > 3
  }

  /** The list comprehension of the fallback path. */
  function FallbackCandidates(words: seq<string>): (cs: seq<string>)
    ensures forall w :: w in cs <==> w in words && IsFallbackCandidate(w)
  {
    if words == [] then []
    else
      var rest := FallbackCandidates(words[1..]);
      assert forall w :: w in words <==> w == words[0] || w in words[1..];
      if IsFallbackCandidate(words[0]) then [words[0]] + rest else rest
  }

  /** The primary path runs to the end only when all three services load. */
  predicate PrimaryAvailable(nlp: Nlp) {
    nlp.tokenize.Some? && nlp.tag.Some? && nlp.stopWords.Some?
  }

  /** The words the chosen path keeps, before de-duplication. */
  function Candidates(text: string, nlp: Nlp): seq<string> {
    if PrimaryAvailable(nlp) then
      NounCandidates(nlp.tag.value(nlp.tokenize.value(text)), nlp.stopWords.value)
    else
      FallbackCandidates(CapitalizedFrom(text, 0))
  }

  /** `extract_key_concepts`: at most eight of the candidates, as the set
      of them lists them. */
  function ExtractKeyConcepts(text: string, nlp: Nlp, hashOrder: seq<string>): (r: seq<string>)
    ensures |r| <= MaxConcepts
  {
    var listed := SetToList(Candidates(text, nlp), hashOrder);
    listed[..Min(MaxConcepts, |listed|)]
  }

  /** The concepts are distinct candidates, each longer than three
      characters; on the primary path each was tagged as a noun and is no
      stop word, on the fallback path each has the shape `[A-Z][a-z]+` and
      is not in the exclusion list. */
  lemma ConceptsAreCandidates(text: string, nlp: Nlp, hashOrder: seq<string>)
    ensures var r := ExtractKeyConcepts(text, nlp, hashOrder);
      && NoDuplicates(r)
      && (forall w :: w in r ==> w in Candidates(text, nlp) && |w| > 3)
      && (PrimaryAvailable(nlp) ==> forall w :: w in r ==>
            LowerStr(w) !in nlp.stopWords.value &&
            exists t :: t in nlp.tag.value(nlp.tokenize.value(text)) && t.0 == w && t.1 in NounTags)
      && (!PrimaryAvailable(nlp) ==> forall w :: w in r ==>
            IsCapitalized(w) && LowerStr(w) !in CommonWords)
  {
    var listed := SetToList(Candidates(text, nlp), hashOrder);
    var r := listed[..Min(MaxConcepts, |listed|)];
    assert forall w :: w in r ==> w in listed;
  }

  /** No candidate is lost while there is room: the concepts are the first
      min(8, n) of the n distinct candidates, so with at most eight distinct
      candidates every one of them is a concept. */
  lemma ConceptsComplete(text: string, nlp: Nlp, hashOrder: seq<string>)
    ensures var distinct := Dedup(Candidates(text, nlp));
      |ExtractKeyConcepts(text, nlp, hashOrder)| == Min(MaxConcepts, |distinct|)
    ensures |Dedup(Candidates(text, nlp))| <= MaxConcepts ==>
      forall w :: w in Candidates(text, nlp) ==> w in ExtractKeyConcepts(text, nlp, hashOrder)
  {
    var cands := Candidates(text, nlp);
    var listed := SetToList(cands, hashOrder);
    DistinctSameSize(listed, Dedup(cands));
  }

  /** Two duplicate-free lists with the same elements have the same length. */
  lemma DistinctSameSize(a: seq<string>, b: seq<string>)
    requires NoDuplicates(a) && NoDuplicates(b)
    requires forall x :: x in a <==> x in b
    ensures |a| == |b|
  {
    DistinctNoLonger(a, b);
    DistinctNoLonger(b, a);
  }

  /** A duplicate-free list is no longer than any list holding its elements. */
  lemma {:induction false} DistinctNoLonger(a: seq<string>, b: seq<string>)
    requires NoDuplicates(a)
    requires forall x :: x in a ==> x in b
    ensures |a| <= |b|
  {
    if a != [] {
      var x := a[0];
      assert x in a;
      var i :| 0 <= i < |b| && b[i] == x;
      var b' := b[..i] + b[i + 1..];
      forall y | y in a[1..] ensures y in b' {
        var k :| 0 <= k < |a[1..]| && a[1..][k] == y;
        assert a[k + 1] == y && y != x;
        assert y in a;
        var j :| 0 <= j < |b| && b[j] == y;
        if j < i { assert b'[j] == y; } else { assert b'[j - 1] == y; }
      }
      DistinctNoLonger(a[1..], b');
    }
  }
}
