/** `simplify_sentence`: six regex substitutions, each applied to the result
    of the one before, then whitespace normalisation. Every substitution is
    a scanner over its own input, so that `\b` and the lookahead see the
    characters around a match in that input, as `re.sub` does; after a match
    the scan resumes where the match ended. */
module Simplifier {
  import opened Wrappers
  import opened Text

  /** Step 1, `[,;].*?(?=\.|$)`: where the lazy `.*?` stops once it has
      reached position k. The lookahead holds before a `.`, at the end, and
      before a newline that ends the text; `.` does not match a newline, so
      a newline anywhere else makes the match fail. */
  function ClauseEnd(s: string, k: nat): (e: Option<nat>)
    requires k <= |s|
    ensures e.Some? ==> k <= e.value <= |s|
    decreases |s| - k
  {
    if k == |s| || s[k] == '.' || (k == |s| - 1 && s[k] == '\n') then Some(k)
    else if s[k] == '\n' then None
    else ClauseEnd(s, k + 1)
  }

  predicate IsClauseMark(c: char) {
    c == ',' || c == ';'
  }

  /** Step 1 on the text from position p on. */
  function DropClausesFrom(s: string, p: nat): (r: string)
    requires p <= |s|
    ensures |r| <= |s| - p
    decreases |s| - p
  {
    if p == |s| then []
    else if IsClauseMark(s[p]) && ClauseEnd(s, p + 1).Some? then
      DropClausesFrom(s, ClauseEnd(s, p + 1).value)
    else
      [s[p]] + DropClausesFrom(s, p + 1)
  }

  /** `re.sub(r'[,;].*?(?=\.|$)', '', s)`. */
  function DropClauses(s: string): (r: string)
    ensures |r| <= |s|
  {
    DropClausesFrom(s, 0)
  }

  /** The first comma or semicolon at or after p (|s| when there is none). */
  function FirstClauseMark(s: string, p: nat): (m: nat)
    requires p <= |s|
    ensures p <= m <= |s|
    ensures m < |s| ==> IsClauseMark(s[m])
    ensures forall i :: p <= i < m ==> !IsClauseMark(s[i])
    decreases |s| - p
  {
    if p == |s| || IsClauseMark(s[p]) then p else FirstClauseMark(s, p + 1)
  }

  predicate NoDotOrNewline(s: string, p: nat) {
    forall i :: p <= i < |s| ==> s[i] != '.' && s[i] != '\n'
  }

  lemma {:induction false} ClauseEndReachesEnd(s: string, k: nat)
    requires k <= |s| && NoDotOrNewline(s, k)
    ensures ClauseEnd(s, k) == Some(|s|)
    decreases |s| - k
  {
    if k < |s| {
      ClauseEndReachesEnd(s, k + 1);
    }
  }

  /** In text with no `.` and no newline, step 1 cuts the text at its first
      comma or semicolon and keeps what comes before. */
  lemma {:induction false} DropClausesCutsAtFirstMark(s: string, p: nat)
    requires p <= |s| && NoDotOrNewline(s, p)
    ensures DropClausesFrom(s, p) == s[p..FirstClauseMark(s, p)]
    decreases |s| - p
  {
    if p < |s| {
      if IsClauseMark(s[p]) {
        ClauseEndReachesEnd(s, p + 1);
      } else {
        DropClausesCutsAtFirstMark(s, p + 1);
      }
    }
  }

  /** `$` also matches before a newline that ends the string, so a clause
      running up to such a newline is deleted and the newline stays. */
  lemma ClauseBeforeFinalNewline()
    ensures DropClauses("a,b\n") == "a\n"
  {
  }

  /** A newline inside the text stops the lazy `.*?` before it reaches a
      `.` or the end, so the clause is kept. */
  lemma ClauseAcrossNewlineKept()
    ensures DropClauses("a,b\nc") == "a,b\nc"
  {
  }

  /** Step 2, `\(.*?\)`: the position after the closing parenthesis that
      the lazy `.*?` reaches from k, if no newline comes first. */
  function ParenEnd(s: string, k: nat): (e: Option<nat>)
    requires k <= |s|
    ensures e.Some? ==> k < e.value <= |s| && s[e.value - 1] == ')'
    ensures e.Some? ==> forall i :: k <= i < e.value - 1 ==> s[i] != ')' && s[i] != '\n'
    ensures e.None? ==> forall i :: k <= i < |s| && s[i] == ')' ==>
      exists j :: k <= j < i && s[j] == '\n'
    decreases |s| - k
  {
    if k == |s| then None
    else if s[k] == ')' then Some(k + 1)
    else if s[k] == '\n' then None
    else ParenEnd(s, k + 1)
  }

  /** Step 2 on the text from position p on. */
  function DropParensFrom(s: string, p: nat): (r: string)
    requires p <= |s|
    ensures |r| <= |s| - p
    decreases |s| - p
  {
    if p == |s| then []
    else if s[p] == '(' && ParenEnd(s, p + 1).Some? then
      DropParensFrom(s, ParenEnd(s, p + 1).value)
    else
      [s[p]] + DropParensFrom(s, p + 1)
  }

  /** `re.sub(r'\(.*?\)', '', s)`. */
  function DropParens(s: string): (r: string)
    ensures |r| <= |s|
  {
    DropParensFrom(s, 0)
  }

  /** s holds w at position p, ignoring ASCII case (w is lower case). */
  predicate MatchesAt(s: string, p: nat, w: string) {
    p + |w| <= |s| && forall k :: 0 <= k < |w| ==> Lower(s[p + k]) == w[k]
  }

  /** `\b(w0|w1|...)\b` at position p: the first alternative from the
      k-th on, in order, that matches and is followed by a word boundary. */
  function WordAt(s: string, p: nat, words: seq<string>, k: nat): (i: Option<nat>)
    requires p <= |s| && k <= |words|
    ensures i.Some? ==> k <= i.value < |words| && p + |words[i.value]| <= |s|
    decreases |words| - k
  {
    if k == |words| then None
    else if IsBoundary(s, p) && MatchesAt(s, p, words[k]) && IsBoundary(s, p + |words[k]|) then
      Some(k)
    else
      WordAt(s, p, words, k + 1)
  }

  /** Every alternative is non-empty and no shorter than its replacement. */
  predicate Shrinks(words: seq<string>, repl: string) {
    forall i :: 0 <= i < |words| ==> 0 < |words[i]| && |repl| <= |words[i]|
  }

  /** `re.sub(r'\b(w0|w1|...)\b', repl, s, flags=re.IGNORECASE)` on the text
      from position p on. */
  function ReplaceWordsFrom(s: string, p: nat, words: seq<string>, repl: string): (r: string)
    requires p <= |s| && Shrinks(words, repl)
    ensures |r| <= |s| - p
    decreases |s| - p
  {
    if p == |s| then []
    else match WordAt(s, p, words, 0)
      case Some(i) => repl + ReplaceWordsFrom(s, p + |words[i]|, words, repl)
      case None => [s[p]] + ReplaceWordsFrom(s, p + 1, words, repl)
  }

  const Connectives: seq<string> :=
    ["however", "although", "despite", "nevertheless", "furthermore", "moreover"]

  const Verbs: seq<string> := ["is", "are", "was", "were"]

  const UtilizeForms: seq<string> := ["utilize", "utilizes", "utilized"]

  const Hedges: seq<string> := ["approximately", "roughly", "about"]

  /** Step 3: the discourse connectives are deleted. */
  function DropConnectives(s: string): (r: string)
    ensures |r| <= |s|
  {
    ReplaceWordsFrom(s, 0, Connectives, "")
  }

  /** `\b<verb>\s+able to\b` at p, for one verb: where the match ends. The
      greedy `\s+` takes the whole whitespace run (giving any back would put
      whitespace where `a` is expected). */
  function AbleToWith(s: string, p: nat, verb: string): (e: Option<nat>)
    requires p <= |s|
    ensures e.Some? ==> p + |verb| + 8 <= e.value <= |s|
  {
    if IsBoundary(s, p) && MatchesAt(s, p, verb) then
      var q := p + |verb|;
      var e := SkipSpaces(s, q);
      if q < e && MatchesAt(s, e, "able to") && IsBoundary(s, e + 7) then Some(e + 7) else None
    else None
  }

  /** `\b(is|are|was|were)\s+able to\b` at p: the first verb, in order, for
      which the whole pattern matches. */
  function AbleToAt(s: string, p: nat, verbs: seq<string>): (e: Option<nat>)
    requires p <= |s|
    requires forall v :: v in verbs ==> 2 <= |v|
    ensures e.Some? ==> p + 10 <= e.value <= |s|
  {
    if verbs == [] then None
    else if AbleToWith(s, p, verbs[0]).Some? then AbleToWith(s, p, verbs[0])
    else AbleToAt(s, p, verbs[1..])
  }

  /** Step 4 on the text from position p on. */
  function RewriteAbleToFrom(s: string, p: nat): (r: string)
    requires p <= |s|
    ensures |r| <= |s| - p
    decreases |s| - p
  {
    if p == |s| then []
    else match AbleToAt(s, p, Verbs)
      case Some(e) => "can" + RewriteAbleToFrom(s, e)
      case None => [s[p]] + RewriteAbleToFrom(s, p + 1)
  }

  /** Step 4: "is/are/was/were able to" becomes "can". */
  function RewriteAbleTo(s: string): (r: string)
    ensures |r| <= |s|
  {
    RewriteAbleToFrom(s, 0)
  }

  /** Step 5: "utilize", "utilizes", "utilized" become "use". */
  function RewriteUtilize(s: string): (r: string)
    ensures |r| <= |s|
  {
    ReplaceWordsFrom(s, 0, UtilizeForms, "use")
  }

  /** Step 6: "approximately", "roughly", "about" become "~". */
  function RewriteHedges(s: string): (r: string)
    ensures |r| <= |s|
  {
    ReplaceWordsFrom(s, 0, Hedges, "~")
  }

  /** `simplify_sentence`: never longer than its input. */
  function Simplify(s: string): (r: string)
    ensures |r| <= |s|
  {
    NormalizeSpace(RewriteHedges(RewriteUtilize(RewriteAbleTo(
      DropConnectives(DropParens(DropClauses(s)))))))
  }

  /** The whitespace of a simplified sentence is tidy: no leading or
      trailing whitespace, and single plain spaces between words. */
  lemma SimplifyIsTidy(s: string)
    ensures Tidy(Simplify(s))
  {
    NormalizeSpaceIsTidy(RewriteHedges(RewriteUtilize(RewriteAbleTo(
      DropConnectives(DropParens(DropClauses(s)))))));
  }

  /** Step 1 writes no character its input lacks. */
  lemma {:induction false} DropClausesFromKeepsOut(s: string, p: nat, c: char)
    requires p <= |s| && c !in s
    ensures c !in DropClausesFrom(s, p)
    decreases |s| - p
  {
    if p < |s| {
      if IsClauseMark(s[p]) && ClauseEnd(s, p + 1).Some? {
        DropClausesFromKeepsOut(s, ClauseEnd(s, p + 1).value, c);
      } else {
        DropClausesFromKeepsOut(s, p + 1, c);
      }
    }
  }

  /** Step 2 writes no character its input lacks. */
  lemma {:induction false} DropParensFromKeepsOut(s: string, p: nat, c: char)
    requires p <= |s| && c !in s
    ensures c !in DropParensFrom(s, p)
    decreases |s| - p
  {
    if p < |s| {
      if s[p] == '(' && ParenEnd(s, p + 1).Some? {
        DropParensFromKeepsOut(s, ParenEnd(s, p + 1).value, c);
      } else {
        DropParensFromKeepsOut(s, p + 1, c);
      }
    }
  }

  /** A word replacement writes no character that neither its input nor
      the replacement holds. */
  lemma {:induction false} ReplaceWordsFromKeepsOut(s: string, p: nat, words: seq<string>, repl: string, c: char)
    requires p <= |s| && Shrinks(words, repl) && c !in s && c !in repl
    ensures c !in ReplaceWordsFrom(s, p, words, repl)
    decreases |s| - p
  {
    if p < |s| {
      match WordAt(s, p, words, 0)
      case Some(i) =>
        var rest := ReplaceWordsFrom(s, p + |words[i]|, words, repl);
        ReplaceWordsFromKeepsOut(s, p + |words[i]|, words, repl, c);
        assert ReplaceWordsFrom(s, p, words, repl) == repl + rest;
      case None =>
        var rest := ReplaceWordsFrom(s, p + 1, words, repl);
        ReplaceWordsFromKeepsOut(s, p + 1, words, repl, c);
        assert ReplaceWordsFrom(s, p, words, repl) == [s[p]] + rest;
    }
  }

  /** Step 4 writes no character that neither its input nor "can" holds. */
  lemma {:induction false} RewriteAbleToFromKeepsOut(s: string, p: nat, c: char)
    requires p <= |s| && c !in s && c !in "can"
    ensures c !in RewriteAbleToFrom(s, p)
    decreases |s| - p
  {
    if p < |s| {
      match AbleToAt(s, p, Verbs)
      case Some(e) =>
        RewriteAbleToFromKeepsOut(s, e, c);
      case None =>
        RewriteAbleToFromKeepsOut(s, p + 1, c);
    }
  }

  /** A sentence with no `.` and no newline comes out of the simplifier with
      no comma or semicolon: step 1 deletes everything from the first one,
      and no later step writes either character. */
  lemma SimplifyDropsClauseMarks(s: string)
    requires '.' !in s && '\n' !in s
    ensures ',' !in Simplify(s) && ';' !in Simplify(s)
  {
    assert ',' !in Simplify(s) by {
      ClausesDropped(s);
      LaterStepsKeepOut(s, ',');
    }
    assert ';' !in Simplify(s) by {
      ClausesDropped(s);
      LaterStepsKeepOut(s, ';');
    }
  }

  /** Step 1 leaves no comma or semicolon in a sentence with no `.` and no
      newline. */
  lemma ClausesDropped(s: string)
    requires '.' !in s && '\n' !in s
    ensures NoClauseMark(DropClauses(s))
  {
    DropClausesCutsAtFirstMark(s, 0);
    var m := FirstClauseMark(s, 0);
    var t1 := DropClauses(s);
    assert t1 == s[..m];
    forall i | 0 <= i < |t1| ensures !IsClauseMark(t1[i]) {
      assert t1[i] == s[i];
    }
  }

  /** Steps 2 to 6 and the normalisation write no character that none of
      the result of step 1, the replacements and the space holds. */
  lemma LaterStepsKeepOut(s: string, c: char)
    requires c !in DropClauses(s) && c !in "can" && c !in "use" && c != '~' && c != ' '
    ensures c !in Simplify(s)
  {
    var t1 := DropClauses(s);
    var t3 := DropConnectives(DropParens(t1));
    DeletionsKeepOut(t1, c);
    var t6 := RewriteHedges(RewriteUtilize(RewriteAbleTo(t3)));
    RewritesKeepOut(t3, c);
    NormalizeSpaceKeepsOut(t6, c);
  }

  /** Steps 2 and 3 write no character their input lacks. */
  lemma DeletionsKeepOut(t1: string, c: char)
    requires c !in t1
    ensures c !in DropConnectives(DropParens(t1))
  {
    DropParensFromKeepsOut(t1, 0, c);
    ReplaceWordsFromKeepsOut(DropParens(t1), 0, Connectives, "", c);
  }

  /** Steps 4 to 6 write no character that neither their input nor the
      replacements hold. */
  lemma RewritesKeepOut(t3: string, c: char)
    requires c !in t3 && c !in "can" && c !in "use" && c != '~'
    ensures c !in RewriteHedges(RewriteUtilize(RewriteAbleTo(t3)))
  {
    var t4 := RewriteAbleTo(t3);
    RewriteAbleToFromKeepsOut(t3, 0, c);
    var t5 := RewriteUtilize(t4);
    ReplaceWordsFromKeepsOut(t4, 0, UtilizeForms, "use", c);
    ReplaceWordsFromKeepsOut(t5, 0, Hedges, "~", c);
  }

  predicate NoClauseMark(s: string) {
    ',' !in s && ';' !in s
  }
}
