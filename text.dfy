/** The Python string primitives the summariser is built from: the
    whitespace class (`str.isspace`, regex `\s`), the regex word class used
    by `\b`, `lower`/`upper`, `strip`, `split()`, `re.sub(r'\s+', ' ', ...)`,
    `re.split(r'[.!?]', ...)`, substring containment (`in`) and the
    code-point ordering of `str`. */
module Text {

  /** `str.isspace()`, which is also what the regex class `\s` matches in a
      str pattern: tab to carriage return, the four information separators,
      space, and the Unicode space characters. */
  predicate IsSpace(c: char) {
    || ('\t' <= c <= '\r')
    || ('\U{1C}' <= c <= ' ')
    || c == '\U{85}' || c == '\U{A0}' || c == '\U{1680}'
    || ('\U{2000}' <= c <= '\U{200A}')
    || c == '\U{2028}' || c == '\U{2029}' || c == '\U{202F}'
    || c == '\U{205F}' || c == '\U{3000}'
  }

  predicate IsAsciiUpper(c: char) { 'A' <= c <= 'Z' }

  predicate IsAsciiLower(c: char) { 'a' <= c <= 'z' }

  /** The regex class `\w`, restricted to ASCII. */
  predicate IsWordChar(c: char) {
    IsAsciiUpper(c) || IsAsciiLower(c) || ('0' <= c <= '9') || c == '_'
  }

  /** `c.lower()` on the ASCII letters. */
  function Lower(c: char): char {
    if IsAsciiUpper(c) then (c as int + 32) as char else c
  }

  /** `c.upper()` on the ASCII letters. */
  function Upper(c: char): char {
    if IsAsciiLower(c) then (c as int - 32) as char else c
  }

  /** `s.lower()`. */
  function LowerStr(s: string): string {
    seq(|s|, i requires 0 <= i < |s| => Lower(s[i]))
  }

  /** True when position i of s holds a word character. */
  predicate IsWordAt(s: string, i: int) {
    0 <= i < |s| && IsWordChar(s[i])
  }

  /** The zero-width regex assertion `\b` at position p of s. */
  predicate IsBoundary(s: string, p: int) {
    IsWordAt(s, p - 1) != IsWordAt(s, p)
  }

  /** Every character of r occurs in s. */
  predicate CharsFrom(r: string, s: string) {
    forall c :: c in r ==> c in s
  }

  /** Whitespace in s is plain spaces, never two in a row. */
  predicate SpacesCollapsed(s: string) {
    && (forall i :: 0 <= i < |s| && IsSpace(s[i]) ==> s[i] == ' ')
    && (forall i, j :: 0 <= i < |s| && j == i + 1 < |s| ==> !(IsSpace(s[i]) && IsSpace(s[j])))
  }

  /** s neither starts nor ends with whitespace. */
  predicate Trimmed(s: string) {
    s == [] || (!IsSpace(s[0]) && !IsSpace(s[|s| - 1]))
  }

  /** Trimmed, with single plain spaces between words. */
  predicate Tidy(s: string) {
    SpacesCollapsed(s) && Trimmed(s)
  }

  /** The first index at or after i that holds no whitespace, or |s|. */
  function SkipSpaces(s: string, i: nat): (k: nat)
    requires i <= |s|
    ensures i <= k <= |s| && (k < |s| ==> !IsSpace(s[k]))
    ensures forall j :: i <= j < k ==> IsSpace(s[j])
    decreases |s| - i
  {
    if i < |s| && IsSpace(s[i]) then SkipSpaces(s, i + 1) else i
  }

  /** The end of s[lo..hi] once its trailing whitespace is dropped. */
  function UnspacedEnd(s: string, lo: nat, hi: nat): (k: nat)
    requires lo <= hi <= |s|
    ensures lo <= k <= hi && (k > lo ==> !IsSpace(s[k - 1]))
    ensures forall j :: k <= j < hi ==> IsSpace(s[j])
    decreases hi
  {
    if hi > lo && IsSpace(s[hi - 1]) then UnspacedEnd(s, lo, hi - 1) else hi
  }

  /** `s.lstrip()`: the suffix of s after its leading whitespace. */
  function TrimStart(s: string): (r: string)
    ensures |r| <= |s| && (r == [] || !IsSpace(r[0]))
  {
    s[SkipSpaces(s, 0)..]
  }

  function Min(a: int, b: int): int {
    if a <= b then a else b
  }

  /** A slice keeps the characters and the spacing of what it is cut from. */
  lemma SliceKeeps(s: string, i: nat, j: nat)
    requires i <= j <= |s|
    ensures CharsFrom(s[i..j], s)
    ensures SpacesCollapsed(s) ==> SpacesCollapsed(s[i..j])
  {
    var t := s[i..j];
    assert forall k :: 0 <= k < |t| ==> t[k] == s[i + k];
    forall c | c in t ensures c in s {
      var k :| 0 <= k < |t| && t[k] == c;
    }
  }

  /** `s.strip()`: s without its leading and trailing whitespace. */
  function Strip(s: string): (r: string)
    ensures |r| <= |s| && Trimmed(r)
  {
    var a := SkipSpaces(s, 0);
    s[a..UnspacedEnd(s, a, |s|)]
  }

  /** What strip keeps is one slice of its input: it has only characters
      of the input, keeps collapsed spacing collapsed, and leaves trimmed
      text as it is. */
  lemma StripKeeps(s: string)
    ensures CharsFrom(Strip(s), s)
    ensures SpacesCollapsed(s) ==> SpacesCollapsed(Strip(s))
    ensures Trimmed(s) ==> Strip(s) == s
  {
    var a := SkipSpaces(s, 0);
    SliceKeeps(s, a, UnspacedEnd(s, a, |s|));
    if Trimmed(s) && s != [] {
      assert a == 0;
      assert UnspacedEnd(s, 0, |s|) == |s|;
      assert s[0..|s|] == s;
    }
  }

  /** `re.sub(r'\s+', ' ', s)`: each run of whitespace becomes one space. */
  function CollapseSpaces(s: string): (r: string)
    ensures |r| <= |s|
    decreases |s|
  {
    if s == [] then []
    else if IsSpace(s[0]) then [' '] + CollapseSpaces(TrimStart(s))
    else [s[0]] + CollapseSpaces(s[1..])
  }

  /** The result of CollapseSpaces has collapsed spacing and starts the
      way its input does. */
  lemma {:induction false} CollapseSpacesShape(s: string)
    ensures SpacesCollapsed(CollapseSpaces(s))
    ensures s != [] && !IsSpace(s[0]) ==> CollapseSpaces(s) != [] && CollapseSpaces(s)[0] == s[0]
    ensures s != [] && IsSpace(s[0]) ==> CollapseSpaces(s) != [] && CollapseSpaces(s)[0] == ' '
    decreases |s|
  {
    if s != [] {
      if IsSpace(s[0]) {
        CollapseSpacesShape(TrimStart(s));
      } else {
        CollapseSpacesShape(s[1..]);
      }
    }
  }

  /** CollapseSpaces adds no character but the space. */
  lemma {:induction false} CollapseSpacesKeepsOut(s: string, c: char)
    requires c !in s && c != ' '
    ensures c !in CollapseSpaces(s)
    decreases |s|
  {
    if s != [] {
      if IsSpace(s[0]) {
        var t := TrimStart(s);
        SliceKeeps(s, SkipSpaces(s, 0), |s|);
        CollapseSpacesKeepsOut(t, c);
      } else {
        CollapseSpacesKeepsOut(s[1..], c);
      }
    }
  }

  /** `re.sub(r'\s+', ' ', s).strip()`, the normalisation both the
      summariser and the simplifier apply. */
  function NormalizeSpace(s: string): (r: string)
    ensures |r| <= |s|
  {
    Strip(CollapseSpaces(s))
  }

  /** Normalised text is tidy. */
  lemma NormalizeSpaceIsTidy(s: string)
    ensures Tidy(NormalizeSpace(s))
  {
    CollapseSpacesShape(s);
    StripKeeps(CollapseSpaces(s));
  }

  /** Normalisation writes no character but the space that its input
      lacks. */
  lemma NormalizeSpaceKeepsOut(s: string, c: char)
    requires c !in s && c != ' '
    ensures c !in NormalizeSpace(s)
  {
    CollapseSpacesKeepsOut(s, c);
  }

  /** On already collapsed text CollapseSpaces changes nothing. */
  lemma {:induction false} CollapseSpacesFixes(s: string)
    requires SpacesCollapsed(s)
    ensures CollapseSpaces(s) == s
    decreases |s|
  {
    if s != [] {
      CollapsedTail(s);
      CollapseSpacesFixes(s[1..]);
      if IsSpace(s[0]) {
        TrimStartOne(s);
        assert CollapseSpaces(s) == [' '] + CollapseSpaces(s[1..]);
      } else {
        assert CollapseSpaces(s) == [s[0]] + CollapseSpaces(s[1..]);
      }
      assert s == [s[0]] + s[1..];
    }
  }

  /** Collapsed spacing holds of the tail, and a leading space is a plain
      one with no whitespace after it. */
  lemma CollapsedTail(s: string)
    requires SpacesCollapsed(s) && s != []
    ensures SpacesCollapsed(s[1..])
    ensures IsSpace(s[0]) ==> s[0] == ' ' && (s[1..] == [] || !IsSpace(s[1]))
  {
    var t := s[1..];
    assert forall i :: 0 <= i < |t| ==> t[i] == s[i + 1];
  }

  /** One whitespace character followed by none: lstrip removes just it. */
  lemma TrimStartOne(s: string)
    requires s != [] && IsSpace(s[0]) && (s[1..] == [] || !IsSpace(s[1]))
    ensures TrimStart(s) == s[1..]
  {
    assert SkipSpaces(s, 0) == 1;
  }

  /** NormalizeSpace fixes exactly the tidy strings, so it is idempotent. */
  lemma NormalizeSpaceFixpoints(s: string)
    ensures NormalizeSpace(s) == s <==> Tidy(s)
    ensures NormalizeSpace(NormalizeSpace(s)) == NormalizeSpace(s)
  {
    if Tidy(s) {
      CollapseSpacesFixes(s);
      StripKeeps(s);
    }
    NormalizeSpaceIsTidy(s);
    var t := NormalizeSpace(s);
    CollapseSpacesFixes(t);
    StripKeeps(t);
  }

  /** `.`, `!` and `?`, the separators of `re.split(r'[.!?]', ...)`. */
  predicate IsTerminal(c: char) {
    c == '.' || c == '!' || c == '?'
  }

  /** The terminal punctuation of s, in order. */
  function Terminals(s: string): (ts: string)
    ensures forall c :: c in ts ==> IsTerminal(c)
  {
    if s == [] then []
    else if IsTerminal(s[0]) then [s[0]] + Terminals(s[1..])
    else Terminals(s[1..])
  }

  predicate NoTerminal(s: string) {
    forall c :: c in s ==> !IsTerminal(c)
  }

  /** `re.split(r'[.!?]', s)`: the pieces between terminal punctuation. */
  function SplitTerminals(s: string): (frags: seq<string>)
    ensures |frags| == |Terminals(s)| + 1
  {
    if s == [] then [[]]
    else
      var rest := SplitTerminals(s[1..]);
      if IsTerminal(s[0]) then [[]] + rest
      else [[s[0]] + rest[0]] + rest[1..]
  }

  /** Every character of a piece is a character of the text and not
      terminal punctuation. */
  lemma {:induction false} SplitTerminalsPieces(s: string, k: nat, c: char)
    requires k < |SplitTerminals(s)| && c in SplitTerminals(s)[k]
    ensures !IsTerminal(c) && c in s
  {
    if s != [] {
      var rest := SplitTerminals(s[1..]);
      if IsTerminal(s[0]) {
        assert SplitTerminals(s) == [[]] + rest;
        SplitTerminalsPieces(s[1..], k - 1, c);
      } else if k == 0 {
        assert SplitTerminals(s)[0] == [s[0]] + rest[0];
        if c != s[0] {
          SplitTerminalsPieces(s[1..], 0, c);
        }
      } else {
        assert SplitTerminals(s)[k] == rest[k];
        SplitTerminalsPieces(s[1..], k, c);
      }
    }
  }

  /** Puts the separators back between the pieces. */
  function Join(frags: seq<string>, seps: string): string
    requires |frags| == |seps| + 1
  {
    if seps == [] then frags[0]
    else frags[0] + [seps[0]] + Join(frags[1..], seps[1..])
  }

  /** Splitting loses nothing but the separators: joining the pieces with
      the terminals they were split at gives back the text. */
  lemma {:induction false} SplitTerminalsJoin(s: string)
    ensures Join(SplitTerminals(s), Terminals(s)) == s
  {
    if s != [] {
      var rest := SplitTerminals(s[1..]);
      var seps := Terminals(s[1..]);
      SplitTerminalsJoin(s[1..]);
      if IsTerminal(s[0]) {
        assert SplitTerminals(s) == [[]] + rest && Terminals(s) == [s[0]] + seps;
        JoinAfterSeparator(s[0], rest, seps);
      } else {
        assert SplitTerminals(s) == [[s[0]] + rest[0]] + rest[1..] && Terminals(s) == seps;
        JoinPrepend(s[0], rest, seps);
      }
      assert s == [s[0]] + s[1..];
    }
  }

  /** A separator in front: an empty first piece, then the others. */
  lemma JoinAfterSeparator(c: char, frags: seq<string>, seps: string)
    requires |frags| == |seps| + 1
    ensures Join([[]] + frags, [c] + seps) == [c] + Join(frags, seps)
  {
    var g := [[]] + frags;
    assert g[0] == [] && g[1..] == frags;
    assert ([c] + seps)[1..] == seps;
  }

  /** A character in front of the first piece comes first in the join. */
  lemma JoinPrepend(c: char, frags: seq<string>, seps: string)
    requires |frags| == |seps| + 1
    ensures Join([[c] + frags[0]] + frags[1..], seps) == [c] + Join(frags, seps)
  {
    var g := [[c] + frags[0]] + frags[1..];
    assert g[0] == [c] + frags[0] && g[1..] == frags[1..];
    if seps != [] {
      var j := Join(frags[1..], seps[1..]);
      assert ([c] + frags[0]) + [seps[0]] + j == [c] + (frags[0] + [seps[0]] + j);
    }
  }

  /** Number of words of s that start after whitespace (or at the start
      when atStart holds). Counting from a word boundary finds no word
      exactly when s is all whitespace. */
  function WordStarts(s: string, atStart: bool): (n: nat)
    ensures atStart ==> (n == 0 <==> forall i :: 0 <= i < |s| ==> IsSpace(s[i]))
  {
    if s == [] then 0
    else
      var rest := WordStarts(s[1..], IsSpace(s[0]));
      assert forall i :: 1 <= i < |s| ==> s[i] == s[1..][i - 1];
      (if atStart && !IsSpace(s[0]) then 1 else 0) + rest
  }

  /** `len(s.split())`: the number of maximal runs of non-whitespace, zero
      exactly when s holds nothing but whitespace. */
  function WordCount(s: string): (n: nat)
    ensures n == 0 <==> forall i :: 0 <= i < |s| ==> IsSpace(s[i])
  {
    WordStarts(s, true)
  }

  /** The non-whitespace characters of s, in order. */
  function Unspaced(s: string): (r: string)
    ensures |r| <= |s|
    ensures forall i :: 0 <= i < |r| ==> !IsSpace(r[i])
  {
    if s == [] then []
    else (if IsSpace(s[0]) then [] else [s[0]]) + Unspaced(s[1..])
  }

  /** Whitespace holds no word and no character that Unspaced keeps. */
  lemma {:induction false} AllSpaceEmpty(s: string, b: bool)
    requires forall i :: 0 <= i < |s| ==> IsSpace(s[i])
    ensures Unspaced(s) == [] && WordStarts(s, b) == 0
  {
    if s != [] {
      assert forall i :: 0 <= i < |s[1..]| ==> s[1..][i] == s[i + 1];
      AllSpaceEmpty(s[1..], IsSpace(s[0]));
    }
  }

  /** Dropping a leading run of i whitespace characters keeps the
      non-whitespace text, and the word after it still counts as a start. */
  lemma {:induction false} SpacePrefixKeeps(s: string, i: nat, b: bool)
    requires i <= |s| && forall j :: 0 <= j < i ==> IsSpace(s[j])
    ensures Unspaced(s) == Unspaced(s[i..])
    ensures i > 0 ==> WordStarts(s, b) == WordStarts(s[i..], true)
    decreases i
  {
    if i > 0 {
      assert s[1..][i - 1..] == s[i..];
      SpacePrefixKeeps(s[1..], i - 1, true);
    }
  }

  /** Trailing whitespace adds no word and no non-whitespace character. */
  lemma {:induction false} SpaceSuffixKeeps(x: string, sp: string, b: bool)
    requires forall i :: 0 <= i < |sp| ==> IsSpace(sp[i])
    ensures Unspaced(x + sp) == Unspaced(x)
    ensures WordStarts(x + sp, b) == WordStarts(x, b)
    decreases |x|
  {
    if x == [] {
      assert x + sp == sp;
      AllSpaceEmpty(sp, b);
    } else {
      assert (x + sp)[0] == x[0] && (x + sp)[1..] == x[1..] + sp;
      SpaceSuffixKeeps(x[1..], sp, IsSpace(x[0]));
    }
  }

  /** CollapseSpaces keeps the text: the same non-whitespace characters in
      the same order, and the same words. */
  lemma {:induction false} CollapseSpacesKeepsText(s: string, b: bool)
    ensures Unspaced(CollapseSpaces(s)) == Unspaced(s)
    ensures WordStarts(CollapseSpaces(s), b) == WordStarts(s, b)
    decreases |s|
  {
    if s != [] {
      if IsSpace(s[0]) {
        var t := TrimStart(s);
        var k := SkipSpaces(s, 0);
        SpacePrefixKeeps(s, k, b);
        CollapseSpacesKeepsText(t, true);
        var r := [' '] + CollapseSpaces(t);
        assert r[1..] == CollapseSpaces(t);
      } else {
        CollapseSpacesKeepsText(s[1..], false);
        var r := [s[0]] + CollapseSpaces(s[1..]);
        assert r[0] == s[0] && r[1..] == CollapseSpaces(s[1..]);
      }
    }
  }

  /** strip cuts only whitespace: the non-whitespace text and the words
      stay. */
  lemma StripKeepsText(s: string)
    ensures Unspaced(Strip(s)) == Unspaced(s)
    ensures WordStarts(Strip(s), true) == WordStarts(s, true)
  {
    var a, sp := StripParts(s);
    SpacePrefixKeeps(s, a, true);
    SpaceSuffixKeeps(Strip(s), sp, true);
  }

  /** strip cuts a leading run of a whitespace characters, and what is
      left after them is the result followed by whitespace sp. */
  lemma StripParts(s: string) returns (a: nat, sp: string)
    ensures a <= |s| && forall j :: 0 <= j < a ==> IsSpace(s[j])
    ensures s[a..] == Strip(s) + sp && forall i :: 0 <= i < |sp| ==> IsSpace(sp[i])
  {
    a := SkipSpaces(s, 0);
    var e := UnspacedEnd(s, a, |s|);
    assert Strip(s) == s[a..e];
    sp := s[e..];
    SuffixSpaces(s, e);
    assert s[a..] == s[a..e] + sp;
  }

  /** A suffix cut from a stretch of whitespace is all whitespace. */
  lemma SuffixSpaces(s: string, e: nat)
    requires e <= |s| && forall j :: e <= j < |s| ==> IsSpace(s[j])
    ensures forall i :: 0 <= i < |s[e..]| ==> IsSpace(s[e..][i])
  {
    assert forall i :: 0 <= i < |s[e..]| ==> s[e..][i] == s[e + i];
  }

  /** `s.split()`: the maximal runs of non-whitespace, in order. A
      character that is not whitespace joins the first word of the rest
      unless the rest starts with whitespace or is empty. */
  function Words(s: string): (ws: seq<string>)
    ensures s != [] && !IsSpace(s[0]) ==> |ws| > 0
  {
    if s == [] then []
    else if IsSpace(s[0]) then Words(s[1..])
    else
      var rest := Words(s[1..]);
      if s[1..] == [] || IsSpace(s[1]) then [[s[0]]] + rest
      else [[s[0]] + rest[0]] + rest[1..]
  }

  /** Every word is a non-empty run of non-whitespace characters. */
  lemma {:induction false} WordsAreRuns(s: string, k: nat, i: nat)
    requires k < |Words(s)|
    ensures Words(s)[k] != []
    ensures i < |Words(s)[k]| ==> !IsSpace(Words(s)[k][i])
  {
    if s != [] {
      var rest := Words(s[1..]);
      if IsSpace(s[0]) {
        WordsAreRuns(s[1..], k, i);
      } else if s[1..] == [] || IsSpace(s[1]) {
        if k > 0 {
          WordsAreRuns(s[1..], k - 1, i);
        }
      } else if k == 0 {
        if i > 0 {
          WordsAreRuns(s[1..], 0, i - 1);
        }
      } else {
        WordsAreRuns(s[1..], k, i);
      }
    }
  }

  /** Dropping leading whitespace does not change the words. */
  lemma {:induction false} WordsSkip(s: string, i: nat)
    requires i <= |s| && forall j :: 0 <= j < i ==> IsSpace(s[j])
    ensures Words(s) == Words(s[i..])
    decreases i
  {
    if i > 0 {
      assert s[1..][i - 1..] == s[i..];
      WordsSkip(s[1..], i - 1);
    }
  }

  /** CollapseSpaces keeps the words of its input. */
  lemma {:induction false} CollapseSpacesKeepsWords(s: string)
    ensures Words(CollapseSpaces(s)) == Words(s)
    decreases |s|
  {
    if s != [] {
      var r := CollapseSpaces(s);
      if IsSpace(s[0]) {
        var t := TrimStart(s);
        CollapseSpacesKeepsWords(t);
        WordsSkip(s, SkipSpaces(s, 0));
        assert r[1..] == CollapseSpaces(t);
      } else {
        var x := s[1..];
        CollapseSpacesKeepsWords(x);
        CollapseSpacesShape(x);
        assert r[0] == s[0] && r[1..] == CollapseSpaces(x);
      }
    }
  }

  /** Trailing whitespace adds no word. */
  lemma {:induction false} WordsSpaceSuffix(x: string, sp: string)
    requires forall i :: 0 <= i < |sp| ==> IsSpace(sp[i])
    ensures Words(x + sp) == Words(x)
    decreases |x|
  {
    if x == [] {
      assert x + sp == sp;
      WordsSkip(sp, |sp|);
    } else {
      WordsSpaceSuffix(x[1..], sp);
      assert (x + sp)[0] == x[0] && (x + sp)[1..] == x[1..] + sp;
      if |x| > 1 {
        assert (x + sp)[1] == x[1];
      }
    }
  }

  /** strip keeps the words of its input. */
  lemma StripKeepsWords(s: string)
    ensures Words(Strip(s)) == Words(s)
  {
    var a, sp := StripParts(s);
    WordsSkip(s, a);
    WordsSpaceSuffix(Strip(s), sp);
  }

  /** Word starts count the words, less the first one when it is already
      under way (not at a word boundary). */
  lemma {:induction false} WordStartsCountsWords(s: string, b: bool)
    ensures WordStarts(s, b) + (if !b && s != [] && !IsSpace(s[0]) then 1 else 0) == |Words(s)|
  {
    if s != [] {
      WordStartsCountsWords(s[1..], IsSpace(s[0]));
    }
  }

  /** `len(s.split())` is the number of words. */
  lemma WordCountIsWords(s: string)
    ensures WordCount(s) == |Words(s)|
  {
    WordStartsCountsWords(s, true);
  }

  /** Normalisation keeps the text: only whitespace changes, so the
      non-whitespace characters, the words and their number stay as they
      were. */
  lemma NormalizeSpaceKeepsText(s: string)
    ensures Unspaced(NormalizeSpace(s)) == Unspaced(s)
    ensures Words(NormalizeSpace(s)) == Words(s)
    ensures WordCount(NormalizeSpace(s)) == WordCount(s)
  {
    CollapseSpacesKeepsText(s, true);
    StripKeepsText(CollapseSpaces(s));
    CollapseSpacesKeepsWords(s);
    StripKeepsWords(CollapseSpaces(s));
  }

  /** The substring test `needle in hay`. */
  predicate Contains(hay: string, needle: string)
    decreases |hay|
  {
    |needle| <= |hay| && (hay[..|needle|] == needle || Contains(hay[1..], needle))
  }

  /** needle occurs in hay at offset i. */
  predicate OccursAt(hay: string, needle: string, i: int) {
    0 <= i && i + |needle| <= |hay| && hay[i..i + |needle|] == needle
  }

  /** Contains is substring occurrence at some offset. */
  lemma {:induction false} ContainsAt(hay: string, needle: string)
    ensures Contains(hay, needle) <==> exists i :: OccursAt(hay, needle, i)
    decreases |hay|
  {
    if |needle| <= |hay| && hay[..|needle|] != needle {
      ContainsAt(hay[1..], needle);
      if exists i :: OccursAt(hay, needle, i) {
        var i :| OccursAt(hay, needle, i);
        assert i != 0;
        assert OccursAt(hay[1..], needle, i - 1) by {
          assert hay[1..][i - 1..i - 1 + |needle|] == hay[i..i + |needle|];
        }
      }
      if Contains(hay[1..], needle) {
        var i :| OccursAt(hay[1..], needle, i);
        assert OccursAt(hay, needle, i + 1) by {
          assert hay[1..][i..i + |needle|] == hay[i + 1..i + 1 + |needle|];
        }
      }
    } else if |needle| <= |hay| {
      assert OccursAt(hay, needle, 0);
    }
  }

  /** Python's `a < b` on str: code-point lexicographic order. */
  predicate StrLess(a: string, b: string) {
    if a == [] then b != []
    else if b == [] then false
    else if a[0] != b[0] then a[0] < b[0]
    else StrLess(a[1..], b[1..])
  }

  lemma {:induction false} StrLessIrreflexive(a: string)
    ensures !StrLess(a, a)
  {
    if a != [] {
      StrLessIrreflexive(a[1..]);
    }
  }

  lemma {:induction false} StrLessTransitive(a: string, b: string, c: string)
    requires StrLess(a, b) && StrLess(b, c)
    ensures StrLess(a, c)
  {
    if a != [] && b != [] && c != [] && a[0] == b[0] && b[0] == c[0] {
      StrLessTransitive(a[1..], b[1..], c[1..]);
    }
  }

  /** Any two different strings are ordered one way or the other. */
  lemma {:induction false} StrLessTotal(a: string, b: string)
    ensures a == b || StrLess(a, b) || StrLess(b, a)
  {
    if a != [] && b != [] && a[0] == b[0] {
      StrLessTotal(a[1..], b[1..]);
      if a[1..] == b[1..] {
        assert a == [a[0]] + a[1..] && b == [b[0]] + b[1..];
      }
    }
  }
}
