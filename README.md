# Study-buddy summariser, modelled in Dafny

This project models the extractive summariser of the study-buddy application
(`utils.py`). The summariser turns a block of study text into a handful of
short "main points" in five stages:

- `simplify_sentence` rewrites one sentence with a fixed chain of regular
  expressions. It drops trailing clauses, parentheticals and discourse
  connectives, shortens a few phrases and tidies the whitespace.
- `extract_key_concepts` collects at most eight distinct key words. When the
  NLTK tokenizer, tagger and stop-word list load, these are words tagged as
  nouns. Otherwise they are capitalised words found by a regular expression.
- `identify_main_points` normalises the whitespace and splits the text into
  sentences. It scores each sentence by position, concept overlap, length and
  indicator words, sorts the `(score, sentence)` pairs in descending order,
  and keeps the simplified, capitalised top sentences that have four words
  or more.
- `create_basic_summary` is the positional fallback. It takes the first,
  middle and last sentence, then fills in from the front.
- `generate_smart_summary` returns the ranked points when there are at least
  two of them, and the basic summary otherwise.

The modules follow those stages:

- `Wrappers`: `Option`, `Result`.
- `Text`: Python's whitespace class, `strip`, whitespace collapsing, the
  terminal-punctuation split and string order.
- `Simplifier`: `simplify_sentence`, one index scanner per regular expression.
- `Concepts`: `extract_key_concepts`.
- `Ranking`: the scoring loop and the sort.
- `Summary`: segmentation, `identify_main_points`, `create_basic_summary`
  and `generate_smart_summary`.

Pure code is modelled as functions. The four `for` loops the source runs
are modelled as methods proved against those functions:

- the scoring loop and the concept loop inside it (`Ranking.ScoreSentences`,
  `Ranking.ScoreSentence`);
- the loop over the top sentences (`Summary.FinishTop`);
- the filler loop of the basic summary (`Summary.SelectBasicPoints`).

Some inputs to the summariser are not decided by the code. They become
parameters:

- The NLTK services are a value `Nlp` with three optional members: the
  tokenizer, the tagger and the stop-word list. A member is absent when NLTK
  cannot load the resource behind it.
- The order a Python `set` yields its strings in is a parameter `hashOrder`.
  `Concepts.SetToListReachesEveryListing` shows that every duplicate-free
  listing can arise this way.

Behaviour of the code worth knowing:

- The first simplification step deletes each comma or semicolon and what
  follows it up to the next `.`, the end of the string, or a newline that
  ends the string (where `$` also matches). Any other newline on the way
  makes that match fail, because `.` does not match a newline. So "no `,` or
  `;` is left" is proved for input without `.` and without newline, which
  holds of every sentence `identify_main_points` builds.
- The position bonus is a single choice out of 3, 2, 2 or 0 (the
  `if/elif` chain), so at most one of its cases adds points. The position
  is that of the sentence's first occurrence.
- Equal scores are ordered by the sentence string, descending, because the
  sort compares `(score, sentence)` tuples. Position in the text plays no
  part in breaking ties.
- On the short-circuit path `identify_main_points` simplifies the sentences
  but neither capitalises them nor filters them by word count.
- When the ranking is needed, a missing tokenizer makes
  `identify_main_points` raise. The scoring loop calls `word_tokenize`
  outside any `try`. The model returns `Failure(LookupError)` there, and
  `generate_smart_summary` passes the failure on.
- `create_basic_summary` splits the raw text without normalising it. It
  returns few sentences unsimplified. It does not remove duplicates among
  first, middle and last. Its filler scans only `range(1, min(remaining + 1,
  len(sentences) - 1))`.

## Model

| member | source | states |
|---|---|---|
| `Text.IsSpace` | utils.py:26 | the characters `\s` and `str.isspace` accept: tab to carriage return, the four information separators, space, and the Unicode spaces |
| `Text.IsAsciiUpper` | utils.py:40 | the class `[A-Z]` |
| `Text.IsAsciiLower` | utils.py:40 | the class `[a-z]` |
| `Text.IsWordChar` | utils.py:20-24 | the ASCII characters of `\w`: letters, digits and `_` |
| `Text.IsWordAt` | utils.py:20-24 | a position inside the text that holds a word character; positions outside the text hold none |
| `Text.IsBoundary` | utils.py:20-24 | `\b` at a position: a word character on exactly one side of it |
| `Text.Lower` | utils.py:37 | `lower()` on one character: an ASCII capital becomes its small letter, anything else stays |
| `Text.Upper` | utils.py:90 | `upper()` on one character: an ASCII small letter becomes its capital, anything else stays |
| `Text.LowerStr` | utils.py:68-70 | `s.lower()`: each character lowered, in place |
| `Text.SpacesCollapsed` | utils.py:26 | the spacing `re.sub(r'\s+', ' ', ...)` leaves: all whitespace is plain spaces, never two in a row |
| `Text.Trimmed` | utils.py:26 | the ends `strip()` leaves: no whitespace first or last |
| `Text.Tidy` | utils.py:26 | trimmed, with single plain spaces between words |
| `Text.Min` | utils.py:121 | `min(a, b)`, also the length a slice `[:n]` keeps |
| `Text.SkipSpaces` | utils.py:49 | the scan of `strip()` from the front: the first position at or after i without whitespace, all whitespace before it |
| `Text.UnspacedEnd` | utils.py:49 | the scan of `strip()` from the back: the end once trailing whitespace is dropped, all whitespace after it |
| `Text.TrimStart` | utils.py:26 | the text after its leading whitespace run, starting with no whitespace |
| `Text.Strip` | utils.py:49 | `s.strip()` is never longer than `s` and neither starts nor ends with whitespace |
| `Text.StripKeeps` | utils.py:49 | strip keeps only characters of its input, keeps collapsed spacing collapsed, and leaves trimmed text unchanged |
| `Text.CollapseSpaces` | utils.py:26 | `re.sub(r'\s+', ' ', s)` is never longer than `s` |
| `Text.CollapseSpacesShape` | utils.py:26 | after `re.sub(r'\s+', ' ', s)` all whitespace is single plain spaces; the result starts with the first character of `s`, or with a space where `s` starts with whitespace |
| `Text.CollapseSpacesKeepsOut` | utils.py:26 | collapsing whitespace writes no character other than the space that its input lacks |
| `Text.CollapseSpacesFixes` | utils.py:26 | text whose spacing is already collapsed is left unchanged |
| `Text.NormalizeSpace` | utils.py:47 | `re.sub(r'\s+', ' ', text).strip()` is never longer than `text` |
| `Text.NormalizeSpaceIsTidy` | utils.py:47 | `re.sub(r'\s+', ' ', text).strip()` has single plain spaces and no whitespace at either end |
| `Text.NormalizeSpaceKeepsOut` | utils.py:47 | normalisation writes no character other than the space that its input lacks |
| `Text.NormalizeSpaceFixpoints` | utils.py:47 | normalisation leaves a string unchanged exactly when it is already tidy, so applying it twice is the same as once |
| `Text.Unspaced` | utils.py:26 | the non-whitespace characters of a string, in order; none of them whitespace |
| `Text.CollapseSpacesKeepsText` | utils.py:26 | `re.sub(r'\s+', ' ', s)` keeps the non-whitespace characters of `s` in order and the same word starts |
| `Text.StripKeepsText` | utils.py:26 | `strip()` keeps the non-whitespace characters in order and the number of words |
| `Text.CollapseSpacesKeepsWords` | utils.py:26 | `re.sub(r'\s+', ' ', s).split()` equals `s.split()` |
| `Text.StripKeepsWords` | utils.py:26 | `s.strip().split()` equals `s.split()` |
| `Text.NormalizeSpaceKeepsText` | utils.py:47 | normalisation changes only whitespace: the non-whitespace characters, the words of `split()` and their number are those of the input |
| `Text.IsTerminal` | utils.py:49 | the class `[.!?]` |
| `Text.Terminals` | utils.py:49 | the terminal punctuation of the text, in order; only `.`, `!` and `?` |
| `Text.NoTerminal` | utils.py:49 | a string holding none of `.`, `!`, `?` |
| `Text.Join` | utils.py:49 | the inverse of the split: the pieces with the separators put back between them |
| `Text.SplitTerminals` | utils.py:49 | `re.split(r'[.!?]', s)` gives one piece more than there are terminals in `s` |
| `Text.SplitTerminalsPieces` | utils.py:49 | every character of a piece is a character of the text and is not `.`, `!` or `?` |
| `Text.SplitTerminalsJoin` | utils.py:49 | joining the pieces with the terminals they were split at gives back the text |
| `Text.Contains` | utils.py:78 | `needle in hay`, as a recursive prefix test |
| `Text.OccursAt` | utils.py:78 | the needle occurs in the text at an offset |
| `Text.ContainsAt` | utils.py:78 | the substring test `indicator in s` holds exactly when the indicator occurs at some position of `s` |
| `Text.WordCount` | utils.py:73 | `len(s.split())` is zero exactly when `s` holds nothing but whitespace |
| `Text.WordStarts` | utils.py:89 | counting word starts from a boundary finds none exactly when the text is all whitespace |
| `Text.Words` | utils.py:73 | `s.split()`: the maximal runs of non-whitespace in order, at least one when `s` starts with a non-whitespace character |
| `Text.WordsAreRuns` | utils.py:73 | every word of `split()` is non-empty and holds no whitespace |
| `Text.WordsSkip` | utils.py:73 | leading whitespace does not change `split()` |
| `Text.WordStartsCountsWords` | utils.py:73 | the count of word starts is the number of words of `split()`, less one when counting starts inside a word |
| `Text.WordCountIsWords` | utils.py:73 | `len(s.split())` is the length of the word list `Words(s)` |
| `Text.StrLess` | utils.py:83 | Python's `<` on `str`: a proper prefix is smaller, otherwise the first differing code point decides |
| `Text.StrLessIrreflexive` | utils.py:83 | Python's string order: no string is less than itself |
| `Text.StrLessTransitive` | utils.py:83 | Python's string order is transitive |
| `Text.StrLessTotal` | utils.py:83 | of two different strings one is less than the other |
| `Simplifier.IsClauseMark` | utils.py:18 | the class `[,;]` |
| `Simplifier.ClauseEnd` | utils.py:18 | the lazy `.*?` of step 1, which stops before a `.`, the end, or a newline that ends the string, ends at or after where it starts and within the text |
| `Simplifier.DropClausesFrom` | utils.py:18 | clause removal never lengthens the text |
| `Simplifier.DropClauses` | utils.py:18 | step 1 never lengthens the sentence |
| `Simplifier.FirstClauseMark` | utils.py:18 | the first comma or semicolon from a position: nothing before it is one, and it is one unless it is the end |
| `Simplifier.ClauseEndReachesEnd` | utils.py:18 | in text with no `.` and no newline the lookahead matches only at the end of the text |
| `Simplifier.DropClausesCutsAtFirstMark` | utils.py:18 | in text with no `.` and no newline, step 1 keeps exactly what comes before the first comma or semicolon |
| `Simplifier.ClauseBeforeFinalNewline` | utils.py:18 | before a newline that ends the string, `$` matches: "a,b" and a final newline becomes "a" and the newline |
| `Simplifier.ClauseAcrossNewlineKept` | utils.py:18 | a newline inside the text blocks the match: "a,b", a newline and "c" is left unchanged |
| `Simplifier.DropClausesFromKeepsOut` | utils.py:18 | step 1 writes no character its input lacks |
| `Simplifier.ClausesDropped` | utils.py:18 | after step 1, text with no `.` and no newline holds no comma and no semicolon |
| `Simplifier.ParenEnd` | utils.py:19 | the lazy `\(.*?\)` ends just after the first `)`, with no newline before it; it fails exactly when every `)` has a newline before it |
| `Simplifier.DropParensFrom` | utils.py:19 | removing parentheticals never lengthens the text |
| `Simplifier.DropParens` | utils.py:19 | step 2 never lengthens the sentence |
| `Simplifier.DropParensFromKeepsOut` | utils.py:19 | step 2 writes no character its input lacks |
| `Simplifier.MatchesAt` | utils.py:20-24 | `re.IGNORECASE` matching of a lower-case literal at a position: it fits, and each character lowered equals the literal's |
| `Simplifier.WordAt` | utils.py:20 | the matching alternative of a whole-word pattern is one of its words and fits in the text |
| `Simplifier.ReplaceWordsFrom` | utils.py:20 | a whole-word replacement by something no longer than each alternative never lengthens the text |
| `Simplifier.DropConnectives` | utils.py:20 | deleting the connectives never lengthens the sentence |
| `Simplifier.ReplaceWordsFromKeepsOut` | utils.py:20 | a whole-word replacement writes no character that neither its input nor the replacement holds |
| `Simplifier.DeletionsKeepOut` | utils.py:19-20 | steps 2 and 3 write no character their input lacks |
| `Simplifier.AbleToWith` | utils.py:22 | the greedy `\s+` takes the whole whitespace run; a match of `verb\s+able to\b` is at least the verb, one space and "able to" long, and fits in the text |
| `Simplifier.AbleToAt` | utils.py:22 | a match of "is, are, was or were, whitespace, able to" is at least ten characters long |
| `Simplifier.RewriteAbleToFrom` | utils.py:22 | writing "can" for each match never lengthens the text |
| `Simplifier.RewriteAbleTo` | utils.py:22 | step 4 never lengthens the sentence |
| `Simplifier.RewriteAbleToFromKeepsOut` | utils.py:22 | step 4 writes no character that neither its input nor "can" holds |
| `Simplifier.RewriteUtilize` | utils.py:23 | writing "use" for each form of "utilize" never lengthens the sentence |
| `Simplifier.RewriteHedges` | utils.py:24 | writing `~` for each hedge never lengthens the sentence |
| `Simplifier.RewritesKeepOut` | utils.py:22-24 | steps 4 to 6 write no character that neither their input nor "can", "use" or `~` holds |
| `Simplifier.Simplify` | utils.py:16-28 | `simplify_sentence` never lengthens its input |
| `Simplifier.SimplifyIsTidy` | utils.py:26 | a simplified sentence has single plain spaces and no whitespace at either end |
| `Simplifier.LaterStepsKeepOut` | utils.py:19-26 | steps 2 to 7 write no character other than those of "can", "use", `~` and the space that step 1 left out |
| `Simplifier.SimplifyDropsClauseMarks` | utils.py:18-26 | a sentence with no `.` and no newline simplifies to text with no comma and no semicolon |
| `Concepts.NoDuplicates` | utils.py:38 | a listing of a set: no element twice |
| `Concepts.Dedup` | utils.py:38 | de-duplication keeps exactly the elements of the list, each once |
| `Concepts.Keep` | utils.py:38 | the hash-ordered part of a listing holds exactly the elements of the order that are in the list |
| `Concepts.SetToList` | utils.py:38 | `list(set(xs))` lists exactly the elements of `xs`, each once |
| `Concepts.SetToListReachesEveryListing` | utils.py:38 | every duplicate-free listing of the elements is the result for some hash order |
| `Concepts.IsNounCandidate` | utils.py:36-37 | a tagged token is kept when its tag is `NN`, `NNS`, `NNP` or `NNPS`, its lower-case form is no stop word, and it is longer than three characters |
| `Concepts.NounCandidates` | utils.py:36-37 | a word is a candidate exactly when some tagged token carries it with a noun tag, is longer than three characters and its lower-case form is no stop word |
| `Concepts.LowerRunEnd` | utils.py:40 | the `[a-z]+` run covers lower-case letters only and stays within the text |
| `Concepts.IsCapitalized` | utils.py:40 | the shape `[A-Z][a-z]+`: an ASCII capital followed by one or more ASCII small letters |
| `Concepts.CapitalizedAt` | utils.py:40 | a match of `\b[A-Z][a-z]+\b` has the shape of a capitalised word and is at least two characters long |
| `Concepts.CapitalizedFrom` | utils.py:40 | every word `re.findall(r'\b[A-Z][a-z]+\b', text)` yields is a capitalised word |
| `Concepts.IsFallbackCandidate` | utils.py:42 | a found word is kept when its lower-case form is not a common word and it is longer than three characters |
| `Concepts.FallbackCandidates` | utils.py:42 | a word is kept exactly when it is found, is longer than three characters and its lower-case form is not a common word |
| `Concepts.PrimaryAvailable` | utils.py:32-39 | the NLTK path runs to its end exactly when the tokenizer, the tagger and the stop words all load; otherwise the `except` path runs |
| `Concepts.Candidates` | utils.py:32-42 | the comprehension of the path taken, before `list(set(...))`; `Concepts.ConceptsAreCandidates` states what its words satisfy |
| `Concepts.ExtractKeyConcepts` | utils.py:30-43 | at most eight concepts |
| `Concepts.ConceptsAreCandidates` | utils.py:36-43 | the concepts are distinct candidates longer than three characters; on the NLTK path each was tagged as a noun and is no stop word; on the fallback path each is a capitalised word outside the common words |
| `Concepts.ConceptsComplete` | utils.py:38-43 | the concepts number min(8, distinct candidates); with at most eight distinct candidates every candidate is a concept |
| `Ranking.IndexOf` | utils.py:60 | `sentences.index(sentence)` is the first position holding the sentence |
| `Ranking.PositionBonus` | utils.py:61-66 | the bonus is 3 exactly at position 0; 2 exactly at positions 1 and 2 and at a later last position; 0 otherwise |
| `Ranking.LowerAll` | utils.py:68 | the tokens of the sentence, lower-cased |
| `Ranking.MatchedConcepts` | utils.py:68-71 | no more concepts match than there are |
| `Ranking.LengthBonus` | utils.py:73-75 | one point for 8 to 20 whitespace-separated words |
| `Ranking.HasIndicator` | utils.py:77-78 | some indicator is a substring of the lower-cased sentence |
| `Ranking.IndicatorBonus` | utils.py:78-79 | three points once, however many indicators occur |
| `Ranking.Score` | utils.py:58-79 | with at most eight concepts the score lies in 0..23 |
| `Ranking.Scored` | utils.py:56-81 | one pair per sentence |
| `Ranking.ScoredShape` | utils.py:81 | the i-th pair carries the i-th sentence, and with at most eight concepts its score lies in 0..23 |
| `Ranking.ScoreSentence` | utils.py:58-79 | the loop body accumulates exactly the score of the sentence, the concept loop adding 2 per matched concept |
| `Ranking.ScoreSentences` | utils.py:56-81 | the scoring loop appends exactly the scored pairs, in sentence order |
| `Ranking.PairLess` | utils.py:83 | Python's `<` on `(score, sentence)`: a lower score, or the same score and a smaller sentence |
| `Ranking.SortedDesc` | utils.py:83 | the order `sort(reverse=True)` leaves a list in: no pair is less than a pair after it |
| `Ranking.PairLessAsymmetric` | utils.py:83 | tuple order on `(score, sentence)` is asymmetric |
| `Ranking.PairNotLessTransitive` | utils.py:83 | "not less" on pairs is transitive |
| `Ranking.PairNotLessAntisymmetric` | utils.py:83 | two pairs neither less than the other are equal |
| `Ranking.Insert` | utils.py:83 | inserting into a descending list keeps it descending and adds exactly the new pair |
| `Ranking.SortDesc` | utils.py:83 | `sort(reverse=True)` yields a descending permutation of the pairs |
| `Ranking.SortedDescUnique` | utils.py:83 | any two descending permutations of the same pairs are equal, so the sorted list is determined |
| `Ranking.SortedScoredFrom` | utils.py:83 | every sorted pair carries one of the sentences |
| `Ranking.TopSentences` | utils.py:84 | the selection is the sentences of the first n sorted pairs, in order |
| `Ranking.SelectedOutscoreRest` | utils.py:83-84 | a selected pair scores at least as much as any pair left out, and on a tie its sentence is not the smaller |
| `Summary.KeepLonger` | utils.py:49 | no more sentences than fragments, each longer than the threshold and stripped |
| `Summary.KeepLongerSound` | utils.py:49 | every kept sentence is a stripped fragment longer than the threshold |
| `Summary.KeepLongerKeeps` | utils.py:49 | no stripped fragment longer than the threshold is lost |
| `Summary.Segment` | utils.py:49 | no more sentences than terminals plus one, each longer than the threshold and stripped |
| `Summary.IsSentenceOf` | utils.py:49 | a sentence of the text: longer than the threshold, stripped, free of `.`, `!` and `?`, and made of characters of the text |
| `Summary.SegmentSound` | utils.py:49 | every sentence is longer than the threshold, stripped, free of `.`, `!` and `?`, and made of characters of the text |
| `Summary.SegmentKeeps` | utils.py:49 | every piece of the split that is long enough once stripped is a sentence |
| `Summary.Sentences` | utils.py:47-49 | the sentences of the normalised text, each longer than 10 characters and stripped |
| `Summary.SentencesHaveNoBreaks` | utils.py:47-49 | a sentence of the normalised text holds no `.` and no newline |
| `Summary.SimplifyAll` | utils.py:52 | `[simplify_sentence(s) for s in xs]` has the i-th simplification at place i |
| `Summary.Capitalize` | utils.py:90 | `s[0].upper() + s[1:]` has the length of `s`, an upper-cased first character and the rest of `s` |
| `Summary.CapitalizeKeeps` | utils.py:90 | capitalising tidy text keeps it tidy, and it then starts with no lower-case letter |
| `Summary.CapitalizeKeepsOut` | utils.py:90 | capitalising writes no comma or semicolon |
| `Summary.CapitalizeKeepsWords` | utils.py:90 | capitalising keeps the number of words |
| `Summary.HasPointWords` | utils.py:88-89 | a top sentence yields a point when its simplification has four words or more |
| `Summary.Point` | utils.py:88-90 | the point of a sentence: its simplification with the first character upper-cased |
| `Summary.KeepPoints` | utils.py:86-91 | no more points than simplified sentences |
| `Summary.KeepPointsSound` | utils.py:86-91 | every point is a capitalised simplification with at least four words |
| `Summary.KeepPointsComplete` | utils.py:86-91 | every simplification with at least four words yields its point |
| `Summary.KeepPointsSnoc` | utils.py:87-91 | one more loop step appends the capitalised simplification when it has four words or more, and nothing otherwise |
| `Summary.FinishPoints` | utils.py:86-91 | no more points than top sentences |
| `Summary.FinishPointsSound` | utils.py:86-91 | every point is the capitalised simplification of a top sentence that keeps at least four words |
| `Summary.FinishPointsComplete` | utils.py:86-91 | every top sentence whose simplification has at least four words yields its point |
| `Summary.FinishTop` | utils.py:86-91 | the loop over the top sentences builds exactly the points |
| `Summary.Ranked` | utils.py:54-83 | the ranking has one pair per sentence and is in descending order |
| `Summary.RankedOf` | utils.py:54-83 | the ranking of given sentences has one pair per sentence and is in descending order |
| `Summary.RankedFromSentences` | utils.py:83 | every ranked pair carries a sentence of the text |
| `Summary.TopAreSentences` | utils.py:84 | every selected sentence is a sentence of the text, with no `.` and no newline |
| `Summary.PointsOf` | utils.py:49-93 | at most n points on every path |
| `Summary.MainPoints` | utils.py:45-93 | `identify_main_points` returns at most n points on every path |
| `Summary.MainPointsFailsExactly` | utils.py:51-68 | the call fails exactly when the ranking is needed and no tokenizer is available |
| `Summary.MainPointsFewSentences` | utils.py:51-52 | with at most n sentences the points are the sentences simplified, in order; each is tidy and holds no comma or semicolon |
| `Summary.MainPointsRanked` | utils.py:83-93 | with more than n sentences and a tokenizer the points are those of the first n sentences of the ranking |
| `Summary.PointsAreClean` | utils.py:86-91 | each point of sentences without `.` and newline has at least four words, is tidy, starts with no lower-case letter and holds no comma or semicolon |
| `Summary.RankedPointClean` | utils.py:45-93 | on the ranked path every point has at least four words, is tidy, starts with no lower-case letter, holds no comma or semicolon, and is the point of a sentence of the text |
| `Summary.IdentifyMainPoints` | utils.py:45-93 | the method computes exactly `identify_main_points` |
| `Summary.Anchors` | utils.py:111-117 | the anchors number min(3, sentences); with more than two sentences they are the first, the middle (`len // 2`) and the last |
| `Summary.Fill` | utils.py:119-123 | the filler keeps the points it is given at the front and adds at most one per index of the range |
| `Summary.FillNew` | utils.py:121-123 | each added point is a sentence of the range not among the points before it |
| `Summary.FillComplete` | utils.py:121-123 | every sentence of the range is a point afterwards |
| `Summary.BasicPoints` | utils.py:111-123 | the anchors come first, then the fillers |
| `Summary.BasicPointsLayout` | utils.py:111-123 | when the anchors leave room, there are at most n points, the anchors come first, every later point is a new sentence from `range(1, min(remaining + 1, len(sentences) - 1))`, and every sentence of that range is a point |
| `Summary.BasicPointsFromSentences` | utils.py:111-123 | every point is one of the sentences |
| `Summary.BasicPointsRepeatAnchor` | utils.py:112-117 | a repeated sentence can be an anchor twice: with four sentences whose first and last are equal, three points repeat it |
| `Summary.BasicSentences` | utils.py:106 | the sentences of the raw text, each longer than 20 characters and stripped |
| `Summary.BasicSummaryOf` | utils.py:108-125 | at most n items |
| `Summary.BasicSummary` | utils.py:104-125 | `create_basic_summary` returns at most n items |
| `Summary.BasicSummaryFewSentences` | utils.py:108-109 | with at most n sentences they come back unchanged, not simplified |
| `Summary.BasicSummaryFromSentences` | utils.py:125 | with more than n sentences every item is the simplification of one of the sentences |
| `Summary.BasicSummaryAnchorsFirst` | utils.py:111-125 | with more than n sentences the first min(3, n) items are the simplified anchors (first, middle, last), so for n of at least one the summary opens with the simplified first sentence |
| `Summary.SelectBasicPoints` | utils.py:111-123 | the anchor appends and the filler loop build exactly the points |
| `Summary.SummarizeSentences` | utils.py:108-125 | the method computes exactly the basic summary of the sentences |
| `Summary.CreateBasicSummary` | utils.py:104-125 | the method computes exactly `create_basic_summary` |
| `Summary.SmartSummary` | utils.py:95-102 | the call fails exactly when `identify_main_points` fails; otherwise it returns at most n points |
| `Summary.SmartSummaryChoice` | utils.py:97-102 | the ranked points are returned when there are at least two; with fewer the basic summary is returned |
| `Summary.SmartSummaryOfEmptyText` | utils.py:95-102 | empty text gives an empty summary, not an error |
| `Summary.SmartSummaryFewSentences` | utils.py:97-102 | with two to n sentences the summary is every sentence simplified, in order |
| `Summary.SmartSummaryOneSentence` | utils.py:97-100 | when at least one point is asked for, a text of a single sentence always gets the basic summary |
| `Summary.GenerateSmartSummary` | utils.py:95-102 | the method computes exactly `generate_smart_summary` |

## Left out

- The NLTK resource downloads and the bare `except` around them (utils.py:9-14) are network and file I/O.
- `word_tokenize`, `pos_tag` and `stopwords.words` (utils.py:33-35, utils.py:68) are foreign library code. They are the parameters in `Nlp`, and their results are unconstrained. Any exception of the NLTK path of `extract_key_concepts` is modelled as a missing service.
- The order in which `list(set(...))` lists strings (utils.py:38, utils.py:43) depends on string hashes. It is the parameter `hashOrder`.
- Case mapping and `\w` are ASCII only: `lower()`, `upper()`, `re.IGNORECASE` and the word characters behind `\b`. Python maps and classifies all of Unicode. Whitespace (`\s`, `split()`, `strip()`) follows Python's full Unicode whitespace set.
- `num_points` is a natural number. Negative values, which Python would treat as slices from the end, are not modelled. The application only passes 3 to 10.
- Simplifier.DropClauses, Simplifier.DropParens, Simplifier.DropConnectives, Simplifier.RewriteAbleTo, Simplifier.RewriteUtilize, Simplifier.RewriteHedges: each contract bounds only the length. What each step may write is stated by the lemmas about it, not by a reference semantics of regular expressions.
- Simplifier.Simplify: idempotence is not proved, because a second pass can change a sentence. Only the whitespace normalisation is shown idempotent (`Text.NormalizeSpaceFixpoints`). The final collapse of whitespace can enable an earlier step on a second pass: "He is able  to run fast", with two spaces before "to", becomes "He is able to run fast", and a second pass turns that into "He can run fast". Likewise "a, b" followed by a newline and "c" becomes "a, b c", which a second pass cuts to "a".
- `get_study_tips` (utils.py:127-139) is a constant list.
- `database.py`, `pages.py` and `app.py` are not part of this model. They hold persistence, password hashing and the user interface.
