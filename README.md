# BYD (Build Your Dictionary) — a verified model of the dictionary core

BYD is a terminal vocabulary trainer. It keeps two tables keyed by word. A
word added in the program is stored lower-cased; a table loaded from the
spreadsheet keeps whatever keys the sheet holds.

- the meanings of each word, a string with the meanings separated by "; ";
- a memory entry per word, holding a counter and the date of the last review.

A correct quiz answer adds one to the counter, a wrong one resets it to zero,
and a word whose counter reaches 27 is mastered and leaves the quiz. The
program also shows every word in a paged table, ten words per page, with
`j`/`k` to turn pages and `s` to jump to the first word with a given prefix.
In that table the meaning column is 38 terminal cells wide, and a CJK ideograph
takes two cells.

This project models that logic in Dafny and proves what it promises. The
modules follow the program's concerns:

- `Strings`: Python's `isspace` class, `isdigit`, `lower`, `split(sep)`,
  `split()`, `join` and `strip`, with the split/join round trips.
- `Meanings`: how `add_word` turns the typed line into the stored meanings
  string, and how the word list re-formats a stored meaning.
- `Layout`: display width, padding, and the truncation of a meaning to the
  38-cell column.
- `Memory`: the counter policy of `update_memory_data`, the review and
  mastered sets, and what a run of answers does to a counter.
- `Paging`: the page count, page bounds, the prefix search behind
  `find_word_page`, and the page shown after each key.
- `Quiz`: the four options of a question, what a key press means, the effect
  of a whole quiz session on the counters, and the score line.
- `Vocabulary`: the `EnglishDictionary` class. Its two fields are changed in
  place by adding words and answering questions, and read by the lookup and
  the word list. The methods with loops are proved against the functions
  above.

Everything outside the program's logic is a parameter of the model:

- the current date;
- the keys and lines the reader types;
- the random shuffle and sample, as nondeterministic choices;
- the sorted key list, a sequence the caller passes with `SortedKeysOf` as a
  precondition.

## Model

| member | source | states |
|---|---|---|
| `Strings.Lower` | BYD.py:108 | `word.lower()` keeps the length and lower-cases each character |
| `Strings.Pieces` | BYD.py:261 | `split(sep)` gives at least one piece and no piece contains a separator |
| `Strings.Tokens` | BYD.py:95 | `split()` gives only non-empty pieces free of whitespace |
| `Strings.TokensOfEmpty` | BYD.py:95 | `"".split()` is empty |
| `Strings.TokensSkipSpace` | BYD.py:95 | `split()` skips a whitespace character at the start of the line |
| `Strings.TokensWord` | BYD.py:95 | a line that starts with a maximal run `t` of non-whitespace characters splits into `t` followed by the tokens of the rest; with `TokensOfEmpty` and `TokensSkipSpace` this fixes `split()` on every line |
| `Strings.HasDigit` | BYD.py:110 | `any(char.isdigit() for char in word)`: some character of the word is a digit |
| `Strings.Join` | BYD.py:98 | `sep.join(ps)`: the pieces in order with `sep` between neighbours; its round trips with `split` are `JoinPieces`, `PiecesOfJoin` and `TokensOfJoin` |
| `Strings.NonEmpty` | BYD.py:95 | the `if m.strip()` filter keeps exactly the non-empty elements: `x` is in the result iff it is in the input and non-empty, and the result is no longer than the input |
| `Strings.NonEmptyAppend` | BYD.py:95 | the filter works piece by piece, `NonEmpty(a + b) == NonEmpty(a) + NonEmpty(b)`, so it keeps the order and the repetitions of the kept elements |
| `Strings.TrimStart` | BYD.py:95 | the leading half of `strip()` returns a suffix of the input that does not start with whitespace |
| `Strings.TrimEnd` | BYD.py:95 | the trailing half of `strip()` returns a prefix of the input that does not end with whitespace |
| `Strings.TrimStartDropsSpace` | BYD.py:95 | every character the leading half removes is whitespace |
| `Strings.TrimEndDropsSpace` | BYD.py:95 | every character the trailing half removes is whitespace |
| `Strings.Strip` | BYD.py:325 | `strip()` leaves no whitespace at either end and adds no character |
| `Strings.StripIsSlice` | BYD.py:325 | `strip()` is the slice of the input that starts at its first non-whitespace character |
| `Strings.StripDropsOnlySpace` | BYD.py:325 | the input holds only whitespace before and after the slice `strip()` keeps |
| `Strings.JoinPieces` | BYD.py:261 | joining the pieces of `s` with the separator they were cut at gives `s` back |
| `Strings.PiecesOfJoin` | BYD.py:261 | cutting a join of separator-free pieces at the separator gives the pieces back |
| `Strings.PiecesOfCleanPrefix` | BYD.py:261 | a separator-free prefix stays glued to the first piece of what follows it |
| `Strings.NonEmptyKeepsAll` | BYD.py:95 | the non-empty filter changes nothing when every element is non-empty |
| `Strings.TokensOfJoin` | BYD.py:94-95 | `" ".join(ts).split() == ts` for non-empty, whitespace-free tokens |
| `Strings.StripStripped` | BYD.py:95 | stripping a string with no whitespace at its ends changes nothing |
| `Strings.StripBlankThenStripped` | BYD.py:261 | stripping `" " + p` gives `p` when `p` is already stripped |
| `Meanings.StripAll` | BYD.py:95 | `[m.strip() for m in ms]`, element by element |
| `Meanings.ParsedMeanings` | BYD.py:95 | `[m.strip() for m in line.split() if m.strip()]`, the list `add_word` builds; `ParsedMeaningsAreTokens` shows it is the token list |
| `Meanings.IsQuit` | BYD.py:97 | `m.lower() == 'q'`: the meaning cancels the add |
| `Meanings.HasQuit` | BYD.py:97 | `any(m.lower() == 'q' for m in ms)`: some meaning cancels the add |
| `Meanings.ParseMeanings` | BYD.py:95-98 | `add_word` stores something iff the typed line has tokens and none of them is `q` (any case); what it stores is the tokens joined by "; " |
| `Meanings.ParsedMeaningsAreTokens` | BYD.py:95 | the strip-and-filter after `split()` never changes the token list |
| `Meanings.ParseTypedMeanings` | BYD.py:94-98 | typing meanings separated by blanks stores exactly those meanings joined by "; ", and nothing when one of them is `q` |
| `Meanings.FormatMeaning` | BYD.py:261 | `'; '.join([m.strip() for m in meaning.split(';')])`, the meaning as the word list shows it; `FormatMeaningIdempotent` and `FormatJoined` state its properties |
| `Meanings.JoinSpaced` | BYD.py:261 | joining with "; " is joining with ";" after prefixing every later part with a blank |
| `Meanings.SpacedAvoids` | BYD.py:261 | prefixing parts with a blank adds no ';' |
| `Meanings.StripSpaced` | BYD.py:261 | stripping the blank-prefixed parts gives the stripped parts back |
| `Meanings.FormatJoined` | BYD.py:261 | the word list shows a "; "-join of stripped, ';'-free parts exactly as stored |
| `Meanings.FormatMeaningIdempotent` | BYD.py:261 | re-formatting a formatted meaning changes nothing |
| `Meanings.StoredMeaningShownUnchanged` | BYD.py:95-98 | a meaning stored by `add_word` from ';'-free tokens is shown by the word list exactly as stored |
| `Layout.Width` | BYD.py:20-28 | `get_display_width`: each character in U+4E00..U+9FFF counts 2 cells, every other character 1; `DisplayWidth` and the `Width` lemmas state its properties |
| `Layout.Spaces` | BYD.py:35 | `' ' * n` has length `n` and only blanks |
| `Layout.WidthAppend` | BYD.py:20-28 | the width of a concatenation is the sum of the widths |
| `Layout.WidthOfSpaces` | BYD.py:35 | `n` blanks are `n` cells wide |
| `Layout.WidthIsLengthPlusCjk` | BYD.py:20-28 | the width is the length plus the number of characters in U+4E00..U+9FFF |
| `Layout.WidthBounds` | BYD.py:20-28 | the width lies between the length and twice the length |
| `Layout.CjkCountBound` | BYD.py:24 | no more CJK characters than characters |
| `Layout.DisplayWidth` | BYD.py:20-28 | the loop returns the width, which is the length plus the CJK count |
| `Layout.PadText` | BYD.py:30-35 | text at least as wide as the target is returned unchanged; narrower text is followed only by blanks and is then exactly as wide as the target |
| `Layout.WidthOfEllipsis` | BYD.py:271 | "..." is three cells wide |
| `Layout.TruncatedFits` | BYD.py:264-271 | when the loop stops at the first overflowing character, the prefix plus "..." is 37 or 38 cells wide |
| `Layout.FittingPrefix` | BYD.py:265-270 | the loop returns the longest prefix of at most `limit` cells: it fits, and one more character would not |
| `Layout.Truncate` | BYD.py:264-271 | a meaning of at most 38 cells is kept whole; a wider one becomes its longest prefix of at most 35 cells followed by "...", 37 or 38 cells wide |
| `Layout.FitColumn` | BYD.py:263-273 | a text is padded to exactly 38 cells; when it is wider than 38 cells it is cut to the prefix that ends just before the first character taking it past 35 cells, followed by "..." |
| `Layout.MeaningCell` | BYD.py:261-273 | the meaning cell of every row is exactly 38 cells wide; a formatted meaning that fits is shown padded, and a wider one is shown as its longest prefix of at most 35 cells (one more character would pass 35) followed by "...", padded |
| `Memory.CountOf` | BYD.py:113 | `memory_data.get(word, (0, ''))[0]`: the counter of the word's entry, 0 for a word without one |
| `Memory.QuizWords` | BYD.py:77-79 | `get_quiz_words`: the words whose counter is below 27 |
| `Memory.MasteredWords` | BYD.py:145 | the words counted as mastered: counter at least 27 |
| `Memory.UpdateMemory` | BYD.py:81-89 | the answered word gets count + 1 (1 when it had no entry) on a correct answer, 0 on a wrong one, stamped with today; every other entry is unchanged |
| `Memory.QuizAndMasteredPartition` | BYD.py:77-79 | every word with an entry is either to review (count < 27) or mastered (count ≥ 27), never both, and the two sets together hold exactly the words with an entry |
| `Memory.QuizWordsAfterUpdate` | BYD.py:81-89 | one answer moves at most the answered word between the review set and the mastered set, and a wrong answer puts it back under review |
| `Memory.ReviewCount` | BYD.py:81-89 | updating a word once per answer counts exactly as `CountAfter` says |
| `Memory.CountIsTrailingRun` | BYD.py:85 | after a wrong answer the counter is the number of correct answers since the last wrong one; without one it grows by one per answer |
| `Memory.MasteredOnlyAfterRun` | BYD.py:85 | a counter that starts at 0 reaches 27 iff the last 27 answers were all correct |
| `Memory.MasteryAfterAdd` | BYD.py:99 | a word just added (counter 0) is mastered after a series of answers iff the last 27 of them were correct |
| `Paging.TotalPages` | BYD.py:240 | `(n + 9) // 10` is the fewest pages of ten that hold `n` words; it is 0 iff there are no words |
| `Paging.PageEnd` | BYD.py:254-255 | `end_idx` never passes the last word, and every existing page shows one to ten words |
| `Paging.PageOfIndex` | BYD.py:225 | the word at index `i` lies on page `i // 10`, and that page exists |
| `Paging.SortedKeysEmpty` | BYD.py:217-220 | the sorted keys are empty iff the dictionary is |
| `Paging.StartsWith` | BYD.py:224 | `word.lower().startswith(search_word)` |
| `Paging.FirstMatch` | BYD.py:223-224 | no word starts with the term iff there is no match; a match is the first word that starts with it |
| `Paging.SearchPage` | BYD.py:215-227 | -1 iff no sorted word starts with the lower-cased search term; otherwise the page is `i // 10` for the first index `i` whose word starts with it, and that page exists |
| `Paging.NextPage` | BYD.py:289-309 | after any non-quit key the page still exists; `j` moves to the next page unless on the last one, `k` to the previous one unless on the first; `s` moves to the page of the first match of a non-blank stripped, lower-cased search term and stays when there is no match; any other key changes nothing |
| `Paging.PageTurnsUndo` | BYD.py:291-294 | `k` undoes a `j` that moved, and `j` undoes a `k` that moved |
| `Quiz.Others` | BYD.py:154 | the other words are exactly the words different from the asked one, each as often as in the review list, so their number (which decides sample or fallback) is the list's length less the asked word's occurrences |
| `Quiz.IndexOf` | BYD.py:167 | `options.index(x)` is the first position that holds `x` |
| `Quiz.Shuffle` | BYD.py:166 | `random.shuffle` keeps the length and the multiset of the options |
| `Quiz.SamplePositions` | BYD.py:159 | `random.sample(_, 3)` picks three distinct positions |
| `Quiz.QuizOptions` | BYD.py:153-167 | four options, the correct meaning first found at `correct_index` (1..4); the others are the meanings of three distinct other words, or the three fallback texts when fewer than three other words are under review |
| `Quiz.Classify` | BYD.py:174-183 | `q` quits; a digit is an answer, right exactly when it equals the correct position; any other key is not an answer |
| `Quiz.FirstQuit` | BYD.py:176-177 | the session stops at the first question whose key is `q`, or after the last question |
| `Quiz.Score` | BYD.py:187-188 | the number of questions among the first `n` answered correctly |
| `Quiz.Attempted` | BYD.py:140-141 | `total_attempted`: the questions shown up to and including the first `q`, or all of them |
| `Quiz.Replay` | BYD.py:140-183 | the memory table after the first `n` questions: each answered question updates its word by its own reply, and a `q` or any other key leaves the table as it was; a session replays up to `FirstQuit` |
| `Quiz.ShownTotalAsWritten` | BYD.py:210 | the denominator as printed: `total_attempted - 1` |
| `Quiz.ReplayStep` | BYD.py:140-188 | the one-step unfolding of `Replay` and `Score` that the session proof uses: one more question changes the memory by its own reply and the score by its own correct answer |
| `Quiz.ReplayExtend` | BYD.py:167 | recording a later question's correct position changes nothing about the earlier questions |
| `Quiz.ReplayUntouched` | BYD.py:140-183 | a word no question has asked yet keeps its entry |
| `Quiz.ReplayAnswer` | BYD.py:140-183 | in a session over distinct words, each word asked ends with its entry updated by its own answer alone, and unchanged when its question was skipped |
| `Quiz.ScoreBound` | BYD.py:187-188 | the score never exceeds the number of questions |
| `Quiz.FinalScoreExceedsTotalAsWritten` | BYD.py:210 | as written, one word answered correctly without quitting prints the final score "1/0" |
| `Quiz.ShownTotal` | BYD.py:210 | the intended denominator equals the printed one after a quit and is one larger after a full session |
| `Quiz.ScoreWithinShownTotal` | BYD.py:210 | with the intended denominator the final score never exceeds the total |
| `Vocabulary.Lookup` | BYD.py:105-119 | a word with a digit is invalid; otherwise a known lower-cased word shows its meanings and its count (0 without an entry); anything else is unknown |
| `Vocabulary.AddEffect` | BYD.py:97-99 | the state change of `add_word`: nothing when the line is rejected, otherwise the joined meanings and a fresh counter stamped today under the lower-cased word |
| `Vocabulary.LookupAfterAdd` | BYD.py:97-113 | a word just added is found by the next lookup with the meanings as stored and count 0, and it is under review |
| `Vocabulary.EnglishDictionary.constructor` | BYD.py:8-10 | the object starts with the tables as loaded, which hold the same words |
| `Vocabulary.EnglishDictionary.Store` | BYD.py:98-99 | the two assignments of `add_word`: the meanings and a fresh counter under one key, keeping both tables on the same words |
| `Vocabulary.EnglishDictionary.UpdateMemoryData` | BYD.py:81-89 | the memory table becomes `UpdateMemory` of the old one; the meanings are untouched, and both tables keep the same words |
| `Vocabulary.EnglishDictionary.AddWord` | BYD.py:91-103 | stores the parsed meanings under the lower-cased word with a fresh counter exactly when `ParseMeanings` accepts the line; otherwise nothing changes |
| `Vocabulary.EnglishDictionary.LookupWord` | BYD.py:105-122 | reports `Lookup` of the old tables, changes nothing for an invalid or known word, and performs the add for an unknown one |
| `Vocabulary.EnglishDictionary.SearchWordMode` | BYD.py:322-327 | a blank line or `q` changes nothing; any other stripped line is looked up, and added when unknown |
| `Vocabulary.EnglishDictionary.AnswerQuestion` | BYD.py:179-202 | the reply is correct iff the key is the digit of the correct position; a digit updates the word's counter, and any other key changes nothing |
| `Vocabulary.EnglishDictionary.PresentQuestion` | BYD.py:153-167 | the four options show the word's own meaning first at the returned position |
| `Vocabulary.EnglishDictionary.AskQuestion` | BYD.py:153-202 | one question: its options show the word's meaning at the returned position, the key is classified, and the memory changes by that reply alone |
| `Vocabulary.EnglishDictionary.QuizMode` | BYD.py:124-213 | a session shows each asked word's meaning among four options, stops at the first `q`, and leaves the memory and the score exactly as the replies up to that point dictate; `total_attempted` counts the quitting question too |
| `Vocabulary.EnglishDictionary.FindWordPage` | BYD.py:215-227 | the loop returns `SearchPage`: -1 iff no sorted word starts with the lower-cased term, otherwise an existing page |
| `Vocabulary.EnglishDictionary.HandleBrowseKey` | BYD.py:287-309 | one key of the word list gives the page `NextPage` says, which always exists |
| `Vocabulary.EnglishDictionary.ShowAllWords` | BYD.py:229-309 | an empty dictionary shows no page; otherwise the first page is 0, each later page follows from the previous one by `NextPage`, every page shown exists, and browsing stops at `q` or when the inputs run out |

## Left out

- Loading and saving the spreadsheet through pandas (BYD.py:37-75): file I/O through a library outside the program. The constructor takes the tables as loaded.
- Clearing the screen, the box drawing, the status column, the row numbers and all printed statistics (BYD.py:12-13, 142-151, 170-173, 185-197, 206-213, 232-285): terminal output only.
- Keys that only acknowledge a message ("Press any key"): they are not inputs of the model.
- Reading a key with `msvcrt.getch().decode('utf-8')` (BYD.py:15-18): a key is a `char`, so a byte that fails to decode is not modelled.
- The menu loop and its exception handlers (BYD.py:311-357): interactive dispatch, not logic.
- Unicode case mapping and digits: `Lower`, `LowerChar` and `IsDigit` cover ASCII only, so `str.lower()` on other scripts and `isdigit()`/`int()` on non-ASCII digits are not modelled.
- `sorted()` on the keys: the word list and the search take the sorted key list as a parameter, described by `SortedKeysOf`.
- `random.shuffle` and `random.sample` (BYD.py:138, 159, 166): the shuffled review list is a parameter of `QuizMode`, and the shuffle and sample inside a question are nondeterministic choices, so no distribution is modelled.
- `datetime.now()`: the date is a parameter, an opaque string.
- `get_quiz_words` (BYD.py:77-79) is modelled as the set `QuizWords`, not as a list in insertion order; the quiz shuffles that list anyway.
- `Vocabulary.EnglishDictionary.constructor` requires the loaded tables to hold the same words. `load_dictionary` builds both from the same `word` column (BYD.py:46-47), and returns two empty tables when there is no sheet.
- `Vocabulary.EnglishDictionary.QuizMode` requires both tables to hold the same words (`Valid`). This is what loading and adding maintain; a word missing from the meanings table would raise a `KeyError` in the source.

## Findings

| source | as written | input that shows it | evidently intended | confidence | as-written member | corrected member |
|---|---|---|---|---|---|---|
| BYD.py:210 | the final score is printed as `score/(total_attempted-1)`; the `-1` discounts the quitting question, but a session that runs to its end has no quitting question | one word under review, key `1`, correct position 1: the final line reads "Final score: 1/0" | the denominator is the number of questions shown and not quit | not executed | `Quiz.FinalScoreExceedsTotalAsWritten` | `Quiz.ScoreWithinShownTotal` |
