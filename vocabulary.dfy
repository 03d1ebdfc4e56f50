/**
 * The `EnglishDictionary` object: a word -> meanings table and a word ->
 * memory-entry table, changed in place by adding words and answering quiz
 * questions, and read by the lookup and the paged word list.
 */
module Vocabulary {
  import opened Common
  import opened Strings
  import opened Meanings
  import opened Memory
  import opened Paging
  import opened Quiz

  /** What looking a word up shows. */
  datatype LookupResult = InvalidWord | Known(meaning: string, count: int) | Unknown

  /**
   * `lookup_word` before it falls back to adding: a word containing a digit is
   * invalid; otherwise its lower-cased form is looked up, with a memory count
   * of 0 for a word without an entry.
   */
  function Lookup(dictionary: map<string, string>, memory: MemoryData, word: string): (r: LookupResult)
    ensures r == InvalidWord <==> HasDigit(word)
    ensures r.Known? <==> !HasDigit(word) && Lower(word) in dictionary
    ensures r.Known? ==> r.meaning == dictionary[Lower(word)] && r.count == CountOf(memory, Lower(word))
  {
    var key := Lower(word);
    if HasDigit(word) then InvalidWord
    else if key in dictionary then Known(dictionary[key], CountOf(memory, key))
    else Unknown
  }

  /** The state change of `add_word` for the typed meanings line. */
  ghost predicate AddEffect(oldDictionary: map<string, string>, oldMemory: MemoryData,
                            newDictionary: map<string, string>, newMemory: MemoryData,
                            word: string, meaningsLine: string, today: Date)
  {
    match ParseMeanings(meaningsLine)
    case None => newDictionary == oldDictionary && newMemory == oldMemory
    case Some(joined) =>
      newDictionary == oldDictionary[Lower(word) := joined] &&
      newMemory == oldMemory[Lower(word) := MemoryEntry(0, today)]
  }

  /**
   * A word just added is found by the next lookup, with the meanings as
   * stored and a fresh counter, so it is not mastered.
   */
  lemma LookupAfterAdd(dictionary: map<string, string>, memory: MemoryData, word: string,
                       meaningsLine: string, today: Date, newDictionary: map<string, string>, newMemory: MemoryData)
    requires !HasDigit(word)
    requires ParseMeanings(meaningsLine).Some?
    requires AddEffect(dictionary, memory, newDictionary, newMemory, word, meaningsLine, today)
    ensures Lookup(newDictionary, newMemory, word) == Known(ParseMeanings(meaningsLine).value, 0)
    ensures Lower(word) in QuizWords(newMemory)
  {
  }

  class EnglishDictionary {
    var dictionary: map<string, string>
    var memoryData: MemoryData

    /** Both tables have the same words, as loading and adding keep them. */
    ghost predicate Valid()
      reads this
    {
      memoryData.Keys == dictionary.Keys
    }

    /** The tables as loaded from the spreadsheet (empty when there is none). */
    constructor (dictionary: map<string, string>, memoryData: MemoryData)
      requires memoryData.Keys == dictionary.Keys
      ensures this.dictionary == dictionary && this.memoryData == memoryData
      ensures Valid()
    {
      this.dictionary := dictionary;
      this.memoryData := memoryData;
    }

    /** `update_memory_data`: one answer to `word`, stamped with `today`. */
    method UpdateMemoryData(word: string, isCorrect: bool, today: Date)
      modifies this
      ensures memoryData == UpdateMemory(old(memoryData), word, isCorrect, today)
      ensures dictionary == old(dictionary)
      ensures old(Valid()) && word in old(memoryData) ==> Valid()
    {
      var newCount: int;
      if word in memoryData {
        var currentCount := memoryData[word].count;
        newCount := if isCorrect then currentCount + 1 else 0;
      } else {
        newCount := if isCorrect then 1 else 0;
      }
      memoryData := memoryData[word := MemoryEntry(newCount, today)];
    }

    /**
     * `add_word`: stores the typed meanings under the lower-cased word with a
     * fresh counter, unless none were typed or one of them is `q`.
     */
    method AddWord(word: string, meaningsLine: string, today: Date)
      modifies this
      ensures AddEffect(old(dictionary), old(memoryData), dictionary, memoryData, word, meaningsLine, today)
      ensures old(Valid()) ==> Valid()
    {
      var meanings := ParsedMeanings(meaningsLine);
      ParseMeaningsOfParsed(meaningsLine);
      if meanings != [] && !HasQuit(meanings) {
        Store(Lower(word), Join(meanings, "; "), today);
      }
    }

    /** Stores `meaning` under `key` with a fresh counter stamped `today`. */
    method Store(key: string, meaning: string, today: Date)
      modifies this
      ensures dictionary == old(dictionary)[key := meaning]
      ensures memoryData == old(memoryData)[key := MemoryEntry(0, today)]
      ensures old(Valid()) ==> Valid()
    {
      dictionary := dictionary[key := meaning];
      memoryData := memoryData[key := MemoryEntry(0, today)];
    }

    /**
     * `lookup_word`: reports an invalid or a known word without changing
     * anything, and offers to add any other word.
     */
    method LookupWord(word: string, meaningsLine: string, today: Date) returns (result: LookupResult)
      modifies this
      ensures result == Lookup(old(dictionary), old(memoryData), word)
      ensures result.Unknown? ==>
        AddEffect(old(dictionary), old(memoryData), dictionary, memoryData, word, meaningsLine, today)
      ensures !result.Unknown? ==> dictionary == old(dictionary) && memoryData == old(memoryData)
      ensures old(Valid()) ==> Valid()
    {
      var wordLower := Lower(word);
      if exists i :: 0 <= i < |word| && IsDigit(word[i]) {
        result := InvalidWord;
      } else if wordLower in dictionary {
        var memoryCount := if wordLower in memoryData then memoryData[wordLower].count else 0;
        result := Known(dictionary[wordLower], memoryCount);
      } else {
        result := Unknown;
        AddWord(word, meaningsLine, today);
      }
    }

    /**
     * `search_word_mode`: the entered line, stripped, is looked up unless it is
     * empty or `q`.
     */
    method SearchWordMode(line: string, meaningsLine: string, today: Date)
      modifies this
      ensures var word := Strip(line);
        if word == [] || Lower(word) == "q" then
          dictionary == old(dictionary) && memoryData == old(memoryData)
        else if Lookup(old(dictionary), old(memoryData), word).Unknown? then
          AddEffect(old(dictionary), old(memoryData), dictionary, memoryData, word, meaningsLine, today)
        else
          dictionary == old(dictionary) && memoryData == old(memoryData)
      ensures old(Valid()) ==> Valid()
    {
      var word := Strip(line);
      if word != [] && Lower(word) != "q" {
        var _ := LookupWord(word, meaningsLine, today);
      }
    }

    /**
     * The answer to one quiz question, keyed `key` (not `q`): a digit is
     * compared with the correct position and updates the word's counter; any
     * other key fails `int()` and changes nothing.
     */
    method AnswerQuestion(word: string, key: char, correctIndex: int, today: Date) returns (isCorrect: bool)
      requires LowerChar(key) != 'q'
      modifies this
      ensures isCorrect <==> Classify(key, correctIndex) == Answered(true)
      ensures memoryData == AfterReply(old(memoryData), word, Classify(key, correctIndex), today)
      ensures dictionary == old(dictionary)
      ensures old(Valid()) && word in old(memoryData) ==> Valid()
    {
      var choice := LowerChar(key);
      isCorrect := false;
      if IsDigit(choice) {
        var choiceNum := choice as int - '0' as int;
        isCorrect := choiceNum == correctIndex;
        UpdateMemoryData(word, isCorrect, today);
      }
    }

    /**
     * The options of the question for `word` in a session reviewing
     * `quizWords`: its meaning among three wrong ones drawn from the other
     * words, at the 1-based position `index`.
     */
    method PresentQuestion(word: string, quizWords: seq<string>) returns (options: seq<string>, index: int)
      requires word in dictionary
      requires forall w :: w in quizWords ==> w in dictionary
      ensures |options| == OptionCount && 1 <= index <= OptionCount
      ensures options[index - 1] == dictionary[word]
      ensures forall j :: 0 <= j < index - 1 ==> options[j] != dictionary[word]
    {
      var correctMeaning := dictionary[word];
      var otherWords := Others(quizWords, word);
      options, index := QuizOptions(correctMeaning, otherWords, dictionary);
    }

    /**
     * One question of the quiz for `order[i]`: its options are shown, and the
     * key pressed is classified; an answer updates the word's counter, a `q`
     * or an unreadable key leaves the memory as it was.
     */
    method AskQuestion(order: seq<string>, keys: seq<char>, i: nat, today: Date)
      returns (options: seq<string>, index: int, reply: Reply)
      requires i < |order| && |keys| == |order|
      requires Valid() && forall j :: 0 <= j < |order| ==> order[j] in dictionary
      modifies this
      ensures dictionary == old(dictionary) && Valid()
      ensures Offers(options, index, dictionary[order[i]])
      ensures reply == Classify(keys[i], index)
      ensures memoryData == AfterReply(old(memoryData), order[i], reply, today)
    {
      var word := order[i];
      options, index := PresentQuestion(word, order);
      reply := Classify(keys[i], index);
      if LowerChar(keys[i]) != 'q' {
        var _ := AnswerQuestion(word, keys[i], index, today);
      }
    }

    /**
     * `quiz_mode`, given the shuffled review list `order` and the key pressed
     * at each question: every question shows four options built by
     * `QuizOptions`; the session stops at the first `q`, and every answered
     * question updates its word's counter. Returns the options shown and the
     * correct position of each question asked, the quitting one included.
     */
    method QuizMode(order: seq<string>, keys: seq<char>, today: Date)
      returns (score: nat, attempted: nat, questions: seq<seq<string>>, correctIndex: seq<int>)
      requires Valid()
      requires forall i, j :: 0 <= i < j < |order| ==> order[i] != order[j]
      requires forall i :: 0 <= i < |order| ==> order[i] in QuizWords(memoryData)
      requires forall w :: w in QuizWords(memoryData) ==> w in order
      requires |keys| == |order|
      modifies this
      ensures Valid() && dictionary == old(dictionary)
      ensures attempted == Attempted(keys, |order|)
      ensures |questions| == attempted && |correctIndex| == attempted
      ensures forall i :: 0 <= i < attempted ==> Offers(questions[i], correctIndex[i], old(dictionary)[order[i]])
      ensures memoryData ==
        Replay(old(memoryData), order, keys, correctIndex, today, FirstQuit(keys, 0, |order|))
      ensures score == Score(keys, correctIndex, FirstQuit(keys, 0, |order|))
    {
      score, attempted, questions, correctIndex := 0, 0, [], [];
      if |order| == 0 {
        return;
      }
      var i := 0;
      while i < |order|
        invariant 0 <= i <= |order|
        invariant forall j :: 0 <= j < |order| ==> order[j] in old(dictionary)
        invariant attempted == i && |questions| == i && |correctIndex| == i
        invariant forall j :: 0 <= j < i ==> Offers(questions[j], correctIndex[j], old(dictionary)[order[j]])
        invariant FirstQuit(keys, 0, |order|) == FirstQuit(keys, i, |order|)
        invariant memoryData == Replay(old(memoryData), order, keys, correctIndex, today, i)
        invariant score == Score(keys, correctIndex, i)
        invariant dictionary == old(dictionary) && Valid()
      {
        attempted := attempted + 1;
        var options, index, reply := AskQuestion(order, keys, i, today);
        ReplayExtend(old(memoryData), order, keys, correctIndex, index, today, i);
        ghost var shownBefore, indexBefore := questions, correctIndex;
        questions, correctIndex := questions + [options], correctIndex + [index];
        forall j | 0 <= j <= i
          ensures Offers(questions[j], correctIndex[j], old(dictionary)[order[j]])
        {
          if j < i {
            assert questions[j] == shownBefore[j] && correctIndex[j] == indexBefore[j];
          }
        }
        if reply == Quit {
          assert FirstQuit(keys, i, |order|) == i;
          break;
        }
        ReplayStep(old(memoryData), order, keys, correctIndex, today, i);
        if reply == Answered(true) {
          score := score + 1;
        }
        i := i + 1;
      }
      assert FirstQuit(keys, |order|, |order|) == |order|;
    }

    /**
     * `find_word_page`, given the sorted keys: the page of the first word
     * starting with the lower-cased search word, -1 when there is none.
     */
    method FindWordPage(words: seq<string>, searchWord: string) returns (page: int)
      requires SortedKeysOf(words, dictionary.Keys)
      ensures page == SearchPage(words, searchWord)
      ensures page == -1 <==> forall i :: 0 <= i < |words| ==> !StartsWith(words[i], Lower(searchWord))
      ensures page != -1 ==> 0 <= page < TotalPages(|words|)
    {
      if dictionary == map[] {
        SortedKeysEmpty(words, dictionary.Keys);
        return -1;
      }
      var term := Lower(searchWord);
      var i := 0;
      while i < |words|
        invariant 0 <= i <= |words|
        invariant forall j :: 0 <= j < i ==> !StartsWith(words[j], term)
      {
        if term <= Lower(words[i]) {
          return i / PageSize;
        }
        i := i + 1;
      }
      return -1;
    }

    /**
     * One key of the word list other than `q`: `j`/`k` turn the page within
     * bounds, `s` searches for the typed prefix and jumps to its page if found.
     */
    method HandleBrowseKey(words: seq<string>, currentPage: nat, input: BrowseInput) returns (page: nat)
      requires SortedKeysOf(words, dictionary.Keys)
      requires currentPage < TotalPages(|words|)
      ensures page == NextPage(currentPage, words, input)
      ensures page < TotalPages(|words|)
    {
      var totalPages := TotalPages(|words|);
      var userInput := LowerChar(input.key);
      page := currentPage;
      if userInput == 'j' && currentPage < totalPages - 1 {
        page := currentPage + 1;
      } else if userInput == 'k' && currentPage > 0 {
        page := currentPage - 1;
      } else if userInput == 's' {
        var searchTerm := Lower(Strip(input.line));
        if searchTerm != [] {
          var found := FindWordPage(words, searchTerm);
          if found != -1 {
            page := found;
          }
        }
      }
    }

    /**
     * `show_all_words`, given the sorted keys and the inputs the reader types:
     * the pages shown, one per screen, until `q` or the end of the inputs.
     */
    method ShowAllWords(words: seq<string>, inputs: seq<BrowseInput>) returns (shown: seq<nat>)
      requires SortedKeysOf(words, dictionary.Keys)
      ensures dictionary == map[] ==> shown == []
      ensures dictionary != map[] ==> |shown| >= 1 && shown[0] == 0
      ensures |shown| <= |inputs| + 1
      ensures forall k :: 0 <= k < |shown| ==> shown[k] < TotalPages(|words|)
      ensures forall k :: 0 <= k < |shown| - 1 ==>
        LowerChar(inputs[k].key) != 'q' && shown[k + 1] == NextPage(shown[k], words, inputs[k])
      ensures shown != [] ==> |shown| == |inputs| + 1 || LowerChar(inputs[|shown| - 1].key) == 'q'
    {
      if dictionary == map[] {
        return [];
      }
      SortedKeysEmpty(words, dictionary.Keys);
      var totalPages := TotalPages(|words|);
      var currentPage := 0;
      shown := [];
      var i := 0;
      while true
        invariant 0 <= i <= |inputs| && |shown| == i
        invariant currentPage < totalPages
        invariant forall k :: 0 <= k < i ==> shown[k] < totalPages && LowerChar(inputs[k].key) != 'q'
        invariant i == 0 ==> currentPage == 0
        invariant i > 0 ==> shown[0] == 0
        invariant i > 0 ==> currentPage == NextPage(shown[i - 1], words, inputs[i - 1])
        invariant forall k :: 0 <= k < i - 1 ==> shown[k + 1] == NextPage(shown[k], words, inputs[k])
        decreases |inputs| - i
      {
        ghost var before := shown;
        shown := shown + [currentPage];
        forall k | 0 <= k < i
          ensures shown[k + 1] == NextPage(shown[k], words, inputs[k])
        {
          if k < i - 1 {
            assert shown[k] == before[k] && shown[k + 1] == before[k + 1];
          }
        }
        if i == |inputs| {
          break;
        }
        if LowerChar(inputs[i].key) == 'q' {
          break;
        }
        currentPage := HandleBrowseKey(words, currentPage, inputs[i]);
        i := i + 1;
      }
    }
  }
}
