/**
 * The per-word memory counter: a correct answer adds one, a wrong answer
 * resets it to zero, and a word whose counter reaches 27 is mastered and no
 * longer quizzed.
 */
module Memory {
  import opened Common

  /** A word's memory counter and the date it was last reviewed. */
  datatype MemoryEntry = MemoryEntry(count: int, lastReview: Date)

  type MemoryData = map<string, MemoryEntry>

  const MasteryThreshold := 27

  predicate IsMastered(count: int) {
    count >= MasteryThreshold
  }

  /** `memory_data.get(word, (0, ''))[0]`: a word without an entry counts as 0. */
  function CountOf(memory: MemoryData, word: string): int {
    if word in memory then memory[word].count else 0
  }

  /**
   * `update_memory_data`: the new entry of `word` after one answer; every other
   * entry stays as it was.
   */
  function UpdateMemory(memory: MemoryData, word: string, isCorrect: bool, today: Date): (r: MemoryData)
    ensures r.Keys == memory.Keys + {word}
    ensures r[word] == MemoryEntry(if isCorrect then CountOf(memory, word) + 1 else 0, today)
    ensures forall w :: w in memory && w != word ==> r[w] == memory[w]
  {
    var newCount :=
      if word in memory then (if isCorrect then memory[word].count + 1 else 0)
      else (if isCorrect then 1 else 0);
    memory[word := MemoryEntry(newCount, today)]
  }

  /** `get_quiz_words`, as a set: the words still to review. */
  function QuizWords(memory: MemoryData): set<string> {
    set w | w in memory && !IsMastered(memory[w].count)
  }

  /** The words counted as mastered in the quiz and word-list statistics. */
  function MasteredWords(memory: MemoryData): set<string> {
    set w | w in memory && IsMastered(memory[w].count)
  }

  /**
   * Every word with an entry is either to review or mastered, never both, so
   * the two counts add up to the number of entries.
   */
  lemma QuizAndMasteredPartition(memory: MemoryData)
    ensures QuizWords(memory) !! MasteredWords(memory)
    ensures QuizWords(memory) + MasteredWords(memory) == memory.Keys
    ensures |QuizWords(memory)| + |MasteredWords(memory)| == |memory|
    ensures forall w :: w in QuizWords(memory) <==> w in memory && !IsMastered(CountOf(memory, w))
  {
    var q, m := QuizWords(memory), MasteredWords(memory);
    assert q + m == memory.Keys;
    assert |q + m| == |q| + |m|;
  }

  /**
   * One answer moves at most the answered word between the review set and the
   * mastered set; a wrong answer always puts it back in the review set.
   */
  lemma QuizWordsAfterUpdate(memory: MemoryData, word: string, isCorrect: bool, today: Date)
    ensures var r := UpdateMemory(memory, word, isCorrect, today);
      QuizWords(r) ==
        if IsMastered(r[word].count) then QuizWords(memory) - {word}
        else QuizWords(memory) + {word}
    ensures !isCorrect ==> word in QuizWords(UpdateMemory(memory, word, isCorrect, today))
  {
    var r := UpdateMemory(memory, word, isCorrect, today);
    if IsMastered(r[word].count) {
      assert QuizWords(r) == QuizWords(memory) - {word};
    } else {
      assert QuizWords(r) == QuizWords(memory) + {word};
    }
  }

  // ---------------------------------------------------------------------
  // A run of answers to one word.

  /** The counter after answering `answers` in order, starting from `start`. */
  function CountAfter(start: int, answers: seq<bool>): int
    decreases |answers|
  {
    if answers == [] then start
    else
      var before := CountAfter(start, answers[..|answers| - 1]);
      if answers[|answers| - 1] then before + 1 else 0
  }

  /** `UpdateMemory` applied to one word for each answer in turn. */
  function Review(memory: MemoryData, word: string, answers: seq<bool>, today: Date): MemoryData
    decreases |answers|
  {
    if answers == [] then memory
    else UpdateMemory(Review(memory, word, answers[..|answers| - 1], today), word, answers[|answers| - 1], today)
  }

  /** Repeated updates of a word count exactly as `CountAfter` says. */
  lemma {:induction false} ReviewCount(memory: MemoryData, word: string, answers: seq<bool>, today: Date)
    ensures CountOf(Review(memory, word, answers, today), word) == CountAfter(CountOf(memory, word), answers)
    decreases |answers|
  {
    if answers != [] {
      ReviewCount(memory, word, answers[..|answers| - 1], today);
    }
  }

  /**
   * After any wrong answer the counter is the number of correct answers given
   * since the last wrong one; without a wrong answer it has grown by one per answer.
   */
  lemma {:induction false} CountIsTrailingRun(start: int, answers: seq<bool>)
    ensures false in answers ==>
      var r := CountAfter(start, answers);
      0 <= r < |answers| && !answers[|answers| - r - 1] &&
      forall i :: |answers| - r <= i < |answers| ==> answers[i]
    ensures false !in answers ==> CountAfter(start, answers) == start + |answers|
    decreases |answers|
  {
    if answers != [] {
      var n := |answers|;
      var before := answers[..n - 1];
      assert answers == before + [answers[n - 1]];
      CountIsTrailingRun(start, before);
      assert false in answers <==> false in before || !answers[n - 1];
      if answers[n - 1] && false in before {
        var r := CountAfter(start, answers);
        assert r == CountAfter(start, before) + 1;
        forall i | n - r <= i < n
          ensures answers[i]
        {
          if i < n - 1 {
            assert answers[i] == before[i];
          }
        }
        assert answers[n - r - 1] == before[n - 1 - (r - 1) - 1];
      }
    }
  }

  /**
   * A word that starts from zero is mastered exactly when its last 27 answers
   * were all correct.
   */
  lemma MasteredOnlyAfterRun(answers: seq<bool>)
    ensures IsMastered(CountAfter(0, answers)) <==>
      |answers| >= MasteryThreshold &&
      forall i :: |answers| - MasteryThreshold <= i < |answers| ==> answers[i]
  {
    CountIsTrailingRun(0, answers);
    var n, r := |answers|, CountAfter(0, answers);
    if false in answers {
      if !IsMastered(r) && n >= MasteryThreshold {
        assert n - MasteryThreshold <= n - r - 1 < n;
      }
    } else {
      if n >= MasteryThreshold {
        forall i | n - MasteryThreshold <= i < n
          ensures answers[i]
        {
          assert answers[i] in answers;
        }
      }
    }
  }

  /**
   * A word just added (counter 0) is mastered after a series of quiz answers
   * exactly when the last 27 of them were correct.
   */
  lemma MasteryAfterAdd(memory: MemoryData, word: string, added: Date, answers: seq<bool>, today: Date)
    ensures var r := Review(memory[word := MemoryEntry(0, added)], word, answers, today);
      IsMastered(CountOf(r, word)) <==>
        |answers| >= MasteryThreshold &&
        forall i :: |answers| - MasteryThreshold <= i < |answers| ==> answers[i]
  {
    ReviewCount(memory[word := MemoryEntry(0, added)], word, answers, today);
    MasteredOnlyAfterRun(answers);
  }
}
