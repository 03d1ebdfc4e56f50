/**
 * The vocabulary quiz: the four options of a question, what a key press means,
 * and the effect of a whole quiz session on the memory counters.
 */
module Quiz {
  import opened Common
  import opened Strings
  import opened Memory

  const OptionCount := 4

  /** The wrong options used when fewer than three other words are being reviewed. */
  const FallbackMeanings: seq<string> := ["Unknown meaning", "Incorrect translation", "Wrong answer"]

  /** `options.index(x)`: the first position of `x`. */
  function IndexOf(s: seq<string>, x: string): (i: nat)
    requires x in s
    ensures i < |s| && s[i] == x
    ensures forall j :: 0 <= j < i ==> s[j] != x
  {
    if s[0] == x then 0 else IndexOf(s[1..], x) + 1
  }

  /** `[w for w in words if w != word]`: the other words, in order. */
  function Others(words: seq<string>, word: string): (r: seq<string>)
    ensures forall w :: w in r <==> w in words && w != word
    ensures multiset(r) == multiset(words)[word := 0]
    decreases |words|
  {
    assert words != [] ==> words == [words[0]] + words[1..];
    if words == [] then []
    else (if words[0] == word then [] else [words[0]]) + Others(words[1..], word)
  }

  /** `random.shuffle` as CPython runs it: swap each position, from the last down, with a random earlier or equal one. */
  method Shuffle(s: seq<string>) returns (r: seq<string>)
    ensures |r| == |s| && multiset(r) == multiset(s)
  {
    r := s;
    var i := |r|;
    while i > 1
      invariant 0 <= i <= |r| && |r| == |s|
      invariant multiset(r) == multiset(s)
    {
      i := i - 1;
      var j :| 0 <= j <= i;
      var t := r[i];
      r := r[i := r[j]][j := t];
    }
  }

  /** `random.sample` of three elements: three distinct positions below `n`, chosen freely. */
  method SamplePositions(n: nat) returns (a: nat, b: nat, c: nat)
    requires n >= 3
    ensures a < n && b < n && c < n && a != b && b != c && a != c
  {
    var positions := seq(n, k => k);
    assert positions[0] == 0 && positions[1] == 1 && positions[2] == 2;
    a :| a in positions;
    assert (if a == 0 then positions[1] else positions[0]) in positions;
    b :| b in positions && b != a;
    assert (if 0 != a && 0 != b then positions[0]
            else if 1 != a && 1 != b then positions[1] else positions[2]) in positions;
    c :| c in positions && c != a && c != b;
  }

  /**
   * The options of one question: the correct meaning and three wrong ones (the
   * meanings of three distinct other words drawn at random, or the fallback
   * texts), shuffled. `correctIndex` is the 1-based position a reader must
   * type; with duplicate meanings only the first copy counts as correct.
   */
  method QuizOptions(correct: string, otherWords: seq<string>, dictionary: map<string, string>)
    returns (options: seq<string>, correctIndex: nat)
    requires forall w :: w in otherWords ==> w in dictionary
    ensures |options| == OptionCount
    ensures 1 <= correctIndex <= OptionCount && options[correctIndex - 1] == correct
    ensures forall j :: 0 <= j < correctIndex - 1 ==> options[j] != correct
    ensures |otherWords| < 3 ==> multiset(options) == multiset([correct] + FallbackMeanings)
    ensures |otherWords| >= 3 ==>
      exists a, b, c :: 0 <= a < |otherWords| && 0 <= b < |otherWords| && 0 <= c < |otherWords| &&
        a != b && b != c && a != c &&
        multiset(options) ==
          multiset([correct, dictionary[otherWords[a]], dictionary[otherWords[b]], dictionary[otherWords[c]]])
  {
    var wrongMeanings: seq<string>;
    var a, b, c := 0, 1, 2;
    if |otherWords| >= 3 {
      a, b, c := SamplePositions(|otherWords|);
      wrongMeanings := [dictionary[otherWords[a]], dictionary[otherWords[b]], dictionary[otherWords[c]]];
    } else {
      wrongMeanings := FallbackMeanings;
    }
    var ordered := [correct] + wrongMeanings[..3];
    options := Shuffle(ordered);
    assert correct in options by {
      assert ordered[0] == correct;
      assert multiset(ordered)[correct] > 0;
    }
    correctIndex := IndexOf(options, correct) + 1;
    if |otherWords| >= 3 {
      assert ordered == [correct, dictionary[otherWords[a]], dictionary[otherWords[b]], dictionary[otherWords[c]]];
    } else {
      assert ordered == [correct] + FallbackMeanings;
    }
  }

  /** A question's four options show `meaning` at the 1-based position `index`. */
  predicate Offers(options: seq<string>, index: int, meaning: string) {
    |options| == OptionCount && 1 <= index <= OptionCount && options[index - 1] == meaning
  }

  /** What one key pressed at a question means. */
  datatype Reply = Quit | Answered(isCorrect: bool) | Unparsable

  /**
   * `q` quits; a digit is an answer, right exactly when it is the correct
   * position (so a digit outside 1..4 is a wrong answer); anything else makes
   * `int()` fail and the question is skipped.
   */
  function Classify(key: char, correctIndex: int): (r: Reply)
    ensures r == Quit <==> LowerChar(key) == 'q'
    ensures r.Answered? <==> IsDigit(key)
    ensures r == Answered(true) ==> key as int - '0' as int == correctIndex
    ensures IsDigit(key) ==> r == Answered(key as int - '0' as int == correctIndex)
  {
    var k := LowerChar(key);
    if k == 'q' then Quit
    else if IsDigit(k) then Answered(k as int - '0' as int == correctIndex)
    else Unparsable
  }

  /** The first question, at or after `from`, whose key quits; `n` when none does. */
  function FirstQuit(keys: seq<char>, from: nat, n: nat): (q: nat)
    requires from <= n <= |keys|
    ensures from <= q <= n
    ensures forall j :: from <= j < q ==> LowerChar(keys[j]) != 'q'
    ensures q < n ==> LowerChar(keys[q]) == 'q'
    decreases n - from
  {
    if from == n then n
    else if LowerChar(keys[from]) == 'q' then from
    else FirstQuit(keys, from + 1, n)
  }

  /** Correct answers among the first `n` questions. */
  function Score(keys: seq<char>, correctIndex: seq<int>, n: nat): nat
    requires n <= |keys| && n <= |correctIndex|
  {
    if n == 0 then 0
    else Score(keys, correctIndex, n - 1) + (if Classify(keys[n - 1], correctIndex[n - 1]) == Answered(true) then 1 else 0)
  }

  /** `total_attempted` at the end: a quitting question is counted too. */
  function Attempted(keys: seq<char>, n: nat): nat
    requires n <= |keys|
  {
    var q := FirstQuit(keys, 0, n);
    if q < n then q + 1 else n
  }

  /**
   * The memory after the first `n` questions of a session: every answered
   * question updates its word; a skipped one changes nothing.
   */
  function Replay(memory: MemoryData, order: seq<string>, keys: seq<char>, correctIndex: seq<int>, today: Date, n: nat)
    : MemoryData
    requires n <= |order| && n <= |keys| && n <= |correctIndex|
    decreases n
  {
    if n == 0 then memory
    else
      AfterReply(Replay(memory, order, keys, correctIndex, today, n - 1),
                 order[n - 1], Classify(keys[n - 1], correctIndex[n - 1]), today)
  }

  /** The memory after the reply to the question for `word`: only an answer updates it. */
  function AfterReply(memory: MemoryData, word: string, reply: Reply, today: Date): MemoryData {
    match reply
    case Answered(isCorrect) => UpdateMemory(memory, word, isCorrect, today)
    case _ => memory
  }

  /** The entry a word has after its own question in a session. */
  function AfterQuestion(entry: MemoryEntry, reply: Reply, today: Date): MemoryEntry {
    match reply
    case Answered(isCorrect) => MemoryEntry(if isCorrect then entry.count + 1 else 0, today)
    case _ => entry
  }

  /** One more question: the memory and the score after it, from those before it. */
  lemma ReplayStep(memory: MemoryData, order: seq<string>, keys: seq<char>,
                   correctIndex: seq<int>, today: Date, i: nat)
    requires i < |order| && i < |keys| && i < |correctIndex|
    ensures Replay(memory, order, keys, correctIndex, today, i + 1) ==
      AfterReply(Replay(memory, order, keys, correctIndex, today, i), order[i], Classify(keys[i], correctIndex[i]), today)
    ensures Score(keys, correctIndex, i + 1) ==
      Score(keys, correctIndex, i) + (if Classify(keys[i], correctIndex[i]) == Answered(true) then 1 else 0)
  {
  }

  /** A word no question among the first `n` asks keeps its entry. */
  lemma {:induction false} ReplayUntouched(memory: MemoryData, order: seq<string>, keys: seq<char>,
                                           correctIndex: seq<int>, today: Date, n: nat, w: string)
    requires n <= |order| && n <= |keys| && n <= |correctIndex|
    requires w in memory
    requires forall k :: 0 <= k < n ==> order[k] != w
    ensures w in Replay(memory, order, keys, correctIndex, today, n)
    ensures Replay(memory, order, keys, correctIndex, today, n)[w] == memory[w]
    decreases n
  {
    if n > 0 {
      ReplayUntouched(memory, order, keys, correctIndex, today, n - 1, w);
      ReplayStep(memory, order, keys, correctIndex, today, n - 1);
    }
  }

  /** Recording the position of a later question changes nothing about the earlier ones. */
  lemma {:induction false} ReplayExtend(memory: MemoryData, order: seq<string>, keys: seq<char>,
                                        correctIndex: seq<int>, x: int, today: Date, n: nat)
    requires n <= |order| && n <= |keys| && n <= |correctIndex|
    ensures Replay(memory, order, keys, correctIndex + [x], today, n) ==
      Replay(memory, order, keys, correctIndex, today, n)
    ensures Score(keys, correctIndex + [x], n) == Score(keys, correctIndex, n)
    decreases n
  {
    if n > 0 {
      ReplayExtend(memory, order, keys, correctIndex, x, today, n - 1);
      assert (correctIndex + [x])[n - 1] == correctIndex[n - 1];
    }
  }

  /**
   * In a session over distinct words, each word asked is reset or incremented
   * once, by its own answer, and keeps its entry when its question is skipped.
   */
  lemma {:induction false} ReplayAnswer(memory: MemoryData, order: seq<string>, keys: seq<char>,
                                        correctIndex: seq<int>, today: Date, n: nat, j: nat)
    requires n <= |order| && n <= |keys| && n <= |correctIndex| && j < n
    requires forall i, k :: 0 <= i < k < |order| ==> order[i] != order[k]
    requires forall i :: 0 <= i < |order| ==> order[i] in memory
    ensures order[j] in Replay(memory, order, keys, correctIndex, today, n)
    ensures Replay(memory, order, keys, correctIndex, today, n)[order[j]] ==
      AfterQuestion(memory[order[j]], Classify(keys[j], correctIndex[j]), today)
    decreases n
  {
    var w := order[j];
    ReplayStep(memory, order, keys, correctIndex, today, n - 1);
    if j == n - 1 {
      ReplayUntouched(memory, order, keys, correctIndex, today, n - 1, w);
    } else {
      ReplayAnswer(memory, order, keys, correctIndex, today, n - 1, j);
    }
  }

  lemma {:induction false} ScoreBound(keys: seq<char>, correctIndex: seq<int>, n: nat)
    requires n <= |keys| && n <= |correctIndex|
    ensures Score(keys, correctIndex, n) <= n
  {
    if n > 0 {
      ScoreBound(keys, correctIndex, n - 1);
    }
  }

  // ---------------------------------------------------------------------
  // The "Final score" line.

  /** The denominator `quiz_mode` prints under "Final score": `total_attempted - 1`. */
  function ShownTotalAsWritten(keys: seq<char>, n: nat): int
    requires n <= |keys|
  {
    Attempted(keys, n) - 1
  }

  /**
   * As written, a session that answers every question without quitting prints
   * a score above its total: one word answered correctly shows "1/0".
   */
  lemma FinalScoreExceedsTotalAsWritten()
    ensures Score("1", [1], FirstQuit("1", 0, 1)) == 1
    ensures ShownTotalAsWritten("1", 1) == 0
  {
    assert FirstQuit("1", 0, 1) == 1 by {
      assert LowerChar('1') != 'q';
    }
    assert Classify('1', 1) == Answered(true);
  }

  /**
   * The evidently intended denominator: the questions shown and not quit. It
   * agrees with the printed one when the reader quits and is one larger when
   * the session runs to its end.
   */
  function ShownTotal(keys: seq<char>, n: nat): (total: nat)
    requires n <= |keys|
    ensures total <= n
    ensures FirstQuit(keys, 0, n) < n ==> total == Attempted(keys, n) - 1
    ensures FirstQuit(keys, 0, n) == n ==> total == Attempted(keys, n)
  {
    FirstQuit(keys, 0, n)
  }

  /** With the intended denominator the score never exceeds the total. */
  lemma ScoreWithinShownTotal(keys: seq<char>, correctIndex: seq<int>, n: nat)
    requires n <= |keys| && n <= |correctIndex|
    ensures Score(keys, correctIndex, FirstQuit(keys, 0, n)) <= ShownTotal(keys, n)
  {
    ScoreBound(keys, correctIndex, FirstQuit(keys, 0, n));
  }
}
