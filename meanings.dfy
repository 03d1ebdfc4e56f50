/**
 * The meanings of a word as the dictionary stores and shows them: `add_word`
 * turns the typed line into one string with the meanings separated by "; ",
 * and the word list re-formats a stored string the same way before showing it.
 */
module Meanings {
  import opened Common
  import opened Strings

  /** `[m.strip() for m in ms]`. */
  function StripAll(ms: seq<string>): (r: seq<string>)
    ensures |r| == |ms|
    ensures forall k :: 0 <= k < |ms| ==> r[k] == Strip(ms[k])
  {
    seq(|ms|, k requires 0 <= k < |ms| => Strip(ms[k]))
  }

  /** `[m.strip() for m in line.split() if m.strip()]`, the list `add_word` builds. */
  function ParsedMeanings(line: string): seq<string> {
    NonEmpty(StripAll(Tokens(line)))
  }

  /** A meaning that cancels the add: `m.lower() == 'q'`. */
  predicate IsQuit(m: string) {
    Lower(m) == "q"
  }

  /** `any(m.lower() == 'q' for m in ms)`. */
  predicate HasQuit(ms: seq<string>) {
    exists k :: 0 <= k < |ms| && IsQuit(ms[k])
  }

  /**
   * The meanings string `add_word` stores for the typed line, or None when it
   * stores nothing (no meanings typed, or one of them is `q`).
   */
  function ParseMeanings(line: string): (r: Option<string>)
    ensures r.Some? <==>
      Tokens(line) != [] && forall k :: 0 <= k < |Tokens(line)| ==> !IsQuit(Tokens(line)[k])
    ensures r.Some? ==> r.value == Join(Tokens(line), "; ")
  {
    var ms := ParsedMeanings(line);
    ParsedMeaningsAreTokens(line);
    if ms != [] && !HasQuit(ms) then Some(Join(ms, "; "))
    else None
  }

  /** `ParseMeanings` decides on the list `add_word` builds, as `add_word` does. */
  lemma ParseMeaningsOfParsed(line: string)
    ensures var ms := ParsedMeanings(line);
      ParseMeanings(line) == if ms != [] && !HasQuit(ms) then Some(Join(ms, "; ")) else None
  {
  }

  /** `'; '.join([m.strip() for m in meaning.split(';')])`, as the word list shows a meaning. */
  function FormatMeaning(meaning: string): string {
    Join(StripAll(Pieces(meaning, {';'})), "; ")
  }

  /** The strip-and-filter in `add_word` never changes what `split()` produced. */
  lemma ParsedMeaningsAreTokens(line: string)
    ensures ParsedMeanings(line) == Tokens(line)
  {
    var ts := Tokens(line);
    forall k | 0 <= k < |ts|
      ensures Strip(ts[k]) == ts[k]
    {
      assert !IsSpace(ts[k][0]) && !IsSpace(ts[k][|ts[k]| - 1]);
      StripStripped(ts[k]);
    }
    assert StripAll(ts) == ts;
    NonEmptyKeepsAll(ts);
  }

  /**
   * Typing the meanings separated by blanks stores them separated by "; ",
   * unless one of them is `q`.
   */
  lemma ParseTypedMeanings(ts: seq<string>)
    requires |ts| >= 1
    requires forall k :: 0 <= k < |ts| ==> ts[k] != [] && Avoids(ts[k], Whitespace)
    ensures (forall k :: 0 <= k < |ts| ==> !IsQuit(ts[k])) ==>
      ParseMeanings(Join(ts, " ")) == Some(Join(ts, "; "))
    ensures (exists k :: 0 <= k < |ts| && IsQuit(ts[k])) ==>
      ParseMeanings(Join(ts, " ")) == None
  {
    TokensOfJoin(ts);
  }

  // ---------------------------------------------------------------------
  // Re-formatting a "; "-joined meaning changes nothing.

  /** `[' ' + q for q in qs]`. */
  function Blanked(qs: seq<string>): (r: seq<string>)
    ensures |r| == |qs|
    ensures forall k :: 0 <= k < |qs| ==> r[k] == " " + qs[k]
  {
    seq(|qs|, k requires 0 <= k < |qs| => " " + qs[k])
  }

  /** The pieces `Join(qs, "; ")` splits into at ';'. */
  function Spaced(qs: seq<string>): seq<string>
    requires |qs| >= 1
  {
    [qs[0]] + Blanked(qs[1..])
  }

  lemma {:induction false} JoinSpaced(qs: seq<string>)
    requires |qs| >= 1
    ensures Join(qs, "; ") == Join(Spaced(qs), ";")
    decreases |qs|
  {
    if |qs| > 1 {
      var rs := qs[1..];
      JoinSpaced(rs);
      assert Blanked(rs) == [" " + rs[0]] + Blanked(rs[1..]);
      JoinConsHead(" ", rs[0], Blanked(rs[1..]), ";");
      assert Join(Blanked(rs), ";") == " " + Join(Spaced(rs), ";");
      assert Spaced(qs)[1..] == Blanked(rs);
    }
  }

  lemma SpacedAvoids(qs: seq<string>)
    requires |qs| >= 1
    requires forall k :: 0 <= k < |qs| ==> Avoids(qs[k], {';'})
    ensures forall k :: 0 <= k < |Spaced(qs)| ==> Avoids(Spaced(qs)[k], {';'})
  {
    var sp := Spaced(qs);
    forall k | 0 <= k < |sp|
      ensures Avoids(sp[k], {';'})
    {
      if k > 0 {
        assert sp[k] == " " + qs[k];
      }
    }
  }

  lemma StripSpaced(qs: seq<string>)
    requires |qs| >= 1
    requires forall k :: 0 <= k < |qs| ==> Stripped(qs[k])
    ensures StripAll(Spaced(qs)) == qs
  {
    var sp := Spaced(qs);
    forall k | 0 <= k < |sp|
      ensures Strip(sp[k]) == qs[k]
    {
      if k == 0 {
        StripStripped(qs[0]);
      } else {
        assert sp[k] == " " + qs[k];
        StripBlankThenStripped(qs[k]);
      }
    }
  }

  /**
   * The word list shows a meaning joined from stripped, ';'-free parts exactly
   * as it was stored.
   */
  lemma FormatJoined(qs: seq<string>)
    requires |qs| >= 1
    requires forall k :: 0 <= k < |qs| ==> Stripped(qs[k]) && Avoids(qs[k], {';'})
    ensures FormatMeaning(Join(qs, "; ")) == Join(qs, "; ")
  {
    JoinSpaced(qs);
    SpacedAvoids(qs);
    PiecesOfJoin(Spaced(qs), ';', {';'});
    StripSpaced(qs);
  }

  /** Formatting a meaning twice gives what formatting it once gives. */
  lemma FormatMeaningIdempotent(meaning: string)
    ensures FormatMeaning(FormatMeaning(meaning)) == FormatMeaning(meaning)
  {
    var ps := Pieces(meaning, {';'});
    var qs := StripAll(ps);
    forall k | 0 <= k < |qs|
      ensures Avoids(qs[k], {';'})
    {
      forall i | 0 <= i < |qs[k]|
        ensures qs[k][i] != ';'
      {
        assert qs[k][i] in Strip(ps[k]);
        assert qs[k][i] in ps[k];
      }
    }
    FormatJoined(qs);
  }

  /**
   * A meaning stored by `add_word` whose parts contain no ';' is shown by the
   * word list exactly as stored.
   */
  lemma StoredMeaningShownUnchanged(line: string)
    requires ParseMeanings(line).Some?
    requires forall k :: 0 <= k < |Tokens(line)| ==> Avoids(Tokens(line)[k], {';'})
    ensures FormatMeaning(ParseMeanings(line).value) == ParseMeanings(line).value
  {
    var ts := Tokens(line);
    forall k | 0 <= k < |ts|
      ensures Stripped(ts[k])
    {
      assert !IsSpace(ts[k][0]) && !IsSpace(ts[k][|ts[k]| - 1]);
    }
    FormatJoined(ts);
  }
}
