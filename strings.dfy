/**
 * The string handling the dictionary relies on, stated the way Python's `str`
 * methods behave: the `isspace` character class, the `isdigit` test, `lower`,
 * `split(sep)`, `split()`, `sep.join(...)` and `strip()`.
 */
module Strings {

  /** The characters for which Python's `str.isspace()` holds. */
  const Whitespace: set<char> := {
    '\t', '\n', '\U{B}', '\U{C}', '\r', '\U{1C}', '\U{1D}', '\U{1E}', '\U{1F}', ' ',
    '\U{85}', '\U{A0}', '\U{1680}',
    '\U{2000}', '\U{2001}', '\U{2002}', '\U{2003}', '\U{2004}', '\U{2005}',
    '\U{2006}', '\U{2007}', '\U{2008}', '\U{2009}', '\U{200A}',
    '\U{2028}', '\U{2029}', '\U{202F}', '\U{205F}', '\U{3000}'
  }

  predicate IsSpace(c: char) {
    c in Whitespace
  }

  /** `char.isdigit()`, restricted to the ASCII digits. */
  predicate IsDigit(c: char) {
    '0' <= c <= '9'
  }

  predicate HasDigit(s: string) {
    exists i :: 0 <= i < |s| && IsDigit(s[i])
  }

  /** `str.lower()` on one character, restricted to ASCII letters. */
  function LowerChar(c: char): char {
    if 'A' <= c <= 'Z' then (c as int + 32) as char else c
  }

  function Lower(s: string): (r: string)
    ensures |r| == |s|
    ensures forall i :: 0 <= i < |s| ==> r[i] == LowerChar(s[i])
  {
    seq(|s|, i requires 0 <= i < |s| => LowerChar(s[i]))
  }

  /** No character of `s` is one of `seps`. */
  predicate Avoids(s: string, seps: set<char>) {
    forall i :: 0 <= i < |s| ==> s[i] !in seps
  }

  /**
   * `s` cut at every character of `seps`, empty pieces kept: `s.split(';')`
   * is `Pieces(s, {';'})`.
   */
  function Pieces(s: string, seps: set<char>): (ps: seq<string>)
    ensures |ps| >= 1
    ensures forall k :: 0 <= k < |ps| ==> Avoids(ps[k], seps)
    decreases |s|
  {
    if s == [] then [[]]
    else
      var rest := Pieces(s[1..], seps);
      if s[0] in seps then [[]] + rest
      else [[s[0]] + rest[0]] + rest[1..]
  }

  /** `sep.join(ps)`. */
  function Join(ps: seq<string>, sep: string): string
    decreases |ps|
  {
    if |ps| == 0 then []
    else if |ps| == 1 then ps[0]
    else ps[0] + sep + Join(ps[1..], sep)
  }

  /** The pieces that are not empty, in order. */
  function NonEmpty(ps: seq<string>): (r: seq<string>)
    ensures |r| <= |ps|
    ensures forall k :: 0 <= k < |r| ==> r[k] != [] && r[k] in ps
    ensures forall x :: x in r <==> x in ps && x != []
    decreases |ps|
  {
    if ps == [] then []
    else (if ps[0] == [] then [] else [ps[0]]) + NonEmpty(ps[1..])
  }

  /** `s.split()`: the maximal runs of non-whitespace characters. */
  function Tokens(s: string): (ts: seq<string>)
    ensures forall k :: 0 <= k < |ts| ==> ts[k] != [] && Avoids(ts[k], Whitespace)
  {
    NonEmpty(Pieces(s, Whitespace))
  }

  /** `s.lstrip()`: a suffix of `s` that does not start with whitespace. */
  function TrimStart(s: string): (r: string)
    ensures |r| <= |s| && r == s[|s| - |r|..]
    ensures r == [] || !IsSpace(r[0])
    decreases |s|
  {
    if s != [] && IsSpace(s[0]) then TrimStart(s[1..]) else s
  }

  /** `s.rstrip()`: a prefix of `s` that does not end with whitespace. */
  function TrimEnd(s: string): (r: string)
    ensures |r| <= |s| && r == s[..|r|]
    ensures r == [] || !IsSpace(r[|r| - 1])
    decreases |s|
  {
    if s != [] && IsSpace(s[|s| - 1]) then TrimEnd(s[..|s| - 1]) else s
  }

  /** Neither end of `s` is whitespace. */
  predicate Stripped(s: string) {
    s == [] || (!IsSpace(s[0]) && !IsSpace(s[|s| - 1]))
  }

  /** `s.strip()`. */
  function Strip(s: string): (r: string)
    ensures Stripped(r)
    ensures forall c :: c in r ==> c in s
  {
    var t := TrimStart(s);
    assert forall c :: c in t ==> c in s;
    TrimEnd(t)
  }

  /** What `lstrip` drops is whitespace and nothing else. */
  lemma {:induction false} TrimStartDropsSpace(s: string)
    ensures forall k :: 0 <= k < |s| - |TrimStart(s)| ==> IsSpace(s[k])
    decreases |s|
  {
    if s != [] && IsSpace(s[0]) {
      TrimStartDropsSpace(s[1..]);
      assert forall k :: 1 <= k < |s| ==> s[k] == s[1..][k - 1];
    }
  }

  /** What `rstrip` drops is whitespace and nothing else. */
  lemma {:induction false} TrimEndDropsSpace(s: string)
    ensures forall k :: |TrimEnd(s)| <= k < |s| ==> IsSpace(s[k])
    decreases |s|
  {
    if s != [] && IsSpace(s[|s| - 1]) {
      TrimEndDropsSpace(s[..|s| - 1]);
    }
  }

  /** `s.strip()` is the slice of `s` that starts at its first non-whitespace character. */
  lemma StripIsSlice(s: string)
    ensures var i := |s| - |TrimStart(s)|; var r := Strip(s);
      && i + |r| <= |s| && r == s[i..i + |r|]
      && (i == |s| || !IsSpace(s[i]))
  {
    var t := TrimStart(s);
    var i := |s| - |t|;
    var r := TrimEnd(t);
    assert t == s[i..] && r == t[..|r|];
  }

  /** Around the slice `s.strip()` keeps, `s` holds only whitespace. */
  lemma StripDropsOnlySpace(s: string)
    ensures var i := |s| - |TrimStart(s)|; var r := Strip(s);
      && (forall k :: 0 <= k < i ==> IsSpace(s[k]))
      && (forall k :: i + |r| <= k < |s| ==> IsSpace(s[k]))
  {
    var t := TrimStart(s);
    var i := |s| - |t|;
    var r := TrimEnd(t);
    TrimStartDropsSpace(s);
    TrimEndDropsSpace(t);
    assert forall k :: i + |r| <= k < |s| ==> s[k] == t[k - i];
  }

  // ---------------------------------------------------------------------
  // Splitting and joining undo each other.

  lemma JoinConsHead(x: string, p: string, more: seq<string>, sep: string)
    ensures Join([x + p] + more, sep) == x + Join([p] + more, sep)
  {
    if |more| > 0 {
      assert ([x + p] + more)[1..] == more;
      assert ([p] + more)[1..] == more;
    }
  }

  /** Joining the pieces of `s` with the one separator they were cut at gives `s` back. */
  lemma {:induction false} JoinPieces(s: string, d: char)
    ensures Join(Pieces(s, {d}), [d]) == s
    decreases |s|
  {
    if s != [] {
      var rest := Pieces(s[1..], {d});
      JoinPieces(s[1..], d);
      if s[0] == d {
        assert ([[]] + rest)[1..] == rest;
        assert Join([[]] + rest, [d]) == [d] + Join(rest, [d]);
        assert s == [d] + s[1..];
      } else {
        JoinConsHead([s[0]], rest[0], rest[1..], [d]);
        assert [rest[0]] + rest[1..] == rest;
        assert s == [s[0]] + s[1..];
      }
    }
  }

  /** A separator-free prefix stays glued to the first piece of what follows it. */
  lemma {:induction false} PiecesOfCleanPrefix(p: string, r: string, seps: set<char>)
    requires Avoids(p, seps)
    ensures Pieces(p + r, seps) == [p + Pieces(r, seps)[0]] + Pieces(r, seps)[1..]
    decreases |p|
  {
    if p == [] {
      assert p + r == r;
      var pr := Pieces(r, seps);
      assert p + pr[0] == pr[0];
      assert [pr[0]] + pr[1..] == pr;
    } else {
      var q := p + r;
      var pr := Pieces(r, seps);
      assert q[0] == p[0] && q[1..] == p[1..] + r;
      assert p[0] !in seps;
      assert Avoids(p[1..], seps) by {
        assert forall i :: 0 <= i < |p| - 1 ==> p[1..][i] == p[i + 1];
      }
      PiecesOfCleanPrefix(p[1..], r, seps);
      var rest := Pieces(q[1..], seps);
      assert rest == [p[1..] + pr[0]] + pr[1..];
      assert Pieces(q, seps) == [[p[0]] + rest[0]] + rest[1..];
      assert [p[0]] + (p[1..] + pr[0]) == p + pr[0];
    }
  }

  /**
   * Cutting a join at its separator gives the joined pieces back, provided no
   * piece contains a separator character.
   */
  lemma {:induction false} PiecesOfJoin(ps: seq<string>, d: char, seps: set<char>)
    requires |ps| >= 1 && d in seps
    requires forall k :: 0 <= k < |ps| ==> Avoids(ps[k], seps)
    ensures Pieces(Join(ps, [d]), seps) == ps
    decreases |ps|
  {
    if |ps| == 1 {
      PiecesOfCleanPrefix(ps[0], [], seps);
      assert ps[0] + [] == ps[0];
    } else {
      var tail := Join(ps[1..], [d]);
      PiecesOfJoin(ps[1..], d, seps);
      assert Join(ps, [d]) == ps[0] + ([d] + tail);
      PiecesOfCleanPrefix(ps[0], [d] + tail, seps);
      assert ([d] + tail)[1..] == tail;
      assert Pieces([d] + tail, seps) == [[]] + ps[1..];
      assert ps[0] + [] == ps[0];
      assert [ps[0]] + ps[1..] == ps;
    }
  }

  lemma {:induction false} NonEmptyKeepsAll(ps: seq<string>)
    requires forall k :: 0 <= k < |ps| ==> ps[k] != []
    ensures NonEmpty(ps) == ps
    decreases |ps|
  {
    if ps != [] {
      NonEmptyKeepsAll(ps[1..]);
      assert [ps[0]] + ps[1..] == ps;
    }
  }

  /** The filter keeps order and repetitions: it works piece by piece. */
  lemma {:induction false} NonEmptyAppend(a: seq<string>, b: seq<string>)
    ensures NonEmpty(a + b) == NonEmpty(a) + NonEmpty(b)
    decreases |a|
  {
    if a == [] {
      assert a + b == b;
    } else {
      var head := if a[0] == [] then [] else [a[0]];
      assert NonEmpty(a + b) == head + NonEmpty(a[1..] + b) by {
        assert (a + b)[0] == a[0] && (a + b)[1..] == a[1..] + b;
      }
      NonEmptyAppend(a[1..], b);
      assert head + (NonEmpty(a[1..]) + NonEmpty(b)) == (head + NonEmpty(a[1..])) + NonEmpty(b);
    }
  }

  /** A blank line has no tokens. */
  lemma TokensOfEmpty()
    ensures Tokens([]) == []
  {
    assert Pieces([], Whitespace) == [[]];
    assert NonEmpty([[]]) == NonEmpty([]) + [];
  }

  /** `split()` skips a whitespace character in front of the line. */
  lemma TokensSkipSpace(c: char, s: string)
    requires IsSpace(c)
    ensures Tokens([c] + s) == Tokens(s)
  {
    assert ([c] + s)[0] == c && ([c] + s)[1..] == s;
    assert Pieces([c] + s, Whitespace) == [[]] + Pieces(s, Whitespace);
    assert NonEmpty([[]] + Pieces(s, Whitespace)) == NonEmpty(Pieces(s, Whitespace)) by {
      assert ([[]] + Pieces(s, Whitespace))[1..] == Pieces(s, Whitespace);
    }
  }

  /**
   * `split()` of a line that starts with a maximal run `t` of non-whitespace
   * characters gives `t` first, then the tokens of the rest of the line.
   */
  lemma TokensWord(t: string, r: string)
    requires t != [] && Avoids(t, Whitespace)
    requires r == [] || IsSpace(r[0])
    ensures Tokens(t + r) == [t] + Tokens(r)
  {
    var pr := Pieces(r, Whitespace);
    PiecesOfCleanPrefix(t, r, Whitespace);
    if r == [] {
      assert pr == [[]];
      assert t + pr[0] == t;
      TokensOfEmpty();
      assert NonEmpty([t]) == [t] + NonEmpty([]);
    } else {
      assert r == [r[0]] + r[1..];
      var rest := Pieces(r[1..], Whitespace);
      assert pr == [[]] + rest;
      assert t + pr[0] == t && pr[1..] == rest;
      assert Tokens(r) == NonEmpty(rest) by {
        assert ([[]] + rest)[1..] == rest;
      }
      assert NonEmpty([t] + rest) == [t] + NonEmpty(rest) by {
        assert ([t] + rest)[1..] == rest;
      }
    }
  }

  /**
   * `" ".join(ts).split() == ts` for non-empty whitespace-free tokens: the
   * tokens of a line are recovered from the line they were typed as.
   */
  lemma TokensOfJoin(ts: seq<string>)
    requires forall k :: 0 <= k < |ts| ==> ts[k] != [] && Avoids(ts[k], Whitespace)
    ensures Tokens(Join(ts, " ")) == ts
  {
    if ts == [] {
      assert Pieces([], Whitespace) == [[]];
      assert NonEmpty([[]]) == [];
    } else {
      PiecesOfJoin(ts, ' ', Whitespace);
      NonEmptyKeepsAll(ts);
    }
  }

  // ---------------------------------------------------------------------
  // Stripping.

  /** Stripping leaves a string with no whitespace at either end alone. */
  lemma StripStripped(p: string)
    requires Stripped(p)
    ensures Strip(p) == p
  {
  }

  /** One leading blank in front of a stripped string is all that strip removes. */
  lemma StripBlankThenStripped(p: string)
    requires Stripped(p)
    ensures Strip(" " + p) == p
  {
    assert (" " + p)[1..] == p;
    assert TrimStart(" " + p) == TrimStart(p);
  }
}
