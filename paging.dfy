/**
 * The word list's pages: ten words per page in sorted order, the page count,
 * the slice a page shows, the page of the first word with a given prefix, and
 * the page shown after each key.
 */
module Paging {
  import opened Common
  import opened Strings

  const PageSize := 10

  /** `(n + 9) // 10`: the fewest pages of ten that hold `n` words. */
  function TotalPages(n: nat): (pages: nat)
    ensures pages * PageSize >= n
    ensures n > 0 ==> (pages - 1) * PageSize < n
    ensures pages == 0 <==> n == 0
  {
    (n + 9) / 10
  }

  /** `start_idx = current_page * 10`. */
  function PageStart(page: nat): nat {
    page * PageSize
  }

  /** `end_idx = min(start_idx + 10, len(words))`: every existing page shows one to ten words. */
  function PageEnd(page: nat, n: nat): (end: nat)
    ensures end <= n
    ensures page < TotalPages(n) ==> PageStart(page) < end <= PageStart(page) + PageSize
  {
    if PageStart(page) + PageSize < n then PageStart(page) + PageSize else n
  }

  /** The word at index `i` is shown on page `i // 10`, and that page exists. */
  lemma PageOfIndex(i: nat, n: nat)
    requires i < n
    ensures i / PageSize < TotalPages(n)
    ensures PageStart(i / PageSize) <= i < PageEnd(i / PageSize, n)
  {
  }

  /** Python's ordering of strings: code point by code point, a proper prefix first. */
  predicate LexLess(a: string, b: string)
    decreases |a|
  {
    if a == [] then b != []
    else b != [] && (a[0] < b[0] || (a[0] == b[0] && LexLess(a[1..], b[1..])))
  }

  /** `words == sorted(keys)`: the keys, each once, in increasing order. */
  ghost predicate SortedKeysOf(words: seq<string>, keys: set<string>) {
    && (forall i, j :: 0 <= i < j < |words| ==> LexLess(words[i], words[j]))
    && (forall w :: w in keys <==> w in words)
  }

  /** The sorted keys are empty exactly when there are no keys. */
  lemma SortedKeysEmpty(words: seq<string>, keys: set<string>)
    requires SortedKeysOf(words, keys)
    ensures words == [] <==> keys == {}
  {
    if words != [] {
      assert words[0] in keys;
    }
  }

  /** `word.lower().startswith(term)`. */
  predicate StartsWith(word: string, term: string) {
    term <= Lower(word)
  }

  /** The index of the first word that starts with `term`, if any. */
  function FirstMatch(words: seq<string>, term: string): (r: Option<nat>)
    ensures r.None? <==> forall i :: 0 <= i < |words| ==> !StartsWith(words[i], term)
    ensures r.Some? ==>
      r.value < |words| && StartsWith(words[r.value], term) &&
      forall j :: 0 <= j < r.value ==> !StartsWith(words[j], term)
    decreases |words|
  {
    if words == [] then None
    else if StartsWith(words[0], term) then Some(0)
    else match FirstMatch(words[1..], term)
      case None => None
      case Some(i) => Some(i + 1)
  }

  /**
   * What `find_word_page` answers: the page of the first word starting with
   * the lower-cased search word, or -1 when there is none.
   */
  function SearchPage(words: seq<string>, searchWord: string): (page: int)
    ensures page == -1 <==> forall i :: 0 <= i < |words| ==> !StartsWith(words[i], Lower(searchWord))
    ensures page != -1 ==> 0 <= page < TotalPages(|words|)
    ensures page != -1 ==>
      exists i :: 0 <= i < |words| && page == i / PageSize && StartsWith(words[i], Lower(searchWord)) &&
        forall j :: 0 <= j < i ==> !StartsWith(words[j], Lower(searchWord))
  {
    match FirstMatch(words, Lower(searchWord))
    case None => -1
    case Some(i) =>
      PageOfIndex(i, |words|);
      assert StartsWith(words[i], Lower(searchWord));
      i / PageSize
  }

  /**
   * One entry of the word list's input: the key pressed and, when that key is
   * `s`, the line typed at the search prompt (ignored for other keys).
   */
  datatype BrowseInput = BrowseInput(key: char, line: string)

  /**
   * The page shown after one non-quit key: `j` and `k` move one page within
   * bounds, `s` jumps to the page of the first match of a non-blank search, any
   * other key changes nothing.
   */
  function NextPage(page: nat, words: seq<string>, input: BrowseInput): (next: nat)
    requires page < TotalPages(|words|)
    ensures next < TotalPages(|words|)
    ensures LowerChar(input.key) != 's' ==> page - 1 <= next <= page + 1
    ensures LowerChar(input.key) !in {'j', 'k', 's'} ==> next == page
    ensures LowerChar(input.key) == 'j' ==> next == if page + 1 < TotalPages(|words|) then page + 1 else page
    ensures LowerChar(input.key) == 'k' ==> next == if page > 0 then page - 1 else page
    ensures LowerChar(input.key) == 's' ==>
      var term := Lower(Strip(input.line));
      next == if term != [] && SearchPage(words, term) != -1 then SearchPage(words, term) else page
  {
    var key := LowerChar(input.key);
    var total := TotalPages(|words|);
    if key == 'j' && page < total - 1 then page + 1
    else if key == 'k' && page > 0 then page - 1
    else if key == 's' then
      var term := Lower(Strip(input.line));
      if term == [] then page
      else
        var found := SearchPage(words, term);
        if found == -1 then page else found
    else page
  }

  /** `k` undoes `j` on any page but the last, and `j` undoes `k` on any page but the first. */
  lemma PageTurnsUndo(page: nat, words: seq<string>)
    requires page < TotalPages(|words|)
    ensures page + 1 < TotalPages(|words|) ==>
      NextPage(NextPage(page, words, BrowseInput('j', "")), words, BrowseInput('k', "")) == page
    ensures page > 0 ==>
      NextPage(NextPage(page, words, BrowseInput('k', "")), words, BrowseInput('j', "")) == page
  {
    assert LowerChar('j') == 'j' && LowerChar('k') == 'k';
  }
}
