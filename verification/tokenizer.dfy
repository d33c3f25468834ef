/** `tokenize` of backend.py: Python's `re.findall` with the pattern
    `[^\s\(]+|\([^)]*\)`, scanned left to right without overlap. A token is
    a run of characters that are neither whitespace nor `(`, or a bracket
    group `(` ... `)` with no `)` inside. Characters no alternative matches
    at (whitespace, an unmatched `(`) are skipped. */
module Tokenizer {
  import opened Wrappers
  import opened Text

  predicate IsWordChar(c: char) {
    !IsSpace(c) && c != '('
  }

  /** A token of the first alternative. */
  predicate IsWord(t: string) {
    |t| > 0 && forall i :: 0 <= i < |t| ==> IsWordChar(t[i])
  }

  /** A token of the second alternative. */
  predicate IsGroup(t: string) {
    |t| >= 2 && t[0] == '(' && t[|t| - 1] == ')' && ')' !in t[1..|t| - 1]
  }

  /** What the greedy `[^\s\(]+` consumes at the start of `s` (0: no match). */
  function WordRun(s: string): (n: nat)
    ensures n <= |s|
    ensures forall i :: 0 <= i < n ==> IsWordChar(s[i])
    ensures n == |s| || !IsWordChar(s[n])
  {
    if |s| == 0 || !IsWordChar(s[0]) then 0 else 1 + WordRun(s[1..])
  }

  /** Lines 348-350. */
  function Tokenize(s: string): (ts: seq<string>)
    ensures forall i :: 0 <= i < |ts| ==> IsWord(ts[i]) || IsGroup(ts[i])
    decreases |s|
  {
    if |s| == 0 then []
    else
      var n := WordRun(s);
      if n > 0 then
        [s[..n]] + Tokenize(s[n..])
      else if s[0] == '(' && IndexOf(s[1..], ')').Some? then
        var j := IndexOf(s[1..], ')').value;
        assert s[..j + 2][1..j + 1] == s[1..][..j];
        [s[..j + 2]] + Tokenize(s[j + 2..])
      else
        Tokenize(s[1..])
  }

  /** Tokenizing words joined by single spaces gives the words back. */
  lemma {:induction false} TokenizeJoin(words: seq<string>)
    requires forall i :: 0 <= i < |words| ==> IsWord(words[i])
    ensures Tokenize(Join(" ", words)) == words
  {
    if |words| == 1 {
      var w := words[0];
      assert WordRun(w) == |w| by { WordRunOfWord(w, ""); assert w + "" == w; }
      assert Join(" ", words) == w;
      assert w[..|w|] == w && w[|w|..] == [];
      assert Tokenize(w) == [w] + Tokenize([]);
    } else if |words| > 1 {
      var w := words[0];
      var rest := Join(" ", words[1..]);
      var s := w + " " + rest;
      assert Join(" ", words) == s;
      WordRunOfWord(w, " " + rest);
      assert w + (" " + rest) == s;
      assert s[..|w|] == w;
      assert s[|w|..] == " " + rest;
      assert (" " + rest)[1..] == rest;
      assert WordRun(" " + rest) == 0;
      TokenizeJoin(words[1..]);
      assert words == [w] + words[1..];
    }
  }

  /** A word followed by text that starts with a separator is one whole run. */
  lemma {:induction false} WordRunOfWord(w: string, tail: string)
    requires IsWord(w) || |w| == 0
    requires |tail| == 0 || !IsWordChar(tail[0])
    ensures WordRun(w + tail) == |w|
    decreases |w|
  {
    if |w| > 0 {
      assert (w + tail)[1..] == w[1..] + tail;
      WordRunOfWord(w[1..], tail);
    } else {
      assert w + tail == tail;
    }
  }

  /** A `(` with no `)` after it contributes nothing. */
  lemma UnmatchedBracketSkipped(s: string)
    requires ')' !in s
    ensures Tokenize("(" + s) == Tokenize(s)
  {
    assert ("(" + s)[1..] == s;
  }

  /** Text of whitespace only has no tokens. */
  lemma {:induction false} BlankHasNoTokens(s: string)
    requires forall i :: 0 <= i < |s| ==> IsSpace(s[i])
    ensures Tokenize(s) == []
  {
    if |s| > 0 {
      BlankHasNoTokens(s[1..]);
    }
  }
}
