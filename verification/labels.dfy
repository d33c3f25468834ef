/** `bokhylla_search` of static/js/ngram-viewer.js: the search phrase sent to
    the national library's search page when a point of a line is clicked. */
module Labels {
  import opened Wrappers
  import opened Text

  /** The part of a series key before its first `:` (the whole key when
      there is none): `key.split(':')[0]`. */
  function Head(key: string): (h: string)
    ensures |h| <= |key| && h == key[..|h|]
    ensures ':' !in h
    ensures |h| < |key| ==> key[|h|] == ':'
    ensures ':' !in key ==> h == key
  {
    if ':' in key then
      var i := IndexOf(key, ':').value;
      assert Split(key, ':')[0] == key[..i];
      Split(key, ':')[0]
    else key
  }

  /** Lines 399-413: keep the text before the first `:`; if it holds a `+`,
      the first `+` (only that one: a string `replace`) becomes a space,
      otherwise the text is put in double quotes. */
  function BokhyllaSearch(key: string): (r: string)
    ensures ':' !in r
    ensures var h := Head(key);
      '+' in h ==> |r| == |h| && forall i :: 0 <= i < |h| && h[i] == '+' && '+' !in h[..i] ==> r == h[i := ' ']
    ensures var h := Head(key);
      '+' !in h ==> r == ['"'] + h + ['"']
  {
    var h := Head(key);
    match IndexOf(h, '+')
    case Some(i) => h[i := ' ']
    case None => ['"'] + h + ['"']
  }

  /** Only the first `+` is replaced: the phrase keeps one `+` fewer than its
      head, and any later `+` stays. */
  lemma FirstPlusOnly(key: string, i: nat)
    requires i < |Head(key)| && Head(key)[i] == '+' && '+' !in Head(key)[..i]
    ensures BokhyllaSearch(key)[i] == ' '
    ensures BokhyllaSearch(key)[..i] == Head(key)[..i]
    ensures BokhyllaSearch(key)[i + 1..] == Head(key)[i + 1..]
  {
  }

  /** The head ends at the first `:`. */
  lemma HeadAt(key: string, i: nat)
    requires i < |key| && key[i] == ':' && ':' !in key[..i]
    ensures Head(key) == key[..i]
  {
  }

  /** A one-word key with a language suffix is searched as a quoted phrase. */
  lemma QuotedWord(word: string, suffix: string)
    requires ':' !in word && '+' !in word
    ensures BokhyllaSearch(word + ":" + suffix) == ['"'] + word + ['"']
  {
    var key := word + ":" + suffix;
    assert key[..|word|] == word;
    HeadAt(key, |word|);
  }

  /** Two words joined by `+` with a language suffix: the `+` becomes a space
      and no quotes are added. */
  lemma JoinedWords(a: string, b: string, suffix: string)
    requires ':' !in a && '+' !in a && ':' !in b
    ensures BokhyllaSearch(a + "+" + b + ":" + suffix) == a + " " + b
  {
    var key := a + "+" + b + ":" + suffix;
    var n := |a| + 1 + |b|;
    assert key[..n] == a + "+" + b;
    assert ':' !in a + "+" + b;
    HeadAt(key, n);
    var h := Head(key);
    assert h[..|a|] == a;
    FirstPlusOnly(key, |a|);
    assert BokhyllaSearch(key) == a + " " + b;
  }
}
