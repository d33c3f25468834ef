/** `termParser` of backend.py: one cleaned term turned into the ngrams to
    look up, and the kind of query they form. */
module TermParser {
  import opened Wrappers
  import opened Text
  import opened Dicts
  import opened QueryTerms
  import opened Tokenizer
  import opened Combinations
  import opened QueryOptions
  import opened QueryBuilder

  const MaxNgram: nat := 3
  const MaxAdd: nat := 10
  const MaxTrunct: nat := 5

  /** `qType`: `trunctated` in the source is `Truncated` here. */
  datatype QType = Agg | Wildcard | Truncated | Single

  /** The request settings a term is parsed under; the wildcard branch
      changes them for every later term. */
  datatype Settings = Settings(lang: string, caseSens: string, corpus: string)

  datatype Parsed = Parsed(ngrams: seq<seq<string>>, qtype: QType, settings: Settings)

  predicate IsBracket(c: char) {
    c == '(' || c == ')'
  }

  /** How many brackets open `s`. */
  function LeadingBrackets(s: string): (n: nat)
    ensures n <= |s|
    ensures forall i :: 0 <= i < n ==> IsBracket(s[i])
    ensures n == |s| || !IsBracket(s[n])
  {
    if |s| == 0 || !IsBracket(s[0]) then 0 else 1 + LeadingBrackets(s[1..])
  }

  /** How many brackets close `s`. */
  function TrailingBrackets(s: string): (n: nat)
    ensures n <= |s|
    ensures forall i :: |s| - n <= i < |s| ==> IsBracket(s[i])
    ensures n == |s| || !IsBracket(s[|s| - n - 1])
    decreases |s|
  {
    if |s| == 0 || !IsBracket(s[|s| - 1]) then 0 else 1 + TrailingBrackets(s[..|s| - 1])
  }

  /** The leading brackets removed. */
  function LStripBrackets(s: string): (r: string)
    ensures |r| <= |s|
    ensures |r| == 0 || !IsBracket(r[0])
  {
    s[LeadingBrackets(s)..]
  }

  /** The trailing brackets removed. */
  function RStripBrackets(s: string): (r: string)
    ensures |r| <= |s|
    ensures |r| == 0 || !IsBracket(r[|r| - 1])
  {
    s[..|s| - TrailingBrackets(s)]
  }

  /** Python `s.strip('()')`. */
  function StripBrackets(s: string): string {
    RStripBrackets(LStripBrackets(s))
  }

  /** `s.strip('()')` is a stretch of `s` ... */
  lemma StripBracketsSlice(s: string)
    ensures var a := |s| - |LStripBrackets(s)|;
      a + |StripBrackets(s)| <= |s| && StripBrackets(s) == s[a..a + |StripBrackets(s)|]
  {
    var a := LeadingBrackets(s);
    var l := s[a..];
    var b := |l| - TrailingBrackets(l);
    assert StripBrackets(s) == l[..b];
    assert l[..b] == s[a..a + b];
  }

  /** ... that neither starts nor ends with a bracket ... */
  lemma StripBracketsEnds(s: string)
    ensures var r := StripBrackets(s);
      |r| == 0 || (!IsBracket(r[0]) && !IsBracket(r[|r| - 1]))
  {
    var l := LStripBrackets(s);
    var r := RStripBrackets(l);
    assert |r| == 0 || r[0] == l[0];
  }

  /** ... and everything around that stretch is a bracket. */
  lemma StripBracketsOuter(s: string)
    ensures var r := StripBrackets(s);
      var a := |s| - |LStripBrackets(s)|;
      && (forall i :: 0 <= i < a ==> IsBracket(s[i]))
      && (forall i :: a + |r| <= i < |s| ==> IsBracket(s[i]))
  {
    var l := LStripBrackets(s);
    var r := RStripBrackets(l);
    var a := |s| - |l|;
    forall i | a + |r| <= i < |s|
      ensures IsBracket(s[i])
    {
      assert s[i] == l[i - a];
    }
  }

  /** Lines 388-389 for one token: the brackets stripped, then
      `re.split("\s", _, maxTrunct)[:maxTrunct]`, which cuts at every single
      whitespace character. */
  function Alternatives(token: string): (r: seq<string>)
    ensures 1 <= |r| <= MaxTrunct
  {
    Take(SplitMax(StripBrackets(token), Whitespace, MaxTrunct), MaxTrunct)
  }

  /** `re.compile('\([^)]*\)').match(t)`: `t` starts with a bracket group. */
  predicate OpensGroup(t: string) {
    |t| > 0 && t[0] == '(' && ')' in t[1..]
  }

  /** For a token of `Tokenize`, opening a group means being one. */
  lemma OpensGroupIsGroup(t: string)
    requires IsWord(t) || IsGroup(t)
    ensures OpensGroup(t) <==> IsGroup(t)
  {
    if IsGroup(t) {
      assert t[1..][|t| - 2] == t[|t| - 1];
    }
  }

  /** The tokens of a term that is not an addition: at most three. */
  function Tokens(term: string): (ts: seq<string>)
    ensures |ts| <= MaxNgram
    ensures forall i :: 0 <= i < |ts| ==> IsWord(ts[i]) || IsGroup(ts[i])
  {
    Take(Tokenize(term), MaxNgram)
  }

  /** The parts of an addition: at most ten, each cut to three tokens. */
  function AggNgrams(term: string): (ngrams: seq<seq<string>>)
    ensures 1 <= |ngrams| <= MaxAdd
    ensures forall i :: 0 <= i < |ngrams| ==> |ngrams[i]| <= MaxNgram
  {
    var parts := Take(SplitMax(term, {'+'}, MaxAdd), MaxAdd);
    seq(|parts|, i requires 0 <= i < |parts| => Tokens(parts[i]))
  }

  /** The alternatives of every slot, in order. */
  function Slots(tokens: seq<string>): (slots: seq<seq<string>>)
    ensures |slots| == |tokens|
    ensures forall i :: 0 <= i < |tokens| ==> slots[i] == Alternatives(tokens[i])
  {
    seq(|tokens|, i requires 0 <= i < |tokens| => Alternatives(tokens[i]))
  }

  /** The language and corpus the wildcard search hands back (lines 211-215,
      249-250): the current ones, overridden by the options of the pattern. */
  function WildcardSettings(tokens: seq<string>, s: Settings): (r: Settings)
    requires |tokens| > 0
    ensures r.caseSens == "1"
  {
    var base := map["lang" := s.lang, "db" := s.corpus];
    var merged :=
      match ExtractInfo(tokens)
      case Success(Some(x)) => Merge(base, x.options)
      case _ => base;
    Settings(merged["lang"], "1", merged["db"])
  }

  /** The words of a wildcard pattern once its options are split off
      (lines 213-215). */
  function WildcardWords(tokens: seq<string>): (words: seq<string>)
    requires |tokens| > 0
    ensures |words| == |tokens|
  {
    match ExtractInfo(tokens)
    case Success(Some(x)) => x.ngram
    case _ => tokens
  }

  /** `wildcard_search` (lines 204-247) up to its database read: the corpus
      after the pattern's options is looked up in `db_names` (line 221), then
      the words bind their arguments and the planner picks an index (lines
      223-234). On success, the settings handed back to the parser. */
  function WildcardSearch(tokens: seq<string>, s: Settings): (r: Result<Settings, Error>)
    requires |tokens| > 0
  {
    var st := WildcardSettings(tokens, s);
    if st.corpus !in DbNames then Failure(KeyError)
    else
      match WildcardIndex(WildcardWords(tokens), s.caseSens)
      case Failure(e) => Failure(e)
      case Success(_) => Success(st)
  }

  /** The wildcard search raises KeyError exactly when the corpus is neither
      `bok` nor `avis`, and otherwise TypeError exactly when the search
      ignores case and some word is empty; in every other case it hands
      back the settings of the pattern. */
  lemma WildcardSearchOutcome(tokens: seq<string>, s: Settings)
    requires |tokens| > 0
    ensures var r := WildcardSearch(tokens, s);
      var st := WildcardSettings(tokens, s);
      var words := WildcardWords(tokens);
      && (r == Failure(KeyError) <==> st.corpus !in DbNames)
      && (r == Failure(TypeError) <==>
            st.corpus in DbNames && s.caseSens == "0" && exists i :: 0 <= i < |words| && |words[i]| == 0)
      && (r.Failure? ==> r.error == KeyError || r.error == TypeError)
      && (r.Success? ==> r.value == st)
  {
    WildcardIndexFailure(WildcardWords(tokens), s.caseSens);
    WildcardArgsFailure(WildcardWords(tokens), s.caseSens);
  }

  /** The database search of the wildcard branch (lines 236-247): the ngrams
      the index returns for the tokens of a pattern, under the language,
      case sensitivity and corpus the search is called with (line 375). */
  type Rows = (seq<string>, Settings) -> seq<seq<string>>

  /** Lines 352-395. Only the wildcard branch can raise, before its search
      is run. */
  function ParseTerm(term: string, s: Settings, rows: Rows): (r: Result<Parsed, Error>)
    ensures r.Success? ==> (r.value.qtype == Agg <==> '+' in term)
    ensures r.Success? && r.value.qtype != Wildcard ==> r.value.settings == s
    ensures r.Success? && r.value.qtype == Wildcard ==> r.value.settings.caseSens == "1"
    ensures r.Failure? ==>
      && '+' !in term && (exists i :: 0 <= i < |Tokens(term)| && '%' in Tokens(term)[i])
      && (r.error == KeyError || r.error == TypeError)
  {
    if '+' in term then Success(Parsed(AggNgrams(term), Agg, s))
    else
      var tokens := Tokens(term);
      if exists i :: 0 <= i < |tokens| && '%' in tokens[i] then
        WildcardSearchOutcome(tokens, s);
        match WildcardSearch(tokens, s)
        case Failure(e) => Failure(e)
        case Success(st) => Success(Parsed(rows(tokens, s), Wildcard, st))
      else if exists i :: 0 <= i < |tokens| && OpensGroup(tokens[i]) then
        Success(Parsed(Product(Slots(tokens)), Truncated, s))
      else
        Success(Parsed([tokens], Single, s))
  }

  /** A wildcard term fails as its search fails; otherwise its ngrams are the
      rows the search returns, under the settings the search hands back. */
  lemma WildcardParse(term: string, s: Settings, rows: Rows)
    requires '+' !in term && exists i :: 0 <= i < |Tokens(term)| && '%' in Tokens(term)[i]
    ensures var tokens := Tokens(term);
      && |tokens| > 0
      && ParseTerm(term, s, rows) ==
        match WildcardSearch(tokens, s)
        case Failure(e) => Failure(e)
        case Success(st) => Success(Parsed(rows(tokens, s), Wildcard, st))
  {
  }

  /** An addition gives at most ten ngrams of at most three tokens each. */
  lemma AggShape(term: string, s: Settings, rows: Rows)
    requires '+' in term
    ensures var r := ParseTerm(term, s, rows);
      r.Success? && r.value.qtype == Agg && 1 <= |r.value.ngrams| <= MaxAdd
      && forall i :: 0 <= i < |r.value.ngrams| ==> |r.value.ngrams[i]| <= MaxNgram
  {
  }

  /** A term with a bracket group and no `%` gives every pick of one
      alternative per token, at most five alternatives per token. */
  lemma {:induction false} TruncatedShape(term: string, s: Settings, rows: Rows, p: seq<string>)
    requires '+' !in term
    requires var tokens := Tokens(term);
      (forall i :: 0 <= i < |tokens| ==> '%' !in tokens[i]) && exists i :: 0 <= i < |tokens| && IsGroup(tokens[i])
    ensures var r := ParseTerm(term, s, rows);
      var tokens := Tokens(term);
      r.Success? && r.value.qtype == Truncated && 1 <= |tokens| <= MaxNgram
      && |r.value.ngrams| == Count(Slots(tokens))
      && (p in r.value.ngrams <==> |p| == |tokens| && forall i :: 0 <= i < |p| ==> p[i] in Alternatives(tokens[i]))
  {
    var tokens := Tokens(term);
    var slots := Slots(tokens);
    TruncatedParse(term, s, rows);
    ProductSize(slots);
    ProductMembers(slots, p);
    assert p in Product(slots) <==> |p| == |tokens| && forall i :: 0 <= i < |p| ==> p[i] in Alternatives(tokens[i]);
  }

  lemma TruncatedParse(term: string, s: Settings, rows: Rows)
    requires '+' !in term
    requires var tokens := Tokens(term);
      (forall i :: 0 <= i < |tokens| ==> '%' !in tokens[i]) && exists i :: 0 <= i < |tokens| && IsGroup(tokens[i])
    ensures 1 <= |Tokens(term)|
    ensures ParseTerm(term, s, rows) == Success(Parsed(Product(Slots(Tokens(term))), Truncated, s))
  {
    var tokens := Tokens(term);
    var i :| 0 <= i < |tokens| && IsGroup(tokens[i]);
    OpensGroupIsGroup(tokens[i]);
  }

  /** A term of plain words gives one ngram: its first three tokens. */
  lemma SingleShape(term: string, s: Settings, rows: Rows)
    requires '+' !in term
    requires var tokens := Tokens(term);
      forall i :: 0 <= i < |tokens| ==> '%' !in tokens[i] && !IsGroup(tokens[i])
    ensures ParseTerm(term, s, rows) == Success(Parsed([Take(Tokenize(term), MaxNgram)], Single, s))
  {
    var tokens := Tokens(term);
    forall i | 0 <= i < |tokens|
      ensures !OpensGroup(tokens[i])
    {
      OpensGroupIsGroup(tokens[i]);
    }
  }

  /** A word without brackets or whitespace is its own only alternative. */
  lemma PlainWordAlternative(w: string)
    requires IsWord(w) && ')' !in w
    ensures Alternatives(w) == [w]
  {
    assert LStripBrackets(w) == w;
    assert RStripBrackets(w) == w;
    assert FirstIn(w, Whitespace) == None;
  }

  /** A wildcard pattern without options switches every later term to
      case-sensitive search and keeps the current language and corpus. */
  lemma WildcardSettingsFromOptions(tokens: seq<string>, s: Settings)
    requires |tokens| > 0 && ':' !in tokens[|tokens| - 1]
    ensures WildcardSettings(tokens, s) == Settings(s.lang, "1", s.corpus)
  {
  }
}
