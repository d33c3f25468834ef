/** The `/ngram/query` handler of backend.py (lines 511-539): the request
    parameters merged over the defaults, the cleaned terms, and for every
    term its ngrams, their queries and the way their results are gathered.
    The database reads themselves are not modelled: a plan is what the
    handler would run. */
module Request {
  import opened Wrappers
  import opened Text
  import opened QueryTerms
  import opened Tokenizer
  import opened Combinations
  import opened QueryOptions
  import opened TermParser
  import opened QueryBuilder

  /** How the results of a term's queries are read (lines 529-539): one
      series per query, one summed series for an addition, or nothing. */
  datatype Gathering = SingleResults | AggResults | Skipped

  /** Lines 529-539 for a term whose batch holds `n` queries. */
  function GatheringOf(n: nat, qtype: QType): (g: Gathering)
    ensures g == AggResults <==> n > 1 && qtype == Agg
    ensures g == Skipped <==> n == 0 || (n > 1 && qtype == Single)
  {
    if n == 1 then SingleResults
    else if n > 1 then
      match qtype
      case Agg => AggResults
      case Wildcard => SingleResults
      case Truncated => SingleResults
      case Single => Skipped
    else Skipped
  }

  /** One term of the request: its queries, its kind, the settings they run
      under, and how their results are read. */
  datatype Step = Step(batch: Batch, qtype: QType, settings: Settings, gathering: Gathering)

  /** Lines 525-527 for one term: `termParser`, then `query_factory` under
      the settings the parser hands back. */
  function PlanStep(term: string, s: Settings, rows: Rows): Result<Step, Error> {
    match ParseTerm(term, s, rows)
    case Failure(e) => Failure(e)
    case Success(p) =>
      match QueryFactory(p.ngrams, p.settings.lang, p.settings.caseSens, p.settings.corpus)
      case Failure(e) => Failure(e)
      case Success(b) => Success(Step(b, p.qtype, p.settings, GatheringOf(|b.sql|, p.qtype)))
  }

  /** The loop of lines 523-539: the terms in order, each parsed under the
      settings the previous one left behind; the first exception ends the
      request. */
  function PlanTerms(terms: seq<string>, s: Settings, rows: Rows): (r: Result<seq<Step>, Error>)
    ensures r.Success? ==> |r.value| == |terms|
  {
    if |terms| == 0 then Success([])
    else
      match PlanStep(terms[0], s, rows)
      case Failure(e) => Failure(e)
      case Success(st) =>
        match PlanTerms(terms[1..], st.settings, rows)
        case Failure(e) => Failure(e)
        case Success(rest) => Success([st] + rest)
  }

  /** Lines 515-539: `args` holds the first value of every request
      argument. */
  function Plan(args: map<string, string>, rows: Rows): Result<seq<Step>, Error> {
    SearchParamsComplete(args);
    var p := SearchParams(args);
    PlanTerms(ReturnTerms(p["terms"]), Settings(p["lang"], p["case_sens"], p["corpus"]), rows)
  }

  // ---------------------------------------------------------------------
  // What the steps of a plan hold

  /** A plain term gives exactly one query, and its result is always read. */
  lemma SingleTermRead(term: string, s: Settings, rows: Rows)
    requires PlanStep(term, s, rows).Success? && PlanStep(term, s, rows).value.qtype == Single
    ensures var st := PlanStep(term, s, rows).value;
      |st.batch.sql| == 1 && st.gathering == SingleResults && st.settings == s
  {
    var p := ParseTerm(term, s, rows).value;
    assert p.ngrams == [Tokens(term)];
    FactoryQueries(p.ngrams, p.settings.lang, p.settings.caseSens, p.settings.corpus, 0);
  }

  /** A wildcard term switches the search to case-sensitive for itself and
      every later term of the request. */
  lemma WildcardSticks(terms: seq<string>, s: Settings, rows: Rows, k: nat, j: nat)
    requires PlanTerms(terms, s, rows).Success?
    requires k <= j < |terms| && PlanTerms(terms, s, rows).value[k].qtype == Wildcard
    ensures PlanTerms(terms, s, rows).value[j].settings.caseSens == "1"
  {
    var v := PlanTerms(terms, s, rows).value;
    forall i | 0 <= i < |v|
      ensures Passes(v, i)
    {
      PlanTermsStepFacts(terms, s, rows, i);
    }
    PlanTermsStepFacts(terms, s, rows, k);
    FlagCarries(v, k, j);
  }

  /** Once case-sensitive search is on, it stays on. */
  lemma WildcardStays(terms: seq<string>, s: Settings, rows: Rows, j: nat)
    requires PlanTerms(terms, s, rows).Success? && j < |terms|
    requires PlanTerms(terms, s, rows).value[0].settings.caseSens == "1"
    ensures PlanTerms(terms, s, rows).value[j].settings.caseSens == "1"
  {
    var v := PlanTerms(terms, s, rows).value;
    forall i | 0 <= i < |v|
      ensures Passes(v, i)
    {
      PlanTermsStepFacts(terms, s, rows, i);
    }
    FlagCarries(v, 0, j);
  }

  predicate CaseSensitive(st: Step) {
    st.settings.caseSens == "1"
  }

  /** Step `i` hands case-sensitive search on to step `i + 1`. */
  predicate Passes(v: seq<Step>, i: nat) {
    i + 1 < |v| && CaseSensitive(v[i]) ==> CaseSensitive(v[i + 1])
  }

  lemma {:induction false} FlagCarries(v: seq<Step>, k: nat, j: nat)
    requires k <= j < |v| && CaseSensitive(v[k])
    requires forall i :: 0 <= i < |v| ==> Passes(v, i)
    ensures CaseSensitive(v[j])
    decreases j - k
  {
    if k < j {
      assert Passes(v, k);
      FlagCarries(v, k + 1, j);
    }
  }

  /** What every step of a plan shows: a wildcard step is case-sensitive, and
      a case-sensitive step is followed by one. */
  lemma {:induction false} PlanTermsStepFacts(terms: seq<string>, s: Settings, rows: Rows, i: nat)
    requires PlanTerms(terms, s, rows).Success? && i < |terms|
    ensures var v := PlanTerms(terms, s, rows).value;
      (v[i].qtype == Wildcard ==> CaseSensitive(v[i])) && Passes(v, i)
    decreases i
  {
    PlanTermsUnfold(terms, s, rows);
    var st := PlanStep(terms[0], s, rows).value;
    var v := PlanTerms(terms, s, rows).value;
    var rest := PlanTerms(terms[1..], st.settings, rows).value;
    ConsIndex(st, rest, i);
    if i == 0 {
      StepSettings(terms[0], s, rows);
      if |rest| > 0 {
        ConsIndex(st, rest, 1);
        PlanTermsUnfold(terms[1..], st.settings, rows);
        if CaseSensitive(st) {
          StepKeepsCaseSensitive(terms[1..][0], st.settings, rows);
        }
      }
    } else {
      PlanTermsStepFacts(terms[1..], st.settings, rows, i - 1);
      if i + 1 < |v| {
        ConsIndex(st, rest, i + 1);
      }
    }
  }

  lemma ConsIndex<T>(x: T, rest: seq<T>, i: nat)
    requires i <= |rest|
    ensures ([x] + rest)[i] == if i == 0 then x else rest[i - 1]
  {
  }

  /** A successful plan is the first step followed by the plan of the rest,
      made under the settings that step hands on. */
  lemma PlanTermsUnfold(terms: seq<string>, s: Settings, rows: Rows)
    requires PlanTerms(terms, s, rows).Success? && |terms| > 0
    ensures PlanStep(terms[0], s, rows).Success?
    ensures var st := PlanStep(terms[0], s, rows).value;
      && PlanTerms(terms[1..], st.settings, rows).Success?
      && PlanTerms(terms, s, rows).value == [st] + PlanTerms(terms[1..], st.settings, rows).value
  {
  }

  /** A step hands on the parser's kind and settings. */
  lemma StepSettings(term: string, s: Settings, rows: Rows)
    requires PlanStep(term, s, rows).Success?
    ensures ParseTerm(term, s, rows).Success?
    ensures var p := ParseTerm(term, s, rows).value;
      PlanStep(term, s, rows).value.qtype == p.qtype && PlanStep(term, s, rows).value.settings == p.settings
  {
  }

  /** No step switches case-sensitive search off. */
  lemma StepKeepsCaseSensitive(term: string, s: Settings, rows: Rows)
    requires PlanStep(term, s, rows).Success? && s.caseSens == "1"
    ensures PlanStep(term, s, rows).value.settings.caseSens == "1"
  {
    StepSettings(term, s, rows);
  }

  // ---------------------------------------------------------------------
  // An empty term ends the request

  /** The empty term parses to one ngram without words, whose query raises
      IndexError in `extract_info`. */
  lemma EmptyTermRaises(s: Settings, rows: Rows)
    ensures PlanStep("", s, rows) == Failure(IndexError)
  {
    BlankHasNoTokens("");
    assert Tokens("") == [];
    var p := ParseTerm("", s, rows).value;
    assert p.ngrams == [[]];
    FactoryFailure(p.ngrams, s.lang, s.caseSens, s.corpus);
    assert Outcomes(p.ngrams, s.lang, s.caseSens, s.corpus)[0] == Failure(IndexError);
  }

  /** A request with an empty term among its terms fails. */
  lemma {:induction false} EmptyTermFails(terms: seq<string>, s: Settings, rows: Rows)
    requires "" in terms
    ensures PlanTerms(terms, s, rows).Failure?
    decreases |terms|
  {
    if terms[0] == "" {
      EmptyTermRaises(s, rows);
    } else if PlanStep(terms[0], s, rows).Success? {
      assert "" in terms[1..];
      EmptyTermFails(terms[1..], PlanStep(terms[0], s, rows).value.settings, rows);
    }
  }

  /** A word followed by a comma and a space, as the search box leaves it
      when a second term is started and not typed: the request fails. */
  lemma TrailingCommaFails(args: map<string, string>, w: string, rows: Rows)
    requires "terms" in args && args["terms"] == w + ", "
    requires IsPlain(w) && |w| + 2 <= MaxChar && Trimmed(w) && '*' !in w && '+' !in w
    ensures Plan(args, rows).Failure?
  {
    SearchParamsComplete(args);
    var p := SearchParams(args);
    assert p["terms"] == w + ", ";
    TrailingBlankGivesEmptyTerm(w);
    var terms := ReturnTerms(p["terms"]);
    assert terms[1] == "";
    EmptyTermFails(terms, Settings(p["lang"], p["case_sens"], p["corpus"]), rows);
  }

  // ---------------------------------------------------------------------
  // The handler with ngrams without words skipped

  /** The ngrams that have at least one word, in order. */
  function Worded(ngrams: seq<seq<string>>): (r: seq<seq<string>>)
    ensures forall ng :: ng in r <==> ng in ngrams && |ng| > 0
  {
    if |ngrams| == 0 then []
    else (if |ngrams[0]| > 0 then [ngrams[0]] else []) + Worded(ngrams[1..])
  }

  /** Without wordless ngrams nothing is dropped. */
  lemma {:induction false} WordedKeepsAll(ngrams: seq<seq<string>>)
    requires forall i :: 0 <= i < |ngrams| ==> |ngrams[i]| > 0
    ensures Worded(ngrams) == ngrams
  {
    if |ngrams| > 0 {
      WordedKeepsAll(ngrams[1..]);
      assert [ngrams[0]] + ngrams[1..] == ngrams;
    }
  }

  function PlanStepFixed(term: string, s: Settings, rows: Rows): Result<Step, Error> {
    match ParseTerm(term, s, rows)
    case Failure(e) => Failure(e)
    case Success(p) =>
      var ngrams := Worded(p.ngrams);
      match QueryFactory(ngrams, p.settings.lang, p.settings.caseSens, p.settings.corpus)
      case Failure(e) => Failure(e)
      case Success(b) => Success(Step(b, p.qtype, p.settings, GatheringOf(|b.sql|, p.qtype)))
  }

  function PlanTermsFixed(terms: seq<string>, s: Settings, rows: Rows): (r: Result<seq<Step>, Error>)
    ensures r.Success? ==> |r.value| == |terms|
  {
    if |terms| == 0 then Success([])
    else
      match PlanStepFixed(terms[0], s, rows)
      case Failure(e) => Failure(e)
      case Success(st) =>
        match PlanTermsFixed(terms[1..], st.settings, rows)
        case Failure(e) => Failure(e)
        case Success(rest) => Success([st] + rest)
  }

  /** The handler with wordless ngrams skipped instead of queried. */
  function PlanFixed(args: map<string, string>, rows: Rows): Result<seq<Step>, Error> {
    SearchParamsComplete(args);
    var p := SearchParams(args);
    PlanTermsFixed(ReturnTerms(p["terms"]), Settings(p["lang"], p["case_sens"], p["corpus"]), rows)
  }

  /** The database hands back rows of at most three words: one column per
      word of the pattern. */
  ghost predicate RowsFit(rows: Rows) {
    forall t: seq<string>, st: Settings, i :: 0 <= i < |rows(t, st)| ==> |rows(t, st)[i]| <= MaxNgram
  }

  /** Every ngram a term parses to has at most three words. */
  lemma ParsedWidth(term: string, s: Settings, rows: Rows, ng: seq<string>)
    requires RowsFit(rows) && ParseTerm(term, s, rows).Success? && ng in ParseTerm(term, s, rows).value.ngrams
    ensures |ng| <= MaxNgram
  {
    var p := ParseTerm(term, s, rows).value;
    var tokens := Tokens(term);
    if p.qtype == Truncated {
      ProductMembers(Slots(tokens), ng);
    } else if p.qtype == Wildcard {
      var i :| 0 <= i < |rows(tokens, s)| && rows(tokens, s)[i] == ng;
    }
  }

  /** With wordless ngrams skipped no term raises IndexError. */
  lemma StepFixedNoIndexError(term: string, s: Settings, rows: Rows)
    requires RowsFit(rows)
    ensures PlanStepFixed(term, s, rows) != Failure(IndexError)
  {
    if ParseTerm(term, s, rows).Failure? {
      return;
    }
    var p := ParseTerm(term, s, rows).value;
    var ngrams := Worded(p.ngrams);
    var st := p.settings;
    FactoryFailure(ngrams, st.lang, st.caseSens, st.corpus);
    var r := QueryFactory(ngrams, st.lang, st.caseSens, st.corpus);
    if r.Failure? {
      var i :| 0 <= i < |ngrams| && Outcomes(ngrams, st.lang, st.caseSens, st.corpus)[i] == Failure(r.error);
      assert ngrams[i] in ngrams;
      ParsedWidth(term, s, rows, ngrams[i]);
      BuildQueryErrors(ngrams[i], st.lang, st.caseSens, st.corpus);
    }
  }

  lemma {:induction false} TermsFixedNoIndexError(terms: seq<string>, s: Settings, rows: Rows)
    requires RowsFit(rows)
    ensures PlanTermsFixed(terms, s, rows) != Failure(IndexError)
    decreases |terms|
  {
    if |terms| > 0 {
      StepFixedNoIndexError(terms[0], s, rows);
      if PlanStepFixed(terms[0], s, rows).Success? {
        TermsFixedNoIndexError(terms[1..], PlanStepFixed(terms[0], s, rows).value.settings, rows);
      }
    }
  }

  /** The corrected handler never fails with IndexError, whatever the
      request. */
  lemma FixedNoIndexError(args: map<string, string>, rows: Rows)
    requires RowsFit(rows)
    ensures PlanFixed(args, rows) != Failure(IndexError)
  {
    SearchParamsComplete(args);
    var p := SearchParams(args);
    TermsFixedNoIndexError(ReturnTerms(p["terms"]), Settings(p["lang"], p["case_sens"], p["corpus"]), rows);
  }

  /** For a term all of whose ngrams have words, the correction changes
      nothing. */
  lemma FixedAgrees(term: string, s: Settings, rows: Rows)
    requires ParseTerm(term, s, rows).Success? ==> forall ng :: ng in ParseTerm(term, s, rows).value.ngrams ==> |ng| > 0
    ensures PlanStepFixed(term, s, rows) == PlanStep(term, s, rows)
  {
    if ParseTerm(term, s, rows).Failure? {
      return;
    }
    var ngrams := ParseTerm(term, s, rows).value.ngrams;
    assert forall i :: 0 <= i < |ngrams| ==> ngrams[i] in ngrams;
    WordedKeepsAll(ngrams);
  }
}
