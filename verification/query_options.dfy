/** The request parameters of backend.py: `get_query_params` with its
    prefix-only validation, the merge over `default_params`, and the options
    a term may carry after a colon (`fisk:nno:avis:1950`), read by
    `extract_info`. */
module QueryOptions {
  import opened Wrappers
  import opened Text
  import opened Dicts

  /** The exceptions the query front end can raise and does not catch. */
  datatype Error = IndexError | KeyError | TypeError

  /** `languages = 'all|nob|nno'`; `extract_info` tests the same three. */
  const Languages: seq<string> := ["all", "nob", "nno"]
  /** `corpora = 'bok|avis'`. */
  const Corpora: seq<string> := ["bok", "avis"]
  const CaseFlags: seq<string> := ["0", "1"]
  const FreqKinds: seq<string> := ["rel", "abs"]

  /** The five request parameters. */
  const ParamKeys: set<string> := {"terms", "lang", "case_sens", "freq", "corpus"}

  /** `default_params` (line 58). */
  const Defaults: map<string, string> :=
    map["terms" := "", "lang" := "all", "case_sens" := "0", "freq" := "rel", "corpus" := "bok"]

  // ---------------------------------------------------------------------
  // get_query_params (lines 480-505)

  /** What `re.match` with the parameter's alternation accepts: a value that
      starts with one of the alternatives; `terms` takes anything. */
  predicate Accepts(key: string, v: string) {
    if key == "lang" then StartsWithAny(v, Languages)
    else if key == "case_sens" then StartsWithAny(v, CaseFlags)
    else if key == "freq" then StartsWithAny(v, FreqKinds)
    else if key == "corpus" then StartsWithAny(v, Corpora)
    else key == "terms"
  }

  /** One parameter step: copy the value when supplied, non-empty and
      accepted. */
  function Pick(q: map<string, string>, args: map<string, string>, key: string): (r: map<string, string>)
    ensures forall k :: k != key ==> (k in r <==> k in q) && (k in r ==> r[k] == q[k])
    ensures key in r <==> key in q || (key in args && args[key] != "" && Accepts(key, args[key]))
    ensures key in args && args[key] != "" && Accepts(key, args[key]) ==> r[key] == args[key]
    ensures !(key in args && args[key] != "" && Accepts(key, args[key])) && key in q ==> r[key] == q[key]
  {
    if key in args && args[key] != "" && Accepts(key, args[key]) then q[key := args[key]] else q
  }

  /** Lines 480-505: `args` holds the first value of each request argument. */
  function GetQueryParams(args: map<string, string>): (q: map<string, string>)
    ensures forall k :: k in q <==> k in args && args[k] != "" && Accepts(k, args[k])
    ensures forall k :: k in q ==> q[k] == args[k] && k in ParamKeys
  {
    AcceptsOnlyParams();
    var q := Pick(map[], args, "terms");
    var q := Pick(q, args, "lang");
    var q := Pick(q, args, "case_sens");
    var q := Pick(q, args, "freq");
    Pick(q, args, "corpus")
  }

  /** Only the five request parameters are ever accepted. */
  lemma AcceptsOnlyParams()
    ensures forall k, v :: Accepts(k, v) ==> k in ParamKeys
  {
  }

  /** Line 517: the parameters a request is run with. */
  function SearchParams(args: map<string, string>): map<string, string> {
    Merge(Defaults, GetQueryParams(args))
  }

  /** After the merge all five parameters are present, each holds an accepted
      value, a supplied accepted value wins and anything else is the default. */
  lemma SearchParamsComplete(args: map<string, string>)
    ensures SearchParams(args).Keys == ParamKeys
    ensures forall k :: k in ParamKeys ==> Accepts(k, SearchParams(args)[k])
    ensures forall k :: k in ParamKeys ==>
      SearchParams(args)[k] == if k in args && args[k] != "" && Accepts(k, args[k]) then args[k] else Defaults[k]
  {
    DefaultsAccepted();
    var q := GetQueryParams(args);
    assert q.Keys <= ParamKeys;
    forall k | k in ParamKeys
      ensures Accepts(k, SearchParams(args)[k])
    {
      if k in q {
        assert SearchParams(args)[k] == args[k];
      } else {
        assert SearchParams(args)[k] == Defaults[k];
      }
    }
  }

  /** Every default passes its own parameter's check. */
  lemma DefaultsAccepted()
    ensures Defaults.Keys == ParamKeys
    ensures forall k :: k in ParamKeys ==> Accepts(k, Defaults[k])
  {
    assert StartsWith("all", Languages[0]) && StartsWith("0", CaseFlags[0]);
    assert StartsWith("rel", FreqKinds[0]) && StartsWith("bok", Corpora[0]);
    assert Accepts("lang", "all") && Accepts("case_sens", "0") && Accepts("freq", "rel") && Accepts("corpus", "bok");
    assert Accepts("terms", "");
  }

  /** The validation only looks at the start: `nobx` is taken as a language. */
  lemma PrefixOnly(args: map<string, string>)
    requires "lang" in args && args["lang"] == "nobx"
    ensures SearchParams(args)["lang"] == "nobx"
  {
    assert StartsWith("nobx", Languages[1]);
    SearchParamsComplete(args);
  }

  // ---------------------------------------------------------------------
  // extract_info (lines 176-202)

  /** `re.match(r'[0-9]{4}', e)`: four leading digits. */
  predicate IsYear(e: string) {
    |e| >= 4 && IsDigit(e[0]) && IsDigit(e[1]) && IsDigit(e[2]) && IsDigit(e[3])
  }

  /** Lines 189-200 for one option. An option starting with `bok` or `avis`
      selects the corpus and always resets the language to `all`: the test
      `re.match(...) != -1` of line 197 compares a match object (or None) with
      -1 and so never fails. */
  function ApplyOption(d: map<string, string>, e: string): map<string, string> {
    var d := if StartsWithAny(e, Languages) then d["lang" := e] else d;
    var d := if StartsWithAny(e, Corpora) then d["db" := e]["lang" := "all"] else d;
    if IsYear(e) then d["anno" := e] else d
  }

  /** The options in order, each applied over the earlier ones. */
  function ApplyOptions(d: map<string, string>, es: seq<string>): map<string, string>
    decreases |es|
  {
    if |es| == 0 then d else ApplyOption(ApplyOptions(d, es[..|es| - 1]), es[|es| - 1])
  }

  /** What one option does to `key`, independently of the order of the tests
      in the source: nothing, or setting it to a value. */
  function Effect(key: string, e: string): Option<string> {
    if key == "lang" then
      if StartsWithAny(e, Corpora) then Some("all")
      else if StartsWithAny(e, Languages) then Some(e)
      else None
    else if key == "db" then
      if StartsWithAny(e, Corpora) then Some(e) else None
    else if key == "anno" then
      if IsYear(e) then Some(e) else None
    else None
  }

  /** An option sets exactly the keys it has an effect on, to that effect. */
  lemma ApplyOptionEffect(d: map<string, string>, e: string, key: string)
    ensures key in ApplyOption(d, e) <==> key in d || Effect(key, e).Some?
    ensures key in ApplyOption(d, e) ==>
      ApplyOption(d, e)[key] == if Effect(key, e).Some? then Effect(key, e).value else d[key]
  {
  }

  /** The last option that touches a key decides its value. */
  lemma {:induction false} LastEffectWins(d: map<string, string>, es: seq<string>, key: string, j: nat)
    requires j < |es| && Effect(key, es[j]).Some?
    requires forall k :: j < k < |es| ==> Effect(key, es[k]).None?
    ensures key in ApplyOptions(d, es) && ApplyOptions(d, es)[key] == Effect(key, es[j]).value
    decreases |es|
  {
    var n := |es| - 1;
    var front := es[..n];
    ApplyOptionEffect(ApplyOptions(d, front), es[n], key);
    if j < n {
      assert forall k :: j < k < |front| ==> front[k] == es[k];
      LastEffectWins(d, front, key, j);
    }
  }

  /** A key no option touches keeps its value from `d`. */
  lemma {:induction false} UntouchedKeyKept(d: map<string, string>, es: seq<string>, key: string)
    requires forall k :: 0 <= k < |es| ==> Effect(key, es[k]).None?
    ensures key in ApplyOptions(d, es) <==> key in d
    ensures key in d ==> ApplyOptions(d, es)[key] == d[key]
    decreases |es|
  {
    if |es| > 0 {
      var n := |es| - 1;
      assert forall k :: 0 <= k < n ==> es[..n][k] == es[k];
      UntouchedKeyKept(d, es[..n], key);
      ApplyOptionEffect(ApplyOptions(d, es[..n]), es[n], key);
    }
  }

  /** Options only ever set the language, the corpus and the year. */
  lemma {:induction false} OptionKeys(d: map<string, string>, es: seq<string>)
    ensures ApplyOptions(d, es).Keys <= d.Keys + {"lang", "db", "anno"}
    decreases |es|
  {
    if |es| > 0 {
      OptionKeys(d, es[..|es| - 1]);
    }
  }

  /** The ngram with its options split off, when the last word has any. */
  datatype Extracted = Extracted(ngram: seq<string>, options: map<string, string>)

  /** Lines 176-202. Python raises IndexError for an empty ngram (`term[-1]`
      of an empty list) and returns None when the last word has no colon. */
  function ExtractInfo(term: seq<string>): (r: Result<Option<Extracted>, Error>)
    ensures r.Failure? <==> |term| == 0
    ensures r.Failure? ==> r.error == IndexError
    ensures r.Success? ==> (r.value.None? <==> ':' !in term[|term| - 1])
    ensures r.Success? && r.value.Some? ==>
      var last := term[|term| - 1];
      && |r.value.value.ngram| == |term|
      && r.value.value.ngram[..|term| - 1] == term[..|term| - 1]
      && IndexOf(last, ':').Some?
      && r.value.value.ngram[|term| - 1] == last[..IndexOf(last, ':').value]
  {
    if |term| == 0 then Failure(IndexError)
    else
      var n := |term| - 1;
      var splitted := Split(term[n], ':');
      if |splitted| >= 2 then
        var i := IndexOf(term[n], ':').value;
        assert splitted[0] == term[n][..i];
        Success(Some(Extracted(term[..n] + [splitted[0]], ApplyOptions(map[], splitted[1..]))))
      else Success(None)
  }

  /** The options parsed from a term are the colon-separated parts after the
      first one; the last part that touches a key decides it, and only the
      language, the corpus and the year are ever set. */
  lemma ExtractedOptions(term: seq<string>, key: string, j: nat)
    requires |term| > 0 && ':' in term[|term| - 1]
    requires var es := Split(term[|term| - 1], ':')[1..];
      j < |es| && Effect(key, es[j]).Some? && forall k :: j < k < |es| ==> Effect(key, es[k]).None?
    ensures ExtractInfo(term).Success? && ExtractInfo(term).value.Some?
    ensures var options := ExtractInfo(term).value.value.options;
      options.Keys <= {"lang", "db", "anno"}
      && key in options && options[key] == Effect(key, Split(term[|term| - 1], ':')[1..][j]).value
  {
    var es := Split(term[|term| - 1], ':')[1..];
    LastEffectWins(map[], es, key, j);
    OptionKeys(map[], es);
  }
}
