/** The SQL text of backend.py: `swapcase`, `query_planner`,
    `build_query_single` and `query_factory`. A query reads one row per ngram
    from the table of its size in the database of its corpus; the ngram's
    words, the year and the language are passed as `?` arguments. */
module QueryBuilder {
  import opened Wrappers
  import opened Text
  import opened Dicts
  import opened QueryOptions

  /** `field_names`, `table_names`, `db_names` and `index_names` (lines
      48-51). */
  const FieldNames: seq<string> := ["first", "second", "third"]
  const TableNames: seq<string> := ["unigram", "bigram", "trigram"]
  const DbNames: map<string, string> := map["bok" := "bok_", "avis" := "avis_"]
  const IndexNames: map<string, seq<string>> :=
    map["bok" := ["_lff_", "_lfsf_", "_lfstf_"], "avis" := ["_ff_", "_fsf_", "_fstf_"]]

  // ---------------------------------------------------------------------
  // swapcase (lines 337-346)

  predicate IsUpper(c: char) {
    ('A' <= c <= 'Z') || ('À' <= c <= 'Þ' && c != '×')
  }

  predicate IsLower(c: char) {
    ('a' <= c <= 'z') || ('à' <= c <= 'þ' && c != '÷')
  }

  /** `unicode.swapcase` of one character for the letters of Latin-1 that
      have their other case in Latin-1; every other character is kept. */
  function CaseSwap(c: char): (d: char)
    ensures IsUpper(c) ==> IsLower(d)
    ensures IsLower(c) ==> IsUpper(d)
    ensures !IsUpper(c) && !IsLower(c) ==> d == c
  {
    if IsUpper(c) then (c as int + 32) as char
    else if IsLower(c) then (c as int - 32) as char
    else c
  }

  /** Swapping twice gives the character back. */
  lemma CaseSwapTwice(c: char)
    ensures CaseSwap(CaseSwap(c)) == c
  {
  }

  /** The word with the case of its first character swapped. */
  function SwapFirst(w: string): (v: string)
    requires |w| > 0
    ensures |v| == |w| && v[1..] == w[1..] && v[0] == CaseSwap(w[0])
  {
    [CaseSwap(w[0])] + w[1..]
  }

  /** Lines 337-346: each word followed by its first-letter-swapped twin; an
      empty word raises IndexError inside the `try`, which becomes None. */
  function Swapcase(words: seq<string>): (r: Option<seq<string>>)
    ensures r.Some? ==> |r.value| == 2 * |words|
  {
    if |words| == 0 then Some([])
    else if |words[0]| == 0 then None
    else
      match Swapcase(words[1..])
      case None => None
      case Some(rest) => Some([words[0], SwapFirst(words[0])] + rest)
  }

  /** Swapcase gives None exactly when some word is empty. */
  lemma {:induction false} SwapcaseNone(words: seq<string>)
    ensures Swapcase(words).None? <==> exists i :: 0 <= i < |words| && |words[i]| == 0
  {
    if |words| > 0 && |words[0]| > 0 {
      SwapcaseNone(words[1..]);
      if exists i :: 0 <= i < |words| && |words[i]| == 0 {
        var i :| 0 <= i < |words| && |words[i]| == 0;
        assert words[1..][i - 1] == words[i];
      }
    }
  }

  /** Element `2i` is the `i`-th word and element `2i+1` its twin. */
  lemma {:induction false} SwapcasePairs(words: seq<string>, i: nat)
    requires Swapcase(words).Some? && i < |words|
    ensures |words[i]| > 0
    ensures Swapcase(words).value[2 * i] == words[i]
    ensures Swapcase(words).value[2 * i + 1] == SwapFirst(words[i])
  {
    var rest := Swapcase(words[1..]).value;
    if i > 0 {
      SwapcasePairs(words[1..], i - 1);
      assert Swapcase(words).value == [words[0], SwapFirst(words[0])] + rest;
      assert Swapcase(words).value[2 * i] == rest[2 * (i - 1)];
      assert Swapcase(words).value[2 * i + 1] == rest[2 * (i - 1) + 1];
    }
  }

  /** Swapping a twin back gives its word. */
  lemma SwapcaseTwins(words: seq<string>, i: nat)
    requires Swapcase(words).Some? && i < |words|
    ensures var r := Swapcase(words).value; |r[2 * i + 1]| > 0 && SwapFirst(r[2 * i + 1]) == r[2 * i]
  {
    SwapcasePairs(words, i);
    var w := words[i];
    CaseSwapTwice(w[0]);
    assert SwapFirst(SwapFirst(w)) == w;
  }

  // ---------------------------------------------------------------------
  // query_planner (lines 252-263)

  const Letters: seq<char> := ['f', 's', 't']

  /** The loop of lines 257-262 from clause `idx` on, with the letters
      gathered so far. */
  function PlanFrom(where: seq<string>, args: seq<string>, idx: nat, letters: string): (r: Result<string, Error>)
    requires idx <= |where|
    decreases |where| - idx
  {
    if idx == |where| then Success("_" + letters + "f_")
    else if '=' in where[idx] then
      if idx < |Letters| then PlanFrom(where, args, idx + 1, letters + [Letters[idx]]) else Failure(IndexError)
    else if Contains(where[idx], "LIKE") then
      if idx >= |args| then Failure(IndexError)
      else if |args[idx]| > 1 then Success("_" + Take(Letters, |where|) + "f_")
      else PlanFrom(where, args, idx + 1, letters)
    else PlanFrom(where, args, idx + 1, letters)
  }

  /** Lines 252-263: the name of the index the query should use. */
  function QueryPlanner(where: seq<string>, args: seq<string>): Result<string, Error> {
    PlanFrom(where, args, 0, "")
  }

  /** A clause the wildcard search writes: a `LIKE` for a pattern, an `in`
      list otherwise; none of them contains `=`. */
  predicate IsWildcardClause(c: string) {
    c == "LIKE ?" || c == "in (?,?)" || c == "in (?)"
  }

  /** For the clauses the wildcard search writes, the index is the one of
      all fields as soon as some `LIKE` clause's argument is longer than one
      character, and `_f_` when none is. */
  lemma {:induction false} PlanOfWildcardClauses(where: seq<string>, args: seq<string>, idx: nat)
    requires idx <= |where| <= |args|
    requires forall i :: 0 <= i < |where| ==> IsWildcardClause(where[i])
    ensures var long := exists i :: idx <= i < |where| && where[i] == "LIKE ?" && |args[i]| > 1;
      PlanFrom(where, args, idx, "") == Success(if long then "_" + Take(Letters, |where|) + "f_" else "_f_")
    decreases |where| - idx
  {
    if idx < |where| {
      var c := where[idx];
      assert '=' !in c;
      assert Contains(c, "LIKE") <==> c == "LIKE ?" by {
        if c == "LIKE ?" {
          assert OccursAt(c, "LIKE", 0);
        } else {
          forall i | 0 <= i <= |c| - 4
            ensures !OccursAt(c, "LIKE", i)
          {
            FirstLetterAbsent(c, "LIKE", i);
          }
        }
      }
      PlanOfWildcardClauses(where, args, idx + 1);
      var longHere := c == "LIKE ?" && |args[idx]| > 1;
      var longLater := exists i :: idx + 1 <= i < |where| && where[i] == "LIKE ?" && |args[i]| > 1;
      assert (exists i :: idx <= i < |where| && where[i] == "LIKE ?" && |args[i]| > 1) <==> longHere || longLater;
      assert PlanFrom(where, args, idx, "") ==
        if longHere then Success("_" + Take(Letters, |where|) + "f_") else PlanFrom(where, args, idx + 1, "");
    } else {
      assert "_" + "" + "f_" == "_f_";
    }
  }

  /** Text without the first letter of `t` has no occurrence of `t`. */
  lemma FirstLetterAbsent(c: string, t: string, i: nat)
    requires |t| > 0 && t[0] !in c
    ensures !OccursAt(c, t, i)
  {
  }

  // ---------------------------------------------------------------------
  // build_query_single (lines 296-335)

  /** The query for one ngram: the SQL text, its arguments, and the language
      and corpus it runs against. */
  datatype Query = Query(sql: string, args: seq<string>, lang: string, db: string)

  /** The `?` placeholders in `s`. */
  function Marks(s: string): nat {
    if |s| == 0 then 0 else (if s[0] == '?' then 1 else 0) + Marks(s[1..])
  }

  /** The condition on one field (line 310). */
  function FieldClause(i: nat, params: string): string
    requires i < |FieldNames|
  {
    "(" + FieldNames[i] + " " + params + ")"
  }

  /** The conditions on the first `n` fields, joined with ` and `. */
  function FieldClauses(n: nat, params: string): (clauses: seq<string>)
    requires n <= |FieldNames|
    ensures |clauses| == n
    ensures forall i :: 0 <= i < n ==> clauses[i] == FieldClause(i, params)
  {
    seq(n, i requires 0 <= i < n => FieldClause(i, params))
  }

  /** The settings after the ngram's options: `argumentDict` less its ngram. */
  function Arguments(lang: string, corpus: string, x: Option<Extracted>): (d: map<string, string>)
    ensures "lang" in d && "db" in d
  {
    var base := map["lang" := lang, "db" := corpus];
    match x
    case Some(e) => Merge(base, e.options)
    case None => base
  }

  /** The language condition of line 309, used for `bok` only. */
  function LangClause(lang: string, db: string): string {
    if db != "bok" then "" else if lang != "all" then " and lang = ?" else " and lang in (?,?)"
  }

  /** The language arguments of lines 330-334: none outside `bok`. */
  function LangArgs(lang: string, db: string): (r: seq<string>)
    ensures db != "bok" ==> r == []
    ensures db == "bok" && lang != "all" ==> r == [lang]
    ensures db == "bok" && lang == "all" ==> r == ["nob", "nno"]
  {
    if lang != "all" && db == "bok" then [lang]
    else if lang == "all" && db == "bok" then ["nob", "nno"]
    else []
  }

  /** The `?` list of one field: two for the word and its twin when the
      search ignores case. */
  function Params(caseSens: string): string {
    if caseSens == "0" then "in (?,?)" else "in (?)"
  }

  /** Lines 296-335. `size` is the length of the ngram as given, `words` the
      ngram with its options split off, `d` the settings after the options.
      The exceptions come in the order Python meets them: IndexError for more
      words than the three fields; KeyError for a corpus other than `bok` and
      `avis`; TypeError when case-insensitive search meets an empty word
      (`swapcase` gave None). */
  function Assemble(words: seq<string>, d: map<string, string>, caseSens: string): (r: Result<Query, Error>)
    requires |words| > 0 && "lang" in d && "db" in d
  {
    var n := |words|;
    if n > |FieldNames| then Failure(IndexError)
    else
      var where := Join(" and ", FieldClauses(n, Params(caseSens))) + LangClause(d["lang"], d["db"]);
      if d["db"] !in DbNames then Failure(KeyError)
      else
        var table := DbNames[d["db"]] + TableNames[n - 1] + "." + TableNames[n - 1];
        var ngramArgs := if caseSens == "0" then Swapcase(words) else Some(words);
        var index := IndexNames[d["db"]][n - 1];
        if ngramArgs.None? then Failure(TypeError)
        else
          var sql := "SELECT json FROM " + table + " INDEXED BY " + index + " WHERE " + where;
          var args := ngramArgs.value + (if "anno" in d then [d["anno"]] else []) + LangArgs(d["lang"], d["db"]);
          Success(Query(sql, args, d["lang"], d["db"]))
  }

  /** Lines 296-335: `extract_info` first, then the query text. */
  function BuildQuerySingle(ngram: seq<string>, lang: string, caseSens: string, corpus: string): (r: Result<Query, Error>)
  {
    match ExtractInfo(ngram)
    case Failure(e) => Failure(e)
    case Success(x) =>
      Assemble(if x.Some? then x.value.ngram else ngram, Arguments(lang, corpus, x), caseSens)
  }

  /** The arguments of a query: the words (each followed by its twin when
      the search ignores case), then the year when one is given, then the
      language arguments. */
  lemma AssembleArgs(words: seq<string>, d: map<string, string>, caseSens: string, i: nat)
    requires |words| > 0 && "lang" in d && "db" in d
    requires Assemble(words, d, caseSens).Success? && i < |words|
    ensures var q := Assemble(words, d, caseSens).value;
      var k := if caseSens == "0" then 2 else 1;
      && q.lang == d["lang"] && q.db == d["db"] && d["db"] in DbNames
      && |q.args| == k * |words| + (if "anno" in d then 1 else 0) + |LangArgs(d["lang"], d["db"])|
      && (caseSens == "0" ==> |words[i]| > 0 && q.args[2 * i] == words[i] && q.args[2 * i + 1] == SwapFirst(words[i]))
      && (caseSens != "0" ==> q.args[i] == words[i])
      && q.args[k * |words|..] == (if "anno" in d then [d["anno"]] else []) + LangArgs(d["lang"], d["db"])
  {
    if caseSens == "0" {
      SwapcasePairs(words, i);
    }
  }

  /** Which exception, if any, a query raises. */
  lemma BuildQueryErrors(ngram: seq<string>, lang: string, caseSens: string, corpus: string)
    ensures var r := BuildQuerySingle(ngram, lang, caseSens, corpus);
      (r == Failure(IndexError) <==> |ngram| == 0 || |ngram| > |FieldNames|)
      && (0 < |ngram| <= |FieldNames| ==>
        var x := ExtractInfo(ngram).value;
        var d := Arguments(lang, corpus, x);
        var words := if x.Some? then x.value.ngram else ngram;
        && (r == Failure(KeyError) <==> d["db"] !in DbNames)
        && (r == Failure(TypeError) <==>
              d["db"] in DbNames && caseSens == "0" && exists i :: 0 <= i < |words| && |words[i]| == 0))
  {
    if 0 < |ngram| {
      var x := ExtractInfo(ngram).value;
      var words := if x.Some? then x.value.ngram else ngram;
      SwapcaseNone(words);
    }
  }

  /** The placeholders of a sequence of strings joined by a separator
      without any. */
  lemma {:induction false} JoinMarks(sep: string, parts: seq<string>, k: nat)
    requires Marks(sep) == 0
    requires forall i :: 0 <= i < |parts| ==> Marks(parts[i]) == k
    ensures Marks(Join(sep, parts)) == k * |parts|
  {
    if |parts| > 1 {
      var rest := Join(sep, parts[1..]);
      JoinMarks(sep, parts[1..], k);
      assert Join(sep, parts) == parts[0] + sep + rest;
      MarksAppend(parts[0], sep);
      MarksAppend(parts[0] + sep, rest);
      assert k * |parts| == k + k * (|parts| - 1);
    }
  }

  /** Every `?` of the query has its argument, and the year option adds one
      argument without a `?`: the SQL text and the arguments disagree by one
      whenever a year is given. */
  lemma Placeholders(ngram: seq<string>, lang: string, caseSens: string, corpus: string)
    requires BuildQuerySingle(ngram, lang, caseSens, corpus).Success?
    ensures var q := BuildQuerySingle(ngram, lang, caseSens, corpus).value;
      var x := ExtractInfo(ngram).value;
      Marks(q.sql) + (if "anno" in Arguments(lang, corpus, x) then 1 else 0) == |q.args|
  {
    var x := ExtractInfo(ngram).value;
    var words := if x.Some? then x.value.ngram else ngram;
    var d := Arguments(lang, corpus, x);
    AssemblePlaceholders(words, d, caseSens);
  }

  lemma {:induction false} MarksAppend(a: string, b: string)
    ensures Marks(a + b) == Marks(a) + Marks(b)
  {
    if |a| > 0 {
      assert (a + b)[1..] == a[1..] + b;
      MarksAppend(a[1..], b);
    } else {
      assert a + b == b;
    }
  }

  lemma {:induction false} NoMarks(s: string)
    requires '?' !in s
    ensures Marks(s) == 0
  {
    if |s| > 0 {
      assert '?' !in s[1..];
      NoMarks(s[1..]);
    }
  }

  lemma OneMark()
    ensures Marks("?") == 1
  {
    assert "?"[1..] == "";
  }

  /** No table, database or index name holds a `?`. */
  lemma NamesHaveNoMarks(db: string, j: nat)
    requires db in DbNames && j < |TableNames|
    ensures Marks(DbNames[db]) == 0 && Marks(TableNames[j]) == 0 && Marks(IndexNames[db][j]) == 0
  {
    NoMarks(DbNames[db]);
    NoMarks(TableNames[j]);
    NoMarks(IndexNames[db][j]);
  }

  /** `s` followed by one `?`, then `t`. */
  lemma MarkBetween(s: string, t: string)
    requires '?' !in s && '?' !in t
    ensures Marks(s + "?" + t) == 1
  {
    NoMarks(s);
    NoMarks(t);
    OneMark();
    MarksAppend(s, "?");
    MarksAppend(s + "?", t);
  }

  lemma ParamsMarks(caseSens: string)
    ensures Marks(Params(caseSens)) == if caseSens == "0" then 2 else 1
  {
    if caseSens == "0" {
      MarkBetween("in (", ",");
      MarkBetween("", ")");
      MarksAppend("in (" + "?" + ",", "?" + ")");
      assert "in (" + "?" + "," + ("?" + ")") == "in (?,?)";
      assert "" + "?" + ")" == "?" + ")";
    } else {
      MarkBetween("in (", ")");
      assert "in (" + "?" + ")" == "in (?)";
    }
  }

  /** The language condition has one `?` per language argument. */
  lemma LangClauseMarks(lang: string, db: string)
    ensures Marks(LangClause(lang, db)) == |LangArgs(lang, db)|
  {
    if db == "bok" {
      if lang != "all" {
        MarkBetween(" and lang = ", "");
        assert " and lang = " + "?" + "" == " and lang = ?";
      } else {
        MarkBetween(" and lang in (", ",");
        MarkBetween("", ")");
        MarksAppend(" and lang in (" + "?" + ",", "" + "?" + ")");
        assert " and lang in (" + "?" + "," + ("" + "?" + ")") == " and lang in (?,?)";
      }
    }
  }

  lemma FieldClauseMarks(i: nat, params: string)
    requires i < |FieldNames|
    ensures Marks(FieldClause(i, params)) == Marks(params)
  {
    NoMarks(FieldNames[i]);
    NoMarks("(");
    NoMarks(" ");
    NoMarks(")");
    MarksAppend("(", FieldNames[i]);
    MarksAppend("(" + FieldNames[i], " ");
    MarksAppend("(" + FieldNames[i] + " ", params);
    MarksAppend("(" + FieldNames[i] + " " + params, ")");
  }

  lemma TableMarks(db: string, j: nat)
    requires db in DbNames && j < |TableNames|
    ensures Marks(DbNames[db] + TableNames[j] + "." + TableNames[j]) == 0
  {
    NamesHaveNoMarks(db, j);
    NoMarks(".");
    MarksAppend(DbNames[db], TableNames[j]);
    MarksAppend(DbNames[db] + TableNames[j], ".");
    MarksAppend(DbNames[db] + TableNames[j] + ".", TableNames[j]);
  }

  lemma SelectHasNoMarks()
    ensures Marks("SELECT json FROM ") == 0
  {
    var s := "SELECT json FROM ";
    assert '?' !in s;
    NoMarks(s);
  }

  lemma IndexedByHasNoMarks()
    ensures Marks(" INDEXED BY ") == 0
  {
    var s := " INDEXED BY ";
    assert '?' !in s;
    NoMarks(s);
  }

  lemma WhereHasNoMarks()
    ensures Marks(" WHERE ") == 0
  {
    var s := " WHERE ";
    assert '?' !in s;
    NoMarks(s);
  }

  lemma HeadMarks(table: string, index: string, where: string)
    requires Marks(table) == 0 && Marks(index) == 0
    ensures Marks("SELECT json FROM " + table + " INDEXED BY " + index + " WHERE " + where) == Marks(where)
  {
    var a, b, c := "SELECT json FROM ", " INDEXED BY ", " WHERE ";
    SelectHasNoMarks();
    IndexedByHasNoMarks();
    WhereHasNoMarks();
    MarksAppend(a, table);
    MarksAppend(a + table, b);
    MarksAppend(a + table + b, index);
    MarksAppend(a + table + b + index, c);
    MarksAppend(a + table + b + index + c, where);
  }

  lemma AssemblePlaceholders(words: seq<string>, d: map<string, string>, caseSens: string)
    requires |words| > 0 && "lang" in d && "db" in d
    requires Assemble(words, d, caseSens).Success?
    ensures var q := Assemble(words, d, caseSens).value;
      Marks(q.sql) + (if "anno" in d then 1 else 0) == |q.args|
  {
    var n := |words|;
    var params := Params(caseSens);
    var k := if caseSens == "0" then 2 else 1;
    ParamsMarks(caseSens);
    var clauses := FieldClauses(n, params);
    forall i | 0 <= i < n
      ensures Marks(clauses[i]) == k
    {
      FieldClauseMarks(i, params);
    }
    NoMarks(" and ");
    JoinMarks(" and ", clauses, k);
    var joined := Join(" and ", clauses);
    var lc := LangClause(d["lang"], d["db"]);
    LangClauseMarks(d["lang"], d["db"]);
    MarksAppend(joined, lc);
    var db := d["db"];
    TableMarks(db, n - 1);
    NamesHaveNoMarks(db, n - 1);
    HeadMarks(DbNames[db] + TableNames[n - 1] + "." + TableNames[n - 1], IndexNames[db][n - 1], joined + lc);
    var ngramArgs := if caseSens == "0" then Swapcase(words) else Some(words);
    assert |ngramArgs.value| == k * n;
  }

  // ---------------------------------------------------------------------
  // query_factory (lines 157-174)

  /** The five parallel lists `query_factory` returns. */
  datatype Batch = Batch(sql: seq<string>, args: seq<seq<string>>, labels: seq<string>,
                         langs: seq<string>, corpora: seq<string>)

  /** The batch of a sequence of query outcomes, first to last: the first
      exception aborts it. */
  function Gather(qs: seq<Result<Query, Error>>, labels: seq<string>): (r: Result<Batch, Error>)
    requires |qs| == |labels|
    ensures r.Success? ==>
      && |r.value.sql| == |qs| && |r.value.args| == |qs| && |r.value.labels| == |qs|
      && |r.value.langs| == |qs| && |r.value.corpora| == |qs|
    decreases |qs|
  {
    if |qs| == 0 then Success(Batch([], [], [], [], []))
    else
      var n := |qs| - 1;
      match Gather(qs[..n], labels[..n])
      case Failure(e) => Failure(e)
      case Success(b) =>
        match qs[n]
        case Failure(e) => Failure(e)
        case Success(q) =>
          Success(Batch(b.sql + [q.sql], b.args + [q.args], b.labels + [labels[n]],
                        b.langs + [q.lang], b.corpora + [q.db]))
  }

  /** A gathered batch holds every outcome's query at its position. */
  lemma {:induction false} GatherQueries(qs: seq<Result<Query, Error>>, labels: seq<string>, i: nat)
    requires |qs| == |labels| && Gather(qs, labels).Success? && i < |qs|
    ensures var b := Gather(qs, labels).value;
      qs[i] == Success(Query(b.sql[i], b.args[i], b.langs[i], b.corpora[i])) && b.labels[i] == labels[i]
    decreases |qs|
  {
    var n := |qs| - 1;
    if i < n {
      GatherQueries(qs[..n], labels[..n], i);
    }
  }

  /** Gathering fails exactly when some outcome is an exception, and then
      with the first one. */
  lemma {:induction false} GatherFailure(qs: seq<Result<Query, Error>>, labels: seq<string>)
    requires |qs| == |labels|
    ensures Gather(qs, labels).Failure? <==> exists i :: 0 <= i < |qs| && qs[i].Failure?
    ensures Gather(qs, labels).Failure? ==>
      exists i :: 0 <= i < |qs| && qs[i] == Failure(Gather(qs, labels).error) && forall j :: 0 <= j < i ==> qs[j].Success?
    decreases |qs|
  {
    if |qs| > 0 {
      var n := |qs| - 1;
      GatherFailure(qs[..n], labels[..n]);
      assert forall j :: 0 <= j < n ==> qs[..n][j] == qs[j];
    }
  }

  /** The query of every ngram, in order. */
  function Outcomes(ngrams: seq<seq<string>>, lang: string, caseSens: string, corpus: string): (qs: seq<Result<Query, Error>>)
    ensures |qs| == |ngrams|
    ensures forall i :: 0 <= i < |ngrams| ==> qs[i] == BuildQuerySingle(ngrams[i], lang, caseSens, corpus)
  {
    seq(|ngrams|, i requires 0 <= i < |ngrams| => BuildQuerySingle(ngrams[i], lang, caseSens, corpus))
  }

  /** The label of every ngram: its words joined by spaces. */
  function Labels(ngrams: seq<seq<string>>): (labels: seq<string>)
    ensures |labels| == |ngrams|
    ensures forall i :: 0 <= i < |ngrams| ==> labels[i] == Join(" ", ngrams[i])
  {
    seq(|ngrams|, i requires 0 <= i < |ngrams| => Join(" ", ngrams[i]))
  }

  /** Lines 157-174: one query per ngram, in order, labelled with the ngram's
      words joined by spaces (options included); the first ngram whose query
      raises aborts the whole batch with that exception. */
  function QueryFactory(ngrams: seq<seq<string>>, lang: string, caseSens: string, corpus: string): Result<Batch, Error> {
    Gather(Outcomes(ngrams, lang, caseSens, corpus), Labels(ngrams))
  }

  /** A batch that succeeds holds, at every position, the query of that
      ngram and its label. */
  lemma FactoryQueries(ngrams: seq<seq<string>>, lang: string, caseSens: string, corpus: string, i: nat)
    requires QueryFactory(ngrams, lang, caseSens, corpus).Success? && i < |ngrams|
    ensures var b := QueryFactory(ngrams, lang, caseSens, corpus).value;
      && |b.sql| == |ngrams| && |b.labels| == |ngrams|
      && BuildQuerySingle(ngrams[i], lang, caseSens, corpus) == Success(Query(b.sql[i], b.args[i], b.langs[i], b.corpora[i]))
      && b.labels[i] == Join(" ", ngrams[i])
  {
    GatherQueries(Outcomes(ngrams, lang, caseSens, corpus), Labels(ngrams), i);
  }

  /** A batch fails exactly when some ngram's query raises, and then with
      the exception of the first such ngram. */
  lemma FactoryFailure(ngrams: seq<seq<string>>, lang: string, caseSens: string, corpus: string)
    ensures var r := QueryFactory(ngrams, lang, caseSens, corpus);
      var qs := Outcomes(ngrams, lang, caseSens, corpus);
      && (r.Failure? <==> exists i :: 0 <= i < |ngrams| && qs[i].Failure?)
      && (r.Failure? ==> exists i :: 0 <= i < |ngrams| && qs[i] == Failure(r.error) && forall j :: 0 <= j < i ==> qs[j].Success?)
  {
    GatherFailure(Outcomes(ngrams, lang, caseSens, corpus), Labels(ngrams));
  }

  // ---------------------------------------------------------------------
  // The index choice of wildcard_search (lines 223-234)

  /** The condition on one word of a wildcard search: `LIKE` for a pattern,
      the `in` list of an exact word otherwise. */
  function WildcardClause(w: string, caseSens: string): string {
    if '%' in w then "LIKE ?" else Params(caseSens)
  }

  function WildcardClauses(words: seq<string>, caseSens: string): (where: seq<string>)
    ensures |where| == |words|
    ensures forall i :: 0 <= i < |words| ==> where[i] == WildcardClause(words[i], caseSens)
  {
    seq(|words|, i requires 0 <= i < |words| => WildcardClause(words[i], caseSens))
  }

  /** The arguments the words of a wildcard search bind, in order: a
      pattern once, an exact word with its twin when the search ignores case.
      An empty exact word makes `swapcase` give None, and extending the list
      with None raises TypeError. */
  function WildcardArgs(words: seq<string>, caseSens: string): (r: Result<seq<string>, Error>)
    ensures r.Success? ==> |r.value| >= |words|
  {
    if |words| == 0 then Success([])
    else
      var w := words[0];
      var here := if '%' in w || caseSens != "0" then Some([w]) else Swapcase([w]);
      if here.None? then Failure(TypeError)
      else
        match WildcardArgs(words[1..], caseSens)
        case Failure(e) => Failure(e)
        case Success(rest) => Success(here.value + rest)
  }

  /** The arguments fail exactly when the search ignores case and some word
      is empty (an empty word is never a pattern), and then with TypeError. */
  lemma {:induction false} WildcardArgsFailure(words: seq<string>, caseSens: string)
    ensures WildcardArgs(words, caseSens).Failure? <==>
      caseSens == "0" && exists i :: 0 <= i < |words| && |words[i]| == 0
    ensures WildcardArgs(words, caseSens).Failure? ==> WildcardArgs(words, caseSens).error == TypeError
    decreases |words|
  {
    if |words| > 0 {
      var w := words[0];
      WildcardArgsFailure(words[1..], caseSens);
      assert [w][1..] == [];
      assert '%' !in w && caseSens == "0" ==> (Swapcase([w]).None? <==> |w| == 0);
      if exists i :: 0 <= i < |words| && |words[i]| == 0 {
        var i :| 0 <= i < |words| && |words[i]| == 0;
        if i > 0 {
          assert words[1..][i - 1] == words[i];
        }
      }
      if exists i :: 0 <= i < |words[1..]| && |words[1..][i]| == 0 {
        var i :| 0 <= i < |words[1..]| && |words[1..][i]| == 0;
        assert words[i + 1] == words[1..][i];
      }
    }
  }

  /** The planner never fails on the clauses of a wildcard search: the index
      choice fails only when the arguments do. */
  lemma WildcardIndexFailure(words: seq<string>, caseSens: string)
    ensures WildcardIndex(words, caseSens).Failure? <==> WildcardArgs(words, caseSens).Failure?
    ensures WildcardIndex(words, caseSens).Failure? ==> WildcardIndex(words, caseSens).error == TypeError
  {
    WildcardArgsFailure(words, caseSens);
    if WildcardArgs(words, caseSens).Success? {
      var args := WildcardArgs(words, caseSens).value;
      var where := WildcardClauses(words, caseSens);
      PlanOfWildcardClauses(where, args, 0);
    }
  }

  /** Line 234 as written: the planner reads the argument at the position of
      each clause, but an exact word before a pattern has put two arguments
      in the list, so the planner looks at the wrong one. */
  function WildcardIndex(words: seq<string>, caseSens: string): Result<string, Error> {
    match WildcardArgs(words, caseSens)
    case Failure(e) => Failure(e)
    case Success(args) => QueryPlanner(WildcardClauses(words, caseSens), args)
  }

  /** A word of two or more letters followed by the bare pattern `%`, case
      ignored: the planner measures the word's twin instead of the pattern and
      picks the index on two fields. */
  lemma PlannerMisreadsPattern(w: string)
    requires |w| > 1 && '%' !in w
    ensures WildcardIndex([w, "%"], "0") == Success("_fsf_")
    ensures WildcardIndexFixed([w, "%"], "0") == Success("_f_")
  {
    var words := [w, "%"];
    var args := [w, SwapFirst(w), "%"];
    WildcardArgsOfPair(w, "%");
    var where := WildcardClauses(words, "0");
    assert where == ["in (?,?)", "LIKE ?"];
    PlanOfWildcardClauses(where, args, 0);
    assert where[1] == "LIKE ?" && |args[1]| > 1;
    assert Take(Letters, 2) == "fs";
    assert "_" + "fs" + "f_" == "_fsf_";
    assert QueryPlanner(where, args) == Success("_fsf_");
    WildcardIndexFixedReadsPatterns(words, "0");
    assert !(exists i :: 0 <= i < |words| && '%' in words[i] && |words[i]| > 1);
  }

  /** An exact word and a pattern, case ignored, bind the word, its twin and
      the pattern. */
  lemma WildcardArgsOfPair(w: string, p: string)
    requires |w| > 0 && '%' !in w && '%' in p
    ensures WildcardArgs([w, p], "0") == Success([w, SwapFirst(w), p])
  {
    assert [w][1..] == [];
    assert Swapcase([w]) == Some([w, SwapFirst(w)] + []);
    assert [w, p][1..] == [p];
    assert [p][1..] == [];
    assert WildcardArgs([p], "0") == Success([p] + []);
    assert ([w, SwapFirst(w)] + []) + ([p] + []) == [w, SwapFirst(w), p];
  }

  /** The index choice with the length test reading the pattern of the
      `LIKE` clause itself. */
  function WildcardIndexFixed(words: seq<string>, caseSens: string): Result<string, Error> {
    match WildcardArgs(words, caseSens)
    case Failure(e) => Failure(e)
    case Success(_) => QueryPlanner(WildcardClauses(words, caseSens), words)
  }

  /** The corrected choice: the index on every field as soon as some pattern
      is longer than one character, `_f_` otherwise. */
  lemma WildcardIndexFixedReadsPatterns(words: seq<string>, caseSens: string)
    requires WildcardArgs(words, caseSens).Success?
    ensures WildcardIndexFixed(words, caseSens) ==
      Success(if exists i :: 0 <= i < |words| && '%' in words[i] && |words[i]| > 1
              then "_" + Take(Letters, |words|) + "f_" else "_f_")
  {
    var where := WildcardClauses(words, caseSens);
    forall i | 0 <= i < |words|
      ensures IsWildcardClause(where[i]) && (where[i] == "LIKE ?" <==> '%' in words[i])
    {
      assert Params(caseSens) != "LIKE ?" by {
        assert Params(caseSens)[0] == 'i';
      }
    }
    PlanOfWildcardClauses(where, words, 0);
  }
}
