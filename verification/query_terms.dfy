/** `return_terms` of backend.py: the comma-separated `terms` parameter cut
    into at most ten cleaned terms. Each regular expression is written out as
    the left-to-right, non-overlapping scan Python's `re` module performs. */
module QueryTerms {
  import opened Wrappers
  import opened Text

  const MaxChar: nat := 200
  const MaxTerms: nat := 10
  const MaxWildcards: nat := 5

  // ---------------------------------------------------------------------
  // re.sub(r',\s{0,},', ',', terms)

  /** `re.sub(r',\s{0,},', ',', s)`: a comma, optional whitespace and a
      second comma become one comma; the scan resumes after the second comma. */
  function CollapseEmpty(s: string): (r: string)
    ensures |r| <= |s|
    decreases |s|
  {
    if |s| == 0 then ""
    else
      var n := SpaceRun(s[1..]);
      if s[0] == ',' && 1 + n < |s| && s[1 + n] == ',' then
        "," + CollapseEmpty(s[2 + n..])
      else
        [s[0]] + CollapseEmpty(s[1..])
  }

  /** A comma, blanks and a comma are replaced by one comma. */
  lemma CollapseAtEmpty(s: string, n: nat)
    requires |s| > 0 && s[0] == ',' && n == SpaceRun(s[1..]) && 1 + n < |s| && s[1 + n] == ','
    ensures CollapseEmpty(s) == [','] + CollapseEmpty(s[2 + n..])
  {
  }

  lemma EmptyFieldBlank(s: string, n: nat, head: string)
    requires |s| > 0 && s[0] == ',' && n == SpaceRun(s[1..]) && 1 + n < |s| && s[1 + n] == ','
    requires head == s[..2 + n]
    ensures forall i :: 0 <= i < |head| ==> IsSpace(head[i]) || head[i] == ','
  {
    forall i | 1 <= i < 1 + n
      ensures IsSpace(head[i])
    {
      assert head[i] == s[1..][i - 1];
    }
  }

  /** The characters that are neither whitespace nor commas, in order. */
  function Solid(s: string): string {
    if |s| == 0 then "" else (if IsSpace(s[0]) || s[0] == ',' then "" else [s[0]]) + Solid(s[1..])
  }

  lemma {:induction false} SolidAppend(a: string, b: string)
    ensures Solid(a + b) == Solid(a) + Solid(b)
  {
    if |a| > 0 {
      assert (a + b)[1..] == a[1..] + b;
      SolidAppend(a[1..], b);
    } else {
      assert a + b == b;
    }
  }

  lemma {:induction false} SolidBlank(s: string)
    requires forall i :: 0 <= i < |s| ==> IsSpace(s[i]) || s[i] == ','
    ensures Solid(s) == ""
  {
    if |s| > 0 {
      SolidBlank(s[1..]);
    }
  }

  /** The collapse deletes only commas and whitespace: every other character
      is kept, in order. */
  lemma {:induction false} CollapseKeepsSolid(s: string)
    ensures Solid(CollapseEmpty(s)) == Solid(s)
    decreases |s|
  {
    if |s| > 0 {
      var n := SpaceRun(s[1..]);
      if s[0] == ',' && 1 + n < |s| && s[1 + n] == ',' {
        var head, rest := s[..2 + n], s[2 + n..];
        CollapseAtEmpty(s, n);
        CollapseKeepsSolid(rest);
        assert Solid(s) == Solid(rest) by {
          assert s == head + rest;
          SolidAppend(head, rest);
          EmptyFieldBlank(s, n, head);
          SolidBlank(head);
        }
        assert Solid([','] + CollapseEmpty(rest)) == Solid(CollapseEmpty(rest)) by {
          SolidAppend([','], CollapseEmpty(rest));
          SolidBlank([',']);
        }
      } else {
        var rest := s[1..];
        assert CollapseEmpty(s) == [s[0]] + CollapseEmpty(rest);
        CollapseKeepsSolid(rest);
        SolidAppend([s[0]], CollapseEmpty(rest));
        assert s == [s[0]] + rest;
        SolidAppend([s[0]], rest);
      }
    }
  }

  // ---------------------------------------------------------------------
  // re.findall('[^\,\"]+|\"[^"]*\"', terms)

  predicate IsPlainChar(c: char) {
    c != ',' && c != '"'
  }

  /** A match of the first alternative. */
  predicate IsPlain(t: string) {
    |t| > 0 && forall i :: 0 <= i < |t| ==> IsPlainChar(t[i])
  }

  /** A match of the second alternative: a quoted stretch, commas allowed. */
  predicate IsQuoted(t: string) {
    |t| >= 2 && t[0] == '"' && t[|t| - 1] == '"' && '"' !in t[1..|t| - 1]
  }

  /** What the greedy `[^,"]+` consumes at the start of `s` (0: no match). */
  function PlainRun(s: string): (n: nat)
    ensures n <= |s|
    ensures forall i :: 0 <= i < n ==> IsPlainChar(s[i])
    ensures n == |s| || !IsPlainChar(s[n])
  {
    if |s| == 0 || !IsPlainChar(s[0]) then 0 else 1 + PlainRun(s[1..])
  }

  /** The matches, in order; a comma, or a quote without a closing one, is
      skipped. */
  function FindTerms(s: string): (ts: seq<string>)
    ensures forall i :: 0 <= i < |ts| ==> IsPlain(ts[i]) || IsQuoted(ts[i])
    decreases |s|
  {
    if |s| == 0 then []
    else
      var n := PlainRun(s);
      if n > 0 then
        PlainMatch(s, n);
        [s[..n]] + FindTerms(s[n..])
      else if s[0] == '"' && IndexOf(s[1..], '"').Some? then
        var j := IndexOf(s[1..], '"').value;
        QuotedMatch(s, j);
        [s[..j + 2]] + FindTerms(s[j + 2..])
      else
        FindTerms(s[1..])
  }

  lemma PlainMatch(s: string, n: nat)
    requires 0 < n == PlainRun(s)
    ensures IsPlain(s[..n])
  {
  }

  lemma QuotedMatch(s: string, j: nat)
    requires |s| > 0 && s[0] == '"' && IndexOf(s[1..], '"') == Some(j)
    ensures j + 2 <= |s| && IsQuoted(s[..j + 2])
  {
    assert s[..j + 2][1..j + 1] == s[1..][..j];
  }

  /** The pieces that are not empty, in order. */
  function NonEmpty(parts: seq<string>): (r: seq<string>)
    ensures forall i :: 0 <= i < |r| ==> |r[i]| > 0
  {
    if |parts| == 0 then []
    else (if |parts[0]| == 0 then [] else [parts[0]]) + NonEmpty(parts[1..])
  }

  /** Without quotes, the scan is splitting on commas and dropping the empty
      pieces. */
  lemma {:induction false} FindTermsIsSplit(s: string)
    requires '"' !in s
    ensures FindTerms(s) == NonEmpty(Split(s, ','))
    decreases |s|
  {
    if |s| > 0 {
      var n := PlainRun(s);
      if n == |s| {
        assert ',' !in s;
        assert s[..n] == s && s[n..] == "";
      } else {
        var rest := s[n + 1..];
        assert '"' !in rest by {
          forall i | 0 <= i < |rest|
            ensures rest[i] != '"'
          {
            assert rest[i] == s[n + 1 + i];
          }
        }
        FindTermsIsSplit(rest);
        FindTermsAtComma(s, n);
        SplitAtFirst(s, ',', n);
        assert NonEmpty([s[..n]] + Split(rest, ',')) == (if n == 0 then [] else [s[..n]]) + NonEmpty(Split(rest, ','));
      }
    }
  }

  /** Up to the first comma the scan takes one plain stretch (none when the
      comma comes first), then goes on after the comma. */
  lemma FindTermsAtComma(s: string, n: nat)
    requires '"' !in s && n == PlainRun(s) < |s|
    ensures FindTerms(s) == (if n == 0 then [] else [s[..n]]) + FindTerms(s[n + 1..])
  {
    assert s[n] == ',';
    var t := s[n..];
    assert t[1..] == s[n + 1..];
    assert PlainRun(t) == 0;
    assert FindTerms(t) == FindTerms(t[1..]);
    if n > 0 {
      assert FindTerms(s) == [s[..n]] + FindTerms(t);
    }
  }

  // ---------------------------------------------------------------------
  // The clean-up of one term (lines 137-153)

  /** `re.sub(r'\s+\+', '+', s)`: whitespace right before a `+` is removed. */
  function DropSpaceBeforePlus(s: string): (r: string)
    ensures |r| <= |s|
    decreases |s|
  {
    if |s| == 0 then ""
    else if IsSpace(s[0]) then
      var n := SpaceRun(s);
      if n < |s| && s[n] == '+' then "+" + DropSpaceBeforePlus(s[n + 1..])
      else s[..n] + DropSpaceBeforePlus(s[n..])
    else [s[0]] + DropSpaceBeforePlus(s[1..])
  }

  /** `re.sub(r'\+\s+', '+', s)`: whitespace right after a `+` is removed. */
  function DropSpaceAfterPlus(s: string): (r: string)
    ensures |r| <= |s|
    decreases |s|
  {
    if |s| == 0 then ""
    else if s[0] == '+' then "+" + DropSpaceAfterPlus(s[1 + SpaceRun(s[1..])..])
    else [s[0]] + DropSpaceAfterPlus(s[1..])
  }

  /** No whitespace right before a `+`. */
  predicate NoSpaceBeforePlus(s: string) {
    forall i :: 0 <= i < |s| - 1 && s[i + 1] == '+' ==> !IsSpace(s[i])
  }

  /** No whitespace right after a `+`. */
  predicate NoSpaceAfterPlus(s: string) {
    forall i :: 0 <= i < |s| - 1 && s[i] == '+' ==> !IsSpace(s[i + 1])
  }

  /** The first removal adds no character. */
  lemma {:induction false} DropBeforeKeepsOut(s: string, c: char)
    requires c !in s
    ensures c !in DropSpaceBeforePlus(s)
    decreases |s|
  {
    if |s| > 0 {
      if IsSpace(s[0]) {
        var n := SpaceRun(s);
        if n < |s| && s[n] == '+' {
          assert c != '+';
          assert c !in s[n + 1..];
          DropBeforeKeepsOut(s[n + 1..], c);
        } else {
          assert c !in s[..n] && c !in s[n..];
          DropBeforeKeepsOut(s[n..], c);
        }
      } else {
        assert c !in s[1..];
        DropBeforeKeepsOut(s[1..], c);
      }
    }
  }

  /** A first character that is not whitespace stays first. */
  lemma DropBeforeFirst(s: string)
    requires |s| > 0 && !IsSpace(s[0])
    ensures |DropSpaceBeforePlus(s)| > 0 && DropSpaceBeforePlus(s)[0] == s[0]
  {
  }

  /** A last character that is not whitespace stays last. */
  lemma {:induction false} DropBeforeLast(s: string)
    requires |s| > 0 && !IsSpace(s[|s| - 1])
    ensures var r := DropSpaceBeforePlus(s); |r| > 0 && r[|r| - 1] == s[|s| - 1]
    decreases |s|
  {
    var k := if IsSpace(s[0]) then (var n := SpaceRun(s); if n < |s| && s[n] == '+' then n + 1 else n) else 1;
    if k < |s| {
      var rest := s[k..];
      assert rest[|rest| - 1] == s[|s| - 1];
      DropBeforeLast(rest);
    }
  }

  /** After the first removal no whitespace is left right before a `+`. */
  lemma {:induction false} DropBeforeTight(s: string)
    ensures NoSpaceBeforePlus(DropSpaceBeforePlus(s))
    decreases |s|
  {
    if |s| > 0 {
      if IsSpace(s[0]) {
        var n := SpaceRun(s);
        if n < |s| && s[n] == '+' {
          var rr := DropSpaceBeforePlus(s[n + 1..]);
          assert DropSpaceBeforePlus(s) == "+" + rr;
          DropBeforeTight(s[n + 1..]);
          JoinTight("+", rr);
        } else {
          var rr := DropSpaceBeforePlus(s[n..]);
          assert DropSpaceBeforePlus(s) == s[..n] + rr;
          DropBeforeTight(s[n..]);
          if n < |s| {
            DropBeforeFirst(s[n..]);
          }
          SpacesTight(s[..n]);
          JoinTight(s[..n], rr);
        }
      } else {
        var rr := DropSpaceBeforePlus(s[1..]);
        assert DropSpaceBeforePlus(s) == [s[0]] + rr;
        DropBeforeTight(s[1..]);
        JoinTight([s[0]], rr);
      }
    }
  }

  lemma SpacesTight(p: string)
    requires forall i :: 0 <= i < |p| ==> IsSpace(p[i])
    ensures NoSpaceBeforePlus(p)
  {
  }

  /** Two pieces without whitespace before a `+` join into one, unless the
      first ends in whitespace and the second starts with `+`. */
  lemma JoinTight(p: string, q: string)
    requires NoSpaceBeforePlus(p) && NoSpaceBeforePlus(q)
    requires |p| == 0 || |q| == 0 || q[0] != '+' || !IsSpace(p[|p| - 1])
    ensures NoSpaceBeforePlus(p + q)
  {
    var r := p + q;
    forall i | 0 <= i < |r| - 1 && r[i + 1] == '+'
      ensures !IsSpace(r[i])
    {
      if i + 1 < |p| {
        assert r[i] == p[i] && r[i + 1] == p[i + 1];
      } else if i >= |p| {
        assert r[i] == q[i - |p|] && r[i + 1] == q[i - |p| + 1];
      }
    }
  }

  /** The second removal adds no character. */
  lemma {:induction false} DropAfterKeepsOut(s: string, c: char)
    requires c !in s
    ensures c !in DropSpaceAfterPlus(s)
    decreases |s|
  {
    if |s| > 0 {
      if s[0] == '+' {
        var k := 1 + SpaceRun(s[1..]);
        assert c !in s[k..];
        DropAfterKeepsOut(s[k..], c);
      } else {
        assert c !in s[1..];
        DropAfterKeepsOut(s[1..], c);
      }
    }
  }

  /** The first character stays first. */
  lemma DropAfterFirst(s: string)
    requires |s| > 0
    ensures |DropSpaceAfterPlus(s)| > 0 && DropSpaceAfterPlus(s)[0] == s[0]
  {
  }

  /** A last character that is not whitespace stays last. */
  lemma {:induction false} DropAfterLast(s: string)
    requires |s| > 0 && !IsSpace(s[|s| - 1])
    ensures var r := DropSpaceAfterPlus(s); |r| > 0 && r[|r| - 1] == s[|s| - 1]
    decreases |s|
  {
    var n := if s[0] == '+' then SpaceRun(s[1..]) else 0;
    assert n > 0 ==> IsSpace(s[1..][n - 1]) && s[1..][n - 1] == s[n];
    var rest := s[1 + n..];
    if |rest| > 0 {
      assert rest[|rest| - 1] == s[|s| - 1];
      DropAfterLast(rest);
    }
  }

  /** After the second removal no whitespace is left right after a `+`. */
  lemma {:induction false} DropAfterTight(s: string)
    ensures NoSpaceAfterPlus(DropSpaceAfterPlus(s))
    decreases |s|
  {
    var r := DropSpaceAfterPlus(s);
    if |s| > 0 {
      if s[0] == '+' {
        var n := SpaceRun(s[1..]);
        var rest := s[1 + n..];
        var rr := DropSpaceAfterPlus(rest);
        DropAfterTight(rest);
        assert r == "+" + rr;
        if |rest| > 0 {
          assert rest[0] == s[1..][n];
          DropAfterFirst(rest);
        }
        forall i | 0 <= i < |r| - 1 && r[i] == '+'
          ensures !IsSpace(r[i + 1])
        {
          if i > 0 {
            assert r[i] == rr[i - 1] && r[i + 1] == rr[i];
          } else {
            assert r[1] == rr[0];
          }
        }
      } else {
        var rr := DropSpaceAfterPlus(s[1..]);
        DropAfterTight(s[1..]);
        assert r == [s[0]] + rr;
        forall i | 0 <= i < |r| - 1 && r[i] == '+'
          ensures !IsSpace(r[i + 1])
        {
          assert r[i] == rr[i - 1] && r[i + 1] == rr[i];
        }
      }
    }
  }

  /** The second removal brings no whitespace back before a `+`. */
  lemma {:induction false} DropAfterKeepsTight(s: string)
    requires NoSpaceBeforePlus(s)
    ensures NoSpaceBeforePlus(DropSpaceAfterPlus(s))
    decreases |s|
  {
    var r := DropSpaceAfterPlus(s);
    if |s| > 0 {
      var k := if s[0] == '+' then 1 + SpaceRun(s[1..]) else 1;
      var rest := s[k..];
      var rr := DropSpaceAfterPlus(rest);
      assert NoSpaceBeforePlus(rest) by {
        forall i | 0 <= i < |rest| - 1 && rest[i + 1] == '+'
          ensures !IsSpace(rest[i])
        {
          assert rest[i] == s[k + i] && rest[i + 1] == s[k + i + 1];
        }
      }
      DropAfterKeepsTight(rest);
      assert r == [s[0]] + rr;
      if |rest| > 0 {
        DropAfterFirst(rest);
      }
      forall i | 0 <= i < |r| - 1 && r[i + 1] == '+'
        ensures !IsSpace(r[i])
      {
        if i > 0 {
          assert r[i] == rr[i - 1] && r[i + 1] == rr[i];
        } else if s[0] != '+' {
          assert r[1] == rr[0] == rest[0] == s[1];
        }
      }
    }
  }

  /** No whitespace touches a `+` on either side. */
  predicate TightPlus(s: string) {
    NoSpaceBeforePlus(s) && NoSpaceAfterPlus(s)
  }

  /** The comma itself, masked by quotes so that it survives the split. */
  const MaskedComma: string := "\",\""

  /** Lines 137-153 for the term at hand: `convert` says whether this term
      still gets its `*` turned into `%` (else `*` is deleted); then the
      whitespace at both ends goes, the masked comma is unmasked, and in a
      term with `+` the whitespace around each `+` goes. */
  function Clean(t: string, convert: bool): (r: string)
    ensures '*' !in r
    ensures Trimmed(r)
    ensures TightPlus(r)
  {
    var starred := Starred(t, convert);
    var stripped := RStrip(LStrip(starred));
    StripKeepsOut(starred, '*');
    var unmasked := if stripped == MaskedComma then "," else stripped;
    assert '*' !in unmasked;
    if '+' in unmasked then
      TightenKeeps(unmasked);
      DropSpaceAfterPlus(DropSpaceBeforePlus(unmasked))
    else
      unmasked
  }

  /** Stripping both ends adds no character. */
  lemma StripKeepsOut(s: string, c: char)
    requires c !in s
    ensures var r := RStrip(LStrip(s)); c !in r && Trimmed(r)
  {
    var l := LStrip(s);
    var r := RStrip(l);
    assert forall i :: 0 <= i < |l| ==> l[i] in s;
    assert forall i :: 0 <= i < |r| ==> r[i] in l;
    if |r| > 0 {
      assert r[0] == l[0];
    }
  }

  /** The two removals around `+` keep a trimmed term trimmed and free of
      `*`, and leave no whitespace next to a `+`. */
  lemma TightenKeeps(u: string)
    requires '*' !in u && Trimmed(u) && |u| > 0
    ensures var r := DropSpaceAfterPlus(DropSpaceBeforePlus(u));
      '*' !in r && Trimmed(r) && TightPlus(r)
  {
    var loose := DropSpaceBeforePlus(u);
    DropBeforeKeepsOut(u, '*');
    DropBeforeTight(u);
    DropBeforeFirst(u);
    DropBeforeLast(u);
    DropAfterKeepsOut(loose, '*');
    DropAfterTight(loose);
    DropAfterKeepsTight(loose);
    DropAfterFirst(loose);
    DropAfterLast(loose);
  }

  // ---------------------------------------------------------------------
  // What the clean-up keeps

  /** The characters that are not whitespace, in order. */
  function NonSpace(s: string): string {
    if |s| == 0 then "" else (if IsSpace(s[0]) then "" else [s[0]]) + NonSpace(s[1..])
  }

  /** The `*` of a term as the clean-up treats it: turned into `%` or
      deleted. */
  function Starred(s: string, convert: bool): string {
    if convert then ReplaceAll(s, '*', '%') else Delete(s, '*')
  }

  lemma {:induction false} NonSpaceAppend(a: string, b: string)
    ensures NonSpace(a + b) == NonSpace(a) + NonSpace(b)
  {
    if |a| > 0 {
      assert (a + b)[1..] == a[1..] + b;
      NonSpaceAppend(a[1..], b);
    } else {
      assert a + b == b;
    }
  }

  lemma {:induction false} NonSpaceBlank(s: string)
    requires forall i :: 0 <= i < |s| ==> IsSpace(s[i])
    ensures NonSpace(s) == ""
  {
    if |s| > 0 {
      NonSpaceBlank(s[1..]);
    }
  }

  /** Whitespace only. */
  predicate Blank(s: string) {
    forall i :: 0 <= i < |s| ==> IsSpace(s[i])
  }

  /** Whitespace before and after a stretch adds nothing to it. */
  lemma NonSpacePad(p: string, m: string, q: string)
    requires Blank(p) && Blank(q)
    ensures NonSpace(p + m + q) == NonSpace(m)
  {
    NonSpaceAppend(p + m, q);
    NonSpaceAppend(p, m);
    NonSpaceBlank(p);
    NonSpaceBlank(q);
  }

  /** Stripping both ends removes only whitespace. */
  lemma NonSpaceStrip(s: string)
    ensures NonSpace(RStrip(LStrip(s))) == NonSpace(s)
  {
    var l := LStrip(s);
    var r := RStrip(l);
    var a := |s| - |l|;
    var p, q := s[..a], s[a + |r|..];
    assert r == s[a..a + |r|];
    assert Blank(p) by {
      forall i | 0 <= i < |p|
        ensures IsSpace(p[i])
      {
        assert p[i] == s[i];
      }
    }
    assert Blank(q) by {
      forall i | 0 <= i < |q|
        ensures IsSpace(q[i])
      {
        assert q[i] == l[|r| + i];
      }
    }
    assert s == p + r + q;
    NonSpacePad(p, r, q);
  }

  /** Whether `*` becomes `%` or goes, whitespace is untouched. */
  lemma {:induction false} NonSpaceStarred(s: string, convert: bool)
    ensures NonSpace(Starred(s, convert)) == Starred(NonSpace(s), convert)
    decreases |s|
  {
    if |s| > 0 {
      var h := if IsSpace(s[0]) then "" else [s[0]];
      NonSpaceStarred(s[1..], convert);
      assert NonSpace(s) == h + NonSpace(s[1..]);
      StarredCons(s, convert);
      StarredAppend(h, NonSpace(s[1..]), convert);
      var c := Starred([s[0]], convert);
      NonSpaceAppend(c, Starred(s[1..], convert));
      if IsSpace(s[0]) {
        assert c == [s[0]];
      } else if convert {
        assert c == [if s[0] == '*' then '%' else s[0]];
      } else if s[0] == '*' {
        assert c == "";
      } else {
        assert c == [s[0]];
      }
    }
  }

  lemma StarredCons(s: string, convert: bool)
    requires |s| > 0
    ensures Starred(s, convert) == Starred([s[0]], convert) + Starred(s[1..], convert)
  {
    assert s == [s[0]] + s[1..];
    StarredAppend([s[0]], s[1..], convert);
  }

  lemma StarredAppend(a: string, b: string, convert: bool)
    ensures Starred(a + b, convert) == Starred(a, convert) + Starred(b, convert)
  {
    if convert {
      ReplaceAppend(a, b);
    } else {
      DeleteAppend(a, b);
    }
  }

  lemma ReplaceAppend(a: string, b: string)
    ensures ReplaceAll(a + b, '*', '%') == ReplaceAll(a, '*', '%') + ReplaceAll(b, '*', '%')
  {
    var r := ReplaceAll(a + b, '*', '%');
    var q := ReplaceAll(a, '*', '%') + ReplaceAll(b, '*', '%');
    forall i | 0 <= i < |r|
      ensures r[i] == q[i]
    {
      if i < |a| {
        assert (a + b)[i] == a[i];
      } else {
        assert (a + b)[i] == b[i - |a|];
      }
    }
  }

  lemma {:induction false} DeleteAppend(a: string, b: string)
    ensures Delete(a + b, '*') == Delete(a, '*') + Delete(b, '*')
    decreases |a|
  {
    if |a| > 0 {
      var h := if a[0] == '*' then "" else [a[0]];
      assert (a + b)[1..] == a[1..] + b;
      DeleteAppend(a[1..], b);
      assert Delete(a + b, '*') == h + Delete(a[1..] + b, '*');
      assert Delete(a, '*') == h + Delete(a[1..], '*');
    } else {
      assert a + b == b;
    }
  }

  /** The first removal around `+` deletes only whitespace. */
  lemma {:induction false} NonSpaceDropBefore(s: string)
    ensures NonSpace(DropSpaceBeforePlus(s)) == NonSpace(s)
    decreases |s|
  {
    if |s| > 0 {
      if IsSpace(s[0]) {
        var n := SpaceRun(s);
        var p := s[..n];
        assert Blank(p);
        if n < |s| && s[n] == '+' {
          var rest := s[n + 1..];
          NonSpaceDropBefore(rest);
          assert s == p + ("+" + rest) + "";
          NonSpacePad(p, "+" + rest, "");
          NonSpaceAppend("+", rest);
          NonSpaceAppend("+", DropSpaceBeforePlus(rest));
        } else {
          var rest := s[n..];
          NonSpaceDropBefore(rest);
          assert s == p + rest + "";
          NonSpacePad(p, rest, "");
          assert p + DropSpaceBeforePlus(rest) == p + DropSpaceBeforePlus(rest) + "";
          NonSpacePad(p, DropSpaceBeforePlus(rest), "");
        }
      } else {
        NonSpaceDropBefore(s[1..]);
        NonSpaceAppend([s[0]], DropSpaceBeforePlus(s[1..]));
      }
    }
  }

  /** The second removal around `+` deletes only whitespace. */
  lemma {:induction false} NonSpaceDropAfter(s: string)
    ensures NonSpace(DropSpaceAfterPlus(s)) == NonSpace(s)
    decreases |s|
  {
    if |s| > 0 {
      if s[0] == '+' {
        var t := s[1..];
        var n := SpaceRun(t);
        var p, rest := t[..n], s[1 + n..];
        assert Blank(p);
        assert t == p + rest + "";
        NonSpacePad(p, rest, "");
        NonSpaceDropAfter(rest);
        assert s == "+" + t;
        NonSpaceAppend("+", t);
        NonSpaceAppend("+", DropSpaceAfterPlus(rest));
      } else {
        NonSpaceDropAfter(s[1..]);
        NonSpaceAppend([s[0]], DropSpaceAfterPlus(s[1..]));
      }
    }
  }

  /** The clean-up deletes whitespace and nothing else: apart from a masked
      comma turned into a bare one, the characters of the cleaned term that
      are not whitespace are those of the term, with `*` turned into `%` when
      the term converts and deleted when it does not. */
  lemma CleanKeepsNonSpace(t: string, convert: bool)
    ensures var n := Starred(NonSpace(t), convert);
      NonSpace(Clean(t, convert)) == n || (n == MaskedComma && Clean(t, convert) == ",")
  {
    var starred := Starred(t, convert);
    var stripped := RStrip(LStrip(starred));
    NonSpaceStarred(t, convert);
    NonSpaceStrip(starred);
    CleanSteps(t, convert, stripped);
    if stripped == MaskedComma {
      MaskedCommaSolid();
    } else if '+' in stripped {
      NonSpaceDropBefore(stripped);
      NonSpaceDropAfter(DropSpaceBeforePlus(stripped));
    }
  }

  /** The steps of `Clean` after the ends are stripped. */
  lemma CleanSteps(t: string, convert: bool, stripped: string)
    requires stripped == RStrip(LStrip(Starred(t, convert)))
    ensures Clean(t, convert) ==
      if stripped == MaskedComma then ","
      else if '+' in stripped then DropSpaceAfterPlus(DropSpaceBeforePlus(stripped))
      else stripped
  {
  }

  lemma MaskedCommaSolid()
    ensures NonSpace(MaskedComma) == MaskedComma
  {
    assert MaskedComma == [MaskedComma[0]] + [MaskedComma[1]] + [MaskedComma[2]];
    NonSpaceAppend([MaskedComma[0]] + [MaskedComma[1]], [MaskedComma[2]]);
    NonSpaceAppend([MaskedComma[0]], [MaskedComma[1]]);
  }

  /** A masked comma on its own is unmasked. */
  lemma CleanUnmasks(convert: bool)
    ensures Clean(MaskedComma, convert) == ","
  {
    assert Starred(MaskedComma, convert) == MaskedComma;
    assert SpaceRun(MaskedComma) == 0;
    assert LStrip(MaskedComma) == MaskedComma;
  }

  /** How many of `ts` contain a `*`. */
  function StarCount(ts: seq<string>): nat {
    if |ts| == 0 then 0 else (if '*' in ts[0] then 1 else 0) + StarCount(ts[1..])
  }

  /** For each term, whether the loop of lines 135-153 converts its `*`,
      `used` being `wildcardIdx` on entry. */
  function Converts(ts: seq<string>, used: nat): (r: seq<bool>)
    ensures |r| == |ts|
  {
    if |ts| == 0 then []
    else
      var convert := '*' in ts[0] && used < MaxWildcards;
      [convert] + Converts(ts[1..], if convert then used + 1 else used)
  }

  /** The first five terms that contain `*` get `%` for it; every later one
      has its `*` deleted. */
  lemma {:induction false} WildcardBudget(ts: seq<string>, used: nat, i: nat)
    requires i < |ts|
    ensures Converts(ts, used)[i] <==> '*' in ts[i] && used + StarCount(ts[..i]) < MaxWildcards
    decreases i
  {
    if i > 0 {
      var convert := '*' in ts[0] && used < MaxWildcards;
      var used' := if convert then used + 1 else used;
      WildcardBudget(ts[1..], used', i - 1);
      assert ts[..i] == [ts[0]] + ts[1..][..i - 1];
      assert ts[..i][1..] == ts[1..][..i - 1];
    }
  }

  /** The loop of lines 135-153. */
  function CleanAll(ts: seq<string>, used: nat): (r: seq<string>)
    ensures |r| == |ts|
    ensures forall i :: 0 <= i < |r| ==> '*' !in r[i] && Trimmed(r[i]) && TightPlus(r[i])
  {
    var converts := Converts(ts, used);
    seq(|ts|, i requires 0 <= i < |ts| => Clean(ts[i], converts[i]))
  }

  /** Lines 119-155, `return_terms`. */
  function ReturnTerms(terms: string): (r: seq<string>)
    ensures |r| <= MaxTerms
    ensures forall i :: 0 <= i < |r| ==> '*' !in r[i] && Trimmed(r[i]) && TightPlus(r[i])
  {
    var cut := Take(terms, MaxChar);
    var found := FindTerms(CollapseEmpty(cut));
    CleanAll(Take(found, MaxTerms), 0)
  }

  /** The terms, counted before clean-up, are those `FindTerms` reports. */
  lemma ReturnTermsFromFound(terms: string, i: nat)
    requires i < |ReturnTerms(terms)|
    ensures var found := Take(FindTerms(CollapseEmpty(Take(terms, MaxChar))), MaxTerms);
      ReturnTerms(terms)[i] == Clean(found[i], '*' in found[i] && StarCount(found[..i]) < MaxWildcards)
  {
    var found := Take(FindTerms(CollapseEmpty(Take(terms, MaxChar))), MaxTerms);
    WildcardBudget(found, 0, i);
    assert 0 + StarCount(found[..i]) == StarCount(found[..i]);
  }

  /** Each returned term keeps the characters of its match that are not
      whitespace: the first five matches with `*` have it turned into `%`,
      later ones have it deleted, and a masked comma becomes a bare one. */
  lemma ReturnTermsKeepNonSpace(terms: string, i: nat)
    requires i < |ReturnTerms(terms)|
    ensures var found := Take(FindTerms(CollapseEmpty(Take(terms, MaxChar))), MaxTerms);
      var n := Starred(NonSpace(found[i]), '*' in found[i] && StarCount(found[..i]) < MaxWildcards);
      NonSpace(ReturnTerms(terms)[i]) == n || (n == MaskedComma && ReturnTerms(terms)[i] == ",")
  {
    var found := Take(FindTerms(CollapseEmpty(Take(terms, MaxChar))), MaxTerms);
    ReturnTermsFromFound(terms, i);
    CleanKeepsNonSpace(found[i], '*' in found[i] && StarCount(found[..i]) < MaxWildcards);
  }

  /** A trimmed term without `*` or `+` (other than the masked comma) comes
      out of the clean-up unchanged, whatever the wildcard budget. */
  lemma CleanKeepsPlain(t: string, convert: bool)
    requires Trimmed(t) && '*' !in t && '+' !in t && t != MaskedComma
    ensures Clean(t, convert) == t
  {
    var starred := Starred(t, convert);
    assert starred == t;
    assert SpaceRun(t) == 0 by {
      if |t| > 0 {
        assert !IsSpace(t[0]);
      }
    }
    assert LStrip(t) == t;
  }

  /** A whitespace-only term is cleaned to the empty term. */
  lemma CleanBlank(t: string, convert: bool)
    requires forall i :: 0 <= i < |t| ==> IsSpace(t[i])
    ensures Clean(t, convert) == ""
  {
    var starred := Starred(t, convert);
    assert '*' !in t;
    assert starred == t;
    assert SpaceRun(t) == |t|;
  }

  /** Text without commas passes the collapse unchanged. */
  lemma {:induction false} CollapseNoComma(w: string, t: string)
    requires ',' !in w
    ensures CollapseEmpty(w + t) == w + CollapseEmpty(t)
    decreases |w|
  {
    if |w| > 0 {
      assert (w + t)[1..] == w[1..] + t;
      CollapseNoComma(w[1..], t);
      assert w == [w[0]] + w[1..];
    } else {
      assert w + t == t;
    }
  }

  /** A plain stretch followed by a comma is one whole match. */
  lemma {:induction false} PlainRunOf(w: string, t: string)
    requires forall i :: 0 <= i < |w| ==> IsPlainChar(w[i])
    requires |t| > 0 && !IsPlainChar(t[0])
    ensures PlainRun(w + t) == |w|
    decreases |w|
  {
    if |w| > 0 {
      assert (w + t)[1..] == w[1..] + t;
      PlainRunOf(w[1..], t);
    } else {
      assert w + t == t;
    }
  }

  /** What the scan finds in `, `: the blank after the comma. */
  lemma CommaBlankFound()
    ensures CollapseEmpty(", ") == ", "
    ensures FindTerms(", ") == [" "]
  {
    assert (" ")[1..] == "";
    assert CollapseEmpty(" ") == " ";
    assert (", ")[1..] == " ";
    assert PlainRun(" ") == 1;
    assert " "[..1] == " ";
    assert FindTerms(" ") == [" "] + FindTerms("");
  }

  /** A word, a comma and a blank: the blank after the comma is not dropped
      but becomes a term of its own, which the clean-up empties. */
  lemma TrailingBlankGivesEmptyTerm(w: string)
    requires IsPlain(w) && |w| + 2 <= MaxChar
    requires Trimmed(w) && '*' !in w && '+' !in w
    ensures ReturnTerms(w + ", ") == [w, ""]
  {
    var s := w + ", ";
    var found := [w, " "];
    assert Take(s, MaxChar) == s;
    assert FindTerms(CollapseEmpty(s)) == found by {
      TrailingBlankFound(w);
    }
    assert Take(found, MaxTerms) == found;
    WordAndBlankCleaned(w);
  }

  lemma TrailingBlankFound(w: string)
    requires IsPlain(w)
    ensures FindTerms(CollapseEmpty(w + ", ")) == [w, " "]
  {
    var s := w + ", ";
    CollapseNoComma(w, ", ");
    CommaBlankFound();
    assert CollapseEmpty(s) == s;
    PlainRunOf(w, ", ");
    assert s[..|w|] == w && s[|w|..] == ", ";
    assert FindTerms(s) == [w] + FindTerms(", ");
  }

  lemma WordAndBlankCleaned(w: string)
    requires Trimmed(w) && '*' !in w && '+' !in w && |w| > 0 && w[0] != '"'
    ensures CleanAll([w, " "], 0) == [w, ""]
  {
    var found := [w, " "];
    var c := Converts(found, 0);
    assert w != MaskedComma by {
      if |w| == 3 {
        assert w[0] != MaskedComma[0];
      }
    }
    CleanKeepsPlain(w, c[0]);
    CleanBlank(" ", c[1]);
  }

}
