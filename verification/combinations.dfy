/** `combination_gen` of backend.py: every way to pick one alternative per
    slot of a bracketed term, the first slot varying slowest. */
module Combinations {

  /** `x` put in front of every sequence of `ps`. */
  function Cons(x: string, ps: seq<seq<string>>): (r: seq<seq<string>>)
    ensures |r| == |ps|
    ensures forall j :: 0 <= j < |ps| ==> r[j] == [x] + ps[j]
  {
    seq(|ps|, j requires 0 <= j < |ps| => [x] + ps[j])
  }

  /** Each alternative of `l`, in order, in front of each of `tails`. */
  function ProductWith(l: seq<string>, tails: seq<seq<string>>): (r: seq<seq<string>>)
    ensures |r| == |l| * |tails|
  {
    if |l| == 0 then [] else ProductWith(l[..|l| - 1], tails) + Cons(l[|l| - 1], tails)
  }

  /** The Cartesian product of the slots, first slot outermost. */
  function Product(slots: seq<seq<string>>): (r: seq<seq<string>>)
    decreases |slots|
  {
    if |slots| == 0 then [[]] else ProductWith(slots[0], Product(slots[1..]))
  }

  /** The product of the slot sizes. */
  function Count(slots: seq<seq<string>>): nat
    decreases |slots|
  {
    if |slots| == 0 then 1 else |slots[0]| * Count(slots[1..])
  }

  lemma {:induction false} ProductSize(slots: seq<seq<string>>)
    ensures |Product(slots)| == Count(slots)
    decreases |slots|
  {
    if |slots| > 0 {
      ProductSize(slots[1..]);
    }
  }

  lemma {:induction false} ProductWithMembers(l: seq<string>, tails: seq<seq<string>>, p: seq<string>)
    ensures p in ProductWith(l, tails) <==> |p| > 0 && p[0] in l && p[1..] in tails
  {
    if |l| > 0 {
      ProductWithMembers(l[..|l| - 1], tails, p);
      var x := l[|l| - 1];
      assert l == l[..|l| - 1] + [x];
      if p in Cons(x, tails) {
        var j :| 0 <= j < |tails| && Cons(x, tails)[j] == p;
        assert p[1..] == tails[j];
      }
      if |p| > 0 && p[0] == x && p[1..] in tails {
        var j :| 0 <= j < |tails| && tails[j] == p[1..];
        assert Cons(x, tails)[j] == p;
      }
    }
  }

  /** The product holds exactly the picks of one alternative per slot. */
  lemma {:induction false} ProductMembers(slots: seq<seq<string>>, p: seq<string>)
    ensures p in Product(slots) <==> |p| == |slots| && forall i :: 0 <= i < |p| ==> p[i] in slots[i]
    decreases |slots|
  {
    if |slots| > 0 {
      ProductWithMembers(slots[0], Product(slots[1..]), p);
      if |p| > 0 {
        ProductMembers(slots[1..], p[1..]);
        if |p| == |slots| && forall i :: 0 <= i < |p| ==> p[i] in slots[i] {
          assert forall i :: 0 <= i < |p[1..]| ==> p[1..][i] in slots[1..][i] by {
            forall i | 0 <= i < |p[1..]|
              ensures p[1..][i] in slots[1..][i]
            {
              assert p[i + 1] in slots[i + 1];
            }
          }
        }
        if p in Product(slots) {
          forall i | 0 <= i < |p|
            ensures p[i] in slots[i]
          {
            if i > 0 {
              assert p[1..][i - 1] in slots[1..][i - 1];
            }
          }
        }
      }
    }
  }

  lemma ConsAppend(x: string, a: seq<seq<string>>, b: seq<seq<string>>)
    ensures Cons(x, a + b) == Cons(x, a) + Cons(x, b)
  {
  }

  lemma ProductWithSnoc(l: seq<string>, i: nat, tails: seq<seq<string>>)
    requires i < |l|
    ensures ProductWith(l[..i + 1], tails) == ProductWith(l[..i], tails) + Cons(l[i], tails)
  {
    assert l[..i + 1][..i] == l[..i];
  }

  lemma ConsOne(x: string, p: seq<string>)
    ensures Cons(x, [p]) == [[x] + p]
  {
    assert Cons(x, [p])[0] == [x] + p;
  }

  lemma ProductOne(l: seq<string>)
    ensures Product([l]) == ProductWith(l, [[]])
  {
    assert [l][1..] == [];
  }

  /** Lines 272-289. Two or three slots: nested loops over the first two,
      the third nested inside when present; four or more slots run the same
      loops but add nothing. One slot: each alternative on its own. Python
      raises IndexError on an empty list of slots; the caller never passes
      one. */
  method CombinationGen(ngrams: seq<seq<string>>) returns (args: seq<seq<string>>)
    requires |ngrams| >= 1
    ensures |ngrams| <= 3 ==> args == Product(ngrams)
    ensures |ngrams| > 3 ==> args == []
  {
    args := [];
    if |ngrams| > 1 {
      var l1 := ngrams[0];
      ghost var tails := Product(ngrams[1..]);
      var i1 := 0;
      while i1 < |l1|
        invariant 0 <= i1 <= |l1|
        invariant |ngrams| <= 3 ==> args == ProductWith(l1[..i1], tails)
        invariant |ngrams| > 3 ==> args == []
      {
        var more := SecondSlot(ngrams, l1[i1]);
        ProductWithSnoc(l1, i1, tails);
        args := args + more;
        i1 := i1 + 1;
      }
      assert l1[..|l1|] == l1;
    } else {
      var l := ngrams[0];
      var i := 0;
      while i < |l|
        invariant 0 <= i <= |l|
        invariant args == ProductWith(l[..i], [[]])
      {
        ProductWithSnoc(l, i, [[]]);
        ConsOne(l[i], []);
        assert [l[i]] + [] == [l[i]];
        args := args + [[l[i]]];
        i := i + 1;
      }
      assert l[..|l|] == l;
      ProductOne(l);
      assert ngrams == [l];
    }
  }

  /** The loop over the second slot for one `item1` of the first. */
  method SecondSlot(ngrams: seq<seq<string>>, item1: string) returns (more: seq<seq<string>>)
    requires |ngrams| >= 2
    ensures |ngrams| <= 3 ==> more == Cons(item1, Product(ngrams[1..]))
    ensures |ngrams| > 3 ==> more == []
  {
    more := [];
    var l2 := ngrams[1];
    ghost var tails := if |ngrams| == 3 then Product([ngrams[2]]) else [[]];
    var i2 := 0;
    while i2 < |l2|
      invariant 0 <= i2 <= |l2|
      invariant |ngrams| <= 3 ==> more == Cons(item1, ProductWith(l2[..i2], tails))
      invariant |ngrams| > 3 ==> more == []
    {
      var item2 := l2[i2];
      ProductWithSnoc(l2, i2, tails);
      ConsAppend(item1, ProductWith(l2[..i2], tails), Cons(item2, tails));
      if |ngrams| == 2 {
        ConsOne(item2, []);
        assert [item2] + [] == [item2];
        ConsOne(item1, [item2]);
        assert [item1] + [item2] == [item1, item2];
        more := more + [[item1, item2]];
      }
      if |ngrams| == 3 {
        var triples := ThirdSlot(item1, item2, ngrams[2]);
        more := more + triples;
      }
      i2 := i2 + 1;
    }
    assert l2[..|l2|] == l2;
    if |ngrams| == 2 {
      assert ngrams[1..] == [l2];
      ProductOne(l2);
    }
    if |ngrams| == 3 {
      assert ngrams[1..] == [l2, ngrams[2]];
      assert [l2, ngrams[2]][1..] == [ngrams[2]];
    }
  }

  /** The innermost loop, over the third slot. */
  method ThirdSlot(item1: string, item2: string, l3: seq<string>) returns (more: seq<seq<string>>)
    ensures more == Cons(item1, Cons(item2, Product([l3])))
  {
    more := [];
    var i3 := 0;
    while i3 < |l3|
      invariant 0 <= i3 <= |l3|
      invariant more == Cons(item1, Cons(item2, ProductWith(l3[..i3], [[]])))
    {
      ProductWithSnoc(l3, i3, [[]]);
      ConsAppend(item2, ProductWith(l3[..i3], [[]]), Cons(l3[i3], [[]]));
      ConsAppend(item1, Cons(item2, ProductWith(l3[..i3], [[]])), Cons(item2, Cons(l3[i3], [[]])));
      ConsOne(l3[i3], []);
      assert [l3[i3]] + [] == [l3[i3]];
      ConsOne(item2, [l3[i3]]);
      assert [item2] + [l3[i3]] == [item2, l3[i3]];
      ConsOne(item1, [item2, l3[i3]]);
      assert [item1] + [item2, l3[i3]] == [item1, item2, l3[i3]];
      more := more + [[item1, item2, l3[i3]]];
      i3 := i3 + 1;
    }
    assert l3[..|l3|] == l3;
    ProductOne(l3);
  }
}
