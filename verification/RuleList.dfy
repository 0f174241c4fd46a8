/** A packet-filter chain as an ordered list of rules: delete the first equal rule, insert at the
    top, append at the bottom, and let the first rule that decides a packet give the verdict. */
module RuleList {
  import opened Basics

  datatype Verdict = Accept | Drop

  function DeleteFirst<T(==)>(l: seq<T>, r: T): seq<T> {
    if l == [] then []
    else if l[0] == r then l[1..]
    else [l[0]] + DeleteFirst(l[1..], r)
  }

  /** The list without any rule in `gone`, the others in order. */
  function Without<T(==)>(l: seq<T>, gone: set<T>): seq<T> {
    if l == [] then []
    else if l[0] in gone then Without(l[1..], gone)
    else [l[0]] + Without(l[1..], gone)
  }

  ghost predicate AtMostOnce<T>(l: seq<T>, r: T) {
    forall i, j | 0 <= i < j < |l| :: !(l[i] == r && l[j] == r)
  }

  lemma {:induction false} WithoutMember<T>(l: seq<T>, gone: set<T>, x: T)
    ensures x in Without(l, gone) <==> x in l && x !in gone
  {
    if l != [] {
      WithoutMember(l[1..], gone, x);
      assert x in l <==> x == l[0] || x in l[1..];
    }
  }

  lemma {:induction false} WithoutConcat<T>(a: seq<T>, b: seq<T>, gone: set<T>)
    ensures Without(a + b, gone) == Without(a, gone) + Without(b, gone)
  {
    if a == [] {
      assert a + b == b;
    } else {
      assert (a + b)[1..] == a[1..] + b;
      WithoutConcat(a[1..], b, gone);
    }
  }

  lemma {:induction false} WithoutTwice<T>(l: seq<T>, g: set<T>, h: set<T>)
    ensures Without(Without(l, g), h) == Without(l, g + h)
  {
    if l != [] {
      WithoutTwice(l[1..], g, h);
      if l[0] !in g {
        assert ([l[0]] + Without(l[1..], g))[1..] == Without(l[1..], g);
      }
    }
  }

  lemma {:induction false} WithoutNothing<T>(l: seq<T>, gone: set<T>)
    requires forall x | x in l :: x !in gone
    ensures Without(l, gone) == l
  {
    if l != [] {
      WithoutNothing(l[1..], gone);
    }
  }

  /** Deleting the first occurrence of a rule present at most once removes it altogether. */
  lemma {:induction false} DeleteFirstIsWithout<T>(l: seq<T>, r: T)
    requires AtMostOnce(l, r)
    ensures DeleteFirst(l, r) == Without(l, {r})
  {
    if l != [] {
      assert AtMostOnce(l[1..], r) by {
        forall i, j | 0 <= i < j < |l[1..]|
          ensures !(l[1..][i] == r && l[1..][j] == r)
        {
          assert l[1..][i] == l[i + 1] && l[1..][j] == l[j + 1];
        }
      }
      if l[0] == r {
        WithoutNothing(l[1..], {r});
      } else {
        DeleteFirstIsWithout(l[1..], r);
      }
    }
  }

  lemma {:induction false} DeleteFirstKeepsOthers<T>(l: seq<T>, r: T, gone: set<T>)
    requires r in gone
    ensures Without(DeleteFirst(l, r), gone) == Without(l, gone)
  {
    if l != [] && l[0] != r {
      DeleteFirstKeepsOthers(l[1..], r, gone);
      assert ([l[0]] + DeleteFirst(l[1..], r))[1..] == DeleteFirst(l[1..], r);
    }
  }

  lemma {:induction false} DeleteFirstAtMostOnce<T>(l: seq<T>, r: T, x: T)
    requires AtMostOnce(l, x)
    ensures AtMostOnce(DeleteFirst(l, r), x)
    ensures x in DeleteFirst(l, r) ==> x in l
  {
    if l != [] && l[0] != r {
      assert AtMostOnce(l[1..], x) by {
        forall i, j | 0 <= i < j < |l[1..]|
          ensures !(l[1..][i] == x && l[1..][j] == x)
        {
          assert l[1..][i] == l[i + 1] && l[1..][j] == l[j + 1];
        }
      }
      DeleteFirstAtMostOnce(l[1..], r, x);
      var rest := DeleteFirst(l[1..], r);
      if l[0] == x {
        assert x !in l[1..];
      }
      assert forall k | 1 <= k < |rest| + 1 :: ([l[0]] + rest)[k] == rest[k - 1];
    } else if l != [] {
      assert forall k | 0 <= k < |l[1..]| :: l[1..][k] == l[k + 1];
    }
  }

  lemma {:induction false} DeleteFirstAbsent<T>(l: seq<T>, r: T)
    requires r !in l
    ensures DeleteFirst(l, r) == l
  {
    if l != [] {
      DeleteFirstAbsent(l[1..], r);
    }
  }

  lemma {:induction false} DeleteFirstAt<T>(l: seq<T>, r: T, i: nat)
    requires i < |l| && l[i] == r && forall j | 0 <= j < i :: l[j] != r
    ensures DeleteFirst(l, r) == l[..i] + l[i + 1..]
  {
    if i > 0 {
      DeleteFirstAt(l[1..], r, i - 1);
      assert l[1..][..i - 1] == l[1..i] && l[1..][i..] == l[i + 1..];
      assert l[..i] == [l[0]] + l[1..i];
    }
  }

  lemma {:induction false} DeleteFirstMultiset<T>(l: seq<T>, r: T)
    ensures multiset(DeleteFirst(l, r)) == multiset(l) - multiset{r}
  {
    if l != [] {
      assert l == [l[0]] + l[1..];
      if l[0] != r {
        DeleteFirstMultiset(l[1..], r);
      }
    }
  }

  lemma {:induction false} AtMostOnceCounts<T>(l: seq<T>, r: T)
    requires multiset(l)[r] <= 1
    ensures AtMostOnce(l, r)
  {
    if l != [] {
      assert l == [l[0]] + l[1..];
      AtMostOnceCounts(l[1..], r);
      if l[0] == r {
        assert r !in multiset(l[1..]);
        assert r !in l[1..];
      }
      assert forall k | 1 <= k < |l| :: l[k] == l[1..][k - 1];
    }
  }

  /** What the first deciding rule says, if any rule decides. */
  function Decide<T>(l: seq<T>, decision: T -> Option<Verdict>): Option<Verdict> {
    if l == [] then None
    else if decision(l[0]).Some? then decision(l[0])
    else Decide(l[1..], decision)
  }

  lemma {:induction false} DecideCons<T>(x: T, rest: seq<T>, decision: T -> Option<Verdict>)
    ensures Decide([x] + rest, decision) == if decision(x).Some? then decision(x) else Decide(rest, decision)
  {
    assert ([x] + rest)[1..] == rest;
  }

  lemma {:induction false} DecideConcat<T>(a: seq<T>, b: seq<T>, decision: T -> Option<Verdict>)
    ensures Decide(a + b, decision) == if Decide(a, decision).Some? then Decide(a, decision) else Decide(b, decision)
  {
    if a == [] {
      assert a + b == b;
    } else {
      assert (a + b)[1..] == a[1..] + b;
      DecideConcat(a[1..], b, decision);
    }
  }

  /** Rules that decide nothing about a packet can be left out. */
  lemma {:induction false} DecideWithout<T>(l: seq<T>, gone: set<T>, decision: T -> Option<Verdict>)
    requires forall r | r in gone :: decision(r).None?
    ensures Decide(Without(l, gone), decision) == Decide(l, decision)
  {
    if l != [] {
      DecideWithout(l[1..], gone, decision);
      if l[0] !in gone {
        assert ([l[0]] + Without(l[1..], gone))[1..] == Without(l[1..], gone);
      }
    }
  }
}
