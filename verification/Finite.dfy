// Counting facts about finite sets, sequences and sums.
module Finite {
  function Elements<T>(s: seq<T>): set<T> { set x | x in s }

  ghost predicate NoDuplicates<T>(s: seq<T>) {
    forall i, j :: 0 <= i < j < |s| ==> s[i] != s[j]
  }

  lemma NoDuplicatesAppend<T>(s: seq<T>, x: T)
    ensures NoDuplicates(s + [x]) <==> NoDuplicates(s) && x !in s
    ensures Elements(s + [x]) == Elements(s) + {x}
  {
    var t := s + [x];
    if NoDuplicates(t) {
      forall i, j | 0 <= i < j < |s| ensures s[i] != s[j] {
        assert t[i] != t[j];
      }
    }
    if x in s {
      var i :| 0 <= i < |s| && s[i] == x;
      assert t[i] == t[|s|];
    }
  }

  lemma NoDuplicatesJoin<T>(s: seq<T>, t: seq<T>)
    requires NoDuplicates(s) && NoDuplicates(t) && forall x :: x in s ==> x !in t
    ensures NoDuplicates(s + t)
  {
    forall i, j | 0 <= i < j < |s + t| ensures (s + t)[i] != (s + t)[j] {
      if i < |s| <= j {
        assert (s + t)[i] in s && (s + t)[j] in t;
      }
    }
  }

  lemma {:induction false} NoDuplicatesSize<T>(s: seq<T>)
    requires NoDuplicates(s)
    ensures |Elements(s)| == |s|
  {
    if s != [] {
      var init, last := s[..|s| - 1], s[|s| - 1];
      assert s == init + [last];
      NoDuplicatesAppend(init, last);
      InElements(init, last);
      hide NoDuplicates, Elements;
      NoDuplicatesSize(init);
    }
  }

  lemma SubsetSize<T>(small: set<T>, large: set<T>)
    requires small <= large
    ensures |small| <= |large|
  {
    assert large == small + (large - small);
  }

  lemma SmallerSet<T>(a: set<T>, b: set<T>)
    requires a < b
    ensures |a| < |b|
  {
    assert b == a + (b - a);
  }

  lemma Pigeonhole<T>(s: seq<T>, holes: set<T>)
    requires Elements(s) <= holes && |s| > |holes|
    ensures !NoDuplicates(s)
  {
    if NoDuplicates(s) {
      NoDuplicatesSize(s);
      SubsetSize(Elements(s), holes);
      assert false;
    }
  }

  // Listings of one set without repetition are permutations of each other.
  lemma {:induction false} SameElementsSameBag<T>(s: seq<T>, t: seq<T>)
    requires NoDuplicates(s) && NoDuplicates(t) && Elements(s) == Elements(t)
    ensures multiset(s) == multiset(t)
  {
    forall x ensures multiset(s)[x] == multiset(t)[x] {
      CountOne(s, x);
      CountOne(t, x);
      assert x in Elements(s) <==> x in Elements(t);
    }
  }

  lemma {:induction false} CountOne<T>(s: seq<T>, x: T)
    requires NoDuplicates(s)
    ensures multiset(s)[x] == if x in s then 1 else 0
  {
    if s != [] {
      var init := s[..|s| - 1];
      assert s == init + [s[|s| - 1]];
      CountOne(init, x);
    }
  }

  lemma SameBagSameElements<T>(s: seq<T>, t: seq<T>)
    requires multiset(s) == multiset(t)
    ensures Elements(s) == Elements(t)
    ensures forall x :: x in s <==> x in t
  {
    forall x ensures x in s <==> x in t {
      assert x in s <==> x in multiset(s);
      assert x in t <==> x in multiset(t);
    }
  }

  // Reordering a list without repetition brings none in.
  lemma SameBagNoDuplicates<T>(s: seq<T>, t: seq<T>)
    requires multiset(s) == multiset(t) && NoDuplicates(s)
    ensures NoDuplicates(t) && Elements(t) == Elements(s)
  {
    SameBagSameElements(s, t);
    SameBagSameLength(s, t);
    NoDuplicatesSize(s);
    SizeShowsDuplicates(t);
  }

  // ---------------------------------------------------------------- sums over a sequence

  function Sum<T>(f: T -> int, s: seq<T>): int {
    if s == [] then 0 else f(s[0]) + Sum(f, s[1..])
  }

  lemma {:induction false} SumAppend<T>(f: T -> int, s: seq<T>, t: seq<T>)
    ensures Sum(f, s + t) == Sum(f, s) + Sum(f, t)
  {
    if s == [] {
      assert s + t == t;
    } else {
      assert (s + t)[1..] == s[1..] + t;
      SumAppend(f, s[1..], t);
    }
  }

  lemma {:induction false} SumAgree<T>(f: T -> int, g: T -> int, s: seq<T>)
    requires forall x :: x in s ==> f(x) == g(x)
    ensures Sum(f, s) == Sum(g, s)
  {
    if s != [] {
      SumAgree(f, g, s[1..]);
    }
  }

  // Dropping the last member instead of the first.
  lemma SumLast<T>(f: T -> int, s: seq<T>)
    requires s != []
    ensures Sum(f, s) == Sum(f, s[..|s| - 1]) + f(s[|s| - 1])
  {
    var last := s[|s| - 1];
    assert s == s[..|s| - 1] + [last];
    SumAppend(f, s[..|s| - 1], [last]);
    assert [last][1..] == [];
  }

  lemma {:induction false} SumOfNothing<T>(f: T -> int, s: seq<T>)
    requires forall x :: x in Elements(s) ==> f(x) == 0
    ensures Sum(f, s) == 0
  {
    if s != [] {
      assert s[0] in Elements(s);
      assert forall x :: x in Elements(s[1..]) ==> x in Elements(s);
      SumOfNothing(f, s[1..]);
    }
  }

  lemma TakeOut<T>(s: seq<T>, i: nat)
    requires i < |s|
    ensures multiset(s[..i] + s[i + 1..]) == multiset(s) - multiset{s[i]}
  {
    assert s == s[..i] + [s[i]] + s[i + 1..];
  }

  lemma SumHead<T>(f: T -> int, x: T, s: seq<T>)
    ensures Sum(f, [x] + s) == f(x) + Sum(f, s)
  {
    assert ([x] + s)[1..] == s;
  }

  lemma SumTakeOut<T>(f: T -> int, s: seq<T>, i: nat)
    requires i < |s|
    ensures Sum(f, s) == f(s[i]) + Sum(f, s[..i] + s[i + 1..])
  {
    hide Sum;
    var a, b := s[..i], s[i + 1..];
    assert s == a + ([s[i]] + b);
    SumAppend(f, a, [s[i]] + b);
    SumAppend(f, a, b);
    SumHead(f, s[i], b);
  }

  lemma {:induction false} SumPermutation<T>(f: T -> int, s: seq<T>, t: seq<T>)
    requires multiset(s) == multiset(t)
    ensures Sum(f, s) == Sum(f, t)
  {
    SameBagSameLength(s, t);
    if s != [] {
      var i := FindInBag(s, t);
      SumTakeOut(f, t, i);
      SumPermutation(f, s[1..], t[..i] + t[i + 1..]);
    }
  }

  lemma SameBagSameLength<T>(s: seq<T>, t: seq<T>)
    requires multiset(s) == multiset(t)
    ensures |s| == |t|
  {
    assert |multiset(s)| == |s| && |multiset(t)| == |t|;
  }

  lemma HeadIsInBag<T>(s: seq<T>, t: seq<T>)
    requires multiset(s) == multiset(t) && s != []
    ensures s[0] in t
  {
    assert s[0] in multiset(t);
  }

  // Where the first member of `s` is in `t`, and that the rest matches without it.
  lemma FindInBag<T>(s: seq<T>, t: seq<T>) returns (i: nat)
    requires multiset(s) == multiset(t) && s != []
    ensures i < |t| && t[i] == s[0] && multiset(s[1..]) == multiset(t[..i] + t[i + 1..])
  {
    HeadIsInBag(s, t);
    i :| 0 <= i < |t| && t[i] == s[0];
    TakeOut(t, i);
    TailOfBag(s);
  }

  lemma TailOfBag<T>(s: seq<T>)
    requires s != []
    ensures multiset(s[1..]) == multiset(s) - multiset{s[0]}
  {
    assert s == [s[0]] + s[1..];
  }

  lemma {:induction false} NoDuplicatesTakeOut<T>(s: seq<T>, i: nat)
    requires NoDuplicates(s) && i < |s|
    ensures NoDuplicates(s[..i] + s[i + 1..])
    ensures Elements(s[..i] + s[i + 1..]) == Elements(s) - {s[i]}
  {
    var rest := s[..i] + s[i + 1..];
    assert s == s[..i] + [s[i]] + s[i + 1..];
    forall x ensures x in rest <==> x in s && x != s[i] {
      if x in s && x != s[i] {
        var k :| 0 <= k < |s| && s[k] == x;
        assert x in s[..i] || x in s[i + 1..];
      }
    }
  }

  lemma InElements<T>(s: seq<T>, x: T)
    ensures x in s <==> x in Elements(s)
  {
  }

  // Comparing a list's length with the size of its set of members finds duplicates.
  lemma {:induction false} SizeShowsDuplicates<T>(s: seq<T>)
    ensures |Elements(s)| <= |s|
    ensures |Elements(s)| == |s| <==> NoDuplicates(s)
  {
    if s != [] {
      var last, init := s[|s| - 1], s[..|s| - 1];
      SizeShowsDuplicates(init);
      NoDuplicatesAppend(init, last);
      assert s == init + [last];
      assert last in init ==> Elements(init) + {last} == Elements(init);
    }
  }

  // Raising the value of one member raises the sum by as much, if the member is in the list.
  lemma {:induction false} SumBump<T>(f: T -> int, g: T -> int, s: seq<T>, x: T, d: int)
    requires NoDuplicates(s)
    requires forall u :: u in s ==> g(u) == f(u) + if u == x then d else 0
    ensures Sum(g, s) == Sum(f, s) + if x in s then d else 0
  {
    if s != [] {
      var rest := s[1..];
      assert s == [s[0]] + rest;
      forall i, j | 0 <= i < j < |rest| ensures rest[i] != rest[j] {
        assert s[i + 1] != s[j + 1];
      }
      SumBump(f, g, rest, x, d);
      assert s[0] !in rest;
    }
  }

  // What lies in `t` but not in `s` may be left out of a sum when it carries nothing.
  lemma {:induction false} SumOverSubset<T>(f: T -> int, s: seq<T>, t: seq<T>)
    requires NoDuplicates(s) && NoDuplicates(t) && Elements(s) <= Elements(t)
    requires forall x :: x in Elements(t) - Elements(s) ==> f(x) == 0
    ensures Sum(f, s) == Sum(f, t)
  {
    if t == [] {
      if s != [] {
        InElements(s, s[0]);
        assert false;
      }
    } else {
      var x, rest := t[0], t[1..];
      NoDuplicatesTakeOut(t, 0);
      assert t[..0] + t[1..] == rest;
      hide NoDuplicates, Elements;
      InElements(s, x);
      InElements(t, x);
      if x in s {
        var i :| 0 <= i < |s| && s[i] == x;
        NoDuplicatesTakeOut(s, i);
        SumTakeOut(f, s, i);
        SumOverSubset(f, s[..i] + s[i + 1..], rest);
      } else {
        SumOverSubset(f, s, rest);
      }
    }
  }
}
