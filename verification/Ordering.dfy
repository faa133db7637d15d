// Lexicographic order and the stable sort behind Python's `sorted`.
module Ordering {
  ghost predicate StrictTotal<T(!new)>(lt: (T, T) -> bool) {
    && (forall x :: !lt(x, x))
    && (forall x, y :: lt(x, y) || lt(y, x) || x == y)
    && (forall x, y, z :: lt(x, y) && lt(y, z) ==> lt(x, z))
  }

  // Every pair is comparable and comparison is transitive; different elements may tie.
  ghost predicate TotalPreorder<T(!new)>(le: (T, T) -> bool) {
    && (forall x, y :: le(x, y) || le(y, x))
    && (forall x, y, z :: le(x, y) && le(y, z) ==> le(x, z))
  }

  ghost predicate TotalOrder<T(!new)>(le: (T, T) -> bool) {
    && TotalPreorder(le)
    && (forall x, y :: le(x, y) && le(y, x) ==> x == y)
  }

  // Sequences compare element by element; a proper prefix comes first.
  predicate LexLe<T(==)>(lt: (T, T) -> bool, a: seq<T>, b: seq<T>) {
    a == [] || (b != [] && (lt(a[0], b[0]) || (a[0] == b[0] && LexLe(lt, a[1..], b[1..]))))
  }

  lemma {:induction false} LexTotal<T(!new)>(lt: (T, T) -> bool, a: seq<T>, b: seq<T>)
    requires StrictTotal(lt)
    ensures LexLe(lt, a, b) || LexLe(lt, b, a)
    ensures LexLe(lt, a, b) && LexLe(lt, b, a) ==> a == b
  {
    if a != [] && b != [] {
      LexTotal(lt, a[1..], b[1..]);
      if a[0] == b[0] {
        assert a == [a[0]] + a[1..] && b == [b[0]] + b[1..];
      }
    }
  }

  lemma {:induction false} LexTransitive<T(!new)>(lt: (T, T) -> bool, a: seq<T>, b: seq<T>, c: seq<T>)
    requires StrictTotal(lt)
    requires LexLe(lt, a, b) && LexLe(lt, b, c)
    ensures LexLe(lt, a, c)
  {
    if a != [] && a[0] == b[0] && b[0] == c[0] {
      LexTransitive(lt, a[1..], b[1..], c[1..]);
    }
  }

  // Sequence `a` comes before `b` at their first difference: it ends there, or its element is less.
  ghost predicate FirstDifference<T>(lt: (T, T) -> bool, a: seq<T>, b: seq<T>, i: nat) {
    i <= |a| && i <= |b| && a[..i] == b[..i] && (i == |a| || (i < |b| && lt(a[i], b[i])))
  }

  lemma {:induction false} LexMeans<T>(lt: (T, T) -> bool, a: seq<T>, b: seq<T>)
    ensures LexLe(lt, a, b) <==> exists i: nat :: FirstDifference(lt, a, b, i)
  {
    if a == [] {
      assert FirstDifference(lt, a, b, 0);
    } else if b != [] {
      LexMeans(lt, a[1..], b[1..]);
      if lt(a[0], b[0]) {
        assert FirstDifference(lt, a, b, 0);
      }
      forall i: nat | i > 0 ensures FirstDifference(lt, a, b, i) <==>
                                    a[0] == b[0] && FirstDifference(lt, a[1..], b[1..], i - 1)
      {
        DifferenceOneLater(lt, a, b, i);
      }
      if i: nat :| a[0] == b[0] && FirstDifference(lt, a[1..], b[1..], i) {
        assert FirstDifference(lt, a, b, i + 1);
      }
    }
  }

  lemma DifferenceOneLater<T>(lt: (T, T) -> bool, a: seq<T>, b: seq<T>, i: nat)
    requires a != [] && b != [] && i > 0
    ensures FirstDifference(lt, a, b, i) <==> a[0] == b[0] && FirstDifference(lt, a[1..], b[1..], i - 1)
  {
    if i <= |a| && i <= |b| {
      assert a[..i] == [a[0]] + a[1..][..i - 1] && b[..i] == [b[0]] + b[1..][..i - 1];
    }
  }

  // Python compares strings by code point.
  predicate CharLt(x: char, y: char) { x < y }

  predicate StrLe(a: string, b: string) { LexLe(CharLt, a, b) }

  // One string comes no later than another: it is a prefix of it, or has the smaller character where
  // they first differ.
  ghost predicate NoLater(a: string, b: string) {
    exists i: nat :: DiffersUpwards(a, b, i)
  }

  ghost predicate DiffersUpwards(a: string, b: string, i: nat) {
    i <= |a| && i <= |b| && a[..i] == b[..i] && (i == |a| || (i < |b| && a[i] < b[i]))
  }

  lemma StrLeMeans(a: string, b: string)
    ensures StrLe(a, b) <==> NoLater(a, b)
  {
    LexMeans(CharLt, a, b);
    forall i: nat ensures FirstDifference(CharLt, a, b, i) <==> DiffersUpwards(a, b, i) {
    }
  }

  // Pairs of strings, such as (record_type, record_key), compare as Python tuples.
  type Key = (string, string)

  predicate KeyLe(a: Key, b: Key) {
    if a.0 == b.0 then StrLe(a.1, b.1) else StrLe(a.0, b.0)
  }

  lemma StrLeIsTotalOrder()
    ensures TotalOrder(StrLe)
  {
    assert StrictTotal(CharLt);
    forall a, b ensures StrLe(a, b) || StrLe(b, a) ensures StrLe(a, b) && StrLe(b, a) ==> a == b {
      LexTotal(CharLt, a, b);
    }
    forall a, b, c | StrLe(a, b) && StrLe(b, c) ensures StrLe(a, c) {
      LexTransitive(CharLt, a, b, c);
    }
  }

  lemma KeyLeIsTotalOrder()
    ensures TotalOrder(KeyLe)
  {
    StrLeIsTotalOrder();
  }

  ghost predicate SortedBy<T>(le: (T, T) -> bool, s: seq<T>) {
    forall i, j :: 0 <= i < j < |s| ==> le(s[i], s[j])
  }

  function Insert<T>(le: (T, T) -> bool, x: T, s: seq<T>): seq<T> {
    if s == [] then [x]
    else if le(x, s[0]) then [x] + s
    else [s[0]] + Insert(le, x, s[1..])
  }

  // The stable sort: an element is inserted before the first one it may precede.
  function Sort<T>(le: (T, T) -> bool, s: seq<T>): seq<T> {
    if s == [] then [] else Insert(le, s[0], Sort(le, s[1..]))
  }

  lemma {:induction false} InsertIsPermutation<T>(le: (T, T) -> bool, x: T, s: seq<T>)
    ensures multiset(Insert(le, x, s)) == multiset{x} + multiset(s)
  {
    if s != [] {
      SplitHead(s);
      if !le(x, s[0]) {
        InsertIsPermutation(le, x, s[1..]);
      }
    }
  }

  lemma SplitHead<T>(s: seq<T>)
    requires s != []
    ensures multiset(s) == multiset{s[0]} + multiset(s[1..])
  {
    assert s == [s[0]] + s[1..];
  }

  lemma {:induction false} InsertKeepsSorted<T(!new)>(le: (T, T) -> bool, x: T, s: seq<T>)
    requires TotalPreorder(le) && SortedBy(le, s)
    ensures SortedBy(le, Insert(le, x, s))
  {
    if s == [] {
    } else if le(x, s[0]) {
      forall i | 0 <= i < |s| ensures le(x, s[i]) {
        assert i == 0 || le(s[0], s[i]);
      }
    } else {
      var rest := Insert(le, x, s[1..]);
      InsertKeepsSorted(le, x, s[1..]);
      InsertIsPermutation(le, x, s[1..]);
      forall i | 0 <= i < |rest| ensures le(s[0], rest[i]) {
        assert rest[i] in multiset{x} + multiset(s[1..]);
        if rest[i] != x {
          var j :| 0 <= j < |s[1..]| && s[1..][j] == rest[i];
          assert s[j + 1] == rest[i];
        }
      }
    }
  }

  lemma {:induction false} SortProperties<T(!new)>(le: (T, T) -> bool, s: seq<T>)
    requires TotalPreorder(le)
    ensures SortedBy(le, Sort(le, s))
    ensures multiset(Sort(le, s)) == multiset(s)
    ensures |Sort(le, s)| == |s|
  {
    hide TotalPreorder, SortedBy, Insert;
    if s != [] {
      SortProperties(le, s[1..]);
      InsertIsPermutation(le, s[0], Sort(le, s[1..]));
      InsertKeepsSorted(le, s[0], Sort(le, s[1..]));
      SplitHead(s);
    } else {
      NothingIsSorted(le);
    }
    BagSize(s);
    BagSize(Sort(le, s));
  }

  lemma NothingIsSorted<T>(le: (T, T) -> bool)
    ensures SortedBy(le, [])
  {
  }

  lemma BagSize<T>(s: seq<T>)
    ensures |multiset(s)| == |s|
  {
  }

  // The last of the sorted elements is the greatest.
  lemma LastIsGreatest<T(!new)>(le: (T, T) -> bool, s: seq<T>)
    requires TotalPreorder(le)
    ensures |Sort(le, s)| == |s|
    ensures s != [] ==> Sort(le, s)[|s| - 1] in s && forall x :: x in s ==> le(x, Sort(le, s)[|s| - 1])
  {
    SortProperties(le, s);
    var sorted := Sort(le, s);
    hide Sort;
    if s != [] {
      var last := sorted[|s| - 1];
      assert last in multiset(sorted);
      forall x | x in s ensures le(x, last) {
        assert x in multiset(sorted);
        var i :| 0 <= i < |sorted| && sorted[i] == x;
        assert i == |s| - 1 || le(sorted[i], sorted[|s| - 1]);
      }
    }
  }

  // No two different elements of the sequence tie.
  ghost predicate TieFree<T>(le: (T, T) -> bool, s: seq<T>) {
    forall i, j :: 0 <= i < |s| && 0 <= j < |s| && le(s[i], s[j]) && le(s[j], s[i]) ==> s[i] == s[j]
  }

  lemma SortedHead<T(!new)>(le: (T, T) -> bool, s: seq<T>, t: seq<T>)
    requires SortedBy(le, s) && SortedBy(le, t) && TieFree(le, s)
    requires multiset(s) == multiset(t) && s != [] && t != []
    ensures s[0] == t[0]
  {
    assert s[0] in multiset(t) && t[0] in multiset(s);
    var i :| 0 <= i < |t| && t[i] == s[0];
    var j :| 0 <= j < |s| && s[j] == t[0];
    if i > 0 && j > 0 {
      assert le(t[0], t[i]) && le(s[0], s[j]);
    }
  }

  // Two sorted listings of the same elements are the same listing when nothing ties.
  lemma {:induction false} SortedUnique<T(!new)>(le: (T, T) -> bool, s: seq<T>, t: seq<T>)
    requires SortedBy(le, s) && SortedBy(le, t) && TieFree(le, s)
    requires multiset(s) == multiset(t)
    ensures s == t
  {
    hide SortedBy, TieFree;
    assert |multiset(s)| == |s| && |multiset(t)| == |t|;
    if s != [] {
      SortedHead(le, s, t);
      SortedTail(le, s);
      SortedTail(le, t);
      SameTails(s, t);
      SortedUnique(le, s[1..], t[1..]);
    }
  }

  lemma SortedTail<T>(le: (T, T) -> bool, s: seq<T>)
    requires s != [] && SortedBy(le, s)
    ensures SortedBy(le, s[1..]) && (TieFree(le, s) ==> TieFree(le, s[1..]))
  {
  }

  lemma SameTails<T>(s: seq<T>, t: seq<T>)
    requires s != [] && t != [] && multiset(s) == multiset(t) && s[0] == t[0]
    ensures multiset(s[1..]) == multiset(t[1..]) && (s[1..] == t[1..] ==> s == t)
  {
    assert s == [s[0]] + s[1..] && t == [t[0]] + t[1..];
    assert multiset(s[1..]) == multiset(s) - multiset{s[0]} == multiset(t[1..]);
  }
}
