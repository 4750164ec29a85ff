/** The library sort the sources call: stable, by a comparison that answers below, at or above zero. */
module Sorting {

  /** No element twice. */
  ghost predicate Distinct<T>(s: seq<T>) {
    forall i, j :: 0 <= i < j < |s| ==> s[i] != s[j]
  }

  ghost predicate Ordering<T(!new)>(cmp: (T, T) -> int) {
    && (forall a, b :: cmp(a, b) <= 0 || cmp(b, a) <= 0)
    && (forall a, b, c :: cmp(a, b) <= 0 && cmp(b, c) <= 0 ==> cmp(a, c) <= 0)
  }

  /** Each element is at most its successor. */
  ghost predicate Ascending<T>(cmp: (T, T) -> int, s: seq<T>) {
    |s| <= 1 || (cmp(s[0], s[1]) <= 0 && Ascending(cmp, s[1..]))
  }

  function Insert<T>(cmp: (T, T) -> int, x: T, s: seq<T>): seq<T> {
    if s == [] then [x]
    else if cmp(x, s[0]) <= 0 then [x] + s
    else [s[0]] + Insert(cmp, x, s[1..])
  }

  function SortBy<T>(cmp: (T, T) -> int, s: seq<T>): seq<T> {
    if s == [] then [] else Insert(cmp, s[0], SortBy(cmp, s[1..]))
  }

  lemma {:induction false} InsertKeeps<T>(cmp: (T, T) -> int, x: T, s: seq<T>)
    ensures multiset(Insert(cmp, x, s)) == multiset(s) + multiset{x}
  {
    if s != [] {
      assert s == [s[0]] + s[1..];
      if cmp(x, s[0]) > 0 {
        InsertKeeps(cmp, x, s[1..]);
      }
    }
  }

  lemma {:induction false} SortKeeps<T>(cmp: (T, T) -> int, s: seq<T>)
    ensures multiset(SortBy(cmp, s)) == multiset(s)
    ensures |SortBy(cmp, s)| == |s|
  {
    if s != [] {
      assert s == [s[0]] + s[1..];
      SortKeeps(cmp, s[1..]);
      InsertKeeps(cmp, s[0], SortBy(cmp, s[1..]));
    }
    assert |SortBy(cmp, s)| == |multiset(SortBy(cmp, s))| == |multiset(s)| == |s|;
  }

  lemma {:induction false} InsertAscending<T(!new)>(cmp: (T, T) -> int, x: T, s: seq<T>)
    requires Ordering(cmp) && Ascending(cmp, s)
    ensures Ascending(cmp, Insert(cmp, x, s))
  {
    if s == [] {
    } else if cmp(x, s[0]) <= 0 {
      assert ([x] + s)[1..] == s;
    } else {
      var rest := Insert(cmp, x, s[1..]);
      InsertAscending(cmp, x, s[1..]);
      assert cmp(s[0], x) <= 0;
      assert ([s[0]] + rest)[1..] == rest;
    }
  }

  lemma {:induction false} SortAscending<T(!new)>(cmp: (T, T) -> int, s: seq<T>)
    requires Ordering(cmp)
    ensures Ascending(cmp, SortBy(cmp, s))
  {
    if s != [] {
      SortAscending(cmp, s[1..]);
      InsertAscending(cmp, s[0], SortBy(cmp, s[1..]));
    }
  }

  lemma {:induction false} HeadLeast<T(!new)>(cmp: (T, T) -> int, s: seq<T>, i: nat)
    requires Ordering(cmp) && Ascending(cmp, s) && i < |s|
    ensures cmp(s[0], s[i]) <= 0
    decreases i
  {
    if i == 0 {
      assert cmp(s[0], s[0]) <= 0;
    } else {
      HeadLeast(cmp, s[1..], i - 1);
    }
  }

  lemma {:induction false} AscendingPair<T(!new)>(cmp: (T, T) -> int, s: seq<T>, i: nat, j: nat)
    requires Ordering(cmp) && Ascending(cmp, s) && i <= j < |s|
    ensures cmp(s[i], s[j]) <= 0
    decreases i
  {
    if i == 0 {
      HeadLeast(cmp, s, j);
    } else {
      AscendingPair(cmp, s[1..], i - 1, j - 1);
    }
  }

  lemma SameElements<T>(s: seq<T>, t: seq<T>, x: T)
    requires multiset(s) == multiset(t)
    ensures x in s <==> x in t
  {
    assert x in s <==> x in multiset(s);
    assert x in t <==> x in multiset(t);
  }

  lemma SameTails<T>(s: seq<T>, t: seq<T>)
    requires s != [] && t != [] && s[0] == t[0] && multiset(s) == multiset(t)
    ensures multiset(s[1..]) == multiset(t[1..])
  {
    assert s == [s[0]] + s[1..] && t == [t[0]] + t[1..];
    assert multiset(s[1..]) == multiset(s) - multiset{s[0]};
    assert multiset(t[1..]) == multiset(t) - multiset{t[0]};
  }

  /** When no two different elements compare equal, two ascending arrangements of the same elements are one. */
  lemma {:induction false} AscendingUnique<T(!new)>(cmp: (T, T) -> int, s: seq<T>, t: seq<T>)
    requires Ordering(cmp) && Ascending(cmp, s) && Ascending(cmp, t) && multiset(s) == multiset(t)
    requires forall a, b :: a in s && b in s && cmp(a, b) <= 0 && cmp(b, a) <= 0 ==> a == b
    ensures s == t
  {
    assert |s| == |multiset(s)| == |multiset(t)| == |t|;
    if s != [] {
      SameElements(s, t, s[0]);
      SameElements(s, t, t[0]);
      var i :| 0 <= i < |t| && t[i] == s[0];
      var j :| 0 <= j < |s| && s[j] == t[0];
      HeadLeast(cmp, s, j);
      HeadLeast(cmp, t, i);
      SameTails(s, t);
      AscendingUnique(cmp, s[1..], t[1..]);
      assert s == [s[0]] + s[1..] && t == [t[0]] + t[1..];
    }
  }

  lemma AppearsTwice<T>(t: seq<T>, i: nat, j: nat)
    requires i < j < |t| && t[i] == t[j]
    ensures multiset(t)[t[i]] >= 2
  {
    assert t == t[..j] + [t[j]] + t[j + 1..];
    assert t[..j][i] == t[i];
    assert t[i] in multiset(t[..j]);
  }

  lemma AppearsOnce<T>(s: seq<T>, a: nat)
    requires a < |s| && forall b :: 0 <= b < |s| && b != a ==> s[b] != s[a]
    ensures multiset(s)[s[a]] == 1
  {
    assert s == s[..a] + [s[a]] + s[a + 1..];
    assert s[a] !in s[..a] && s[a] !in s[a + 1..];
    assert s[a] !in multiset(s[..a]) && s[a] !in multiset(s[a + 1..]);
  }
}
