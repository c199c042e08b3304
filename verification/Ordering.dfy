/** Python's orderings: strings by code point, and the stable `sort`. */
module Ordering {

  // ---------------------------------------------------------------- strings

  predicate LexLeq(a: string, b: string) {
    a == [] || (b != [] && (a[0] < b[0] || (a[0] == b[0] && LexLeq(a[1..], b[1..]))))
  }

  lemma {:induction false} LexTotal(a: string, b: string)
    ensures LexLeq(a, b) || LexLeq(b, a)
  {
    if a != [] && b != [] && a[0] == b[0] {
      LexTotal(a[1..], b[1..]);
    }
  }

  lemma {:induction false} LexAntisymmetric(a: string, b: string)
    requires LexLeq(a, b) && LexLeq(b, a)
    ensures a == b
  {
    if a != [] && b != [] {
      LexAntisymmetric(a[1..], b[1..]);
      assert a == [a[0]] + a[1..] && b == [b[0]] + b[1..];
    }
  }

  lemma {:induction false} LexTransitive(a: string, b: string, c: string)
    requires LexLeq(a, b) && LexLeq(b, c)
    ensures LexLeq(a, c)
  {
    if a != [] && a[0] == b[0] && b[0] == c[0] {
      LexTransitive(a[1..], b[1..], c[1..]);
    }
  }

  lemma LexOrder()
    ensures TotalPreorder(LexLeq)
    ensures forall a, b :: LexLeq(a, b) && LexLeq(b, a) ==> a == b
  {
    forall a, b ensures LexLeq(a, b) || LexLeq(b, a) { LexTotal(a, b); }
    forall a, b | LexLeq(a, b) && LexLeq(b, a) ensures a == b { LexAntisymmetric(a, b); }
    forall a, b, c | LexLeq(a, b) && LexLeq(b, c) ensures LexLeq(a, c) { LexTransitive(a, b, c); }
  }

  // ---------------------------------------------------------------- sorting

  ghost predicate TotalPreorder<T(!new)>(leq: (T, T) -> bool) {
    && (forall a, b :: leq(a, b) || leq(b, a))
    && (forall a, b, c :: leq(a, b) && leq(b, c) ==> leq(a, c))
  }

  ghost predicate Sorted<T>(s: seq<T>, leq: (T, T) -> bool) {
    forall i, j | 0 <= i < j < |s| :: leq(s[i], s[j])
  }

  /** `x` goes after everything it does not precede. */
  function Insert<T>(leq: (T, T) -> bool, s: seq<T>, x: T): seq<T> {
    if s == [] || leq(s[|s| - 1], x) then s + [x]
    else Insert(leq, s[..|s| - 1], x) + [s[|s| - 1]]
  }

  function Sort<T>(leq: (T, T) -> bool, s: seq<T>): seq<T> {
    if s == [] then [] else Insert(leq, Sort(leq, s[..|s| - 1]), s[|s| - 1])
  }

  lemma {:induction false} InsertMultiset<T>(leq: (T, T) -> bool, s: seq<T>, x: T)
    ensures multiset(Insert(leq, s, x)) == multiset(s) + multiset{x}
  {
    if s != [] && !leq(s[|s| - 1], x) {
      InsertMultiset(leq, s[..|s| - 1], x);
      assert s == s[..|s| - 1] + [s[|s| - 1]];
    }
  }

  lemma {:induction false} SortMultiset<T>(leq: (T, T) -> bool, s: seq<T>)
    ensures multiset(Sort(leq, s)) == multiset(s)
    ensures |Sort(leq, s)| == |s|
  {
    if s != [] {
      var front, last := s[..|s| - 1], s[|s| - 1];
      SortMultiset(leq, front);
      InsertMultiset(leq, Sort(leq, front), last);
      assert s == front + [last];
      assert |Sort(leq, s)| == |multiset(Sort(leq, s))| == |multiset(s)| == |s|;
    }
  }

  lemma {:induction false} InsertSorted<T(!new)>(leq: (T, T) -> bool, s: seq<T>, x: T)
    requires TotalPreorder(leq) && Sorted(s, leq)
    ensures Sorted(Insert(leq, s, x), leq)
  {
    if s != [] {
      var last, front := s[|s| - 1], s[..|s| - 1];
      InsertSorted(leq, front, x);
      if !leq(last, x) {
        var r := Insert(leq, front, x);
        InsertMultiset(leq, front, x);
        forall i | 0 <= i < |r| ensures leq(r[i], last) {
          assert r[i] in multiset(r);
          assert r[i] in multiset(front) + multiset{x};
          if r[i] != x {
            assert r[i] in front;
          }
        }
      }
    }
  }

  lemma {:induction false} SortSorted<T(!new)>(leq: (T, T) -> bool, s: seq<T>)
    requires TotalPreorder(leq)
    ensures Sorted(Sort(leq, s), leq)
  {
    if s != [] {
      SortSorted(leq, s[..|s| - 1]);
      InsertSorted(leq, Sort(leq, s[..|s| - 1]), s[|s| - 1]);
    }
  }

  /** No two different elements of the list are equally placed. */
  ghost predicate NoTies<T>(s: seq<T>, leq: (T, T) -> bool) {
    forall i, j | 0 <= i < |s| && 0 <= j < |s| && leq(s[i], s[j]) && leq(s[j], s[i]) :: s[i] == s[j]
  }

  lemma LastIsGreatest<T(!new)>(leq: (T, T) -> bool, s: seq<T>, x: T)
    requires TotalPreorder(leq) && Sorted(s, leq) && x in s
    ensures leq(x, s[|s| - 1])
  {
    assert leq(x, x);
  }

  lemma DropLast<T>(s: seq<T>)
    requires s != []
    ensures multiset(s[..|s| - 1]) == multiset(s) - multiset{s[|s| - 1]}
  {
    assert s == s[..|s| - 1] + [s[|s| - 1]];
  }

  lemma PrefixOrdered<T>(leq: (T, T) -> bool, s: seq<T>, n: nat)
    requires n <= |s|
    ensures Sorted(s, leq) ==> Sorted(s[..n], leq)
    ensures NoTies(s, leq) ==> NoTies(s[..n], leq)
  {
    assert forall i | 0 <= i < n :: s[..n][i] == s[i];
  }

  lemma SameLast<T(!new)>(leq: (T, T) -> bool, s: seq<T>, t: seq<T>)
    requires TotalPreorder(leq) && Sorted(s, leq) && Sorted(t, leq) && multiset(s) == multiset(t)
    requires s != [] && t != []
    requires NoTies(s, leq)
    ensures s[|s| - 1] == t[|t| - 1]
  {
    var a, b := s[|s| - 1], t[|t| - 1];
    assert a in multiset(t) && b in multiset(s);
    LastIsGreatest(leq, t, a);
    LastIsGreatest(leq, s, b);
    var i :| 0 <= i < |s| && s[i] == b;
    assert s[|s| - 1] == a;
  }

  lemma SameFrontAndLast<T>(s: seq<T>, t: seq<T>)
    requires s != [] && |s| == |t| && s[..|s| - 1] == t[..|t| - 1] && s[|s| - 1] == t[|t| - 1]
    ensures s == t
  {
    assert s == s[..|s| - 1] + [s[|s| - 1]];
    assert t == t[..|t| - 1] + [t[|t| - 1]];
  }

  /** When no two different elements tie, a sorted list is fixed by what it holds. */
  lemma {:induction false} SortedUnique<T(!new)>(leq: (T, T) -> bool, s: seq<T>, t: seq<T>)
    requires TotalPreorder(leq) && Sorted(s, leq) && Sorted(t, leq) && multiset(s) == multiset(t)
    requires NoTies(s, leq)
    ensures s == t
  {
    assert |s| == |multiset(s)| == |multiset(t)| == |t|;
    if s != [] {
      var n := |s| - 1;
      SameLast(leq, s, t);
      DropLast(s);
      DropLast(t);
      PrefixOrdered(leq, s, n);
      PrefixOrdered(leq, t, n);
      assert multiset(s[..n]) == multiset(t[..n]);
      SortedUnique(leq, s[..n], t[..n]);
      SameFrontAndLast(s, t);
    }
  }

  lemma SortOfSorted<T(!new)>(leq: (T, T) -> bool, s: seq<T>)
    requires TotalPreorder(leq) && Sorted(s, leq) && NoTies(s, leq)
    ensures Sort(leq, s) == s
  {
    SortSorted(leq, s);
    SortMultiset(leq, s);
    SortedUnique(leq, s, Sort(leq, s));
  }

  ghost predicate NoDuplicates<T>(s: seq<T>) {
    forall i, j | 0 <= i < j < |s| :: s[i] != s[j]
  }

  lemma {:induction false} NoDuplicatesMultiset<T>(s: seq<T>)
    ensures NoDuplicates(s) <==> forall x :: multiset(s)[x] <= 1
  {
    if s != [] {
      var front, last := s[..|s| - 1], s[|s| - 1];
      assert s == front + [last];
      NoDuplicatesMultiset(front);
      if NoDuplicates(s) {
        assert last !in front;
        forall x ensures multiset(s)[x] <= 1 {}
      } else if NoDuplicates(front) {
        var i, j :| 0 <= i < j < |s| && s[i] == s[j];
        assert j == |s| - 1 && last in front;
        assert multiset(s)[last] >= 2;
      } else {
        var x :| multiset(front)[x] > 1;
        assert multiset(s)[x] > 1;
      }
    }
  }

  // ---------------------------------------------------------------- picking

  /** The elements that `picks` picks, in their order. */
  function Only<T>(picks: T -> bool, s: seq<T>): seq<T> {
    if s == [] then []
    else Only(picks, s[..|s| - 1]) + if picks(s[|s| - 1]) then [s[|s| - 1]] else []
  }

  lemma {:induction false} OnlyHolds<T>(picks: T -> bool, s: seq<T>, x: T)
    ensures x in Only(picks, s) <==> x in s && picks(x)
  {
    if s != [] {
      OnlyHolds(picks, s[..|s| - 1], x);
    }
  }

  lemma {:induction false} OnlyDistinct<T>(picks: T -> bool, s: seq<T>)
    requires NoDuplicates(s)
    ensures NoDuplicates(Only(picks, s))
  {
    if s != [] {
      var front, last := s[..|s| - 1], s[|s| - 1];
      OnlyDistinct(picks, front);
      OnlyHolds(picks, front, last);
      assert last !in front;
    }
  }

  lemma {:induction false} OnlySorted<T>(leq: (T, T) -> bool, picks: T -> bool, s: seq<T>)
    requires Sorted(s, leq)
    ensures Sorted(Only(picks, s), leq)
  {
    if s != [] {
      var front, last := s[..|s| - 1], s[|s| - 1];
      var kept := Only(picks, front);
      OnlySorted(leq, picks, front);
      forall i | 0 <= i < |kept| ensures leq(kept[i], last) {
        OnlyHolds(picks, front, kept[i]);
        var k :| 0 <= k < |front| && front[k] == kept[i];
        assert s[k] == kept[i];
      }
    }
  }

  lemma OnlyAppend<T>(picks: T -> bool, s: seq<T>, x: T)
    ensures Only(picks, s + [x]) == Only(picks, s) + if picks(x) then [x] else []
  {
    assert (s + [x])[..|s|] == s;
  }

  lemma {:induction false} InsertOnly<T>(leq: (T, T) -> bool, picks: T -> bool, s: seq<T>, x: T)
    ensures |Only(picks, Insert(leq, s, x))| == |Only(picks, s)| + if picks(x) then 1 else 0
  {
    if s == [] || leq(s[|s| - 1], x) {
      OnlyAppend(picks, s, x);
    } else {
      InsertOnly(leq, picks, s[..|s| - 1], x);
      OnlyAppend(picks, Insert(leq, s[..|s| - 1], x), s[|s| - 1]);
    }
  }

  /** Sorting picks no element more or less. */
  lemma {:induction false} SortOnly<T>(leq: (T, T) -> bool, picks: T -> bool, s: seq<T>)
    ensures |Only(picks, Sort(leq, s))| == |Only(picks, s)|
  {
    if s != [] {
      SortOnly(leq, picks, s[..|s| - 1]);
      InsertOnly(leq, picks, Sort(leq, s[..|s| - 1]), s[|s| - 1]);
    }
  }
}
