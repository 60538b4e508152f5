/** Facts about the elements of a sequence that several of the models share. */
module Sequences {

  /** No value occurs at two positions. */
  ghost predicate NoDup<T>(s: seq<T>) {
    forall i, j :: 0 <= i < j < |s| ==> s[i] != s[j]
  }

  ghost function Elements<T>(s: seq<T>): set<T> {
    if s == [] then {} else Elements(s[..|s| - 1]) + {s[|s| - 1]}
  }

  /** Duplicate-free, stated by counting; see `NoDupCard`. */
  ghost predicate Distinct<T>(s: seq<T>) {
    |Elements(s)| == |s|
  }

  /** The elements from position `j` on, counted. */
  ghost function From<T>(s: seq<T>, j: nat): multiset<T>
    requires j <= |s|
    decreases |s| - j
  {
    if j == |s| then multiset{} else multiset{s[j]} + From(s, j + 1)
  }

  lemma {:induction false} ElementsMember<T>(s: seq<T>, x: T)
    ensures x in Elements(s) <==> x in s
  {
    if s != [] {
      var n := |s| - 1;
      ElementsMember(s[..n], x);
      assert s == s[..n] + [s[n]];
    }
  }

  lemma {:induction false} ElementsTake<T>(s: seq<T>, k: nat)
    requires k < |s|
    ensures Elements(s[..k + 1]) == Elements(s[..k]) + {s[k]}
  {
    assert s[..k + 1][..k] == s[..k];
  }

  lemma {:induction false} ElementsPrefix<T>(s: seq<T>, k: nat)
    requires k <= |s|
    ensures Elements(s[..k]) <= Elements(s)
  {
    forall x | x in Elements(s[..k]) ensures x in Elements(s) {
      ElementsMember(s[..k], x);
      ElementsMember(s, x);
    }
  }

  lemma {:induction false} ElementsSnoc<T>(s: seq<T>, x: T)
    ensures Elements(s + [x]) == Elements(s) + {x}
    ensures Distinct(s) && x !in Elements(s) ==> Distinct(s + [x])
  {
    assert (s + [x])[..|s|] == s;
  }

  lemma {:induction false} PrefixTake<T>(a: seq<T>, b: seq<T>, k: nat)
    requires a <= b && k <= |a|
    ensures a[..k] == b[..k]
  {
  }

  lemma {:induction false} FromIsSuffix<T>(s: seq<T>, j: nat)
    requires j <= |s|
    ensures From(s, j) == multiset(s[j..])
    decreases |s| - j
  {
    if j < |s| {
      FromIsSuffix(s, j + 1);
      assert s[j..] == [s[j]] + s[j + 1..];
    }
  }

  lemma {:induction false} SubsetCard<T>(a: set<T>, b: set<T>)
    requires a <= b
    ensures |a| <= |b|
  {
    assert b == a + (b - a);
  }

  /** A sequence has as many elements as positions exactly when it has no duplicates. */
  lemma {:induction false} NoDupCard<T>(s: seq<T>)
    ensures |Elements(s)| <= |s|
    ensures NoDup(s) <==> Distinct(s)
  {
    if s != [] {
      var n := |s| - 1;
      NoDupCard(s[..n]);
      ElementsMember(s[..n], s[n]);
      assert NoDup(s) <==> NoDup(s[..n]) && s[n] !in s[..n];
    }
  }

  lemma {:induction false} NextIsNew<T>(s: seq<T>, k: nat)
    requires Distinct(s) && k < |s|
    ensures s[k] !in Elements(s[..k]) && s[k] in Elements(s)
  {
    NoDupCard(s);
    ElementsMember(s[..k], s[k]);
    ElementsMember(s, s[k]);
  }

  /** A duplicate-free sequence drawn from a finite set is no longer than the set is large. */
  lemma {:induction false} NoDupBound<T>(s: seq<T>, universe: set<T>)
    requires NoDup(s) && forall x :: x in s ==> x in universe
    ensures |s| <= |universe|
  {
    NoDupCard(s);
    forall x | x in Elements(s) ensures x in universe {
      ElementsMember(s, x);
    }
    SubsetCard(Elements(s), universe);
  }

  /** Two duplicate-free sequences with the same elements have the same multiset of elements. */
  lemma {:induction false} NoDupSameElements<T>(a: seq<T>, b: seq<T>)
    requires NoDup(a) && NoDup(b) && forall x :: x in a <==> x in b
    ensures multiset(a) == multiset(b) && |a| == |b|
  {
    NoDupBound(a, Elements(b)) by {
      forall x | x in a ensures x in Elements(b) { ElementsMember(b, x); }
    }
    NoDupBound(b, Elements(a)) by {
      forall x | x in b ensures x in Elements(a) { ElementsMember(a, x); }
    }
    NoDupCard(a);
    NoDupCard(b);
    forall x ensures multiset(a)[x] == multiset(b)[x] {
      NoDupCount(a, x);
      NoDupCount(b, x);
    }
  }

  lemma {:induction false} NoDupCount<T>(s: seq<T>, x: T)
    requires NoDup(s)
    ensures multiset(s)[x] == if x in s then 1 else 0
  {
    if s != [] {
      var n := |s| - 1;
      NoDupCount(s[..n], x);
      assert s == s[..n] + [s[n]];
    }
  }

  lemma {:induction false} NoDupSnoc<T>(s: seq<T>, x: T)
    requires NoDup(s) && x !in s
    ensures NoDup(s + [x])
  {
  }
}
