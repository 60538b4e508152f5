/** All rearrangements of a list: the head is inserted at every position of every rearrangement of the tail. */
module Permutations {
  import opened Sequences

  function Factorial(n: nat): nat {
    if n == 0 then 1 else n * Factorial(n - 1)
  }

  function Insert<T>(s: seq<T>, i: nat, x: T): seq<T>
    requires i <= |s|
  {
    s[..i] + [x] + s[i..]
  }

  /** `x` inserted into `s` at each of the first `n` positions. */
  ghost function Inserts<T>(x: T, s: seq<T>, n: nat): seq<seq<T>>
    requires n <= |s| + 1
  {
    if n == 0 then [] else Inserts(x, s, n - 1) + [Insert(s, n - 1, x)]
  }

  ghost predicate HaveLength<T>(lists: seq<seq<T>>, n: nat) {
    forall i :: 0 <= i < |lists| ==> |lists[i]| == n
  }

  /** The same for each of the first `k` lists. */
  ghost function Expand<T>(x: T, lists: seq<seq<T>>, k: nat): seq<seq<T>>
    requires k <= |lists|
  {
    if k == 0 then [] else Expand(x, lists, k - 1) + Inserts(x, lists[k - 1], |lists[k - 1]| + 1)
  }

  ghost function Perms<T>(s: seq<T>): seq<seq<T>> {
    if |s| <= 1 then [s] else Expand(s[0], Perms(s[1..]), |Perms(s[1..])|)
  }

  /** Exactly the rearrangements of the input, and as many lists as there are ways to order it. */
  method Permutations<T>(input: seq<T>) returns (out: seq<seq<T>>)
    ensures out == Perms(input)
    ensures |out| == Factorial(|input|)
    ensures forall p :: p in out <==> multiset(p) == multiset(input)
    ensures NoDup(input) ==> NoDup(out)
    decreases |input|
  {
    if |input| > 1 {
      out := [];
      var item := input[0];
      var subLists := Permutations(input[1..]);
      PermsHaveLength(input[1..]);
      for k := 0 to |subLists|
        invariant out == Expand(item, subLists, k)
      {
        ghost var before := out;
        for i := 0 to |input|
          invariant out == before + Inserts(item, subLists[k], i)
        {
          out := out + [Insert(subLists[k], i, item)];
        }
      }
    } else {
      out := [input];
    }
    PermsCount(input);
    forall p ensures p in out <==> multiset(p) == multiset(input) {
      PermsMember(input, p);
    }
    if NoDup(input) {
      PermsDistinct(input);
    }
  }

  lemma {:induction false} PermsHaveLength<T>(s: seq<T>)
    ensures HaveLength(Perms(s), |s|)
  {
    if |s| > 1 {
      PermsHaveLength(s[1..]);
      ExpandHasLength(s[0], Perms(s[1..]), |Perms(s[1..])|, |s| - 1);
    }
  }

  lemma {:induction false} InsertsHaveLength<T>(x: T, s: seq<T>, n: nat)
    requires n <= |s| + 1
    ensures |Inserts(x, s, n)| == n && HaveLength(Inserts(x, s, n), |s| + 1)
  {
    if n > 0 {
      InsertsHaveLength(x, s, n - 1);
    }
  }

  lemma {:induction false} ExpandHasLength<T>(x: T, lists: seq<seq<T>>, k: nat, n: nat)
    requires k <= |lists| && HaveLength(lists, n)
    ensures |Expand(x, lists, k)| == k * (n + 1) && HaveLength(Expand(x, lists, k), n + 1)
  {
    if k > 0 {
      ExpandHasLength(x, lists, k - 1, n);
      InsertsHaveLength(x, lists[k - 1], n + 1);
      assert k * (n + 1) == (k - 1) * (n + 1) + (n + 1);
    }
  }

  lemma {:induction false} PermsCount<T>(s: seq<T>)
    ensures |Perms(s)| == Factorial(|s|)
  {
    if |s| > 1 {
      PermsCount(s[1..]);
      PermsHaveLength(s[1..]);
      ExpandHasLength(s[0], Perms(s[1..]), |Perms(s[1..])|, |s| - 1);
    } else {
      assert Factorial(1) == 1;
    }
  }

  // ----- which lists there are

  ghost predicate IsInsertOf<T>(p: seq<T>, x: T, s: seq<T>, n: nat) {
    exists i :: 0 <= i < n && i <= |s| && p == Insert(s, i, x)
  }

  lemma {:induction false} InsertsMember<T>(x: T, s: seq<T>, n: nat, p: seq<T>)
    requires n <= |s| + 1
    ensures p in Inserts(x, s, n) <==> IsInsertOf(p, x, s, n)
  {
    if n > 0 {
      InsertsMember(x, s, n - 1, p);
    }
  }

  ghost predicate IsInsertOfSome<T>(p: seq<T>, x: T, lists: seq<seq<T>>, k: nat)
    requires k <= |lists|
  {
    exists j :: 0 <= j < k && IsInsertOf(p, x, lists[j], |lists[j]| + 1)
  }

  lemma {:induction false} SomeOrLast<T>(p: seq<T>, x: T, lists: seq<seq<T>>, k: nat)
    requires 0 < k <= |lists|
    ensures IsInsertOfSome(p, x, lists, k) <==>
            IsInsertOfSome(p, x, lists, k - 1) || IsInsertOf(p, x, lists[k - 1], |lists[k - 1]| + 1)
  {
  }

  lemma {:induction false} ExpandMember<T>(x: T, lists: seq<seq<T>>, k: nat, p: seq<T>)
    requires k <= |lists|
    ensures p in Expand(x, lists, k) <==> IsInsertOfSome(p, x, lists, k)
  {
    if k > 0 {
      ExpandMember(x, lists, k - 1, p);
      InsertsMember(x, lists[k - 1], |lists[k - 1]| + 1, p);
      SomeOrLast(p, x, lists, k);
    }
  }

  lemma {:induction false} InsertMultiset<T>(s: seq<T>, i: nat, x: T)
    requires i <= |s|
    ensures multiset(Insert(s, i, x)) == multiset(s) + multiset{x}
  {
    assert s == s[..i] + s[i..];
  }

  /** Taking one occurrence of `x` out of `p` and putting it back. */
  lemma {:induction false} TakeOut<T>(p: seq<T>, x: T) returns (i: nat, rest: seq<T>)
    requires x in multiset(p)
    ensures i <= |rest| && p == Insert(rest, i, x) && multiset(rest) == multiset(p) - multiset{x}
  {
    assert x in p;
    i :| 0 <= i < |p| && p[i] == x;
    rest := p[..i] + p[i + 1..];
    assert p == Insert(rest, i, x);
    InsertMultiset(rest, i, x);
  }

  lemma {:induction false} PermsMember<T>(s: seq<T>, p: seq<T>)
    ensures p in Perms(s) <==> multiset(p) == multiset(s)
    decreases |s|, 1
  {
    if |s| <= 1 {
      ShortPerm(s, p);
    } else {
      if p in Perms(s) {
        PermIsRearrangement(s, p);
      }
      if multiset(p) == multiset(s) {
        RearrangementIsPerm(s, p);
      }
    }
  }

  lemma {:induction false} Inserted<T>(p: seq<T>, x: T, lists: seq<seq<T>>) returns (sub: seq<T>)
    requires p in Expand(x, lists, |lists|)
    ensures sub in lists && multiset(p) == multiset(sub) + multiset{x}
  {
    ExpandMember(x, lists, |lists|, p);
    var j :| 0 <= j < |lists| && IsInsertOf(p, x, lists[j], |lists[j]| + 1);
    sub := lists[j];
    var i :| 0 <= i <= |sub| && p == Insert(sub, i, x);
    InsertMultiset(sub, i, x);
  }

  lemma {:induction false} PermIsRearrangement<T>(s: seq<T>, p: seq<T>)
    requires |s| > 1 && p in Perms(s)
    ensures multiset(p) == multiset(s)
    decreases |s|, 0
  {
    assert s == [s[0]] + s[1..];
    var sub := Inserted(p, s[0], Perms(s[1..]));
    PermsMember(s[1..], sub);
  }

  lemma {:induction false} RearrangementIsPerm<T>(s: seq<T>, p: seq<T>)
    requires |s| > 1 && multiset(p) == multiset(s)
    ensures p in Perms(s)
    decreases |s|, 0
  {
    var x, subs := s[0], Perms(s[1..]);
    assert s == [x] + s[1..];
    assert x in multiset(s);
    var i, rest := TakeOut(p, x);
    assert multiset(rest) == multiset(s[1..]);
    PermsMember(s[1..], rest);
    var j :| 0 <= j < |subs| && subs[j] == rest;
    assert IsInsertOf(p, x, subs[j], |subs[j]| + 1);
    ExpandMember(x, subs, |subs|, p);
  }

  lemma {:induction false} ShortPerm<T>(s: seq<T>, p: seq<T>)
    requires |s| <= 1
    ensures p == s <==> multiset(p) == multiset(s)
  {
    if multiset(p) == multiset(s) {
      assert |p| == |multiset(p)| == |s|;
      if |s| == 1 {
        assert p == [p[0]] && s == [s[0]];
        assert p[0] in multiset(p);
      }
    }
  }

  // ----- where each list is

  lemma {:induction false} InsertsAt<T>(x: T, s: seq<T>, n: nat, i: nat)
    requires i < n <= |s| + 1
    ensures |Inserts(x, s, n)| == n && Inserts(x, s, n)[i] == Insert(s, i, x)
  {
    InsertsHaveLength(x, s, n);
    if i < n - 1 {
      InsertsAt(x, s, n - 1, i);
    } else {
      InsertsHaveLength(x, s, n - 1);
    }
  }

  /** The place of the `i`-th list in the `j`-th block of `n`. */
  function Place(j: nat, n: nat, i: nat): nat {
    j * n + i
  }

  lemma {:induction false} ExpandLast<T>(x: T, lists: seq<seq<T>>, j: nat, n: nat, i: nat)
    requires j < |lists| && HaveLength(lists, n) && i <= n
    ensures Place(j, n + 1, i) < |Expand(x, lists, j + 1)|
    ensures Expand(x, lists, j + 1)[Place(j, n + 1, i)] == Insert(lists[j], i, x)
  {
    ExpandHasLength(x, lists, j, n);
    InsertsAt(x, lists[j], n + 1, i);
  }

  lemma {:induction false} ExpandAt<T>(x: T, lists: seq<seq<T>>, k: nat, n: nat, j: nat, i: nat)
    requires k <= |lists| && HaveLength(lists, n) && j < k && i <= n
    ensures Place(j, n + 1, i) < |Expand(x, lists, k)|
    ensures Expand(x, lists, k)[Place(j, n + 1, i)] == Insert(lists[j], i, x)
  {
    if j < k - 1 {
      ExpandAt(x, lists, k - 1, n, j, i);
    } else {
      ExpandLast(x, lists, j, n, i);
    }
  }

  /** The head walks through the `j`-th rearrangement of the tail from the front to the end. */
  lemma {:induction false} PermAt<T>(s: seq<T>, j: nat, i: nat)
    requires |s| > 1 && j < |Perms(s[1..])| && i < |s|
    ensures j * |s| + i < |Perms(s)| && |Perms(s)[j * |s| + i]| == |s|
    ensures var p := Perms(s)[j * |s| + i]; p[i] == s[0] && p[..i] + p[i + 1..] == Perms(s[1..])[j]
  {
    var subs := Perms(s[1..]);
    PermsHaveLength(s[1..]);
    ExpandAt(s[0], subs, |subs|, |s| - 1, j, i);
    assert Place(j, |s|, i) == j * |s| + i;
    var p := Insert(subs[j], i, s[0]);
    assert p[..i] + p[i + 1..] == subs[j];
  }

  // ----- no list twice

  lemma {:induction false} InsertInjective<T>(a: seq<T>, i: nat, b: seq<T>, j: nat, x: T)
    requires i <= |a| && j <= |b| && x !in a && x !in b && Insert(a, i, x) == Insert(b, j, x)
    ensures i == j && a == b
  {
    var p := Insert(a, i, x);
    InsertAt(b, j, x, i);
    InsertAt(a, i, x, i);
    assert a == p[..i] + p[i + 1..] && b == p[..j] + p[j + 1..];
  }

  lemma {:induction false} InsertAt<T>(s: seq<T>, i: nat, x: T, k: nat)
    requires i <= |s| && k <= |s|
    ensures Insert(s, i, x)[k] == if k < i then s[k] else if k == i then x else s[k - 1]
  {
  }

  lemma {:induction false} NoDupJoin<T>(a: seq<T>, b: seq<T>)
    requires NoDup(a) && NoDup(b) && forall x :: x in a ==> x !in b
    ensures NoDup(a + b)
  {
    var c := a + b;
    forall i, j | 0 <= i < j < |c| ensures c[i] != c[j] {
      if i < |a| <= j {
        assert c[i] in a && c[j] in b;
      }
    }
  }

  lemma {:induction false} InsertsDistinct<T>(x: T, s: seq<T>, n: nat)
    requires n <= |s| + 1 && x !in s
    ensures NoDup(Inserts(x, s, n))
  {
    if n > 0 {
      InsertsDistinct(x, s, n - 1);
      var last := Insert(s, n - 1, x);
      if last in Inserts(x, s, n - 1) {
        InsertsMember(x, s, n - 1, last);
        var i :| 0 <= i < n - 1 && last == Insert(s, i, x);
        InsertInjective(s, i, s, n - 1, x);
      }
      NoDupJoin(Inserts(x, s, n - 1), [last]);
    }
  }

  lemma {:induction false} ExpandDistinct<T>(x: T, lists: seq<seq<T>>, k: nat)
    requires k <= |lists| && NoDup(lists) && forall i :: 0 <= i < |lists| ==> x !in lists[i]
    ensures NoDup(Expand(x, lists, k))
  {
    if k > 0 {
      ExpandDistinct(x, lists, k - 1);
      var s := lists[k - 1];
      InsertsDistinct(x, s, |s| + 1);
      var left, right := Expand(x, lists, k - 1), Inserts(x, s, |s| + 1);
      forall p | p in left ensures p !in right {
        ExpandMember(x, lists, k - 1, p);
        InsertsMember(x, s, |s| + 1, p);
        if IsInsertOf(p, x, s, |s| + 1) {
          var j :| 0 <= j < k - 1 && IsInsertOf(p, x, lists[j], |lists[j]| + 1);
          var i :| 0 <= i <= |lists[j]| && p == Insert(lists[j], i, x);
          var i' :| 0 <= i' <= |s| && p == Insert(s, i', x);
          InsertInjective(lists[j], i, s, i', x);
        }
      }
      NoDupJoin(left, right);
    }
  }

  lemma {:induction false} PermsDistinct<T>(s: seq<T>)
    requires NoDup(s)
    ensures NoDup(Perms(s))
  {
    if |s| > 1 {
      var x, subs := s[0], Perms(s[1..]);
      PermsDistinct(s[1..]);
      forall i | 0 <= i < |subs| ensures x !in subs[i] {
        assert subs[i] in subs;
        PermsMember(s[1..], subs[i]);
        assert x !in multiset(s[1..]);
        assert x !in multiset(subs[i]);
      }
      ExpandDistinct(x, subs, |subs|);
    }
  }
}
