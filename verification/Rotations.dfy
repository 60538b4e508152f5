/** Whether one sequence is a rotation of another. */
module Rotations {
  import opened Wrappers

  ghost predicate IsRotationBy<T>(a: seq<T>, b: seq<T>, k: nat) {
    k < |a| && b == a[k..] + a[..k]
  }

  ghost predicate IsRotation<T>(a: seq<T>, b: seq<T>) {
    exists k: nat :: IsRotationBy(a, b, k)
  }

  /**
    Compares the second sequence with every window of the doubled first one that starts with its head item.
    On two empty sequences the head item does not exist and the lookup fails.
   */
  method IsRotated<T(==)>(seq1: seq<T>, seq2: seq<T>) returns (r: Option<bool>)
    ensures r.None? <==> seq1 == [] && seq2 == []
    ensures r.Some? ==> (r.value <==> IsRotation(seq1, seq2))
  {
    if |seq1| != |seq2| {
      return Some(false);
    }
    if seq2 == [] {
      return None;
    }
    var headItem := seq2[0];
    var startIndexes: seq<nat> := [];
    for index1 := 0 to |seq1|
      invariant forall i :: i in startIndexes <==> 0 <= i < index1 && seq1[i] == headItem
    {
      if seq1[index1] == headItem {
        startIndexes := startIndexes + [index1];
      }
    }
    var doubleSeq1 := seq1 + seq1;
    for n := 0 to |startIndexes|
      invariant forall m :: 0 <= m < n ==> !IsRotationBy(seq1, seq2, startIndexes[m])
    {
      var index1 := startIndexes[n];
      assert index1 in startIndexes;
      assert doubleSeq1[index1..index1 + |seq1|] == seq1[index1..] + seq1[..index1];
      if doubleSeq1[index1..index1 + |seq1|] == seq2 {
        assert IsRotationBy(seq1, seq2, index1);
        return Some(true);
      }
    }
    return Some(false);
  }

  /** A rotation moves every item `k` places, wrapping round. */
  ghost function Wrap(n: nat, k: nat, i: nat): nat
    requires k < n && i < n
  {
    if i + k < n then i + k else i + k - n
  }

  lemma {:induction false} WrapTwice(n: nat, k: nat, m: nat, i: nat)
    requires k < n && m < n && i < n
    ensures Wrap(n, k, Wrap(n, m, i)) == Wrap(n, Wrap(n, k, m), i)
  {
  }

  lemma {:induction false} RotationByIndex<T>(a: seq<T>, b: seq<T>, k: nat)
    requires k < |a|
    ensures IsRotationBy(a, b, k) <==>
              |b| == |a| && forall i {:trigger b[i]} :: 0 <= i < |a| ==> b[i] == a[Wrap(|a|, k, i)]
  {
    if |b| == |a| && forall i {:trigger b[i]} :: 0 <= i < |a| ==> b[i] == a[Wrap(|a|, k, i)] {
      var c := a[k..] + a[..k];
      forall i | 0 <= i < |a| ensures b[i] == c[i] {
      }
      assert b == c;
    }
  }

  lemma {:induction false} RotationReflexive<T>(a: seq<T>)
    requires a != []
    ensures IsRotation(a, a)
  {
    assert IsRotationBy(a, a, 0);
  }

  lemma {:induction false} RotationSymmetric<T>(a: seq<T>, b: seq<T>)
    requires IsRotation(a, b)
    ensures IsRotation(b, a)
  {
    var k: nat :| IsRotationBy(a, b, k);
    var k' := if k == 0 then 0 else |a| - k;
    RotationByIndex(a, b, k);
    RotationByIndex(b, a, k');
    assert IsRotationBy(b, a, k');
  }

  lemma {:induction false} RotationTransitive<T>(a: seq<T>, b: seq<T>, c: seq<T>)
    requires IsRotation(a, b) && IsRotation(b, c)
    ensures IsRotation(a, c)
  {
    var k: nat :| IsRotationBy(a, b, k);
    var m: nat :| IsRotationBy(b, c, m);
    RotationByIndex(a, b, k);
    RotationByIndex(b, c, m);
    var km := Wrap(|a|, k, m);
    forall i {:trigger c[i]} | 0 <= i < |a| ensures c[i] == a[Wrap(|a|, km, i)] {
      WrapTwice(|a|, k, m, i);
      assert c[i] == b[Wrap(|a|, m, i)];
    }
    RotationByIndex(a, c, km);
    assert IsRotationBy(a, c, km);
  }
}
