/** `is_rotated` in rad_util.py. */
module Rotation {

  function Rotate<T>(s: seq<T>, k: nat): seq<T>
    requires k <= |s|
  {
    s[k..] + s[..k]
  }

  ghost predicate IsRotation<T>(a: seq<T>, b: seq<T>) {
    exists k :: 0 <= k < |a| && Rotate(a, k) == b
  }

  lemma RotationFrom<T>(a: seq<T>, k: nat)
    requires |a| > 0 && k <= |a|
    ensures IsRotation(a, Rotate(a, k))
  {
    if k == |a| {
      assert Rotate(a, k) == Rotate(a, 0);
    }
  }

  lemma RotationSymmetric<T>(a: seq<T>, b: seq<T>)
    requires IsRotation(a, b)
    ensures IsRotation(b, a)
  {
    var k :| 0 <= k < |a| && Rotate(a, k) == b;
    assert Rotate(b, |a| - k) == a;
    RotationFrom(b, |a| - k);
  }

  lemma RotateTwice<T>(a: seq<T>, j: nat, k: nat) returns (m: nat)
    requires j < |a| && k < |a|
    ensures m <= |a| && Rotate(Rotate(a, j), k) == Rotate(a, m)
  {
    var b := Rotate(a, j);
    if j + k <= |a| {
      m := j + k;
      assert b[k..] == a[m..] + a[..j];
      assert b[..k] == a[j..m];
      assert a[..m] == a[..j] + a[j..m];
    } else {
      m := j + k - |a|;
      assert b[k..] == a[m..j];
      assert b[..k] == a[j..] + a[..m];
      assert a[m..] == a[m..j] + a[j..];
    }
  }

  lemma RotationTransitive<T>(a: seq<T>, b: seq<T>, c: seq<T>)
    requires IsRotation(a, b) && IsRotation(b, c)
    ensures IsRotation(a, c)
  {
    var j :| 0 <= j < |a| && Rotate(a, j) == b;
    var k :| 0 <= k < |b| && Rotate(b, k) == c;
    var m := RotateTwice(a, j, k);
    RotationFrom(a, m);
  }

  /** An IndexError is what Python raises for `seq2[0]` when both sequences are empty. */
  datatype Answer = Known(value: bool) | IndexError

  method IsRotated<T(==)>(seq1: seq<T>, seq2: seq<T>) returns (r: Answer)
    ensures r.IndexError? <==> seq1 == [] && seq2 == []
    ensures r.Known? ==> (r.value <==> IsRotation(seq1, seq2))
  {
    if |seq1| != |seq2| {
      return Known(false);
    }
    if |seq2| == 0 {
      return IndexError;
    }
    var startIndexes: seq<nat> := [];
    var headItem := seq2[0];
    for index1 := 0 to |seq1|
      invariant forall k :: k in startIndexes <==> 0 <= k < index1 && seq1[k] == headItem
    {
      if seq1[index1] == headItem {
        startIndexes := startIndexes + [index1];
      }
    }
    var doubleSeq1 := seq1 + seq1;
    for i := 0 to |startIndexes|
      invariant forall j :: 0 <= j < i ==> startIndexes[j] < |seq1| && Rotate(seq1, startIndexes[j]) != seq2
    {
      var index1 := startIndexes[i];
      assert index1 in startIndexes;
      assert doubleSeq1[index1..index1 + |seq1|] == Rotate(seq1, index1);
      if doubleSeq1[index1..index1 + |seq1|] == seq2 {
        return Known(true);
      }
    }
    forall k | 0 <= k < |seq1| ensures Rotate(seq1, k) != seq2 {
      assert Rotate(seq1, k)[0] == seq1[k];
      if seq1[k] == headItem {
        assert k in startIndexes;
      }
    }
    return Known(false);
  }
}
