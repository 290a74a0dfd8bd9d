/** `permutations` of rad_util.py. */
module Permutations {
  import opened Sequences

  /** Python's `list.insert`. */
  function Inserted<T>(s: seq<T>, i: nat, item: T): seq<T>
    requires i <= |s|
  {
    s[..i] + [item] + s[i..]
  }

  /** `item` at each of the first `n` positions of `s`. */
  function Insertions<T>(s: seq<T>, item: T, n: nat): seq<seq<T>>
    requires n <= |s| + 1
  {
    seq(n, i requires 0 <= i < n => Inserted(s, i, item))
  }

  function InsertEverywhere<T>(lists: seq<seq<T>>, item: T): seq<seq<T>> {
    if lists == [] then []
    else
      var s := lists[|lists| - 1];
      InsertEverywhere(lists[..|lists| - 1], item) + Insertions(s, item, |s| + 1)
  }

  function Perms<T>(input: seq<T>): seq<seq<T>> {
    if |input| > 1 then InsertEverywhere(Perms(input[1..]), input[0]) else [input]
  }

  function Factorial(n: nat): nat {
    if n == 0 then 1 else n * Factorial(n - 1)
  }

  method Permutations<T>(input: seq<T>) returns (out: seq<seq<T>>)
    ensures out == Perms(input)
    decreases |input|
  {
    hide InsertEverywhere, Insertions, Inserted;
    out := [];
    if |input| > 1 {
      var item := input[0];
      NothingInserted(item);
      var subLists := Permutations(input[1..]);
      for k := 0 to |subLists|
        invariant out == InsertEverywhere(subLists[..k], item)
      {
        InsertOneMore(subLists, k, item);
        PermsLength(input[1..], subLists[k]);
        ghost var before := out;
        InsertionsStep(subLists[k], item, 0);
        for i := 0 to |input|
          invariant out == before + Insertions(subLists[k], item, i)
        {
          InsertionsStep(subLists[k], item, i);
          var newList := subLists[k];
          newList := Inserted(newList, i, item);
          out := out + [newList];
        }
      }
      assert subLists[..|subLists|] == subLists;
    } else {
      out := [input];
    }
  }

  lemma NothingInserted<T>(item: T)
    ensures InsertEverywhere([], item) == []
  {
  }

  lemma InsertOneMore<T>(lists: seq<seq<T>>, k: nat, item: T)
    requires k < |lists|
    ensures InsertEverywhere(lists[..k + 1], item)
            == InsertEverywhere(lists[..k], item) + Insertions(lists[k], item, |lists[k]| + 1)
  {
    assert lists[..k + 1][..k] == lists[..k];
  }

  lemma InsertionsStep<T>(s: seq<T>, item: T, i: nat)
    requires i <= |s|
    ensures Insertions(s, item, 0) == []
    ensures Insertions(s, item, i + 1) == Insertions(s, item, i) + [Inserted(s, i, item)]
  {
  }

  lemma {:induction false} InInsertEverywhere<T>(lists: seq<seq<T>>, item: T, p: seq<T>)
    ensures p in InsertEverywhere(lists, item) <==>
            exists k, i :: 0 <= k < |lists| && 0 <= i <= |lists[k]| && p == Inserted(lists[k], i, item)
    decreases |lists|
  {
    hide Inserted;
    if lists == [] {
    } else {
      var n := |lists| - 1;
      var front, s := lists[..n], lists[n];
      InInsertEverywhere(front, item, p);
      if k, i :| 0 <= k < |lists| && 0 <= i <= |lists[k]| && p == Inserted(lists[k], i, item) {
        if k == n {
          assert Insertions(s, item, |s| + 1)[i] == p;
        } else {
          assert front[k] == lists[k];
        }
      }
      if p in InsertEverywhere(front, item) {
        var k, i :| 0 <= k < |front| && 0 <= i <= |front[k]| && p == Inserted(front[k], i, item);
        assert lists[k] == front[k];
      } else if p in Insertions(s, item, |s| + 1) {
        var i :| 0 <= i <= |s| && p == Inserted(s, i, item);
        assert lists[n] == s;
      }
    }
  }

  lemma InsertedMultiset<T>(s: seq<T>, i: nat, item: T)
    requires i <= |s|
    ensures multiset(Inserted(s, i, item)) == multiset(s) + multiset{item}
  {
    assert s == s[..i] + s[i..];
  }

  lemma RemoveAt<T>(p: seq<T>, i: nat)
    requires i < |p|
    ensures Inserted(p[..i] + p[i + 1..], i, p[i]) == p
    ensures multiset(p[..i] + p[i + 1..]) + multiset{p[i]} == multiset(p)
  {
    InsertedMultiset(p[..i] + p[i + 1..], i, p[i]);
  }

  lemma {:induction false} PermsLength<T>(input: seq<T>, p: seq<T>)
    requires p in Perms(input)
    ensures |p| == |input|
  {
    PermsSound(input, p);
    assert |p| == |multiset(p)|;
  }

  lemma {:induction false} PermsSound<T>(input: seq<T>, p: seq<T>)
    requires p in Perms(input)
    ensures multiset(p) == multiset(input)
    decreases |input|
  {
    if |input| <= 1 {
    } else {
      var item, rest := input[0], input[1..];
      var subs := Perms(rest);
      assert input == [item] + rest;
      InInsertEverywhere(subs, item, p);
      hide Perms, InsertEverywhere, Inserted;
      var k, i :| 0 <= k < |subs| && 0 <= i <= |subs[k]| && p == Inserted(subs[k], i, item);
      assert subs[k] in subs;
      PermsSound(rest, subs[k]);
      InsertedMultiset(subs[k], i, item);
    }
  }

  /** Taking one occurrence of the first element out of a rearrangement leaves a rearrangement of the rest. */
  lemma TakeFirst<T>(input: seq<T>, p: seq<T>) returns (i: nat, q: seq<T>)
    requires |input| > 1 && multiset(p) == multiset(input)
    ensures i <= |q| && p == Inserted(q, i, input[0]) && multiset(q) == multiset(input[1..])
  {
    var item, rest := input[0], input[1..];
    hide Inserted;
    FirstOut(input);
    assert item in multiset(p);
    i :| 0 <= i < |p| && p[i] == item;
    q := p[..i] + p[i + 1..];
    RemoveAt(p, i);
    CancelOne(multiset(q), multiset(rest), item);
  }

  lemma CancelOne<T>(a: multiset<T>, b: multiset<T>, item: T)
    requires a + multiset{item} == b + multiset{item}
    ensures a == b
  {
    assert a == a + multiset{item} - multiset{item};
    assert b == b + multiset{item} - multiset{item};
  }

  lemma FirstOut<T>(s: seq<T>)
    requires s != []
    ensures multiset(s) == multiset{s[0]} + multiset(s[1..])
  {
    assert s == [s[0]] + s[1..];
  }

  lemma {:induction false} PermsComplete<T>(input: seq<T>, p: seq<T>)
    requires multiset(p) == multiset(input)
    ensures p in Perms(input)
    decreases |input|
  {
    if |input| > 1 {
      var subs := Perms(input[1..]);
      var i, q := TakeFirst(input, p);
      PermsComplete(input[1..], q);
      InInsertEverywhere(subs, input[0], p);
      hide InsertEverywhere, Inserted;
      var k :| 0 <= k < |subs| && subs[k] == q;
      assert p == Inserted(subs[k], i, input[0]);
    } else {
      SmallRearrangement(input, p);
    }
  }

  /** The result holds exactly the rearrangements of the input, equal elements included. */
  lemma PermsAreRearrangements<T>(input: seq<T>, p: seq<T>)
    ensures p in Perms(input) <==> multiset(p) == multiset(input)
  {
    if p in Perms(input) {
      PermsSound(input, p);
    }
    if multiset(p) == multiset(input) {
      PermsComplete(input, p);
    }
  }

  lemma SmallRearrangement<T>(input: seq<T>, p: seq<T>)
    requires |input| <= 1
    ensures multiset(p) == multiset(input) <==> p == input
  {
    if multiset(p) == multiset(input) {
      assert |p| == |multiset(p)| == |input|;
      if |p| == 1 {
        assert p[0] in multiset(p);
      }
    }
  }

  lemma {:induction false} InsertCount<T>(lists: seq<seq<T>>, item: T, n: nat)
    requires forall k :: 0 <= k < |lists| ==> |lists[k]| == n
    ensures |InsertEverywhere(lists, item)| == (n + 1) * |lists|
    decreases |lists|
  {
    if lists == [] {
    } else {
      InsertCount(lists[..|lists| - 1], item, n);
      assert (n + 1) * |lists| == (n + 1) * (|lists| - 1) + (n + 1);
    }
  }

  /** The lists come in order, each with the item at every position in turn. */
  lemma {:induction false} InsertedAt<T>(lists: seq<seq<T>>, item: T, n: nat, k: nat, i: nat)
    requires (forall l :: 0 <= l < |lists| ==> |lists[l]| == n) && k < |lists| && i <= n
    ensures (n + 1) * k + i < |InsertEverywhere(lists, item)|
    ensures InsertEverywhere(lists, item)[(n + 1) * k + i] == Inserted(lists[k], i, item)
    decreases |lists|
  {
    hide Inserted;
    var m := |lists| - 1;
    InsertCount(lists[..m], item, n);
    assert |InsertEverywhere(lists[..m], item)| == (n + 1) * m;
    if k == m {
    } else {
      InsertedAt(lists[..m], item, n, k, i);
    }
  }

  /** The permutations of the rest in order, the first element inserted at every position in turn. */
  lemma PermsInOrder<T>(input: seq<T>, k: nat, i: nat)
    requires |input| > 1 && k < |Perms(input[1..])| && i < |input|
    ensures |input| * k + i < |Perms(input)| && i <= |Perms(input[1..])[k]|
    ensures Perms(input)[|input| * k + i] == Inserted(Perms(input[1..])[k], i, input[0])
  {
    var subs := Perms(input[1..]);
    forall l | 0 <= l < |subs| ensures |subs[l]| == |input| - 1 {
      assert subs[l] in subs;
      PermsLength(input[1..], subs[l]);
    }
    hide InsertEverywhere, Inserted;
    InsertedAt(subs, input[0], |input| - 1, k, i);
  }

  /** There are n! of them. */
  lemma {:induction false} PermsCount<T>(input: seq<T>)
    ensures |Perms(input)| == Factorial(|input|)
    decreases |input|
  {
    if |input| > 1 {
      var subs := Perms(input[1..]);
      PermsCount(input[1..]);
      forall k | 0 <= k < |subs| ensures |subs[k]| == |input| - 1 {
        assert subs[k] in subs;
        PermsLength(input[1..], subs[k]);
      }
      InsertCount(subs, input[0], |input| - 1);
    } else {
      assert Factorial(1) == 1 * Factorial(0);
    }
  }

  lemma InsertedPosition<T>(s: seq<T>, i: nat, t: seq<T>, j: nat, item: T)
    requires item !in s && item !in t && i <= |s| && j <= |t| && Inserted(s, i, item) == Inserted(t, j, item)
    ensures i == j && s == t
  {
    var p := Inserted(s, i, item);
    OnlyThere(s, i, item);
    assert Inserted(t, j, item)[j] == item;
    assert s == p[..i] + p[i + 1..] && t == p[..j] + p[j + 1..];
  }

  lemma OnlyThere<T>(s: seq<T>, i: nat, item: T)
    requires item !in s && i <= |s|
    ensures forall k :: 0 <= k <= |s| && k != i ==> Inserted(s, i, item)[k] != item
  {
    forall k | 0 <= k <= |s| && k != i ensures Inserted(s, i, item)[k] != item {
      assert Inserted(s, i, item)[k] == s[if k < i then k else k - 1];
    }
  }

  lemma {:induction false} InsertDistinct<T>(lists: seq<seq<T>>, item: T)
    requires NoDup(lists) && forall k :: 0 <= k < |lists| ==> item !in lists[k]
    ensures NoDup(InsertEverywhere(lists, item))
    decreases |lists|
  {
    if lists == [] {
    } else {
      var n := |lists| - 1;
      var front, s := lists[..n], lists[n];
      InsertDistinct(front, item);
      var a, b := InsertEverywhere(front, item), Insertions(s, item, |s| + 1);
      forall i, j | 0 <= i < j < |b| ensures b[i] != b[j] {
        if b[i] == b[j] {
          InsertedPosition(s, i, s, j, item);
        }
      }
      forall i, j | 0 <= i < |a| && 0 <= j < |b| ensures a[i] != b[j] {
        assert a[i] in a;
        InInsertEverywhere(front, item, a[i]);
        var k, m :| 0 <= k < |front| && 0 <= m <= |front[k]| && a[i] == Inserted(front[k], m, item);
        if a[i] == b[j] {
          InsertedPosition(front[k], m, s, j, item);
        }
      }
    }
  }

  /** For distinct elements nothing is listed twice. */
  lemma {:induction false} PermsDistinct<T>(input: seq<T>)
    requires NoDup(input)
    ensures NoDup(Perms(input))
    decreases |input|
  {
    if |input| <= 1 {
    } else {
      var subs := Perms(input[1..]);
      PermsDistinct(input[1..]);
      forall k | 0 <= k < |subs| ensures input[0] !in subs[k] {
        assert subs[k] in subs;
        PermsSound(input[1..], subs[k]);
        assert input[0] !in multiset(input[1..]);
      }
      InsertDistinct(subs, input[0]);
    }
  }
}
