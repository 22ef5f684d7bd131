/** Concatenating what a function gives for each element of a sequence, in order or in reverse order. */
module Sequences {

  function FlatMap<T, U>(f: T -> seq<U>, s: seq<T>): seq<U>
  {
    if |s| == 0 then [] else f(s[0]) + FlatMap(f, s[1..])
  }

  lemma {:induction false} FlatMapAppend<T, U>(f: T -> seq<U>, a: seq<T>, b: seq<T>)
    ensures FlatMap(f, a + b) == FlatMap(f, a) + FlatMap(f, b)
  {
    if |a| == 0 {
      assert a + b == b;
    } else {
      assert (a + b)[0] == a[0] && (a + b)[1..] == a[1..] + b;
      FlatMapAppend(f, a[1..], b);
    }
  }

  /** Something is in the result exactly when it is in what `f` gives for some element. */
  lemma {:induction false} FlatMapMembership<T, U>(f: T -> seq<U>, s: seq<T>, x: U)
    ensures x in FlatMap(f, s) <==> exists i :: 0 <= i < |s| && x in f(s[i])
  {
    if |s| > 0 {
      FlatMapMembership(f, s[1..], x);
      if exists i :: 0 <= i < |s| && x in f(s[i]) {
        var i :| 0 <= i < |s| && x in f(s[i]);
        if i > 0 {
          assert s[1..][i - 1] == s[i];
        }
      }
      if x in FlatMap(f, s[1..]) {
        var i :| 0 <= i < |s[1..]| && x in f(s[1..][i]);
        assert s[1..][i] == s[i + 1];
      }
    }
  }

  /** When `f` gives one value per element, the result has one value per element, in order. */
  lemma {:induction false} FlatMapSingletons<T, U>(f: T -> seq<U>, s: seq<T>)
    requires forall i :: 0 <= i < |s| ==> |f(s[i])| == 1
    ensures |FlatMap(f, s)| == |s|
    ensures forall k :: 0 <= k < |s| ==> FlatMap(f, s)[k] == f(s[k])[0]
  {
    if |s| > 0 {
      assert forall i :: 0 <= i < |s| - 1 ==> s[1..][i] == s[i + 1];
      FlatMapSingletons(f, s[1..]);
    }
  }

  lemma FlatMapSingle<T, U>(f: T -> seq<U>, x: T)
    ensures FlatMap(f, [x]) == f(x)
  {
    assert [x][0] == x && [x][1..] == [];
    assert FlatMap(f, [x]) == f(x) + FlatMap(f, []);
  }

  /** What the element at `k` contributes sits between what comes before and after it. */
  lemma {:induction false} FlatMapAround<T, U>(f: T -> seq<U>, s: seq<T>, k: int)
    requires 0 <= k < |s|
    ensures FlatMap(f, s) == FlatMap(f, s[..k]) + (f(s[k]) + FlatMap(f, s[k + 1..]))
  {
    if k == 0 {
      assert s[..0] == [];
    } else {
      var t := s[1..];
      FlatMapAround(f, t, k - 1);
      assert t[..k - 1] == s[..k][1..] && t[k - 1] == s[k] && t[k..] == s[k + 1..];
      assert s[..k][0] == s[0];
    }
  }

  lemma FlatMapRemove<T, U>(f: T -> seq<U>, s: seq<T>, k: int)
    requires 0 <= k < |s|
    ensures multiset(FlatMap(f, s)) == multiset(FlatMap(f, s[..k] + s[k + 1..])) + multiset(f(s[k]))
  {
    FlatMapAround(f, s, k);
    FlatMapAppend(f, s[..k], s[k + 1..]);
    MultisetShuffle(FlatMap(f, s[..k]), f(s[k]), FlatMap(f, s[k + 1..]));
  }

  lemma MultisetShuffle<U>(l: seq<U>, x: seq<U>, r: seq<U>)
    ensures multiset(l + (x + r)) == multiset(l + r) + multiset(x)
  {
    assert multiset(l + (x + r)) == multiset(l) + (multiset(x) + multiset(r));
    assert multiset(l + r) == multiset(l) + multiset(r);
  }

  /** Taking out one occurrence of the first element of `a` from its permutation `b` leaves a
      permutation of the rest of `a`. */
  lemma MultisetRemoveAt<T>(a: seq<T>, b: seq<T>, k: int)
    requires multiset(a) == multiset(b) && |a| > 0 && 0 <= k < |b| && b[k] == a[0]
    ensures multiset(b[..k] + b[k + 1..]) == multiset(a[1..])
  {
    assert b == b[..k] + [b[k]] + b[k + 1..];
    assert multiset(b) == multiset(b[..k]) + multiset{b[k]} + multiset(b[k + 1..]);
    assert multiset(b[..k] + b[k + 1..]) == multiset(b[..k]) + multiset(b[k + 1..]);
    assert a == [a[0]] + a[1..];
    assert multiset(a[1..]) == multiset(a) - multiset{a[0]};
  }

  /** Rearranging the elements rearranges the result and changes nothing else. */
  lemma {:induction false} FlatMapPermutation<T, U>(f: T -> seq<U>, a: seq<T>, b: seq<T>)
    requires multiset(a) == multiset(b)
    ensures multiset(FlatMap(f, a)) == multiset(FlatMap(f, b))
    decreases |a|
  {
    if |a| == 0 {
      assert |multiset(b)| == 0;
    } else {
      assert a[0] in multiset(b);
      var k :| 0 <= k < |b| && b[k] == a[0];
      MultisetRemoveAt(a, b, k);
      FlatMapPermutation(f, a[1..], b[..k] + b[k + 1..]);
      FlatMapRemove(f, b, k);
      assert FlatMap(f, a) == f(a[0]) + FlatMap(f, a[1..]);
    }
  }

  /** The same pieces, last element's first: each element's piece goes in front of those before it. */
  function FlatMapReversed<T, U>(f: T -> seq<U>, s: seq<T>): seq<U>
  {
    if |s| == 0 then [] else FlatMapReversed(f, s[1..]) + f(s[0])
  }

  /** The last element's piece leads, ahead of all the others. */
  lemma {:induction false} FlatMapReversedLast<T, U>(f: T -> seq<U>, s: seq<T>, x: T)
    ensures FlatMapReversed(f, s + [x]) == f(x) + FlatMapReversed(f, s)
  {
    if |s| == 0 {
      assert s + [x] == [x] && [x][1..] == [];
    } else {
      var t := s + [x];
      assert t[0] == s[0] && t[1..] == s[1..] + [x];
      FlatMapReversedLast(f, s[1..], x);
    }
  }

  lemma {:induction false} FlatMapReversedMembership<T, U>(f: T -> seq<U>, s: seq<T>, x: U)
    ensures x in FlatMapReversed(f, s) <==> exists i :: 0 <= i < |s| && x in f(s[i])
  {
    if |s| > 0 {
      FlatMapReversedMembership(f, s[1..], x);
      if exists i :: 0 <= i < |s| && x in f(s[i]) {
        var i :| 0 <= i < |s| && x in f(s[i]);
        if i > 0 {
          assert s[1..][i - 1] == s[i];
        }
      }
      if x in FlatMapReversed(f, s[1..]) {
        var i :| 0 <= i < |s[1..]| && x in f(s[1..][i]);
        assert s[1..][i] == s[i + 1];
      }
    }
  }
}
