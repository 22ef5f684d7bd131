/**
 * The ordering Kotlin's `sorted()` puts strings in: ordinal comparison, character by character,
 * a proper prefix before any longer string; and a sort that produces that order.
 */
module LexOrder {

  /** `a` comes no later than `b`: at the first differing position `a` has the smaller character,
      or `a` is a prefix of `b`. */
  predicate LexLe(a: string, b: string)
  {
    |a| == 0 || (|b| > 0 && (a[0] < b[0] || (a[0] == b[0] && LexLe(a[1..], b[1..]))))
  }

  lemma {:induction false} LexLeReflexive(a: string)
    ensures LexLe(a, a)
  {
    if |a| > 0 {
      LexLeReflexive(a[1..]);
    }
  }

  lemma {:induction false} LexLeAntisymmetric(a: string, b: string)
    requires LexLe(a, b) && LexLe(b, a)
    ensures a == b
  {
    if |a| > 0 && |b| > 0 {
      LexLeAntisymmetric(a[1..], b[1..]);
      assert a == [a[0]] + a[1..];
      assert b == [b[0]] + b[1..];
    }
  }

  lemma {:induction false} LexLeTransitive(a: string, b: string, c: string)
    requires LexLe(a, b) && LexLe(b, c)
    ensures LexLe(a, c)
  {
    if |a| > 0 && |b| > 0 && |c| > 0 && a[0] == b[0] == c[0] {
      LexLeTransitive(a[1..], b[1..], c[1..]);
    }
  }

  lemma {:induction false} LexLeTotal(a: string, b: string)
    ensures LexLe(a, b) || LexLe(b, a)
  {
    if |a| > 0 && |b| > 0 && a[0] == b[0] {
      LexLeTotal(a[1..], b[1..]);
    }
  }

  /** A common prefix does not change how two strings compare. */
  lemma {:induction false} LexLeCommonPrefix(p: string, a: string, b: string)
    ensures LexLe(p + a, p + b) <==> LexLe(a, b)
  {
    if |p| == 0 {
      assert p + a == a && p + b == b;
    } else {
      assert (p + a)[1..] == p[1..] + a;
      assert (p + b)[1..] == p[1..] + b;
      assert (p + a)[0] == p[0] == (p + b)[0];
      LexLeCommonPrefix(p[1..], a, b);
    }
  }

  /** Different strings ordered one way are not ordered the other way. */
  lemma {:induction false} LexLeStrict(a: string, b: string)
    requires LexLe(a, b) && a != b
    ensures !LexLe(b, a)
  {
    if |a| > 0 && a[0] == b[0] {
      assert a == [a[0]] + a[1..] && b == [b[0]] + b[1..];
      LexLeStrict(a[1..], b[1..]);
    }
  }

  /** Every earlier element comes no later than every later one. */
  predicate Sorted(s: seq<string>)
  {
    forall i, j :: 0 <= i < j < |s| ==> LexLe(s[i], s[j])
  }

  /** `x` placed before the first element it does not come after. */
  function Insert(x: string, s: seq<string>): seq<string>
  {
    if |s| == 0 then [x]
    else if LexLe(x, s[0]) then [x] + s
    else [s[0]] + Insert(x, s[1..])
  }

  /** Insertion sort. */
  function Sort(s: seq<string>): seq<string>
  {
    if |s| == 0 then [] else Insert(s[0], Sort(s[1..]))
  }

  lemma {:induction false} InsertPermutation(x: string, s: seq<string>)
    ensures multiset(Insert(x, s)) == multiset(s) + multiset{x}
  {
    if |s| > 0 && !LexLe(x, s[0]) {
      InsertPermutation(x, s[1..]);
      assert s == [s[0]] + s[1..];
    }
  }

  /** An element no later than any element of a sorted sequence can be put in front of it. */
  lemma ConsSorted(x: string, s: seq<string>)
    requires Sorted(s) && forall y :: y in multiset(s) ==> LexLe(x, y)
    ensures Sorted([x] + s)
  {
    var r := [x] + s;
    forall i, j | 0 <= i < j < |r| ensures LexLe(r[i], r[j]) {
      if i == 0 {
        assert r[j] == s[j - 1] && s[j - 1] in multiset(s);
      }
    }
  }

  lemma {:induction false} InsertSorted(x: string, s: seq<string>)
    requires Sorted(s)
    ensures Sorted(Insert(x, s))
  {
    if |s| == 0 {
    } else if LexLe(x, s[0]) {
      forall y | y in multiset(s) ensures LexLe(x, y) {
        SortedHeadIsLeast(s, y);
        LexLeTransitive(x, s[0], y);
      }
      ConsSorted(x, s);
    } else {
      LexLeTotal(x, s[0]);
      var t := Insert(x, s[1..]);
      InsertSorted(x, s[1..]);
      InsertPermutation(x, s[1..]);
      assert s == [s[0]] + s[1..];
      forall y | y in multiset(t) ensures LexLe(s[0], y) {
        if y != x {
          assert y in multiset(s);
          SortedHeadIsLeast(s, y);
        }
      }
      ConsSorted(s[0], t);
    }
  }

  /** Sort returns its argument's elements, each as often as before, in sorted order. */
  lemma {:induction false} SortSortedPermutation(s: seq<string>)
    ensures Sorted(Sort(s))
    ensures multiset(Sort(s)) == multiset(s)
  {
    if |s| > 0 {
      SortSortedPermutation(s[1..]);
      InsertSorted(s[0], Sort(s[1..]));
      InsertPermutation(s[0], Sort(s[1..]));
      assert s == [s[0]] + s[1..];
    }
  }

  /** The least element of a sorted sequence comes first. */
  lemma SortedHeadIsLeast(s: seq<string>, y: string)
    requires Sorted(s) && y in multiset(s)
    ensures LexLe(s[0], y)
  {
    var k :| 0 <= k < |s| && s[k] == y;
    if k == 0 {
      LexLeReflexive(y);
    }
  }

  /** Sorted arrangements of the same multiset start with the same element. */
  lemma SortedHeadsAgree(a: seq<string>, b: seq<string>)
    requires Sorted(a) && Sorted(b) && multiset(a) == multiset(b) && |a| > 0
    ensures |b| > 0 && a[0] == b[0]
  {
    assert |multiset(b)| == |multiset(a)| == |a|;
    assert a[0] in multiset(b) && b[0] in multiset(a);
    SortedHeadIsLeast(a, b[0]);
    SortedHeadIsLeast(b, a[0]);
    LexLeAntisymmetric(a[0], b[0]);
  }

  /** Taking the same first element away from equal multisets leaves equal multisets. */
  lemma TailMultisets(a: seq<string>, b: seq<string>)
    requires multiset(a) == multiset(b) && |a| > 0 && |b| > 0 && a[0] == b[0]
    ensures multiset(a[1..]) == multiset(b[1..])
  {
    assert a == [a[0]] + a[1..];
    assert b == [b[0]] + b[1..];
    assert multiset(a[1..]) == multiset(a) - multiset{a[0]};
    assert multiset(b[1..]) == multiset(b) - multiset{b[0]};
  }

  /** There is only one sorted arrangement of a multiset of strings. */
  lemma {:induction false} SortedUnique(a: seq<string>, b: seq<string>)
    requires Sorted(a) && Sorted(b) && multiset(a) == multiset(b)
    ensures a == b
  {
    if |a| == 0 {
      assert |multiset(b)| == 0;
    } else {
      SortedHeadsAgree(a, b);
      TailMultisets(a, b);
      assert Sorted(a[1..]) && Sorted(b[1..]);
      SortedUnique(a[1..], b[1..]);
      assert a == [a[0]] + a[1..];
      assert b == [b[0]] + b[1..];
    }
  }

  /** Sorting gives the same result for any two arrangements of the same elements. */
  lemma SortIgnoresOrder(s: seq<string>, t: seq<string>)
    requires multiset(s) == multiset(t)
    ensures Sort(s) == Sort(t)
  {
    SortSortedPermutation(s);
    SortSortedPermutation(t);
    SortedUnique(Sort(s), Sort(t));
  }

  /** A sorted arrangement of the elements is what Sort returns. */
  lemma SortIsTheSortedPermutation(s: seq<string>, t: seq<string>)
    requires Sorted(t) && multiset(t) == multiset(s)
    ensures Sort(s) == t
  {
    SortSortedPermutation(s);
    SortedUnique(Sort(s), t);
  }

  /** Putting the same prefix in front of every element keeps a sorted sequence sorted. */
  lemma PrefixedSorted(p: string, s: seq<string>)
    requires Sorted(s)
    ensures Sorted(seq(|s|, i requires 0 <= i < |s| => p + s[i]))
  {
    var t := seq(|s|, i requires 0 <= i < |s| => p + s[i]);
    forall i, j | 0 <= i < j < |t| ensures LexLe(t[i], t[j]) {
      LexLeCommonPrefix(p, s[i], s[j]);
    }
  }

  /** Strings that agree before position `k` and differ there are ordered by their characters at `k`, strictly. */
  lemma {:induction false} LexLeFirstDifference(a: string, b: string, k: nat)
    requires k < |a| && k < |b| && a[..k] == b[..k] && a[k] < b[k]
    ensures LexLe(a, b) && !LexLe(b, a)
  {
    if k > 0 {
      assert a[0] == a[..k][0] == b[..k][0] == b[0];
      assert a[1..][..k - 1] == a[..k][1..] == b[..k][1..] == b[1..][..k - 1];
      LexLeFirstDifference(a[1..], b[1..], k - 1);
    }
  }

  /** No element occurs twice. */
  predicate Distinct(s: seq<string>)
  {
    forall i, j :: 0 <= i < j < |s| ==> s[i] != s[j]
  }

  /** An element not among the distinct elements of a sequence can be put in front of it. */
  lemma ConsDistinct(x: string, s: seq<string>)
    requires Distinct(s) && forall y :: y in multiset(s) ==> y != x
    ensures Distinct([x] + s)
  {
    var u := [x] + s;
    forall i, j | 0 <= i < j < |u| ensures u[i] != u[j] {
      if i == 0 {
        assert u[j] == s[j - 1] && s[j - 1] in multiset(s);
      }
    }
  }

  /** The sequence with every element that equals its predecessor left out. */
  function DropRepeats(s: seq<string>): seq<string>
  {
    if |s| <= 1 then s
    else if s[0] == s[1] then DropRepeats(s[1..])
    else [s[0]] + DropRepeats(s[1..])
  }

  /** Dropping repeats loses no element and adds none. */
  lemma {:induction false} DropRepeatsMembership(s: seq<string>, x: string)
    ensures x in DropRepeats(s) <==> x in s
  {
    if |s| > 1 {
      DropRepeatsMembership(s[1..], x);
      assert s == [s[0]] + s[1..];
      assert s[1..][0] == s[1];
    }
  }

  /** The first element is always kept. */
  lemma {:induction false} DropRepeatsHead(s: seq<string>)
    requires |s| > 0
    ensures |DropRepeats(s)| > 0 && DropRepeats(s)[0] == s[0]
  {
    if |s| > 1 && s[0] == s[1] {
      DropRepeatsHead(s[1..]);
    }
  }

  /** Dropping the repeats of a sorted sequence leaves it sorted, with every element once. */
  lemma {:induction false} DropRepeatsSorted(s: seq<string>)
    requires Sorted(s)
    ensures Sorted(DropRepeats(s)) && Distinct(DropRepeats(s))
  {
    if |s| > 1 {
      var t := s[1..];
      var r := DropRepeats(t);
      assert Sorted(t);
      DropRepeatsSorted(t);
      if s[0] != s[1] {
        LexLeStrict(s[0], s[1]);
        forall y | y in multiset(r) ensures LexLe(s[0], y) && y != s[0] {
          DropRepeatsMembership(t, y);
          assert t[0] == s[1];
          SortedHeadIsLeast(t, y);
        }
        ConsSorted(s[0], r);
        ConsDistinct(s[0], r);
      }
    }
  }

  /** A sequence without adjacent repeats is left as it is. */
  lemma {:induction false} DropRepeatsWithoutRepeats(s: seq<string>)
    requires forall k :: 0 <= k < |s| - 1 ==> s[k] != s[k + 1]
    ensures DropRepeats(s) == s
  {
    if |s| > 1 {
      DropRepeatsWithoutRepeats(s[1..]);
      assert s == [s[0]] + s[1..];
    }
  }
}
