/** Sums of a weight over the elements of a sequence. */
module Sums {

  function Sum<T>(s: seq<T>, w: T -> int): int {
    if s == [] then 0 else w(s[0]) + Sum(s[1..], w)
  }

  function One(b: bool): int {
    if b then 1 else 0
  }

  lemma {:induction false} SumConcat<T>(a: seq<T>, b: seq<T>, w: T -> int)
    ensures Sum(a + b, w) == Sum(a, w) + Sum(b, w)
  {
    if a == [] {
      assert a + b == b;
    } else {
      assert (a + b)[1..] == a[1..] + b;
      SumConcat(a[1..], b, w);
    }
  }

  lemma SumOne<T>(x: T, w: T -> int)
    ensures Sum([x], w) == w(x)
  {
    assert Sum([x], w) == w(x) + Sum([x][1..], w);
  }

  lemma SumAppend<T>(s: seq<T>, x: T, w: T -> int)
    ensures Sum(s + [x], w) == Sum(s, w) + w(x)
  {
    SumConcat(s, [x], w);
    SumOne(x, w);
  }

  lemma SumSplit<T>(s: seq<T>, i: nat, w: T -> int)
    requires i < |s|
    ensures Sum(s, w) == Sum(s[..i], w) + w(s[i]) + Sum(s[i + 1..], w)
  {
    hide Sum;
    assert s == s[..i] + ([s[i]] + s[i + 1..]);
    SumConcat(s[..i], [s[i]] + s[i + 1..], w);
    SumConcat([s[i]], s[i + 1..], w);
    SumOne(s[i], w);
  }

  lemma SumUpdate<T>(s: seq<T>, i: nat, x: T, w: T -> int)
    requires i < |s|
    ensures Sum(s[i := x], w) == Sum(s, w) - w(s[i]) + w(x)
  {
    var t := s[i := x];
    SumSplit(s, i, w);
    SumSplit(t, i, w);
    assert t[..i] == s[..i] && t[i + 1..] == s[i + 1..];
  }

  lemma SumRemove<T>(s: seq<T>, i: nat, w: T -> int)
    requires i < |s|
    ensures Sum(s[..i] + s[i + 1..], w) == Sum(s, w) - w(s[i])
  {
    SumSplit(s, i, w);
    SumConcat(s[..i], s[i + 1..], w);
  }

  lemma SumInsert<T>(s: seq<T>, i: nat, x: T, w: T -> int)
    requires i <= |s|
    ensures Sum(s[..i] + [x] + s[i..], w) == Sum(s, w) + w(x)
  {
    assert s == s[..i] + s[i..];
    SumConcat(s[..i], s[i..], w);
    SumConcat(s[..i] + [x], s[i..], w);
    SumAppend(s[..i], x, w);
  }

  predicate NonNegative<T>(s: seq<T>, w: T -> int) {
    forall i | 0 <= i < |s| :: w(s[i]) >= 0
  }

  /** A sum of weights that are not negative covers each of them, and any two. */
  lemma {:induction false} SumCovers<T>(s: seq<T>, w: T -> int, i: nat, j: nat)
    requires NonNegative(s, w) && i < |s| && j < |s|
    ensures 0 <= w(s[i]) <= Sum(s, w)
    ensures i != j ==> w(s[i]) + w(s[j]) <= Sum(s, w)
  {
    SumSplit(s, i, w);
    SumNonNegative(s[..i], w);
    SumNonNegative(s[i + 1..], w);
    if j < i {
      SumCovers(s[..i], w, j, j);
    } else if i < j {
      assert s[i + 1..][j - i - 1] == s[j];
      SumCovers(s[i + 1..], w, j - i - 1, j - i - 1);
    }
  }

  lemma {:induction false} SumNonNegative<T>(s: seq<T>, w: T -> int)
    requires NonNegative(s, w)
    ensures Sum(s, w) >= 0
    ensures Sum(s, w) == 0 <==> forall i | 0 <= i < |s| :: w(s[i]) == 0
  {
    if s != [] {
      assert forall i | 0 <= i < |s[1..]| :: s[1..][i] == s[i + 1];
      SumNonNegative(s[1..], w);
      assert forall i | 0 < i < |s| :: s[i] == s[1..][i - 1];
    }
  }
}
