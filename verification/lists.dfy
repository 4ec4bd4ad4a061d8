/**
 * The list update behind MongoDB's `$pull` with a plain value: every element
 * equal to the value is removed and the others keep their order.
 */
module Lists {

  function RemoveAll<T(==)>(s: seq<T>, x: T): (r: seq<T>)
    ensures x !in r
    ensures |r| <= |s|
  {
    if s == [] then [] else (if s[0] == x then [] else [s[0]]) + RemoveAll(s[1..], x)
  }

  /** Removing from a concatenation removes from each part, so the survivors keep their relative order. */
  lemma {:induction false} RemoveAllConcat<T>(a: seq<T>, b: seq<T>, x: T)
    ensures RemoveAll(a + b, x) == RemoveAll(a, x) + RemoveAll(b, x)
  {
    if a != [] {
      assert (a + b)[1..] == a[1..] + b;
      RemoveAllConcat(a[1..], b, x);
    } else {
      assert a + b == b;
    }
  }

  /** Every occurrence of `x` goes and every other element keeps its multiplicity. */
  lemma {:induction false} RemoveAllCount<T>(s: seq<T>, x: T, y: T)
    ensures multiset(RemoveAll(s, x))[y] == if y == x then 0 else multiset(s)[y]
  {
    if s != [] {
      assert s == [s[0]] + s[1..];
      RemoveAllCount(s[1..], x, y);
    }
  }

  /** A list without `x` is left as it is. */
  lemma {:induction false} RemoveAllAbsent<T>(s: seq<T>, x: T)
    requires x !in s
    ensures RemoveAll(s, x) == s
  {
    if s != [] {
      assert x !in s[1..];
      RemoveAllAbsent(s[1..], x);
      assert s == [s[0]] + s[1..];
    }
  }

  /** A second removal of the same value changes nothing. */
  lemma RemoveAllIdempotent<T>(s: seq<T>, x: T)
    ensures RemoveAll(RemoveAll(s, x), x) == RemoveAll(s, x)
  {
    RemoveAllAbsent(RemoveAll(s, x), x);
  }

  /** Removing `x` after appending copies of it is the same as removing it from the original. */
  lemma RemoveAllAfterAppend<T>(s: seq<T>, x: T, n: nat)
    ensures RemoveAll(s + seq(n, _ => x), x) == RemoveAll(s, x)
  {
    var tail := seq(n, _ => x);
    RemoveAllConcat(s, tail, x);
    assert x !in RemoveAll(tail, x);
    RemoveAllSame(tail, x);
  }

  lemma {:induction false} RemoveAllSame<T>(s: seq<T>, x: T)
    requires forall i :: 0 <= i < |s| ==> s[i] == x
    ensures RemoveAll(s, x) == []
  {
    if s != [] {
      RemoveAllSame(s[1..], x);
    }
  }
}
