/**
  Strict orders, the byte-wise string order of Go, and sorting.

  Go's `sort.Strings` and `sort.Slice` are library calls: they are modelled by `Sort`, and
  `SortIsCanonical` shows that no other sorting algorithm could give a different answer.
 */
module Ordering {

  /** `a < b` for Go strings. On valid UTF-8 the byte order is the order of code points. */
  predicate StringLess(a: string, b: string) {
    if a == [] || b == [] then a == [] && b != []
    else a[0] < b[0] || (a[0] == b[0] && StringLess(a[1..], b[1..]))
  }

  ghost predicate StrictOrderOn<T(!new)>(less: (T, T) -> bool, s: set<T>) {
    && (forall a | a in s :: !less(a, a))
    && (forall a, b, c | a in s && b in s && c in s && less(a, b) && less(b, c) :: less(a, c))
    && (forall a, b | a in s && b in s :: a == b || less(a, b) || less(b, a))
  }

  /** Nothing precedes an element that stands before it. */
  ghost predicate SortedBy<T(!new)>(less: (T, T) -> bool, xs: seq<T>) {
    forall i, j | 0 <= i < j < |xs| :: !less(xs[j], xs[i])
  }

  /** Sorted, and no two elements are equal. */
  ghost predicate Chain<T(!new)>(less: (T, T) -> bool, xs: seq<T>) {
    forall i, j | 0 <= i < j < |xs| :: less(xs[i], xs[j])
  }

  ghost function Elements<T>(xs: seq<T>): set<T> {
    set x | x in xs
  }

  /** The elements of a set in some order. */
  ghost function Enumerate<T(!new)>(s: set<T>): (xs: seq<T>)
    ensures Elements(xs) == s && |xs| == |s|
    ensures forall i, j | 0 <= i < j < |xs| :: xs[i] != xs[j]
  {
    if s == {} then []
    else
      var x :| x in s;
      var rest := Enumerate(s - {x});
      assert forall y | y in rest :: y in Elements(rest);
      assert forall y :: y in [x] + rest <==> y == x || y in Elements(rest);
      [x] + rest
  }

  function Insert<T>(less: (T, T) -> bool, x: T, xs: seq<T>): seq<T> {
    if xs == [] || !less(xs[0], x) then [x] + xs else [xs[0]] + Insert(less, x, xs[1..])
  }

  function Sort<T>(less: (T, T) -> bool, xs: seq<T>): seq<T> {
    if xs == [] then [] else Insert(less, xs[0], Sort(less, xs[1..]))
  }

  lemma {:induction false} StringLessTransitive(a: string, b: string, c: string)
    requires StringLess(a, b) && StringLess(b, c)
    ensures StringLess(a, c)
  {
    if a != [] && a[0] == b[0] == c[0] {
      StringLessTransitive(a[1..], b[1..], c[1..]);
    }
  }

  lemma {:induction false} StringLessTotal(a: string, b: string)
    ensures !StringLess(a, a)
    ensures a == b || StringLess(a, b) || StringLess(b, a)
  {
    if a != [] {
      StringLessTotal(a[1..], if b == [] then [] else b[1..]);
      assert a == [a[0]] + a[1..];
      if b != [] {
        assert b == [b[0]] + b[1..];
      }
    }
  }

  /** The first difference decides: `a` and `b` agree up to `k`, and there `a` has the smaller character. */
  ghost predicate SmallerAt(a: string, b: string, k: nat) {
    k < |a| && k < |b| && a[k] < b[k] && forall i | 0 <= i < k :: a[i] == b[i]
  }

  /** Lexicographic order: a proper prefix comes first, and otherwise the first difference decides. */
  lemma {:induction false} StringLessIff(a: string, b: string)
    ensures StringLess(a, b) <==> a < b || exists k: nat :: SmallerAt(a, b, k)
  {
    if a != [] && b != [] {
      assert a == [a[0]] + a[1..] && b == [b[0]] + b[1..];
      if a[0] == b[0] {
        StringLessIff(a[1..], b[1..]);
        if k: nat :| SmallerAt(a[1..], b[1..], k) {
          forall i | 0 <= i < k + 1 ensures a[i] == b[i] {
            assert i > 0 ==> a[i] == a[1..][i - 1] && b[i] == b[1..][i - 1];
          }
          assert SmallerAt(a, b, k + 1);
        }
        if k: nat :| SmallerAt(a, b, k) {
          assert SmallerAt(a[1..], b[1..], k - 1);
        }
      } else if a[0] < b[0] {
        assert SmallerAt(a, b, 0);
      }
    }
  }

  lemma StringLessIsStrictOrder(s: set<string>)
    ensures StrictOrderOn(StringLess, s)
  {
    forall a, b ensures !StringLess(a, a) && (a == b || StringLess(a, b) || StringLess(b, a)) {
      StringLessTotal(a, b);
    }
    forall a, b, c | StringLess(a, b) && StringLess(b, c) ensures StringLess(a, c) {
      StringLessTransitive(a, b, c);
    }
  }

  lemma OrderOnSubset<T(!new)>(less: (T, T) -> bool, s: set<T>, t: set<T>)
    requires StrictOrderOn(less, s) && t <= s
    ensures StrictOrderOn(less, t)
  {
  }

  lemma OrderAsymmetric<T(!new)>(less: (T, T) -> bool, s: set<T>, a: T, b: T)
    requires StrictOrderOn(less, s) && a in s && b in s && less(a, b)
    ensures !less(b, a)
  {
  }

  lemma PrependSorted<T(!new)>(less: (T, T) -> bool, x: T, xs: seq<T>)
    requires SortedBy(less, xs) && forall k | 0 <= k < |xs| :: !less(xs[k], x)
    ensures SortedBy(less, [x] + xs)
  {
  }

  lemma {:induction false} InsertBag<T>(less: (T, T) -> bool, x: T, xs: seq<T>)
    ensures multiset(Insert(less, x, xs)) == multiset(xs) + multiset{x}
  {
    if xs != [] && less(xs[0], x) {
      InsertBag(less, x, xs[1..]);
      assert xs == [xs[0]] + xs[1..];
    }
  }

  lemma {:induction false} InsertSorts<T(!new)>(less: (T, T) -> bool, x: T, xs: seq<T>)
    requires SortedBy(less, xs)
    requires StrictOrderOn(less, Elements(xs) + {x})
    ensures SortedBy(less, Insert(less, x, xs))
  {
    if xs == [] {
    } else if !less(xs[0], x) {
      forall k | 0 <= k < |xs| ensures !less(xs[k], x) {
        assert xs[k] in Elements(xs);
        assert k == 0 || !less(xs[k], xs[0]);
      }
      PrependSorted(less, x, xs);
    } else {
      var rest := Insert(less, x, xs[1..]);
      var all := Elements(xs) + {x};
      OrderOnSubset(less, all, Elements(xs[1..]) + {x});
      InsertSorts(less, x, xs[1..]);
      forall k | 0 <= k < |rest| ensures !less(rest[k], xs[0]) {
        InsertMember(less, x, xs[1..], k);
        OrderAsymmetric(less, all, xs[0], x);
      }
      PrependSorted(less, xs[0], rest);
    }
  }

  lemma InsertMember<T>(less: (T, T) -> bool, x: T, xs: seq<T>, k: nat)
    requires k < |Insert(less, x, xs)|
    ensures Insert(less, x, xs)[k] == x || Insert(less, x, xs)[k] in xs
  {
    InsertBag(less, x, xs);
    assert Insert(less, x, xs)[k] in multiset(Insert(less, x, xs));
  }

  lemma {:induction false} SortSorts<T(!new)>(less: (T, T) -> bool, xs: seq<T>)
    requires StrictOrderOn(less, Elements(xs))
    ensures SortedBy(less, Sort(less, xs))
    ensures multiset(Sort(less, xs)) == multiset(xs)
  {
    if xs != [] {
      assert xs == [xs[0]] + xs[1..];
      assert Elements(xs[1..]) <= Elements(xs);
      SortSorts(less, xs[1..]);
      SameElements(Sort(less, xs[1..]), xs[1..]);
      assert Elements(xs[1..]) + {xs[0]} == Elements(xs);
      InsertSorts(less, xs[0], Sort(less, xs[1..]));
      InsertBag(less, xs[0], Sort(less, xs[1..]));
    }
  }

  lemma SameElements<T>(xs: seq<T>, ys: seq<T>)
    requires multiset(xs) == multiset(ys)
    ensures Elements(xs) == Elements(ys) && |xs| == |ys|
  {
    assert |multiset(xs)| == |xs| && |multiset(ys)| == |ys|;
    forall x ensures x in xs <==> x in ys {
      assert x in xs <==> x in multiset(xs);
      assert x in ys <==> x in multiset(ys);
    }
  }

  /** There is one sorted arrangement of a bag of elements. */
  lemma {:induction false} SortedIsUnique<T(!new)>(less: (T, T) -> bool, xs: seq<T>, ys: seq<T>)
    requires multiset(xs) == multiset(ys)
    requires StrictOrderOn(less, Elements(xs))
    requires SortedBy(less, xs) && SortedBy(less, ys)
    ensures xs == ys
  {
    SameElements(xs, ys);
    if xs != [] {
      SameHead(less, xs, ys);
      TailBag(xs);
      TailBag(ys);
      OrderOnSubset(less, Elements(xs), Elements(xs[1..]));
      SortedIsUnique(less, xs[1..], ys[1..]);
    }
  }

  lemma SameHead<T(!new)>(less: (T, T) -> bool, xs: seq<T>, ys: seq<T>)
    requires StrictOrderOn(less, Elements(xs)) && Elements(xs) == Elements(ys)
    requires xs != [] && ys != [] && SortedBy(less, xs) && SortedBy(less, ys)
    ensures xs[0] == ys[0]
  {
    assert xs[0] in Elements(ys) && ys[0] in Elements(xs);
    var i :| 0 <= i < |xs| && xs[i] == ys[0];
    var j :| 0 <= j < |ys| && ys[j] == xs[0];
    assert i == 0 || !less(xs[i], xs[0]);
    assert j == 0 || !less(ys[j], ys[0]);
  }

  lemma TailBag<T>(xs: seq<T>)
    requires xs != []
    ensures multiset(xs[1..]) == multiset(xs) - multiset{xs[0]}
    ensures xs == [xs[0]] + xs[1..]
  {
    assert xs == [xs[0]] + xs[1..];
  }

  /** Any algorithm that returns a sorted rearrangement of `xs` returns `Sort(less, xs)`. */
  lemma SortIsCanonical<T(!new)>(less: (T, T) -> bool, xs: seq<T>, answer: seq<T>)
    requires StrictOrderOn(less, Elements(xs))
    requires multiset(answer) == multiset(xs) && SortedBy(less, answer)
    ensures answer == Sort(less, xs)
  {
    SortSorts(less, xs);
    SameElements(answer, xs);
    SortedIsUnique(less, answer, Sort(less, xs));
  }

  lemma SortIgnoresOrder<T(!new)>(less: (T, T) -> bool, xs: seq<T>, ys: seq<T>)
    requires multiset(xs) == multiset(ys)
    requires StrictOrderOn(less, Elements(xs))
    ensures Sort(less, xs) == Sort(less, ys)
  {
    SameElements(xs, ys);
    SortSorts(less, xs);
    SortIsCanonical(less, ys, Sort(less, xs));
  }

  /** A sequence without repetition sorts into a chain over the same elements. */
  lemma SortDistinct<T(!new)>(less: (T, T) -> bool, xs: seq<T>)
    requires StrictOrderOn(less, Elements(xs))
    requires forall i, j | 0 <= i < j < |xs| :: xs[i] != xs[j]
    ensures Chain(less, Sort(less, xs))
    ensures Elements(Sort(less, xs)) == Elements(xs) && |Sort(less, xs)| == |xs|
  {
    SortSorts(less, xs);
    var ys := Sort(less, xs);
    SameElements(xs, ys);
    DistinctCounts(xs);
    CountsDistinct(ys);
    forall i, j | 0 <= i < j < |ys| ensures less(ys[i], ys[j]) {
      assert ys[i] in Elements(xs) && ys[j] in Elements(xs);
    }
  }

  lemma {:induction false} DistinctCounts<T>(xs: seq<T>)
    requires forall i, j | 0 <= i < j < |xs| :: xs[i] != xs[j]
    ensures forall x :: multiset(xs)[x] <= 1
  {
    if xs != [] {
      DistinctCounts(xs[1..]);
      assert xs == [xs[0]] + xs[1..];
      assert xs[0] !in multiset(xs[1..]);
    }
  }

  lemma CountsDistinct<T>(xs: seq<T>)
    requires forall x :: multiset(xs)[x] <= 1
    ensures forall i, j | 0 <= i < j < |xs| :: xs[i] != xs[j]
  {
    forall i, j | 0 <= i < j < |xs| ensures xs[i] != xs[j] {
      assert xs == xs[..j] + [xs[j]] + xs[j + 1..];
      assert xs[i] in multiset(xs[..j]) by {
        assert xs[..j][i] == xs[i];
      }
      assert multiset(xs) == multiset(xs[..j]) + multiset{xs[j]} + multiset(xs[j + 1..]);
      assert multiset(xs)[xs[i]] <= 1;
    }
  }

  /** Two chains over the same elements are the same sequence. */
  lemma {:induction false} ChainIsUnique<T(!new)>(less: (T, T) -> bool, xs: seq<T>, ys: seq<T>)
    requires StrictOrderOn(less, Elements(xs))
    requires Elements(xs) == Elements(ys)
    requires Chain(less, xs) && Chain(less, ys)
    ensures xs == ys
  {
    ChainSorted(less, xs);
    ChainSorted(less, ys);
    DistinctCounts(xs);
    DistinctCounts(ys);
    forall x ensures multiset(xs)[x] == multiset(ys)[x] {
      assert x in xs <==> x in Elements(xs);
      assert x in ys <==> x in Elements(ys);
      assert x in xs <==> x in multiset(xs);
      assert x in ys <==> x in multiset(ys);
    }
    SortedIsUnique(less, xs, ys);
  }

  lemma ChainSorted<T(!new)>(less: (T, T) -> bool, xs: seq<T>)
    requires StrictOrderOn(less, Elements(xs)) && Chain(less, xs)
    ensures SortedBy(less, xs)
    ensures forall i, j | 0 <= i < j < |xs| :: xs[i] != xs[j]
  {
    forall i, j | 0 <= i < j < |xs| ensures !less(xs[j], xs[i]) && xs[i] != xs[j] {
      assert less(xs[i], xs[j]);
      assert xs[i] in Elements(xs) && xs[j] in Elements(xs);
    }
  }

  // ---------- mapping ----------

  function Map<T, U>(f: T -> U, xs: seq<T>): (ys: seq<U>)
    ensures |ys| == |xs|
    ensures forall i | 0 <= i < |xs| :: ys[i] == f(xs[i])
  {
    seq(|xs|, i requires 0 <= i < |xs| => f(xs[i]))
  }

  lemma BagAround<T>(xs: seq<T>, j: nat)
    requires j < |xs|
    ensures multiset(xs) == multiset(xs[..j] + xs[j + 1..]) + multiset{xs[j]}
  {
    assert xs == xs[..j] + [xs[j]] + xs[j + 1..];
  }

  /** Mapping a rearrangement gives a rearrangement. */
  lemma {:induction false} MapRearranged<T, U>(f: T -> U, xs: seq<T>, ys: seq<T>)
    requires multiset(xs) == multiset(ys)
    ensures multiset(Map(f, xs)) == multiset(Map(f, ys))
    decreases |xs|
  {
    SameElements(xs, ys);
    if xs != [] {
      assert xs[0] in Elements(ys);
      var j :| 0 <= j < |ys| && ys[j] == xs[0];
      var rest := ys[..j] + ys[j + 1..];
      BagWithout(xs, ys, j);
      MapRearranged(f, xs[1..], rest);
      MapAround(f, xs, 0, xs[1..]);
      MapAround(f, ys, j, rest);
    }
  }

  lemma BagWithout<T>(xs: seq<T>, ys: seq<T>, j: nat)
    requires multiset(xs) == multiset(ys) && xs != [] && j < |ys| && ys[j] == xs[0]
    ensures multiset(xs[1..]) == multiset(ys[..j] + ys[j + 1..])
  {
    TailBag(xs);
    BagAround(ys, j);
  }

  lemma MapAround<T, U>(f: T -> U, xs: seq<T>, j: nat, rest: seq<T>)
    requires j < |xs| && rest == xs[..j] + xs[j + 1..]
    ensures multiset(Map(f, xs)) == multiset(Map(f, rest)) + multiset{f(xs[j])}
  {
    BagAround(Map(f, xs), j);
    assert Map(f, xs)[..j] + Map(f, xs)[j + 1..] == Map(f, rest);
  }
}
