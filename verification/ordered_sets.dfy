/** A `BTreeSet` is modelled as a sequence kept strictly increasing under a
    strict total order `lt`: iterating the set visits the sequence from left
    to right, and two sets are equal exactly when their sequences are. */
module OrderedSets {
  import opened Wrappers

  ghost predicate StrictTotalOrder<T(!new)>(lt: (T, T) -> bool)
  {
    && (forall x :: !lt(x, x))
    && (forall x, y, z :: lt(x, y) && lt(y, z) ==> lt(x, z))
    && (forall x, y :: x != y ==> lt(x, y) || lt(y, x))
  }

  /** Strictly increasing, hence also free of duplicates. */
  ghost predicate Sorted<T>(lt: (T, T) -> bool, s: seq<T>)
  {
    forall i, j :: 0 <= i < j < |s| ==> lt(s[i], s[j])
  }

  /** The set a sequence stands for. */
  function Elems<T>(s: seq<T>): set<T>
  {
    set x | x in s
  }

  /** `BTreeSet::insert`: adds `x` at its place in the order, or leaves the
      set as it is when `x` is already there. */
  function Insert<T(==,!new)>(lt: (T, T) -> bool, s: seq<T>, x: T): (r: seq<T>)
    requires StrictTotalOrder(lt) && Sorted(lt, s)
    ensures Sorted(lt, r)
    ensures Elems(r) == Elems(s) + {x}
    ensures x in s ==> r == s
    ensures x !in s ==> |r| == |s| + 1
  {
    if |s| == 0 then [x]
    else if x == s[0] then s
    else if lt(x, s[0]) then [x] + s
    else
      var rest := Insert(lt, s[1..], x);
      assert lt(s[0], x);
      assert forall y :: y in rest ==> lt(s[0], y) by {
        forall y | y in rest ensures lt(s[0], y) {
          assert y in Elems(rest);
          if y != x {
            assert y in Elems(s[1..]);
          }
        }
      }
      assert s == [s[0]] + s[1..];
      [s[0]] + rest
  }

  /** Inserts every element of `xs` in turn. */
  function InsertAll<T(==,!new)>(lt: (T, T) -> bool, s: seq<T>, xs: seq<T>): (r: seq<T>)
    requires StrictTotalOrder(lt) && Sorted(lt, s)
    ensures Sorted(lt, r)
    ensures Elems(r) == Elems(s) + Elems(xs)
    decreases |xs|
  {
    if |xs| == 0 then s
    else
      assert Elems(xs) == {xs[0]} + Elems(xs[1..]);
      InsertAll(lt, Insert(lt, s, xs[0]), xs[1..])
  }

  /** The elements satisfying `p`, in their original order (the
      `into_iter().filter(p).collect()` idiom). */
  function Filter<T(!new)>(s: seq<T>, p: T -> bool): (r: seq<T>)
    ensures forall x :: x in r <==> x in s && p(x)
    ensures |r| <= |s|
  {
    if |s| == 0 then []
    else if p(s[0]) then [s[0]] + Filter(s[1..], p)
    else Filter(s[1..], p)
  }

  lemma {:induction false} FilterSorted<T(!new)>(lt: (T, T) -> bool, s: seq<T>, p: T -> bool)
    requires Sorted(lt, s)
    ensures Sorted(lt, Filter(s, p))
  {
    if |s| > 0 {
      FilterSorted(lt, s[1..], p);
      assert forall y :: y in Filter(s[1..], p) ==> lt(s[0], y) by {
        forall y | y in Filter(s[1..], p) ensures lt(s[0], y) {
          var k :| 0 <= k < |s[1..]| && s[1..][k] == y;
          assert s[k + 1] == y;
        }
      }
    }
  }

  /** `iter().find(p)`: the first element, in sequence order, satisfying `p`. */
  function FindFirst<T(!new)>(s: seq<T>, p: T -> bool): (r: Option<T>)
    ensures r.None? <==> forall x :: x in s ==> !p(x)
    ensures r.Some? ==> r.value in s && p(r.value)
  {
    if |s| == 0 then None
    else if p(s[0]) then Some(s[0])
    else
      assert forall x :: x in s ==> x == s[0] || x in s[1..];
      FindFirst(s[1..], p)
  }

  /** In a sorted sequence the first match is the least match. */
  lemma {:induction false} FindFirstIsLeast<T(!new)>(lt: (T, T) -> bool, s: seq<T>, p: T -> bool)
    requires Sorted(lt, s)
    requires FindFirst(s, p).Some?
    ensures forall x :: x in s && p(x) && x != FindFirst(s, p).value ==> lt(FindFirst(s, p).value, x)
  {
    if !p(s[0]) {
      SortedTail(lt, s);
      FindFirstIsLeast(lt, s[1..], p);
      assert forall x :: x in s ==> x == s[0] || x in s[1..];
    } else {
      forall x | x in s && x != s[0] ensures lt(s[0], x) {
        var k :| 0 <= k < |s| && s[k] == x;
      }
    }
  }

  /** The tail of a sorted sequence is sorted. */
  lemma SortedTail<T>(lt: (T, T) -> bool, s: seq<T>)
    requires Sorted(lt, s) && |s| > 0
    ensures Sorted(lt, s[1..])
  {
  }

  /** Two sorted sequences holding the same elements are the same sequence:
      the order determines the representation of a set. */
  lemma {:induction false} SortedUnique<T(!new)>(lt: (T, T) -> bool, a: seq<T>, b: seq<T>)
    requires StrictTotalOrder(lt) && Sorted(lt, a) && Sorted(lt, b)
    requires Elems(a) == Elems(b)
    ensures a == b
    decreases |a|
  {
    assert |b| > 0 ==> b[0] in Elems(b);
    if |a| > 0 {
      assert a[0] in Elems(a);
      HeadIsLeast(lt, a);
      HeadIsLeast(lt, b);
      assert a[0] in Elems(b) && b[0] in Elems(a);
      assert a[0] == b[0];
      assert a == [a[0]] + a[1..] && b == [b[0]] + b[1..];
      assert Elems(a) == {a[0]} + Elems(a[1..]);
      assert Elems(b) == {b[0]} + Elems(b[1..]);
      assert Elems(a[1..]) == Elems(b[1..]);
      SortedUnique(lt, a[1..], b[1..]);
    }
  }

  /** The head of a sorted sequence is below every other element, and
      does not occur again in the tail. */
  lemma HeadIsLeast<T(!new)>(lt: (T, T) -> bool, s: seq<T>)
    requires StrictTotalOrder(lt) && Sorted(lt, s) && |s| > 0
    ensures forall x :: x in Elems(s) && x != s[0] ==> lt(s[0], x)
    ensures s[0] !in Elems(s[1..])
  {
    forall x | x in Elems(s) && x != s[0] ensures lt(s[0], x) {
      var k :| 0 <= k < |s| && s[k] == x;
    }
    forall k | 0 <= k < |s[1..]| ensures s[1..][k] != s[0] {
      assert lt(s[0], s[k + 1]);
    }
  }
}
