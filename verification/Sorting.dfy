/** Sorting a slice by a total order, as `sort.Slice` does (no promise on equal keys). */
module Sorting {
  ghost predicate TotalOrder<T(!new)>(le: (T, T) -> bool) {
    && (forall x, y :: le(x, y) || le(y, x))
    && (forall x, y, z :: le(x, y) && le(y, z) ==> le(x, z))
  }

  ghost predicate SortedBy<T>(le: (T, T) -> bool, s: seq<T>) {
    forall i, j :: 0 <= i < j < |s| ==> le(s[i], s[j])
  }

  /** Everything before place i is below x and everything from i on above it. */
  ghost predicate Place<T(!new)>(le: (T, T) -> bool, s: seq<T>, x: T, i: int) {
    && 0 <= i <= |s|
    && (forall j :: 0 <= j < i ==> le(s[j], x))
    && (forall j :: i <= j < |s| ==> le(x, s[j]))
  }

  lemma InsertAt<T(!new)>(le: (T, T) -> bool, s: seq<T>, x: T, i: int)
    requires SortedBy(le, s) && Place(le, s, x, i)
    ensures var r := s[..i] + [x] + s[i..];
            SortedBy(le, r) && multiset(r) == multiset(s) + multiset{x}
  {
    assert s == s[..i] + s[i..];
  }

  method Insert<T(!new)>(s: seq<T>, x: T, le: (T, T) -> bool) returns (r: seq<T>)
    requires TotalOrder(le) && SortedBy(le, s)
    ensures SortedBy(le, r) && multiset(r) == multiset(s) + multiset{x}
  {
    var i := |s|;
    while i > 0 && !le(s[i - 1], x)
      invariant 0 <= i <= |s|
      invariant forall j :: i <= j < |s| ==> le(x, s[j])
    {
      i := i - 1;
    }
    BelowPlace(le, s, x, i);
    InsertAt(le, s, x, i);
    r := s[..i] + [x] + s[i..];
  }

  lemma BelowPlace<T(!new)>(le: (T, T) -> bool, s: seq<T>, x: T, i: nat)
    requires TotalOrder(le) && SortedBy(le, s) && i <= |s|
    requires i > 0 ==> le(s[i - 1], x)
    ensures forall j :: 0 <= j < i ==> le(s[j], x)
  {
    forall j | 0 <= j < i ensures le(s[j], x) {
      if j < i - 1 {
        assert le(s[j], s[i - 1]) && le(s[i - 1], x);
      }
    }
  }

  method Sort<T(!new)>(s: seq<T>, le: (T, T) -> bool) returns (r: seq<T>)
    requires TotalOrder(le)
    ensures SortedBy(le, r) && multiset(r) == multiset(s)
  {
    r := [];
    for i := 0 to |s|
      invariant SortedBy(le, r) && multiset(r) == multiset(s[..i])
    {
      r := Insert(r, s[i], le);
      assert s[..i + 1] == s[..i] + [s[i]];
    }
    assert s[..|s|] == s;
  }

  /** Elements that each occur once sit at different places. */
  lemma OnceMeansDistinct<T>(s: seq<T>, i: int, j: int)
    requires 0 <= i < j < |s| && multiset(s)[s[i]] <= 1
    ensures s[i] != s[j]
  {
    assert s == s[..i] + [s[i]] + s[i + 1..j] + [s[j]] + s[j + 1..];
  }
}
