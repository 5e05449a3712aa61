/** The order of Go's `sort.Strings`, and the stable sort behind `sort.SliceStable`.
    Strings are sequences of code points; on valid UTF-8 their lexicographic order
    is the byte order Go compares with. */
module Order {

  predicate Less(a: string, b: string) {
    if b == [] then false
    else if a == [] then true
    else a[0] < b[0] || (a[0] == b[0] && Less(a[1..], b[1..]))
  }

  /** `a` comes before `b` in a dictionary by code points: it is shorter and `b` begins with
      it, or it has the smaller character at the first place where the two differ. */
  ghost predicate ComesFirst(a: string, b: string) {
    (a <= b && |a| < |b|) || exists i :: DiffersBelow(a, b, i)
  }

  ghost predicate DiffersBelow(a: string, b: string, i: int) {
    0 <= i < |a| && i < |b| && a[..i] == b[..i] && a[i] < b[i]
  }

  lemma DiffersBelowTail(a: string, b: string, i: int)
    requires 0 < i && a != [] && b != [] && a[0] == b[0]
    ensures DiffersBelow(a, b, i) <==> DiffersBelow(a[1..], b[1..], i - 1)
  {
    if i < |a| && i < |b| {
      assert a[..i] == [a[0]] + a[1..][..i - 1] && b[..i] == [b[0]] + b[1..][..i - 1];
      assert a[..i][1..] == a[1..][..i - 1] && b[..i][1..] == b[1..][..i - 1];
    }
  }

  lemma ComesFirstTail(a: string, b: string)
    requires a != [] && b != [] && a[0] == b[0]
    ensures ComesFirst(a, b) <==> ComesFirst(a[1..], b[1..])
  {
    assert a <= b <==> a[1..] <= b[1..] by {
      assert a == [a[0]] + a[1..] && b == [b[0]] + b[1..];
    }
    if i :| DiffersBelow(a, b, i) {
      assert i > 0;
      DiffersBelowTail(a, b, i);
    }
    if i :| DiffersBelow(a[1..], b[1..], i) {
      DiffersBelowTail(a, b, i + 1);
    }
  }

  lemma SameHead(a: string, b: string, i: int)
    requires DiffersBelow(a, b, i)
    ensures i > 0 ==> a[0] == b[0]
  {
    if i > 0 {
      assert a[..i][0] == a[0] && b[..i][0] == b[0];
    }
  }

  /** The comparison is the dictionary's. */
  lemma {:induction false} LessIsComesFirst(a: string, b: string)
    ensures Less(a, b) <==> ComesFirst(a, b)
  {
    if a != [] && b != [] {
      if a[0] == b[0] {
        LessIsComesFirst(a[1..], b[1..]);
        ComesFirstTail(a, b);
      } else {
        forall i | DiffersBelow(a, b, i)
          ensures i > 0 ==> a[0] == b[0]
        {
          SameHead(a, b, i);
        }
        assert DiffersBelow(a, b, 0) <==> a[0] < b[0];
      }
    }
  }

  lemma LessIrreflexive(a: string)
    ensures !Less(a, a)
  {
  }

  lemma LessTransitive(a: string, b: string, c: string)
    requires Less(a, b) && Less(b, c)
    ensures Less(a, c)
  {
  }

  lemma LessTotal(a: string, b: string)
    ensures Less(a, b) || a == b || Less(b, a)
  {
    if a != [] && b != [] {
      LessTotal(a[1..], b[1..]);
      if a[0] == b[0] && a[1..] == b[1..] {
        assert a == [a[0]] + a[1..] == b;
      }
    }
  }

  lemma ComesFirstOneWay(a: string, b: string)
    ensures !(ComesFirst(a, b) && ComesFirst(b, a))
  {
    LessIsComesFirst(a, b);
    LessIsComesFirst(b, a);
    if Less(a, b) {
      LessAsymmetric(a, b);
    }
  }

  lemma LessAsymmetric(a: string, b: string)
    requires Less(a, b)
    ensures !Less(b, a)
  {
    if Less(b, a) {
      LessTransitive(a, b, a);
      LessIrreflexive(a);
    }
  }

  /** What Go asks of a comparison: asymmetric, and "not less" is transitive. */
  ghost predicate StrictWeakOrder<T(!new)>(less: (T, T) -> bool) {
    && (forall a, b :: less(a, b) ==> !less(b, a))
    && (forall a, b, c :: !less(a, b) && !less(b, c) ==> !less(a, c))
  }

  lemma LessIsStrictWeakOrder()
    ensures StrictWeakOrder(Less)
  {
    forall a, b | Less(a, b)
      ensures !Less(b, a)
    {
      LessAsymmetric(a, b);
    }
    forall a, b, c | !Less(a, b) && !Less(b, c)
      ensures !Less(a, c)
    {
      LessTotal(a, b);
      LessTotal(b, c);
      if Less(a, c) {
        if a != b {
          LessTransitive(b, a, c);
        }
      }
    }
  }

  ghost predicate Sorted<T>(less: (T, T) -> bool, s: seq<T>) {
    forall i, j :: 0 <= i < j < |s| ==> !less(s[j], s[i])
  }

  predicate Distinct<T(==)>(s: seq<T>) {
    forall i, j :: 0 <= i < j < |s| ==> s[i] != s[j]
  }

  lemma LastOfConcat<T>(a: seq<T>, b: seq<T>)
    requires b != []
    ensures a + b != [] && (a + b)[|a + b| - 1] == b[|b| - 1]
    ensures (a + b)[..|a + b| - 1] == a + b[..|b| - 1]
  {
  }

  lemma ConcatAssociates<T>(a: seq<T>, b: seq<T>, c: seq<T>)
    ensures (a + b) + c == a + (b + c)
  {
  }

  lemma DistinctConcat<T>(a: seq<T>, b: seq<T>)
    requires Distinct(a) && Distinct(b) && forall x :: x in a ==> x !in b
    ensures Distinct(a + b)
  {
    var s := a + b;
    forall i, j | 0 <= i < j < |s|
      ensures s[i] != s[j]
    {
      if i < |a| <= j {
        assert s[i] in a && s[j] in b;
      }
    }
  }

  lemma DistinctParts<T>(a: seq<T>, b: seq<T>)
    requires Distinct(a + b)
    ensures Distinct(a) && Distinct(b) && forall x :: x in a ==> x !in b
  {
    var s := a + b;
    assert forall i :: 0 <= i < |a| ==> s[i] == a[i];
    assert forall j :: 0 <= j < |b| ==> s[|a| + j] == b[j];
    forall x | x in a
      ensures x !in b
    {
      var i :| 0 <= i < |a| && a[i] == x;
      forall j | 0 <= j < |b|
        ensures b[j] != x
      {
        assert s[i] != s[|a| + j];
      }
    }
  }

  /** Places `x` before every element that is not less than it. */
  function Insert<T>(less: (T, T) -> bool, x: T, s: seq<T>): (r: seq<T>)
    ensures multiset(r) == multiset(s) + multiset{x}
  {
    if s == [] || !less(s[0], x) then
      [x] + s
    else
      assert s == [s[0]] + s[1..];
      [s[0]] + Insert(less, x, s[1..])
  }

  /** The one permutation `sort.SliceStable` may return. */
  function StableSort<T>(less: (T, T) -> bool, s: seq<T>): (r: seq<T>)
    ensures multiset(r) == multiset(s)
    ensures |r| == |s|
  {
    if s == [] then
      []
    else
      assert s == [s[0]] + s[1..];
      var r := Insert(less, s[0], StableSort(less, s[1..]));
      assert |multiset(r)| == |multiset(s)|;
      r
  }

  lemma InsertSorted<T(!new)>(less: (T, T) -> bool, x: T, s: seq<T>)
    requires StrictWeakOrder(less) && Sorted(less, s)
    ensures Sorted(less, Insert(less, x, s))
  {
    if s != [] && less(s[0], x) {
      InsertSorted(less, x, s[1..]);
      var t := Insert(less, x, s[1..]);
      forall y | y in t
        ensures !less(y, s[0])
      {
        assert y in multiset(t);
        assert y == x || y in s[1..];
      }
    } else {
      forall y | y in s
        ensures !less(y, x)
      {
      }
    }
  }

  lemma StableSortSorted<T(!new)>(less: (T, T) -> bool, s: seq<T>)
    requires StrictWeakOrder(less)
    ensures Sorted(less, StableSort(less, s))
  {
    if s != [] {
      StableSortSorted(less, s[1..]);
      InsertSorted(less, s[0], StableSort(less, s[1..]));
    }
  }

  /** Some `a` stands before some `b`. */
  ghost predicate Before<T>(s: seq<T>, a: T, b: T) {
    exists i, j {:trigger s[i], s[j]} :: 0 <= i < j < |s| && s[i] == a && s[j] == b
  }

  lemma BeforeCons<T>(x: T, s: seq<T>, a: T, b: T)
    ensures Before(s, a, b) || (x == a && b in s) ==> Before([x] + s, a, b)
    ensures Before([x] + s, a, b) ==> Before(s, a, b) || (x == a && b in s)
  {
    var t := [x] + s;
    assert forall i :: 0 <= i < |s| ==> t[i + 1] == s[i];
    if Before(s, a, b) {
      var i, j :| 0 <= i < j < |s| && s[i] == a && s[j] == b;
      assert t[i + 1] == a && t[j + 1] == b;
    } else if x == a && b in s {
      var j :| 0 <= j < |s| && s[j] == b;
      assert t[0] == a && t[j + 1] == b;
    }
    if Before(t, a, b) {
      var i, j :| 0 <= i < j < |t| && t[i] == a && t[j] == b;
      assert s[j - 1] == b;
      assert i > 0 ==> s[i - 1] == a;
    }
  }

  lemma {:induction false} InsertKeepsBefore<T>(less: (T, T) -> bool, x: T, s: seq<T>, a: T, b: T)
    requires Before(s, a, b)
    ensures Before(Insert(less, x, s), a, b)
  {
    if s == [] || !less(s[0], x) {
      BeforeCons(x, s, a, b);
    } else {
      var rest, t := s[1..], Insert(less, x, s[1..]);
      assert s == [s[0]] + rest;
      BeforeCons(s[0], rest, a, b);
      if Before(rest, a, b) {
        InsertKeepsBefore(less, x, rest, a, b);
      } else {
        assert b in multiset(t);
      }
      BeforeCons(s[0], t, a, b);
    }
  }

  lemma {:induction false} InsertStandsBefore<T>(less: (T, T) -> bool, x: T, s: seq<T>, y: T)
    requires y in s && !less(y, x)
    ensures Before(Insert(less, x, s), x, y)
  {
    if !less(s[0], x) {
      BeforeCons(x, s, x, y);
    } else {
      assert s == [s[0]] + s[1..];
      InsertStandsBefore(less, x, s[1..], y);
      BeforeCons(s[0], Insert(less, x, s[1..]), x, y);
    }
  }

  /** Stability: what need not be swapped stays in order. */
  lemma {:induction false} StableSortStable<T>(less: (T, T) -> bool, s: seq<T>, a: T, b: T)
    requires Before(s, a, b) && !less(b, a)
    ensures Before(StableSort(less, s), a, b)
  {
    var rest := s[1..];
    assert s == [s[0]] + rest;
    BeforeCons(s[0], rest, a, b);
    if Before(rest, a, b) {
      StableSortStable(less, rest, a, b);
      InsertKeepsBefore(less, s[0], StableSort(less, rest), a, b);
    } else {
      assert b in multiset(StableSort(less, rest));
      InsertStandsBefore(less, a, StableSort(less, rest), b);
    }
  }

  lemma BeforeInDistinct<T>(s: seq<T>, i: nat, j: nat)
    requires Distinct(s) && i < |s| && j < |s| && i != j
    ensures Before(s, s[i], s[j]) <==> i < j
  {
    if Before(s, s[i], s[j]) {
      var p, q :| 0 <= p < q < |s| && s[p] == s[i] && s[q] == s[j];
    }
  }

  lemma SameElements<T>(s: seq<T>, t: seq<T>)
    requires multiset(s) == multiset(t)
    ensures |s| == |t|
    ensures forall x :: x in s <==> x in t
  {
    assert |multiset(s)| == |multiset(t)|;
    forall x
      ensures x in s <==> x in t
    {
      assert x in s <==> x in multiset(s);
    }
  }

  lemma MultisetDistinct<T>(s: seq<T>)
    ensures Distinct(s) <==> forall x :: multiset(s)[x] <= 1
  {
    if s != [] {
      var rest := s[1..];
      MultisetDistinct(rest);
      assert s == [s[0]] + rest;
      assert multiset(s) == multiset{s[0]} + multiset(rest);
      if s[0] in rest {
        var j :| 0 <= j < |rest| && rest[j] == s[0];
        assert s[j + 1] == s[0];
        assert multiset(s)[s[0]] > 1;
      } else {
        assert Distinct(s) <==> Distinct(rest) by {
          assert forall k :: 0 <= k < |rest| ==> rest[k] == s[k + 1];
          assert forall k :: 0 < k < |s| ==> s[k] == rest[k - 1];
        }
        assert forall x :: x != s[0] ==> multiset(s)[x] == multiset(rest)[x];
        assert multiset(s)[s[0]] == 1;
      }
    }
  }

  lemma PermutationDistinct<T>(s: seq<T>, t: seq<T>)
    requires multiset(s) == multiset(t) && Distinct(s)
    ensures Distinct(t)
  {
    MultisetDistinct(s);
    MultisetDistinct(t);
  }

  lemma MultisetTail<T>(s: seq<T>)
    requires s != []
    ensures multiset(s[1..]) == multiset(s) - multiset{s[0]}
  {
    assert s == [s[0]] + s[1..];
  }

  function SortNames(s: seq<string>): (r: seq<string>)
    ensures multiset(r) == multiset(s)
  {
    StableSort(Less, s)
  }

  lemma SortNamesSorted(s: seq<string>)
    ensures Sorted(Less, SortNames(s))
  {
    LessIsStrictWeakOrder();
    StableSortSorted(Less, s);
  }

  /** From first to last: of two different names at different places the earlier comes first. */
  ghost predicate Ascending(s: seq<string>) {
    forall i, j :: 0 <= i < j < |s| && s[i] != s[j] ==> ComesFirst(s[i], s[j])
  }

  lemma SortedIsAscending(s: seq<string>)
    requires Sorted(Less, s)
    ensures Ascending(s)
  {
    forall i, j | 0 <= i < j < |s| && s[i] != s[j]
      ensures ComesFirst(s[i], s[j])
    {
      LessTotal(s[i], s[j]);
      LessIsComesFirst(s[i], s[j]);
    }
  }

  /** Sorting names is a permutation that puts them in ascending order. */
  lemma SortNamesAscends(s: seq<string>)
    ensures Ascending(SortNames(s)) && multiset(SortNames(s)) == multiset(s)
  {
    SortNamesSorted(s);
    SortedIsAscending(SortNames(s));
  }

  lemma SortedHead(s: seq<string>, x: string)
    requires Sorted(Less, s) && x in s
    ensures !Less(x, s[0])
  {
    LessIrreflexive(x);
    var i :| 0 <= i < |s| && s[i] == x;
    assert i == 0 || !Less(s[i], s[0]);
  }

  /** Two sorted sequences of names with the same elements are the same sequence. */
  lemma {:induction false} SortedUnique(s: seq<string>, t: seq<string>)
    requires Sorted(Less, s) && Sorted(Less, t) && multiset(s) == multiset(t)
    ensures s == t
  {
    SameElements(s, t);
    if s != [] {
      SortedHead(s, t[0]);
      SortedHead(t, s[0]);
      LessTotal(s[0], t[0]);
      MultisetTail(s);
      MultisetTail(t);
      SortedUnique(s[1..], t[1..]);
      assert s == [s[0]] + s[1..] && t == [t[0]] + t[1..];
    }
  }
}
