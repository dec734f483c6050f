/** The order of relative paths, component by component, and sorting by it. */
module PathOrder {

  /** A relative path: its names. */
  type Path = seq<string>

  predicate TextLess(a: string, b: string) {
    if b == [] then false
    else if a == [] then true
    else if a[0] != b[0] then a[0] < b[0]
    else TextLess(a[1..], b[1..])
  }

  predicate PathLess(a: Path, b: Path) {
    if b == [] then false
    else if a == [] then true
    else if a[0] != b[0] then TextLess(a[0], b[0])
    else PathLess(a[1..], b[1..])
  }

  /** Both texts agree up to character `i`, where `a` ends or has the smaller character. */
  predicate SmallerAt(a: string, b: string, i: nat) {
    i < |b| && i <= |a| && a[..i] == b[..i] && (i == |a| || a[i] < b[i])
  }

  /** The order of texts is that of the first difference. */
  lemma {:induction false} TextLessIff(a: string, b: string)
    ensures TextLess(a, b) <==> exists i: nat :: SmallerAt(a, b, i)
  {
    if a != [] && b != [] && a[0] == b[0] {
      TextLessIff(a[1..], b[1..]);
      if i: nat :| SmallerAt(a[1..], b[1..], i) {
        assert a[..i + 1] == [a[0]] + a[1..][..i] && b[..i + 1] == [b[0]] + b[1..][..i];
        assert SmallerAt(a, b, i + 1);
      }
      if i: nat :| SmallerAt(a, b, i) {
        assert i > 0;
        assert a[1..][..i - 1] == a[..i][1..] && b[1..][..i - 1] == b[..i][1..];
        assert SmallerAt(a[1..], b[1..], i - 1);
      }
    } else if TextLess(a, b) {
      assert SmallerAt(a, b, 0);
    }
  }

  /** Both paths agree up to name `i`, where `a` ends or has the smaller name. */
  predicate ShallowerAt(a: Path, b: Path, i: nat) {
    i < |b| && i <= |a| && a[..i] == b[..i] && (i == |a| || (a[i] != b[i] && TextLess(a[i], b[i])))
  }

  lemma {:induction false} PathLessIff(a: Path, b: Path)
    ensures PathLess(a, b) <==> exists i: nat :: ShallowerAt(a, b, i)
  {
    if a != [] && b != [] && a[0] == b[0] {
      PathLessIff(a[1..], b[1..]);
      if i: nat :| ShallowerAt(a[1..], b[1..], i) {
        assert a[..i + 1] == [a[0]] + a[1..][..i] && b[..i + 1] == [b[0]] + b[1..][..i];
        assert ShallowerAt(a, b, i + 1);
      }
      if i: nat :| ShallowerAt(a, b, i) {
        assert i > 0;
        assert a[1..][..i - 1] == a[..i][1..] && b[1..][..i - 1] == b[..i][1..];
        assert ShallowerAt(a[1..], b[1..], i - 1);
      }
    } else if PathLess(a, b) {
      assert ShallowerAt(a, b, 0);
    }
  }

  lemma {:induction false} TextTotal(a: string, b: string)
    ensures a != b ==> TextLess(a, b) || TextLess(b, a)
    ensures TextLess(a, b) ==> a != b && !TextLess(b, a)
  {
    if a != [] && b != [] && a[0] == b[0] {
      TextTotal(a[1..], b[1..]);
      assert a == [a[0]] + a[1..] && b == [b[0]] + b[1..];
    }
  }

  lemma {:induction false} TextTrans(a: string, b: string, c: string)
    requires TextLess(a, b) && TextLess(b, c)
    ensures TextLess(a, c)
  {
    if a != [] && a[0] == b[0] && b[0] == c[0] {
      TextTrans(a[1..], b[1..], c[1..]);
    }
  }

  lemma {:induction false} PathTotal(a: Path, b: Path)
    ensures a != b ==> PathLess(a, b) || PathLess(b, a)
    ensures PathLess(a, b) ==> a != b && !PathLess(b, a)
  {
    if a != [] && b != [] {
      TextTotal(a[0], b[0]);
      if a[0] == b[0] {
        PathTotal(a[1..], b[1..]);
        assert a == [a[0]] + a[1..] && b == [b[0]] + b[1..];
      }
    }
  }

  lemma {:induction false} PathTrans(a: Path, b: Path, c: Path)
    requires PathLess(a, b) && PathLess(b, c)
    ensures PathLess(a, c)
  {
    if a != [] {
      if a[0] == b[0] && b[0] == c[0] {
        PathTrans(a[1..], b[1..], c[1..]);
      } else if a[0] != b[0] && b[0] != c[0] {
        TextTrans(a[0], b[0], c[0]);
        TextTotal(a[0], c[0]);
      }
    }
  }

  ghost predicate Ascending<T>(key: T -> Path, s: seq<T>) {
    forall i, j :: 0 <= i < j < |s| ==> PathLess(key(s[i]), key(s[j]))
  }

  function InsertByPath<T>(key: T -> Path, x: T, s: seq<T>): seq<T> {
    if s == [] then [x]
    else if PathLess(key(s[0]), key(x)) then [s[0]] + InsertByPath(key, x, s[1..])
    else [x] + s
  }

  function SortByPath<T>(key: T -> Path, s: seq<T>): seq<T> {
    if s == [] then [] else InsertByPath(key, s[0], SortByPath(key, s[1..]))
  }

  lemma {:induction false} InsertIsPermutation<T(!new)>(key: T -> Path, x: T, s: seq<T>)
    ensures multiset(InsertByPath(key, x, s)) == multiset([x] + s)
  {
    if s != [] {
      assert s == [s[0]] + s[1..];
      InsertIsPermutation(key, x, s[1..]);
      assert multiset([x] + s) == multiset([x] + s[1..]) + multiset{s[0]};
    }
  }

  lemma SameMembers<T(!new)>(a: seq<T>, b: seq<T>)
    requires multiset(a) == multiset(b)
    ensures forall y :: y in a <==> y in b
  {
    forall y
      ensures y in a <==> y in b
    {
      assert y in a <==> y in multiset(a);
    }
  }

  lemma ConsAscending<T(!new)>(key: T -> Path, x: T, s: seq<T>)
    requires Ascending(key, s) && forall y :: y in s ==> PathLess(key(x), key(y))
    ensures Ascending(key, [x] + s)
  {
  }

  lemma HeadLeast<T(!new)>(key: T -> Path, s: seq<T>)
    requires Ascending(key, s) && s != []
    ensures Ascending(key, s[1..]) && forall y :: y in s[1..] ==> PathLess(key(s[0]), key(y))
  {
  }

  lemma {:induction false} InsertKeepsAscending<T(!new)>(key: T -> Path, x: T, s: seq<T>)
    requires Ascending(key, s) && forall y :: y in s ==> key(y) != key(x)
    ensures Ascending(key, InsertByPath(key, x, s))
  {
    if s != [] {
      var tail := s[1..];
      assert s == [s[0]] + tail;
      PathTotal(key(s[0]), key(x));
      HeadLeast(key, s);
      if PathLess(key(s[0]), key(x)) {
        InsertKeepsAscending(key, x, tail);
        InsertIsPermutation(key, x, tail);
        var inserted := InsertByPath(key, x, tail);
        SameMembers(inserted, [x] + tail);
        ConsAscending(key, s[0], inserted);
      } else {
        forall y | y in s
          ensures PathLess(key(x), key(y))
        {
          if y != s[0] {
            PathTrans(key(x), key(s[0]), key(y));
          }
        }
        ConsAscending(key, x, s);
      }
    }
  }

  /** Sorting rows with different paths gives the same rows in ascending order. */
  lemma {:induction false} SortSorts<T(!new)>(key: T -> Path, s: seq<T>)
    requires forall i, j :: 0 <= i < j < |s| ==> key(s[i]) != key(s[j])
    ensures multiset(SortByPath(key, s)) == multiset(s)
    ensures Ascending(key, SortByPath(key, s))
  {
    if s != [] {
      assert s == [s[0]] + s[1..];
      SortSorts(key, s[1..]);
      InsertIsPermutation(key, s[0], SortByPath(key, s[1..]));
      var sorted := SortByPath(key, s[1..]);
      SameMembers(sorted, s[1..]);
      InsertKeepsAscending(key, s[0], sorted);
    }
  }

  lemma {:induction false} AscendingCounts<T(!new)>(key: T -> Path, s: seq<T>)
    requires Ascending(key, s)
    ensures forall x :: multiset(s)[x] == if x in s then 1 else 0
  {
    if s != [] {
      HeadLeast(key, s);
      AscendingCounts(key, s[1..]);
      assert s == [s[0]] + s[1..];
      PathTotal(key(s[0]), key(s[0]));
    }
  }

  /** There is one ascending listing of a set of rows. */
  lemma AscendingIsUnique<T(!new)>(key: T -> Path, a: seq<T>, b: seq<T>)
    requires Ascending(key, a) && Ascending(key, b)
    requires forall x :: x in a <==> x in b
    ensures a == b
  {
    AscendingCounts(key, a);
    AscendingCounts(key, b);
    assert multiset(a) == multiset(b);
    OneAscendingOrder(key, a, b);
  }

  lemma {:induction false} OneAscendingOrder<T(!new)>(key: T -> Path, a: seq<T>, b: seq<T>)
    requires Ascending(key, a) && Ascending(key, b)
    requires multiset(a) == multiset(b)
    ensures a == b
  {
    assert |a| == |multiset(a)| && |b| == |multiset(b)|;
    if a != [] {
      hide PathLess;
      SameFirst(key, a, b);
      RestCounts(a);
      RestCounts(b);
      OneAscendingOrder(key, a[1..], b[1..]);
      assert a == [a[0]] + a[1..] && b == [b[0]] + b[1..];
    }
  }

  lemma SameFirst<T(!new)>(key: T -> Path, a: seq<T>, b: seq<T>)
    requires Ascending(key, a) && Ascending(key, b)
    requires multiset(a) == multiset(b) && a != [] && b != []
    ensures a[0] == b[0]
  {
    hide PathLess;
    SameMembers(a, b);
    FirstIsLeast(key, a, b[0]);
    FirstIsLeast(key, b, a[0]);
    PathTotal(key(a[0]), key(b[0]));
  }

  lemma RestCounts<T>(s: seq<T>)
    requires s != []
    ensures multiset(s[1..]) == multiset(s) - multiset{s[0]}
  {
    assert s == [s[0]] + s[1..];
  }

  lemma FirstIsLeast<T(!new)>(key: T -> Path, s: seq<T>, x: T)
    requires Ascending(key, s) && x in s
    ensures x == s[0] || PathLess(key(s[0]), key(x))
  {
  }
}
