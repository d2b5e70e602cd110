/** Python's sorted() on sets and lists, for any total order, and the order of strings. */
module Ordering {

  ghost predicate TotalOrder<T(!new)>(le: (T, T) -> bool) {
    && (forall x, y :: le(x, y) || le(y, x))
    && (forall x, y :: le(x, y) && le(y, x) ==> x == y)
    && (forall x, y, z :: le(x, y) && le(y, z) ==> le(x, z))
  }

  /** Any two elements compare, and comparisons chain; equal ones may differ. */
  ghost predicate Preorder<T(!new)>(le: (T, T) -> bool) {
    && (forall x, y :: le(x, y) || le(y, x))
    && (forall x, y, z :: le(x, y) && le(y, z) ==> le(x, z))
  }

  ghost predicate Ascending<T>(s: seq<T>, le: (T, T) -> bool) {
    forall i, j :: 0 <= i < j < |s| ==> le(s[i], s[j])
  }

  // ----- Lists -----

  function Insert<T>(x: T, s: seq<T>, le: (T, T) -> bool): seq<T> {
    if s == [] || le(x, s[0]) then [x] + s else [s[0]] + Insert(x, s[1..], le)
  }

  function Sort<T>(s: seq<T>, le: (T, T) -> bool): seq<T> {
    if s == [] then [] else Insert(s[0], Sort(s[1..], le), le)
  }

  lemma {:induction false} InsertKeeps<T>(x: T, s: seq<T>, le: (T, T) -> bool)
    ensures multiset(Insert(x, s, le)) == multiset{x} + multiset(s)
    decreases |s|
  {
    if s != [] && !le(x, s[0]) {
      InsertKeeps(x, s[1..], le);
      assert s == [s[0]] + s[1..];
    }
  }

  lemma {:induction false} InsertAscends<T(!new)>(x: T, s: seq<T>, le: (T, T) -> bool)
    requires Preorder(le) && Ascending(s, le)
    ensures Ascending(Insert(x, s, le), le)
    ensures multiset(Insert(x, s, le)) == multiset{x} + multiset(s)
    decreases |s|
  {
    InsertKeeps(x, s, le);
    if s != [] && !le(x, s[0]) {
      InsertAscends(x, s[1..], le);
      InsertedLater(x, s, Insert(x, s[1..], le), le);
    }
  }

  lemma {:induction false} InsertedLater<T(!new)>(x: T, s: seq<T>, r: seq<T>, le: (T, T) -> bool)
    requires Ascending(s, le) && s != [] && le(s[0], x)
    requires multiset(r) == multiset{x} + multiset(s[1..])
    ensures forall j :: 0 <= j < |r| ==> le(s[0], r[j])
  {
    forall j | 0 <= j < |r| ensures le(s[0], r[j]) {
      assert r[j] in multiset(r);
      assert r[j] == x || r[j] in s[1..];
    }
  }

  lemma {:induction false} SortKeeps<T>(s: seq<T>, le: (T, T) -> bool)
    ensures multiset(Sort(s, le)) == multiset(s)
    decreases |s|
  {
    if s != [] {
      assert s == [s[0]] + s[1..];
      SortKeeps(s[1..], le);
      InsertKeeps(s[0], Sort(s[1..], le), le);
    }
  }

  lemma {:induction false} SortAscends<T(!new)>(s: seq<T>, le: (T, T) -> bool)
    requires Preorder(le)
    ensures Ascending(Sort(s, le), le) && multiset(Sort(s, le)) == multiset(s)
    decreases |s|
  {
    SortKeeps(s, le);
    if s != [] {
      SortAscends(s[1..], le);
      InsertAscends(s[0], Sort(s[1..], le), le);
    }
  }

  // ----- Sorting is stable -----

  /** The elements of a list that sort equal to x, in order. */
  function Alike<T>(s: seq<T>, x: T, le: (T, T) -> bool): seq<T> {
    if s == [] then [] else (if le(s[0], x) && le(x, s[0]) then [s[0]] else []) + Alike(s[1..], x, le)
  }

  lemma {:induction false} AlikeFirst<T>(y: T, s: seq<T>, x: T, le: (T, T) -> bool)
    ensures Alike([y] + s, x, le) == (if le(y, x) && le(x, y) then [y] else []) + Alike(s, x, le)
  {
    assert ([y] + s)[1..] == s;
  }

  lemma {:induction false} InsertIsStable<T(!new)>(y: T, s: seq<T>, x: T, le: (T, T) -> bool)
    requires Preorder(le)
    ensures Alike(Insert(y, s, le), x, le) == Alike([y] + s, x, le)
    decreases |s|
  {
    if s != [] && !le(y, s[0]) {
      assert s == [s[0]] + s[1..];
      AlikeFirst(y, s, x, le);
      AlikeFirst(s[0], s[1..], x, le);
      AlikeFirst(s[0], Insert(y, s[1..], le), x, le);
      AlikeFirst(y, s[1..], x, le);
      InsertIsStable(y, s[1..], x, le);
      if le(y, x) && le(x, y) {
        assert !(le(s[0], x) && le(x, s[0]));
      }
    }
  }

  /** Python's sort keeps the order of elements that sort equal. */
  lemma {:induction false} SortIsStable<T(!new)>(s: seq<T>, x: T, le: (T, T) -> bool)
    requires Preorder(le)
    ensures Alike(Sort(s, le), x, le) == Alike(s, x, le)
    decreases |s|
  {
    if s != [] {
      SortIsStable(s[1..], x, le);
      InsertIsStable(s[0], Sort(s[1..], le), x, le);
      AlikeFirst(s[0], Sort(s[1..], le), x, le);
      AlikeFirst(s[0], s[1..], x, le);
      assert s == [s[0]] + s[1..];
    }
  }

  // ----- One way to sort -----

  lemma {:induction false} FirstIsLeast<T(!new)>(a: seq<T>, x: T, le: (T, T) -> bool)
    requires TotalOrder(le) && Ascending(a, le) && x in multiset(a)
    ensures a != [] && le(a[0], x)
  {
    var i :| 0 <= i < |a| && a[i] == x;
  }

  lemma {:induction false} TailMultiset<T>(a: seq<T>)
    requires a != []
    ensures multiset(a[1..]) == multiset(a) - multiset{a[0]} && a == [a[0]] + a[1..]
  {
    assert a == [a[0]] + a[1..];
  }

  /** A total order leaves one way only to arrange the same elements. */
  lemma {:induction false} AscendingUnique<T(!new)>(a: seq<T>, b: seq<T>, le: (T, T) -> bool)
    requires TotalOrder(le) && Ascending(a, le) && Ascending(b, le)
    requires multiset(a) == multiset(b)
    ensures a == b
    decreases |a|
  {
    if a == [] {
      assert |multiset(b)| == |b|;
    } else {
      assert a[0] in multiset(b);
      FirstIsLeast(b, a[0], le);
      FirstIsLeast(a, b[0], le);
      assert a[0] == b[0];
      TailMultiset(a);
      TailMultiset(b);
      AscendingUnique(a[1..], b[1..], le);
    }
  }

  // ----- Sets -----

  /** r lists the elements of s once each, in order. */
  ghost predicate Lists<T(!new)>(r: seq<T>, s: set<T>, le: (T, T) -> bool) {
    && Ascending(r, le)
    && (forall i, j :: 0 <= i < j < |r| ==> r[i] != r[j])
    && (forall x :: x in r <==> x in s)
  }

  lemma {:induction false} ListsMultiset<T(!new)>(r: seq<T>, s: set<T>, le: (T, T) -> bool)
    requires Lists(r, s, le)
    ensures multiset(r) == multiset(s)
  {
    forall x ensures multiset(r)[x] == multiset(s)[x] {
      CountOnce(r, x);
    }
  }

  lemma {:induction false} CountOnce<T(!new)>(r: seq<T>, x: T)
    requires forall i, j :: 0 <= i < j < |r| ==> r[i] != r[j]
    ensures multiset(r)[x] == if x in r then 1 else 0
    decreases |r|
  {
    if r != [] {
      CountOnce(r[1..], x);
      assert r == [r[0]] + r[1..];
    }
  }

  lemma {:induction false} ListsUnique<T(!new)>(a: seq<T>, b: seq<T>, s: set<T>, le: (T, T) -> bool)
    requires TotalOrder(le) && Lists(a, s, le) && Lists(b, s, le)
    ensures a == b
  {
    ListsMultiset(a, s, le);
    ListsMultiset(b, s, le);
    AscendingUnique(a, b, le);
  }

  lemma {:induction false} InsertLists<T(!new)>(x: T, r: seq<T>, s: set<T>, le: (T, T) -> bool)
    requires TotalOrder(le) && Lists(r, s, le) && x !in s
    ensures Lists(Insert(x, r, le), s + {x}, le)
  {
    var t := Insert(x, r, le);
    InsertAscends(x, r, le);
    ListsMultiset(r, s, le);
    assert multiset(t) == multiset(s + {x});
    forall y ensures y in t <==> y in s + {x} {
      assert y in t <==> y in multiset(t);
    }
    forall i, j | 0 <= i < j < |t| ensures t[i] != t[j] {
      TwiceCounts(t, i, j);
      assert multiset(t)[t[i]] <= 1;
    }
  }

  lemma {:induction false} TwiceCounts<T>(t: seq<T>, i: nat, j: nat)
    requires i < j < |t|
    ensures t[i] == t[j] ==> multiset(t)[t[i]] >= 2
  {
    assert t == t[..j] + t[j..];
    assert t[i] in t[..j] && t[j] in t[j..];
  }

  method SortedList<T(==,!new)>(s: set<T>, le: (T, T) -> bool) returns (r: seq<T>)
    requires TotalOrder(le)
    ensures Lists(r, s, le) && r == Listed(s, le)
    ensures forall x :: x in r <==> x in s
  {
    r := [];
    var todo := s;
    while todo != {}
      invariant todo <= s && Lists(r, s - todo, le)
      decreases |todo|
    {
      var x :| x in todo;
      InsertLists(x, r, s - todo, le);
      assert s - todo + {x} == s - (todo - {x});
      r, todo := Insert(x, r, le), todo - {x};
    }
    assert s - todo == s;
    ListsUnique(r, Listed(s, le), s, le);
  }

  ghost function Listed<T(!new)>(s: set<T>, le: (T, T) -> bool): (r: seq<T>)
    requires TotalOrder(le)
    ensures Lists(r, s, le)
    decreases |s|
  {
    if s == {} then []
    else
      var x :| x in s;
      InsertLists(x, Listed(s - {x}, le), s - {x}, le);
      assert s - {x} + {x} == s;
      Insert(x, Listed(s - {x}, le), le)
  }

  /** A loop over a set in any order: what is done grows by what leaves the rest. */
  lemma {:induction false} OneMoreDone<T>(all: set<T>, todo: set<T>, x: T)
    requires todo <= all && x in todo
    ensures all - (todo - {x}) == all - todo + {x} && x !in all - todo
  {
  }

  lemma {:induction false} SomeLeft(todo: set<int>)
    ensures todo == {} || exists x :: x in todo
  {
    if forall x :: x !in todo {
      assert todo == {};
    }
  }

  lemma {:induction false} AllDone<T>(all: set<T>)
    ensures all - {} == all && all - all == {}
  {
  }

  // ----- Strings -----

  /** Python compares strings by code point, a proper prefix first. */
  predicate StringLe(a: string, b: string) {
    a == [] || (b != [] && (a[0] < b[0] || (a[0] == b[0] && StringLe(a[1..], b[1..]))))
  }

  /** The strings differ at i for the first time, and a is smaller there. */
  predicate SmallerAt(a: string, b: string, i: nat) {
    i < |a| && i < |b| && a[..i] == b[..i] && a[i] < b[i]
  }

  /** a comes first if it is a front of b, or smaller at the first place where they differ. */
  lemma {:induction false} StringLeMeans(a: string, b: string)
    ensures StringLe(a, b) <==> a <= b || exists i :: SmallerAt(a, b, i)
  {
    hide SmallerAt;
    if a != [] && b != [] {
      if a[0] == b[0] {
        StringLeMeans(a[1..], b[1..]);
        SameFirst(a, b);
      } else {
        OtherFirst(a, b);
      }
    } else {
      forall i ensures !SmallerAt(a, b, i) {
        NoneSmaller(a, b, i);
      }
    }
  }

  lemma {:induction false} NoneSmaller(a: string, b: string, i: nat)
    requires a == [] || b == []
    ensures !SmallerAt(a, b, i)
  {
  }

  lemma {:induction false} OtherFirst(a: string, b: string)
    requires a != [] && b != [] && a[0] != b[0]
    ensures (exists i :: SmallerAt(a, b, i)) <==> a[0] < b[0]
  {
    if a[0] < b[0] {
      assert SmallerAt(a, b, 0);
    }
    forall i: nat | 0 < i <= |a| && i <= |b| ensures a[..i] != b[..i] {
      assert a[..i][0] == a[0] && b[..i][0] == b[0];
    }
  }

  lemma {:induction false} SameFirst(a: string, b: string)
    requires a != [] && b != [] && a[0] == b[0]
    ensures a <= b <==> a[1..] <= b[1..]
    ensures (exists i :: SmallerAt(a, b, i)) <==> exists i :: SmallerAt(a[1..], b[1..], i)
  {
    assert a == [a[0]] + a[1..] && b == [b[0]] + b[1..];
    if i :| SmallerAt(a, b, i) {
      ShiftDown(a, b, i);
    }
    if i :| SmallerAt(a[1..], b[1..], i) {
      ShiftUp(a, b, i);
    }
  }

  lemma {:induction false} ShiftDown(a: string, b: string, i: nat)
    requires SmallerAt(a, b, i) && a[0] == b[0]
    ensures i > 0 && SmallerAt(a[1..], b[1..], i - 1)
  {
    assert a[1..][..i - 1] == a[..i][1..] && b[1..][..i - 1] == b[..i][1..];
  }

  lemma {:induction false} ShiftUp(a: string, b: string, i: nat)
    requires a != [] && b != [] && a[0] == b[0] && SmallerAt(a[1..], b[1..], i)
    ensures SmallerAt(a, b, i + 1)
  {
    assert a[..i + 1] == [a[0]] + a[1..][..i] && b[..i + 1] == [b[0]] + b[1..][..i];
  }

  lemma {:induction false} StringLeTotal(a: string, b: string)
    ensures StringLe(a, b) || StringLe(b, a)
  {
    if a != [] && b != [] && a[0] == b[0] {
      StringLeTotal(a[1..], b[1..]);
    }
  }

  lemma {:induction false} StringLeAntisymmetric(a: string, b: string)
    requires StringLe(a, b) && StringLe(b, a)
    ensures a == b
  {
    if a != [] {
      StringLeAntisymmetric(a[1..], b[1..]);
      assert a == [a[0]] + a[1..] && b == [b[0]] + b[1..];
    }
  }

  lemma {:induction false} StringLeTransitive(a: string, b: string, c: string)
    requires StringLe(a, b) && StringLe(b, c)
    ensures StringLe(a, c)
  {
    if a != [] && a[0] == b[0] == c[0] {
      StringLeTransitive(a[1..], b[1..], c[1..]);
    }
  }

  lemma {:induction false} StringsAreOrdered()
    ensures TotalOrder(StringLe)
  {
    forall a, b ensures StringLe(a, b) || StringLe(b, a) {
      StringLeTotal(a, b);
    }
    forall a, b | StringLe(a, b) && StringLe(b, a) ensures a == b {
      StringLeAntisymmetric(a, b);
    }
    forall a, b, c | StringLe(a, b) && StringLe(b, c) ensures StringLe(a, c) {
      StringLeTransitive(a, b, c);
    }
  }
}
