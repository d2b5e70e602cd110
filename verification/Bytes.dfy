/** Byte strings as the Python sources see them: values, slices, searches, sums
    and big-endian integers, with the few facts every codec module needs. */
module Bytes {

  type byte = b: int | 0 <= b < 256

  type bytes = seq<byte>

  datatype Option<+T> = None | Some(value: T)

  datatype Result<+T, +E> = Ok(value: T) | Err(error: E)

  function Min(a: int, b: int): int {
    if a < b then a else b
  }

  /** Python's s[lo:hi] for non-negative bounds: clipped, never an error. */
  function Slice<T>(s: seq<T>, lo: nat, hi: nat): (r: seq<T>) {
    var l, h := Min(lo, |s|), Min(hi, |s|);
    if l <= h then s[l..h] else []
  }

  /** Python's data.find(b, from): the first occurrence at or after from, or -1. */
  function Find(s: seq<int>, b: int, from: nat): (r: int)
    requires from <= |s|
    ensures r == -1 || from <= r < |s|
    ensures r >= 0 ==> s[r] == b && forall i :: from <= i < r ==> s[i] != b
    ensures r < 0 ==> forall i :: from <= i < |s| ==> s[i] != b
    decreases |s| - from
  {
    if from == |s| then -1 else if s[from] == b then from else Find(s, b, from + 1)
  }

  function Sum(s: seq<int>): int {
    if s == [] then 0 else s[0] + Sum(s[1..])
  }

  lemma {:induction false} SumAppend(s: seq<int>, t: seq<int>)
    ensures Sum(s + t) == Sum(s) + Sum(t)
  {
    if s == [] {
      assert s + t == t;
    } else {
      assert (s + t)[1..] == s[1..] + t;
      SumAppend(s[1..], t);
    }
  }

  lemma {:induction false} SumZeros(s: seq<int>)
    requires forall i :: 0 <= i < |s| ==> s[i] == 0
    ensures Sum(s) == 0
  {
    if s != [] {
      SumZeros(s[1..]);
    }
  }

  /** int.from_bytes(s, "big") of a field of at most four bytes. */
  function BigEndian(s: bytes): nat
    requires |s| <= 4
  {
    if |s| == 0 then 0
    else if |s| == 1 then s[0]
    else if |s| == 2 then (s[0] as int) * 0x100 + s[1]
    else if |s| == 3 then (s[0] as int) * 0x1_0000 + (s[1] as int) * 0x100 + s[2]
    else (s[0] as int) * 0x100_0000 + (s[1] as int) * 0x1_0000 + (s[2] as int) * 0x100 + s[3]
  }

  function U16(n: nat): (s: bytes)
    requires n < 0x1_0000
    ensures |s| == 2
  {
    [n / 256, n % 256]
  }

  function U32(n: nat): (s: bytes)
    requires n < 0x1_0000_0000
    ensures |s| == 4
  {
    U16(n / 0x1_0000) + U16(n % 0x1_0000)
  }

  lemma {:induction false} BigEndianU16(n: nat)
    requires n < 0x1_0000
    ensures BigEndian(U16(n)) == n
  {
  }

  lemma {:induction false} BigEndianU32(n: nat)
    requires n < 0x1_0000_0000
    ensures BigEndian(U32(n)) == n
  {
    var hi, lo := n / 0x1_0000, n % 0x1_0000;
    assert U32(n) == [hi / 256, hi % 256, lo / 256, lo % 256];
  }

  lemma {:induction false} AppendAssoc<T>(a: seq<T>, b: seq<T>, c: seq<T>)
    ensures (a + b) + c == a + (b + c)
  {
  }

  lemma {:induction false} AppendNone<T>(s: seq<T>)
    ensures [] + s == s && s + [] == s
  {
  }

  lemma {:induction false} SliceOfSlice<T>(s: seq<T>, lo: nat, hi: nat, a: nat, b: nat)
    requires lo <= hi <= |s| && a <= b <= hi - lo
    ensures s[lo..hi][a..b] == s[lo + a..lo + b]
  {
    var t, u := s[lo..hi][a..b], s[lo + a..lo + b];
    forall k | 0 <= k < b - a ensures t[k] == u[k] {
      assert t[k] == s[lo..hi][a + k];
    }
  }

  /** The bytes s stand in data from position p on. */
  predicate At(data: bytes, p: nat, s: bytes)
    decreases |s|
  {
    if s == [] then p <= |data| else p < |data| && data[p] == s[0] && At(data, p + 1, s[1..])
  }

  lemma {:induction false} AtSplit(data: bytes, p: nat, a: bytes, b: bytes)
    requires At(data, p, a + b)
    ensures At(data, p, a) && At(data, p + |a|, b)
    decreases |a|
  {
    if a == [] {
      assert a + b == b;
      AtBound(data, p, b);
    } else {
      assert (a + b)[1..] == a[1..] + b;
      AtSplit(data, p + 1, a[1..], b);
    }
  }

  lemma {:induction false} AtBound(data: bytes, p: nat, s: bytes)
    requires At(data, p, s)
    ensures p + |s| <= |data|
    decreases |s|
  {
    if s != [] {
      AtBound(data, p + 1, s[1..]);
    }
  }

  lemma {:induction false} AtSlice(data: bytes, p: nat, s: bytes)
    requires At(data, p, s)
    ensures p + |s| <= |data| && data[p..p + |s|] == s && Slice(data, p, p + |s|) == s
    decreases |s|
  {
    if s != [] {
      AtSlice(data, p + 1, s[1..]);
      assert data[p..p + |s|] == [s[0]] + data[p + 1..p + |s|];
    }
  }

  lemma {:induction false} SliceAt(data: bytes, p: nat, s: bytes)
    requires p + |s| <= |data| && data[p..p + |s|] == s
    ensures At(data, p, s)
    decreases |s|
  {
    if s != [] {
      assert data[p] == data[p..p + |s|][0];
      assert data[p + 1..p + |s|] == data[p..p + |s|][1..];
      SliceAt(data, p + 1, s[1..]);
    }
  }

  /** The values f keeps of a list, in order. */
  function Keep<T, U>(s: seq<T>, f: T -> Option<U>): seq<U> {
    if s == [] then [] else (if f(s[0]).Some? then [f(s[0]).value] else []) + Keep(s[1..], f)
  }

  lemma {:induction false} KeepTurn<T, U>(s: seq<T>, f: T -> Option<U>, i: nat)
    requires i < |s|
    ensures Keep(s[i..], f) == (if f(s[i]).Some? then [f(s[i]).value] else []) + Keep(s[i + 1..], f)
  {
    assert s[i..][1..] == s[i + 1..] && s[i..][0] == s[i];
  }

  lemma {:induction false} KeepFirst<T, U>(x: T, s: seq<T>, f: T -> Option<U>)
    ensures Keep([x] + s, f) == (if f(x).Some? then [f(x).value] else []) + Keep(s, f)
  {
    assert ([x] + s)[1..] == s;
  }

  // ----- Results of loops that collect until something raises -----

  function Prepend<T, E>(out: seq<T>, rest: Result<seq<T>, E>): Result<seq<T>, E> {
    match rest
    case Err(e) => Err(e)
    case Ok(more) => Ok(out + more)
  }

  lemma {:induction false} PrependNone<T, E>(rest: Result<seq<T>, E>)
    ensures Prepend([], rest) == rest
  {
    if rest.Ok? {
      AppendNone(rest.value);
    }
  }

  lemma {:induction false} PrependLast<T, E>(out: seq<T>)
    ensures Prepend<T, E>(out, Ok([])) == Ok(out)
  {
    AppendNone(out);
  }

  lemma {:induction false} PrependError<T, E>(out: seq<T>, e: E)
    ensures Prepend(out, Err(e)) == Err(e)
  {
  }

  lemma {:induction false} PrependTwice<T, E>(a: seq<T>, b: seq<T>, rest: Result<seq<T>, E>)
    ensures Prepend(a, Prepend(b, rest)) == Prepend(a + b, rest)
  {
    if rest.Ok? {
      AppendAssoc(a, b, rest.value);
    }
  }
}
