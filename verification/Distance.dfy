/** morph_presets.mean_distance: how far two presets are apart, and exactly when the
    triangle inequality holds. */
module Distance {
  import opened Bytes
  import opened Ordering
  import opened Morph

  /** _signed_diff: null against a value is the widest possible hop. */
  function Diff(a: Option<int>, b: Option<int>): int {
    if a.None? && b.None? then 0
    else if a.None? || b.None? then 127
    else if a.value < b.value then b.value - a.value else a.value - b.value
  }

  function DiffAt(k: string, a: Params, b: Params): int {
    Diff(Get(a, k), Get(b, k))
  }

  function TotalDiff(keys: seq<string>, a: Params, b: Params): int {
    if keys == [] then 0 else DiffAt(keys[0], a, b) + TotalDiff(keys[1..], a, b)
  }

  datatype DistanceError = ZeroDivision

  function Mean(total: int, n: int): real
    requires n > 0
  {
    total as real / 127.0 / n as real
  }

  /** mean |a - b| / 127 over the union of the keys. */
  ghost function MeanDistance(a: Params, b: Params): Result<real, DistanceError> {
    StringsAreOrdered();
    var keys := Listed(a.Keys + b.Keys, StringLe);
    if keys == [] then Err(ZeroDivision)
    else Ok(Mean(TotalDiff(keys, a, b), |keys|))
  }

  // ----- Totals over sets of keys -----

  ghost function Total(keys: set<string>, a: Params, b: Params): int
    decreases |keys|
  {
    if keys == {} then 0
    else
      var k :| k in keys;
      DiffAt(k, a, b) + Total(keys - {k}, a, b)
  }

  lemma {:induction false} TotalTakes(keys: set<string>, a: Params, b: Params, k: string)
    requires k in keys
    ensures Total(keys, a, b) == DiffAt(k, a, b) + Total(keys - {k}, a, b)
    decreases |keys|
  {
    hide DiffAt;
    var j :| j in keys && Total(keys, a, b) == DiffAt(j, a, b) + Total(keys - {j}, a, b);
    if j != k {
      TotalTakes(keys - {j}, a, b, k);
      TotalTakes(keys - {k}, a, b, j);
      assert keys - {j} - {k} == keys - {k} - {j};
    }
  }

  lemma {:induction false} TotalOfList(list: seq<string>, keys: set<string>, a: Params, b: Params)
    requires (forall k :: k in list <==> k in keys) && forall i, j :: 0 <= i < j < |list| ==> list[i] != list[j]
    ensures TotalDiff(list, a, b) == Total(keys, a, b) && |list| == |keys|
    decreases |list|
  {
    hide DiffAt;
    if list == [] {
      assert keys == {};
    } else {
      assert list == [list[0]] + list[1..];
      TotalTakes(keys, a, b, list[0]);
      TotalOfList(list[1..], keys - {list[0]}, a, b);
    }
  }

  lemma {:induction false} TotalSplits(s: set<string>, t: set<string>, a: Params, b: Params)
    requires s !! t
    ensures Total(s + t, a, b) == Total(s, a, b) + Total(t, a, b)
    decreases |t|
  {
    hide DiffAt;
    if t == {} {
      assert s + t == s;
    } else {
      var k :| k in t;
      TotalTakes(t, a, b, k);
      TotalTakes(s + t, a, b, k);
      TotalSplits(s, t - {k}, a, b);
      assert s + t - {k} == s + (t - {k});
    }
  }

  /** One key: between 0 and 127, symmetric, zero exactly on agreement, and triangular. */
  lemma {:induction false} DiffLaws(k: string, a: Params, b: Params, c: Params)
    requires SevenBit(a) && SevenBit(b) && SevenBit(c)
    ensures 0 <= DiffAt(k, a, b) <= 127 && DiffAt(k, a, b) == DiffAt(k, b, a)
    ensures DiffAt(k, a, c) <= DiffAt(k, a, b) + DiffAt(k, b, c)
    ensures DiffAt(k, a, b) == 0 <==> Get(a, k) == Get(b, k)
  {
  }

  lemma {:induction false} TotalLaws(keys: set<string>, a: Params, b: Params, c: Params)
    requires SevenBit(a) && SevenBit(b) && SevenBit(c)
    ensures 0 <= Total(keys, a, b) <= 127 * |keys| && Total(keys, a, b) == Total(keys, b, a)
    ensures Total(keys, a, c) <= Total(keys, a, b) + Total(keys, b, c)
    ensures Total(keys, a, b) == 0 <==> forall k :: k in keys ==> Get(a, k) == Get(b, k)
    decreases |keys|
  {
    hide DiffAt, Get, SevenBit;
    if keys != {} {
      var k :| k in keys;
      DiffLaws(k, a, b, c);
      TotalTakes(keys, a, b, k);
      TotalTakes(keys, b, a, k);
      TotalTakes(keys, b, c, k);
      TotalTakes(keys, a, c, k);
      TotalLaws(keys - {k}, a, b, c);
    }
  }

  /** Keys neither preset has count nothing. */
  lemma {:induction false} ForeignKeys(keys: set<string>, a: Params, b: Params)
    requires forall k :: k in keys ==> k !in a && k !in b
    ensures Total(keys, a, b) == 0
    decreases |keys|
  {
    if keys != {} {
      var k :| k in keys;
      TotalTakes(keys, a, b, k);
      ForeignKeys(keys - {k}, a, b);
    }
  }

  /** Keys where one preset has a value and the other has nothing count 127 each. */
  lemma {:induction false} FullKeys(keys: set<string>, a: Params, b: Params)
    requires forall k :: k in keys ==> Get(a, k).None? != Get(b, k).None?
    ensures Total(keys, a, b) == 127 * |keys|
    decreases |keys|
  {
    hide Get;
    if keys != {} {
      var k :| k in keys;
      TotalTakes(keys, a, b, k);
      FullKeys(keys - {k}, a, b);
    }
  }

  lemma {:induction false} DistanceIs(a: Params, b: Params)
    requires a.Keys + b.Keys != {}
    ensures |a.Keys + b.Keys| > 0
    ensures MeanDistance(a, b) == Ok(Mean(Total(a.Keys + b.Keys, a, b), |a.Keys + b.Keys|))
  {
    hide Mean, StringLe;
    StringsAreOrdered();
    TotalOfList(Listed(a.Keys + b.Keys, StringLe), a.Keys + b.Keys, a, b);
  }

  // ----- Means -----

  lemma {:induction false} DivideCross(x: real, m: real, y: real, n: real)
    requires m > 0.0 && n > 0.0
    ensures x * n <= y * m ==> x / m <= y / n
    ensures x * n < y * m ==> x / m < y / n
  {
    var p, q := x / m, y / n;
    assert x == p * m && y == q * n;
    assert x * n == p * (m * n) && y * m == q * (m * n);
    assert m * n > 0.0;
    if p > q {
      assert (p - q) * (m * n) > 0.0;
    } else if p < q {
      assert (q - p) * (m * n) > 0.0;
    }
  }

  lemma {:induction false} MeanCross(x: int, m: int, y: int, n: int)
    requires m > 0 && n > 0
    ensures x * n <= y * m ==> Mean(x, m) <= Mean(y, n)
    ensures x * n < y * m ==> Mean(x, m) < Mean(y, n)
  {
    var u, v := x as real / 127.0, y as real / 127.0;
    assert (x * n) as real == 127.0 * (u * n as real) && (y * m) as real == 127.0 * (v * m as real);
    DivideCross(u, m as real, v, n as real);
  }

  lemma {:induction false} MeanAdds(x: int, y: int, n: int)
    requires n > 0
    ensures Mean(x + y, n) == Mean(x, n) + Mean(y, n)
  {
    var u, v, w := Mean(x, n), Mean(y, n), Mean(x + y, n);
    assert u * n as real == x as real / 127.0 && v * n as real == y as real / 127.0;
    assert w * n as real == (x as real + y as real) / 127.0;
    assert (u + v) * n as real == w * n as real;
  }

  lemma {:induction false} MeanEnds(x: int, n: int)
    requires n > 0 && 0 <= x <= 127 * n
    ensures 0.0 <= Mean(x, n) <= 1.0 && (Mean(x, n) == 0.0 <==> x == 0)
  {
    assert Mean(0, 1) == 0.0 && Mean(127, 1) == 1.0;
    MeanCross(0, 1, x, n);
    MeanCross(x, n, 127, 1);
    MeanCross(x, n, 0, 1);
  }

  // ----- Key by key -----

  /** How far two presets are apart on one key: 127 where one has a value and the other
      none, else the difference of the values. */
  function Gap(a: Params, b: Params, k: string): int {
    var x := if k in a then a[k] else None;
    var y := if k in b then b[k] else None;
    if x.Some? && y.Some? then Max(x.value - y.value, y.value - x.value) else if x.None? && y.None? then 0 else 127
  }

  function Max(x: int, y: int): int {
    if x < y then y else x
  }

  lemma {:induction false} WithoutKey(keys: set<string>, a: Params, b: Params, k: string)
    requires k !in keys
    ensures Total(keys, a - {k}, b - {k}) == Total(keys, a, b)
    decreases |keys|
  {
    if keys != {} {
      var j :| j in keys;
      TotalTakes(keys, a, b, j);
      TotalTakes(keys, a - {k}, b - {k}, j);
      WithoutKey(keys - {j}, a, b, k);
    }
  }

  /** What a distance over n keys stands for: the sum of the gaps. */
  function SumOfGaps(d: real, n: nat): real {
    d * 127.0 * n as real
  }

  lemma {:induction false} MeanTimes(t: int, n: nat)
    requires n > 0
    ensures SumOfGaps(Mean(t, n), n) == t as real
  {
    var u := t as real / 127.0;
    assert u / n as real * n as real == u;
  }

  /** Presets of one key are apart by its gap. */
  lemma {:induction false} OneKeyApart(a: Params, b: Params, k: string)
    requires a.Keys + b.Keys == {k}
    ensures MeanDistance(a, b).Ok? && SumOfGaps(MeanDistance(a, b).value, 1) == Gap(a, b, k) as real
  {
    hide Mean, MeanDistance, DiffAt, Gap, SumOfGaps, Total;
    DistanceIs(a, b);
    TotalTakes({k}, a, b, k);
    assert {k} - {k} == {};
    NoTotal(a, b);
    GapIs(a, b, k);
    MeanTimes(Total({k}, a, b), 1);
  }

  /** Taking one key of several away takes its gap away. */
  lemma {:induction false} DistanceSums(a: Params, b: Params, k: string)
    requires (k in a || k in b) && |a.Keys + b.Keys| > 1
    ensures MeanDistance(a, b).Ok? && MeanDistance(a - {k}, b - {k}).Ok?
    ensures var n := |a.Keys + b.Keys|;
            SumOfGaps(MeanDistance(a, b).value, n) ==
            Gap(a, b, k) as real + SumOfGaps(MeanDistance(a - {k}, b - {k}).value, n - 1)
  {
    hide Mean, MeanDistance, DiffAt, Gap, SumOfGaps, Total;
    var keys := a.Keys + b.Keys;
    var rest := keys - {k};
    DistanceIs(a, b);
    GapIs(a, b, k);
    TotalTakes(keys, a, b, k);
    WithoutKey(rest, a, b, k);
    assert |rest| == |keys| - 1;
    LessKeys(a, b, k);
    DistanceIs(a - {k}, b - {k});
    MeanTimes(Total(keys, a, b), |keys|);
    MeanTimes(Total(rest, a, b), |rest|);
  }

  lemma {:induction false} LessKeys(a: Params, b: Params, k: string)
    ensures (a - {k}).Keys + (b - {k}).Keys == a.Keys + b.Keys - {k}
  {
  }

  lemma {:induction false} GapIs(a: Params, b: Params, k: string)
    ensures DiffAt(k, a, b) == Gap(a, b, k)
  {
  }

  lemma {:induction false} NoTotal(a: Params, b: Params)
    ensures Total({}, a, b) == 0
  {
  }

  /** Two presets without keys have no distance. */
  lemma {:induction false} NoDistance(a: Params, b: Params)
    ensures MeanDistance(a, b) == Err(ZeroDivision) <==> a.Keys + b.Keys == {}
  {
    hide StringLe, Mean;
    StringsAreOrdered();
    var keys := Listed(a.Keys + b.Keys, StringLe);
    if k :| k in a.Keys + b.Keys {
      assert k in keys;
    }
    if keys != [] {
      assert keys[0] in keys;
    }
  }

  // ----- The metric laws, over any key sets -----

  predicate NoForeignNulls(b: Params, a: Params, c: Params) {
    forall k :: k in b && k !in a && k !in c ==> b[k].Some?
  }

  ghost predicate Triangle(a: Params, b: Params, c: Params) {
    var ab, bc, ac := MeanDistance(a, b), MeanDistance(b, c), MeanDistance(a, c);
    ab.Ok? && bc.Ok? && ac.Ok? && ac.value <= ab.value + bc.value
  }

  /** Distance is symmetric, at most 1, and zero exactly when no key tells the presets
      apart, an absent key reading as null; over one set of keys, exactly on equal presets. */
  lemma {:induction false} DistanceLaws(a: Params, b: Params)
    requires SevenBit(a) && SevenBit(b) && a.Keys + b.Keys != {}
    ensures MeanDistance(a, b).Ok? && MeanDistance(a, b) == MeanDistance(b, a)
    ensures var d := MeanDistance(a, b).value;
            && 0.0 <= d <= 1.0
            && (d == 0.0 <==> forall k :: k in a || k in b ==> Get(a, k) == Get(b, k))
            && (a.Keys == b.Keys ==> (d == 0.0 <==> a == b))
  {
    hide MeanDistance, Mean;
    var keys := a.Keys + b.Keys;
    assert keys == b.Keys + a.Keys;
    DistanceIs(a, b);
    DistanceIs(b, a);
    TotalLaws(keys, a, b, a);
    MeanEnds(Total(keys, a, b), |keys|);
    SameValues(a, b);
  }

  lemma {:induction false} SameValues(a: Params, b: Params)
    ensures a.Keys == b.Keys ==> (a == b <==> forall k :: k in a || k in b ==> Get(a, k) == Get(b, k))
  {
    if a.Keys == b.Keys && forall k :: k in a || k in b ==> Get(a, k) == Get(b, k) {
      forall k | k in a ensures a[k] == b[k] {
        assert Get(a, k) == Get(b, k);
      }
    }
  }

  /** One leg of the triangle, measured over the keys of the third side. */
  lemma {:induction false} LegAtLeast(a: Params, b: Params, c: Params)
    requires SevenBit(a) && SevenBit(b) && NoForeignNulls(b, a, c)
    requires a.Keys + b.Keys != {} && a.Keys + c.Keys != {}
    ensures |a.Keys + b.Keys| > 0 && |a.Keys + c.Keys| > 0
    ensures Mean(Total(a.Keys + c.Keys, a, b), |a.Keys + c.Keys|) <=
            Mean(Total(a.Keys + b.Keys, a, b), |a.Keys + b.Keys|)
  {
    hide Mean, SevenBit, Total, NoForeignNulls;
    var x, p, e := LegSizes(a, b, c);
    RaisedBy(a.Keys + c.Keys, a.Keys + b.Keys, a, b, x, p, e);
  }

  lemma {:induction false} RaisedBy(u: set<string>, all: set<string>, a: Params, b: Params, x: int, p: int, e: int)
    requires u != {} && all != {} && Total(u, a, b) == x && Total(all, a, b) == x + 127 * e
    requires |all| == p + e && 0 <= p <= |u| && e >= 0 && 0 <= x <= 127 * p
    ensures |u| > 0 && |all| > 0 && Mean(Total(u, a, b), |u|) <= Mean(Total(all, a, b), |all|)
  {
    hide Mean, Total;
    NotEmpty(u);
    NotEmpty(all);
    FullKeysRaise(x, p, e, |u|);
  }

  /** x, p: total and number of the keys of both sides; e: the middle preset's own keys. */
  lemma {:induction false} LegSizes(a: Params, b: Params, c: Params) returns (x: int, p: int, e: int)
    requires SevenBit(a) && SevenBit(b) && NoForeignNulls(b, a, c)
    ensures Total(a.Keys + c.Keys, a, b) == x && Total(a.Keys + b.Keys, a, b) == x + 127 * e
    ensures |a.Keys + b.Keys| == p + e && 0 <= p <= |a.Keys + c.Keys| && e >= 0 && 0 <= x <= 127 * p
  {
    hide SevenBit, Total, NoForeignNulls;
    var u, all := a.Keys + c.Keys, a.Keys + b.Keys;
    var shared, foreign := all * u, b.Keys - u;
    x, p, e := Total(shared, a, b), |shared|, |foreign|;
    LegParts(u, all, shared, foreign, a, b);
    ForeignKeys(u - all, a, b);
    ForeignIsFull(a, b, c, foreign);
    TotalLaws(shared, a, b, a);
  }

  lemma {:induction false} LegParts(u: set<string>, all: set<string>, shared: set<string>, foreign: set<string>,
      a: Params, b: Params)
    requires shared == all * u && foreign == b.Keys - u && all == a.Keys + b.Keys && a.Keys <= u
    ensures Total(all, a, b) == Total(shared, a, b) + Total(foreign, a, b)
    ensures Total(u, a, b) == Total(shared, a, b) + Total(u - all, a, b)
    ensures |all| == |shared| + |foreign| && |shared| <= |u|
  {
    hide Total;
    assert all == shared + foreign && u == shared + (u - all);
    TotalSplits(shared, foreign, a, b);
    TotalSplits(shared, u - all, a, b);
    assert |u| == |shared| + |u - all|;
  }

  lemma {:induction false} ForeignIsFull(a: Params, b: Params, c: Params, foreign: set<string>)
    requires NoForeignNulls(b, a, c) && forall k :: k in foreign ==> k in b && k !in a && k !in c
    ensures Total(foreign, a, b) == 127 * |foreign|
  {
    FullKeys(foreign, a, b);
  }

  /** Keys that count in full, and keys fewer, can only raise a mean. */
  lemma {:induction false} FullKeysRaise(x: int, p: int, e: int, n: int)
    requires 0 <= x <= 127 * p && 0 <= p <= n && e >= 0 && p + e > 0 && n > 0
    ensures Mean(x, n) <= Mean(x + 127 * e, p + e)
  {
    hide Mean;
    Mediant(x, p, e, n);
    MeanCross(x, n, x + 127 * e, p + e);
  }

  lemma {:induction false} Mediant(s: int, p: int, e: int, n: int)
    requires 0 <= s <= 127 * p && 0 <= p <= n && e >= 0
    ensures s * (p + e) <= (s + 127 * e) * n
  {
    assert s * p <= s * n;
    assert s * e <= 127 * n * e by {
      assert (127 * n - s) * e >= 0;
    }
    assert s * (p + e) == s * p + s * e && (s + 127 * e) * n == s * n + 127 * n * e;
  }

  /** The triangle inequality holds over any key sets, as long as the middle preset
      stores no null under a key the outer two lack: in particular on all presets
      without nulls, and on all presets over one set of keys. */
  lemma {:induction false} DistanceIsMetric(a: Params, b: Params, c: Params)
    requires SevenBit(a) && SevenBit(b) && SevenBit(c) && NoForeignNulls(b, a, c)
    requires a.Keys + b.Keys != {} && b.Keys + c.Keys != {} && a.Keys + c.Keys != {}
    ensures Triangle(a, b, c)
  {
    hide Mean, SevenBit, NoForeignNulls, Triangle;
    var u := a.Keys + c.Keys;
    LegAtLeast(a, b, c);
    FlipNulls(a, b, c);
    assert c.Keys + a.Keys == u && c.Keys + b.Keys == b.Keys + c.Keys;
    LegAtLeast(c, b, a);
    TotalLaws(u, c, b, a);
    TotalLaws(b.Keys + c.Keys, b, c, b);
    FromLegs(a, b, c);
  }

  /** Both short legs over the long side's keys are enough. */
  lemma {:induction false} FromLegs(a: Params, b: Params, c: Params)
    requires SevenBit(a) && SevenBit(b) && SevenBit(c)
    requires a.Keys + b.Keys != {} && b.Keys + c.Keys != {} && a.Keys + c.Keys != {}
    requires |a.Keys + b.Keys| > 0 && |b.Keys + c.Keys| > 0 && |a.Keys + c.Keys| > 0
    requires Mean(Total(a.Keys + c.Keys, a, b), |a.Keys + c.Keys|) <=
            Mean(Total(a.Keys + b.Keys, a, b), |a.Keys + b.Keys|)
    requires Mean(Total(a.Keys + c.Keys, b, c), |a.Keys + c.Keys|) <=
            Mean(Total(b.Keys + c.Keys, b, c), |b.Keys + c.Keys|)
    ensures Triangle(a, b, c)
  {
    hide MeanDistance, Mean, SevenBit, Total;
    var u := a.Keys + c.Keys;
    DistanceIs(a, b);
    DistanceIs(b, c);
    DistanceIs(a, c);
    TotalLaws(u, a, b, c);
    MeanSum(Total(u, a, b), Total(u, b, c), Total(u, a, c), |u|);
  }

  lemma {:induction false} MeanSum(ab: int, bc: int, ac: int, n: int)
    requires n > 0 && ac <= ab + bc
    ensures Mean(ac, n) <= Mean(ab, n) + Mean(bc, n)
  {
    hide Mean;
    MeanAdds(ab, bc, n);
    assert ac * n <= (ab + bc) * n;
    MeanCross(ac, n, ab + bc, n);
  }

  /** The same total over fewer keys is a greater mean. */
  lemma {:induction false} MeanWidens(x: int, n: int, y: int, m: int)
    requires n >= m > 0 && 0 <= x <= y
    ensures Mean(x, n) <= Mean(y, m)
  {
    hide Mean;
    assert (y - x) * m >= 0 && y * (n - m) >= 0;
    assert y * n - x * m == (y - x) * m + y * (n - m);
    MeanCross(x, n, y, m);
  }

  lemma {:induction false} FlipNulls(a: Params, b: Params, c: Params)
    requires NoForeignNulls(b, a, c)
    ensures NoForeignNulls(b, c, a)
  {
  }

  // ----- Exactly which key sets -----

  /** Presets over one set of keys, nulls stored as nulls. */
  predicate Over(keys: set<string>, p: Params) {
    p.Keys == keys && SevenBit(p)
  }

  ghost predicate TriangleOver(ka: set<string>, kb: set<string>, kc: set<string>) {
    forall a, b, c :: Over(ka, a) && Over(kb, b) && Over(kc, c) ==> Triangle(a, b, c)
  }

  /** Of all 7-bit-or-null presets over three sets of keys, the triangle inequality
      holds exactly when the outer two have at least as many keys together as either
      has with the middle one. */
  lemma {:induction false} TriangleExactly(ka: set<string>, kb: set<string>, kc: set<string>)
    requires ka + kb != {} && kb + kc != {} && ka + kc != {}
    ensures TriangleOver(ka, kb, kc) <==> |ka + kc| >= |ka + kb| && |ka + kc| >= |kb + kc|
  {
    hide Triangle, Over, TriangleOver;
    if |ka + kc| >= |ka + kb| && |ka + kc| >= |kb + kc| {
      WideEnough(ka, kb, kc);
    } else {
      TooNarrow(ka, kb, kc);
    }
  }

  lemma {:induction false} WideEnough(ka: set<string>, kb: set<string>, kc: set<string>)
    requires ka + kb != {} && kb + kc != {} && ka + kc != {}
    requires |ka + kc| >= |ka + kb| && |ka + kc| >= |kb + kc|
    ensures TriangleOver(ka, kb, kc)
  {
    hide Triangle;
    forall a, b, c | Over(ka, a) && Over(kb, b) && Over(kc, c) ensures Triangle(a, b, c) {
      WideTriangle(a, b, c);
    }
  }

  /** A total over one union is at most the total over any wider set of the first's keys. */
  lemma {:induction false} WideLeg(keys: set<string>, a: Params, b: Params)
    requires SevenBit(a) && SevenBit(b)
    ensures Total(keys, a, b) <= Total(a.Keys + b.Keys, a, b)
  {
    hide SevenBit;
    var all := a.Keys + b.Keys;
    assert keys == keys * all + (keys - all) && all == all * keys + (all - keys);
    TotalSplits(keys * all, keys - all, a, b);
    TotalSplits(all * keys, all - keys, a, b);
    assert keys * all == all * keys;
    ForeignKeys(keys - all, a, b);
    TotalLaws(all - keys, a, b, a);
  }

  lemma {:induction false} WideTriangle(a: Params, b: Params, c: Params)
    requires SevenBit(a) && SevenBit(b) && SevenBit(c)
    requires a.Keys + b.Keys != {} && b.Keys + c.Keys != {} && a.Keys + c.Keys != {}
    requires |a.Keys + c.Keys| >= |a.Keys + b.Keys| && |a.Keys + c.Keys| >= |b.Keys + c.Keys|
    ensures Triangle(a, b, c)
  {
    hide MeanDistance, Mean, SevenBit, Total, Triangle;
    var u, p, q := a.Keys + c.Keys, a.Keys + b.Keys, b.Keys + c.Keys;
    NotEmpty(p);
    NotEmpty(q);
    WideLeg(u, a, b);
    WideLeg(u, b, c);
    TotalLaws(u, a, b, c);
    TotalLaws(u, b, c, a);
    MeanWidens(Total(u, a, b), |u|, Total(p, a, b), |p|);
    MeanWidens(Total(u, b, c), |u|, Total(q, b, c), |q|);
    FromLegs(a, b, c);
  }

  lemma {:induction false} NotEmpty(s: set<string>)
    requires s != {}
    ensures |s| > 0
  {
  }

  /** All keys null but one. */
  function Lone(keys: set<string>, x: string): Params {
    map k | k in keys :: if k == x then Some(0) else None
  }

  function Nulls(keys: set<string>): Params {
    map k | k in keys :: None
  }

  /** A preset with one value against presets of nulls only. */
  lemma {:induction false} LoneFails(ka: set<string>, kb: set<string>, kc: set<string>, x: string)
    requires x in ka && |ka + kb| > |ka + kc| && kb + kc != {}
    ensures Over(ka, Lone(ka, x)) && Over(kb, Nulls(kb)) && Over(kc, Nulls(kc))
    ensures !Triangle(Lone(ka, x), Nulls(kb), Nulls(kc))
    ensures !Triangle(Nulls(kc), Nulls(kb), Lone(ka, x))
  {
    hide MeanDistance;
    var a, b, c := Lone(ka, x), Nulls(kb), Nulls(kc);
    assert x in ka + kc && x in ka + kb;
    LoneDistance(ka, kb, x);
    LoneDistance(ka, kc, x);
    NullDistance(kb, kc);
    MeanCross(127, |ka + kb|, 127, |ka + kc|);
    DistanceLaws(a, b);
    DistanceLaws(b, c);
    DistanceLaws(a, c);
  }

  lemma {:induction false} LoneDistance(ka: set<string>, kb: set<string>, x: string)
    requires x in ka
    ensures |ka + kb| > 0 && MeanDistance(Lone(ka, x), Nulls(kb)) == Ok(Mean(127, |ka + kb|))
    ensures Over(ka, Lone(ka, x)) && Over(kb, Nulls(kb))
  {
    hide MeanDistance, Mean;
    var a, b := Lone(ka, x), Nulls(kb);
    assert a.Keys == ka && b.Keys == kb && x in ka + kb;
    LoneTotal(ka + kb, ka, kb, x);
    hide Total;
    DistanceIs(a, b);
  }

  lemma {:induction false} NullDistance(kb: set<string>, kc: set<string>)
    requires kb + kc != {}
    ensures MeanDistance(Nulls(kb), Nulls(kc)) == Ok(0.0)
    ensures Nulls(kb).Keys == kb && Nulls(kc).Keys == kc
  {
    hide MeanDistance;
    var b, c := Nulls(kb), Nulls(kc);
    assert b.Keys == kb && c.Keys == kc;
    DistanceLaws(b, c);
    assert forall k :: k in b || k in c ==> Get(b, k) == Get(c, k);
  }

  lemma {:induction false} LoneTotal(keys: set<string>, ka: set<string>, kb: set<string>, x: string)
    requires x in ka && x in keys
    ensures Total(keys, Lone(ka, x), Nulls(kb)) == 127
  {
    var a, b := Lone(ka, x), Nulls(kb);
    TotalTakes(keys, a, b, x);
    TotalLaws(keys - {x}, a, b, a);
    assert forall k :: k in keys - {x} ==> Get(a, k) == Get(b, k);
  }

  lemma {:induction false} TooNarrow(ka: set<string>, kb: set<string>, kc: set<string>)
    requires ka + kb != {} && kb + kc != {} && ka + kc != {}
    requires |ka + kc| < |ka + kb| || |ka + kc| < |kb + kc|
    ensures !TriangleOver(ka, kb, kc)
  {
    hide Triangle, Over;
    assert ka + kc == kc + ka && ka + kb == kb + ka && kb + kc == kc + kb;
    if |ka + kc| < |ka + kb| {
      NarrowSide(ka, kb, kc);
    } else {
      NarrowSide(kc, kb, ka);
    }
  }

  /** The value goes into the outer preset of the narrow side; when that one has no
      keys, the other side is narrow as well. */
  lemma {:induction false} NarrowSide(ka: set<string>, kb: set<string>, kc: set<string>)
    requires kb + kc != {} && ka + kc != {} && |ka + kc| < |ka + kb|
    ensures !TriangleOver(ka, kb, kc) && !TriangleOver(kc, kb, ka)
  {
    hide Triangle, Over;
    if ka != {} {
      var x :| x in ka;
      LoneFails(ka, kb, kc, x);
    } else {
      EmptySide(kb, kc, ka);
      assert kb + ka == ka + kb && ka + kb != {};
      var x :| x in kc;
      LoneFails(kc, kb, ka, x);
    }
  }

  lemma {:induction false} EmptySide(kb: set<string>, k: set<string>, none: set<string>)
    requires none == {} && |none + k| < |none + kb| && none + k != {}
    ensures |k + kb| > |k + none| && k != {}
  {
    assert none + k == k && none + kb == kb && k + none == k;
    assert k + kb == kb + (k - kb);
  }
}
