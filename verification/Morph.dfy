/** morph_presets: one intermediate preset of a linear morph chain, with exact
    rationals for the interpolation and Python's round-half-even. */
module Morph {
  import opened Bytes
  import opened Ordering

  /** A sheet preset: a key may be absent or null; both read as None. */
  type Params = map<string, Option<int>>

  function Get(p: Params, key: string): Option<int> {
    if key in p then p[key] else None
  }

  // ----- Rounding -----

  /** round(num / den), ties to the even neighbour. */
  function RoundHalfEven(num: int, den: int): int
    requires den > 0
  {
    var q, r := num / den, num % den;
    if 2 * r < den then q else if 2 * r > den then q + 1 else if q % 2 == 0 then q else q + 1
  }

  /** Nearest, and even on a tie: the two facts that define the rounding. */
  lemma {:induction false} RoundsToNearest(num: int, den: int)
    requires den > 0
    ensures var r := RoundHalfEven(num, den);
            && 2 * den * r - den <= 2 * num <= 2 * den * r + den
            && (2 * num == 2 * den * r + den || 2 * num == 2 * den * r - den ==> r % 2 == 0)
  {
    var q, m := num / den, num % den;
    assert num == q * den + m;
    var r := RoundHalfEven(num, den);
    assert 2 * den * r == 2 * (q * den) || 2 * den * r == 2 * (q * den) + 2 * den;
  }

  lemma {:induction false} RoundIsUnique(num: int, den: int, r: int)
    requires den > 0
    requires 2 * den * r - den <= 2 * num <= 2 * den * r + den
    requires 2 * num == 2 * den * r + den || 2 * num == 2 * den * r - den ==> r % 2 == 0
    ensures r == RoundHalfEven(num, den)
  {
    RoundsToNearest(num, den);
    var s := RoundHalfEven(num, den);
    if s > r {
      Spread(den, s, r);
    } else if r > s {
      Spread(den, r, s);
    }
  }

  lemma {:induction false} ScaleUp(den: int, m: int, n: int)
    requires den > 0 && m <= n
    ensures den * m <= den * n
  {
    assert den * (n - m) >= 0;
  }

  lemma {:induction false} Spread(den: int, a: int, b: int)
    requires den > 0 && a > b
    ensures 2 * den * a >= 2 * den * b + 2 * den
    ensures a > b + 1 ==> 2 * den * a >= 2 * den * b + 4 * den
  {
    ScaleUp(den, b + 1, a);
    if a > b + 1 {
      ScaleUp(den, b + 2, a);
    }
  }

  lemma {:induction false} RoundMonotone(a: int, b: int, den: int)
    requires den > 0 && a <= b
    ensures RoundHalfEven(a, den) <= RoundHalfEven(b, den)
  {
    RoundsToNearest(a, den);
    RoundsToNearest(b, den);
    var r, s := RoundHalfEven(a, den), RoundHalfEven(b, den);
    if r > s {
      Spread(den, r, s);
    }
  }

  lemma {:induction false} RoundExact(v: int, den: int)
    requires den > 0
    ensures RoundHalfEven(v * den, den) == v
  {
    assert 2 * den * v == 2 * (v * den);
    RoundIsUnique(v * den, den, v);
  }

  // ----- Interpolation -----

  /** Position step of a chain with steps intermediates. */
  datatype Position = Position(step: nat, steps: nat) {
    predicate Valid() {
      1 <= step <= steps
    }

    function Reversed(): Position
      requires Valid()
    {
      Position(steps + 1 - step, steps)
    }
  }

  /** (va + (vb - va) * t) * (steps + 1), the line between the endpoints. */
  function Line(va: int, vb: int, at: Position): int {
    va * (at.steps + 1) + (vb - va) * at.step
  }

  /** round(va + (vb - va) * t, 1), in tenths. */
  function Tenth(va: int, vb: int, at: Position): int {
    RoundHalfEven(10 * Line(va, vb, at), at.steps + 1)
  }

  /** int(round(value)) of a value in tenths. */
  function ToInt(tenths: int): int {
    RoundHalfEven(tenths, 10)
  }

  lemma {:induction false} LineBetween(va: int, vb: int, at: Position)
    requires at.step <= at.steps + 1 && va <= vb
    ensures va * (at.steps + 1) <= Line(va, vb, at) <= vb * (at.steps + 1)
    ensures va * (at.steps + 1) <= Line(vb, va, at) <= vb * (at.steps + 1)
  {
    var n, k, d := at.steps + 1, at.step, vb - va;
    assert 0 <= d * k <= d * n;
    assert vb * n == va * n + d * n;
    assert (va - vb) * k == -(d * k);
  }

  /** The interpolated value lies between its endpoints, after one rounding and after two. */
  lemma {:induction false} Between(va: int, vb: int, at: Position)
    requires at.Valid() && va <= vb
    ensures 10 * va <= Tenth(va, vb, at) <= 10 * vb && 10 * va <= Tenth(vb, va, at) <= 10 * vb
    ensures va <= ToInt(Tenth(va, vb, at)) <= vb && va <= ToInt(Tenth(vb, va, at)) <= vb
  {
    LineBetween(va, vb, at);
    hide Line, RoundHalfEven;
    TenTimes(va, at.steps + 1);
    TenTimes(vb, at.steps + 1);
    RoundBetween(10 * va, 10 * vb, 10 * Line(va, vb, at), at.steps + 1);
    RoundBetween(10 * va, 10 * vb, 10 * Line(vb, va, at), at.steps + 1);
    RoundBetween(va, vb, Tenth(va, vb, at), 10);
    RoundBetween(va, vb, Tenth(vb, va, at), 10);
  }

  lemma {:induction false} TenTimes(v: int, n: int)
    ensures (10 * v) * n == 10 * (v * n)
  {
  }

  lemma {:induction false} RoundBetween(lo: int, hi: int, num: int, den: int)
    requires den > 0 && lo * den <= num <= hi * den
    ensures lo <= RoundHalfEven(num, den) <= hi
  {
    hide RoundHalfEven;
    RoundExact(lo, den);
    RoundExact(hi, den);
    RoundMonotone(lo * den, num, den);
    RoundMonotone(num, hi * den, den);
  }

  lemma {:induction false} RoundedTwice(n: int, line: int, t: int, w: int)
    requires n > 0 && -n <= 20 * line - 2 * (n * t) <= n && -10 <= 2 * t - 20 * w <= 10
    ensures -11 * n <= 20 * line - 20 * (n * w) <= 11 * n
  {
    ScaleUp(n, -10, 2 * t - 20 * w);
    ScaleUp(n, 2 * t - 20 * w, 10);
    assert n * (2 * t - 20 * w) == 2 * (n * t) - 20 * (n * w);
  }

  /** Within 0.05 of the exact line after one rounding, within 0.55 after two. */
  lemma {:induction false} NearLine(va: int, vb: int, at: Position)
    ensures var n, t := at.steps + 1, Tenth(va, vb, at);
            && -n <= 20 * Line(va, vb, at) - 2 * (n * t) <= n
            && -11 * n <= 20 * Line(va, vb, at) - 20 * (n * ToInt(t)) <= 11 * n
  {
    var n, t := at.steps + 1, Tenth(va, vb, at);
    hide Line, RoundHalfEven;
    Nearest(10 * Line(va, vb, at), n);
    Nearest(t, 10);
    hide Tenth, ToInt;
    RoundedTwice(n, Line(va, vb, at), t, ToInt(t));
  }

  lemma {:induction false} Nearest(num: int, den: int)
    requires den > 0
    ensures -den <= 2 * num - 2 * (den * RoundHalfEven(num, den)) <= den
  {
    RoundsToNearest(num, den);
    hide RoundHalfEven;
    var r := RoundHalfEven(num, den);
    assert 2 * den * r == 2 * (den * r);
  }

  /** The ladder climbs (or falls) with the step, in tenths and in written integers. */
  lemma {:induction false} Ladder(va: int, vb: int, j: nat, k: nat, steps: nat)
    requires j <= k
    ensures var a, b := Tenth(va, vb, Position(j, steps)), Tenth(va, vb, Position(k, steps));
            if va <= vb then a <= b && ToInt(a) <= ToInt(b) else b <= a && ToInt(b) <= ToInt(a)
  {
    var n, d := steps + 1, vb - va;
    var a, b := Position(j, steps), Position(k, steps);
    if d >= 0 {
      assert d * (k - j) >= 0;
      RoundMonotone(10 * Line(va, vb, a), 10 * Line(va, vb, b), n);
      RoundMonotone(Tenth(va, vb, a), Tenth(va, vb, b), 10);
    } else {
      assert (-d) * (k - j) >= 0;
      RoundMonotone(10 * Line(va, vb, b), 10 * Line(va, vb, a), n);
      RoundMonotone(Tenth(va, vb, b), Tenth(va, vb, a), 10);
    }
  }

  /** Step k of a chain equals step n + 1 - k of the chain walked backwards. */
  lemma {:induction false} Reversal(va: int, vb: int, at: Position)
    requires at.Valid()
    ensures Tenth(va, vb, at) == Tenth(vb, va, at.Reversed())
  {
    assert Line(va, vb, at) == Line(vb, va, at.Reversed()) by {
      var n, k := at.steps + 1, at.step;
      assert (va - vb) * (n - k) == va * n - vb * n + (vb - va) * k;
    }
  }

  // ----- One intermediate preset -----

  /** A step's value: copied from A, or interpolated in tenths. */
  datatype Value = Null | Whole(v: int) | Tenths(t: int) {
    /** int(round(v)) of a value that is not null. */
    function Rounded(): int
      requires !Null?
    {
      if Whole? then v else ToInt(t)
    }
  }

  /** Holds of every name. */
  predicate Every(name: string) {
    true
  }

  datatype Chain = Chain(a: Params, b: Params, continuous: string -> bool, indexMap: Option<map<string, int>>) {
    function Keys(): set<string> {
      a.Keys + b.Keys
    }

    /** Keys with a live plugin parameter; all of them without an index map. */
    predicate Live(key: string) {
      key in Keys() && (indexMap.Some? ==> key in indexMap.value)
    }

    predicate Moves(key: string) {
      continuous(key) && Get(a, key).Some? && Get(b, key).Some? && Get(a, key) != Get(b, key)
    }

    predicate Jumps(key: string) {
      !continuous(key) && Get(a, key) != Get(b, key)
    }

    function ValueAt(key: string, at: Position): Value {
      if Moves(key) then Tenths(Tenth(Get(a, key).value, Get(b, key).value, at))
      else if Get(a, key).Some? then Whole(Get(a, key).value)
      else Null
    }

    ghost function Intermediate(at: Position): Preset {
      StringsAreOrdered();
      Preset(
        map key | key in Keys() && Live(key) :: ValueAt(key, at),
        map key | key in Keys() && Live(key) && Moves(key) :: (Get(a, key).value, Get(b, key).value),
        Listed((set key | key in Keys() && Live(key) && Jumps(key)), StringLe),
        Listed((set key | key in Keys() && !Live(key)), StringLe),
        map key | key in Keys() && indexMap.Some? && Live(key) :: indexMap.value[key])
    }
  }

  datatype Preset = Preset(
    params: map<string, Value>,
    interp: map<string, (int, int)>,
    jumps: seq<string>,
    unmapped: seq<string>,
    paramIndex: map<string, int>)

  /** What the loop of build_intermediate does with one key. */
  function Visit(c: Chain, at: Position, r: Preset, key: string): Preset {
    if c.indexMap.Some? && key !in c.indexMap.value then r.(unmapped := r.unmapped + [key])
    else
      var va, vb, continuous := Get(c.a, key), Get(c.b, key), c.continuous(key);
      var p := if c.indexMap.Some? then r.(paramIndex := r.paramIndex[key := c.indexMap.value[key]]) else r;
      if continuous && va.Some? && vb.Some? && va != vb then
        p.(params := p.params[key := Tenths(Tenth(va.value, vb.value, at))],
           interp := p.interp[key := (va.value, vb.value)])
      else
        p.(params := p.params[key := if va.Some? then Whole(va.value) else Null],
           jumps := if !continuous && va != vb then p.jumps + [key] else p.jumps)
  }

  const NOTHING := Preset(map[], map[], [], [], map[])

  function Visited(c: Chain, at: Position, keys: seq<string>): Preset {
    if keys == [] then NOTHING
    else Visit(c, at, Visited(c, at, keys[..|keys| - 1]), keys[|keys| - 1])
  }

  lemma {:induction false} VisitTurn(c: Chain, at: Position, keys: seq<string>, i: nat)
    requires i < |keys|
    ensures Visited(c, at, keys[..i + 1]) == Visit(c, at, Visited(c, at, keys[..i]), keys[i])
  {
    hide Visit;
    assert keys[..i + 1][..i] == keys[..i];
  }

  lemma {:induction false} VisitedNone(c: Chain, at: Position, keys: seq<string>)
    ensures Visited(c, at, keys[..0]) == NOTHING
  {
  }

  method BuildIntermediate(c: Chain, at: Position) returns (r: Preset)
    ensures r == c.Intermediate(at)
  {
    hide Lists, Ascending, TotalOrder, Chain.Intermediate, Tenth, Get, Visited;
    StringsAreOrdered();
    var keys := SortedList(c.a.Keys + c.b.Keys, StringLe);
    r := NOTHING;
    VisitedNone(c, at, keys);
    for i := 0 to |keys|
      invariant r == Visited(c, at, keys[..i])
    {
      VisitTurn(c, at, keys, i);
      var key := keys[i];
      if c.indexMap.Some? && key !in c.indexMap.value {
        r := r.(unmapped := r.unmapped + [key]);
      } else {
        var va, vb, continuous := Get(c.a, key), Get(c.b, key), c.continuous(key);
        if c.indexMap.Some? {
          r := r.(paramIndex := r.paramIndex[key := c.indexMap.value[key]]);
        }
        if continuous && va.Some? && vb.Some? && va != vb {
          r := r.(params := r.params[key := Tenths(Tenth(va.value, vb.value, at))],
                  interp := r.interp[key := (va.value, vb.value)]);
        } else {
          r := r.(params := r.params[key := if va.Some? then Whole(va.value) else Null]);
          if !continuous && va != vb {
            r := r.(jumps := r.jumps + [key]);
          }
        }
      }
    }
    assert keys[..|keys|] == keys;
    VisitedAll(c, at, keys);
  }

  // ----- The loop builds the preset -----

  /** The visited keys that satisfy p, in order. */
  function Filtered(keys: seq<string>, p: string -> bool): seq<string> {
    if keys == [] then []
    else Filtered(keys[..|keys| - 1], p) + if p(keys[|keys| - 1]) then [keys[|keys| - 1]] else []
  }

  lemma {:induction false} FilteredAscends(keys: seq<string>, p: string -> bool)
    requires Ascending(keys, StringLe) && forall i, j :: 0 <= i < j < |keys| ==> keys[i] != keys[j]
    ensures Lists(Filtered(keys, p), (set k | k in keys && p(k)), StringLe)
    decreases |keys|
  {
    if keys != [] {
      var n := |keys| - 1;
      var f := Filtered(keys[..n], p);
      FilteredAscends(keys[..n], p);
      assert keys == keys[..n] + [keys[n]];
      forall i | 0 <= i < |f| ensures StringLe(f[i], keys[n]) && f[i] != keys[n] {
        assert f[i] in f && f[i] in keys[..n];
      }
    }
  }

  lemma {:induction false} FilteredIsListed(keys: seq<string>, all: set<string>, p: string -> bool)
    requires Lists(keys, all, StringLe)
    ensures TotalOrder(StringLe)
    ensures Filtered(keys, p) == Listed((set k | k in all && p(k)), StringLe)
  {
    StringsAreOrdered();
    FilteredAscends(keys, p);
    var s := set k | k in all && p(k);
    assert s == set k | k in keys && p(k);
    ListsUnique(Filtered(keys, p), Listed(s, StringLe), s, StringLe);
  }

  lemma {:induction false} VisitedParamsKeys(c: Chain, at: Position, keys: seq<string>)
    requires forall k :: k in keys ==> k in c.Keys()
    ensures forall k :: k in Visited(c, at, keys).params <==> k in keys && c.Live(k)
    decreases |keys|
  {
    hide Tenth, Get, Chain.ValueAt;
    if keys != [] {
      assert keys == keys[..|keys| - 1] + [keys[|keys| - 1]];
      VisitedParamsKeys(c, at, keys[..|keys| - 1]);
    }
  }

  lemma {:induction false} VisitedParams(c: Chain, at: Position, keys: seq<string>)
    requires Lists(keys, c.Keys(), StringLe)
    ensures Visited(c, at, keys).params == c.Intermediate(at).params
  {
    VisitedParamsKeys(c, at, keys);
    VisitedParamsValues(c, at, keys);
  }

  lemma {:induction false} VisitedParamsValues(c: Chain, at: Position, keys: seq<string>)
    ensures var m := Visited(c, at, keys).params; forall k :: k in m ==> m[k] == c.ValueAt(k, at)
    decreases |keys|
  {
    hide Tenth, Get;
    if keys != [] {
      VisitedParamsValues(c, at, keys[..|keys| - 1]);
    }
  }

  lemma {:induction false} VisitedInterpKeys(c: Chain, at: Position, keys: seq<string>)
    requires forall k :: k in keys ==> k in c.Keys()
    ensures forall k :: k in Visited(c, at, keys).interp <==> k in keys && c.Live(k) && c.Moves(k)
    decreases |keys|
  {
    hide Tenth, Get, Chain.ValueAt;
    if keys != [] {
      assert keys == keys[..|keys| - 1] + [keys[|keys| - 1]];
      VisitedInterpKeys(c, at, keys[..|keys| - 1]);
    }
  }

  lemma {:induction false} VisitedInterp(c: Chain, at: Position, keys: seq<string>)
    requires Lists(keys, c.Keys(), StringLe)
    ensures Visited(c, at, keys).interp == c.Intermediate(at).interp
  {
    VisitedInterpKeys(c, at, keys);
    VisitedInterpValues(c, at, keys);
  }

  lemma {:induction false} VisitedInterpValues(c: Chain, at: Position, keys: seq<string>)
    ensures var m := Visited(c, at, keys).interp;
            forall k :: k in m ==> c.Moves(k) && m[k] == (Get(c.a, k).value, Get(c.b, k).value)
    decreases |keys|
  {
    hide Tenth, Get;
    if keys != [] {
      VisitedInterpValues(c, at, keys[..|keys| - 1]);
    }
  }

  lemma {:induction false} VisitedIndexKeys(c: Chain, at: Position, keys: seq<string>)
    requires forall k :: k in keys ==> k in c.Keys()
    ensures forall k :: k in Visited(c, at, keys).paramIndex <==> k in keys && c.indexMap.Some? && c.Live(k)
    decreases |keys|
  {
    hide Tenth, Get, Chain.ValueAt;
    if keys != [] {
      assert keys == keys[..|keys| - 1] + [keys[|keys| - 1]];
      VisitedIndexKeys(c, at, keys[..|keys| - 1]);
    }
  }

  lemma {:induction false} VisitedIndex(c: Chain, at: Position, keys: seq<string>)
    requires Lists(keys, c.Keys(), StringLe)
    ensures Visited(c, at, keys).paramIndex == c.Intermediate(at).paramIndex
  {
    VisitedIndexKeys(c, at, keys);
    VisitedIndexValues(c, at, keys);
  }

  lemma {:induction false} VisitedIndexValues(c: Chain, at: Position, keys: seq<string>)
    ensures forall k :: k in Visited(c, at, keys).paramIndex ==>
              c.indexMap.Some? && k in c.indexMap.value && Visited(c, at, keys).paramIndex[k] == c.indexMap.value[k]
    decreases |keys|
  {
    hide Tenth, Get;
    if keys != [] {
      var before, key := Visited(c, at, keys[..|keys| - 1]), keys[|keys| - 1];
      assert Visited(c, at, keys) == Visit(c, at, before, key);
      VisitedIndexValues(c, at, keys[..|keys| - 1]);
    }
  }

  lemma {:induction false} VisitedLists(c: Chain, at: Position, keys: seq<string>)
    requires forall k :: k in keys ==> k in c.Keys()
    ensures var r := Visited(c, at, keys);
            && r.jumps == Filtered(keys, k => c.Live(k) && c.Jumps(k))
            && r.unmapped == Filtered(keys, k => !c.Live(k))
    decreases |keys|
  {
    if keys != [] {
      hide Tenth, Get;
      VisitedLists(c, at, keys[..|keys| - 1]);
    }
  }

  lemma {:induction false} VisitedAll(c: Chain, at: Position, keys: seq<string>)
    requires Lists(keys, c.Keys(), StringLe)
    ensures Visited(c, at, keys) == c.Intermediate(at)
  {
    hide Visited, Chain.Intermediate;
    VisitedJumps(c, at, keys);
    VisitedParams(c, at, keys);
    VisitedInterp(c, at, keys);
    VisitedIndex(c, at, keys);
  }

  lemma {:induction false} VisitedJumps(c: Chain, at: Position, keys: seq<string>)
    requires Lists(keys, c.Keys(), StringLe)
    ensures var r, s := Visited(c, at, keys), c.Intermediate(at); r.jumps == s.jumps && r.unmapped == s.unmapped
  {
    hide Visited, Filtered, Lists, StringLe;
    VisitedAreKeys(c, keys);
    VisitedLists(c, at, keys);
    JumpingKeys(c, keys);
    DeadKeys(c, keys);
  }

  lemma {:induction false} VisitedAreKeys(c: Chain, keys: seq<string>)
    requires Lists(keys, c.Keys(), StringLe)
    ensures forall k :: k in keys ==> k in c.Keys()
  {
  }

  lemma {:induction false} JumpingKeys(c: Chain, keys: seq<string>)
    requires Lists(keys, c.Keys(), StringLe)
    ensures TotalOrder(StringLe)
    ensures Filtered(keys, k => c.Live(k) && c.Jumps(k))
         == Listed((set k | k in c.Keys() && c.Live(k) && c.Jumps(k)), StringLe)
  {
    hide Filtered, StringLe;
    StringsAreOrdered();
    var jumping := (k: string) => c.Live(k) && c.Jumps(k);
    FilteredIsListed(keys, c.Keys(), jumping);
    assert (set k | k in c.Keys() && jumping(k)) == set k | k in c.Keys() && c.Live(k) && c.Jumps(k);
  }

  lemma {:induction false} DeadKeys(c: Chain, keys: seq<string>)
    requires Lists(keys, c.Keys(), StringLe)
    ensures TotalOrder(StringLe)
    ensures Filtered(keys, k => !c.Live(k)) == Listed((set k | k in c.Keys() && !c.Live(k)), StringLe)
  {
    hide Filtered, StringLe;
    StringsAreOrdered();
    var dead := (k: string) => !c.Live(k);
    FilteredIsListed(keys, c.Keys(), dead);
    assert (set k | k in c.Keys() && dead(k)) == set k | k in c.Keys() && !c.Live(k);
  }

  // ----- What a step holds -----

  predicate SevenBit(p: Params) {
    forall k :: k in p && p[k].Some? ==> 0 <= p[k].value <= 127
  }

  /** Every live key is interpolated, jumped or copied from A: exactly one of the
      three, the same one at every step of the chain. */
  lemma {:induction false} KeysPartition(c: Chain, at: Position, other: Position, key: string)
    requires c.Live(key)
    ensures var r, s := c.Intermediate(at), c.Intermediate(other);
            && key in r.params && key in s.params
            && (key in r.interp <==> key in s.interp) && (key in r.jumps <==> key in s.jumps)
            && !(key in r.interp && key in r.jumps)
            && (key in r.interp ==> r.interp[key] == s.interp[key] && Get(c.a, key) != Get(c.b, key))
            && (key !in r.interp ==> r.params[key] == s.params[key])
            && (key !in r.interp ==>
                  r.params[key] == if Get(c.a, key).Some? then Whole(Get(c.a, key).value) else Null)
            && (key !in r.interp && key !in r.jumps ==>
                  Get(c.a, key) == Get(c.b, key) || (c.continuous(key) && (Get(c.a, key).None? || Get(c.b, key).None?)))
  {
    StringsAreOrdered();
  }

  /** One key of one step. It is interpolated exactly when it is continuous and its two
      values differ, neither null, and then holds the tenths nearest to va + (vb - va) * t
      at t = step / (steps + 1), even on a tie; otherwise it is A's own, and jumps exactly
      when it is discrete and differs. */
  lemma {:induction false} StepHolds(c: Chain, at: Position, key: string)
    requires c.Live(key)
    ensures var r := c.Intermediate(at);
            var va := if key in c.a then c.a[key] else None;
            var vb := if key in c.b then c.b[key] else None;
            && key in r.params
            && (key in r.interp <==> c.continuous(key) && va.Some? && vb.Some? && va != vb)
            && (key in r.jumps <==> !c.continuous(key) && va != vb)
            && (key !in r.interp ==> r.params[key] == if va.Some? then Whole(va.value) else Null)
            && (key in r.interp ==>
                  && r.interp[key] == (va.value, vb.value) && r.params[key].Tenths?
                  && var n, t := at.steps + 1, r.params[key].t;
                     var line := va.value * n + (vb.value - va.value) * at.step;
                     && -n <= 20 * line - 2 * (n * t) <= n
                     && (20 * line - 2 * (n * t) == n || 20 * line - 2 * (n * t) == -n ==> t % 2 == 0))
  {
    StringsAreOrdered();
    var va, vb := Get(c.a, key), Get(c.b, key);
    if c.continuous(key) && va.Some? && vb.Some? && va != vb {
      TenthHolds(va.value, vb.value, at);
    }
    hide Tenth;
  }

  lemma {:induction false} TenthHolds(va: int, vb: int, at: Position)
    ensures var n, t := at.steps + 1, Tenth(va, vb, at);
            var line := va * n + (vb - va) * at.step;
            && -n <= 20 * line - 2 * (n * t) <= n
            && (20 * line - 2 * (n * t) == n || 20 * line - 2 * (n * t) == -n ==> t % 2 == 0)
  {
    var n := at.steps + 1;
    NearestEven(10 * Line(va, vb, at), n);
  }

  lemma {:induction false} NearestEven(num: int, den: int)
    requires den > 0
    ensures var r := RoundHalfEven(num, den);
            && -den <= 2 * num - 2 * (den * r) <= den
            && (2 * num - 2 * (den * r) == den || 2 * num - 2 * (den * r) == -den ==> r % 2 == 0)
  {
    RoundsToNearest(num, den);
    hide RoundHalfEven;
    var r := RoundHalfEven(num, den);
    assert 2 * den * r == 2 * (den * r);
  }

  /** Those two facts leave one value. */
  lemma {:induction false} OneTenth(n: int, line: int, t: int, u: int)
    requires n > 0
    requires -n <= 20 * line - 2 * (n * t) <= n && -n <= 20 * line - 2 * (n * u) <= n
    requires 20 * line - 2 * (n * t) == n || 20 * line - 2 * (n * t) == -n ==> t % 2 == 0
    requires 20 * line - 2 * (n * u) == n || 20 * line - 2 * (n * u) == -n ==> u % 2 == 0
    ensures t == u
  {
    assert 2 * n * t == 2 * (n * t) && 2 * n * u == 2 * (n * u);
    RoundIsUnique(10 * line, n, t);
    RoundIsUnique(10 * line, n, u);
  }

  /** What a writer writes for a step value: itself, or the integer nearest to its tenths,
      even on a tie. */
  lemma {:induction false} WrittenInteger(v: Value)
    requires !v.Null?
    ensures v.Whole? ==> v.Rounded() == v.v
    ensures v.Tenths? ==> && -10 <= 2 * v.t - 20 * v.Rounded() <= 10
                          && (2 * v.t - 20 * v.Rounded() == 10 || 2 * v.t - 20 * v.Rounded() == -10 ==>
                                v.Rounded() % 2 == 0)
  {
    if v.Tenths? {
      NearestEven(v.t, 10);
    }
  }

  /** r is the integer nearest to num / den, even on a tie. */
  predicate IsNearest(num: int, den: int, r: int) {
    && -den <= 2 * num - 2 * (den * r) <= den
    && (2 * num - 2 * (den * r) == den || 2 * num - 2 * (den * r) == -den ==> r % 2 == 0)
  }

  /** w is what step at of the chain writes for a key that A holds: the integer nearest to
      the tenths nearest to the line from A to B, or A's own value. */
  ghost predicate WrittenFor(c: Chain, at: Position, key: string, w: int) {
    && key in c.a && c.a[key].Some?
    && var va, n := c.a[key].value, at.steps + 1;
       if c.continuous(key) && key in c.b && c.b[key].Some? && c.b[key].value != va then
         exists t :: IsNearest(10 * (va * n + (c.b[key].value - va) * at.step), n, t) && IsNearest(t, 10, w)
       else w == va
  }

  lemma {:induction false} StepIsWritten(c: Chain, at: Position, key: string)
    requires c.Live(key) && key in c.a && c.a[key].Some?
    ensures key in c.Intermediate(at).params && !c.Intermediate(at).params[key].Null?
    ensures WrittenFor(c, at, key, c.Intermediate(at).params[key].Rounded())
  {
    StepHolds(c, at, key);
    hide Chain.Intermediate, ToInt;
    var v := c.Intermediate(at).params[key];
    WrittenInteger(v);
    if v.Tenths? {
      var va, vb, n := c.a[key].value, Get(c.b, key).value, at.steps + 1;
      var line := va * n + (vb - va) * at.step;
      assert IsNearest(10 * line, n, v.t) && IsNearest(v.t, 10, v.Rounded());
    }
  }

  /** With an index map the keys it lacks are listed and left out, and every other key
      carries its index; without one every key is live. */
  lemma {:induction false} MappedKeys(c: Chain, at: Position, key: string)
    requires key in c.a || key in c.b
    ensures var r := c.Intermediate(at);
            && (key in r.params <==> c.indexMap.None? || key in c.indexMap.value)
            && (key in r.unmapped <==> c.indexMap.Some? && key !in c.indexMap.value)
            && (key in r.paramIndex <==> c.indexMap.Some? && key in c.indexMap.value)
            && (key in r.paramIndex ==> r.paramIndex[key] == c.indexMap.value[key])
  {
    StringsAreOrdered();
  }

  /** Both lists are in order, each key once. */
  lemma {:induction false} ListsAreOrdered(c: Chain, at: Position, i: nat, j: nat)
    requires i < j
    ensures var jumps := c.Intermediate(at).jumps;
            j < |jumps| ==> jumps[i] != jumps[j] && StringLe(jumps[i], jumps[j])
    ensures var unmapped := c.Intermediate(at).unmapped;
            j < |unmapped| ==> unmapped[i] != unmapped[j] && StringLe(unmapped[i], unmapped[j])
  {
    hide StringLe;
    StringsAreOrdered();
  }

  /** A null in a step is a null of A. */
  lemma {:induction false} NullsAreParentNulls(c: Chain, at: Position, key: string)
    requires c.Live(key)
    ensures c.Intermediate(at).params[key].Null? <==> Get(c.a, key).None?
  {
    StringsAreOrdered();
  }

  /** What a writer writes for a key: a 7-bit integer between the parents' values. */
  lemma {:induction false} StepsAreSevenBit(c: Chain, at: Position, key: string)
    requires at.Valid() && SevenBit(c.a) && SevenBit(c.b) && c.Live(key) && Get(c.a, key).Some?
    ensures var v := c.Intermediate(at).params[key];
            && !v.Null? && 0 <= v.Rounded() <= 127
            && (!c.Moves(key) ==> v.Rounded() == Get(c.a, key).value)
            && (c.Moves(key) ==>
                  var va, vb := Get(c.a, key).value, Get(c.b, key).value;
                  if va <= vb then va <= v.Rounded() <= vb else vb <= v.Rounded() <= va)
  {
    StringsAreOrdered();
    if c.Moves(key) {
      var va, vb := Get(c.a, key).value, Get(c.b, key).value;
      hide Tenth, ToInt;
      Between(Min(va, vb), if va <= vb then vb else va, at);
    }
  }

  function Flip(c: Chain): Chain {
    c.(a := c.b, b := c.a)
  }

  /** The chain walked backwards meets the same interpolated values. */
  lemma {:induction false} ChainReversal(c: Chain, at: Position, key: string)
    requires at.Valid() && c.Live(key) && c.Moves(key)
    ensures Flip(c).Live(key) && Flip(c).Moves(key)
    ensures c.Intermediate(at).params[key] == Flip(c).Intermediate(at.Reversed()).params[key]
  {
    StringsAreOrdered();
    Reversal(Get(c.a, key).value, Get(c.b, key).value, at);
  }
}
