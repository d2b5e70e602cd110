/** vavra_dump.build_vavra_morphs: what every step of a byte-verified pair holds. */
module VavraMorphs {
  import opened Bytes
  import opened Ordering
  import opened Text
  import opened Dictionaries
  import opened VavraDump
  import opened VavraParent
  import M = Morph

  // ----- What the override loop collects -----

  /** The loop meets no error on this key. */
  predicate Steppable(key: string, v: M.Value, base: bytes, offsets: map<string, int>) {
    !v.Null? && ByteOf(key, offsets).Ok? && ByteAt(base, ByteOf(key, offsets).value).Some?
  }

  lemma {:induction false} StepAllSucceeds(keys: seq<string>, params: map<string, M.Value>, base: bytes,
      offsets: map<string, int>)
    requires forall k :: k in keys ==> k in params
    ensures StepAll(keys, params, base, offsets).Ok? <==>
            forall k :: k in keys ==> Steppable(k, params[k], base, offsets)
    decreases |keys|
  {
    hide ByteOf, ByteAt, M.Value.Rounded;
    if keys != [] {
      var n := |keys| - 1;
      assert keys == keys[..n] + [keys[n]];
      StepAllSucceeds(keys[..n], params, base, offsets);
    }
  }

  /** The override at off is the value of this key, whose byte differs. */
  predicate Origin(o: map<int, int>, off: int, k: string, v: M.Value, base: bytes, offsets: map<string, int>) {
    && off in o && Steppable(k, v, base, offsets) && ByteOf(k, offsets) == Ok(off)
    && v.Rounded() == o[off] && v.Rounded() != ByteAt(base, off).value as int
  }

  /** Every override is the rounded value of a key whose byte differs. */
  lemma {:induction false} StepAllFrom(keys: seq<string>, params: map<string, M.Value>, base: bytes,
      offsets: map<string, int>, off: int)
    requires forall k :: k in keys ==> k in params
    requires StepAll(keys, params, base, offsets).Ok? && off in StepAll(keys, params, base, offsets).value
    ensures exists k ::
              k in keys && Origin(StepAll(keys, params, base, offsets).value, off, k, params[k], base, offsets)
    decreases |keys|
  {
    hide ByteOf, ByteAt, M.Value.Rounded;
    var n := |keys| - 1;
    assert keys == keys[..n] + [keys[n]];
    var before := StepAll(keys[..n], params, base, offsets).value;
    if !(off in before && StepAll(keys, params, base, offsets).value[off] == before[off]) {
      assert Origin(StepAll(keys, params, base, offsets).value, off, keys[n], params[keys[n]], base, offsets);
    } else {
      StepAllFrom(keys[..n], params, base, offsets, off);
      var k :| k in keys[..n] && Origin(before, off, k, params[k], base, offsets);
      assert Origin(StepAll(keys, params, base, offsets).value, off, k, params[k], base, offsets);
    }
  }

  /** The key's value is not the byte it stands for. */
  predicate Differs(k: string, v: M.Value, base: bytes, offsets: map<string, int>) {
    Steppable(k, v, base, offsets) && v.Rounded() != ByteAt(base, ByteOf(k, offsets).value).value as int
  }

  /** A key that differs from its byte leaves an override there, its own or a later key's. */
  lemma {:induction false} StepAllCovers(keys: seq<string>, params: map<string, M.Value>, base: bytes,
      offsets: map<string, int>, key: string)
    requires forall k :: k in keys ==> k in params
    requires StepAll(keys, params, base, offsets).Ok? && key in keys && Differs(key, params[key], base, offsets)
    ensures ByteOf(key, offsets).Ok? && ByteOf(key, offsets).value in StepAll(keys, params, base, offsets).value
    decreases |keys|
  {
    hide ByteOf, ByteAt, M.Value.Rounded;
    var n := |keys| - 1;
    assert keys == keys[..n] + [keys[n]];
    if key in keys[..n] {
      StepAllCovers(keys[..n], params, base, offsets, key);
    }
  }

  /** The overrides of a step, as the loop leaves them. */
  ghost predicate StepMap(o: map<int, int>, params: map<string, M.Value>, base: bytes, offsets: map<string, int>) {
    && (forall off :: off in o ==> exists k :: k in params && Origin(o, off, k, params[k], base, offsets))
    && (forall k :: k in params && Differs(k, params[k], base, offsets) ==>
          ByteOf(k, offsets).Ok? && ByteOf(k, offsets).value in o)
  }

  lemma {:induction false} OverridesAre(params: map<string, M.Value>, base: bytes, offsets: map<string, int>)
    requires StepOverrides(params, base, offsets).Ok?
    ensures forall k :: k in params ==> Steppable(k, params[k], base, offsets)
    ensures StepMap(StepOverrides(params, base, offsets).value, params, base, offsets)
  {
    hide Origin, Differs, Steppable, StepAll;
    StringsAreOrdered();
    var keys := Listed(params.Keys, StringLe);
    StepAllSucceeds(keys, params, base, offsets);
    forall off | off in StepAll(keys, params, base, offsets).value
      ensures exists k ::
                k in params && Origin(StepAll(keys, params, base, offsets).value, off, k, params[k], base, offsets)
    {
      StepAllFrom(keys, params, base, offsets, off);
    }
    forall k | k in params && Differs(k, params[k], base, offsets)
      ensures ByteOf(k, offsets).Ok? && ByteOf(k, offsets).value in StepAll(keys, params, base, offsets).value
    {
      assert k in keys;
      StepAllCovers(keys, params, base, offsets, k);
    }
  }

  // ----- Exactly when a step is written as it stands -----

  /** The byte a key stands for, negative offsets counted from the end of the dump; -1
      for a key that stands for none. */
  function Place(k: string, offsets: map<string, int>): int {
    match ByteOf(k, offsets)
    case Err(_) => -1
    case Ok(off) => if 0 <= off < DUMP_LEN then off else if -DUMP_LEN <= off < 0 then DUMP_LEN + off else -1
  }

  /** Every key's byte of r is its rounded value. */
  ghost predicate HoldsAll(r: bytes, params: map<string, M.Value>, offsets: map<string, int>)
    requires |r| == DUMP_LEN
  {
    forall k :: k in params ==> 0 <= Place(k, offsets) < DUMP_LEN && !params[k].Null?
                                && params[k].Rounded() == r[Place(k, offsets)] as int
  }

  /** Keys that differ from their bytes name parameter bytes and are 7-bit. */
  ghost predicate ChangesFit(params: map<string, M.Value>, base: bytes, offsets: map<string, int>) {
    forall k :: k in params && Differs(k, params[k], base, offsets) ==>
                  InParams(ByteOf(k, offsets).value) && 0 <= params[k].Rounded() <= 127
  }

  /** Keys of one byte hold one value. */
  ghost predicate SharersAgree(params: map<string, M.Value>, offsets: map<string, int>) {
    forall k, l :: k in params && l in params && Place(k, offsets) == Place(l, offsets) ==>
        SameValue(params[k], params[l])
  }

  predicate SameValue(v: M.Value, w: M.Value) {
    !v.Null? && !w.Null? ==> v.Rounded() == w.Rounded()
  }

  /** A step is written, and every key's byte holds its value, exactly when the keys
      that change name parameter bytes and are 7-bit, and keys of one byte agree. */
  lemma {:induction false} StepExactly(params: map<string, M.Value>, base: bytes, offsets: map<string, int>)
    requires Framed(base) && StepOverrides(params, base, offsets).Ok?
    ensures var o := StepOverrides(params, base, offsets).value;
            Writable(base, o, None, None) && HoldsAll(Overlay(base, o, None, None), params, offsets) <==>
            ChangesFit(params, base, offsets) && SharersAgree(params, offsets)
  {
    hide StepOverrides, Overlay, Differs, StepMap, Steppable, HoldsAll, ChangesFit, SharersAgree, ValidOverrides;
    OverridesAre(params, base, offsets);
    var o := StepOverrides(params, base, offsets).value;
    if ChangesFit(params, base, offsets) && SharersAgree(params, offsets) {
      FitIsWritable(o, params, base, offsets);
      FitHolds(o, params, base, offsets);
    }
    if Writable(base, o, None, None) && HoldsAll(Overlay(base, o, None, None), params, offsets) {
      HeldFits(o, params, base, offsets);
    }
  }

  lemma {:induction false} FitIsWritable(o: map<int, int>, params: map<string, M.Value>, base: bytes,
      offsets: map<string, int>)
    requires Framed(base) && StepMap(o, params, base, offsets) && ChangesFit(params, base, offsets)
    ensures Writable(base, o, None, None)
  {
    hide ByteOf, ByteAt, M.Value.Rounded, Steppable;
    forall off | off in o ensures InParams(off) && 0 <= o[off] <= 127 {
      var k :| k in params && Origin(o, off, k, params[k], base, offsets);
      assert Differs(k, params[k], base, offsets);
    }
  }

  lemma {:induction false} PlaceOf(d: bytes, k: string, v: M.Value, base: bytes, offsets: map<string, int>)
    requires |d| == |base| == DUMP_LEN && Steppable(k, v, base, offsets)
    ensures var off, p := ByteOf(k, offsets).value, Place(k, offsets);
            && 0 <= p < DUMP_LEN && ByteAt(d, off) == Some(d[p]) && (InParams(off) ==> p == off)
  {
    hide ByteOf;
  }

  lemma {:induction false} FitHolds(o: map<int, int>, params: map<string, M.Value>, base: bytes,
      offsets: map<string, int>)
    requires Framed(base) && StepMap(o, params, base, offsets) && Writable(base, o, None, None)
    requires forall k :: k in params ==> Steppable(k, params[k], base, offsets)
    requires ChangesFit(params, base, offsets) && SharersAgree(params, offsets)
    ensures HoldsAll(Overlay(base, o, None, None), params, offsets)
  {
    hide ByteOf, ByteAt, Place, InParams, M.Value.Rounded;
    var r := Overlay(base, o, None, None);
    forall k | k in params
      ensures 0 <= Place(k, offsets) < DUMP_LEN && !params[k].Null?
              && params[k].Rounded() == r[Place(k, offsets)] as int
    {
      var p := Place(k, offsets);
      PlaceOf(r, k, params[k], base, offsets);
      PlaceOf(base, k, params[k], base, offsets);
      if p in o {
        var l :| l in params && Origin(o, p, l, params[l], base, offsets);
        PlaceOf(r, l, params[l], base, offsets);
        assert Differs(l, params[l], base, offsets);
      } else {
        assert !Differs(k, params[k], base, offsets);
      }
    }
  }

  lemma {:induction false} HeldFits(o: map<int, int>, params: map<string, M.Value>, base: bytes,
      offsets: map<string, int>)
    requires Framed(base) && StepMap(o, params, base, offsets) && Writable(base, o, None, None)
    requires forall k :: k in params ==> Steppable(k, params[k], base, offsets)
    requires HoldsAll(Overlay(base, o, None, None), params, offsets)
    ensures ChangesFit(params, base, offsets) && SharersAgree(params, offsets)
  {
    hide ByteOf, ByteAt, Place, InParams, M.Value.Rounded;
    var r := Overlay(base, o, None, None);
    forall k | k in params
      ensures Differs(k, params[k], base, offsets) ==>
                InParams(ByteOf(k, offsets).value) && 0 <= params[k].Rounded() <= 127
    {
      PlaceOf(r, k, params[k], base, offsets);
    }
  }

  // ----- A pair -----

  lemma {:induction false} StepKeys(a: M.Params, b: M.Params, named: string -> bool, at: M.Position)
    ensures PairChain(a, b, named).Intermediate(at).params.Keys == a.Keys + b.Keys
  {
    hide M.Tenth;
  }

  /** Over a file with a byte for every key of A, a step's overrides can be collected exactly
      when no key is null or missing in A: such a key is null in every step. */
  lemma {:induction false} ReachableSucceeds(a: M.Params, b: M.Params, named: string -> bool, base: bytes,
      offsets: map<string, int>, at: M.Position)
    requires Reachable(base, a, offsets)
    ensures StepOverrides(PairChain(a, b, named).Intermediate(at).params, base, offsets).Ok? <==>
            b.Keys <= a.Keys && forall k :: k in a ==> a[k].Some?
  {
    var c := PairChain(a, b, named);
    var params := c.Intermediate(at).params;
    StepKeys(a, b, named, at);
    hide M.Chain.Intermediate, ByteOf, ByteAt, StepAll;
    StringsAreOrdered();
    var keys := Listed(params.Keys, StringLe);
    forall k | k in params ensures Steppable(k, params[k], base, offsets) <==> k in a && a[k].Some? {
      M.NullsAreParentNulls(c, at, k);
    }
    StepAllSucceeds(keys, params, base, offsets);
    hide Steppable;
    assert (forall k :: k in keys ==> Steppable(k, params[k], base, offsets)) <==>
           forall k :: k in params ==> k in a && a[k].Some?;
  }

  /** Over a file the search accepts for A, a step's overrides can be collected exactly when
      no key is null or missing in A. */
  lemma {:induction false} OverridesSucceed(a: M.Params, b: M.Params, named: string -> bool, base: bytes,
      order: seq<string>, offsets: map<string, int>, at: M.Position)
    requires ListsOnce(order, a.Keys) && MatchesBytes(base, a, order, offsets)
    ensures StepOverrides(PairChain(a, b, named).Intermediate(at).params, base, offsets).Ok? <==>
            b.Keys <= a.Keys && forall k :: k in a ==> a[k].Some?
  {
    hide M.Chain.Intermediate, StepOverrides, Reachable, MatchesBytes;
    MatchReaches(base, a, order, offsets);
    ReachableSucceeds(a, b, named, base, offsets, at);
  }

  /** A pair over A's keys, whose file the search accepts: keys that move name parameter
      bytes and are 7-bit, and keys of one byte have one value in A and move alike. */
  ghost predicate MatchedPair(a: M.Params, b: M.Params, named: string -> bool, base: bytes, order: seq<string>,
      offsets: map<string, int>)
    requires ListsOnce(order, a.Keys)
  {
    var c := PairChain(a, b, named);
    && MatchesBytes(base, a, order, offsets) && b.Keys <= a.Keys
    && (forall k :: k in a && c.Moves(k) ==>
          InParams(ByteOf(k, offsets).value) && 0 <= M.Get(a, k).value <= 127 && 0 <= M.Get(b, k).value <= 127)
    && (forall k, l :: k in a && l in a && Place(k, offsets) == Place(l, offsets) ==>
          a[k] == a[l] && (c.Moves(k) <==> c.Moves(l)) && (c.Moves(k) ==> M.Get(b, k) == M.Get(b, l)))
  }

  /** The same of a file that holds every key's value. */
  ghost predicate HeldPair(a: M.Params, b: M.Params, named: string -> bool, base: bytes, offsets: map<string, int>) {
    var c := PairChain(a, b, named);
    && MatchesParams(base, a, offsets) && b.Keys <= a.Keys
    && (forall k :: k in a && c.Moves(k) ==>
          InParams(ByteOf(k, offsets).value) && 0 <= M.Get(a, k).value <= 127 && 0 <= M.Get(b, k).value <= 127)
    && (forall k, l :: k in a && l in a && Place(k, offsets) == Place(l, offsets) ==>
          (c.Moves(k) <==> c.Moves(l)) && (c.Moves(k) ==> M.Get(b, k) == M.Get(b, l)))
  }

  /** One key of a step: A's own byte unless it moves, and then 7-bit between the
      parents' values, so within 24 of A for a raw key. */
  lemma {:induction false} StepValue(a: M.Params, b: M.Params, named: string -> bool, base: bytes,
      offsets: map<string, int>, at: M.Position, k: string)
    requires HeldPair(a, b, named, base, offsets) && at.Valid() && k in a
    ensures k in PairChain(a, b, named).Intermediate(at).params
    ensures var v, byte := PairChain(a, b, named).Intermediate(at).params[k], ByteAt(base, ByteOf(k, offsets).value);
            && Steppable(k, v, base, offsets)
            && (PairChain(a, b, named).Moves(k) ==> 0 <= v.Rounded() <= 127)
            && (!PairChain(a, b, named).Moves(k) ==> v.Rounded() == byte.value as int)
            && (IsRaw(k) ==> -MAX_RAW_DELTA <= v.Rounded() - byte.value as int <= MAX_RAW_DELTA)
  {
    var c := PairChain(a, b, named);
    hide ByteOf, ByteAt, Place, InParams;
    M.NullsAreParentNulls(c, at, k);
    assert c.Intermediate(at).params[k] == c.ValueAt(k, at);
    if c.Moves(k) {
      var va, vb := M.Get(a, k).value, M.Get(b, k).value;
      hide M.Tenth, M.ToInt;
      M.Between(Min(va, vb), if va <= vb then vb else va, at);
    }
  }

  /** Keys of one byte take one value at every step. */
  lemma {:induction false} SharersStepAlike(a: M.Params, b: M.Params, named: string -> bool, base: bytes,
      offsets: map<string, int>, at: M.Position, k: string, l: string)
    requires HeldPair(a, b, named, base, offsets) && at.Valid() && k in a && l in a
    requires Place(k, offsets) == Place(l, offsets)
    ensures PairChain(a, b, named).ValueAt(k, at) == PairChain(a, b, named).ValueAt(l, at)
  {
    hide ByteOf, InParams, M.Tenth;
  }

  /** What a step dump is: framed, A's own bytes outside the moving keys, hence
      outside 7..369, and every key's byte its rounded step value. */
  ghost predicate HoldsStep(r: bytes, base: bytes, a: M.Params, b: M.Params, named: string -> bool,
      offsets: map<string, int>, params: map<string, M.Value>) {
    && Framed(r) && |base| == |r|
    && (forall k :: 0 <= k < DUMP_LEN && r[k] != base[k] ==>
          InParams(k) && exists n :: n in a && PairChain(a, b, named).Moves(n) && ByteOf(n, offsets) == Ok(k))
    && (forall n :: n in a ==> n in params && HoldsKey(r, base, n, params[n], offsets))
  }

  predicate HoldsKey(r: bytes, base: bytes, n: string, v: M.Value, offsets: map<string, int>)
    requires |r| == |base| == DUMP_LEN
  {
    && ByteOf(n, offsets).Ok? && !v.Null? && 0 <= Place(n, offsets) < DUMP_LEN
    && var p := Place(n, offsets);
       && r[p] as int == v.Rounded()
       && (IsRaw(n) ==> -MAX_RAW_DELTA <= r[p] as int - base[p] as int <= MAX_RAW_DELTA)
  }

  lemma {:induction false} MatchedIsHeld(a: M.Params, b: M.Params, named: string -> bool, base: bytes,
      order: seq<string>, offsets: map<string, int>)
    requires ListsOnce(order, a.Keys) && MatchedPair(a, b, named, base, order, offsets)
    ensures HeldPair(a, b, named, base, offsets)
  {
    hide ByteOf, MatchesParams, M.Chain.Moves;
    assert OneValueEach(a, offsets);
    hide Place;
    forall k | k in a ensures ByteOf(k, offsets).Ok? {
      assert k in order;
    }
    AllKeysExactly(base, a, order, offsets);
  }

  /** Every step of a matched pair can be written, and its dump holds the step. */
  lemma {:induction false} StepIsFaithful(a: M.Params, b: M.Params, named: string -> bool, base: bytes,
      order: seq<string>, offsets: map<string, int>, at: M.Position)
    requires ListsOnce(order, a.Keys) && MatchedPair(a, b, named, base, order, offsets) && at.Valid()
    ensures var params := PairChain(a, b, named).Intermediate(at).params;
            var o := StepOverrides(params, base, offsets);
            && o.Ok? && Writable(base, o.value, None, None)
            && HoldsStep(Overlay(base, o.value, None, None), base, a, b, named, offsets, params)
  {
    hide *;
    MatchedIsHeld(a, b, named, base, order, offsets);
    HeldStepIsFaithful(a, b, named, base, offsets, at);
  }

  lemma {:induction false} HeldStepIsFaithful(a: M.Params, b: M.Params, named: string -> bool, base: bytes,
      offsets: map<string, int>, at: M.Position)
    requires HeldPair(a, b, named, base, offsets) && at.Valid()
    ensures var params := PairChain(a, b, named).Intermediate(at).params;
            var o := StepOverrides(params, base, offsets);
            && o.Ok? && Writable(base, o.value, None, None)
            && HoldsStep(Overlay(base, o.value, None, None), base, a, b, named, offsets, params)
  {
    hide M.Chain.Intermediate, StepOverrides, StepMap, HeldPair, HoldsStep, HoldsAll, Writable, KeyFacts,
      MatchesParams, Steppable;
    var params := PairChain(a, b, named).Intermediate(at).params;
    PairParts(a, b, named, base, offsets);
    HeldReaches(base, a, offsets);
    StepKeys(a, b, named, at);
    assert a.Keys + b.Keys == a.Keys;
    ReachableSucceeds(a, b, named, base, offsets, at);
    OverridesAre(params, base, offsets);
    StepFits(a, b, named, base, offsets, at);
    StepExactly(params, base, offsets);
    var o := StepOverrides(params, base, offsets).value;
    forall k | k in a ensures KeyFacts(a, b, named, base, offsets, params, k) {
      StepFacts(a, b, named, base, offsets, at, k);
    }
    OverlayHolds(o, a, b, named, params, base, offsets);
  }

  /** What StepValue says of one key. */
  ghost predicate KeyFacts(a: M.Params, b: M.Params, named: string -> bool, base: bytes, offsets: map<string, int>,
      params: map<string, M.Value>, k: string) {
    && k in params && Steppable(k, params[k], base, offsets)
    && var v, was := params[k].Rounded(), ByteAt(base, ByteOf(k, offsets).value).value as int;
       && (PairChain(a, b, named).Moves(k) ==> 0 <= v <= 127 && InParams(ByteOf(k, offsets).value))
       && (!PairChain(a, b, named).Moves(k) ==> v == was)
       && (IsRaw(k) ==> -MAX_RAW_DELTA <= v - was <= MAX_RAW_DELTA)
  }

  lemma {:induction false} StepFacts(a: M.Params, b: M.Params, named: string -> bool, base: bytes,
      offsets: map<string, int>, at: M.Position, k: string)
    requires HeldPair(a, b, named, base, offsets) && at.Valid() && k in a
    ensures KeyFacts(a, b, named, base, offsets, PairChain(a, b, named).Intermediate(at).params, k)
  {
    StepValue(a, b, named, base, offsets, at, k);
    hide M.Chain.Intermediate, Steppable, M.Value.Rounded;
  }

  lemma {:induction false} HeldReaches(base: bytes, a: M.Params, offsets: map<string, int>)
    requires MatchesParams(base, a, offsets)
    ensures Reachable(base, a, offsets) && forall k :: k in a ==> a[k].Some?
  {
  }

  lemma {:induction false} PairParts(a: M.Params, b: M.Params, named: string -> bool, base: bytes,
      offsets: map<string, int>)
    requires HeldPair(a, b, named, base, offsets)
    ensures Framed(base) && MatchesParams(base, a, offsets) && b.Keys <= a.Keys
  {
  }

  lemma {:induction false} StepFits(a: M.Params, b: M.Params, named: string -> bool, base: bytes,
      offsets: map<string, int>, at: M.Position)
    requires HeldPair(a, b, named, base, offsets) && at.Valid()
    requires PairChain(a, b, named).Intermediate(at).params.Keys == a.Keys
    ensures var params := PairChain(a, b, named).Intermediate(at).params;
            ChangesFit(params, base, offsets) && SharersAgree(params, offsets)
  {
    hide M.Chain.Intermediate, M.Chain.ValueAt, M.Chain.Moves, HeldPair, ByteOf, ByteAt, Place, M.Value.Rounded,
      IsRaw;
    var params := PairChain(a, b, named).Intermediate(at).params;
    forall k | k in a ensures KeyFacts(a, b, named, base, offsets, params, k) {
      StepFacts(a, b, named, base, offsets, at, k);
    }
    forall k, l | k in a && l in a && Place(k, offsets) == Place(l, offsets)
      ensures SameValue(params[k], params[l])
    {
      SharersStepAlike(a, b, named, base, offsets, at, k, l);
      ValueIs(a, b, named, at, k);
      ValueIs(a, b, named, at, l);
    }
  }

  lemma {:induction false} ValueIs(a: M.Params, b: M.Params, named: string -> bool, at: M.Position, k: string)
    requires k in a
    ensures var c := PairChain(a, b, named);
            k in c.Intermediate(at).params && c.Intermediate(at).params[k] == c.ValueAt(k, at)
  {
    hide M.Chain.ValueAt;
  }

  lemma {:induction false} OverlayHolds(o: map<int, int>, a: M.Params, b: M.Params, named: string -> bool,
      params: map<string, M.Value>, base: bytes, offsets: map<string, int>)
    requires Writable(base, o, None, None) && params.Keys == a.Keys && StepMap(o, params, base, offsets)
    requires forall k :: k in a ==> KeyFacts(a, b, named, base, offsets, params, k)
    requires HoldsAll(Overlay(base, o, None, None), params, offsets)
    ensures HoldsStep(Overlay(base, o, None, None), base, a, b, named, offsets, params)
  {
    hide ByteOf, ByteAt, Place, M.Value.Rounded, M.Chain.Moves, IsRaw;
    var r := Overlay(base, o, None, None);
    forall n | n in a ensures n in params && HoldsKey(r, base, n, params[n], offsets) {
      assert KeyFacts(a, b, named, base, offsets, params, n);
      PlaceOf(r, n, params[n], base, offsets);
      PlaceOf(base, n, params[n], base, offsets);
    }
    forall k | 0 <= k < DUMP_LEN && r[k] != base[k]
      ensures InParams(k) && exists n :: n in a && PairChain(a, b, named).Moves(n) && ByteOf(n, offsets) == Ok(k)
    {
      var n :| n in params && Origin(o, k, n, params[n], base, offsets);
      assert KeyFacts(a, b, named, base, offsets, params, n);
    }
  }

  // ----- Two keys of one byte -----

  const ALIAS: map<string, int> := map["cutoff" := 20]

  /** A raw and a named key of byte 20, of which only the named one moves: the file
      matches A, the step is written, and byte 20 cannot be both 55 and 10. */
  lemma {:induction false} SharedByteFails(base: bytes)
    requires Framed(base) && base[20] == 10
    ensures var a := map["cutoff" := Some(10), "off_20" := Some(10)];
            var b := map["cutoff" := Some(100), "off_20" := Some(10)];
            var params := PairChain(a, b, M.Every).Intermediate(M.Position(1, 1)).params;
            var o := StepOverrides(params, base, ALIAS);
            && MatchesParams(base, a, ALIAS) && params == map["cutoff" := M.Tenths(550), "off_20" := M.Whole(10)]
            && o.Ok?
            && !(Writable(base, o.value, None, None) && HoldsAll(Overlay(base, o.value, None, None), params, ALIAS))
  {
    var a, b := map["cutoff" := Some(10), "off_20" := Some(10)], map["cutoff" := Some(100), "off_20" := Some(10)];
    hide ByteOf, M.Chain.Intermediate, StepOverrides, Overlay, Writable, MatchesParams, HoldsAll;
    RawTwenty();
    AliasMatches(a, base);
    AliasParams(a, b);
    var params := PairChain(a, b, M.Every).Intermediate(M.Position(1, 1)).params;
    HeldReaches(base, a, ALIAS);
    ReachableSucceeds(a, b, M.Every, base, ALIAS, M.Position(1, 1));
    assert !SameValue(params["cutoff"], params["off_20"]) by {
      assert M.ToInt(550) == 55;
    }
    StepExactly(params, base, ALIAS);
  }

  /** The search accepts a file for a preset whose keys of one byte differ, if the later one
      holds the byte; no dump can hold such a preset, not even the file itself. */
  lemma {:induction false} LaterKeyWins(base: bytes)
    requires Framed(base) && base[20] == 10
    ensures var a: M.Params, order := map["off_20" := Some(99), "cutoff" := Some(10)], ["off_20", "cutoff"];
            && ListsOnce(order, a.Keys) && MatchesBytes(base, a, order, ALIAS) && !MatchesParams(base, a, ALIAS)
            && forall r: bytes, params: map<string, M.Value> ::
                 |r| == DUMP_LEN && params == PairChain(a, a, M.Every).Intermediate(M.Position(1, 1)).params ==>
                   !HoldsAll(r, params, ALIAS)
  {
    var a: M.Params, order := map["off_20" := Some(99), "cutoff" := Some(10)], ["off_20", "cutoff"];
    hide ByteOf;
    RawTwenty();
    LaterAccepted(base, a, order);
    var params := PairChain(a, a, M.Every).Intermediate(M.Position(1, 1)).params;
    StayingValues(a);
    hide M.Chain.Intermediate, MatchesBytes, MatchesParams, ListsOnce;
    forall r: bytes | |r| == DUMP_LEN ensures !HoldsAll(r, params, ALIAS) {
      assert Place("off_20", ALIAS) == 20 && Place("cutoff", ALIAS) == 20;
    }
  }

  lemma {:induction false} LaterAccepted(base: bytes, a: M.Params, order: seq<string>)
    requires a == map["off_20" := Some(99), "cutoff" := Some(10)] && order == ["off_20", "cutoff"]
    requires Framed(base) && base[20] == 10
    ensures ListsOnce(order, a.Keys) && MatchesBytes(base, a, order, ALIAS) && !MatchesParams(base, a, ALIAS)
  {
    hide ByteOf;
    RawTwenty();
    LastOfAlias(order);
    assert order[0] == "off_20" && order[1] == "cutoff";
  }

  lemma {:induction false} LastOfAlias(order: seq<string>)
    requires order == ["off_20", "cutoff"]
    ensures !LastOfName(order, 0, KeyByte(ALIAS)) && LastOfName(order, 1, KeyByte(ALIAS))
    ensures forall k :: k in order <==> k == "off_20" || k == "cutoff"
  {
    hide ByteOf;
    RawTwenty();
    assert order[0] == "off_20" && order[1] == "cutoff";
  }

  lemma {:induction false} StayingValues(a: M.Params)
    requires a == map["off_20" := Some(99), "cutoff" := Some(10)]
    ensures var params := PairChain(a, a, M.Every).Intermediate(M.Position(1, 1)).params;
            && "off_20" in params && params["off_20"] == M.Whole(99)
            && "cutoff" in params && params["cutoff"] == M.Whole(10)
  {
    var c := PairChain(a, a, M.Every);
    assert !c.Moves("off_20") && !c.Moves("cutoff");
    assert "off_20" in c.Keys() && "cutoff" in c.Keys();
  }

  lemma {:induction false} AliasMatches(a: M.Params, base: bytes)
    requires a == map["cutoff" := Some(10), "off_20" := Some(10)] && Framed(base) && base[20] == 10
    ensures MatchesParams(base, a, ALIAS)
  {
    hide ByteOf;
    RawTwenty();
  }

  lemma {:induction false} RawTwenty()
    ensures ByteOf("off_20", ALIAS) == Ok(20) && ByteOf("cutoff", ALIAS) == Ok(20)
  {
    assert Decimal(2) == "2" && Decimal(20) == Decimal(2) + "0" == "20";
    NumberOfDecimal(20);
    assert "off_20"[4..] == "20" && "off_20"[..4] == "off_";
    assert !IsRaw("cutoff") by {
      assert "cutoff"[..4][0] == 'c';
    }
  }

  lemma {:induction false} AliasParams(a: M.Params, b: M.Params)
    requires a == map["cutoff" := Some(10), "off_20" := Some(10)]
    requires b == map["cutoff" := Some(100), "off_20" := Some(10)]
    ensures PairChain(a, b, M.Every).Intermediate(M.Position(1, 1)).params
         == map["cutoff" := M.Tenths(550), "off_20" := M.Whole(10)]
  {
    var c := PairChain(a, b, M.Every);
    assert M.Tenth(10, 100, M.Position(1, 1)) == 550;
    hide M.Tenth;
    assert c.Moves("cutoff") by {
      assert "cutoff"[..4][0] == 'c';
    }
    assert !c.Moves("off_20");
    assert c.Keys() == {"cutoff", "off_20"};
  }
}
