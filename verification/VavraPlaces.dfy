/** Which byte of a microQ dump a key stands for, in absolute positions. */
module VavraPlaces {
  import opened Bytes
  import opened Text
  import opened VavraDump
  import opened VavraParent
  import opened VavraMorphs
  import opened Dictionaries
  import M = Morph

  lemma {:induction false} PrefixOf(s: string)
    ensures ("off_" + s)[..4] == "off_" && ("off_" + s)[4..] == s
  {
  }

  /** off_<N> stands for byte N and moves within a distance of 24; any other key stands for
      its byte in the offset map and moves as its name says. */
  lemma {:induction false} KeysStandFor(n: nat, key: string, offsets: map<string, int>, a: M.Params, b: M.Params,
      named: string -> bool)
    ensures var raw := "off_" + Decimal(n);
            && ByteOf(raw, offsets) == Ok(n)
            && (PairChain(a, b, named).continuous(raw) <==>
                  && raw in a && raw in b && a[raw].Some? && b[raw].Some?
                  && -24 <= a[raw].value - b[raw].value <= 24)
    ensures !("off_" <= key) ==>
              && ByteOf(key, offsets) == (if key in offsets then Ok(offsets[key]) else Err(UnknownKey))
              && PairChain(a, b, named).continuous(key) == named(key)
  {
    PrefixOf(Decimal(n));
    NumberOfDecimal(n);
    hide Decimal;
    if IsRaw(key) {
      assert "off_" <= key;
    }
  }

  /** What the writer writes, byte for byte, and exactly when it refuses. */
  lemma {:induction false} WrittenBytes(base: bytes, o: map<int, int>, name: Option<string>, category: Option<string>)
    ensures Writable(base, o, name, category) <==>
            && |base| == 392 && base[0] == 0xF0 && base[391] == 0xF7
            && (forall off :: off in o ==> 7 <= off <= 369 && 0 <= o[off] <= 127)
            && (name.Some? ==> forall j :: 0 <= j < |name.value| ==> name.value[j] as int < 256)
            && (category.Some? ==> forall j :: 0 <= j < |category.value| ==> category.value[j] as int < 256)
    ensures Writable(base, o, name, category) ==>
              var r := Overlay(base, o, name, category);
              && |r| == 392
              && (forall k :: 0 <= k < 370 || 390 <= k < 392 ==> r[k] as int == if k in o then o[k] else base[k] as int)
              && (forall j :: 0 <= j < 16 ==>
                    r[370 + j] as int == if name.None? then base[370 + j] as int
                                         else if j < |name.value| then name.value[j] as int else 0x20)
              && (forall j :: 0 <= j < 4 ==>
                    r[386 + j] as int == if category.None? then base[386 + j] as int
                                         else if j < |category.value| then category.value[j] as int else 0x20)
  {
  }

  /** A written step in bytes: the byte a key stands for is the integer that the step's place
      between A and B gives. */
  lemma {:induction false} StepByte(a: M.Params, b: M.Params, named: string -> bool, base: bytes,
      order: seq<string>, offsets: map<string, int>, at: M.Position, key: string)
    requires ListsOnce(order, a.Keys) && MatchedPair(a, b, named, base, order, offsets) && at.Valid()
    requires key in a && ByteOf(key, offsets).Ok? && 0 <= ByteOf(key, offsets).value < 392
    ensures StepOverrides(PairChain(a, b, named).Intermediate(at).params, base, offsets).Ok?
    ensures var o := StepOverrides(PairChain(a, b, named).Intermediate(at).params, base, offsets).value;
            && Writable(base, o, None, None)
            && M.WrittenFor(PairChain(a, b, named), at, key,
                            Overlay(base, o, None, None)[ByteOf(key, offsets).value])
  {
    var c := PairChain(a, b, named);
    StepIsFaithful(a, b, named, base, order, offsets, at);
    MatchedIsHeld(a, b, named, base, order, offsets);
    HeldReaches(base, a, offsets);
    M.StepIsWritten(c, at, key);
    hide M.Chain.Intermediate, StepOverrides, MatchedPair, ByteOf, Overlay, Writable, M.WrittenFor, M.Value.Rounded;
    var o := StepOverrides(c.Intermediate(at).params, base, offsets).value;
    assert HoldsKey(Overlay(base, o, None, None), base, key, c.Intermediate(at).params[key], offsets);
  }
}
