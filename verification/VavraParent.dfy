/** vavra_dump: the byte dictionary of a preset, and the search for its original file. */
module VavraParent {
  import opened Bytes
  import opened Dictionaries
  import opened VavraDump
  import M = Morph

  // ----- params_to_bytes -----

  /** The byte offset a key stands for, if it stands for one. */
  function KeyByte(offsets: map<string, int>): string -> Option<int> {
    key => match ByteOf(key, offsets) case Err(_) => None case Ok(off) => Some(off)
  }

  /** The offsets of the keys, each where it is first met: the order of the dictionary. */
  function FirstMet(order: seq<string>, offsets: map<string, int>): seq<int> {
    if order == [] then []
    else
      var before, off := FirstMet(order[..|order| - 1], offsets), KeyByte(offsets)(order[|order| - 1]);
      if off.None? || off.value in before then before else before + [off.value]
  }

  datatype ByteDict = ByteDict(values: map<int, Option<int>>, order: seq<int>)

  /** The dictionary of a preset whose keys come in this order. */
  ghost predicate IsByteDict(d: ByteDict, preset: M.Params, order: seq<string>, offsets: map<string, int>)
    requires forall k :: k in order ==> k in preset
  {
    FilledInOrder(d.values, preset, order, KeyByte(offsets)) && d.order == FirstMet(order, offsets)
  }

  method ParamsToBytes(preset: M.Params, order: seq<string>,
      offsets: map<string, int>) returns (r: Result<ByteDict, Error>)
    requires ListsOnce(order, preset.Keys)
    ensures r == Err(UnknownKey) <==> exists k :: k in preset && ByteOf(k, offsets).Err?
    ensures r.Err? ==> r.error == UnknownKey
    ensures r.Ok? ==> IsByteDict(r.value, preset, order, offsets)
  {
    hide FilledInOrder, ByteOf;
    var values: map<int, Option<int>>, met: seq<int> := map[], [];
    NothingFilled(preset, order, KeyByte(offsets));
    assert order[..0] == [];
    for i := 0 to |order|
      invariant FilledInOrder(values, preset, order[..i], KeyByte(offsets))
      invariant met == FirstMet(order[..i], offsets)
      invariant forall k :: k in met <==> k in values
      invariant forall j :: 0 <= j < i ==> ByteOf(order[j], offsets).Ok?
    {
      OneMoreKey(values, preset, order, i, KeyByte(offsets));
      assert order[..i + 1][..i] == order[..i];
      var key := order[i];
      assert key in order;
      var off := ByteOf(key, offsets);
      if off.Err? {
        return Err(UnknownKey);
      }
      if off.value !in values {
        met := met + [off.value];
      }
      values := values[off.value := preset[key]];
    }
    assert order[..|order|] == order;
    return Ok(ByteDict(values, met));
  }

  lemma {:induction false} MetAre(order: seq<string>, offsets: map<string, int>, off: int)
    ensures off in FirstMet(order, offsets) <==> exists i :: 0 <= i < |order| && KeyByte(offsets)(order[i]) == Some(off)
    decreases |order|
  {
    hide ByteOf;
    if order != [] {
      var n := |order| - 1;
      MetAre(order[..n], offsets, off);
    }
  }

  // ----- _dump_matches_params -----

  /** The comparison of the bytes in dictionary order: it stops at the first byte that
      differs, and an offset outside the dump raises before that. */
  function Compared(d: bytes, values: map<int, Option<int>>, offs: seq<int>): Result<bool, Error>
    requires forall off :: off in offs ==> off in values
  {
    if offs == [] then Ok(true)
    else match ByteAt(d, offs[0])
      case None => Err(IndexError)
      case Some(b) =>
        assert offs[0] in offs;
        if values[offs[0]] == Some(b as int) then Compared(d, values, offs[1..]) else Ok(false)
  }

  /** One candidate; what does not load does not match. */
  function Candidate(d: bytes, dict: ByteDict): Result<bool, Error>
    requires forall off :: off in dict.order ==> off in dict.values
  {
    if !Framed(d) then Ok(false) else Compared(d, dict.values, dict.order)
  }

  method CompareLoop(d: bytes, dict: ByteDict) returns (r: Result<bool, Error>)
    requires forall off :: off in dict.order ==> off in dict.values
    ensures r == Candidate(d, dict)
  {
    if !Framed(d) {
      return Ok(false);
    }
    var offs := dict.order;
    assert offs[0..] == offs;
    for i := 0 to |offs|
      invariant Compared(d, dict.values, offs) == Compared(d, dict.values, offs[i..])
    {
      assert offs[i..][1..] == offs[i + 1..] && offs[i] in offs;
      var b := ByteAt(d, offs[i]);
      if b.None? {
        return Err(IndexError);
      }
      if dict.values[offs[i]] != Some(b.value as int) {
        return Ok(false);
      }
    }
    return Ok(true);
  }

  /** resolve_parent_syx: every candidate is compared, exact file names first; an error in
      any of them is the search's, else the first that matches. */
  method ResolveParent(candidates: seq<bytes>, dict: ByteDict) returns (r: Result<nat, Error>)
    requires forall off :: off in dict.order ==> off in dict.values
    ensures r == Err(NoFile) <==> candidates == []
    ensures r == Err(IndexError) <==> exists c :: c in candidates && Candidate(c, dict).Err?
    ensures r.Ok? ==> && r.value < |candidates| && Candidate(candidates[r.value], dict) == Ok(true)
                      && forall j :: 0 <= j < r.value ==> Candidate(candidates[j], dict) == Ok(false)
    ensures r == Err(NoParent) <==> candidates != [] && forall c :: c in candidates ==> Candidate(c, dict) == Ok(false)
    ensures r.Err? ==> r.error == NoFile || r.error == IndexError || r.error == NoParent
  {
    hide Compared, Framed;
    if candidates == [] {
      return Err(NoFile);
    }
    var found: Option<nat> := None;
    for i := 0 to |candidates|
      invariant forall j :: 0 <= j < i ==> Candidate(candidates[j], dict).Ok?
      invariant match found
                case None => forall j :: 0 <= j < i ==> Candidate(candidates[j], dict) == Ok(false)
                case Some(k) => k < i && Candidate(candidates[k], dict) == Ok(true)
                                && forall j :: 0 <= j < k ==> Candidate(candidates[j], dict) == Ok(false)
    {
      var c := CompareLoop(candidates[i], dict);
      CandidateError(candidates[i], dict);
      if c.Err? {
        return Err(IndexError);
      }
      if c.value && found.None? {
        found := Some(i);
      }
    }
    return if found.Some? then Ok(found.value) else Err(NoParent);
  }

  lemma {:induction false} CandidateError(d: bytes, dict: ByteDict)
    requires forall off :: off in dict.order ==> off in dict.values
    ensures Candidate(d, dict).Err? ==> Candidate(d, dict).error == IndexError
  {
    hide ByteAt;
    ComparedError(d, dict.values, dict.order);
  }

  lemma {:induction false} ComparedError(d: bytes, values: map<int, Option<int>>, offs: seq<int>)
    requires forall off :: off in offs ==> off in values
    ensures Compared(d, values, offs).Err? ==> Compared(d, values, offs).error == IndexError
    decreases |offs|
  {
    hide ByteAt;
    if offs != [] {
      ComparedError(d, values, offs[1..]);
    }
  }

  // ----- What a match means -----

  predicate ByteIs(d: bytes, off: int, v: Option<int>) {
    ByteAt(d, off).Some? && v == Some(ByteAt(d, off).value as int)
  }

  lemma {:induction false} ComparedTrue(d: bytes, values: map<int, Option<int>>, offs: seq<int>)
    requires forall off :: off in offs ==> off in values
    ensures Compared(d, values, offs) == Ok(true) <==> forall off :: off in offs ==> ByteIs(d, off, values[off])
    decreases |offs|
  {
    hide ByteAt;
    if offs != [] {
      var off, rest := offs[0], offs[1..];
      assert offs == [off] + rest;
      assert off in offs && (forall x :: x in offs <==> x == off || x in rest);
      ComparedTrue(d, values, rest);
      assert Compared(d, values, offs) == Ok(true) <==>
             ByteIs(d, off, values[off]) && Compared(d, values, rest) == Ok(true);
      hide Compared, ByteIs;
    }
  }

  /** The dump loads, and for every byte the last of its keys holds it; a null never does. */
  ghost predicate MatchesBytes(d: bytes, preset: M.Params, order: seq<string>, offsets: map<string, int>)
    requires forall k :: k in order ==> k in preset
  {
    && Framed(d) && (forall k :: k in order ==> ByteOf(k, offsets).Ok?)
    && forall i :: 0 <= i < |order| && LastOfName(order, i, KeyByte(offsets)) ==>
         ByteIs(d, ByteOf(order[i], offsets).value, preset[order[i]])
  }

  /** Every key's byte has a last key. */
  lemma {:induction false} LastKey(order: seq<string>, i: nat, offsets: map<string, int>) returns (j: nat)
    requires i < |order|
    ensures i <= j < |order| && LastOfName(order, j, KeyByte(offsets))
    ensures KeyByte(offsets)(order[j]) == KeyByte(offsets)(order[i])
    decreases |order| - i
  {
    hide KeyByte;
    var name := KeyByte(offsets);
    if k :| i < k < |order| && name(order[k]) == name(order[i]) {
      j := LastKey(order, k, offsets);
    } else {
      j := i;
    }
  }

  lemma {:induction false} KeysAreMet(dict: ByteDict, preset: M.Params, order: seq<string>, offsets: map<string, int>)
    requires (forall k :: k in order ==> k in preset) && IsByteDict(dict, preset, order, offsets)
    ensures forall off :: off in dict.order <==> off in dict.values
  {
    hide ByteOf;
    forall off ensures off in dict.order <==> off in dict.values {
      MetAre(order, offsets, off);
    }
  }

  /** A candidate matches the dictionary of a preset exactly when, byte by byte, the last
      key's value is the dump's. */
  lemma {:induction false} MatchExactly(d: bytes, dict: ByteDict, preset: M.Params, order: seq<string>,
      offsets: map<string, int>)
    requires ListsOnce(order, preset.Keys) && IsByteDict(dict, preset, order, offsets)
    requires forall k :: k in order ==> ByteOf(k, offsets).Ok?
    ensures forall off :: off in dict.order <==> off in dict.values
    ensures Candidate(d, dict) == Ok(true) <==> MatchesBytes(d, preset, order, offsets)
  {
    KeysAreMet(dict, preset, order, offsets);
    hide ByteOf, ByteIs, Framed, Compared;
    ComparedTrue(d, dict.values, dict.order);
    if MatchesBytes(d, preset, order, offsets) {
      forall off | off in dict.values ensures ByteIs(d, off, dict.values[off]) {
        var i :| 0 <= i < |order| && KeyByte(offsets)(order[i]) == Some(off);
        var j := LastKey(order, i, offsets);
        assert order[j] in order;
      }
    }
    if forall off :: off in dict.values ==> ByteIs(d, off, dict.values[off]) {
      forall i | 0 <= i < |order| && LastOfName(order, i, KeyByte(offsets))
        ensures ByteIs(d, ByteOf(order[i], offsets).value, preset[order[i]])
      {
        assert order[i] in order && KeyByte(offsets)(order[i]).Some?;
      }
    }
  }

  /** Every parameter of the preset is the dump's own byte. */
  predicate MatchesParams(d: bytes, preset: M.Params, offsets: map<string, int>) {
    Framed(d) && forall k :: k in preset ==>
      ByteOf(k, offsets).Ok? && preset[k].Some?
      && ByteAt(d, ByteOf(k, offsets).value).Some? && preset[k].value == ByteAt(d, ByteOf(k, offsets).value).value
  }

  ghost predicate OneValueEach(preset: M.Params, offsets: map<string, int>) {
    forall k, l :: k in preset && l in preset && ByteOf(k, offsets) == ByteOf(l, offsets) ==> preset[k] == preset[l]
  }

  /** A file holds every key's value exactly when it matches the dictionary and keys of
      one byte have one value. */
  lemma {:induction false} AllKeysExactly(d: bytes, preset: M.Params, order: seq<string>, offsets: map<string, int>)
    requires ListsOnce(order, preset.Keys)
    ensures (forall k :: k in preset ==> ByteOf(k, offsets).Ok?) ==>
              (MatchesParams(d, preset, offsets) <==>
               MatchesBytes(d, preset, order, offsets) && OneValueEach(preset, offsets))
  {
    hide ByteOf, Framed, ByteAt;
    if MatchesBytes(d, preset, order, offsets) && OneValueEach(preset, offsets) {
      forall k | k in preset ensures ByteIs(d, ByteOf(k, offsets).value, preset[k]) {
        assert k in order;
        var i :| 0 <= i < |order| && order[i] == k;
        var j := LastKey(order, i, offsets);
        assert order[j] in order;
      }
    }
    if MatchesParams(d, preset, offsets) {
      forall i | 0 <= i < |order| ensures ByteIs(d, ByteOf(order[i], offsets).value, preset[order[i]]) {
        assert order[i] in order;
      }
    }
  }

  /** The dump has a byte for every key, whichever key matched it. */
  predicate Reachable(d: bytes, preset: M.Params, offsets: map<string, int>) {
    Framed(d) && forall k :: k in preset ==> ByteOf(k, offsets).Ok? && ByteAt(d, ByteOf(k, offsets).value).Some?
  }

  lemma {:induction false} MatchReaches(d: bytes, preset: M.Params, order: seq<string>, offsets: map<string, int>)
    requires ListsOnce(order, preset.Keys) && MatchesBytes(d, preset, order, offsets)
    ensures Reachable(d, preset, offsets)
  {
    hide ByteOf, Framed, ByteAt;
    forall k | k in preset ensures ByteOf(k, offsets).Ok? && ByteAt(d, ByteOf(k, offsets).value).Some? {
      assert k in order;
      var i :| 0 <= i < |order| && order[i] == k;
      var j := LastKey(order, i, offsets);
      assert order[j] in order;
    }
  }
}
