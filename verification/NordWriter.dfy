/** nord_dump.write_patch: named overrides written into the first dump of a raw file. */
module NordWriter {
  import opened Bytes
  import opened Ordering
  import opened NordSyx
  import opened NordDump
  import Smf

  // ----- One dump -----

  ghost predicate WritablePlan(plan: map<nat, int>) {
    forall i :: i in plan ==> i < PARAMS && 0 <= plan[i] <= 127
  }

  /** The dump with the planned parameters set, byte by byte. */
  ghost function Planted(d: bytes, plan: map<nat, int>): (r: bytes)
    requires |d| >= 138 && WritablePlan(plan)
    ensures |r| == |d|
  {
    seq(|d|, k requires 0 <= k < |d| => PlantedByte(d, plan, k))
  }

  ghost function PlantedByte(d: bytes, plan: map<nat, int>, k: nat): byte
    requires k < |d| && WritablePlan(plan)
  {
    if 6 <= k && (k - 6) / 2 in plan then
      var v := plan[(k - 6) / 2];
      Nibble(d[k], if k % 2 == 0 then v % 16 else v / 16)
    else d[k]
  }

  lemma {:induction false} PlantTurn(d: bytes, plan: map<nat, int>, i: nat, v: int)
    requires |d| >= 138 && WritablePlan(plan) && i < PARAMS && 0 <= v <= 127 && i !in plan
    ensures SetNibbles(Planted(d, plan), i, v) == Planted(d, plan[i := v])
  {
    var p, q := SetNibbles(Planted(d, plan), i, v), Planted(d, plan[i := v]);
    forall k | 0 <= k < |d| ensures p[k] == q[k] {
      if k == 6 + 2 * i || k == 7 + 2 * i {
        assert (k - 6) / 2 == i;
      }
    }
  }

  ghost predicate HasBits(o: map<string, int>) {
    exists n :: n in o && IsBit(n)
  }

  /** What write_patch does to the first dump, whatever the order of the overrides. */
  ghost function Rewritten(d: bytes, o: map<string, int>, vocab: Vocabulary): (r: Result<bytes, Error>)
    requires |d| >= 138 && ValidVocabulary(vocab)
    ensures r.Ok? ==> |r.value| == |d|
  {
    var plan := Planned(o, vocab);
    if HasUnknown(o, vocab) then Err(UnknownName)
    else if HasBadBit(o) then Err(BadBit)
    else if !WritablePlan(plan) then Err(OutOfRange)
    else if !HasBits(o) then Ok(Planted(d, plan))
    else
      var p := Planted(d, plan);
      var c := WithBits(Param(p, SYNC), o);
      if !(0 <= c <= 127) then Err(OutOfRange) else Ok(SetNibbles(p, SYNC, c))
  }

  predicate IndexLe(a: nat, b: nat) {
    a <= b
  }

  ghost function Upto(plan: map<nat, int>, done: seq<nat>): map<nat, int> {
    map i | i in plan && i in done :: plan[i]
  }

  lemma {:induction false} UptoTurn(plan: map<nat, int>, indices: seq<nat>, k: nat)
    requires k < |indices| && indices[k] in plan
    requires forall i, j :: 0 <= i < j < |indices| ==> indices[i] != indices[j]
    ensures indices[k] !in Upto(plan, indices[..k])
    ensures Upto(plan, indices[..k + 1]) == Upto(plan, indices[..k])[indices[k] := plan[indices[k]]]
  {
    assert indices[..k + 1] == indices[..k] + [indices[k]];
  }

  lemma {:induction false} UptoAll(plan: map<nat, int>, indices: seq<nat>)
    requires forall i :: i in plan ==> i in indices
    ensures Upto(plan, indices[..|indices|]) == plan && Upto(plan, []) == map[]
  {
    assert indices[..|indices|] == indices;
  }

  lemma {:induction false} PlantNothing(d: bytes)
    requires |d| >= 138
    ensures Planted(d, map[]) == d
  {
  }

  /** set_param over the plan in index order. */
  method SetAll(dump: array<byte>, plan: map<nat, int>) returns (r: Option<Error>)
    requires dump.Length >= 138 && forall i :: i in plan ==> i < PARAMS
    modifies dump
    ensures r == if WritablePlan(plan) then None else Some(OutOfRange)
    ensures WritablePlan(plan) ==> dump[..] == Planted(old(dump[..]), plan)
  {
    hide Planted, SetNibbles, Upto, Ascending, TotalOrder, Listed;
    ghost var start := dump[..];
    IndicesAreOrdered();
    var indices := SortedList(plan.Keys, IndexLe);
    UptoAll(plan, indices);
    PlantNothing(start);
    assert indices[..0] == [];
    for k := 0 to |indices|
      invariant WritablePlan(Upto(plan, indices[..k]))
      invariant forall j :: 0 <= j < k ==> indices[j] in plan && 0 <= plan[indices[j]] <= 127
      invariant dump[..] == Planted(start, Upto(plan, indices[..k]))
    {
      var index := indices[k];
      UptoTurn(plan, indices, k);
      r := SetParam(dump, index, plan[index]);
      if r.Some? {
        return;
      }
      PlantTurn(start, Upto(plan, indices[..k]), index, plan[index]);
    }
    return None;
  }

  lemma {:induction false} IndicesAreOrdered()
    ensures TotalOrder(IndexLe)
  {
  }

  /** The read-modify-write of byte 52. */
  method ApplyOps(dump: array<byte>, ops: seq<BitOp>) returns (r: Option<Error>)
    requires dump.Length >= 138
    modifies dump
    ensures var c := ApplyBits(Param(old(dump[..]), SYNC), ops);
            && r == (if 0 <= c <= 127 then None else Some(OutOfRange))
            && dump[..] == if 0 <= c <= 127 then SetNibbles(old(dump[..]), SYNC, c) else old(dump[..])
  {
    hide PutBit, SetNibbles;
    var current := Param(dump[..], SYNC);
    for k := 0 to |ops|
      invariant current == ApplyBits(Param(old(dump[..]), SYNC), ops[..k])
      invariant current >= 0
    {
      assert ops[..k + 1][..k] == ops[..k];
      current := PutBit(current, ops[k].bit, ops[k].value);
    }
    assert ops[..|ops|] == ops;
    r := SetParam(dump, SYNC, current);
  }

  lemma {:induction false} ListedBits(current: nat, names: seq<string>, o: map<string, int>)
    requires BitNames(names, o, o.Keys) && !HasBadBit(o)
    ensures OpsOf(names, o) == [] <==> !HasBits(o)
    ensures ApplyBits(current, OpsOf(names, o)) == WithBits(current, o)
  {
    BitsForgetOrder(current, names, o);
    assert names != [] ==> names[0] in names;
    var only := OnlyNames(o, names);
    forall n | IsBit(n) ensures (n in only <==> n in o) && (n in o ==> only[n] == o[n]) {
    }
  }

  method RewriteDump(dump: array<byte>, o: map<string, int>, vocab: Vocabulary) returns (r: Option<Error>)
    requires dump.Length >= 138 && ValidVocabulary(vocab)
    modifies dump
    ensures match Rewritten(old(dump[..]), o, vocab)
            case Err(e) => r == Some(e)
            case Ok(d) => r.None? && dump[..] == d
  {
    hide Planted, SetNibbles, WithBits, ApplyBits, OpsOf, HasUnknown, HasBadBit, HasBits;
    var resolved := ResolveOverrides(o, vocab);
    if resolved.Err? {
      return Some(resolved.error);
    }
    var (plan, ops) := resolved.value;
    PlannedIndices(o, vocab);
    r := SetAll(dump, plan);
    if r.Some? {
      return;
    }
    ghost var names :| BitNames(names, o, o.Keys) && ops == OpsOf(names, o);
    ListedBits(Param(dump[..], SYNC), names, o);
    if ops != [] {
      r := ApplyOps(dump, ops);
    }
  }

  lemma {:induction false} PlannedIndices(o: map<string, int>, vocab: Vocabulary)
    requires ValidVocabulary(vocab)
    ensures forall i :: i in Planned(o, vocab) ==> i < PARAMS
  {
  }

  // ----- The file -----

  const RIFF: bytes := [0x52, 0x49, 0x46, 0x46]

  /** write_patch on the bytes of the base file. */
  ghost function Patched(data: bytes, o: map<string, int>, vocab: Vocabulary): Result<bytes, Error>
    requires ValidVocabulary(vocab)
  {
    var spans := Spans(data, 0);
    if Slice(data, 0, 4) == Smf.MTHD || Slice(data, 0, 4) == RIFF then Err(NotRaw)
    else if spans == [] then Err(NoDump)
    else
      SpanFramed(data, 0);
      var s := spans[0];
      if Classify(data[s.start + 1..s.end]).None? then Err(BadShape)
      else match Rewritten(data[s.start..s.end + 1], o, vocab)
        case Err(e) => Err(e)
        case Ok(d) => Ok(data[..s.start] + d + data[s.end + 1..])
  }

  lemma {:induction false} SpanFramed(data: bytes, i: nat)
    requires i <= |data| && Spans(data, i) != []
    ensures var s := Spans(data, i)[0];
            i <= s.start < s.end < |data| && Anchor(data, s.start) && s.end == Find(data, 0xF7, s.start)
    decreases |data| - i
  {
    if !Anchor(data, i) {
      SpanFramed(data, i + 1);
    }
  }

  method WritePatch(data: bytes, o: map<string, int>, vocab: Vocabulary) returns (r: Result<bytes, Error>)
    requires ValidVocabulary(vocab)
    ensures r == Patched(data, o, vocab)
  {
    hide Rewritten, Spans, Classify;
    if Slice(data, 0, 4) == Smf.MTHD || Slice(data, 0, 4) == RIFF {
      return Err(NotRaw);
    }
    var spans := ScanSyxSpans(data);
    if spans == [] {
      return Err(NoDump);
    }
    SpanFramed(data, 0);
    var s := spans[0];
    if Classify(data[s.start + 1..s.end]).None? {
      return Err(BadShape);
    }
    var dump := new byte[s.end + 1 - s.start](i requires 0 <= i < s.end + 1 - s.start => data[s.start + i]);
    assert dump[..] == data[s.start..s.end + 1];
    var failed := RewriteDump(dump, o, vocab);
    if failed.Some? {
      return Err(failed.value);
    }
    return Ok(data[..s.start] + dump[..] + data[s.end + 1..]);
  }
}
