/** nord_dump: parameters as nibble pairs, the packed byte 52, and the patch writer. */
module NordDump {
  import opened Bytes
  import opened NordSyx

  const PARAMS := 66
  const SYNC := 52

  datatype Error = NotRaw | NoDump | BadShape | UnknownName | BadBit | OutOfRange | BadIndex

  // ----- nl2x_patch: shapes and parameters -----

  datatype Kind = Kind(multi: bool, withName: bool)

  function Classify(payload: bytes): (r: Option<Kind>)
    ensures r.Some? <==> |payload| in {137, 147, 713, 723, 1061, 1071} && payload[0] == CLAVIA && payload[2] == N2X
    ensures r.Some? ==> (r.value.multi <==> |payload| > 147) && (r.value.withName <==> |payload| in {147, 723})
  {
    var total := |payload| + 2;
    if |payload| < 6 || payload[0] != CLAVIA || payload[2] != N2X then None
    else if total == 139 || total == 149 then Some(Kind(false, total == 149))
    else if total == 715 || total == 725 || total == 1063 || total == 1073 then Some(Kind(true, total == 725))
    else None
  }

  /** decode_params, on a payload without F0 and F7. */
  function DecodeParams(payload: bytes): (r: seq<int>)
    requires |payload| >= 137
    ensures |r| == PARAMS
  {
    seq(PARAMS, i requires 0 <= i < PARAMS => payload[5 + 2 * i] % 16 + 16 * (payload[6 + 2 * i] as int))
  }

  // ----- One parameter of a full dump -----

  /** get_param: the low nibble of one byte, all of the next shifted over it. */
  function Param(d: bytes, i: nat): nat
    requires i < PARAMS && |d| >= 138
  {
    d[6 + 2 * i] % 16 + 16 * (d[7 + 2 * i] as int)
  }

  /** b with its low nibble replaced. */
  function Nibble(b: byte, v: nat): byte
    requires v < 16
  {
    b / 16 * 16 + v
  }

  function SetNibbles(d: bytes, i: nat, v: nat): (r: bytes)
    requires i < PARAMS && |d| >= 138 && v <= 127
    ensures |r| == |d|
  {
    d[6 + 2 * i := Nibble(d[6 + 2 * i], v % 16)][7 + 2 * i := Nibble(d[7 + 2 * i], v / 16)]
  }

  method SetParam(dump: array<byte>, index: int, value: int) returns (r: Option<Error>)
    requires dump.Length >= 138
    modifies dump
    ensures r == if !(0 <= value <= 127) then Some(OutOfRange)
                 else if !(0 <= index < PARAMS) then Some(BadIndex)
                 else None
    ensures dump[..] == if r.None? then SetNibbles(old(dump[..]), index, value) else old(dump[..])
  {
    if !(0 <= value <= 127) {
      return Some(OutOfRange);
    }
    if !(0 <= index < 66) {
      return Some(BadIndex);
    }
    var off := 6 + 2 * index;
    dump[off] := Nibble(dump[off], value % 16);
    dump[off + 1] := Nibble(dump[off + 1], value / 16);
    return None;
  }

  // ----- Overrides -----

  type Vocabulary = map<string, nat>

  /** Every name has its own storage index. */
  ghost predicate ValidVocabulary(vocab: Vocabulary) {
    && (forall n :: n in vocab ==> vocab[n] < PARAMS)
    && (forall a, b :: a in vocab && b in vocab && vocab[a] == vocab[b] ==> a == b)
  }

  /** The three names that address one bit of byte 52. */
  predicate IsBit(name: string) {
    name == "sync" || name == "ringmod" || name == "distortion"
  }

  function Bit(name: string): nat
    requires IsBit(name)
  {
    if name == "sync" then 0 else if name == "ringmod" then 1 else 4
  }

  datatype BitOp = BitOp(bit: nat, value: int)

  /** The names among those done that address a whole parameter. */
  ghost function ByteNames(o: map<string, int>, vocab: Vocabulary, done: set<string>): set<string> {
    set n | n in o && n in done && !IsBit(n) && n in vocab
  }

  ghost function IndicesOf(names: set<string>, vocab: Vocabulary): set<nat>
    requires names <= vocab.Keys
  {
    set n | n in names :: vocab[n]
  }

  ghost function NameAt(names: set<string>, vocab: Vocabulary, i: nat): (n: string)
    requires names <= vocab.Keys && i in IndicesOf(names, vocab)
    ensures n in names && vocab[n] == i
  {
    var n :| n in names && vocab[n] == i;
    n
  }

  ghost function PlannedOf(o: map<string, int>, vocab: Vocabulary, done: set<string>): map<nat, int>
    requires ValidVocabulary(vocab)
  {
    var names := ByteNames(o, vocab, done);
    map i | i in IndicesOf(names, vocab) :: o[NameAt(names, vocab, i)]
  }

  /** The storage index of every byte override, with its value. */
  ghost function Planned(o: map<string, int>, vocab: Vocabulary): map<nat, int>
    requires ValidVocabulary(vocab)
  {
    PlannedOf(o, vocab, o.Keys)
  }

  ghost predicate HasUnknown(o: map<string, int>, vocab: Vocabulary) {
    exists n :: n in o && !IsBit(n) && n !in vocab
  }

  ghost predicate HasBadBit(o: map<string, int>) {
    exists n :: n in o && IsBit(n) && !(0 <= o[n] <= 1)
  }

  function OpsOf(names: seq<string>, o: map<string, int>): seq<BitOp>
    requires forall n :: n in names ==> n in o && IsBit(n)
  {
    seq(|names|, i requires 0 <= i < |names| => assert names[i] in names; BitOp(Bit(names[i]), o[names[i]]))
  }

  /** The bit overrides, each once, in whatever order the dictionary gives them. */
  ghost predicate BitNames(names: seq<string>, o: map<string, int>, done: set<string>) {
    && (forall n :: n in names <==> n in o && n in done && IsBit(n))
    && (forall i, j :: 0 <= i < j < |names| ==> names[i] != names[j])
  }

  lemma {:induction false} PlanTurn(o: map<string, int>, vocab: Vocabulary, done: set<string>, name: string)
    requires ValidVocabulary(vocab) && name in o
    ensures PlannedOf(o, vocab, done + {name}) ==
            if !IsBit(name) && name in vocab then PlannedOf(o, vocab, done)[vocab[name] := o[name]]
            else PlannedOf(o, vocab, done)
  {
  }

  lemma {:induction false} NamesTurn(names: seq<string>, o: map<string, int>, done: set<string>, name: string)
    requires BitNames(names, o, done) && name in o && name !in done
    ensures BitNames(if IsBit(name) then names + [name] else names, o, done + {name})
    ensures IsBit(name) ==> (forall n :: n in names + [name] ==> n in o && IsBit(n))
                            && OpsOf(names + [name], o) == OpsOf(names, o) + [BitOp(Bit(name), o[name])]
  {
    hide Bit;
  }

  /** The operations of the bit overrides, one each, in some order. */
  ghost predicate AreBits(ops: seq<BitOp>, o: map<string, int>) {
    exists names :: BitNames(names, o, o.Keys) && ops == OpsOf(names, o)
  }

  /** The overrides are visited in dictionary order, which the result does not depend on. */
  method CollectOverrides(o: map<string, int>,
      vocab: Vocabulary) returns (r: Result<(map<nat, int>, seq<BitOp>), Error>)
    requires ValidVocabulary(vocab)
    ensures r == Err(UnknownName) <==> HasUnknown(o, vocab)
    ensures r.Err? ==> r.error == UnknownName
    ensures r.Ok? ==> r.value.0 == Planned(o, vocab) && AreBits(r.value.1, o)
  {
    hide PlannedOf, ValidVocabulary, OpsOf, BitNames, Bit, IsBit;
    var plan: map<nat, int>, rmw: seq<BitOp> := map[], [];
    ghost var names: seq<string> := [];
    var todo := o.Keys;
    NothingDone(o, vocab);
    while todo != {}
      invariant todo <= o.Keys
      invariant forall n :: n in o && n !in todo ==> IsBit(n) || n in vocab
      invariant plan == PlannedOf(o, vocab, o.Keys - todo)
      invariant BitNames(names, o, o.Keys - todo)
      invariant forall n :: n in names ==> n in o && IsBit(n)
      invariant rmw == OpsOf(names, o)
      decreases |todo|
    {
      var name :| name in todo;
      assert o.Keys - todo + {name} == o.Keys - (todo - {name});
      PlanTurn(o, vocab, o.Keys - todo, name);
      NamesTurn(names, o, o.Keys - todo, name);
      if IsBit(name) {
        rmw := rmw + [BitOp(Bit(name), o[name])];
        names := names + [name];
      } else if name !in vocab {
        return Err(UnknownName);
      } else {
        plan := plan[vocab[name] := o[name]];
      }
      todo := todo - {name};
    }
    assert o.Keys - todo == o.Keys;
    assert AreBits(rmw, o);
    return Ok((plan, rmw));
  }

  lemma {:induction false} NothingDone(o: map<string, int>, vocab: Vocabulary)
    requires ValidVocabulary(vocab)
    ensures PlannedOf(o, vocab, o.Keys - o.Keys) == map[]
    ensures BitNames([], o, o.Keys - o.Keys) && OpsOf([], o) == []
  {
  }

  method ResolveOverrides(o: map<string, int>,
      vocab: Vocabulary) returns (r: Result<(map<nat, int>, seq<BitOp>), Error>)
    requires ValidVocabulary(vocab)
    ensures r == Err(UnknownName) <==> HasUnknown(o, vocab)
    ensures r == Err(BadBit) <==> !HasUnknown(o, vocab) && HasBadBit(o)
    ensures r.Err? ==> r.error == UnknownName || r.error == BadBit
    ensures r.Ok? ==> r.value.0 == Planned(o, vocab) && AreBits(r.value.1, o)
  {
    hide PlannedOf, HasUnknown, HasBadBit;
    r := CollectOverrides(o, vocab);
    if r.Ok? {
      var rmw := r.value.1;
      ghost var names :| BitNames(names, o, o.Keys) && rmw == OpsOf(names, o);
      BadBitIsListed(names, o);
      for i := 0 to |rmw|
        invariant forall j :: 0 <= j < i ==> 0 <= rmw[j].value <= 1
      {
        if !(0 <= rmw[i].value <= 1) {
          return Err(BadBit);
        }
      }
    }
  }

  lemma {:induction false} BadBitIsListed(names: seq<string>, o: map<string, int>)
    requires BitNames(names, o, o.Keys)
    ensures HasBadBit(o) <==> exists i :: 0 <= i < |names| && !(0 <= OpsOf(names, o)[i].value <= 1)
  {
    if n :| n in o && IsBit(n) && !(0 <= o[n] <= 1) {
      assert n in names;
      var i :| 0 <= i < |names| && names[i] == n;
      assert OpsOf(names, o)[i].value == o[n];
    }
    if i :| 0 <= i < |names| && !(0 <= OpsOf(names, o)[i].value <= 1) {
      assert names[i] in names;
    }
  }

  // ----- Byte 52 -----

  function Pow2(bit: nat): nat {
    if bit == 0 then 1 else 2 * Pow2(bit - 1)
  }

  /** (current & ~(1 << bit)) | ((value & 1) << bit) */
  function PutBit(current: nat, bit: nat, value: int): nat {
    var p := Pow2(bit);
    assert p > 0 && current / p % 2 * p <= current by { BitFits(current, bit); }
    current - current / p % 2 * p + value % 2 * p
  }

  lemma {:induction false} BitFits(current: nat, bit: nat)
    ensures Pow2(bit) > 0 && current / Pow2(bit) % 2 * Pow2(bit) <= current
  {
    Pow2Positive(bit);
    hide Pow2;
    var p := Pow2(bit);
    DigitsFit(current, p, current / p);
  }

  lemma {:induction false} DigitsFit(n: nat, p: nat, q: nat)
    requires p > 0 && q == n / p
    ensures q % 2 * p <= n
  {
    assert n == q * p + n % p;
    assert (q - q % 2) * p >= 0;
    assert (q - q % 2) * p == q * p - q % 2 * p;
  }

  lemma {:induction false} Pow2Positive(bit: nat)
    ensures Pow2(bit) > 0
  {
    if bit > 0 {
      Pow2Positive(bit - 1);
    }
  }

  /** A byte from its bits 0, 1 and 4, the two between them and the rest. */
  function Join(s: int, r: int, mid: int, d: int, high: int): int {
    s + 2 * r + 4 * mid + 16 * d + 32 * high
  }

  /** current with bits 0, 1 and 4 as the overrides say and every other bit kept. */
  function WithBits(current: nat, o: map<string, int>): int {
    Join(if "sync" in o then o["sync"] else current % 2,
         if "ringmod" in o then o["ringmod"] else current / 2 % 2,
         current / 4 % 4,
         if "distortion" in o then o["distortion"] else current / 16 % 2,
         current / 32)
  }

  function OnlyNames(o: map<string, int>, names: seq<string>): map<string, int> {
    map n | n in o && n in names :: o[n]
  }

  lemma {:induction false} JoinBits(s: nat, r: nat, mid: nat, d: nat, high: nat)
    requires s < 2 && r < 2 && mid < 4 && d < 2
    ensures var c := Join(s, r, mid, d, high); c % 2 == s && c / 2 % 2 == r && c / 16 % 2 == d
  {
    var c := Join(s, r, mid, d, high);
    assert c == 2 * (r + 2 * (mid + 4 * (d + 2 * high))) + s;
    assert c / 2 == 2 * (mid + 4 * (d + 2 * high)) + r;
    assert c / 16 == 2 * high + d;
  }

  lemma {:induction false} SplitBits(c: nat)
    ensures c == Join(c % 2, c / 2 % 2, c / 4 % 4, c / 16 % 2, c / 32)
  {
    Shifts(c);
    var half, quarter, sixteenth := c / 2, c / 2 / 2, c / 4 / 4;
    assert c == c % 2 + 2 * half;
    assert half == half % 2 + 2 * quarter;
    assert quarter == quarter % 4 + 4 * (quarter / 4);
    assert sixteenth == sixteenth % 2 + 2 * (sixteenth / 2);
  }

  lemma {:induction false} Shifts(c: nat)
    ensures c / 2 / 2 == c / 4 && c / 4 / 4 == c / 16 && c / 16 / 2 == c / 32
  {
  }

  lemma {:induction false} PutBitJoins(s: nat, r: nat, mid: nat, d: nat, high: nat, bit: nat, v: nat)
    requires s < 2 && r < 2 && mid < 4 && d < 2 && v < 2 && (bit == 0 || bit == 1 || bit == 4)
    ensures PutBit(Join(s, r, mid, d, high), bit, v) ==
            if bit == 0 then Join(v, r, mid, d, high)
            else if bit == 1 then Join(s, v, mid, d, high)
            else Join(s, r, mid, v, high)
  {
    hide PutBit;
    JoinBits(s, r, mid, d, high);
    PutBitIs(Join(s, r, mid, d, high), bit, v);
  }

  lemma {:induction false} PutBitIs(current: nat, bit: nat, v: int)
    requires 0 <= v <= 1 && (bit == 0 || bit == 1 || bit == 4)
    ensures PutBit(current, bit, v) ==
            if bit == 0 then current - current % 2 + v
            else if bit == 1 then current - current / 2 % 2 * 2 + v * 2
            else current - current / 16 % 2 * 16 + v * 16
  {
    assert Pow2(0) == 1;
    assert Pow2(1) == 2;
    assert Pow2(4) == 2 * Pow2(3) && Pow2(3) == 2 * Pow2(2) && Pow2(2) == 2 * Pow2(1);
  }

  lemma {:induction false} WithBitsTurn(current: nat, o: map<string, int>, names: seq<string>, name: string)
    requires IsBit(name) && name in o && name !in names && forall n :: n in o && IsBit(n) ==> 0 <= o[n] <= 1
    ensures WithBits(current, OnlyNames(o, names)) >= 0
    ensures PutBit(WithBits(current, OnlyNames(o, names)), Bit(name), o[name])
         == WithBits(current, OnlyNames(o, names + [name]))
  {
    var before, after := OnlyNames(o, names), OnlyNames(o, names + [name]);
    assert forall n :: n != name ==> (n in before <==> n in after);
    var s := if "sync" in before then before["sync"] else current % 2;
    var r := if "ringmod" in before then before["ringmod"] else current / 2 % 2;
    var d := if "distortion" in before then before["distortion"] else current / 16 % 2;
    PutBitJoins(s, r, current / 4 % 4, d, current / 32, Bit(name), o[name]);
    hide PutBit;
  }

  function ApplyBits(current: nat, ops: seq<BitOp>): nat {
    if ops == [] then current
    else PutBit(ApplyBits(current, ops[..|ops| - 1]), ops[|ops| - 1].bit, ops[|ops| - 1].value)
  }

  /** The bit operations give one result in every order. */
  lemma {:induction false} BitsForgetOrder(current: nat, names: seq<string>, o: map<string, int>)
    requires forall n :: n in names ==> n in o && IsBit(n)
    requires forall i, j :: 0 <= i < j < |names| ==> names[i] != names[j]
    requires forall n :: n in o && IsBit(n) ==> 0 <= o[n] <= 1
    ensures ApplyBits(current, OpsOf(names, o)) == WithBits(current, OnlyNames(o, names))
    decreases |names|
  {
    hide WithBits, PutBit;
    if names == [] {
      assert OnlyNames(o, names) == map[];
      SplitBits(current);
      NoBits(current);
    } else {
      var k := |names| - 1;
      assert names == names[..k] + [names[k]];
      BitsForgetOrder(current, names[..k], o);
      assert OpsOf(names, o)[..k] == OpsOf(names[..k], o);
      WithBitsTurn(current, o, names[..k], names[k]);
    }
  }

  lemma {:induction false} NoBits(current: nat)
    ensures WithBits(current, map[]) == current
  {
    SplitBits(current);
  }
}
