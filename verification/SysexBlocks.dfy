/** The raw scan two decoders share: F0..F7 runs with any SMF length stripped
    (microwave_patch._midi_sysex_messages, je8086_patch.iter_sysex_blocks). */
module SysexBlocks {
  import opened Bytes
  import XeniaSysex

  /** The length of a leading run of bytes over 127. */
  function HighRun(body: bytes): nat {
    if body != [] && body[0] >= 0x80 then 1 + HighRun(body[1..]) else 0
  }

  /** A message body without the length an SMF puts after the F0. */
  function Stripped(body: bytes): bytes {
    if body != [] && body[0] >= 0x80 then Slice(body, HighRun(body) + 1, |body|) else body
  }

  /** The payload of a message: no F0, no F7, no length, and not empty. */
  function Inner(m: bytes): Option<bytes> {
    var inner := Stripped(Slice(m, 1, if m == [] then 0 else |m| - 1));
    if inner == [] then None else Some(inner)
  }

  method Strip(body: bytes) returns (inner: bytes)
    ensures inner == Stripped(body)
  {
    var n: nat := 0;
    if body != [] && body[0] >= 0x80 {
      assert body[0..] == body;
      while n < |body| && body[n] >= 0x80
        invariant n <= |body| && n + HighRun(body[n..]) == HighRun(body)
      {
        assert body[n..][1..] == body[n + 1..];
        n := n + 1;
      }
      n := n + 1;
    }
    return Slice(body, n, |body|);
  }

  lemma {:induction false} InnerTurn(data: bytes, j: nat, k: nat, rest: seq<bytes>)
    requires j < k < |data|
    ensures var inner := Stripped(data[j + 1..k]);
            Keep([data[j..k + 1]] + rest, Inner) == (if inner == [] then [] else [inner]) + Keep(rest, Inner)
  {
    hide Stripped;
    KeepFirst(data[j..k + 1], rest, Inner);
    SliceOfSlice(data, j, k + 1, 1, k - j);
  }

  /** The payloads of the F0..F7 runs, read as a raw stream. */
  method Blocks(data: bytes) returns (out: seq<bytes>)
    ensures out == Keep(XeniaSysex.RawMessages(data), Inner)
  {
    hide XeniaSysex.RawMessages, Stripped, Keep, Inner;
    out := [];
    var i: nat := 0;
    ghost var all := Keep(XeniaSysex.RawMessages(data), Inner);
    assert data[0..] == data;
    AppendNone(all);
    KeepNone(Inner);
    while true
      invariant i <= |data| && all == out + Keep(XeniaSysex.RawMessages(data[i..]), Inner)
      decreases |data| - i
    {
      XeniaSysex.RawTurn(data, i);
      AppendNone(out);
      var j := Find(data, 0xF0, i);
      if j < 0 {
        return;
      }
      var k := Find(data, 0xF7, j);
      if k < 0 {
        return;
      }
      ghost var rest := XeniaSysex.RawMessages(data[k + 1..]);
      InnerTurn(data, j, k, rest);
      var inner := Strip(data[j + 1..k]);
      AppendNone(Keep(rest, Inner));
      if inner != [] {
        AppendAssoc(out, [inner], Keep(rest, Inner));
        out := out + [inner];
      }
      i := k + 1;
    }
  }

  lemma {:induction false} KeepNone(f: bytes -> Option<bytes>)
    ensures Keep([], f) == []
  {
  }
}
