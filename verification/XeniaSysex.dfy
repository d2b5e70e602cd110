/** xenia_dump.iter_sysex: F0..F7 messages of a raw stream or of a Standard MIDI File. */
module XeniaSysex {
  import opened Bytes
  import opened Smf

  /** What Python raises: running off the data, an overlong quantity, or
      masking a running status that was never set. */
  datatype Error = IndexError | DumpError | TypeError

  type Messages = Result<seq<bytes>, Error>

  // ----- Raw streams -----

  /** F0..F7 runs of a raw stream, left to right. */
  function RawMessages(s: bytes): seq<bytes>
    decreases |s|
  {
    var start := Find(s, 0xF0, 0);
    if start < 0 then []
    else
      var end := Find(s, 0xF7, start);
      if end < 0 then [] else [s[start..end + 1]] + RawMessages(s[end + 1..])
  }

  // ----- One track -----

  function ReadVarlen(data: bytes, pos: nat, left: nat, acc: nat): (r: Result<(nat, nat), Error>)
    ensures r.Ok? ==> pos < r.value.1 <= |data|
    decreases |data| - pos
  {
    if left == 0 then Err(DumpError)
    else if pos >= |data| then Err(IndexError)
    else
      var v := acc * 128 + data[pos] % 128;
      if data[pos] < 128 then Ok((v, pos + 1)) else ReadVarlen(data, pos + 1, left - 1, v)
  }

  function SkipDelta(data: bytes, cur: nat, end: nat): (r: Result<nat, Error>)
    ensures r.Ok? ==> r.value >= cur && (cur < end ==> r.value > cur)
    decreases end - cur
  {
    if cur >= end then Ok(cur)
    else if cur >= |data| then Err(IndexError)
    else if data[cur] < 128 then Ok(cur + 1)
    else SkipDelta(data, cur + 1, end)
  }

  /** Messages completed by one packet, and the message still open after it. */
  datatype Packets = Packets(out: seq<bytes>, fragment: Option<bytes>)

  function Packet(status: byte, chunk: bytes, fragment: Option<bytes>): Packets {
    if status == 0xF0 then
      var body := if chunk != [] && chunk[0] == 0xF0 then chunk else [0xF0] + chunk;
      if EndsF7(body) then Packets([body], fragment)
      else Packets(Flush(fragment), Some(body))
    else match fragment
      case None => Packets([], None)
      case Some(f) =>
        if EndsF7(f + chunk) then Packets([f + chunk], None) else Packets([], Some(f + chunk))
  }

  function Flush(fragment: Option<bytes>): seq<bytes> {
    if fragment.Some? then [fragment.value] else []
  }

  /** (status & 0xE0) in (0x80, 0x90, 0xA0, 0xB0, 0xE0) ? 2 : 1 */
  function StatusData(status: byte): nat {
    if status / 32 * 32 in {0x80, 0x90, 0xA0, 0xB0, 0xE0} then 2 else 1
  }

  /** The cursor, running status and open message between two events. */
  datatype Cursor = Cursor(cur: nat, running: Option<byte>, fragment: Option<bytes>)

  /** One turn of the track loop: it leaves the track, raises, or moves on with
      the messages it completed. */
  datatype Turn = Done(fragment: Option<bytes>) | Raised(error: Error) | Next(out: seq<bytes>, to: Cursor)

  function Step(data: bytes, end: nat, c: Cursor): (t: Turn)
    ensures t.Next? && c.cur < end ==> t.to.cur > c.cur
  {
    match SkipDelta(data, c.cur, end)
    case Err(e) => Raised(e)
    case Ok(at) =>
      if at >= end then Done(c.fragment)
      else if at >= |data| then Raised(IndexError)
      else if data[at] == 0xF0 || data[at] == 0xF7 then
        (match ReadVarlen(data, at + 1, 4, 0)
         case Err(e) => Raised(e)
         case Ok((length, p)) =>
           var k := Packet(data[at], Slice(data, p, p + length), c.fragment);
           Next(k.out, Cursor(p + length, c.running, k.fragment)))
      else if data[at] == 0xFF then
        (match ReadVarlen(data, at + 2, 4, 0)
         case Err(e) => Raised(e)
         case Ok((length, p)) => Next([], Cursor(p + length, None, c.fragment)))
      else if data[at] >= 0x80 then
        Next([], Cursor(at + 1 + StatusData(data[at]), Some(data[at]), c.fragment))
      else match c.running
        case None => Raised(TypeError)
        case Some(s) => Next([], Cursor(at + StatusData(s), c.running, c.fragment))
  }

  function Walk(data: bytes, end: nat, c: Cursor): Messages
    decreases end - c.cur
  {
    if c.cur >= end then Ok(Flush(c.fragment))
    else match Step(data, end, c)
      case Done(fragment) => Ok(Flush(fragment))
      case Raised(e) => Err(e)
      case Next(out, to) => Prepend(out, Walk(data, end, to))
  }

  function WalkTracks(data: bytes, pos: nat, count: nat): Messages
    decreases count
  {
    if count == 0 || pos + 8 > |data| || data[pos..pos + 4] != MTRK then Ok([])
    else
      var end := pos + 8 + BigEndian(data[pos + 4..pos + 8]);
      match Walk(data, end, Cursor(pos + 8, None, None))
      case Err(e) => Err(e)
      case Ok(ms) => Prepend(ms, WalkTracks(data, end, count - 1))
  }

  /** The whole of iter_sysex. */
  function SysexOf(data: bytes): Messages {
    if Slice(data, 0, 4) != MTHD then Ok(RawMessages(data))
    else WalkTracks(data, 8 + BigEndian(Slice(data, 4, 8)), BigEndian(Slice(data, 10, 12)))
  }

  // ----- The loops -----

  lemma {:induction false} FindInSuffix(s: bytes, b: int, pos: nat, from: nat)
    requires pos <= from <= |s|
    ensures Find(s[pos..], b, from - pos) == (if Find(s, b, from) < 0 then -1 else Find(s, b, from) - pos)
    decreases |s| - from
  {
    if from < |s| && s[from] != b {
      FindInSuffix(s, b, pos, from + 1);
    }
  }

  lemma {:induction false} RawOnce(s: bytes)
    ensures var start := Find(s, 0xF0, 0);
            if start < 0 then RawMessages(s) == []
            else
              var end := Find(s, 0xF7, start);
              RawMessages(s) == if end < 0 then [] else [s[start..end + 1]] + RawMessages(s[end + 1..])
  {
    hide Find;
  }

  /** One turn of the raw loop, said about the suffix still to be read. */
  lemma {:induction false} RawTurn(data: bytes, pos: nat)
    requires pos <= |data|
    ensures var start := Find(data, 0xF0, pos);
            if start < 0 then RawMessages(data[pos..]) == []
            else
              var end := Find(data, 0xF7, start);
              RawMessages(data[pos..]) == if end < 0 then [] else [data[start..end + 1]] + RawMessages(data[end + 1..])
  {
    hide RawMessages, Find;
    RawOnce(data[pos..]);
    FindInSuffix(data, 0xF0, pos, pos);
    var start := Find(data, 0xF0, pos);
    if start >= 0 {
      FindInSuffix(data, 0xF7, pos, start);
      var end := Find(data, 0xF7, start);
      if end >= 0 {
        assert data[pos..][start - pos..end - pos + 1] == data[start..end + 1];
        assert data[pos..][end - pos + 1..] == data[end + 1..];
      }
    }
  }

  method RawLoop(data: bytes) returns (out: seq<bytes>)
    ensures out == RawMessages(data)
  {
    out := [];
    var pos: nat := 0;
    assert data[0..] == data;
    AppendNone(RawMessages(data));
    hide RawMessages;
    while true
      invariant pos <= |data|
      invariant RawMessages(data) == out + RawMessages(data[pos..])
      decreases |data| - pos
    {
      RawTurn(data, pos);
      AppendNone(out);
      var start := Find(data, 0xF0, pos);
      if start < 0 {
        break;
      }
      var end := Find(data, 0xF7, start);
      if end < 0 {
        break;
      }
      ghost var rest := RawMessages(data[end + 1..]);
      AppendAssoc(out, [data[start..end + 1]], rest);
      out := out + [data[start..end + 1]];
      pos := end + 1;
    }
  }

  method ReadVarlenLoop(data: bytes, start: nat) returns (r: Result<(nat, nat), Error>)
    ensures r == ReadVarlen(data, start, 4, 0)
  {
    var value: nat, pos: nat, i := 0, start, 0;
    while i < 4
      invariant 0 <= i <= 4
      invariant ReadVarlen(data, start, 4, 0) == ReadVarlen(data, pos, 4 - i, value)
    {
      if pos >= |data| {
        return Err(IndexError);
      }
      var b := data[pos];
      pos, value, i := pos + 1, value * 128 + b % 128, i + 1;
      if b < 128 {
        return Ok((value, pos));
      }
    }
    return Err(DumpError);
  }

  method SkipDeltaLoop(data: bytes, start: nat, end: nat) returns (r: Result<nat, Error>)
    ensures r == SkipDelta(data, start, end)
  {
    var cur := start;
    while cur < end
      invariant start <= cur
      invariant SkipDelta(data, start, end) == SkipDelta(data, cur, end)
    {
      if cur >= |data| {
        return Err(IndexError);
      }
      cur := cur + 1;
      if data[cur - 1] < 128 {
        break;
      }
    }
    return Ok(cur);
  }

  method TakePacket(status: byte, chunk: bytes, before: Option<bytes>) returns (out: seq<bytes>,
      fragment: Option<bytes>)
    ensures Packets(out, fragment) == Packet(status, chunk, before)
  {
    out, fragment := [], before;
    if status == 0xF0 {
      var body := if chunk != [] && chunk[0] == 0xF0 then chunk else [0xF0] + chunk;
      if EndsF7(body) {
        out := [body];
      } else {
        if fragment.Some? {
          out := [fragment.value];
        }
        fragment := Some(body);
      }
    } else if fragment.Some? {
      fragment := Some(fragment.value + chunk);
      if EndsF7(fragment.value) {
        out := [fragment.value];
        fragment := None;
      }
    }
  }

  method TakeEvent(data: bytes, end: nat, c: Cursor) returns (t: Turn)
    ensures t == Step(data, end, c)
  {
    hide SkipDelta, ReadVarlen, Packet, Slice, StatusData;
    var skipped := SkipDeltaLoop(data, c.cur, end);
    if skipped.Err? {
      return Raised(skipped.error);
    }
    var at := skipped.value;
    if at >= end {
      return Done(c.fragment);
    }
    if at >= |data| {
      return Raised(IndexError);
    }
    var status := data[at];
    if status == 0xF0 || status == 0xF7 {
      var got := ReadVarlenLoop(data, at + 1);
      if got.Err? {
        return Raised(got.error);
      }
      var (length, p) := got.value;
      var out, fragment := TakePacket(status, Slice(data, p, p + length), c.fragment);
      return Next(out, Cursor(p + length, c.running, fragment));
    } else if status == 0xFF {
      var got := ReadVarlenLoop(data, at + 2);
      if got.Err? {
        return Raised(got.error);
      }
      return Next([], Cursor(got.value.1 + got.value.0, None, c.fragment));
    } else if status >= 0x80 {
      return Next([], Cursor(at + 1 + StatusData(status), Some(status), c.fragment));
    } else if c.running.None? {
      return Raised(TypeError);
    }
    return Next([], Cursor(at + StatusData(c.running.value), c.running, c.fragment));
  }

  method TrackLoop(data: bytes, start: nat, end: nat) returns (r: Messages)
    ensures r == Walk(data, end, Cursor(start, None, None))
  {
    var out: seq<bytes> := [];
    var c := Cursor(start, None, None);
    PrependNone(Walk(data, end, c));
    while c.cur < end
      invariant Walk(data, end, Cursor(start, None, None)) == Prepend(out, Walk(data, end, c))
      decreases end - c.cur
    {
      var turn := TakeEvent(data, end, c);
      match turn {
        case Done(fragment) => return Ok(out + Flush(fragment));
        case Raised(e) => return Err(e);
        case Next(done, to) =>
          PrependTwice(out, done, Walk(data, end, to));
          out, c := out + done, to;
      }
    }
    return Ok(out + Flush(c.fragment));
  }

  /** One turn of the track loop, without the next one. */
  lemma {:induction false} WalkTracksTurn(data: bytes, pos: nat, count: nat)
    ensures if count == 0 || pos + 8 > |data| || data[pos..pos + 4] != MTRK then WalkTracks(data, pos, count) == Ok([])
            else
              var end := pos + 8 + BigEndian(data[pos + 4..pos + 8]);
              var got := Walk(data, end, Cursor(pos + 8, None, None));
              WalkTracks(data, pos, count)
              == if got.Err? then got else Prepend(got.value, WalkTracks(data, end, count - 1))
  {
    hide Walk, Prepend, BigEndian;
  }

  method TracksLoop(data: bytes, start: nat, tracks: nat) returns (r: Messages)
    ensures r == WalkTracks(data, start, tracks)
  {
    var pos: nat, out: seq<bytes>, n := start, [], 0;
    PrependNone(WalkTracks(data, start, tracks));
    hide WalkTracks, Walk, Prepend;
    while n < tracks
      invariant n <= tracks
      invariant WalkTracks(data, start, tracks) == Prepend(out, WalkTracks(data, pos, tracks - n))
    {
      PrependLast<bytes, Error>(out);
      WalkTracksTurn(data, pos, tracks - n);
      if pos + 8 > |data| || data[pos..pos + 4] != MTRK {
        return Ok(out);
      }
      var end := pos + 8 + BigEndian(data[pos + 4..pos + 8]);
      var got := TrackLoop(data, pos + 8, end);
      if got.Err? {
        PrependError(out, got.error);
        return got;
      }
      PrependTwice(out, got.value, WalkTracks(data, end, tracks - n - 1));
      out, pos, n := out + got.value, end, n + 1;
    }
    PrependLast<bytes, Error>(out);
    WalkTracksTurn(data, pos, 0);
    return Ok(out);
  }

  method IterSysex(data: bytes) returns (r: Messages)
    ensures r == SysexOf(data)
  {
    if Slice(data, 0, 4) != MTHD {
      var raw := RawLoop(data);
      return Ok(raw);
    }
    r := TracksLoop(data, 8 + BigEndian(Slice(data, 4, 8)), BigEndian(Slice(data, 10, 12)));
  }
}
