/** The two Virus readers of Standard MIDI Files, written independently of each
    other: virus_fx_pages.smf_sysex_messages with iter_dumps, and
    virus_patch.parse_stdmidi. */
module VirusSmf {
  import opened Bytes
  import opened Smf

  /** The one exception these walkers raise: ValueError("truncated VLQ"). */
  datatype Error = TruncatedVlq

  function ReadVlq(data: bytes, i: nat, acc: nat): (r: Result<(nat, nat), Error>)
    ensures r.Ok? ==> i < r.value.1 <= |data|
    decreases |data| - i
  {
    if i >= |data| then Err(TruncatedVlq)
    else
      var v := acc * 128 + data[i] % 128;
      if data[i] < 128 then Ok((v, i + 1)) else ReadVlq(data, i + 1, v)
  }

  /** Both walkers know only the channel-0 forms of the two short messages. */
  function ShortData(status: byte): nat {
    if status == 0xC0 || status == 0xD0 then 1 else 2
  }

  datatype Cursor = Cursor(i: nat, running: Option<byte>)

  datatype Turn = Done | Raised(error: Error) | Next(out: seq<bytes>, to: Cursor)

  // ----- virus_fx_pages.smf_sysex_messages -----

  type Messages = Result<seq<bytes>, Error>

  function SkipHigh(data: bytes, i: nat, end: nat): (j: nat)
    requires end <= |data|
    ensures j >= i
    decreases end - i
  {
    if i < end && data[i] >= 128 then SkipHigh(data, i + 1, end) else i
  }

  function FxStep(data: bytes, end: nat, c: Cursor): (t: Turn)
    requires end <= |data|
    ensures t.Next? ==> t.to.i > c.i
  {
    var i := SkipHigh(data, c.i, end) + 1;
    if i >= end then Done
    else if data[i] == 0xF0 then
      (match ReadVlq(data, i + 1, 0)
       case Err(e) => Raised(e)
       case Ok((length, p)) => Next([[0xF0] + Slice(data, p, p + length)], Cursor(p + length, c.running)))
    else if data[i] == 0xFF || data[i] == 0xF7 then
      (match ReadVlq(data, if data[i] == 0xFF then i + 2 else i + 1, 0)
       case Err(e) => Raised(e)
       case Ok((length, p)) => Next([], Cursor(p + length, None)))
    else if data[i] >= 0x80 then Next([], Cursor(i + 1 + ShortData(data[i]), Some(data[i])))
    else match c.running
      case None => Done
      case Some(s) => Next([], Cursor(i + ShortData(s), c.running))
  }

  function FxTrack(data: bytes, end: nat, c: Cursor): Messages
    requires end <= |data|
    decreases end - c.i
  {
    if c.i >= end then Ok([])
    else match FxStep(data, end, c)
      case Done => Ok([])
      case Raised(e) => Err(e)
      case Next(out, to) => Prepend(out, FxTrack(data, end, to))
  }

  function FxTracks(data: bytes, pos: nat): Messages
    decreases |data| - pos
  {
    if pos + 8 > |data| || data[pos..pos + 4] != MTRK then Ok([])
    else
      var length := BigEndian(data[pos + 4..pos + 8]);
      match FxTrack(data, Min(pos + 8 + length, |data|), Cursor(pos + 8, None))
      case Err(e) => Err(e)
      case Ok(ms) => Prepend(ms, FxTracks(data, pos + 8 + length))
  }

  function FxMessages(data: bytes): Messages {
    if |data| < 14 || data[..4] != MTHD then Ok([]) else FxTracks(data, 8 + BigEndian(data[4..8]))
  }

  // ----- virus_fx_pages._single_fields, iter_dumps -----

  const HEADER: bytes := [0x00, 0x20, 0x33]

  datatype Fields = Fields(payload: bytes, storedCs: byte)

  function SingleFields(m: bytes): Option<Fields> {
    if |m| != 267 && |m| != 524 then None
    else if m[0] != 0xF0 || m[1..4] != HEADER || m[4] != 0x01 || m[6] != 0x10 then None
    else if |m| == 267 then Some(Fields(m[9..265], m[265]))
    else Some(Fields(m[9..521], m[522]))
  }

  function DumpsOf(ms: seq<bytes>): seq<Fields> {
    if ms == [] then []
    else (match SingleFields(ms[0]) case None => [] case Some(f) => [f]) + DumpsOf(ms[1..])
  }

  function IterDumps(data: bytes): Result<seq<Fields>, Error> {
    match FxMessages(data)
    case Err(e) => Err(e)
    case Ok(ms) => Ok(DumpsOf(ms))
  }

  // ----- virus_patch._dispatch_sysex and the single parsers -----

  datatype Patch =
    | Patch(data: bytes, device: byte, bank: byte, program: byte, checksumOk: bool)
    | Bad(reason: Reason)

  datatype Reason = BadLength | MissingHeader | NotASingle | MissingF7 | TruncatedDelta | OrphanStatus

  /** (dev + 0x10 + bank + prog + sum(data)) & 0x7F */
  function Checksum(m: bytes, length: nat): byte
    requires |m| >= 9 + length
  {
    (m[5] as int + 0x10 + m[7] + m[8] + Sum(m[9..9 + length])) % 128
  }

  function Dispatch(m: bytes): Patch {
    if |m| != 267 && |m| != 524 then Bad(BadLength)
    else if m[0] != 0xF0 || m[1..4] != HEADER || m[4] != 0x01 then Bad(MissingHeader)
    else if m[6] != 0x10 then Bad(NotASingle)
    else if m[|m| - 1] != 0xF7 then Bad(MissingF7)
    else if |m| == 267 then Patch(m[9..265], m[5], m[7], m[8], m[265] == Checksum(m, 256))
    else Patch(m[9..521][..256], m[5], m[7], m[8], m[522] == Checksum(m, 512))
  }

  // ----- virus_patch.parse_stdmidi -----

  type Patches = Result<seq<Patch>, Error>

  datatype PatchTurn = Stop(last: seq<Patch>) | Raise(error: Error) | Go(out: seq<Patch>, to: Cursor)

  function Terminated(m: bytes): bytes
    requires m != []
  {
    if m[|m| - 1] != 0xF7 then m + [0xF7] else m
  }

  function PatchStep(body: bytes, c: Cursor): (t: PatchTurn)
    ensures t.Go? ==> t.to.i > c.i
  {
    match ReadVlq(body, c.i, 0)
    case Err(_) => Stop([Bad(TruncatedDelta)])
    case Ok((_, i)) =>
      if i >= |body| then Stop([])
      else if body[i] == 0xF0 then
        (match ReadVlq(body, i + 1, 0)
         case Err(e) => Raise(e)
         case Ok((length, p)) =>
           Go([Dispatch(Terminated([0xF0] + Slice(body, p, p + length)))], Cursor(p + length, None)))
      else if body[i] == 0xFF && i + 1 >= |body| then Stop([])
      else if body[i] == 0xFF || body[i] == 0xF7 then
        (match ReadVlq(body, if body[i] == 0xFF then i + 2 else i + 1, 0)
         case Err(e) => Raise(e)
         case Ok((length, p)) => Go([], Cursor(p + length, None)))
      else if body[i] >= 0x80 then Go([], Cursor(i + 1 + ShortData(body[i]), Some(body[i])))
      else match c.running
        case None => Stop([Bad(OrphanStatus)])
        case Some(s) => Go([], Cursor(i + ShortData(s), c.running))
  }

  function PatchTrack(body: bytes, c: Cursor): Patches
    decreases |body| - c.i
  {
    if c.i >= |body| then Ok([])
    else match PatchStep(body, c)
      case Stop(last) => Ok(last)
      case Raise(e) => Err(e)
      case Go(out, to) => Prepend(out, PatchTrack(body, to))
  }

  function PatchTracks(data: bytes, pos: nat, count: nat): Patches
    decreases count
  {
    if count == 0 || pos + 8 > |data| || data[pos..pos + 4] != MTRK then Ok([])
    else
      var length := BigEndian(data[pos + 4..pos + 8]);
      match PatchTrack(Slice(data, pos + 8, pos + 8 + length), Cursor(0, None))
      case Err(e) => Err(e)
      case Ok(ps) => Prepend(ps, PatchTracks(data, pos + 8 + length, count - 1))
  }

  function ParseStdmidi(data: bytes): Patches {
    if Slice(data, 0, 4) != MTHD then Ok([Bad(MissingHeader)])
    else PatchTracks(data, 14, BigEndian(Slice(data, 10, 12)))
  }

  // ----- The loops -----

  method ReadVlqLoop(data: bytes, start: nat) returns (r: Result<(nat, nat), Error>)
    ensures r == ReadVlq(data, start, 0)
  {
    var value: nat, i: nat := 0, start;
    while i < |data|
      invariant ReadVlq(data, start, 0) == ReadVlq(data, i, value)
    {
      value, i := value * 128 + data[i] % 128, i + 1;
      if data[i - 1] < 128 {
        return Ok((value, i));
      }
    }
    return Err(TruncatedVlq);
  }

  method FxTakeEvent(data: bytes, end: nat, c: Cursor) returns (t: Turn)
    requires end <= |data|
    ensures t == FxStep(data, end, c)
  {
    hide ReadVlq, Slice, ShortData;
    var i := c.i;
    while i < end && data[i] >= 128
      invariant i >= c.i
      invariant SkipHigh(data, c.i, end) == SkipHigh(data, i, end)
    {
      i := i + 1;
    }
    i := i + 1;
    if i >= end {
      return Done;
    }
    var status := data[i];
    if status == 0xF0 {
      var got := ReadVlqLoop(data, i + 1);
      if got.Err? {
        return Raised(got.error);
      }
      var (length, p) := got.value;
      return Next([[0xF0] + Slice(data, p, p + length)], Cursor(p + length, c.running));
    } else if status == 0xFF || status == 0xF7 {
      var got := ReadVlqLoop(data, if status == 0xFF then i + 2 else i + 1);
      if got.Err? {
        return Raised(got.error);
      }
      return Next([], Cursor(got.value.1 + got.value.0, None));
    } else if status >= 0x80 {
      return Next([], Cursor(i + 1 + ShortData(status), Some(status)));
    } else if c.running.None? {
      return Done;
    }
    return Next([], Cursor(i + ShortData(c.running.value), c.running));
  }

  method FxTrackLoop(data: bytes, start: nat, end: nat) returns (r: Messages)
    requires end <= |data|
    ensures r == FxTrack(data, end, Cursor(start, None))
  {
    var msgs: seq<bytes>, c := [], Cursor(start, None);
    PrependNone(FxTrack(data, end, c));
    while c.i < end
      invariant FxTrack(data, end, Cursor(start, None)) == Prepend(msgs, FxTrack(data, end, c))
      decreases end - c.i
    {
      var turn := FxTakeEvent(data, end, c);
      PrependLast<bytes, Error>(msgs);
      match turn {
        case Done => return Ok(msgs);
        case Raised(e) => return Err(e);
        case Next(out, to) =>
          PrependTwice(msgs, out, FxTrack(data, end, to));
          msgs, c := msgs + out, to;
      }
    }
    PrependLast<bytes, Error>(msgs);
    return Ok(msgs);
  }

  /** One turn of the track loop of smf_sysex_messages, without the next one. */
  lemma {:induction false} FxTracksTurn(data: bytes, pos: nat)
    ensures if pos + 8 > |data| || data[pos..pos + 4] != MTRK then FxTracks(data, pos) == Ok([])
            else
              var length := BigEndian(data[pos + 4..pos + 8]);
              var got := FxTrack(data, Min(pos + 8 + length, |data|), Cursor(pos + 8, None));
              FxTracks(data, pos) == if got.Err? then got else Prepend(got.value, FxTracks(data, pos + 8 + length))
  {
    hide FxTrack, Prepend, BigEndian;
  }

  method FxTracksLoop(data: bytes, start: nat) returns (r: Messages)
    ensures r == FxTracks(data, start)
  {
    var msgs: seq<bytes>, pos: nat := [], start;
    PrependNone(FxTracks(data, pos));
    hide FxTracks, FxTrack, Prepend, BigEndian;
    while pos + 8 <= |data| && data[pos..pos + 4] == MTRK
      invariant FxTracks(data, start) == Prepend(msgs, FxTracks(data, pos))
      decreases |data| - pos
    {
      FxTracksTurn(data, pos);
      var length := BigEndian(data[pos + 4..pos + 8]);
      var got := FxTrackLoop(data, pos + 8, Min(pos + 8 + length, |data|));
      if got.Err? {
        PrependError(msgs, got.error);
        return got;
      }
      PrependTwice(msgs, got.value, FxTracks(data, pos + 8 + length));
      msgs, pos := msgs + got.value, pos + 8 + length;
    }
    FxTracksTurn(data, pos);
    PrependLast<bytes, Error>(msgs);
    return Ok(msgs);
  }

  method SmfSysexMessages(data: bytes) returns (r: Messages)
    ensures r == FxMessages(data)
  {
    if |data| < 14 || data[..4] != MTHD {
      return Ok([]);
    }
    r := FxTracksLoop(data, 8 + BigEndian(data[4..8]));
  }

  method IterDumpsLoop(data: bytes) returns (r: Result<seq<Fields>, Error>)
    ensures r == IterDumps(data)
  {
    var got := SmfSysexMessages(data);
    if got.Err? {
      return Err(got.error);
    }
    var ms, dumps: seq<Fields> := got.value, [];
    AppendNone(DumpsOf(ms));
    for k := 0 to |ms|
      invariant DumpsOf(ms) == dumps + DumpsOf(ms[k..])
    {
      assert ms[k..][1..] == ms[k + 1..];
      var fields := SingleFields(ms[k]);
      ghost var found := if fields.Some? then [fields.value] else [];
      AppendAssoc(dumps, found, DumpsOf(ms[k + 1..]));
      if fields.Some? {
        dumps := dumps + [fields.value];
      } else {
        AppendNone(dumps);
      }
    }
    AppendNone(dumps);
    return Ok(dumps);
  }

  method PatchTakeEvent(body: bytes, c: Cursor) returns (t: PatchTurn)
    ensures t == PatchStep(body, c)
  {
    hide Dispatch, Slice, ReadVlq, ShortData;
    var delta := ReadVlqLoop(body, c.i);
    if delta.Err? {
      return Stop([Bad(TruncatedDelta)]);
    }
    var i := delta.value.1;
    if i >= |body| {
      return Stop([]);
    }
    var status := body[i];
    if status == 0xF0 {
      var got := ReadVlqLoop(body, i + 1);
      if got.Err? {
        return Raise(got.error);
      }
      var (length, p) := got.value;
      var m := [0xF0] + Slice(body, p, p + length);
      if m[|m| - 1] != 0xF7 {
        m := m + [0xF7];
      }
      return Go([Dispatch(m)], Cursor(p + length, None));
    } else if status == 0xF7 {
      var got := ReadVlqLoop(body, i + 1);
      if got.Err? {
        return Raise(got.error);
      }
      return Go([], Cursor(got.value.1 + got.value.0, None));
    } else if status == 0xFF {
      if i + 1 >= |body| {
        return Stop([]);
      }
      var got := ReadVlqLoop(body, i + 2);
      if got.Err? {
        return Raise(got.error);
      }
      return Go([], Cursor(got.value.1 + got.value.0, None));
    } else if status >= 0x80 {
      return Go([], Cursor(i + 1 + ShortData(status), Some(status)));
    } else if c.running.None? {
      return Stop([Bad(OrphanStatus)]);
    }
    return Go([], Cursor(i + ShortData(c.running.value), c.running));
  }

  method PatchTrackLoop(body: bytes) returns (r: Patches)
    ensures r == PatchTrack(body, Cursor(0, None))
  {
    var patches: seq<Patch>, c := [], Cursor(0, None);
    PrependNone(PatchTrack(body, c));
    while c.i < |body|
      invariant PatchTrack(body, Cursor(0, None)) == Prepend(patches, PatchTrack(body, c))
      decreases |body| - c.i
    {
      var turn := PatchTakeEvent(body, c);
      match turn {
        case Stop(last) => return Ok(patches + last);
        case Raise(e) => return Err(e);
        case Go(out, to) =>
          PrependTwice(patches, out, PatchTrack(body, to));
          patches, c := patches + out, to;
      }
    }
    PrependLast<Patch, Error>(patches);
    return Ok(patches);
  }

  /** One turn of the track loop of parse_stdmidi, without the next one. */
  lemma {:induction false} PatchTracksTurn(data: bytes, pos: nat, count: nat)
    ensures if count == 0 || pos + 8 > |data| || data[pos..pos + 4] != MTRK then PatchTracks(data, pos, count) == Ok([])
            else
              var length := BigEndian(data[pos + 4..pos + 8]);
              var got := PatchTrack(Slice(data, pos + 8, pos + 8 + length), Cursor(0, None));
              PatchTracks(data, pos, count)
              == if got.Err? then got else Prepend(got.value, PatchTracks(data, pos + 8 + length, count - 1))
  {
    hide PatchTrack, Prepend, Slice, BigEndian;
  }

  method PatchTracksLoop(data: bytes, start: nat, ntrk: nat) returns (r: Patches)
    ensures r == PatchTracks(data, start, ntrk)
  {
    var patches: seq<Patch>, pos: nat, n := [], start, 0;
    PrependNone(PatchTracks(data, start, ntrk));
    hide PatchTracks, PatchTrack, Prepend;
    while n < ntrk
      invariant n <= ntrk
      invariant PatchTracks(data, start, ntrk) == Prepend(patches, PatchTracks(data, pos, ntrk - n))
    {
      PrependLast<Patch, Error>(patches);
      PatchTracksTurn(data, pos, ntrk - n);
      if pos + 8 > |data| || data[pos..pos + 4] != MTRK {
        return Ok(patches);
      }
      var length := BigEndian(data[pos + 4..pos + 8]);
      var got := PatchTrackLoop(Slice(data, pos + 8, pos + 8 + length));
      if got.Err? {
        PrependError(patches, got.error);
        return got;
      }
      PrependTwice(patches, got.value, PatchTracks(data, pos + 8 + length, ntrk - n - 1));
      patches, pos, n := patches + got.value, pos + 8 + length, n + 1;
    }
    PrependLast<Patch, Error>(patches);
    PatchTracksTurn(data, pos, 0);
    return Ok(patches);
  }

  method ParseStdmidiLoop(data: bytes) returns (r: Patches)
    ensures r == ParseStdmidi(data)
  {
    if Slice(data, 0, 4) != MTHD {
      return Ok([Bad(MissingHeader)]);
    }
    r := PatchTracksLoop(data, 14, BigEndian(Slice(data, 10, 12)));
  }
}
