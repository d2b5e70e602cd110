/** Standard MIDI Files 1.0 (RP-001): the events of a track, how they are
    written, and the byte stream they put on the wire. This is the reference
    the three file walkers are proved against. */
module Smf {
  import opened Bytes

  datatype Event =
    | SysEx(delta: nat, data: bytes)
    | Escape(delta: nat, data: bytes)
    | Meta(delta: nat, kind: byte, data: bytes)
    | Channel(delta: nat, status: byte, data: bytes)
    | Running(delta: nat, data: bytes)

  const MTHD: bytes := [0x4D, 0x54, 0x68, 0x64]
  const MTRK: bytes := [0x4D, 0x54, 0x72, 0x6B]

  /** Variable-length quantities hold at most four bytes. */
  const VLQ_LIMIT: nat := 0x1000_0000

  // ----- Variable-length quantities -----

  function VlqHead(n: nat): bytes {
    if n == 0 then [] else VlqHead(n / 128) + [128 + n % 128]
  }

  function Vlq(n: nat): bytes {
    VlqHead(n / 128) + [n % 128]
  }

  /** What a reader accumulates over the bytes of a quantity. */
  function Accumulate(acc: nat, v: bytes): nat
    decreases |v|
  {
    if v == [] then acc else Accumulate(acc * 128 + v[0] % 128, v[1..])
  }

  /** Every byte but the last carries the continuation bit. */
  predicate VlqShape(v: bytes) {
    v != [] && v[|v| - 1] < 128 && forall i :: 0 <= i < |v| - 1 ==> v[i] >= 128
  }

  lemma {:induction false} AccumulateSnoc(acc: nat, v: bytes, b: byte)
    ensures Accumulate(acc, v + [b]) == Accumulate(acc, v) * 128 + b % 128
    decreases |v|
  {
    if v != [] {
      assert (v + [b])[1..] == v[1..] + [b];
      AccumulateSnoc(acc * 128 + v[0] % 128, v[1..], b);
    }
  }

  lemma {:induction false} VlqHeadValue(n: nat, k: nat)
    requires n < Power128(k)
    ensures Accumulate(0, VlqHead(n)) == n && |VlqHead(n)| <= k
    ensures forall i :: 0 <= i < |VlqHead(n)| ==> VlqHead(n)[i] >= 128
    decreases n
  {
    if n != 0 {
      VlqHeadValue(n / 128, k - 1);
      AccumulateSnoc(0, VlqHead(n / 128), 128 + n % 128);
    }
  }

  function Power128(k: nat): nat {
    if k == 0 then 1 else 128 * Power128(k - 1)
  }

  /** A quantity below the limit takes one to four bytes and reads back. */
  lemma {:induction false} VlqReads(n: nat)
    requires n < VLQ_LIMIT
    ensures VlqShape(Vlq(n)) && |Vlq(n)| <= 4 && Accumulate(0, Vlq(n)) == n
  {
    assert Power128(3) == 128 * 128 * 128;
    VlqHeadValue(n / 128, 3);
    AccumulateSnoc(0, VlqHead(n / 128), n % 128);
  }

  lemma {:induction false} VlqNonEmpty(n: nat)
    ensures |Vlq(n)| > 0
  {
  }

  // ----- Events and tracks -----

  /** Program change and channel pressure carry one data byte. */
  function DataLength(status: byte): nat {
    if 0xC0 <= status < 0xE0 then 1 else 2
  }

  predicate SevenBit(s: bytes) {
    forall i :: 0 <= i < |s| ==> s[i] < 128
  }

  predicate Legal(e: Event, running: Option<byte>) {
    && e.delta < VLQ_LIMIT
    && |e.data| < VLQ_LIMIT
    && match e
       case SysEx(_, _) => true
       case Escape(_, _) => true
       case Meta(_, kind, _) => kind < 128
       case Channel(_, status, data) => 0x80 <= status < 0xF0 && |data| == DataLength(status) && SevenBit(data)
       case Running(_, data) => running.Some? && |data| == DataLength(running.value) && SevenBit(data)
  }

  /** Sysex and meta events cancel running status. */
  function NextRunning(e: Event, running: Option<byte>): Option<byte> {
    match e
    case SysEx(_, _) => None
    case Escape(_, _) => None
    case Meta(_, _, _) => None
    case Channel(_, status, _) => Some(status)
    case Running(_, _) => running
  }

  predicate ValidStatus(running: Option<byte>) {
    running.Some? ==> 0x80 <= running.value < 0xF0
  }

  /** A walker's running status is the legal one whenever the file may use it. */
  predicate Follows(running: Option<byte>, legal: Option<byte>) {
    legal.Some? ==> running == legal
  }

  predicate LegalTrack(events: seq<Event>, running: Option<byte>) {
    events == [] || (Legal(events[0], running) && LegalTrack(events[1..], NextRunning(events[0], running)))
  }

  function Body(e: Event): (s: bytes)
    ensures |s| > 0 || e.Running?
  {
    match e
    case SysEx(_, data) => [0xF0] + (Vlq(|data|) + data)
    case Escape(_, data) => [0xF7] + (Vlq(|data|) + data)
    case Meta(_, kind, data) => [0xFF, kind] + (Vlq(|data|) + data)
    case Channel(_, status, data) => [status] + data
    case Running(_, data) => data
  }

  /** A counted field after its leading bytes: the count, and the data behind it. */
  lemma {:induction false} CountedField(data: bytes, at: nat, lead: bytes, d: bytes)
    requires At(data, at, lead + (Vlq(|d|) + d)) && |d| < VLQ_LIMIT && lead != []
    ensures var p := at + |lead| + |Vlq(|d|)|;
            && at + |lead| < p <= |data| && data[at] == lead[0]
            && At(data, at + |lead|, Vlq(|d|)) && VlqShape(Vlq(|d|)) && |Vlq(|d|)| <= 4
            && Accumulate(0, Vlq(|d|)) == |d|
            && Slice(data, p, p + |d|) == d
  {
    AtSplit(data, at, lead, Vlq(|d|) + d);
    AtSplit(data, at + |lead|, Vlq(|d|), d);
    AtSlice(data, at + |lead| + |Vlq(|d|)|, d);
    VlqReads(|d|);
  }

  function WriteTrack(events: seq<Event>): bytes {
    if events == [] then [] else (Vlq(events[0].delta) + Body(events[0])) + WriteTrack(events[1..])
  }

  function WriteTracks(tracks: seq<seq<Event>>): bytes
    requires forall t :: t in tracks ==> |WriteTrack(t)| < 0x1_0000_0000
  {
    if tracks == [] then []
    else MTRK + (U32(|WriteTrack(tracks[0])|) + (WriteTrack(tracks[0]) + WriteTracks(tracks[1..])))
  }

  /** A whole file; extra holds header bytes past the six that RP-001 defines. */
  datatype File = File(format: nat, division: nat, extra: bytes, tracks: seq<seq<Event>>) {
    predicate Valid() {
      && format < 0x1_0000
      && division < 0x1_0000
      && |extra| < 0xFFFF_0000
      && |tracks| < 0x1_0000
      && forall t :: t in tracks ==> LegalTrack(t, None) && |WriteTrack(t)| < 0x1_0000_0000
    }

    function Serialize(): bytes
      requires Valid()
    {
      MTHD + (U32(6 + |extra|) + (U16(format) + (U16(|tracks|) + (U16(division) + (extra + WriteTracks(tracks))))))
    }
  }

  // ----- The wire -----

  predicate EndsF7(s: bytes) {
    s != [] && s[|s| - 1] == 0xF7
  }

  /** A sysex packet: 7-bit data, ending a message exactly when the last byte is F7. */
  predicate PacketData(data: bytes) {
    SevenBit(if EndsF7(data) then data[..|data| - 1] else data)
  }

  /** Each message is one F0 packet and any number of F7 continuations, the last
      one ending in F7; an F7 escape outside a message transmits no F0. */
  predicate PacketOk(e: Event, open: bool) {
    match e
    case SysEx(_, data) => !open && PacketData(data)
    case Escape(_, data) => if open then PacketData(data) else 0xF0 !in data
    case _ => true
  }

  predicate OpenAfter(e: Event, open: bool) {
    if e.SysEx? || (e.Escape? && open) then !EndsF7(e.data) else open
  }

  predicate WellPacketed(events: seq<Event>, open: bool) {
    if events == [] then !open
    else PacketOk(events[0], open) && WellPacketed(events[1..], OpenAfter(events[0], open))
  }

  /** What a sequencer playing the track sends for its sysex events. */
  function WireOf(e: Event): bytes {
    match e
    case SysEx(_, data) => [0xF0] + data
    case Escape(_, data) => data
    case _ => []
  }

  function Wire(events: seq<Event>): bytes {
    if events == [] then [] else WireOf(events[0]) + Wire(events[1..])
  }

  function WireTracks(tracks: seq<seq<Event>>): bytes {
    if tracks == [] then [] else Wire(tracks[0]) + WireTracks(tracks[1..])
  }
}
