/** je8086_patch: Roland DT1 messages, the JP-8080 address map, and patch units. */
module Je8086 {
  import opened Bytes
  import opened Ordering
  import opened Text
  import opened SysexBlocks
  import XeniaSysex
  import opened Je8086Params

  // ----- Addresses -----

  datatype Addr = Addr(hi: byte, mid: byte, lo: byte) {
    predicate SevenBit() {
      hi < 128 && mid < 128 && lo < 128
    }

    function Total(): nat {
      hi as int + mid as int + lo as int
    }
  }

  /** x with its lowest bit set if b is 1. */
  function OrLow(x: nat, b: nat): nat {
    if b == 0 || x % 2 == 1 then x else x + 1
  }

  /** (hi << 14) | (mid << 7) | lo, also where a byte is over 127 and the shifts overlap. */
  function PageValue(a: Addr): nat {
    OrLow(a.hi, a.mid / 128) * 16384 + OrLow(a.mid % 128, a.lo / 128) * 128 + a.lo % 128
  }

  function AddrBytes(value: nat): Addr {
    Addr(value / 16384 % 128, value / 128 % 128, value % 128)
  }

  lemma {:induction false} SplitPage(hi: nat, mid: nat, lo: nat)
    requires hi < 128 && mid < 128 && lo < 128
    ensures var v := hi * 16384 + mid * 128 + lo; v / 16384 == hi && v / 128 == hi * 128 + mid && v % 128 == lo
  {
  }

  lemma {:induction false} SevenBitPage(a: Addr)
    requires a.SevenBit()
    ensures PageValue(a) == (a.hi as int) * 16384 + (a.mid as int) * 128 + a.lo as int
  {
  }

  lemma {:induction false} AddrOfPage(a: Addr)
    requires a.SevenBit()
    ensures AddrBytes(PageValue(a)) == a && PageValue(a) < 0x20_0000
  {
    SevenBitPage(a);
    hide PageValue;
    SplitPage(a.hi, a.mid, a.lo);
  }

  lemma {:induction false} PageOfAddr(value: nat)
    requires value < 0x20_0000
    ensures AddrBytes(value).SevenBit() && PageValue(AddrBytes(value)) == value
  {
    var rest := value / 128;
    var hi, mid, lo := rest / 128, rest % 128, value % 128;
    assert value == rest * 128 + lo && rest == hi * 128 + mid;
    SplitPage(hi, mid, lo);
    InBank(hi, mid);
    assert AddrBytes(value) == Addr(hi, mid, lo);
    SevenBitPage(Addr(hi, mid, lo));
    hide PageValue, AddrBytes;
  }

  lemma {:induction false} InBank(bank: nat, offset: nat)
    requires offset < 128
    ensures (bank * 128 + offset) / 128 == bank && (bank * 128 + offset) % 128 == offset
  {
  }

  // ----- The address map -----

  datatype Area = PatchArea | PerfCommon | PerfPatch

  datatype Unit = Unit(area: Area, bank: nat, slot: nat)

  const PATCH_BASE := 32768
  const PERF_BASE := 49152

  /** area_of: the unit and the page inside it; None outside both areas. */
  function AreaOf(value: nat): Option<(Unit, nat)> {
    if PATCH_BASE <= value < PERF_BASE then
      var rel := value - PATCH_BASE;
      Some((Unit(PatchArea, rel / 128, rel % 128 / 2 + 1), rel % 2))
    else if value >= PERF_BASE then
      var rel := value - PERF_BASE;
      if rel % 128 < 64 then Some((Unit(PerfCommon, rel / 128 + 1, 0), rel % 128))
      else Some((Unit(PerfPatch, rel / 128 + 1, (rel % 128 - 64) / 2 + 1), (rel % 128 - 64) % 2))
    else None
  }

  function UnitPageValue(u: Unit): int {
    match u.area
    case PatchArea => PATCH_BASE + u.bank * 128 + (u.slot - 1) * 2
    case PerfCommon => PERF_BASE + (u.bank - 1) * 128
    case PerfPatch => PERF_BASE + (u.bank - 1) * 128 + 64 + (u.slot - 1) * 2
  }

  /** The units and pages the address map can produce. */
  predicate InMap(u: Unit, page: nat) {
    match u.area
    case PatchArea => u.bank < 128 && 1 <= u.slot <= 64 && page < 2
    case PerfCommon => u.bank >= 1 && u.slot == 0 && page < 64
    case PerfPatch => u.bank >= 1 && 1 <= u.slot <= 32 && page < 2
  }

  /** area_of and unit_page_value are inverse: every value in an area splits into one
      unit and page, and every unit and page of the map comes from one value. */
  lemma {:induction false} AreaInverse(value: nat)
    ensures match AreaOf(value)
            case Some((u, page)) => InMap(u, page) && UnitPageValue(u) + page == value
            case None => value < PATCH_BASE
  {
  }

  lemma {:induction false} UnitInverse(u: Unit, page: nat)
    requires InMap(u, page)
    ensures UnitPageValue(u) >= 0 && AreaOf(UnitPageValue(u) + page) == Some((u, page))
  {
    match u.area
    case PatchArea => InBank(u.bank, 2 * (u.slot - 1) + page);
    case PerfCommon => InBank(u.bank - 1, page);
    case PerfPatch => InBank(u.bank - 1, 64 + 2 * (u.slot - 1) + page);
  }

  // ----- DT1 messages -----

  datatype Msg = Msg(dev: byte, addr: Addr, data: bytes, checksum: byte) {
    function Value(): nat {
      PageValue(addr)
    }

    predicate ChecksumOk() {
      checksum == Checksum(addr, data)
    }
  }

  function Checksum(a: Addr, data: bytes): byte {
    (128 - (a.Total() + Sum(data)) % 128) % 128
  }

  function ParseDt1(body: bytes): Option<Msg> {
    if |body| < 9 || body[0] != 0x41 || body[4] != 0x12 || body[2] != 0x00 || body[3] != 0x06 then None
    else Some(Msg(body[1], Addr(body[5], body[6], body[7]), body[8..|body| - 1], body[|body| - 1]))
  }

  function EmitDt1(a: Addr, data: bytes): bytes {
    [0xF0, 0x41, 0x10, 0x00, 0x06, 0x12, a.hi, a.mid, a.lo] + data + [Checksum(a, data), 0xF7]
  }

  /** parse_file: a body that does not parse is tried again without a one-byte SMF length. */
  function ParseBody(body: bytes): Option<Msg> {
    var msg := ParseDt1(body);
    if msg.None? && body != [] && body[0] < 0x80 then ParseDt1(body[1..]) else msg
  }

  method ParseFile(data: bytes) returns (out: seq<Msg>)
    ensures out == Keep(Keep(XeniaSysex.RawMessages(data), Inner), ParseBody)
  {
    hide XeniaSysex.RawMessages, ParseBody;
    var bodies := Blocks(data);
    out := [];
    for i := 0 to |bodies|
      invariant out + Keep(bodies[i..], ParseBody) == Keep(bodies, ParseBody)
    {
      KeepTurn(bodies, ParseBody, i);
      ghost var later := Keep(bodies[i + 1..], ParseBody);
      AppendNone(later);
      var msg := ParseBody(bodies[i]);
      if msg.Some? {
        AppendAssoc(out, [msg.value], later);
        out := out + [msg.value];
      }
    }
    AppendNone(out);
  }

  // ----- Units -----

  datatype Group = Group(pages: map<nat, bytes>, checksums: seq<bool>)

  datatype Grouping = Grouping(groups: map<Unit, Group>, order: seq<Unit>)

  /** One message of the grouping loop: pages last win, units in first-seen order. */
  function Add(g: Grouping, m: Msg): Grouping {
    match AreaOf(m.Value())
    case None => g
    case Some((u, page)) =>
      var grp := if u in g.groups then g.groups[u] else Group(map[], []);
      Grouping(
        g.groups[u := Group(grp.pages[page := m.data], grp.checksums + [m.ChecksumOk()])],
        if u in g.groups then g.order else g.order + [u])
  }

  function Grouped(msgs: seq<Msg>): Grouping {
    if msgs == [] then Grouping(map[], []) else Add(Grouped(msgs[..|msgs| - 1]), msgs[|msgs| - 1])
  }

  predicate PageLe(a: nat, b: nat) {
    a <= b
  }

  lemma {:induction false} PagesAreOrdered()
    ensures TotalOrder(PageLe)
  {
  }

  /** One page overlaid on the blob at its 256-byte place. */
  function Paste(blob: bytes, base: nat, data: bytes): bytes {
    var b := if |blob| < base then blob + seq(base - |blob|, i => 0) else blob;
    b[..base] + data + if base + |data| < |b| then b[base + |data|..] else []
  }

  function PasteAll(pages: map<nat, bytes>, list: seq<nat>): bytes
    requires forall p :: p in list ==> p in pages
  {
    if list == [] then []
    else
      var last := list[|list| - 1];
      Paste(PasteAll(pages, list[..|list| - 1]), last * 256, pages[last])
  }

  ghost function BlobOf(pages: map<nat, bytes>): bytes {
    PagesAreOrdered();
    PasteAll(pages, Listed(pages.Keys, PageLe))
  }

  /** The blob ends with the page that reaches furthest; each byte is that of the largest
      page over it, and zero between pages. */
  ghost predicate Overlaid(blob: bytes, pages: map<nat, bytes>) {
    && (pages == map[] ==> blob == [])
    && (forall p :: p in pages ==> 256 * p + |pages[p]| <= |blob|)
    && (pages != map[] ==> exists p :: p in pages && 256 * p + |pages[p]| == |blob|)
    && (forall k: nat, p: nat :: Tops(pages, p, k) ==> k < |blob| && blob[k] == pages[p][k - 256 * p])
    && (forall k: nat :: k < |blob| && (forall p: nat :: !Covers(pages, p, k)) ==> blob[k] == 0)
  }

  predicate Covers(pages: map<nat, bytes>, p: nat, k: nat) {
    p in pages && 256 * p <= k < 256 * p + |pages[p]|
  }

  ghost predicate Tops(pages: map<nat, bytes>, p: nat, k: nat) {
    Covers(pages, p, k) && forall q: nat :: Covers(pages, q, k) ==> q <= p
  }

  lemma {:induction false} PasteAt(blob: bytes, base: nat, data: bytes)
    ensures var r, end := Paste(blob, base, data), base + |data|;
            && |r| == (if |blob| < end then end else |blob|)
            && (forall k :: base <= k < end ==> r[k] == data[k - base])
            && (forall k :: 0 <= k < |r| && !(base <= k < end) ==> r[k] == if k < |blob| then blob[k] else 0)
  {
  }

  lemma {:induction false} OverlaidTurn(blob: bytes, pages: map<nat, bytes>, last: nat, data: bytes)
    requires Overlaid(blob, pages) && forall p :: p in pages ==> p < last
    ensures Overlaid(Paste(blob, last * 256, data), pages[last := data])
  {
    var after, r := pages[last := data], Paste(blob, last * 256, data);
    PasteAt(blob, last * 256, data);
    hide Paste;
    assert forall p: nat, k: nat :: p != last ==> (Covers(after, p, k) <==> Covers(pages, p, k));
    forall k: nat, p: nat | Tops(after, p, k) ensures k < |r| && r[k] == after[p][k - 256 * p] {
      if p != last {
        assert Tops(pages, p, k) && !Covers(after, last, k);
      }
    }
    forall k: nat | k < |r| && (forall p: nat :: !Covers(after, p, k)) ensures r[k] == 0 {
      assert forall p: nat :: p != last ==> !Covers(pages, p, k);
      assert !Covers(pages, last, k) && !Covers(after, last, k);
    }
    if |blob| > 256 * last + |data| {
      var p: nat :| p in pages && 256 * p + |pages[p]| == |blob|;
      assert p in after && 256 * p + |after[p]| == |r|;
    } else {
      assert last in after && 256 * last + |after[last]| == |r|;
    }
  }

  lemma {:induction false} NothingOverlaid()
    ensures Overlaid([], map[])
  {
  }

  function Picked(pages: map<nat, bytes>, list: seq<nat>): map<nat, bytes> {
    map p: nat | p in pages && p in list :: pages[p]
  }

  lemma {:induction false} PickedTurn(pages: map<nat, bytes>, list: seq<nat>, n: nat)
    requires |list| == n + 1 && (forall i, j :: 0 <= i < j < |list| ==> list[i] < list[j]) && list[n] in pages
    ensures Picked(pages, list) == Picked(pages, list[..n])[list[n] := pages[list[n]]]
    ensures forall p :: p in Picked(pages, list[..n]) ==> p < list[n]
  {
    assert list == list[..n] + [list[n]];
  }

  lemma {:induction false} PasteAllOverlays(pages: map<nat, bytes>, list: seq<nat>)
    requires (forall i, j :: 0 <= i < j < |list| ==> list[i] < list[j]) && forall p :: p in list ==> p in pages
    ensures Overlaid(PasteAll(pages, list), Picked(pages, list))
    decreases |list|
  {
    hide Overlaid, Paste, Picked;
    if list == [] {
      NothingOverlaid();
      assert Picked(pages, []) == map[] by {
        NothingPicked(pages);
      }
    } else {
      var n := |list| - 1;
      assert list[n] in list;
      PasteAllOverlays(pages, list[..n]);
      PickedTurn(pages, list, n);
      OverlaidTurn(PasteAll(pages, list[..n]), Picked(pages, list[..n]), list[n], pages[list[n]]);
    }
  }

  lemma {:induction false} NothingPicked(pages: map<nat, bytes>)
    ensures Picked(pages, []) == map[]
  {
  }

  lemma {:induction false} StrictlyListed(list: seq<nat>, pages: set<nat>)
    requires Lists(list, pages, PageLe)
    ensures (forall i, j :: 0 <= i < j < |list| ==> list[i] < list[j]) && forall p :: p in list <==> p in pages
  {
    forall i, j | 0 <= i < j < |list| ensures list[i] < list[j] {
      assert PageLe(list[i], list[j]) && list[i] != list[j];
    }
  }

  lemma {:induction false} BlobIsOverlaid(pages: map<nat, bytes>)
    ensures Overlaid(BlobOf(pages), pages)
  {
    PagesAreOrdered();
    hide Overlaid, PasteAll, Lists, TotalOrder;
    var list := Listed(pages.Keys, PageLe);
    StrictlyListed(list, pages.Keys);
    PasteAllOverlays(pages, list);
    assert Picked(pages, list) == pages;
  }

  /** A unit as the decoder reports it; the hash follows from the blob, the role from
      the name and the parameters. */
  datatype Entry = Entry(name: string, unit: Unit, pages: map<nat, bytes>, blob: bytes, checksumOk: bool,
                         params: map<string, int>)

  /** A performance common block carries a name and no patch body. */
  function ParamsOf(u: Unit, blob: bytes): map<string, int> {
    if u.area.PerfCommon? then map[] else ParamsUpto(TABLE, blob)
  }

  function NameOf(blob: bytes): bytes {
    Slice(blob, 1, 17)
  }

  predicate AllTrue(s: seq<bool>) {
    forall i :: 0 <= i < |s| ==> s[i]
  }

  /** The entry of a unit; None without a printable name. */
  ghost function EntryOf(u: Unit, grp: Group): Option<Entry> {
    var blob := BlobOf(grp.pages);
    if !PrintableField(NameOf(blob)) then None
    else Some(Entry(RStrip(Decoded(NameOf(blob))), u, grp.pages, blob, AllTrue(grp.checksums), ParamsOf(u, blob)))
  }

  ghost function EntriesFrom(g: Grouping, units: seq<Unit>): seq<Entry>
    requires forall u :: u in units ==> u in g.groups
  {
    if units == [] then []
    else
      var u := units[|units| - 1];
      EntriesFrom(g, units[..|units| - 1]) + match EntryOf(u, g.groups[u]) case None => [] case Some(e) => [e]
  }

  /** The order lists every group once. */
  ghost predicate Ordered(g: Grouping) {
    && (forall u :: u in g.order <==> u in g.groups)
    && (forall i, j :: 0 <= i < j < |g.order| ==> g.order[i] != g.order[j])
  }

  ghost function EntriesOf(msgs: seq<Msg>): seq<Entry> {
    GroupedUnits(msgs);
    EntriesFrom(Grouped(msgs), Grouped(msgs).order)
  }

  lemma {:induction false} AddKeepsOrder(g: Grouping, m: Msg)
    requires Ordered(g)
    ensures Ordered(Add(g, m))
  {
    hide AreaOf, PageValue, Checksum;
  }

  lemma {:induction false} GroupedUnits(msgs: seq<Msg>)
    ensures Ordered(Grouped(msgs))
    decreases |msgs|
  {
    hide Add;
    if msgs != [] {
      GroupedUnits(msgs[..|msgs| - 1]);
      AddKeepsOrder(Grouped(msgs[..|msgs| - 1]), msgs[|msgs| - 1]);
    }
  }

  method GroupPages(msgs: seq<Msg>) returns (groups: map<Unit, Group>, order: seq<Unit>)
    ensures Grouping(groups, order) == Grouped(msgs)
  {
    hide AreaOf, PageValue, Checksum;
    groups, order := map[], [];
    for i := 0 to |msgs|
      invariant Grouping(groups, order) == Grouped(msgs[..i])
    {
      assert msgs[..i + 1][..i] == msgs[..i];
      var where := AreaOf(msgs[i].Value());
      if where.None? {
        continue;
      }
      var (u, page) := where.value;
      if u !in groups {
        groups := groups[u := Group(map[], [])];
        order := order + [u];
      }
      var grp := groups[u];
      groups := groups[u := Group(grp.pages[page := msgs[i].data], grp.checksums + [msgs[i].ChecksumOk()])];
    }
    assert msgs[..|msgs|] == msgs;
  }

  lemma {:induction false} PasteTurn(pages: map<nat, bytes>, list: seq<nat>, i: nat)
    requires i < |list| && forall p :: p in list ==> p in pages
    ensures list[i] in pages
    ensures PasteAll(pages, list[..i + 1]) == Paste(PasteAll(pages, list[..i]), list[i] * 256, pages[list[i]])
  {
    hide Paste;
    assert list[i] in list && list[..i + 1][..i] == list[..i];
  }

  lemma {:induction false} PasteNone(pages: map<nat, bytes>, list: seq<nat>)
    ensures PasteAll(pages, list[..0]) == []
  {
  }

  method BuildBlob(pages: map<nat, bytes>) returns (blob: bytes)
    ensures blob == BlobOf(pages) && Overlaid(blob, pages)
  {
    hide Lists, Ascending, TotalOrder, PasteAll, Overlaid;
    BlobIsOverlaid(pages);
    PagesAreOrdered();
    var list := SortedList(pages.Keys, PageLe);
    blob := [];
    PasteNone(pages, list);
    for i := 0 to |list|
      invariant blob == PasteAll(pages, list[..i])
    {
      PasteTurn(pages, list, i);
      var page := list[i];
      var base, data := page * 256, pages[page];
      if |blob| < base {
        blob := blob + seq(base - |blob|, j => 0);
      }
      blob := blob[..base] + data + if base + |data| < |blob| then blob[base + |data|..] else [];
    }
    assert list[..|list|] == list;
  }

  method BuildEntries(msgs: seq<Msg>) returns (entries: seq<Entry>)
    ensures entries == EntriesOf(msgs)
  {
    hide Grouped, BlobOf, PrintableField, ParamsUpto, TABLE;
    GroupedUnits(msgs);
    var groups, order := GroupPages(msgs);
    ghost var g := Grouping(groups, order);
    entries := [];
    for i := 0 to |order|
      invariant forall u :: u in order[..i] ==> u in groups
      invariant entries == EntriesFrom(g, order[..i])
    {
      assert order[..i + 1][..i] == order[..i] && order[i] in order;
      var grp := groups[order[i]];
      var blob := BuildBlob(grp.pages);
      AppendNone(entries);
      if PrintableField(NameOf(blob)) {
        var params: map<string, int> := map[];
        if !order[i].area.PerfCommon? {
          params := DecodeParams(TABLE, blob);
        }
        entries := entries +
          [Entry(RStrip(Decoded(NameOf(blob))), order[i], grp.pages, blob, AllTrue(grp.checksums), params)];
      }
    }
    assert order[..|order|] == order;
  }
}
