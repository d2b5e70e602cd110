/** What the bytes of a Roland message mean for an entry, in absolute positions. */
module Je8086Places {
  import opened Bytes
  import opened Text
  import opened Je8086
  import opened Je8086Params
  import opened Je8086Explode
  import opened Ordering

  // ----- Addresses and messages -----

  /** The area, unit and page of a 7-bit address: high byte 2 is the patch area, from 3 on
      the performances, whose banks count on through the high byte. */
  lemma {:induction false} AddressMeans(a: Addr)
    requires a.SevenBit()
    ensures AreaOf(PageValue(a)) ==
            if a.hi < 2 then None
            else if a.hi == 2 then Some((Unit(PatchArea, a.mid, a.lo / 2 + 1), a.lo % 2))
            else if a.lo < 64 then Some((Unit(PerfCommon, (a.hi as int - 3) * 128 + a.mid + 1, 0), a.lo))
            else Some((Unit(PerfPatch, (a.hi as int - 3) * 128 + a.mid + 1, (a.lo as int - 64) / 2 + 1),
                       (a.lo as int - 64) % 2))
  {
    SevenBitPage(a);
    hide PageValue;
    var v := PageValue(a);
    if a.hi == 2 {
      assert v - 32768 == (a.mid as int) * 128 + a.lo;
      InBank(a.mid, a.lo);
    } else if a.hi >= 3 {
      var bank := (a.hi as int - 3) * 128 + a.mid;
      assert v - 49152 == bank * 128 + a.lo;
      InBank(bank, a.lo);
    }
  }

  /** A body is a DT1 message exactly when it is 41 dev 00 06 12, three address bytes, data
      and one checksum byte. */
  lemma {:induction false} Dt1Fields(dev: byte, a: Addr, data: bytes, checksum: byte)
    ensures ParseDt1([0x41, dev, 0x00, 0x06, 0x12, a.hi, a.mid, a.lo] + data + [checksum])
            == Some(Msg(dev, a, data, checksum))
  {
    var body: bytes := [0x41, dev, 0x00, 0x06, 0x12, a.hi, a.mid, a.lo] + data + [checksum];
    assert body[8..|body| - 1] == data;
  }

  lemma {:induction false} Dt1Only(body: bytes)
    ensures match ParseDt1(body)
            case Some(m) =>
              body == [0x41, m.dev, 0x00, 0x06, 0x12, m.addr.hi, m.addr.mid, m.addr.lo] + m.data + [m.checksum]
            case None => |body| < 9 || body[0] != 0x41 || body[2] != 0x00 || body[3] != 0x06 || body[4] != 0x12
  {
  }

  /** A checksum byte is accepted exactly when it is 7-bit and brings the sum of the address,
      the data and itself to a multiple of 128. */
  lemma {:induction false} ChecksumBalances(m: Msg)
    ensures m.ChecksumOk() <==>
            m.checksum < 128
            && (m.addr.hi as int + m.addr.mid + m.addr.lo + Sum(m.data) + m.checksum) % 128 == 0
  {
  }

  // ----- Groups -----

  predicate Of(m: Msg, u: Unit, page: nat) {
    AreaOf(m.Value()) == Some((u, page))
  }

  predicate OfUnit(m: Msg, u: Unit) {
    AreaOf(m.Value()).Some? && AreaOf(m.Value()).value.0 == u
  }

  /** The last message for a page of a unit. */
  ghost predicate LastFor(msgs: seq<Msg>, u: Unit, page: nat, i: nat) {
    && i < |msgs| && Of(msgs[i], u, page)
    && forall j :: i < j < |msgs| ==> !Of(msgs[j], u, page)
  }

  /** The first message of a unit. */
  ghost predicate FirstOf(msgs: seq<Msg>, u: Unit, i: nat) {
    && i < |msgs| && OfUnit(msgs[i], u)
    && forall j :: 0 <= j < i ==> !OfUnit(msgs[j], u)
  }

  function GroupOf(g: Grouping, u: Unit): Group {
    if u in g.groups then g.groups[u] else Group(map[], [])
  }

  /** A page holds the data of the last message for it, and is there if any message is. */
  ghost predicate PageHeld(msgs: seq<Msg>, pages: map<nat, bytes>, u: Unit, page: nat) {
    && (page in pages <==> exists i :: 0 <= i < |msgs| && Of(msgs[i], u, page))
    && forall i: nat :: LastFor(msgs, u, page, i) ==> page in pages && pages[page] == msgs[i].data
  }

  lemma {:induction false} AddPage(msgs: seq<Msg>, g: Grouping, m: Msg, u: Unit, page: nat)
    requires PageHeld(msgs, GroupOf(g, u).pages, u, page)
    ensures PageHeld(msgs + [m], GroupOf(Add(g, m), u).pages, u, page)
  {
    hide AreaOf, PageValue;
    var after := msgs + [m];
    assert after[|msgs|] == m;
    if Of(m, u, page) {
      assert LastFor(after, u, page, |msgs|);
      assert GroupOf(Add(g, m), u).pages[page] == m.data;
    } else {
      PageHeldOn(msgs, m, GroupOf(g, u).pages, u, page);
    }
  }

  lemma {:induction false} PageHeldOn(msgs: seq<Msg>, m: Msg, pages: map<nat, bytes>, u: Unit, page: nat)
    requires PageHeld(msgs, pages, u, page) && !Of(m, u, page)
    ensures PageHeld(msgs + [m], pages, u, page)
  {
    hide Of;
    var after := msgs + [m];
    forall i: nat | LastFor(after, u, page, i) ensures page in pages && pages[page] == after[i].data {
      assert after[i] == msgs[i];
      assert forall j :: i < j < |msgs| ==> after[j] == msgs[j];
      assert LastFor(msgs, u, page, i);
    }
    if i :| 0 <= i < |msgs| && Of(msgs[i], u, page) {
      assert Of(after[i], u, page);
    }
  }

  /** Of the messages read: a unit is grouped if a message is its own, a page holds the data
      of the last message for it, and the checksums are all right if those of its messages
      are. */
  lemma {:induction false} PagesHold(msgs: seq<Msg>, u: Unit, page: nat)
    ensures PageHeld(msgs, GroupOf(Grouped(msgs), u).pages, u, page)
    decreases |msgs|
  {
    hide Add, Of;
    if msgs != [] {
      var n := |msgs| - 1;
      PagesHold(msgs[..n], u, page);
      AddPage(msgs[..n], Grouped(msgs[..n]), msgs[n], u, page);
      assert msgs[..n] + [msgs[n]] == msgs;
    }
  }

  ghost predicate ChecksHeld(msgs: seq<Msg>, g: Grouping, u: Unit) {
    && (u in g.groups <==> exists i :: 0 <= i < |msgs| && OfUnit(msgs[i], u))
    && (AllTrue(GroupOf(g, u).checksums) <==>
          forall i :: 0 <= i < |msgs| && OfUnit(msgs[i], u) ==> msgs[i].ChecksumOk())
  }

  lemma {:induction false} AllTrueTurn(s: seq<bool>, b: bool)
    ensures AllTrue(s + [b]) <==> AllTrue(s) && b
  {
    assert (s + [b])[|s|] == b;
    if AllTrue(s + [b]) {
      assert forall i :: 0 <= i < |s| ==> s[i] == (s + [b])[i];
    }
  }

  lemma {:induction false} AddChecks(msgs: seq<Msg>, g: Grouping, m: Msg, u: Unit)
    requires ChecksHeld(msgs, g, u)
    ensures ChecksHeld(msgs + [m], Add(g, m), u)
  {
    hide AreaOf, PageValue, Checksum, AllTrue;
    var after := msgs + [m];
    assert after[|msgs|] == m;
    AllTrueTurn(GroupOf(g, u).checksums, m.ChecksumOk());
    assert forall i :: 0 <= i < |msgs| ==> after[i] == msgs[i];
  }

  lemma {:induction false} ChecksHold(msgs: seq<Msg>, u: Unit)
    ensures ChecksHeld(msgs, Grouped(msgs), u)
    decreases |msgs|
  {
    hide Add, OfUnit, Msg.ChecksumOk;
    if msgs != [] {
      var n := |msgs| - 1;
      ChecksHold(msgs[..n], u);
      AddChecks(msgs[..n], Grouped(msgs[..n]), msgs[n], u);
      assert msgs[..n] + [msgs[n]] == msgs;
    }
  }

  // ----- Order -----

  ghost predicate Earlier(msgs: seq<Msg>, u: Unit, v: Unit) {
    exists a, b :: a < b && FirstOf(msgs, u, a) && FirstOf(msgs, v, b)
  }

  lemma {:induction false} FirstStays(msgs: seq<Msg>, m: Msg, u: Unit, a: nat)
    requires FirstOf(msgs, u, a)
    ensures FirstOf(msgs + [m], u, a)
  {
    hide OfUnit;
  }

  lemma {:induction false} FirstExists(msgs: seq<Msg>, u: Unit, i: nat) returns (a: nat)
    requires i < |msgs| && OfUnit(msgs[i], u)
    ensures FirstOf(msgs, u, a)
  {
    hide OfUnit;
    if j: nat :| j < i && OfUnit(msgs[j], u) {
      a := FirstExists(msgs, u, j);
    } else {
      a := i;
    }
  }

  lemma {:induction false} OrderHolds(msgs: seq<Msg>)
    ensures var order := Grouped(msgs).order;
            forall i, j :: 0 <= i < j < |order| ==> Earlier(msgs, order[i], order[j])
    decreases |msgs|
  {
    hide FirstOf, Earlier, AreaOf, PageValue, Checksum;
    if msgs != [] {
      var n := |msgs| - 1;
      OrderHolds(msgs[..n]);
      assert msgs[..n] + [msgs[n]] == msgs;
      var before, order := Grouped(msgs[..n]).order, Grouped(msgs).order;
      GroupedUnits(msgs[..n]);
      forall i, j | 0 <= i < j < |order| ensures Earlier(msgs, order[i], order[j]) {
        if j < |before| {
          EarlierStays(msgs[..n], msgs[n], order[i], order[j]);
        } else {
          NewIsLast(msgs[..n], msgs[n], order[i], order[j]);
        }
      }
    }
  }

  lemma {:induction false} EarlierStays(msgs: seq<Msg>, m: Msg, u: Unit, v: Unit)
    requires Earlier(msgs, u, v)
    ensures Earlier(msgs + [m], u, v)
  {
    hide FirstOf;
    var a, b :| a < b && FirstOf(msgs, u, a) && FirstOf(msgs, v, b);
    FirstStays(msgs, m, u, a);
    FirstStays(msgs, m, v, b);
  }

  lemma {:induction false} NewIsLast(msgs: seq<Msg>, m: Msg, u: Unit, v: Unit)
    requires u in Grouped(msgs).groups && v !in Grouped(msgs).groups && OfUnit(m, v)
    ensures Earlier(msgs + [m], u, v)
  {
    hide OfUnit, Add, Grouped;
    ChecksHold(msgs, u);
    ChecksHold(msgs, v);
    var i :| 0 <= i < |msgs| && OfUnit(msgs[i], u);
    var a := FirstExists(msgs, u, i);
    FirstStays(msgs, m, u, a);
    assert (msgs + [m])[|msgs|] == m;
    assert FirstOf(msgs + [m], v, |msgs|);
  }

  // ----- Entries -----

  lemma {:induction false} EntriesFromHold(g: Grouping, units: seq<Unit>)
    requires forall u :: u in units ==> u in g.groups
    ensures var es := EntriesFrom(g, units);
            && (forall e :: e in es ==> e.unit in units && EntryOf(e.unit, g.groups[e.unit]) == Some(e))
            && (forall u :: u in units && EntryOf(u, g.groups[u]).Some? ==> EntryOf(u, g.groups[u]).value in es)
    decreases |units|
  {
    hide EntryOf;
    if units != [] {
      var n := |units| - 1;
      assert units == units[..n] + [units[n]];
      assert units[n] in units;
      EntriesFromHold(g, units[..n]);
      EntryIsOwn(units[n], g.groups[units[n]]);
    }
  }

  lemma {:induction false} EntryIsOwn(u: Unit, grp: Group)
    ensures EntryOf(u, grp).Some? ==> EntryOf(u, grp).value.unit == u
  {
    hide BlobOf, PrintableField, NameOf, Decoded, RStrip, ParamsOf, AllTrue;
  }

  /** Of two entries in a row the first one's unit comes first. */
  lemma {:induction false} EntriesFollowUnits(g: Grouping, units: seq<Unit>, i: nat, j: nat)
    requires forall u :: u in units ==> u in g.groups
    requires i < j < |EntriesFrom(g, units)|
    ensures var es := EntriesFrom(g, units);
            exists p, q :: 0 <= p < q < |units| && units[p] == es[i].unit && units[q] == es[j].unit
    decreases |units|
  {
    hide EntryOf;
    var n := |units| - 1;
    assert units == units[..n] + [units[n]];
    assert units[n] in units;
    var es, before := EntriesFrom(g, units), EntriesFrom(g, units[..n]);
    EntryIsOwn(units[n], g.groups[units[n]]);
    if j < |before| {
      EntriesFollowUnits(g, units[..n], i, j);
      var p, q :| 0 <= p < q < n && units[..n][p] == before[i].unit && units[..n][q] == before[j].unit;
      assert units[p] == es[i].unit && units[q] == es[j].unit;
    } else {
      EntriesFromHold(g, units[..n]);
      assert es[i] in before;
      var p :| 0 <= p < n && units[..n][p] == es[i].unit;
      assert units[p] == es[i].unit && units[n] == es[j].unit;
    }
  }

  /** Entries come in the order in which their units are first met. */
  lemma {:induction false} EntriesInOrder(msgs: seq<Msg>, i: nat, j: nat)
    requires i < j < |EntriesOf(msgs)|
    ensures Earlier(msgs, EntriesOf(msgs)[i].unit, EntriesOf(msgs)[j].unit)
  {
    hide Grouped, Earlier, EntriesFrom;
    GroupedUnits(msgs);
    OrderHolds(msgs);
    EntriesFollowUnits(Grouped(msgs), Grouped(msgs).order, i, j);
  }

  /** The sixteen name bytes: printable or NUL, at least one printable. */
  predicate Nameable(blob: bytes) {
    && |blob| >= 17
    && (forall b :: b in blob[1..17] ==> b == 0 || 32 <= b < 127)
    && (exists b :: b in blob[1..17] && 32 <= b < 127)
  }

  lemma {:induction false} NameableIsPrintable(blob: bytes)
    ensures PrintableField(NameOf(blob)) <==> Nameable(blob)
  {
    var raw := NameOf(blob);
    if |blob| >= 17 {
      assert raw == blob[1..17];
      assert forall i :: 0 <= i < 16 ==> raw[i] in raw;
    }
  }

  /** The name: the bytes from 1 on as characters, without the blanks at the end. */
  predicate NameHeld(name: string, blob: bytes) {
    && |name| <= 16 && |blob| >= 17
    && var raw := blob[1..17];
    && (forall i :: 0 <= i < |name| ==> name[i] as int == raw[i])
    && (forall i :: |name| <= i < 16 ==> raw[i] == 0x20)
    && (name != "" ==> name[|name| - 1] != ' ')
  }

  lemma {:induction false} NameHolds(blob: bytes)
    requires Nameable(blob)
    ensures NameHeld(RStrip(Decoded(NameOf(blob))), blob)
  {
    var raw := NameOf(blob);
    assert raw == blob[1..17];
    RStripHolds(Decoded(raw));
    forall i | |RStrip(Decoded(raw))| <= i < 16 ensures raw[i] == 0x20 {
      assert IsSpace(Decoded(raw)[i]) && raw[i] in raw;
    }
    hide RStrip;
  }

  /** An entry of a file: its pages and checksum verdict come from its unit's messages,
      its blob overlays its pages, and its name is the blob's. */
  lemma {:induction false} EntryHolds(msgs: seq<Msg>, e: Entry)
    requires e in EntriesOf(msgs)
    ensures (forall page: nat :: PageHeld(msgs, e.pages, e.unit, page)) && Overlaid(e.blob, e.pages)
    ensures e.checksumOk <==> forall i :: 0 <= i < |msgs| && OfUnit(msgs[i], e.unit) ==> msgs[i].ChecksumOk()
    ensures Nameable(e.blob) && NameHeld(e.name, e.blob)
  {
    hide Grouped, EntriesFrom, PrintableField, Nameable, NameHeld, Overlaid, PageHeld, BlobOf, NameOf, RStrip, Decoded,
         ParamsOf, AllTrue, OfUnit, Msg.ChecksumOk;
    GroupedUnits(msgs);
    EntriesFromHold(Grouped(msgs), Grouped(msgs).order);
    var grp := Grouped(msgs).groups[e.unit];
    NameableIsPrintable(e.blob);
    NameHolds(e.blob);
    BlobIsOverlaid(e.pages);
    ChecksHold(msgs, e.unit);
    forall page: nat ensures PageHeld(msgs, e.pages, e.unit, page) {
      PagesHold(msgs, e.unit, page);
    }
  }

  /** Every unit of a message has an entry, unless its blob has no name. */
  lemma {:induction false} UnitHasEntry(msgs: seq<Msg>, i: nat, u: Unit, page: nat)
    requires i < |msgs| && Of(msgs[i], u, page)
    ensures u in Grouped(msgs).groups
    ensures Nameable(BlobOf(Grouped(msgs).groups[u].pages)) <==> exists e :: e in EntriesOf(msgs) && e.unit == u
  {
    hide Grouped, EntriesFrom, PrintableField, Nameable, BlobOf, NameOf, RStrip, Decoded, ParamsOf, AllTrue;
    GroupedUnits(msgs);
    assert OfUnit(msgs[i], u);
    ChecksHold(msgs, u);
    EntriesFromHold(Grouped(msgs), Grouped(msgs).order);
    NameableIsPrintable(BlobOf(Grouped(msgs).groups[u].pages));
    EntryIsOwn(u, Grouped(msgs).groups[u]);
  }

  // ----- Parameters -----

  /** A parameter is the blob's byte one past the offset of the last row of its name that
      the blob reaches; the last row of the table for this name is k. */
  lemma {:induction false} LastRowDecodes(table: seq<(nat, string)>, blob: bytes, k: nat)
    requires k < |table| && forall j :: k < j < |table| ==> table[j].1 != table[k].1
    requires 1 + table[k].0 < |blob|
    ensures table[k].1 in ParamsUpto(table, blob)
    ensures ParamsUpto(table, blob)[table[k].1] == blob[1 + table[k].0] as int
    decreases |table|
  {
    if k < |table| - 1 {
      LastRowDecodes(table[..|table| - 1], blob, k);
    }
  }

  /** Two parameters by their pages: the cutoff's control depth is byte 107 of page 0, and
      the amplifier LFO's is byte 1 of page 1. */
  lemma {:induction false} ParametersOfPages(msgs: seq<Msg>, e: Entry)
    requires e in EntriesOf(msgs) && !e.unit.area.PerfCommon?
    ensures 0 in e.pages && |e.pages[0]| > 107 ==>
              "ControlCutoffFrequency" in e.params && e.params["ControlCutoffFrequency"] == e.pages[0][107] as int
    ensures 1 in e.pages && |e.pages[1]| > 1 ==>
              "ControlAmpLfo1Depth" in e.params && e.params["ControlAmpLfo1Depth"] == e.pages[1][1] as int
  {
    hide Grouped, EntriesFrom, PrintableField, Nameable, BlobOf, NameOf, RStrip, Decoded, AllTrue, ParamsUpto, TABLE;
    EntryHolds(msgs, e);
    GroupedUnits(msgs);
    EntriesFromHold(Grouped(msgs), Grouped(msgs).order);
    if 0 in e.pages && |e.pages[0]| > 107 {
      assert Tops(e.pages, 0, 107);
      CutoffRow();
      LastRowDecodes(TABLE, e.blob, 64);
    }
    if 1 in e.pages && |e.pages[1]| > 1 {
      assert Tops(e.pages, 1, 257);
      DepthRow();
      LastRowDecodes(TABLE, e.blob, 68);
    }
  }

  lemma {:induction false} CutoffRow()
    ensures |TABLE| == 78 && TABLE[64] == (0x6A, "ControlCutoffFrequency")
    ensures forall j :: 64 < j < 78 ==> TABLE[j].1 != "ControlCutoffFrequency"
  {
  }

  lemma {:induction false} DepthRow()
    ensures |TABLE| == 78 && TABLE[68] == (0x100, "ControlAmpLfo1Depth")
    ensures forall j :: 68 < j < 78 ==> TABLE[j].1 != "ControlAmpLfo1Depth"
  {
  }

  // ----- Written files -----

  /** The message of a page: a DT1 to the address that stands for its unit and page, with the
      page's data and the checksum that balances them. */
  lemma {:induction false} PageMessageBytes(e: Entry, page: nat) returns (a: Addr, cs: byte)
    requires page in e.pages && InMap(e.unit, page) && UnitPageValue(e.unit) + page < 0x20_0000
    ensures PageMessage(e, page)
         == [0xF0, 0x41, 0x10, 0x00, 0x06, 0x12, a.hi, a.mid, a.lo] + e.pages[page] + [cs, 0xF7]
    ensures a.SevenBit() && AreaOf(PageValue(a)) == Some((e.unit, page))
    ensures cs < 128 && (a.hi as int + a.mid + a.lo + Sum(e.pages[page]) + cs) % 128 == 0
  {
    UnitInverse(e.unit, page);
    PageOfAddr(UnitPageValue(e.unit) + page);
    a := AddrBytes(UnitPageValue(e.unit) + page);
    cs := Checksum(a, e.pages[page]);
    hide AreaOf, PageValue, AddrBytes, UnitPageValue;
    ChecksumBalances(Msg(0x10, a, e.pages[page], cs));
  }

  /** A written file holds the pages in ascending order: a larger page comes behind. */
  lemma {:induction false} FileGrows(e: Entry, page: nat, data: bytes)
    requires Writable(e) && InMap(e.unit, page) && forall p :: p in e.pages ==> p < page
    ensures var more := e.(pages := e.pages[page := data]);
            Writable(more) && FileOf(more) == FileOf(e) + PageMessage(more, page)
    ensures e.pages == map[] ==> FileOf(e) == []
  {
    hide PageMessage, TotalOrder, Lists, InMap;
    PagesAreOrdered();
    var more := e.(pages := e.pages[page := data]);
    var list := Listed(e.pages.Keys, PageLe);
    ListGrows(list, e.pages.Keys, page);
    ListsUnique(Listed(more.pages.Keys, PageLe), list + [page], more.pages.Keys, PageLe);
    assert (list + [page])[..|list|] == list;
    ListMembers(list, e.pages.Keys);
    ListMembers(list + [page], more.pages.Keys);
    SameFile(e, more, list);
  }

  lemma {:induction false} ListMembers(list: seq<nat>, pages: set<nat>)
    requires Lists(list, pages, PageLe)
    ensures forall p :: p in list <==> p in pages
    ensures pages == {} ==> list == []
  {
    if list != [] {
      assert list[0] in list;
    }
  }

  lemma {:induction false} ListGrows(list: seq<nat>, pages: set<nat>, page: nat)
    requires Lists(list, pages, PageLe) && forall p :: p in pages ==> p < page
    ensures Lists(list + [page], pages + {page}, PageLe)
  {
    forall i | 0 <= i < |list| ensures list[i] < page {
      assert list[i] in list;
    }
  }

  lemma {:induction false} SameFile(e: Entry, more: Entry, list: seq<nat>)
    requires Writable(e) && Writable(more) && e.unit == more.unit
    requires forall p :: p in list ==> p in e.pages && p in more.pages && e.pages[p] == more.pages[p]
    ensures FileFrom(e, list) == FileFrom(more, list)
    decreases |list|
  {
    hide InMap;
    if list != [] {
      SameFile(e, more, list[..|list| - 1]);
    }
  }
}
