/** je8086_patch --explode: one file per unit, and its round trip through the parser. */
module Je8086Explode {
  import opened Bytes
  import opened Ordering
  import opened Text
  import opened SysexBlocks
  import opened Je8086
  import XeniaSysex
  import File = XeniaSysexFile

  // ----- One file -----

  /** The DT1 message of one page of a unit. */
  function PageMessage(e: Entry, page: nat): bytes
    requires page in e.pages && InMap(e.unit, page)
  {
    UnitInverse(e.unit, page);
    EmitDt1(AddrBytes(UnitPageValue(e.unit) + page), e.pages[page])
  }

  predicate Writable(e: Entry) {
    forall p :: p in e.pages ==> InMap(e.unit, p)
  }

  function FileFrom(e: Entry, list: seq<nat>): bytes
    requires Writable(e) && forall p :: p in list ==> p in e.pages
  {
    if list == [] then [] else FileFrom(e, list[..|list| - 1]) + PageMessage(e, list[|list| - 1])
  }

  ghost function FileOf(e: Entry): bytes
    requires Writable(e)
  {
    PagesAreOrdered();
    FileFrom(e, Listed(e.pages.Keys, PageLe))
  }

  method WriteUnit(e: Entry) returns (data: bytes)
    requires Writable(e)
    ensures data == FileOf(e)
  {
    hide Lists, TotalOrder, EmitDt1, PageMessage;
    PagesAreOrdered();
    var list := SortedList(e.pages.Keys, PageLe);
    data := [];
    assert list[..0] == [];
    for i := 0 to |list|
      invariant data == FileFrom(e, list[..i])
    {
      assert list[..i + 1][..i] == list[..i] && list[i] in list;
      data := data + PageMessage(e, list[i]);
    }
    assert list[..|list|] == list;
  }

  // ----- Parsing a file back -----

  /** verify_exploded reads without the retry of parse_file. */
  function MessagesOf(data: bytes): seq<Msg> {
    Keep(Keep(XeniaSysex.RawMessages(data), Inner), ParseDt1)
  }

  /** The message a page comes back as. */
  function PageBack(e: Entry, page: nat): Msg
    requires page in e.pages && InMap(e.unit, page)
  {
    UnitInverse(e.unit, page);
    var a := AddrBytes(UnitPageValue(e.unit) + page);
    Msg(0x10, a, e.pages[page], Checksum(a, e.pages[page]))
  }

  function PagesBack(e: Entry, list: seq<nat>): seq<Msg>
    requires Writable(e) && forall p :: p in list ==> p in e.pages
  {
    if list == [] then [] else PagesBack(e, list[..|list| - 1]) + [PageBack(e, list[|list| - 1])]
  }

  /** A DT1 message with a 7-bit address and no F7 in its data, in front of anything. */
  lemma {:induction false} MessageBack(a: Addr, data: bytes, rest: bytes)
    requires a.SevenBit() && 0xF7 !in data
    ensures MessagesOf(EmitDt1(a, data) + rest) == [Msg(0x10, a, data, Checksum(a, data))] + MessagesOf(rest)
  {
    hide XeniaSysex.RawMessages, Checksum;
    var m := EmitDt1(a, data);
    EmittedFramed(a, data);
    File.RawTakes(m, rest);
    EmittedBody(a, data);
    KeepFirst(m, XeniaSysex.RawMessages(rest), Inner);
    KeepFirst(Inner(m).value, Keep(XeniaSysex.RawMessages(rest), Inner), ParseDt1);
  }

  lemma {:induction false} EmittedFramed(a: Addr, data: bytes)
    requires a.SevenBit() && 0xF7 !in data
    ensures File.Framed(EmitDt1(a, data))
  {
    var m := EmitDt1(a, data);
    var cs := Checksum(a, data);
    assert cs < 128 by {
      ChecksumRange(a, data);
    }
    hide Checksum;
    EndOnly([0xF0, 0x41, 0x10, 0x00, 0x06, 0x12, a.hi, a.mid, a.lo], data, cs);
  }

  lemma {:induction false} EndOnly(head: bytes, data: bytes, cs: byte)
    requires |head| >= 1 && head[0] == 0xF0 && 0xF7 !in head && 0xF7 !in data && cs != 0xF7
    ensures File.Framed(head + data + [cs, 0xF7])
  {
    var m, front := head + data + [cs, 0xF7], head + data + [cs];
    assert m == front + [0xF7];
    assert 0xF7 !in front;
    forall i | 0 <= i < |m| - 1 ensures m[i] != 0xF7 {
      assert m[i] == front[i];
    }
  }

  lemma {:induction false} ChecksumRange(a: Addr, data: bytes)
    ensures Checksum(a, data) < 128
  {
  }

  lemma {:induction false} EmittedBody(a: Addr, data: bytes)
    ensures var body := Inner(EmitDt1(a, data));
            body.Some? && ParseDt1(body.value) == Some(Msg(0x10, a, data, Checksum(a, data)))
  {
    hide Checksum;
    var m := EmitDt1(a, data);
    var body := m[1..|m| - 1];
    assert body == [0x41, 0x10, 0x00, 0x06, 0x12, a.hi, a.mid, a.lo] + data + [Checksum(a, data)];
    assert body[8..|body| - 1] == data;
  }

  /** Every page is a page of the map, in one message. */
  predicate Sendable(e: Entry) {
    forall p :: p in e.pages ==> InMap(e.unit, p) && 0xF7 !in e.pages[p]
  }

  /** Every page can be addressed in seven bits. */
  predicate Addressable(e: Entry) {
    forall p :: p in e.pages ==> UnitPageValue(e.unit) + p < 0x20_0000
  }

  lemma {:induction false} AddrIsSevenBit(value: nat)
    ensures AddrBytes(value).SevenBit() && PageValue(AddrBytes(value)) < 0x20_0000
  {
    hide PageValue;
    SevenBitPage(AddrBytes(value));
  }

  lemma {:induction false} FileBack(e: Entry, list: seq<nat>, rest: bytes)
    requires Sendable(e) && forall p :: p in list ==> p in e.pages
    ensures MessagesOf(FileFrom(e, list) + rest) == PagesBack(e, list) + MessagesOf(rest)
    decreases |list|
  {
    hide MessagesOf, EmitDt1, Checksum;
    if list == [] {
      AppendNone(rest);
      AppendNone(MessagesOf(rest));
    } else {
      var n := |list| - 1;
      var page := list[n];
      assert page in list;
      var a := AddrBytes(UnitPageValue(e.unit) + page);
      UnitInverse(e.unit, page);
      AddrIsSevenBit(UnitPageValue(e.unit) + page);
      AppendAssoc(FileFrom(e, list[..n]), PageMessage(e, page), rest);
      FileBack(e, list[..n], PageMessage(e, page) + rest);
      MessageBack(a, e.pages[page], rest);
      AppendAssoc(PagesBack(e, list[..n]), [PageBack(e, page)], MessagesOf(rest));
    }
  }

  lemma {:induction false} NoMessages()
    ensures MessagesOf([]) == []
  {
  }

  function Only(pages: map<nat, bytes>, list: seq<nat>): map<nat, bytes> {
    map p | p in pages && p in list :: pages[p]
  }

  /** One unit, with these pages and no failed checksum. */
  ghost predicate OnlyUnit(g: Grouping, u: Unit, pages: map<nat, bytes>) {
    && g.order == [u] && g.groups.Keys == {u}
    && g.groups[u].pages == pages && AllTrue(g.groups[u].checksums)
  }

  lemma {:induction false} AddToUnit(g: Grouping, u: Unit, pages: map<nat, bytes>, m: Msg, page: nat)
    requires OnlyUnit(g, u, pages) || (g == Grouping(map[], []) && pages == map[])
    requires AreaOf(m.Value()) == Some((u, page)) && m.ChecksumOk()
    ensures OnlyUnit(Add(g, m), u, pages[page := m.data])
  {
    hide AreaOf, PageValue, Checksum;
  }

  /** The pages of one unit group into that unit alone. */
  lemma {:induction false} GroupedBack(e: Entry, list: seq<nat>)
    requires Sendable(e) && Addressable(e) && list != [] && forall p :: p in list ==> p in e.pages
    ensures OnlyUnit(Grouped(PagesBack(e, list)), e.unit, Only(e.pages, list))
    decreases |list|
  {
    hide OnlyUnit, Add, PageBack;
    var n := |list| - 1;
    assert list[n] in list;
    BackLength(e, list[..n]);
    PageLands(e, list[n]);
    OnlyTurn(e.pages, list);
    var back, g := PagesBack(e, list), Grouped(PagesBack(e, list[..n]));
    BackSplit(e, list);
    if n > 0 {
      GroupedBack(e, list[..n]);
    }
    AddToUnit(g, e.unit, Only(e.pages, list[..n]), PageBack(e, list[n]), list[n]);
  }

  lemma {:induction false} OnlyTurn(pages: map<nat, bytes>, list: seq<nat>)
    requires list != [] && forall p :: p in list ==> p in pages
    ensures var n := |list| - 1;
            && list[n] in pages && Only(pages, list) == Only(pages, list[..n])[list[n] := pages[list[n]]]
            && (n == 0 ==> Only(pages, list[..n]) == map[])
  {
    var n := |list| - 1;
    assert list == list[..n] + [list[n]] && list[n] in list;
  }

  lemma {:induction false} BackSplit(e: Entry, list: seq<nat>)
    requires Writable(e) && list != [] && forall p :: p in list ==> p in e.pages
    ensures var n := |list| - 1;
            && list[n] in e.pages && InMap(e.unit, list[n])
            && Grouped(PagesBack(e, list)) == Add(Grouped(PagesBack(e, list[..n])), PageBack(e, list[n]))
            && (n == 0 ==> Grouped(PagesBack(e, list[..n])) == Grouping(map[], []))
  {
    hide Add, PageBack;
    var n := |list| - 1;
    assert list[n] in list;
    var back := PagesBack(e, list);
    assert back[..|back| - 1] == PagesBack(e, list[..n]);
  }

  lemma {:induction false} BackLength(e: Entry, list: seq<nat>)
    requires Writable(e) && forall p :: p in list ==> p in e.pages
    ensures |PagesBack(e, list)| == |list|
    decreases |list|
  {
    if list != [] {
      BackLength(e, list[..|list| - 1]);
    }
  }

  lemma {:induction false} PageLands(e: Entry, page: nat)
    requires Sendable(e) && Addressable(e) && page in e.pages
    ensures AreaOf(PageBack(e, page).Value()) == Some((e.unit, page)) && PageBack(e, page).ChecksumOk()
    ensures PageBack(e, page).data == e.pages[page]
  {
    UnitInverse(e.unit, page);
    PageOfAddr(UnitPageValue(e.unit) + page);
    hide AreaOf, UnitPageValue, AddrBytes, PageValue, Checksum, InMap;
  }

  // ----- Where entries come from -----

  /** Each page of a group is the data of a message with that unit and page. */
  ghost predicate Sourced(g: Grouping, msgs: seq<Msg>) {
    forall u, p :: u in g.groups && p in g.groups[u].pages ==>
      exists m :: m in msgs && AreaOf(m.Value()) == Some((u, p)) && m.data == g.groups[u].pages[p]
  }

  lemma {:induction false} GroupedSourced(msgs: seq<Msg>)
    ensures Sourced(Grouped(msgs), msgs)
    ensures forall u :: u in Grouped(msgs).groups ==> Grouped(msgs).groups[u].pages != map[]
    decreases |msgs|
  {
    hide AreaOf, PageValue, Checksum;
    if msgs != [] {
      var n := |msgs| - 1;
      assert msgs == msgs[..n] + [msgs[n]];
      GroupedSourced(msgs[..n]);
      AddSourced(Grouped(msgs[..n]), msgs[..n], msgs[n]);
      assert msgs[..n] + [msgs[n]] == msgs;
    }
  }

  lemma {:induction false} AddSourced(g: Grouping, msgs: seq<Msg>, m: Msg)
    requires Sourced(g, msgs) && forall u :: u in g.groups ==> g.groups[u].pages != map[]
    ensures Sourced(Add(g, m), msgs + [m])
    ensures forall u :: u in Add(g, m).groups ==> Add(g, m).groups[u].pages != map[]
  {
    hide AreaOf, PageValue, Checksum;
    var all, after := msgs + [m], Add(g, m);
    forall u, p | u in after.groups && p in after.groups[u].pages
      ensures exists n :: n in all && AreaOf(n.Value()) == Some((u, p)) && n.data == after.groups[u].pages[p]
    {
      if AreaOf(m.Value()) == Some((u, p)) {
        assert m in all;
      } else {
        assert u in g.groups && p in g.groups[u].pages;
        var n :| n in msgs && AreaOf(n.Value()) == Some((u, p)) && n.data == g.groups[u].pages[p];
        assert n in all;
      }
    }
  }

  lemma {:induction false} EntryIsOf(g: Grouping, units: seq<Unit>, e: Entry)
    requires (forall u :: u in units ==> u in g.groups) && e in EntriesFrom(g, units)
    ensures e.unit in units && EntryOf(e.unit, g.groups[e.unit]) == Some(e)
    decreases |units|
  {
    hide EntryOf;
    var n := |units| - 1;
    assert units == units[..n] + [units[n]];
    if e in EntriesFrom(g, units[..n]) {
      EntryIsOf(g, units[..n], e);
    } else {
      EntryKeepsUnit(units[n], g.groups[units[n]]);
    }
  }

  lemma {:induction false} EntryKeepsUnit(u: Unit, grp: Group)
    ensures EntryOf(u, grp).Some? ==> EntryOf(u, grp).value.unit == u
  {
    hide BlobOf, PrintableField;
  }

  ghost predicate NoF7(msgs: seq<Msg>) {
    forall m :: m in msgs ==> 0xF7 !in m.data
  }

  /** An entry is what its pages and its unit make it, whether or not its checksums hold. */
  ghost predicate WellFormed(e: Entry) {
    && e.pages != map[] && e.blob == BlobOf(e.pages) && PrintableField(NameOf(e.blob))
    && e.name == RStrip(Decoded(NameOf(e.blob))) && e.params == ParamsOf(e.unit, e.blob)
  }

  lemma {:induction false} EntriesSourced(msgs: seq<Msg>, e: Entry)
    requires e in EntriesOf(msgs)
    ensures WellFormed(e)
    ensures forall p :: p in e.pages ==>
              exists m :: m in msgs && AreaOf(m.Value()) == Some((e.unit, p)) && m.data == e.pages[p]
  {
    hide AreaOf, BlobOf, PrintableField, PageValue, UnitPageValue, InMap, RStrip, ParamsOf;
    GroupedUnits(msgs);
    var g := Grouped(msgs);
    EntryIsOf(g, g.order, e);
    GroupedSourced(msgs);
  }

  lemma {:induction false} EntriesTravel(msgs: seq<Msg>, e: Entry)
    requires e in EntriesOf(msgs)
    ensures WellFormed(e) && Writable(e)
    ensures NoF7(msgs) ==> Sendable(e)
    ensures (forall m :: m in msgs ==> m.addr.SevenBit()) ==> Addressable(e)
  {
    hide AreaOf, WellFormed, PageValue, UnitPageValue, InMap, EntriesOf;
    EntriesSourced(msgs, e);
    forall p | p in e.pages
      ensures InMap(e.unit, p) && (NoF7(msgs) ==> 0xF7 !in e.pages[p])
      ensures (forall m :: m in msgs ==> m.addr.SevenBit()) ==> UnitPageValue(e.unit) + p < 0x20_0000
    {
      var m :| m in msgs && AreaOf(m.Value()) == Some((e.unit, p)) && m.data == e.pages[p];
      AreaInverse(m.Value());
      if m.addr.SevenBit() {
        AddrOfPage(m.addr);
      }
    }
  }

  // ----- The round trip -----

  /** What reading an exploded unit back should give: the unit, every checksum right. */
  ghost predicate ReadsBack(e: Entry)
    requires Writable(e)
  {
    EntriesOf(MessagesOf(FileOf(e))) == [e.(checksumOk := true)]
  }

  /** Writing a unit's pages and reading the file back gives exactly that unit, its area,
      bank, slot, pages, blob, name and parameters, if and only if every page value is
      below 2^21; every checksum is right in any case. */
  lemma {:induction false} ExplodeRoundTrip(msgs: seq<Msg>, e: Entry)
    requires NoF7(msgs) && e in EntriesOf(msgs)
    ensures Writable(e) && (ReadsBack(e) <==> Addressable(e))
    ensures MessagesOf(FileOf(e)) != [] && forall m :: m in MessagesOf(FileOf(e)) ==> m.ChecksumOk()
  {
    hide EntriesOf, MessagesOf, FileOf, Sendable, Addressable, ReadsBack, WellFormed;
    EntriesTravel(msgs, e);
    HasPages(e);
    FileMessages(e);
    if Addressable(e) {
      FileRoundTrip(e);
    } else {
      Misaddressed(e);
    }
  }

  /** The messages of an exploded file. */
  lemma {:induction false} FileMessages(e: Entry)
    requires Sendable(e) && e.pages != map[]
    ensures TotalOrder(PageLe)
    ensures var list := Listed(e.pages.Keys, PageLe);
            && list != [] && (forall p :: p in list <==> p in e.pages)
            && MessagesOf(FileOf(e)) == PagesBack(e, list)
    ensures MessagesOf(FileOf(e)) != [] && forall m :: m in MessagesOf(FileOf(e)) ==> m.ChecksumOk()
  {
    hide MessagesOf, InMap, FileFrom, PagesBack;
    PagesAreOrdered();
    var list := Listed(e.pages.Keys, PageLe);
    assert list != [] by {
      var p :| p in e.pages;
      assert p in list;
    }
    AppendNone(FileFrom(e, list));
    FileBack(e, list, []);
    NoMessages();
    AppendNone(PagesBack(e, list));
    BackChecksums(e, list);
  }

  lemma {:induction false} FileRoundTrip(e: Entry)
    requires Sendable(e) && Addressable(e) && WellFormed(e)
    ensures ReadsBack(e)
  {
    hide MessagesOf, BlobOf, PrintableField, Grouped, InMap, FileFrom, PagesBack, ParamsOf;
    FileMessages(e);
    var list := Listed(e.pages.Keys, PageLe);
    var back := MessagesOf(FileOf(e));
    GroupedUnits(back);
    GroupedBack(e, list);
    assert Only(e.pages, list) == e.pages;
    OneEntry(Grouped(back), e.unit);
  }

  /** All addresses an exploded file uses are below 2^21. */
  lemma {:induction false} BackValues(e: Entry, list: seq<nat>)
    requires Writable(e) && forall p :: p in list ==> p in e.pages
    ensures forall m :: m in PagesBack(e, list) ==> m.Value() < 0x20_0000
    decreases |list|
  {
    hide Checksum, AddrBytes, UnitPageValue, InMap, PageValue;
    if list != [] {
      var n := |list| - 1;
      assert list[n] in list;
      BackValues(e, list[..n]);
      UnitInverse(e.unit, list[n]);
      AddrIsSevenBit(UnitPageValue(e.unit) + list[n]);
    }
  }

  /** A page value of 2^21 or more is addressed as another page, so the unit is not what
      comes back. */
  lemma {:induction false} Misaddressed(e: Entry)
    requires Sendable(e) && !Addressable(e) && WellFormed(e)
    ensures !ReadsBack(e)
  {
    hide MessagesOf, WellFormed, InMap, FileFrom, PagesBack, EntriesOf, AreaOf, UnitPageValue, PageValue;
    HasPages(e);
    FileMessages(e);
    var back := MessagesOf(FileOf(e));
    BackValues(e, Listed(e.pages.Keys, PageLe));
    if ReadsBack(e) {
      var p :| p in e.pages && UnitPageValue(e.unit) + p >= 0x20_0000;
      EntriesSourced(back, e.(checksumOk := true));
      var m :| m in back && AreaOf(m.Value()) == Some((e.unit, p));
      AreaInverse(m.Value());
      assert false;
    }
  }

  lemma {:induction false} HasPages(e: Entry)
    requires WellFormed(e)
    ensures e.pages != map[]
  {
  }

  lemma {:induction false} OneEntry(g: Grouping, u: Unit)
    requires g.order == [u] && u in g.groups
    ensures EntriesFrom(g, g.order) == match EntryOf(u, g.groups[u]) case None => [] case Some(e) => [e]
  {
    hide EntryOf;
    assert [u][..0] == [];
  }

  lemma {:induction false} BackChecksums(e: Entry, list: seq<nat>)
    requires Sendable(e) && forall p :: p in list ==> p in e.pages
    ensures |PagesBack(e, list)| == |list| && forall m :: m in PagesBack(e, list) ==> m.ChecksumOk()
    decreases |list|
  {
    hide Checksum, AddrBytes, UnitPageValue, InMap;
    if list != [] {
      assert list[|list| - 1] in list;
      BackChecksums(e, list[..|list| - 1]);
    }
  }

  /** The data between an F0 and the next F7 holds no F7, so the units of any file survive
      the round trip exactly when their page values are below 2^21, as they are when the
      file's addresses are 7-bit. */
  lemma {:induction false} FileUnitsRoundTrip(data: bytes, e: Entry)
    requires e in EntriesOf(Keep(Keep(XeniaSysex.RawMessages(data), Inner), ParseBody))
    ensures Writable(e) && (ReadsBack(e) <==> Addressable(e))
    ensures (forall m :: m in Keep(Keep(XeniaSysex.RawMessages(data), Inner), ParseBody) ==> m.addr.SevenBit()) ==>
              Addressable(e)
  {
    hide XeniaSysex.RawMessages, EntriesOf, ParseBody, Inner, FileOf, MessagesOf, ReadsBack, Addressable;
    var msgs := Keep(Keep(XeniaSysex.RawMessages(data), Inner), ParseBody);
    FileHasNoF7(data);
    EntriesTravel(msgs, e);
    ExplodeRoundTrip(msgs, e);
  }

  lemma {:induction false} FileHasNoF7(data: bytes)
    ensures NoF7(Keep(Keep(XeniaSysex.RawMessages(data), Inner), ParseBody))
  {
    hide XeniaSysex.RawMessages, ParseBody, Inner;
    forall m | m in Keep(Keep(XeniaSysex.RawMessages(data), Inner), ParseBody) ensures 0xF7 !in m.data {
      KeptFrom(Keep(XeniaSysex.RawMessages(data), Inner), ParseBody, m);
      var body :| body in Keep(XeniaSysex.RawMessages(data), Inner) && ParseBody(body) == Some(m);
      KeptFrom(XeniaSysex.RawMessages(data), Inner, body);
      var raw :| raw in XeniaSysex.RawMessages(data) && Inner(raw) == Some(body);
      RawInterior(data, raw);
      BodyHasNoF7(raw, body, m);
    }
  }

  lemma {:induction false} KeptFrom<T, U>(s: seq<T>, f: T -> Option<U>, y: U)
    requires y in Keep(s, f)
    ensures exists x :: x in s && f(x) == Some(y)
    decreases |s|
  {
    assert s == [s[0]] + s[1..];
    if f(s[0]) != Some(y) {
      KeptFrom(s[1..], f, y);
    }
  }

  /** A message of a raw scan has its only F7 at its end. */
  lemma {:induction false} RawInterior(data: bytes, raw: bytes)
    requires raw in XeniaSysex.RawMessages(data)
    ensures |raw| >= 2 && forall i :: 0 <= i < |raw| - 1 ==> raw[i] != 0xF7
    decreases |data|
  {
    var start := Find(data, 0xF0, 0);
    var end := Find(data, 0xF7, start);
    if raw != data[start..end + 1] {
      RawInterior(data[end + 1..], raw);
    }
  }

  lemma {:induction false} BodyHasNoF7(raw: bytes, body: bytes, m: Msg)
    requires |raw| >= 2 && forall i :: 0 <= i < |raw| - 1 ==> raw[i] != 0xF7
    requires Inner(raw) == Some(body) && ParseBody(body) == Some(m)
    ensures 0xF7 !in m.data
  {
    hide HighRun;
    assert forall x :: x in body ==> x in raw[1..|raw| - 1];
    assert 0xF7 !in raw[1..|raw| - 1];
    assert forall x :: x in m.data ==> x in body;
  }
}
