/** What a harvested sheet says of the patches that were scanned, preset by preset. */
module HarvestSheet {
  import opened Bytes
  import opened Ordering
  import opened Text
  import opened Harvest

  /** The patches scanned with this configuration, by name. */
  function Carriers(scans: seq<Scan>, c: Config): set<string> {
    set s | s in scans && s.config == Some(c) :: s.name
  }

  lemma {:induction false} CarriersAreNames(scans: seq<Scan>, c: Config)
    ensures Carriers(scans, c) == Names(SeenOf(scans), c)
  {
    forall s | s in scans && s.config == Some(c) ensures s.name in Names(SeenOf(scans), c) {
      assert (s.name, c) in SeenOf(scans);
    }
  }

  lemma {:induction false} ConfigsAreScanned(scans: seq<Scan>, c: Config)
    ensures c in Configs(SeenOf(scans)) <==> exists s :: s in scans && s.config == Some(c)
  {
    if s :| s in scans && s.config == Some(c) {
      assert (s.name, c) in SeenOf(scans);
    }
  }

  // ----- Examples -----

  /** The smallest names, at most five, in order. */
  ghost predicate Smallest(examples: seq<string>, names: set<string>) {
    && |examples| == Min(5, |names|)
    && (forall x :: x in examples ==> x in names)
    && (forall i, j :: 0 <= i < j < |examples| ==> examples[i] != examples[j] && StringLe(examples[i], examples[j]))
    && (forall x, y :: x in examples && y in names && y !in examples ==> StringLe(x, y))
  }

  lemma {:induction false} ListedSize(r: seq<string>, s: set<string>)
    requires Lists(r, s, StringLe)
    ensures |r| == |s|
  {
    ListsMultiset(r, s, StringLe);
    assert |multiset(r)| == |r|;
    SetSize(s);
  }

  lemma {:induction false} SetSize(s: set<string>)
    ensures |multiset(s)| == |s|
  {
    if x :| x in s {
      SetSize(s - {x});
      assert multiset(s) == multiset(s - {x}) + multiset{x};
    }
  }

  lemma {:induction false} FrontIsSmallest(r: seq<string>, names: set<string>)
    requires Lists(r, names, StringLe)
    ensures Smallest(Slice(r, 0, 5), names)
  {
    hide StringLe;
    ListedSize(r, names);
    var front := Slice(r, 0, 5);
    forall x, y | x in front && y in names && y !in front ensures StringLe(x, y) {
      var i :| 0 <= i < |front| && front[i] == x;
      var j :| 0 <= j < |r| && r[j] == y;
      assert forall k :: 0 <= k < |front| ==> front[k] == r[k] && front[k] in front;
    }
  }

  // ----- One preset -----

  lemma {:induction false} LastIsHeld(list: seq<Config>, seen: Seen, e: Engine)
    requires list != []
    ensures var p, c := PresetOf(list, seen, e), list[|list| - 1];
            && p.params == c && p.role == e.describe(c).0 && p.id == e.id(p.role, c)
            && p.size == |Names(seen, c)| && Smallest(p.examples, Names(seen, c))
            && p.name == Numbered(e.describe(c).1, Earlier(list[..|list| - 1], e, e.describe(c).1))
  {
    hide Smallest, Numbered, Earlier, Names, StringLe;
    StringsAreOrdered();
    FrontIsSmallest(Listed(Names(seen, list[|list| - 1]), StringLe), Names(seen, list[|list| - 1]));
  }

  /** The presets in front of i whose description has this name. */
  ghost function Namesakes(presets: seq<Preset>, e: Engine, i: nat, base: string): set<int>
    requires i <= |presets|
  {
    set j | 0 <= j < i && e.describe(presets[j].params).1 == base
  }

  lemma {:induction false} EarlierCounts(list: seq<Config>, presets: seq<Preset>, e: Engine, i: nat, base: string)
    requires i <= |presets| && i <= |list| && forall j :: 0 <= j < i ==> presets[j].params == list[j]
    ensures Earlier(list[..i], e, base) == |Namesakes(presets, e, i, base)|
  {
    if i > 0 {
      EarlierCounts(list, presets, e, i - 1, base);
      assert list[..i][..i - 1] == list[..i - 1];
      var now, before := Namesakes(presets, e, i, base), Namesakes(presets, e, i - 1, base);
      assert now == if e.describe(presets[i - 1].params).1 == base then before + {i - 1} else before;
    } else {
      assert Namesakes(presets, e, 0, base) == {};
    }
  }

  /** A preset of a sheet: it tells how many patches carry its parameters and names the
      smallest five; its id and role are the engine's, and its name is the description,
      numbered from the second of a name on. */
  ghost predicate PresetHeld(p: Preset, i: nat, presets: seq<Preset>, scans: seq<Scan>, e: Engine)
    requires i <= |presets|
  {
    var (role, base) := e.describe(p.params);
    var k := |Namesakes(presets, e, i, base)|;
    && p.role == role && p.id == e.id(role, p.params)
    && p.size == |Carriers(scans, p.params)| && p.size > 0 && Smallest(p.examples, Carriers(scans, p.params))
    && p.name == if k == 0 then base else base + " (" + Decimal(k + 1) + ")"
  }

  /** The clusters the sheet keeps. */
  ghost function KeptOf(scans: seq<Scan>, e: Engine, limit: nat): seq<Config>
    requires InjectiveIds(e)
  {
    Slice(Ordered(SeenOf(scans), e), 0, limit)
  }

  lemma {:induction false} SheetIs(scans: seq<Scan>, e: Engine, limit: nat)
    requires InjectiveIds(e)
    ensures var kept, presets := KeptOf(scans, e, limit), SheetOf(SeenOf(scans), e, limit).presets;
            && |presets| == |kept|
            && (forall i :: 0 <= i < |kept| ==> presets[i] == PresetOf(kept[..i + 1], SeenOf(scans), e))
            && (forall i :: 0 <= i < |kept| ==>
                  presets[i].params == kept[i] && presets[i].size == |Names(SeenOf(scans), kept[i])|)
  {
    hide SeenOf, Presets, Ordered, PresetOf, Smallest, Names, Earlier, Numbered;
    var kept := KeptOf(scans, e, limit);
    PresetsAre(kept, SeenOf(scans), e);
    forall i | 0 <= i < |kept|
      ensures var p := SheetOf(SeenOf(scans), e, limit).presets[i];
              p.params == kept[i] && p.size == |Names(SeenOf(scans), kept[i])|
    {
      LastIsHeld(kept[..i + 1], SeenOf(scans), e);
    }
  }

  lemma {:induction false} SheetPreset(scans: seq<Scan>, e: Engine, limit: nat, i: nat)
    requires InjectiveIds(e) && i < |SheetOf(SeenOf(scans), e, limit).presets|
    ensures var presets := SheetOf(SeenOf(scans), e, limit).presets; PresetHeld(presets[i], i, presets, scans, e)
  {
    hide SeenOf, Ordered, Smallest, Earlier, Names, Carriers, PresetOf, SheetOf, Decimal, Namesakes, KeptOf,
      InjectiveIds;
    var kept, presets := KeptOf(scans, e, limit), SheetOf(SeenOf(scans), e, limit).presets;
    SheetIs(scans, e, limit);
    LastIsHeld(kept[..i + 1], SeenOf(scans), e);
    assert kept[..i + 1][..i] == kept[..i];
    EarlierCounts(kept, presets, e, i, e.describe(kept[i]).1);
    CarriersAreNames(scans, kept[i]);
    KeptAreScanned(scans, e, limit, i);
  }

  lemma {:induction false} KeptAreScanned(scans: seq<Scan>, e: Engine, limit: nat, i: nat)
    requires InjectiveIds(e) && i < |KeptOf(scans, e, limit)|
    ensures |Names(SeenOf(scans), KeptOf(scans, e, limit)[i])| > 0
  {
    hide SeenOf, Ordered, Names;
    var list := Ordered(SeenOf(scans), e);
    assert KeptOf(scans, e, limit)[i] == list[i] && list[i] in list;
    OrderedIs(SeenOf(scans), e, list[i]);
    NamesThere(SeenOf(scans), list[i]);
  }

  /** The preset's cluster is larger than the one of c, or as large with a smaller id. */
  predicate Outranks(p: Preset, scans: seq<Scan>, c: Config, e: Engine) {
    && p.params != c
    && (p.size > |Carriers(scans, c)|
        || (p.size == |Carriers(scans, c)| && StringLe(e.id("", p.params), e.id("", c))))
  }

  lemma {:induction false} Ranked(scans: seq<Scan>, e: Engine, limit: nat, i: nat, j: nat)
    requires InjectiveIds(e) && i < j < |Ordered(SeenOf(scans), e)| && i < limit
    ensures var presets := SheetOf(SeenOf(scans), e, limit).presets;
            i < |presets| && Outranks(presets[i], scans, Ordered(SeenOf(scans), e)[j], e)
  {
    hide SeenOf, Names, Carriers, PresetOf, SheetOf, StringLe;
    var seen := SeenOf(scans);
    var list := Ordered(seen, e);
    BeforeIsTotal(Sizes(seen), e);
    SheetIs(scans, e, limit);
    CarriersAreNames(scans, list[j]);
    assert list[i] in list && list[j] in list && Before(Sizes(seen), e)(list[i], list[j]);
    assert SizeIn(Sizes(seen), list[i]) == |Names(seen, list[i])|;
    assert SizeIn(Sizes(seen), list[j]) == |Names(seen, list[j])|;
  }

  /** The presets are in order, and a configuration that was scanned is left out only when
      the sheet is full, and would come after all of it. */
  lemma {:induction false} SheetIsOrdered(scans: seq<Scan>, e: Engine, limit: nat)
    requires InjectiveIds(e)
    ensures var presets := SheetOf(SeenOf(scans), e, limit).presets;
            && |presets| <= limit
            && (forall i, j :: 0 <= i < j < |presets| ==> Outranks(presets[i], scans, presets[j].params, e))
            && forall s :: s in scans && s.config.Some? && (forall p :: p in presets ==> p.params != s.config.value) ==>
                 |presets| == limit && forall p :: p in presets ==> Outranks(p, scans, s.config.value, e)
  {
    hide SeenOf, PresetOf, SheetOf, InjectiveIds, Outranks, Ordered, Configs, Names;
    var list, presets := Ordered(SeenOf(scans), e), SheetOf(SeenOf(scans), e, limit).presets;
    SheetIs(scans, e, limit);
    forall i, j | 0 <= i < j < |presets| ensures Outranks(presets[i], scans, presets[j].params, e) {
      Ranked(scans, e, limit, i, j);
    }
    forall s | s in scans && s.config.Some? && (forall p :: p in presets ==> p.params != s.config.value)
      ensures |presets| == limit && forall p :: p in presets ==> Outranks(p, scans, s.config.value, e)
    {
      LeftOut(scans, e, limit, s.config.value);
    }
  }

  lemma {:induction false} LeftOut(scans: seq<Scan>, e: Engine, limit: nat, c: Config)
    requires InjectiveIds(e) && exists s :: s in scans && s.config == Some(c)
    requires forall p :: p in SheetOf(SeenOf(scans), e, limit).presets ==> p.params != c
    ensures |SheetOf(SeenOf(scans), e, limit).presets| == limit
    ensures forall p :: p in SheetOf(SeenOf(scans), e, limit).presets ==> Outranks(p, scans, c, e)
  {
    hide SeenOf, PresetOf, SheetOf, InjectiveIds, Outranks, Ordered, Configs, Names;
    var list, presets := Ordered(SeenOf(scans), e), SheetOf(SeenOf(scans), e, limit).presets;
    SheetIs(scans, e, limit);
    ConfigsAreScanned(scans, c);
    OrderedIs(SeenOf(scans), e, c);
    var j :| 0 <= j < |list| && list[j] == c;
    assert forall i :: 0 <= i < |presets| ==> presets[i] in presets && presets[i].params == list[i];
    forall p | p in presets ensures Outranks(p, scans, c, e) {
      var i :| 0 <= i < |presets| && presets[i] == p;
      Ranked(scans, e, limit, i, j);
    }
  }

  lemma {:induction false} OrderedIs(seen: Seen, e: Engine, c: Config)
    requires InjectiveIds(e)
    ensures c in Ordered(seen, e) <==> c in Configs(seen)
  {
    hide Before, Configs;
    BeforeIsTotal(Sizes(seen), e);
  }
}
