/** harvest_matrix_presets.harvest_engine: deduplicated patches clustered by their
    configuration, ordered, named and cut to a sheet. */
module Harvest {
  import opened Bytes
  import opened Dictionaries
  import opened Ordering
  import opened Text

  /** A quantized tuple: a value per key, None where the patch carries none. */
  type Config = map<string, Option<int>>

  datatype Scan = Scan(name: string, config: Option<Config>)

  type Seen = set<(string, Config)>

  /** The pairs left after deduplication. */
  function SeenOf(scans: seq<Scan>): Seen {
    set s | s in scans && s.config.Some? :: (s.name, s.config.value)
  }

  function Configs(seen: Seen): set<Config> {
    set p | p in seen :: p.1
  }

  /** The patches that carry a configuration. */
  function Names(seen: Seen, c: Config): set<string> {
    set p | p in seen && p.1 == c :: p.0
  }

  // ----- The order of the clusters -----

  /** What harvest_engine takes from the engine: ids and descriptions. */
  datatype Engine = Engine(id: (string, Config) -> string, describe: Config -> (string, string))

  /** The hash tells configurations apart. */
  ghost predicate InjectiveIds(e: Engine) {
    forall a: Config, b: Config :: e.id("", a) == e.id("", b) ==> a == b
  }

  function SizeIn(sizes: map<Config, nat>, c: Config): nat {
    if c in sizes then sizes[c] else 0
  }

  /** Larger clusters first, then by id. */
  function Before(sizes: map<Config, nat>, e: Engine): (Config, Config) -> bool {
    (a, b) => SizeIn(sizes, a) > SizeIn(sizes, b)
              || (SizeIn(sizes, a) == SizeIn(sizes, b) && StringLe(e.id("", a), e.id("", b)))
  }

  lemma {:induction false} BeforeIsTotal(sizes: map<Config, nat>, e: Engine)
    requires InjectiveIds(e)
    ensures TotalOrder(Before(sizes, e))
  {
    StringsAreOrdered();
    hide StringLe, SizeIn;
  }

  ghost function Sizes(seen: Seen): map<Config, nat> {
    map c | c in Configs(seen) :: |Names(seen, c)|
  }

  ghost function Ordered(seen: Seen, e: Engine): seq<Config>
    requires InjectiveIds(e)
  {
    BeforeIsTotal(Sizes(seen), e);
    Listed(Configs(seen), Before(Sizes(seen), e))
  }

  // ----- The sheet -----

  datatype Preset = Preset(id: string, name: string, role: string, params: Config, examples: seq<string>, size: nat)

  datatype Sheet = Sheet(patchCount: nat, presets: seq<Preset>)

  /** How many of the clusters describe themselves by this name. */
  function Earlier(list: seq<Config>, e: Engine, base: string): nat {
    if list == [] then 0
    else Earlier(list[..|list| - 1], e, base) + if e.describe(list[|list| - 1]).1 == base then 1 else 0
  }

  /** The n-th cluster of one name is "name (n)". */
  function Numbered(base: string, earlier: nat): string {
    if earlier == 0 then base else base + " (" + Decimal(earlier + 1) + ")"
  }

  ghost function PresetOf(list: seq<Config>, seen: Seen, e: Engine): Preset
    requires list != []
  {
    StringsAreOrdered();
    var n := |list| - 1;
    var (role, base) := e.describe(list[n]);
    Preset(e.id(role, list[n]), Numbered(base, Earlier(list[..n], e, base)), role, list[n],
           Slice(Listed(Names(seen, list[n]), StringLe), 0, 5), |Names(seen, list[n])|)
  }

  ghost function Presets(list: seq<Config>, seen: Seen, e: Engine): seq<Preset> {
    if list == [] then [] else Presets(list[..|list| - 1], seen, e) + [PresetOf(list, seen, e)]
  }

  /** The sheet as a function of the deduplicated pairs alone. */
  ghost function SheetOf(seen: Seen, e: Engine, limit: nat): Sheet
    requires InjectiveIds(e)
  {
    Sheet(|seen|, Presets(Slice(Ordered(seen, e), 0, limit), seen, e))
  }

  // ----- The loops -----

  lemma {:induction false} OnceLength(r: seq<string>, s: set<string>)
    requires ListsOnce(r, s)
    ensures |r| == |s|
    decreases |r|
  {
    if r == [] {
      assert s == {};
    } else {
      assert r == [r[0]] + r[1..];
      OnceLength(r[1..], s - {r[0]});
    }
  }

  lemma {:induction false} OnceSorted(r: seq<string>, s: set<string>)
    requires ListsOnce(r, s)
    ensures TotalOrder(StringLe) && Sort(r, StringLe) == Listed(s, StringLe)
  {
    StringsAreOrdered();
    var l := Listed(s, StringLe);
    hide Sort, StringLe;
    SortAscends(r, StringLe);
    ListsMultiset(l, s, StringLe);
    forall x ensures multiset(r)[x] == multiset(l)[x] {
      CountOnce(r, x);
    }
    assert multiset(Sort(r, StringLe)) == multiset(l);
    AscendingUnique(Sort(r, StringLe), l, StringLe);
  }

  /** The clusters hold, for every configuration seen, its patches once each. */
  ghost predicate Clusters(configs: map<Config, seq<string>>, seen: Seen) {
    configs.Keys == Configs(seen) && forall c :: c in configs ==> ListsOnce(configs[c], Names(seen, c))
  }

  lemma {:induction false} ClusterTurn(configs: map<Config, seq<string>>, seen: Seen, name: string, c: Config)
    requires Clusters(configs, seen) && (name, c) !in seen
    ensures Clusters(configs[c := (if c in configs then configs[c] else []) + [name]], seen + {(name, c)})
  {
    hide Names, Configs;
    var now := seen + {(name, c)};
    var before := if c in configs then configs[c] else [];
    ConfigsGrow(seen, name, c);
    NoNames(seen, c);
    NamesGrow(seen, name, c, c);
    OnceMore(before, Names(seen, c), name);
    forall d | d in configs && d != c ensures Names(now, d) == Names(seen, d) {
      NamesGrow(seen, name, c, d);
    }
  }

  lemma {:induction false} ConfigsGrow(seen: Seen, name: string, c: Config)
    ensures Configs(seen + {(name, c)}) == Configs(seen) + {c}
    ensures (name, c) !in seen ==> name !in Names(seen, c)
  {
    assert (name, c) in seen + {(name, c)};
    forall d | d in Configs(seen) ensures d in Configs(seen + {(name, c)}) {
      var p :| p in seen && p.1 == d;
      assert p in seen + {(name, c)};
    }
  }

  lemma {:induction false} NoNames(seen: Seen, c: Config)
    ensures c !in Configs(seen) ==> Names(seen, c) == {}
  {
  }

  lemma {:induction false} OnceMore(r: seq<string>, s: set<string>, x: string)
    requires ListsOnce(r, s) && x !in s
    ensures ListsOnce(r + [x], s + {x})
  {
  }

  lemma {:induction false} NamesGrow(seen: Seen, name: string, c: Config, d: Config)
    ensures Names(seen + {(name, c)}, d) == if d == c then Names(seen, c) + {name} else Names(seen, d)
  {
    if d == c {
      assert (name, c) in seen + {(name, c)};
    }
  }

  method Cluster(scans: seq<Scan>) returns (configs: map<Config, seq<string>>, seen: Seen)
    ensures seen == SeenOf(scans) && Clusters(configs, seen)
  {
    hide Clusters;
    configs, seen := map[], {};
    assert Clusters(configs, seen) by {
      NoClusters();
    }
    for i := 0 to |scans|
      invariant seen == SeenOf(scans[..i]) && Clusters(configs, seen)
    {
      var s := scans[i];
      SeenTurn(scans, i);
      if s.config.None? {
        continue;
      }
      var key := s.config.value;
      if (s.name, key) in seen {
        assert seen + {(s.name, key)} == seen;
        continue;
      }
      ClusterTurn(configs, seen, s.name, key);
      seen := seen + {(s.name, key)};
      configs := configs[key := (if key in configs then configs[key] else []) + [s.name]];
    }
    assert scans[..|scans|] == scans;
  }

  lemma {:induction false} NoClusters()
    ensures Clusters(map[], {})
  {
  }

  lemma {:induction false} SeenTurn(scans: seq<Scan>, i: nat)
    requires i < |scans|
    ensures SeenOf(scans[..i + 1]) ==
            SeenOf(scans[..i]) + if scans[i].config.Some? then {(scans[i].name, scans[i].config.value)} else {}
  {
    assert scans[..i + 1] == scans[..i] + [scans[i]];
  }

  method HarvestEngine(scans: seq<Scan>, e: Engine, limit: nat) returns (r: Sheet)
    requires InjectiveIds(e)
    ensures r == SheetOf(SeenOf(scans), e, limit)
  {
    hide Clusters, InjectiveIds, Before, Presets, Sizes, TotalOrder, Lists;
    var configs, seen := Cluster(scans);
    var sizes := map c | c in configs :: |configs[c]|;
    ClusterSizes(configs, seen);
    BeforeIsTotal(sizes, e);
    var ordered := SortedList(configs.Keys, Before(sizes, e));
    var presets := NamePresets(Slice(ordered, 0, limit), configs, seen, e);
    return Sheet(|seen|, presets);
  }

  lemma {:induction false} ClusterSizes(configs: map<Config, seq<string>>, seen: Seen)
    requires Clusters(configs, seen)
    ensures configs.Keys == Configs(seen) && Sizes(seen) == map c | c in configs :: |configs[c]|
  {
    forall c | c in configs ensures |configs[c]| == |Names(seen, c)| {
      OnceLength(configs[c], Names(seen, c));
    }
  }

  /** used_names counts the presets named so far. */
  ghost predicate Counts(used: map<string, nat>, list: seq<Config>, e: Engine) {
    forall base :: (if base in used then used[base] else 0) == Earlier(list, e, base)
  }

  lemma {:induction false} CountTurn(used: map<string, nat>, list: seq<Config>, e: Engine, c: Config)
    requires Counts(used, list, e)
    ensures var base := e.describe(c).1;
            && (if base in used then used[base] else 0) == Earlier(list, e, base)
            && Counts(used[base := Earlier(list, e, base) + 1], list + [c], e)
  {
    assert (list + [c])[..|list|] == list;
  }

  method NamePresets(list: seq<Config>, configs: map<Config, seq<string>>, ghost seen: Seen,
      e: Engine) returns (presets: seq<Preset>)
    requires Clusters(configs, seen) && forall c :: c in list ==> c in configs
    ensures presets == Presets(list, seen, e)
  {
    hide Clusters, Sort, StringLe, Counts, Listed, Names;
    StringsAreOrdered();
    presets := [];
    var used: map<string, nat> := map[];
    assert Counts(used, list[..0], e) by {
      NoCounts(list, e);
    }
    for i := 0 to |list|
      invariant presets == Presets(list[..i], seen, e) && Counts(used, list[..i], e)
    {
      var key := list[i];
      assert list[..i + 1][..i] == list[..i] && list[..i + 1] == list[..i] + [key];
      ClusterOf(configs, seen, key);
      CountTurn(used, list[..i], e, key);
      var (role, base) := e.describe(key);
      var n := if base in used then used[base] else 0;
      used := used[base := n + 1];
      var name := if n > 0 then base + " (" + Decimal(n + 1) + ")" else base;
      var examples := Slice(Sort(configs[key], StringLe), 0, 5);
      presets := presets + [Preset(e.id(role, key), name, role, key, examples, |configs[key]|)];
    }
    assert list[..|list|] == list;
  }

  lemma {:induction false} NoCounts(list: seq<Config>, e: Engine)
    ensures Counts(map[], list[..0], e)
  {
  }

  lemma {:induction false} ClusterOf(configs: map<Config, seq<string>>, seen: Seen, c: Config)
    requires Clusters(configs, seen) && c in configs
    ensures TotalOrder(StringLe)
    ensures Sort(configs[c], StringLe) == Listed(Names(seen, c), StringLe) && |configs[c]| == |Names(seen, c)|
  {
    OnceSorted(configs[c], Names(seen, c));
    OnceLength(configs[c], Names(seen, c));
  }

  // ----- What the sheet depends on -----

  /** Permuting, repeating or regrouping the patches scanned leaves the sheet as it
      was: only the set of (name, configuration) pairs counts. */
  lemma {:induction false} OrderIsForgotten(scans: seq<Scan>, other: seq<Scan>, e: Engine, limit: nat)
    requires InjectiveIds(e) && forall s: Scan :: s.config.Some? ==> (s in scans <==> s in other)
    ensures SheetOf(SeenOf(scans), e, limit) == SheetOf(SeenOf(other), e, limit)
  {
    forall p | p in SeenOf(scans) ensures p in SeenOf(other) {
      assert Scan(p.0, Some(p.1)) in other;
    }
    forall p | p in SeenOf(other) ensures p in SeenOf(scans) {
      assert Scan(p.0, Some(p.1)) in scans;
    }
    assert SeenOf(scans) == SeenOf(other);
  }

  // ----- Conservation -----

  function TotalSize(list: seq<Config>, seen: Seen): nat {
    if list == [] then 0 else TotalSize(list[..|list| - 1], seen) + |Names(seen, list[|list| - 1])|
  }

  function Covered(seen: Seen, list: seq<Config>): Seen {
    set p | p in seen && p.1 in list
  }

  function PairsWith(seen: Seen, c: Config): Seen {
    set p | p in seen && p.1 == c
  }

  /** The names of a configuration are as many as its pairs. */
  lemma {:induction false} PairsAreNames(seen: Seen, c: Config)
    ensures |PairsWith(seen, c)| == |Names(seen, c)|
    decreases |seen|
  {
    hide Names, Configs, PairsWith;
    if seen == {} {
      NothingSeen(c);
    } else {
      var p :| p in seen;
      var rest := seen - {p};
      PairsAreNames(rest, c);
      assert rest + {(p.0, p.1)} == seen;
      NamesGrow(rest, p.0, p.1, c);
      ConfigsGrow(rest, p.0, p.1);
      PairsGrow(rest, p, c);
    }
  }

  lemma {:induction false} NothingSeen(c: Config)
    ensures PairsWith({}, c) == {} && Names({}, c) == {}
  {
  }

  lemma {:induction false} PairsGrow(seen: Seen, p: (string, Config), c: Config)
    requires p !in seen
    ensures PairsWith(seen + {p}, c) == if p.1 == c then PairsWith(seen, c) + {p} else PairsWith(seen, c)
    ensures p !in PairsWith(seen, c)
  {
  }

  lemma {:induction false} TotalIsCovered(list: seq<Config>, seen: Seen)
    requires forall i, j :: 0 <= i < j < |list| ==> list[i] != list[j]
    ensures TotalSize(list, seen) == |Covered(seen, list)|
    decreases |list|
  {
    if list == [] {
      assert Covered(seen, list) == {};
    } else {
      var n := |list| - 1;
      assert list == list[..n] + [list[n]];
      TotalIsCovered(list[..n], seen);
      PairsAreNames(seen, list[n]);
      assert Covered(seen, list) == Covered(seen, list[..n]) + PairsWith(seen, list[n]);
      assert Covered(seen, list[..n]) !! PairsWith(seen, list[n]);
    }
  }

  lemma {:induction false} SizesSum(seen: Seen, e: Engine)
    requires InjectiveIds(e)
    ensures TotalSize(Ordered(seen, e), seen) == |seen|
  {
    hide Names, StringLe, Before, TotalSize;
    var list := Ordered(seen, e);
    BeforeIsTotal(Sizes(seen), e);
    TotalIsCovered(list, seen);
    AllCovered(seen, list);
  }

  lemma {:induction false} LargerFirst(seen: Seen, e: Engine, i: nat, j: nat)
    requires InjectiveIds(e) && i < j < |Ordered(seen, e)|
    ensures 0 < |Names(seen, Ordered(seen, e)[j])| <= |Names(seen, Ordered(seen, e)[i])|
  {
    hide Names, StringLe;
    var list := Ordered(seen, e);
    BeforeIsTotal(Sizes(seen), e);
    assert list[i] in list && list[j] in list;
    assert Before(Sizes(seen), e)(list[i], list[j]);
    assert SizeIn(Sizes(seen), list[i]) == |Names(seen, list[i])|;
    assert SizeIn(Sizes(seen), list[j]) == |Names(seen, list[j])|;
    NamesThere(seen, list[j]);
  }

  lemma {:induction false} KeptAre(seen: Seen, e: Engine, limit: nat, i: nat)
    requires InjectiveIds(e) && i < Min(limit, |Ordered(seen, e)|)
    ensures |SheetOf(seen, e, limit).presets| == Min(limit, |Ordered(seen, e)|)
    ensures var preset, c := SheetOf(seen, e, limit).presets[i], Ordered(seen, e)[i];
            preset.params == c && preset.size == |Names(seen, c)|
  {
    hide Presets, Names, StringLe, Before, Ordered, Earlier;
    var kept := Slice(Ordered(seen, e), 0, limit);
    PresetsAre(kept, seen, e);
    PresetHolds(kept[..i + 1], seen, e);
    hide PresetOf;
    assert |kept[..i + 1]| - 1 == i && kept[..i + 1][i] == Ordered(seen, e)[i];
    assert SheetOf(seen, e, limit).presets[i] == PresetOf(kept[..i + 1], seen, e);
  }

  lemma {:induction false} PresetHolds(list: seq<Config>, seen: Seen, e: Engine)
    requires list != []
    ensures var preset, c := PresetOf(list, seen, e), list[|list| - 1];
            preset.params == c && preset.size == |Names(seen, c)|
  {
    hide Names, Earlier;
  }

  /** Over all clusters the sizes sum to patchCount; the kept ones carry their size
      as evidence, and no dropped cluster is larger than a kept one. */
  lemma {:induction false} SizesAreConserved(seen: Seen, e: Engine, limit: nat)
    requires InjectiveIds(e)
    ensures var list, sheet := Ordered(seen, e), SheetOf(seen, e, limit);
            && TotalSize(list, seen) == sheet.patchCount
            && |sheet.presets| == Min(limit, |list|)
            && (forall i :: 0 <= i < |sheet.presets| ==>
                  sheet.presets[i].params == list[i] && sheet.presets[i].size == |Names(seen, list[i])|)
            && (forall i, j :: 0 <= i < |sheet.presets| <= j < |list| ==>
                  |Names(seen, list[j])| <= |Names(seen, list[i])|)
  {
    hide Names, Ordered, Before, InjectiveIds, TotalSize, Presets;
    var list, presets := Ordered(seen, e), SheetOf(seen, e, limit).presets;
    SizesSum(seen, e);
    PresetsAre(Slice(list, 0, limit), seen, e);
    forall i | 0 <= i < |presets| ensures presets[i].params == list[i] && presets[i].size == |Names(seen, list[i])| {
      KeptAre(seen, e, limit, i);
    }
    forall i, j | 0 <= i < |presets| <= j < |list| ensures |Names(seen, list[j])| <= |Names(seen, list[i])| {
      LargerFirst(seen, e, i, j);
    }
  }

  lemma {:induction false} NamesThere(seen: Seen, c: Config)
    requires c in Configs(seen)
    ensures |Names(seen, c)| > 0
  {
    var p :| p in seen && p.1 == c;
    assert p.0 in Names(seen, c);
  }

  lemma {:induction false} AllCovered(seen: Seen, list: seq<Config>)
    requires forall c :: c in Configs(seen) ==> c in list
    ensures Covered(seen, list) == seen
  {
    forall p | p in seen ensures p.1 in list {
      assert p.1 in Configs(seen);
    }
  }

  lemma {:induction false} PresetsAre(list: seq<Config>, seen: Seen, e: Engine)
    ensures |Presets(list, seen, e)| == |list|
    ensures forall i :: 0 <= i < |list| ==> Presets(list, seen, e)[i] == PresetOf(list[..i + 1], seen, e)
    decreases |list|
  {
    hide PresetOf;
    if list != [] {
      var n := |list| - 1;
      PresetsAre(list[..n], seen, e);
      assert list[..n + 1] == list;
      forall i | 0 <= i < n ensures Presets(list, seen, e)[i] == PresetOf(list[..i + 1], seen, e) {
        assert list[..n][..i + 1] == list[..i + 1];
      }
    }
  }

  // ----- Names -----

  lemma {:induction false} Inside(base: string, d: string)
    ensures var s := base + " (" + d + ")"; |s| == |base| + |d| + 3 && s[|base| + 2..|s| - 1] == d
  {
    var head := base + " (";
    assert (head + d)[|head|..] == d;
    assert (head + d + ")")[..|head + d|] == head + d;
    SliceOfSlice(head + d + ")", 0, |head + d|, |head|, |head + d|);
  }

  lemma {:induction false} NumberedDiffer(base: string, a: nat, b: nat)
    requires a < b
    ensures Numbered(base, a) != Numbered(base, b)
  {
    Inside(base, Decimal(a + 1));
    Inside(base, Decimal(b + 1));
    NumberOfDecimal(a + 1);
    NumberOfDecimal(b + 1);
    hide Decimal, Number;
  }

  lemma {:induction false} EarlierGrows(list: seq<Config>, e: Engine, i: nat, j: nat, base: string)
    requires i < j <= |list| && e.describe(list[i]).1 == base
    ensures Earlier(list[..i], e, base) < Earlier(list[..j], e, base)
    decreases j
  {
    assert list[..j][..j - 1] == list[..j - 1];
    if i + 1 < j {
      EarlierGrows(list, e, i, j - 1, base);
    }
  }

  /** Clusters that describe themselves alike still get different names. */
  lemma {:induction false} SameDescriptionsAreNumbered(list: seq<Config>, seen: Seen, e: Engine, i: nat, j: nat)
    requires i < j < |list| && e.describe(list[i]).1 == e.describe(list[j]).1
    ensures |Presets(list, seen, e)| == |list| && Presets(list, seen, e)[i].name != Presets(list, seen, e)[j].name
  {
    hide Presets, Numbered, Earlier, Names;
    PresetsAre(list, seen, e);
    var base := e.describe(list[i]).1;
    assert list[..i + 1][..i] == list[..i] && list[..j + 1][..j] == list[..j];
    EarlierGrows(list, e, i, j, base);
    NumberedDiffer(base, Earlier(list[..i], e, base), Earlier(list[..j], e, base));
  }
}
