/** harvest_matrix_presets: the strict offset map and the renaming of dump offsets. */
module OffsetMap {
  import opened Bytes
  import opened Dictionaries
  import opened Text
  import opened Harvest

  type Mapping = map<string, string>

  // ----- load_offset_map -----

  datatype MapError = BadKey | BadName | NotInjective

  predicate Injective(m: Mapping) {
    forall k, l :: k in m && l in m && m[k] == m[l] ==> k == l
  }

  /** The items outside todo are loaded, each name owned by its only key. */
  ghost predicate Loaded(items: Mapping, mapping: Mapping, owner: map<string, string>, todo: set<string>) {
    && todo <= items.Keys && mapping.Keys == items.Keys - todo
    && (forall k :: k in mapping ==> mapping[k] == items[k] && IsDigits(k) && items[k] != "")
    && (forall k :: k in mapping ==> items[k] in owner && owner[items[k]] == k)
    && (forall n :: n in owner ==> owner[n] in mapping && items[owner[n]] == n)
  }

  lemma {:induction false} LoadTurn(items: Mapping, mapping: Mapping, owner: map<string, string>, todo: set<string>,
      key: string)
    requires Loaded(items, mapping, owner, todo) && key in todo && IsDigits(key) && items[key] != ""
    ensures items[key] in owner ==> !Injective(items)
    ensures items[key] !in owner ==>
              Loaded(items, mapping[key := items[key]], owner[items[key] := key], todo - {key})
  {
    hide IsDigits;
  }

  lemma {:induction false} LoadEnds(items: Mapping, mapping: Mapping, owner: map<string, string>)
    requires Loaded(items, mapping, owner, {})
    ensures mapping == items && Injective(items) && forall k :: k in items ==> IsDigits(k) && items[k] != ""
  {
    hide IsDigits;
    assert mapping.Keys == items.Keys;
  }

  /** The strict loader over the parsed items, in any order: digit keys, non-empty
      names, and no name twice. */
  method LoadOffsetMap(items: Mapping) returns (r: Result<Mapping, MapError>)
    ensures r.Ok? <==> (forall k :: k in items ==> IsDigits(k) && items[k] != "") && Injective(items)
    ensures r.Ok? ==> r.value == items
  {
    hide IsDigits, Injective;
    var mapping: Mapping, owner: map<string, string> := map[], map[];
    var todo := items.Keys;
    while todo != {}
      invariant todo <= items.Keys && Loaded(items, mapping, owner, todo)
      decreases |todo|
    {
      var key :| key in todo;
      var name := items[key];
      if !IsDigits(key) {
        return Err(BadKey);
      }
      if name == "" {
        return Err(BadName);
      }
      LoadTurn(items, mapping, owner, todo, key);
      if name in owner {
        return Err(NotInjective);
      }
      owner := owner[name := key];
      mapping := mapping[key := name];
      todo := todo - {key};
    }
    LoadEnds(items, mapping, owner);
    return Ok(mapping);
  }

  // ----- The renaming -----

  /** The name of an offset, or the raw key where the map has none. */
  function NewKey(k: string, m: Mapping): string {
    if k in m then m[k] else "off_" + k
  }

  /** No two keys of a set get one name. */
  ghost predicate Apart(keys: set<string>, m: Mapping) {
    forall k, l :: k in keys && l in keys && NewKey(k, m) == NewKey(l, m) ==> k == l
  }

  lemma {:induction false} RawKeysDiffer(k: string, l: string)
    ensures "off_" + k == "off_" + l ==> k == l
  {
    var a, b := "off_" + k, "off_" + l;
    assert k == a[4..] && l == b[4..];
  }

  /** The renaming keeps keys apart exactly when the map is injective on them and no
      mapped name is the raw key of an unmapped offset. */
  lemma {:induction false} ApartExactly(keys: set<string>, m: Mapping)
    ensures Apart(keys, m) <==>
            && (forall k, l :: k in keys && l in keys && k in m && l in m && m[k] == m[l] ==> k == l)
            && (forall k, l :: k in keys && l in keys && k in m && l !in m ==> m[k] != "off_" + l)
  {
    if Apart(keys, m) {
      forall k, l | k in keys && l in keys && k in m && l in m && m[k] == m[l] ensures k == l {
        assert NewKey(k, m) == NewKey(l, m);
      }
      forall k, l | k in keys && l in keys && k in m && l !in m ensures m[k] != "off_" + l {
        assert NewKey(k, m) == NewKey(l, m) ==> k == l;
      }
    } else {
      var k, l :| k in keys && l in keys && NewKey(k, m) == NewKey(l, m) && k != l;
      RawKeysDiffer(k, l);
    }
  }

  function NewKeys(keys: set<string>, m: Mapping): set<string> {
    set k | k in keys :: NewKey(k, m)
  }

  /** The key behind a new name. */
  ghost function OldKey(keys: set<string>, m: Mapping, n: string): (k: string)
    requires n in NewKeys(keys, m)
    ensures k in keys && NewKey(k, m) == n
  {
    var k :| k in keys && NewKey(k, m) == n;
    k
  }

  /** The configuration under its new names, where keys stay apart. */
  ghost function Renamed(c: Config, m: Mapping): Config
    requires Apart(c.Keys, m)
  {
    map n | n in NewKeys(c.Keys, m) :: c[OldKey(c.Keys, m, n)]
  }

  /** The renamed configuration holds every value under its new name, and nothing else. */
  lemma {:induction false} RenamedHolds(c: Config, m: Mapping)
    requires Apart(c.Keys, m)
    ensures forall k :: k in c ==> NewKey(k, m) in Renamed(c, m) && Renamed(c, m)[NewKey(k, m)] == c[k]
    ensures forall n :: n in Renamed(c, m) ==> exists k :: k in c && NewKey(k, m) == n
  {
    hide NewKey;
  }

  function NewKeyIn(m: Mapping): string -> Option<string> {
    k => Some(NewKey(k, m))
  }

  method RenameKeys(c: Config, order: seq<string>, m: Mapping) returns (named: Config)
    requires ListsOnce(order, c.Keys)
    ensures FilledInOrder(named, c, order, NewKeyIn(m))
  {
    hide FilledInOrder;
    named := map[];
    NothingFilled(c, order, NewKeyIn(m));
    for i := 0 to |order|
      invariant FilledInOrder(named, c, order[..i], NewKeyIn(m))
    {
      OneMoreKey(named, c, order, i, NewKeyIn(m));
      var key := order[i];
      assert key in order;
      named := named[if key in m then m[key] else "off_" + key := c[key]];
    }
    assert order[..|order|] == order;
  }

  /** _apply_offset_map for the engine that has one: an absent or empty map, or no
      configuration, changes nothing; otherwise the keys are renamed in dictionary order. */
  method ApplyOffsetMap(config: Option<Config>, order: seq<string>, m: Option<Mapping>) returns (r: Option<Config>)
    requires config.Some? ==> ListsOnce(order, config.value.Keys)
    ensures config.None? || m.None? || m.value == map[] ==> r == config
    ensures config.Some? && m.Some? && m.value != map[] ==>
              r.Some? && FilledInOrder(r.value, config.value, order, NewKeyIn(m.value))
    ensures config.Some? && m.Some? && Apart(config.value.Keys, m.value) ==>
              r == Some(Applied(config.value, m.value))
  {
    hide FilledInOrder, Renamed, Apart;
    if config.None? || m.None? || m.value == map[] {
      return config;
    }
    var named := RenameKeys(config.value, order, m.value);
    if Apart(config.value.Keys, m.value) {
      ApartOrder(named, config.value, order, m.value);
    }
    return Some(named);
  }

  lemma {:induction false} ApartOrder(named: Config, c: Config, order: seq<string>, m: Mapping)
    requires ListsOnce(order, c.Keys) && FilledInOrder(named, c, order, NewKeyIn(m)) && Apart(c.Keys, m)
    ensures named == Renamed(c, m)
  {
    RenamedHolds(c, m);
    hide Renamed, FilledInOrder, NewKey;
    OrderDoesNotMatter(named, c, order, NewKeyIn(m), Renamed(c, m));
  }

  /** On configurations over keys that stay apart, renaming never merges two. */
  lemma {:induction false} RenamingIsInjective(keys: set<string>, a: Config, b: Config, m: Mapping)
    requires Apart(keys, m) && a.Keys <= keys && b.Keys <= keys
    ensures Apart(a.Keys, m) && Apart(b.Keys, m)
    ensures Renamed(a, m) == Renamed(b, m) <==> a == b
  {
    hide NewKey;
    if Renamed(a, m) == Renamed(b, m) {
      Unrename(keys, a, b, m);
      Unrename(keys, b, a, m);
      assert a.Keys == b.Keys;
    }
  }

  lemma {:induction false} Unrename(keys: set<string>, a: Config, b: Config, m: Mapping)
    requires Apart(keys, m) && a.Keys <= keys && b.Keys <= keys && Apart(a.Keys, m) && Apart(b.Keys, m)
    requires Renamed(a, m) == Renamed(b, m)
    ensures forall k :: k in a ==> k in b && a[k] == b[k]
  {
    hide NewKey, Renamed;
    RenamedHolds(a, m);
    RenamedHolds(b, m);
    forall k | k in a ensures k in b && a[k] == b[k] {
      assert NewKey(k, m) in Renamed(a, m);
      var l :| l in b && NewKey(l, m) == NewKey(k, m);
      assert k in keys && l in keys;
    }
  }

  /** Where two keys get one name, two different configurations become one. */
  lemma {:induction false} CollisionsMerge(k: string, l: string, m: Mapping)
    requires k != l && NewKey(k, m) == NewKey(l, m)
    ensures var a: Config, b: Config := map[k := Some(0)], map[l := Some(0)];
            && a != b && Apart(a.Keys, m) && Apart(b.Keys, m) && Renamed(a, m) == Renamed(b, m)
  {
    hide NewKey;
    var a: Config, b: Config := map[k := Some(0)], map[l := Some(0)];
    assert k in a && k !in b;
    RenamedHolds(a, m);
    RenamedHolds(b, m);
    hide Renamed;
    forall n | n in Renamed(a, m) || n in Renamed(b, m) ensures n == NewKey(k, m) {
    }
  }

  // ----- The clusters -----

  /** What the harvest keeps of a configuration: itself under an empty map. */
  ghost function Applied(c: Config, m: Mapping): Config
    requires Apart(c.Keys, m)
  {
    if m == map[] then c else Renamed(c, m)
  }

  /** The scans after the renaming. */
  ghost function RenamedScan(s: Scan, m: Mapping): Scan
    requires s.config.Some? ==> Apart(s.config.value.Keys, m)
  {
    if s.config.None? then s else Scan(s.name, Some(Applied(s.config.value, m)))
  }

  ghost predicate Over(keys: set<string>, scans: seq<Scan>) {
    forall s :: s in scans && s.config.Some? ==> s.config.value.Keys <= keys
  }

  /** renamed is scans with every configuration renamed. */
  ghost predicate AreRenamed(renamed: seq<Scan>, scans: seq<Scan>, m: Mapping) {
    && |renamed| == |scans|
    && forall i :: 0 <= i < |scans| ==>
         && (scans[i].config.Some? ==> Apart(scans[i].config.value.Keys, m))
         && renamed[i] == RenamedScan(scans[i], m)
  }

  lemma {:induction false} AppliedIsInjective(keys: set<string>, a: Config, b: Config, m: Mapping)
    requires Apart(keys, m) && a.Keys <= keys && b.Keys <= keys
    ensures Apart(a.Keys, m) && Apart(b.Keys, m)
    ensures Applied(a, m) == Applied(b, m) <==> a == b
  {
    RenamingIsInjective(keys, a, b, m);
  }

  /** Clusters never merge: each holds the same patches under its renamed configuration. */
  lemma {:induction false} ClusterKept(keys: set<string>, scans: seq<Scan>, m: Mapping, renamed: seq<Scan>, c: Config)
    requires Apart(keys, m) && Over(keys, scans) && AreRenamed(renamed, scans, m) && c.Keys <= keys
    ensures Apart(c.Keys, m) && Names(SeenOf(renamed), Applied(c, m)) == Names(SeenOf(scans), c)
  {
    hide Applied, NewKey, Apart;
    AppliedIsInjective(keys, c, c, m);
    var a, b := SeenOf(scans), SeenOf(renamed);
    forall n | n in Names(a, c) ensures n in Names(b, Applied(c, m)) {
      var s :| s in scans && s.config == Some(c) && s.name == n;
      var i :| 0 <= i < |scans| && scans[i] == s;
      assert renamed[i] in renamed;
      assert (n, Applied(c, m)) in b;
    }
    forall n | n in Names(b, Applied(c, m)) ensures n in Names(a, c) {
      var s :| s in renamed && s.config == Some(Applied(c, m)) && s.name == n;
      var i :| 0 <= i < |renamed| && renamed[i] == s;
      assert scans[i] in scans;
      AppliedIsInjective(keys, scans[i].config.value, c, m);
      assert (n, c) in a;
    }
  }

  /** Every pair seen after the renaming is one seen before, renamed. */
  lemma {:induction false} PairComesFrom(scans: seq<Scan>, m: Mapping, renamed: seq<Scan>, p: (string, Config))
    requires AreRenamed(renamed, scans, m) && p in SeenOf(renamed)
    ensures exists q :: q in SeenOf(scans) && q.0 == p.0 && Apart(q.1.Keys, m) && Applied(q.1, m) == p.1
  {
    hide Applied, Apart;
    var s :| s in renamed && s.config.Some? && (s.name, s.config.value) == p;
    var i :| 0 <= i < |renamed| && renamed[i] == s;
    assert scans[i] in scans;
    assert (scans[i].name, scans[i].config.value) in SeenOf(scans);
  }

  ghost function AppliedPair(p: (string, Config), m: Mapping): (string, Config) {
    if Apart(p.1.Keys, m) then (p.0, Applied(p.1, m)) else p
  }

  lemma {:induction false} ImageSize<A(!new), B>(s: set<A>, t: set<B>, f: A ~> B)
    requires forall x :: x in s ==> f.requires(x) && f.reads(x) == {} && f(x) in t
    requires forall x, y :: x in s && y in s && f(x) == f(y) ==> x == y
    requires forall y :: y in t ==> exists x :: x in s && f(x) == y
    ensures |s| == |t|
    decreases |s|
  {
    if s == {} {
      assert t == {};
    } else {
      var x :| x in s;
      ImageSize(s - {x}, t - {f(x)}, f);
    }
  }

  /** No two pairs fall together. */
  lemma {:induction false} PairsKept(keys: set<string>, scans: seq<Scan>, m: Mapping, renamed: seq<Scan>)
    requires Apart(keys, m) && Over(keys, scans) && AreRenamed(renamed, scans, m)
    ensures |SeenOf(renamed)| == |SeenOf(scans)|
  {
    hide Applied, NewKey, Apart;
    var f := (p: (string, Config)) => AppliedPair(p, m);
    var a, b := SeenOf(scans), SeenOf(renamed);
    forall p | p in a ensures p.1.Keys <= keys && f(p) in b {
      var i :| 0 <= i < |scans| && scans[i].config.Some? && (scans[i].name, scans[i].config.value) == p;
      assert renamed[i] in renamed && scans[i] in scans;
      AppliedIsInjective(keys, p.1, p.1, m);
    }
    forall p, q | p in a && q in a && f(p) == f(q) ensures p == q {
      AppliedIsInjective(keys, p.1, q.1, m);
    }
    forall p | p in b ensures exists q :: q in a && f(q) == p {
      PairComesFrom(scans, m, renamed, p);
      var q :| q in a && q.0 == p.0 && Apart(q.1.Keys, m) && Applied(q.1, m) == p.1;
      assert f(q) == p;
    }
    ImageSize(a, b, f);
  }

  /** Clusters never merge or split: each holds the same patches under its renamed
      configuration, every cluster after the renaming comes from one before, and the
      sheet counts as many patches. */
  lemma {:induction false} ClustersSurvive(keys: set<string>, scans: seq<Scan>, m: Mapping, renamed: seq<Scan>)
    requires Apart(keys, m) && Over(keys, scans) && AreRenamed(renamed, scans, m)
    ensures forall c: Config :: c.Keys <= keys ==>
              Apart(c.Keys, m) && Names(SeenOf(renamed), Applied(c, m)) == Names(SeenOf(scans), c)
    ensures forall d :: d in Configs(SeenOf(renamed)) ==>
              exists c :: c in Configs(SeenOf(scans)) && Apart(c.Keys, m) && Applied(c, m) == d
    ensures |SeenOf(renamed)| == |SeenOf(scans)|
  {
    hide Applied, Apart, AreRenamed, Over, SeenOf, Names;
    forall c: Config | c.Keys <= keys
      ensures Apart(c.Keys, m) && Names(SeenOf(renamed), Applied(c, m)) == Names(SeenOf(scans), c)
    {
      ClusterKept(keys, scans, m, renamed, c);
    }
    forall d | d in Configs(SeenOf(renamed))
      ensures exists c :: c in Configs(SeenOf(scans)) && Apart(c.Keys, m) && Applied(c, m) == d
    {
      var p :| p in SeenOf(renamed) && p.1 == d;
      PairComesFrom(scans, m, renamed, p);
      var q :| q in SeenOf(scans) && q.0 == p.0 && Apart(q.1.Keys, m) && Applied(q.1, m) == p.1;
      assert q.1 in Configs(SeenOf(scans));
    }
    PairsKept(keys, scans, m, renamed);
  }

  // ----- Strictly loaded maps -----

  /** No name of the map is the raw key of an offset it lacks. */
  predicate NoRawNames(keys: set<string>, m: Mapping) {
    forall k, l :: k in keys && l in keys && k in m && l !in m ==> m[k] != "off_" + l
  }

  ghost predicate SameRenamed(a: Config, b: Config, m: Mapping) {
    Apart(a.Keys, m) && Apart(b.Keys, m) && Renamed(a, m) == Renamed(b, m)
  }

  /** Different configurations over the keys stay different. */
  ghost predicate KeepsConfigs(keys: set<string>, m: Mapping) {
    forall a: Config, b: Config :: a.Keys <= keys && b.Keys <= keys && SameRenamed(a, b, m) ==> a == b
  }

  /** The loader refuses a name twice, so for the maps it accepts exactly one thing can
      merge clusters: a name that is the raw key of an unmapped offset in use. */
  lemma {:induction false} LoadedMapsKeepApart(keys: set<string>, m: Mapping)
    requires Injective(m)
    ensures KeepsConfigs(keys, m) <==> NoRawNames(keys, m)
    ensures NoRawNames(keys, m) <==> Apart(keys, m)
  {
    ApartExactly(keys, m);
    if Apart(keys, m) {
      ApartKeeps(keys, m);
    } else {
      hide Renamed, Injective, NoRawNames;
      var k, l :| k in keys && l in keys && NewKey(k, m) == NewKey(l, m) && k != l;
      Collides(keys, k, l, m);
    }
  }

  lemma {:induction false} Collides(keys: set<string>, k: string, l: string, m: Mapping)
    requires k in keys && l in keys && k != l && NewKey(k, m) == NewKey(l, m)
    ensures !KeepsConfigs(keys, m)
  {
    hide Renamed, NewKey;
    CollisionsMerge(k, l, m);
    var a: Config, b: Config := map[k := Some(0)], map[l := Some(0)];
    assert a.Keys == {k} && b.Keys == {l};
    hide Apart;
    assert a.Keys <= keys && b.Keys <= keys && SameRenamed(a, b, m);
  }

  lemma {:induction false} ApartKeeps(keys: set<string>, m: Mapping)
    requires Apart(keys, m)
    ensures KeepsConfigs(keys, m)
  {
    hide Renamed, Apart;
    forall a: Config, b: Config | a.Keys <= keys && b.Keys <= keys && SameRenamed(a, b, m) ensures a == b {
      RenamingIsInjective(keys, a, b, m);
    }
  }

  /** So under a strictly loaded map without such a name every cluster survives. */
  lemma {:induction false} LoadedMapsKeepClusters(keys: set<string>, scans: seq<Scan>, m: Mapping, renamed: seq<Scan>)
    requires Injective(m) && NoRawNames(keys, m) && Over(keys, scans) && AreRenamed(renamed, scans, m)
    ensures |SeenOf(renamed)| == |SeenOf(scans)|
    ensures forall c: Config :: c.Keys <= keys ==>
              Apart(c.Keys, m) && Names(SeenOf(renamed), Applied(c, m)) == Names(SeenOf(scans), c)
  {
    LoadedMapsKeepApart(keys, m);
    hide *;
    ClustersSurvive(keys, scans, m, renamed);
  }
}
