/** xenia_dump: byte-verified parents and the injectable steps of a morph chain. */
module XeniaMorphs {
  import opened Bytes
  import opened Ordering
  import opened XeniaDump
  import opened XeniaBank
  import M = Morph

  type Offsets = map<string, int>

  /** load_offset_map: one offset per name, inside the parameter and name area. */
  ghost predicate ValidOffsets(offsets: Offsets) {
    && (forall n :: n in offsets ==> 7 <= offsets[n] <= 262)
    && (forall a, b :: a in offsets && b in offsets && offsets[a] == offsets[b] ==> a == b)
  }

  /** _named_values: the non-null values of the mapped names, rounded. */
  function Named(params: map<string, M.Value>, offsets: Offsets): map<string, int> {
    map n | n in params && !params[n].Null? && n in offsets :: params[n].Rounded()
  }

  // ----- Matching -----

  predicate MatchesAt(dump: bytes, offsets: Offsets, shift: int, name: string, value: int) {
    && 0 <= value <= 127 && name in offsets
    && 7 <= offsets[name] + shift <= 262 && |dump| == DUMP_LEN && dump[offsets[name] + shift] == value
  }

  predicate FullMatch(dump: bytes, named: map<string, int>, offsets: Offsets, shift: int) {
    forall n :: n in named ==> MatchesAt(dump, offsets, shift, n, named[n])
  }

  ghost function Matched(dump: bytes, named: map<string, int>, offsets: Offsets, shift: int): set<string> {
    set n | n in named && MatchesAt(dump, offsets, shift, n, named[n])
  }

  /** _matches: how many named values stand in the dump. */
  method CountMatches(dump: bytes, named: map<string, int>, offsets: Offsets, shift: int) returns (ok: nat)
    requires |dump| == DUMP_LEN && named.Keys <= offsets.Keys
    ensures ok == |Matched(dump, named, offsets, shift)|
    ensures ok == |named| <==> FullMatch(dump, named, offsets, shift)
  {
    hide Matched, MatchesAt, FullMatch;
    ok := 0;
    var todo := named.Keys;
    ghost var hits: set<string> := {};
    AllMatched(dump, named, offsets, shift);
    while todo != {}
      invariant todo <= named.Keys
      invariant hits == Matched(dump, named, offsets, shift) - todo && ok == |hits|
      decreases |todo|
    {
      var name :| name in todo;
      MatchTurn(dump, named, offsets, shift, todo, name);
      todo := todo - {name};
      var value, pos := named[name], offsets[name] + shift;
      if 0 <= value <= 127 && 7 <= pos <= 262 && dump[pos] == value {
        ok := ok + 1;
        hits := hits + {name};
      }
    }
  }

  lemma {:induction false} MatchTurn(dump: bytes, named: map<string, int>, offsets: Offsets, shift: int,
      todo: set<string>, name: string)
    requires name in todo && todo <= named.Keys <= offsets.Keys && |dump| == DUMP_LEN
    ensures var value, pos, all := named[name], offsets[name] + shift, Matched(dump, named, offsets, shift);
            all - (todo - {name}) ==
            if 0 <= value <= 127 && 7 <= pos <= 262 && dump[pos] == value then all - todo + {name} else all - todo
    ensures name !in Matched(dump, named, offsets, shift) - todo
  {
  }

  lemma {:induction false} AllMatched(dump: bytes, named: map<string, int>, offsets: Offsets, shift: int)
    ensures |Matched(dump, named, offsets, shift)| == |named| <==> FullMatch(dump, named, offsets, shift)
    ensures Matched(dump, named, offsets, shift) <= named.Keys
  {
    var hits := Matched(dump, named, offsets, shift);
    assert |named.Keys| == |named|;
    SubsetSize(hits, named.Keys);
    assert hits == named.Keys <==> FullMatch(dump, named, offsets, shift);
  }

  lemma {:induction false} SubsetSize(a: set<string>, b: set<string>)
    requires a <= b
    ensures |a| == |b| <==> a == b
  {
    assert b == a + (b - a) && |b| == |a| + |b - a|;
  }

  // ----- resolve_parent_dump -----

  datatype How = Verified | VocabShifted

  datatype Parent = Parent(row: Row, how: How)

  datatype ResolveError = TooFewNames | LoadFailed | NoParent

  predicate VerifiedBy(row: Row, named: map<string, int>, offsets: Offsets, examples: set<string>) {
    row.name in examples && FullMatch(row.dump, named, offsets, 0)
  }

  /** The off-by-two labelling only happens in sysex banks. */
  predicate ShiftedBy(row: Row, named: map<string, int>, offsets: Offsets, examples: set<string>) {
    row.name in examples && row.container == Mid && FullMatch(row.dump, named, offsets, -2)
  }

  ghost function FirstRow(rows: seq<Row>, p: Row -> bool): Option<Row> {
    if rows == [] then None else if p(rows[0]) then Some(rows[0]) else FirstRow(rows[1..], p)
  }

  lemma {:induction false} FirstRowIs(rows: seq<Row>, p: Row -> bool)
    ensures match FirstRow(rows, p)
            case None => forall i :: 0 <= i < |rows| ==> !p(rows[i])
            case Some(row) => exists i :: 0 <= i < |rows| && rows[i] == row && p(row)
                                         && forall j :: 0 <= j < i ==> !p(rows[j])
    decreases |rows|
  {
    if rows != [] && !p(rows[0]) {
      FirstRowIs(rows[1..], p);
      forall i | 0 < i < |rows| ensures rows[i] == rows[1..][i - 1] {
      }
      if FirstRow(rows[1..], p).Some? {
        var k :| 0 <= k < |rows[1..]| && rows[1..][k] == FirstRow(rows[1..], p).value
                 && p(rows[1..][k]) && forall j :: 0 <= j < k ==> !p(rows[1..][j]);
        assert rows[k + 1] == FirstRow(rows, p).value;
      }
    }
  }

  lemma {:induction false} FirstRowAppend(a: seq<Row>, b: seq<Row>, p: Row -> bool)
    ensures FirstRow(a + b, p) == if FirstRow(a, p).Some? then FirstRow(a, p) else FirstRow(b, p)
    decreases |a|
  {
    if a == [] {
      assert a + b == b;
    } else {
      assert (a + b)[1..] == a[1..] + b;
      FirstRowAppend(a[1..], b, p);
    }
  }

  datatype Query = Query(named: map<string, int>, offsets: Offsets, examples: set<string>)

  function IsVerified(q: Query): Row -> bool {
    row => VerifiedBy(row, q.named, q.offsets, q.examples)
  }

  function IsShifted(q: Query): Row -> bool {
    row => ShiftedBy(row, q.named, q.offsets, q.examples)
  }

  /** The search over the bank files in order; a file that does not load stops it. */
  ghost function Search(q: Query, banks: seq<Option<seq<Row>>>, fallback: Option<Row>): Result<Parent, ResolveError> {
    if banks == [] then
      if fallback.Some? then Ok(Parent(fallback.value, VocabShifted)) else Err(NoParent)
    else if banks[0].None? then Err(LoadFailed)
    else
      var v := FirstRow(banks[0].value, IsVerified(q));
      if v.Some? then Ok(Parent(v.value, Verified))
      else Search(q, banks[1..], if fallback.Some? then fallback else FirstRow(banks[0].value, IsShifted(q)))
  }

  ghost function Resolution(q: Query, banks: seq<Option<seq<Row>>>): Result<Parent, ResolveError> {
    if |q.named| < 10 then Err(TooFewNames) else Search(q, banks, None)
  }

  /** The rows of one bank: the first verified one, else the remembered shifted one. */
  method SearchBank(q: Query, rows: seq<Row>, fallback: Option<Row>) returns (verified: Option<Row>,
      shifted: Option<Row>)
    requires q.named.Keys <= q.offsets.Keys && forall row :: row in rows ==> |row.dump| == DUMP_LEN
    ensures verified == FirstRow(rows, IsVerified(q))
    ensures verified.None? ==> shifted == if fallback.Some? then fallback else FirstRow(rows, IsShifted(q))
  {
    hide FullMatch;
    shifted := fallback;
    for i := 0 to |rows|
      invariant FirstRow(rows, IsVerified(q)) == FirstRow(rows[i..], IsVerified(q))
      invariant (if fallback.Some? then fallback else FirstRow(rows, IsShifted(q)))
             == (if shifted.Some? then shifted else FirstRow(rows[i..], IsShifted(q)))
    {
      var row := rows[i];
      assert row in rows && rows[i..][1..] == rows[i + 1..];
      if row.name in q.examples {
        var ok := CountMatches(row.dump, q.named, q.offsets, 0);
        if ok == |q.named| {
          return Some(row), shifted;
        }
        if shifted.None? && row.container == Mid {
          ok := CountMatches(row.dump, q.named, q.offsets, -2);
          if ok == |q.named| {
            shifted := Some(row);
          }
        }
      }
    }
    return None, shifted;
  }

  method ResolveParent(q: Query, banks: seq<Option<seq<Row>>>) returns (r: Result<Parent, ResolveError>)
    requires q.named.Keys <= q.offsets.Keys
    requires forall b, row :: b in banks && b.Some? && row in b.value ==> |row.dump| == DUMP_LEN
    ensures r == Resolution(q, banks)
  {
    if |q.named| < 10 {
      return Err(TooFewNames);
    }
    var fallback: Option<Row> := None;
    for b := 0 to |banks|
      invariant Search(q, banks, None) == Search(q, banks[b..], fallback)
    {
      assert banks[b] in banks && banks[b..][1..] == banks[b + 1..];
      if banks[b].None? {
        return Err(LoadFailed);
      }
      var verified, shifted := SearchBank(q, banks[b].value, fallback);
      if verified.Some? {
        return Ok(Parent(verified.value, Verified));
      }
      fallback := shifted;
    }
    return if fallback.Some? then Ok(Parent(fallback.value, VocabShifted)) else Err(NoParent);
  }

  /** The rows of all bank files up to the first that does not load. */
  ghost function Loaded(banks: seq<Option<seq<Row>>>): seq<Row> {
    if banks == [] || banks[0].None? then [] else banks[0].value + Loaded(banks[1..])
  }

  ghost predicate AllLoad(banks: seq<Option<seq<Row>>>) {
    forall b :: b in banks ==> b.Some?
  }

  lemma {:induction false} SearchIsGlobal(q: Query, banks: seq<Option<seq<Row>>>, fallback: Option<Row>)
    ensures var v, s := FirstRow(Loaded(banks), IsVerified(q)), FirstRow(Loaded(banks), IsShifted(q));
            var f := if fallback.Some? then fallback else s;
            Search(q, banks, fallback) ==
            if v.Some? then Ok(Parent(v.value, Verified))
            else if !AllLoad(banks) then Err(LoadFailed)
            else if f.Some? then Ok(Parent(f.value, VocabShifted))
            else Err(NoParent)
    decreases |banks|
  {
    hide FirstRow, IsVerified, IsShifted;
    if banks == [] {
      NoFirst(IsVerified(q));
      NoFirst(IsShifted(q));
    } else if banks[0].None? {
      NoFirst(IsVerified(q));
      assert banks[0] in banks;
    } else {
      var rows, rest := banks[0].value, Loaded(banks[1..]);
      FirstRowAppend(rows, rest, IsVerified(q));
      FirstRowAppend(rows, rest, IsShifted(q));
      assert banks == [banks[0]] + banks[1..];
      SearchIsGlobal(q, banks[1..], if fallback.Some? then fallback else FirstRow(rows, IsShifted(q)));
    }
  }

  lemma {:induction false} NoFirst(p: Row -> bool)
    ensures FirstRow([], p) == None
  {
  }

  /** A row of an example name whose dump holds every named value at its shifted offset. */
  ghost predicate Fits(row: Row, q: Query, shift: int) {
    && row.name in q.examples
    && forall n :: n in q.named ==>
         && n in q.offsets && 0 <= q.named[n] <= 127 && 7 <= q.offsets[n] + shift <= 262
         && |row.dump| == 265 && row.dump[q.offsets[n] + shift] == q.named[n]
  }

  lemma {:induction false} FitsIsChecked(row: Row, q: Query)
    ensures IsVerified(q)(row) <==> Fits(row, q, 0)
    ensures IsShifted(q)(row) <==> row.container == Mid && Fits(row, q, -2)
  {
  }

  /** Fewer than ten names are refused. Otherwise the parent is verified exactly when some
      loaded row of an example name holds every named value at its offset, and is then the
      first such row in bank order; it is vocab-shifted exactly when every bank loads, none
      does that and some sysex row does it two bytes lower, and is then the first of those;
      otherwise the search fails. */
  lemma {:induction false} ParentIsExact(q: Query, banks: seq<Option<seq<Row>>>)
    ensures var rows := Loaded(banks);
            match Resolution(q, banks)
            case Ok(Parent(row, Verified)) =>
              && |q.named| >= 10 && row.name in q.examples
              && (forall n :: n in q.named ==>
                    && n in q.offsets && 0 <= q.named[n] <= 127 && 7 <= q.offsets[n] <= 262
                    && |row.dump| == 265 && row.dump[q.offsets[n]] == q.named[n])
              && exists i :: 0 <= i < |rows| && rows[i] == row && Fits(row, q, 0)
                             && forall j :: 0 <= j < i ==> !Fits(rows[j], q, 0)
            case Ok(Parent(row, VocabShifted)) =>
              && |q.named| >= 10 && row.name in q.examples && row.container == Mid
              && (forall n :: n in q.named ==>
                    && n in q.offsets && 0 <= q.named[n] <= 127 && 7 <= q.offsets[n] - 2 <= 262
                    && |row.dump| == 265 && row.dump[q.offsets[n] - 2] == q.named[n])
              && AllLoad(banks) && (forall j :: 0 <= j < |rows| ==> !Fits(rows[j], q, 0))
              && exists i :: 0 <= i < |rows| && rows[i] == row && Fits(row, q, -2)
                             && forall j :: 0 <= j < i ==> !(rows[j].container == Mid && Fits(rows[j], q, -2))
            case Err(e) =>
              if |q.named| < 10 then e == TooFewNames
              else
                && (forall j :: 0 <= j < |rows| ==> !Fits(rows[j], q, 0))
                && if e == LoadFailed then !AllLoad(banks)
                   else
                     && e == NoParent && AllLoad(banks)
                     && forall j :: 0 <= j < |rows| ==> !(rows[j].container == Mid && Fits(rows[j], q, -2))
  {
    if |q.named| >= 10 {
      var rows := Loaded(banks);
      SearchIsGlobal(q, banks, None);
      FirstRowIs(rows, IsVerified(q));
      FirstRowIs(rows, IsShifted(q));
      forall row: Row
        ensures IsVerified(q)(row) <==> Fits(row, q, 0)
        ensures IsShifted(q)(row) <==> row.container == Mid && Fits(row, q, -2)
      {
        FitsIsChecked(row, q);
      }
      hide FirstRow, IsVerified, IsShifted, Search, AllLoad;
    }
  }

  // ----- Steps -----

  /** r is base with the named values at their shifted offsets and a fresh checksum. */
  ghost predicate WrittenAt(base: bytes, named: map<string, int>, offsets: Offsets, shift: int, r: bytes) {
    && |r| == |base| == DUMP_LEN && named.Keys <= offsets.Keys
    && (forall n :: n in named ==> 0 <= offsets[n] + shift < CHECKSUM_AT && r[offsets[n] + shift] == named[n])
    && (forall k :: 0 <= k < DUMP_LEN && k != CHECKSUM_AT && (forall n :: n in named ==> offsets[n] + shift != k) ==>
          r[k] == base[k])
    && r[CHECKSUM_AT] == Checksum(r)
  }

  ghost predicate SevenBitValues(named: map<string, int>) {
    forall n :: n in named ==> 0 <= named[n] <= 127
  }

  /** The named values written so far. */
  ghost predicate Writing(base: bytes, named: map<string, int>, offsets: Offsets, shift: int, done: set<string>,
      d: bytes) {
    && |d| == |base| == DUMP_LEN && named.Keys <= offsets.Keys
    && (forall n :: n in named && n in done ==>
          0 <= offsets[n] + shift < CHECKSUM_AT && d[offsets[n] + shift] == named[n])
    && (forall k :: 0 <= k < DUMP_LEN && (forall n :: n in named && n in done ==> offsets[n] + shift != k) ==>
          d[k] == base[k])
  }

  lemma {:induction false} WritingTurn(base: bytes, named: map<string, int>, offsets: Offsets, shift: int,
      done: set<string>, d: bytes, name: string)
    requires Writing(base, named, offsets, shift, done, d) && ValidOffsets(offsets)
    requires name in named && 0 <= named[name] <= 127 && 0 <= offsets[name] + shift < CHECKSUM_AT
    ensures Writing(base, named, offsets, shift, done + {name}, d[offsets[name] + shift := named[name]])
  {
  }

  lemma {:induction false} WritingDone(base: bytes, named: map<string, int>, offsets: Offsets, shift: int, d: bytes)
    requires Writing(base, named, offsets, shift, named.Keys, d)
    ensures WrittenAt(base, named, offsets, shift, d[CHECKSUM_AT := Checksum(d)])
  {
    hide Sum;
    assert d[CHECKSUM_AT := Checksum(d)][7..CHECKSUM_AT] == d[7..CHECKSUM_AT];
  }

  /** The shifted branch of build_injectable_morphs, in the dump itself. */
  method WriteShifted(dump: array<byte>, named: map<string, int>, offsets: Offsets) returns (failed: bool)
    requires dump.Length == DUMP_LEN && ValidOffsets(offsets) && named.Keys <= offsets.Keys
    modifies dump
    ensures failed <==> !SevenBitValues(named)
    ensures !failed ==> WrittenAt(old(dump[..]), named, offsets, -2, dump[..])
  {
    hide Writing, WrittenAt, Checksum, ValidOffsets;
    ghost var base := dump[..];
    var todo := named.Keys;
    AllDone(todo);
    NothingWritten(base, named, offsets, -2);
    while todo != {}
      invariant todo <= named.Keys && Writing(base, named, offsets, -2, named.Keys - todo, dump[..])
      invariant forall n :: n in named && n !in todo ==> 0 <= named[n] <= 127
      decreases |todo|
    {
      var name :| name in todo;
      if !(0 <= named[name] <= 127) {
        return true;
      }
      OffsetIn(offsets, name);
      WritingTurn(base, named, offsets, -2, named.Keys - todo, dump[..], name);
      OneMoreDone(named.Keys, todo, name);
      dump[offsets[name] - 2] := named[name];
      todo := todo - {name};
    }
    WritingDone(base, named, offsets, -2, dump[..]);
    dump[CHECKSUM_AT] := Checksum(dump[..]);
    return false;
  }

  lemma {:induction false} OffsetIn(offsets: Offsets, name: string)
    requires ValidOffsets(offsets) && name in offsets
    ensures 7 <= offsets[name] <= 262
  {
  }

  lemma {:induction false} NothingWritten(base: bytes, named: map<string, int>, offsets: Offsets, shift: int)
    requires |base| == DUMP_LEN && named.Keys <= offsets.Keys
    ensures Writing(base, named, offsets, shift, {}, base)
  {
  }

  function ByName(named: map<string, int>): Overrides {
    map k | k in (set n | n in named :: Name(n)) :: named[k.name]
  }

  method WriteStep(base: bytes, how: How, named: map<string, int>,
      offsets: Offsets) returns (r: Result<bytes, DumpError>)
    requires |base| == DUMP_LEN && ValidOffsets(offsets) && named.Keys <= offsets.Keys
    ensures how == Verified ==> r == Patched(base, ByName(named), offsets, None)
    ensures how == VocabShifted ==> (r.Ok? <==> SevenBitValues(named))
    ensures how == VocabShifted && r.Ok? ==> WrittenAt(base, named, offsets, -2, r.value)
  {
    if how == Verified {
      r := PatchDump(base, ByName(named), offsets, None);
    } else {
      hide WrittenAt;
      var dump := new byte[DUMP_LEN](i requires 0 <= i < DUMP_LEN => base[i]);
      assert dump[..] == base;
      var failed := WriteShifted(dump, named, offsets);
      return if failed then Err(DumpError) else Ok(dump[..]);
    }
  }

  lemma {:induction false} NameCandidates(named: map<string, int>, offsets: Offsets, n: string)
    requires ValidOffsets(offsets) && n in named && n in offsets && 7 <= offsets[n] <= 246
    ensures Candidates(ByName(named), offsets, offsets[n] - 7) == {named[n]}
  {
    var o := ByName(named);
    assert Name(n) in o;
    forall k | k in o && ParamIndex(k, offsets) == Some(offsets[n] - 7) ensures k == Name(n) {
    }
  }

  lemma {:induction false} NoCandidates(named: map<string, int>, offsets: Offsets, idx: nat)
    requires forall n :: n in named && n in offsets ==> offsets[n] != idx + 7
    ensures Candidates(ByName(named), offsets, idx) == {}
  {
  }

  lemma {:induction false} ByNameValid(named: map<string, int>, offsets: Offsets)
    requires ValidOffsets(offsets) && named.Keys <= offsets.Keys
    ensures ValidOverrides(ByName(named), offsets) <==>
            SevenBitValues(named) && forall n :: n in named ==> offsets[n] <= 246
  {
    hide ByName, ValidOffsets;
    forall n | n in named ensures Name(n) in ByName(named) {
      ByNameOf(named, offsets, Name(n));
    }
    forall k: Key
      ensures k in ByName(named) ==> k.Name? && k.name in named && ByName(named)[k] == named[k.name]
                                     && (ParamIndex(k, offsets).Some? <==> offsets[k.name] <= 246)
    {
      ByNameOf(named, offsets, k);
    }
  }

  lemma {:induction false} ByNameOf(named: map<string, int>, offsets: Offsets, k: Key)
    requires ValidOffsets(offsets) && named.Keys <= offsets.Keys
    ensures k in ByName(named) <==> k.Name? && k.name in named
    ensures k in ByName(named) ==> ByName(named)[k] == named[k.name]
                                   && (ParamIndex(k, offsets).Some? <==> offsets[k.name] <= 246)
  {
  }

  /** The verified branch succeeds exactly when the values are 7-bit and no name
      addresses a name character, and then writes every value at its offset. */
  lemma {:induction false} VerifiedWrites(base: bytes, named: map<string, int>, offsets: Offsets)
    requires |base| == DUMP_LEN && ValidOffsets(offsets) && named.Keys <= offsets.Keys
    ensures Patched(base, ByName(named), offsets, None).Ok? <==>
            SevenBitValues(named) && forall n :: n in named ==> offsets[n] <= 246
    ensures Patched(base, ByName(named), offsets, None).Ok? ==>
              WrittenAt(base, named, offsets, 0, Patched(base, ByName(named), offsets, None).value)
  {
    hide SevenBitValues, ByName, Candidates, Checksum, ValidOverrides, Writing;
    ByNameValid(named, offsets);
    if Patched(base, ByName(named), offsets, None).Ok? {
      var d := Overlay(base, ByName(named), offsets, None);
      forall n | n in named ensures d[offsets[n]] == named[n] {
        NameCandidates(named, offsets, n);
      }
      forall k | 0 <= k < DUMP_LEN && (forall n :: n in named ==> offsets[n] != k) ensures d[k] == base[k] {
        if 7 <= k < NAME_AT {
          NoCandidates(named, offsets, k - 7);
        }
      }
      assert Writing(base, named, offsets, 0, named.Keys, d) by {
        OverlayWrites(base, named, offsets, d);
      }
      WritingDone(base, named, offsets, 0, d);
    }
  }

  lemma {:induction false} OverlayWrites(base: bytes, named: map<string, int>, offsets: Offsets, d: bytes)
    requires |base| == |d| == DUMP_LEN && ValidOffsets(offsets) && named.Keys <= offsets.Keys
    requires forall n :: n in named ==> d[offsets[n]] == named[n]
    requires forall k :: 0 <= k < DUMP_LEN && (forall n :: n in named ==> offsets[n] != k) ==> d[k] == base[k]
    ensures Writing(base, named, offsets, 0, named.Keys, d)
  {
  }

  // ----- A chain over its parent's dump -----

  /** Parent A as its sheet holds it: whole values and nulls. */
  function SheetValues(p: M.Params): map<string, M.Value> {
    map k | k in p :: if p[k].Some? then M.Whole(p[k].value) else M.Null
  }

  /** A dump that matches parent A in full, and B's values 7-bit where a key moves. */
  ghost predicate MatchedChain(c: M.Chain, base: bytes, offsets: Offsets, shift: int) {
    && |base| == DUMP_LEN && ValidOffsets(offsets) && c.indexMap.None? && (shift == 0 || shift == -2)
    && FullMatch(base, Named(SheetValues(c.a), offsets), offsets, shift)
    && (forall k :: k in c.Keys() && c.Moves(k) ==> 0 <= M.Get(c.b, k).value <= 127)
  }

  /** A step names exactly the mapped non-null keys of A, each with a 7-bit value that
      is the base's own byte unless the key is interpolated, at a parameter position. */
  lemma {:induction false} StepNames(c: M.Chain, base: bytes, offsets: Offsets, shift: int, at: M.Position)
    requires MatchedChain(c, base, offsets, shift) && at.Valid()
    ensures var named := Named(c.Intermediate(at).params, offsets);
            && named.Keys == Named(SheetValues(c.a), offsets).Keys
            && SevenBitValues(named)
            && forall n :: n in named ==>
                 7 <= offsets[n] + shift <= 262 && (!c.Moves(n) ==> named[n] == base[offsets[n] + shift])
  {
    var params := c.Intermediate(at).params;
    assert params.Keys == c.Keys();
    hide M.Chain.Intermediate, ValidOffsets;
    forall k | k in c.Keys()
      ensures params[k].Null? <==> M.Get(c.a, k).None?
      ensures k in offsets && M.Get(c.a, k).Some? ==>
                && MatchesAt(base, offsets, shift, k, M.Get(c.a, k).value)
                && 0 <= params[k].Rounded() <= 127 && (!c.Moves(k) ==> params[k].Rounded() == M.Get(c.a, k).value)
    {
      StepKey(c, base, offsets, shift, at, k);
    }
  }

  lemma {:induction false} StepKey(c: M.Chain, base: bytes, offsets: Offsets, shift: int, at: M.Position, k: string)
    requires MatchedChain(c, base, offsets, shift) && at.Valid() && k in c.Keys() && k in c.Intermediate(at).params
    ensures var v := c.Intermediate(at).params[k];
            && (v.Null? <==> M.Get(c.a, k).None?)
            && (k in offsets && M.Get(c.a, k).Some? ==>
                  && MatchesAt(base, offsets, shift, k, M.Get(c.a, k).value)
                  && 0 <= v.Rounded() <= 127 && (!c.Moves(k) ==> v.Rounded() == M.Get(c.a, k).value))
  {
    M.NullsAreParentNulls(c, at, k);
    if k in offsets && M.Get(c.a, k).Some? {
      var va := M.Get(c.a, k).value;
      assert k in Named(SheetValues(c.a), offsets) && Named(SheetValues(c.a), offsets)[k] == va;
      assert c.Intermediate(at).params[k] == c.ValueAt(k, at);
      if c.Moves(k) {
        var vb := M.Get(c.b, k).value;
        hide M.Tenth, M.ToInt;
        M.Between(Min(va, vb), if va <= vb then vb else va, at);
      }
    }
  }

  /** A dump that differs from its base only at interpolated keys and the checksum. */
  ghost predicate OnlyMoves(c: M.Chain, base: bytes, offsets: Offsets, shift: int, r: bytes)
    requires |r| == |base| == DUMP_LEN
  {
    forall k :: 0 <= k < DUMP_LEN && r[k] != base[k] ==>
      k == CHECKSUM_AT || (7 <= k <= 262 && exists n :: n in offsets && c.Moves(n) && offsets[n] + shift == k)
  }

  lemma {:induction false} StepOnlyMoves(c: M.Chain, base: bytes, offsets: Offsets, shift: int, at: M.Position,
      r: bytes)
    requires MatchedChain(c, base, offsets, shift) && at.Valid()
    requires WrittenAt(base, Named(c.Intermediate(at).params, offsets), offsets, shift, r)
    ensures OnlyMoves(c, base, offsets, shift, r)
  {
    StepNames(c, base, offsets, shift, at);
    hide MatchedChain, Named, M.Chain.Intermediate;
    var named := Named(c.Intermediate(at).params, offsets);
    forall k | 0 <= k < DUMP_LEN && r[k] != base[k] && k != CHECKSUM_AT
      ensures 7 <= k <= 262 && exists n :: n in offsets && c.Moves(n) && offsets[n] + shift == k
    {
      var n :| n in named && offsets[n] + shift == k;
      assert c.Moves(n);
    }
  }

  /** A vocab-shifted parent: every step can be written, every write lands in the
      parameter and name bytes 7..262, and the dump differs from the base only at
      interpolated keys and the checksum. */
  lemma {:induction false} ShiftedStepsStayInside(c: M.Chain, base: bytes, offsets: Offsets, at: M.Position, r: bytes)
    requires MatchedChain(c, base, offsets, -2) && at.Valid()
    ensures SevenBitValues(Named(c.Intermediate(at).params, offsets))
    ensures forall n :: n in Named(c.Intermediate(at).params, offsets) ==> 7 <= offsets[n] - 2 <= 262
    ensures WrittenAt(base, Named(c.Intermediate(at).params, offsets), offsets, -2, r) ==>
            OnlyMoves(c, base, offsets, -2, r)
  {
    hide WrittenAt, M.Chain.Intermediate, OnlyMoves, MatchedChain;
    StepNames(c, base, offsets, -2, at);
    if WrittenAt(base, Named(c.Intermediate(at).params, offsets), offsets, -2, r) {
      StepOnlyMoves(c, base, offsets, -2, at, r);
    }
  }

  /** A verified parent: the steps can be written exactly when none of A's mapped
      names addresses a name character, and then differ from the base only at
      interpolated keys and the checksum. */
  lemma {:induction false} VerifiedStepsStayInside(c: M.Chain, base: bytes, offsets: Offsets, at: M.Position)
    requires MatchedChain(c, base, offsets, 0) && at.Valid()
    ensures var named := Named(c.Intermediate(at).params, offsets);
            var r := Patched(base, ByName(named), offsets, None);
            && (r.Ok? <==> forall n :: n in Named(SheetValues(c.a), offsets) ==> offsets[n] <= 246)
            && (r.Ok? ==> WrittenAt(base, named, offsets, 0, r.value) && OnlyMoves(c, base, offsets, 0, r.value))
  {
    hide WrittenAt, M.Chain.Intermediate, OnlyMoves, MatchedChain, Patched, ByName, ValidOffsets;
    var named := Named(c.Intermediate(at).params, offsets);
    StepNames(c, base, offsets, 0, at);
    assert |base| == DUMP_LEN && ValidOffsets(offsets) by {
      ChainParts(c, base, offsets, 0);
    }
    VerifiedWrites(base, named, offsets);
    var r := Patched(base, ByName(named), offsets, None);
    if r.Ok? {
      StepOnlyMoves(c, base, offsets, 0, at, r.value);
    }
  }

  lemma {:induction false} ChainParts(c: M.Chain, base: bytes, offsets: Offsets, shift: int)
    requires MatchedChain(c, base, offsets, shift)
    ensures |base| == DUMP_LEN && ValidOffsets(offsets)
  {
  }

  /** A parent the search returns carries a chain of its own preset: its dump matches A
      in full at the shift the search says. */
  lemma {:induction false} ResolvedParentMatches(q: Query, banks: seq<Option<seq<Row>>>, c: M.Chain, parent: Parent)
    requires Resolution(q, banks) == Ok(parent) && q.named == Named(SheetValues(c.a), q.offsets)
    requires ValidOffsets(q.offsets) && c.indexMap.None? && |parent.row.dump| == DUMP_LEN
    requires forall k :: k in c.Keys() && c.Moves(k) ==> 0 <= M.Get(c.b, k).value <= 127
    ensures MatchedChain(c, parent.row.dump, q.offsets, if parent.how.Verified? then 0 else -2)
  {
    hide FullMatch, Named, ValidOffsets, M.Chain.Moves, FirstRow, Search;
    ParentIsExact(q, banks);
    FitsIsChecked(parent.row, q);
  }
}
