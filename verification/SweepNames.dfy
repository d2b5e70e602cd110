/** sweep_dx7_patches.enumerate_patches: one output name per patch, all different. */
module SweepNames {
  import opened Text

  datatype Voice = Voice(bank: string, base: string, voice: nat)

  /** "<bank>__<base>__v<voice>", with bank and base already sanitized. */
  function RawName(v: Voice): string {
    v.bank + "__" + v.base + "__v" + Decimal(v.voice)
  }

  function Suffixed(raw: string, k: nat): string {
    raw + "_" + Decimal(k)
  }

  lemma {:induction false} SuffixesDiffer(raw: string, j: nat, k: nat)
    ensures Suffixed(raw, j) == Suffixed(raw, k) ==> j == k
    ensures Suffixed(raw, j) != raw
  {
    var a, b := Suffixed(raw, j), Suffixed(raw, k);
    assert Decimal(j) == a[|raw| + 1..] && Decimal(k) == b[|raw| + 1..];
    NumberOfDecimal(j);
    NumberOfDecimal(k);
  }

  /** The name at number k: the raw name first, then _2, _3, ... */
  function Candidate(raw: string, k: nat): string {
    if k < 2 then raw else Suffixed(raw, k)
  }

  function Tried(raw: string, n: nat): set<string> {
    if n < 2 then {} else Tried(raw, n - 1) + {Candidate(raw, n - 1)}
  }

  lemma {:induction false} TriedIs(raw: string, n: nat)
    requires n >= 1
    ensures |Tried(raw, n)| == n - 1
    ensures forall x :: x in Tried(raw, n) <==> exists j :: 1 <= j < n && x == Candidate(raw, j)
  {
    hide Candidate;
    if n > 1 {
      TriedIs(raw, n - 1);
      forall j | 1 <= j < n - 1 ensures Candidate(raw, j) != Candidate(raw, n - 1) {
        CandidatesDiffer(raw, j, n - 1);
      }
    }
  }

  lemma {:induction false} CandidatesDiffer(raw: string, j: nat, k: nat)
    requires 1 <= j < k
    ensures Candidate(raw, j) != Candidate(raw, k)
  {
    SuffixesDiffer(raw, j, k);
    SuffixesDiffer(raw, k, j);
  }

  /** So many different candidates fit into the names already taken, and no more. */
  lemma {:induction false} Pigeonhole(raw: string, n: nat, used: set<string>)
    requires n >= 1 && forall j :: 1 <= j < n ==> Candidate(raw, j) in used
    ensures n - 1 <= |used|
  {
    hide Candidate, Tried;
    TriedIs(raw, n);
    var tried := Tried(raw, n);
    assert tried <= used;
    assert used == tried + (used - tried);
  }

  /** The rename loop: it ends because each turn uses up one of the finitely many names
      already taken, and stops at the first candidate that is free. */
  method FreeName(raw: string, used: set<string>) returns (name: string, ghost number: nat)
    ensures name !in used && number >= 1 && name == Candidate(raw, number)
    ensures name == if number == 1 then raw else raw + "_" + Decimal(number)
    ensures forall j :: 1 <= j < number ==> Candidate(raw, j) in used
    ensures number <= |used| + 1
  {
    name := raw;
    var k: nat := 2;
    number := 1;
    while name in used
      invariant number == k - 1 && name == Candidate(raw, number)
      invariant number <= |used| + 1
      invariant forall j :: 1 <= j < number ==> Candidate(raw, j) in used
      decreases |used| + 1 - number
    {
      Pigeonhole(raw, number + 1, used);
      name := raw + "_" + Decimal(k);
      number := k;
      k := k + 1;
      assert name == Candidate(raw, number);
      hide Candidate;
    }
  }

  /** A new name: the first free candidate, given the names chosen before. */
  ghost predicate ChosenAfter(raw: string, name: string, earlier: seq<string>) {
    && name !in earlier
    && exists k :: 1 <= k <= |earlier| + 1 && name == Candidate(raw, k)
                   && forall j :: 1 <= j < k ==> Candidate(raw, j) in earlier
  }

  /** Every name was new, and the first free candidate, when it was chosen. */
  ghost predicate AllChosen(entries: seq<Voice>, names: seq<string>)
    requires |names| <= |entries|
  {
    names == [] ||
    var n := |names| - 1;
    ChosenAfter(RawName(entries[n]), names[n], names[..n]) && AllChosen(entries, names[..n])
  }

  /** Every patch gets its raw name or the first free suffixed one. */
  method UniqueNames(entries: seq<Voice>) returns (names: seq<string>)
    ensures |names| == |entries| && AllChosen(entries, names)
    ensures forall i, j :: 0 <= i < j < |names| ==> names[i] != names[j]
  {
    hide RawName, Candidate, ChosenAfter;
    names := [];
    var used: set<string> := {};
    for i := 0 to |entries|
      invariant |names| == i && |used| <= i
      invariant forall x :: x in used <==> x in names
      invariant AllChosen(entries, names)
    {
      var name, number := FreeName(RawName(entries[i]), used);
      Chosen(RawName(entries[i]), name, names, used, number);
      used := used + {name};
      ghost var earlier := names;
      names := names + [name];
      assert names[..i] == earlier;
    }
    NamesDiffer(entries, names);
  }

  /** No two patches share an output name. */
  lemma {:induction false} NamesDiffer(entries: seq<Voice>, names: seq<string>)
    requires |names| <= |entries| && AllChosen(entries, names)
    ensures forall i, j :: 0 <= i < j < |names| ==> names[i] != names[j]
    decreases |names|
  {
    hide RawName, Candidate;
    if names != [] {
      var n := |names| - 1;
      NamesDiffer(entries, names[..n]);
      assert names == names[..n] + [names[n]];
      assert names[n] !in names[..n];
    }
  }

  lemma {:induction false} Chosen(raw: string, name: string, earlier: seq<string>, used: set<string>, number: nat)
    requires |used| <= |earlier| && (forall x :: x in used <==> x in earlier) && name !in used
    requires 1 <= number <= |used| + 1 && name == Candidate(raw, number)
    requires forall j :: 1 <= j < number ==> Candidate(raw, j) in used
    ensures ChosenAfter(raw, name, earlier)
  {
    hide Candidate;
  }

  /** The name is the raw one numbered with the smallest free number from 2 on. */
  ghost predicate NumberedFree(raw: string, name: string, earlier: seq<string>, k: nat) {
    && 2 <= k <= |earlier| + 1 && name == raw + "_" + Decimal(k)
    && forall j :: 2 <= j < k ==> raw + "_" + Decimal(j) in earlier
  }

  /** The name of patch i: bank, patch and voice, numbered if an earlier patch has that. */
  lemma {:induction false} NameIs(entries: seq<Voice>, names: seq<string>, i: nat)
    requires |names| <= |entries| && AllChosen(entries, names) && i < |names|
    ensures var v := entries[i];
            var raw := v.bank + "__" + v.base + "__v" + Decimal(v.voice);
            && names[i] !in names[..i]
            && if raw !in names[..i] then names[i] == raw
               else exists k :: NumberedFree(raw, names[i], names[..i], k)
    decreases |names|
  {
    hide Decimal, Candidate, NumberedFree;
    var n := |names| - 1;
    if i < n {
      NameIs(entries, names[..n], i);
      assert names[..n][..i] == names[..i];
    } else {
      FirstFree(RawName(entries[i]), names[i], names[..i]);
    }
  }

  lemma {:induction false} FirstFree(raw: string, name: string, earlier: seq<string>)
    requires ChosenAfter(raw, name, earlier)
    ensures if raw !in earlier then name == raw else exists k :: NumberedFree(raw, name, earlier, k)
  {
    hide Decimal, Candidate;
    var k :| 1 <= k <= |earlier| + 1 && name == Candidate(raw, k)
             && forall j :: 1 <= j < k ==> Candidate(raw, j) in earlier;
    CandidateIs(raw, 1);
    CandidateIs(raw, k);
    if k > 1 {
      assert Candidate(raw, 1) in earlier;
      forall j | 2 <= j < k ensures raw + "_" + Decimal(j) in earlier {
        CandidateIs(raw, j);
        assert Candidate(raw, j) in earlier;
      }
      assert NumberedFree(raw, name, earlier, k);
    }
  }

  lemma {:induction false} CandidateIs(raw: string, j: nat)
    requires 1 <= j
    ensures Candidate(raw, j) == if j == 1 then raw else raw + "_" + Decimal(j)
  {
    hide Decimal;
  }
}
