/** The examples of input macros in the French documentation
    (build-04-keywords.py, lines 431-439): plural forms are filtered out of
    the macro names and the remaining names are paired up.
 */
module DocExamples {
  import opened Wrappers
  import opened Text

  /** The filter loop: a macro is dropped when it starts with the macro
      kept just before it, as `\KwDatas` starts with `\KwData`. */
  function NoPlural(macros: seq<string>): (r: seq<string>)
    ensures |r| <= |macros|
    ensures macros != [] ==> r != [] && r[0] == macros[0]
    ensures forall i :: 0 <= i < |r| ==> r[i] in macros
    ensures forall i :: 0 < i < |r| ==> !StartsWith(r[i], r[i - 1])
    ensures macros != [] ==> StartsWith(macros[|macros| - 1], r[|r| - 1])
    decreases |macros|
  {
    if macros == [] then []
    else
      var kept := NoPlural(macros[..|macros| - 1]);
      var m := macros[|macros| - 1];
      if kept != [] && StartsWith(m, kept[|kept| - 1]) then kept else kept + [m]
  }

  /** Where the run that kept entry `j` of `idx` ends: at the next kept
      macro, or at the end of the list. */
  function RunEnd(macros: seq<string>, idx: seq<nat>, j: nat): nat
    requires j < |idx|
  {
    if j + 1 < |idx| then idx[j + 1] else |macros|
  }

  /** `idx` lists positions of `macros`, in increasing order, starting at
      the first macro; it is empty only for an empty list. */
  predicate Positions(macros: seq<string>, idx: seq<nat>) {
    && (idx == [] <==> macros == [])
    && (idx != [] ==> idx[0] == 0)
    && (forall j :: 0 <= j < |idx| ==> idx[j] < |macros|)
    && (forall j :: 0 < j < |idx| ==> idx[j - 1] < idx[j])
  }

  /** Every macro between two listed positions, or after the last, starts
      with the macro at the listed position before it. */
  predicate RunsStartWithKept(macros: seq<string>, idx: seq<nat>)
    requires Positions(macros, idx)
  {
    forall j, i :: 0 <= j < |idx| && idx[j] < i < RunEnd(macros, idx, j) ==> StartsWith(macros[i], macros[idx[j]])
  }

  /** `idx` lists the macros the filter keeps, by position: the first macro
      is kept, positions increase, a kept macro never starts with the macro
      kept before it, and every macro between two kept ones (or after the
      last) starts with the kept macro before it. */
  predicate KeepsAt(macros: seq<string>, idx: seq<nat>) {
    && Positions(macros, idx)
    && (forall j :: 0 < j < |idx| ==> !StartsWith(macros[idx[j]], macros[idx[j - 1]]))
    && RunsStartWithKept(macros, idx)
  }

  /** The positions the filter keeps, found the way the loop finds them. */
  function KeptIndices(macros: seq<string>): (idx: seq<nat>)
    ensures forall j :: 0 <= j < |idx| ==> idx[j] < |macros|
    decreases |macros|
  {
    if macros == [] then []
    else
      var idx := KeptIndices(macros[..|macros| - 1]);
      var n := |macros| - 1;
      if idx != [] && StartsWith(macros[n], macros[idx[|idx| - 1]]) then idx else idx + [n]
  }

  /** A macro that starts with the last kept one extends that one's run. */
  lemma RunsDrop(macros: seq<string>, idx: seq<nat>)
    requires macros != [] && Positions(macros[..|macros| - 1], idx) && RunsStartWithKept(macros[..|macros| - 1], idx)
    requires idx != [] && StartsWith(macros[|macros| - 1], macros[idx[|idx| - 1]])
    ensures Positions(macros, idx) && RunsStartWithKept(macros, idx)
  {
    var init := macros[..|macros| - 1];
    forall j, i | 0 <= j < |idx| && idx[j] < i < RunEnd(macros, idx, j)
      ensures StartsWith(macros[i], macros[idx[j]])
    {
      if i < |init| {
        assert i < RunEnd(init, idx, j) && init[i] == macros[i] && init[idx[j]] == macros[idx[j]];
      }
    }
  }

  /** Any other macro starts a run of its own. */
  lemma RunsKeep(macros: seq<string>, idx: seq<nat>)
    requires macros != [] && Positions(macros[..|macros| - 1], idx) && RunsStartWithKept(macros[..|macros| - 1], idx)
    ensures Positions(macros, idx + [|macros| - 1]) && RunsStartWithKept(macros, idx + [|macros| - 1])
  {
    var init := macros[..|macros| - 1];
    var idx1 := idx + [|macros| - 1];
    forall j, i | 0 <= j < |idx1| && idx1[j] < i < RunEnd(macros, idx1, j)
      ensures StartsWith(macros[i], macros[idx1[j]])
    {
      assert j < |idx| && RunEnd(macros, idx1, j) == RunEnd(init, idx, j);
      assert init[i] == macros[i] && init[idx[j]] == macros[idx[j]];
    }
  }

  lemma KeepsAtDrop(macros: seq<string>, idx: seq<nat>)
    requires macros != [] && KeepsAt(macros[..|macros| - 1], idx)
    requires idx != [] && StartsWith(macros[|macros| - 1], macros[idx[|idx| - 1]])
    ensures KeepsAt(macros, idx)
  {
    var init := macros[..|macros| - 1];
    RunsDrop(macros, idx);
    forall j | 0 < j < |idx|
      ensures !StartsWith(macros[idx[j]], macros[idx[j - 1]])
    {
      assert init[idx[j]] == macros[idx[j]] && init[idx[j - 1]] == macros[idx[j - 1]];
    }
  }

  lemma KeepsAtKeep(macros: seq<string>, idx: seq<nat>)
    requires macros != [] && KeepsAt(macros[..|macros| - 1], idx)
    requires !(idx != [] && StartsWith(macros[|macros| - 1], macros[idx[|idx| - 1]]))
    ensures KeepsAt(macros, idx + [|macros| - 1])
  {
    var init := macros[..|macros| - 1];
    var idx1 := idx + [|macros| - 1];
    RunsKeep(macros, idx);
    forall j | 0 < j < |idx1|
      ensures !StartsWith(macros[idx1[j]], macros[idx1[j - 1]])
    {
      if j < |idx| {
        assert init[idx[j]] == macros[idx[j]] && init[idx[j - 1]] == macros[idx[j - 1]];
      }
    }
  }

  /** The positions `KeptIndices` finds are the ones `KeepsAt` describes. */
  lemma {:induction false} KeptIndicesKeepsAt(macros: seq<string>)
    ensures KeepsAt(macros, KeptIndices(macros))
    decreases |macros|
  {
    if macros != [] {
      var init := macros[..|macros| - 1];
      var idx0 := KeptIndices(init);
      KeptIndicesKeepsAt(init);
      if idx0 != [] && StartsWith(macros[|macros| - 1], macros[idx0[|idx0| - 1]]) {
        KeepsAtDrop(macros, idx0);
      } else {
        KeepsAtKeep(macros, idx0);
      }
    }
  }

  /** The filter keeps as many macros as `KeptIndices` finds positions,
      and the last kept macro is the one at the last position. */
  lemma {:induction false} NoPluralCount(macros: seq<string>)
    ensures |NoPlural(macros)| == |KeptIndices(macros)|
    ensures macros != [] ==> NoPlural(macros)[|NoPlural(macros)| - 1] == macros[KeptIndices(macros)[|KeptIndices(macros)| - 1]]
    decreases |macros|
  {
    if macros != [] {
      var init := macros[..|macros| - 1];
      NoPluralCount(init);
      var idx0 := KeptIndices(init);
      if idx0 != [] {
        assert init[idx0[|idx0| - 1]] == macros[idx0[|idx0| - 1]];
      }
    }
  }

  /** Kept macro `j` is the macro at position `j` of `KeptIndices`. */
  lemma {:induction false} NoPluralAt(macros: seq<string>, j: nat)
    requires j < |KeptIndices(macros)|
    ensures |NoPlural(macros)| == |KeptIndices(macros)|
    ensures NoPlural(macros)[j] == macros[KeptIndices(macros)[j]]
    decreases |macros|
  {
    NoPluralCount(macros);
    var init := macros[..|macros| - 1];
    NoPluralCount(init);
    if j < |KeptIndices(init)| {
      NoPluralAt(init, j);
      assert init[KeptIndices(init)[j]] == macros[KeptIndices(init)[j]];
    }
  }

  /** Taking the last macro off a list whose last macro is kept. */
  lemma KeepsAtLastKept(macros: seq<string>, idx: seq<nat>)
    requires macros != [] && KeepsAt(macros, idx) && idx[|idx| - 1] == |macros| - 1
    ensures KeepsAt(macros[..|macros| - 1], idx[..|idx| - 1])
    ensures |idx| > 1 ==> !StartsWith(macros[|macros| - 1], macros[idx[|idx| - 2]])
  {
    var init := macros[..|macros| - 1];
    var idx0 := idx[..|idx| - 1];
    PositionsLastKept(macros, idx);
    forall j, i | 0 <= j < |idx0| && idx0[j] < i < RunEnd(init, idx0, j)
      ensures StartsWith(init[i], init[idx0[j]])
    {
      assert RunEnd(init, idx0, j) == RunEnd(macros, idx, j);
    }
  }

  lemma PositionsLastKept(macros: seq<string>, idx: seq<nat>)
    requires macros != [] && Positions(macros, idx) && idx[|idx| - 1] == |macros| - 1
    ensures Positions(macros[..|macros| - 1], idx[..|idx| - 1])
  {
    var idx0 := idx[..|idx| - 1];
    assert |idx| == 1 ==> idx[0] == 0 && |macros| == 1;
    forall j | 0 <= j < |idx0|
      ensures idx0[j] < |macros| - 1
    {
      assert idx[j] < idx[j + 1] <= idx[|idx| - 1] by {
        IncreasingTo(idx, j + 1, |idx| - 1);
      }
    }
  }

  /** Taking the last macro off a list whose last macro is dropped. */
  lemma KeepsAtLastDropped(macros: seq<string>, idx: seq<nat>)
    requires macros != [] && KeepsAt(macros, idx) && idx[|idx| - 1] != |macros| - 1
    ensures KeepsAt(macros[..|macros| - 1], idx)
    ensures StartsWith(macros[|macros| - 1], macros[idx[|idx| - 1]])
  {
    var init := macros[..|macros| - 1];
    forall j | 0 <= j < |idx|
      ensures idx[j] < |init|
    {
      if j < |idx| - 1 {
        IncreasingTo(idx, j, |idx| - 1);
      }
    }
    assert RunEnd(macros, idx, |idx| - 1) == |macros|;
  }

  /** Positions listed in increasing order increase from any entry to any later one. */
  lemma {:induction false} IncreasingTo(idx: seq<nat>, a: nat, b: nat)
    requires a <= b < |idx| && forall j :: 0 < j < |idx| ==> idx[j - 1] < idx[j]
    ensures idx[a] <= idx[b]
    decreases b - a
  {
    if a < b {
      IncreasingTo(idx, a + 1, b);
    }
  }

  /** `KeepsAt` leaves no choice: the only positions it describes are the
      ones the filter keeps. */
  lemma {:induction false} KeepsAtUnique(macros: seq<string>, idx: seq<nat>)
    requires KeepsAt(macros, idx)
    ensures idx == KeptIndices(macros)
    decreases |macros|
  {
    if macros != [] {
      var init := macros[..|macros| - 1];
      var n := |macros| - 1;
      if idx[|idx| - 1] == n {
        KeepsAtLastKept(macros, idx);
        KeepsAtUnique(init, idx[..|idx| - 1]);
        assert idx == idx[..|idx| - 1] + [n];
      } else {
        KeepsAtLastDropped(macros, idx);
        KeepsAtUnique(init, idx);
      }
    }
  }

  /** The filter's output is the macros at the positions `KeptIndices` finds. */
  lemma NoPluralIndices(macros: seq<string>)
    ensures |NoPlural(macros)| == |KeptIndices(macros)|
    ensures forall j :: 0 <= j < |KeptIndices(macros)| ==> NoPlural(macros)[j] == macros[KeptIndices(macros)[j]]
  {
    NoPluralCount(macros);
    forall j | 0 <= j < |KeptIndices(macros)|
      ensures NoPlural(macros)[j] == macros[KeptIndices(macros)[j]]
    {
      NoPluralAt(macros, j);
    }
  }

  /** The filter keeps exactly the macros at the positions `KeepsAt`
      describes: a macro is dropped exactly when it starts with the last
      macro kept before it. */
  lemma NoPluralKeepsAt(macros: seq<string>)
    ensures KeepsAt(macros, KeptIndices(macros))
    ensures |NoPlural(macros)| == |KeptIndices(macros)|
    ensures forall j :: 0 <= j < |KeptIndices(macros)| ==> NoPlural(macros)[j] == macros[KeptIndices(macros)[j]]
  {
    KeptIndicesKeepsAt(macros);
    NoPluralIndices(macros);
  }

  /** No macro of the list starts with the one before it. */
  predicate NoPluralPairs(xs: seq<string>) {
    forall i :: 0 < i < |xs| ==> !StartsWith(xs[i], xs[i - 1])
  }

  /** A list with nothing to filter goes through unchanged. */
  lemma {:induction false} NoPluralKeeps(xs: seq<string>)
    requires NoPluralPairs(xs)
    ensures NoPlural(xs) == xs
    decreases |xs|
  {
    if xs != [] {
      var init := xs[..|xs| - 1];
      assert NoPluralPairs(init) by {
        forall i | 0 < i < |init|
          ensures !StartsWith(init[i], init[i - 1])
        {
          assert init[i] == xs[i] && init[i - 1] == xs[i - 1];
        }
      }
      NoPluralKeeps(init);
      assert init + [xs[|xs| - 1]] == xs;
    }
  }

  /** Filtering twice is filtering once. */
  lemma NoPluralIdempotent(macros: seq<string>)
    ensures NoPlural(NoPlural(macros)) == NoPlural(macros)
  {
    NoPluralKeeps(NoPlural(macros));
  }

  /** The pairing loop: entry `i` of the even-indexed slice is paired with
      the name right after it, which fails like the `IndexError` of the
      source when the number of names is odd. */
  function Pairs(xs: seq<string>): (r: Result<seq<(string, string)>>)
    ensures r.Ok? <==> |xs| % 2 == 0
    ensures r.Err? ==> r.error == OddMacroCount(|xs|)
    ensures r.Ok? ==> |r.value| == |xs| / 2
    ensures r.Ok? ==> forall i :: 0 <= i < |r.value| ==> r.value[i] == (xs[2 * i], xs[2 * i + 1])
  {
    if |xs| % 2 == 1 then Err(OddMacroCount(|xs|))
    else Ok(seq(|xs| / 2, i requires 0 <= i < |xs| / 2 => (xs[2 * i], xs[2 * i + 1])))
  }

  /** The names in pair order. */
  function Flatten(ps: seq<(string, string)>): (r: seq<string>)
    ensures |r| == 2 * |ps|
  {
    if ps == [] then [] else [ps[0].0, ps[0].1] + Flatten(ps[1..])
  }

  lemma {:induction false} FlattenAt(ps: seq<(string, string)>, i: nat)
    requires i < |ps|
    ensures Flatten(ps)[2 * i] == ps[i].0 && Flatten(ps)[2 * i + 1] == ps[i].1
  {
    if i > 0 {
      FlattenAt(ps[1..], i - 1);
    }
  }

  /** Pairing loses no name and adds none: laid out again in pair order the
      pairs give back the filtered list. */
  lemma PairsRoundTrip(xs: seq<string>)
    requires |xs| % 2 == 0
    ensures Pairs(xs).Ok? && Flatten(Pairs(xs).value) == xs
  {
    var ps := Pairs(xs).value;
    forall k | 0 <= k < |xs|
      ensures Flatten(ps)[k] == xs[k]
    {
      FlattenAt(ps, k / 2);
    }
  }
}
