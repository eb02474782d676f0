/** Merging the slices of one workflow into one run and cutting its outputs apart again
    (runtime/server.py:1373-1434, 1515-1591, 2604-2648). */
module Coalescing {
  import opened Collections
  import opened Slicing

  datatype MergeError =
    | EmptyGroup
    | InconsistentVarying
    | MissingInput
    | VaryingNotAnInput
    | InconsistentTotal
    | LengthMismatch
    | ExceedsTotal

  function IndexOf(s: Slice): int { s.index }

  // ---- merging -----------------------------------------------------------------------------

  ghost function Concat(slices: seq<Slice>, key: string): (r: seq<string>)
    requires forall i :: 0 <= i < |slices| ==> key in slices[i].inputs
  {
    if slices == [] then []
    else Concat(slices[..|slices| - 1], key) + slices[|slices| - 1].inputs[key]
  }

  function Lengths(slices: seq<Slice>): (r: seq<nat>)
    ensures |r| == |slices| && forall i :: 0 <= i < |r| ==> r[i] == slices[i].length
  {
    seq(|slices|, i requires 0 <= i < |slices| => slices[i].length)
  }

  /** Every slice has the varying inputs of the first. */
  ghost predicate Joinable(ordered: seq<Slice>) {
    forall i, k :: 0 <= i < |ordered| && k in ordered[0].varying && k in ordered[0].inputs ==> k in ordered[i].inputs
  }

  /** What merging means: varying lists joined in slice order, the rest from the first slice. */
  ghost function MergedOf(ordered: seq<Slice>): (r: Inputs)
    requires ordered != [] && Joinable(ordered)
  {
    if |ordered| == 1 then ordered[0].inputs
    else map k | k in ordered[0].inputs :: (if k in ordered[0].varying then Concat(ordered, k) else ordered[0].inputs[k])
  }

  ghost predicate SameVarying(ordered: seq<Slice>) {
    forall i :: 0 <= i < |ordered| ==> ordered[i].varying == ordered[0].varying
  }

  ghost predicate SameTotal(ordered: seq<Slice>) {
    forall i :: 0 <= i < |ordered| ==> ordered[i].total == ordered[0].total
  }

  /** The key has one value per row of each slice, and no more rows than the job. */
  ghost predicate Fits(ordered: seq<Slice>, key: string) {
    ordered != [] && Sum(Lengths(ordered)) <= ordered[0].total &&
    forall i :: 0 <= i < |ordered| ==> key in ordered[i].inputs && |ordered[i].inputs[key]| == ordered[i].length
  }

  /** The conditions under which a group is accepted. */
  ghost predicate Mergeable(ordered: seq<Slice>) {
    ordered != [] && (|ordered| > 1 ==>
      SameVarying(ordered) && ordered[0].varying <= ordered[0].inputs.Keys &&
      (ordered[0].varying != {} ==> SameTotal(ordered)) &&
      forall k :: k in ordered[0].varying ==> Fits(ordered, k))
  }

  /** The loop that extends `merged_values` slice by slice. */
  method JoinKey(ordered: seq<Slice>, key: string) returns (r: Result<seq<string>, MergeError>)
    ensures r.Ok? <==> forall i :: 0 <= i < |ordered| ==> key in ordered[i].inputs
    ensures r.Ok? ==> r.value == Concat(ordered, key)
  {
    var merged: seq<string> := [];
    for i := 0 to |ordered|
      invariant forall j :: 0 <= j < i ==> key in ordered[j].inputs
      invariant merged == Concat(ordered[..i], key)
    {
      if key !in ordered[i].inputs {
        return Err(MissingInput);
      }
      assert ordered[..i + 1][..i] == ordered[..i];
      merged := merged + ordered[i].inputs[key];
    }
    assert ordered[..|ordered|] == ordered;
    r := Ok(merged);
  }

  /** The loop over `input_keys`. */
  method JoinInputs(ordered: seq<Slice>) returns (r: Result<Inputs, MergeError>)
    requires |ordered| > 1
    ensures r.Ok? <==> Joinable(ordered)
    ensures r.Ok? ==> r.value == MergedOf(ordered)
  {
    var first := ordered[0];
    var merged: Inputs := map[];
    var todo := first.inputs.Keys;
    while todo != {}
      invariant todo <= first.inputs.Keys && merged.Keys == first.inputs.Keys - todo
      invariant forall i, k :: 0 <= i < |ordered| && k in merged && k in first.varying ==> k in ordered[i].inputs
      invariant forall k :: k in merged ==>
        merged[k] == (if k in first.varying then Concat(ordered, k) else first.inputs[k])
    {
      var k :| k in todo;
      todo := todo - {k};
      if k in first.varying {
        var joined := JoinKey(ordered, k);
        if joined.Err? {
          return Err(joined.error);
        }
        merged := merged[k := joined.value];
      } else {
        merged := merged[k := first.inputs[k]];
      }
    }
    r := Ok(merged);
  }

  /** The per-key part of `_validate_merged_varying_inputs`. */
  method CheckLengths(ordered: seq<Slice>, key: string) returns (r: Option<MergeError>)
    requires |ordered| > 1
    ensures r.None? <==> Fits(ordered, key)
  {
    var expected := 0;
    for i := 0 to |ordered|
      invariant forall j :: 0 <= j < i ==> key in ordered[j].inputs && |ordered[j].inputs[key]| == ordered[j].length
      invariant expected == Sum(Lengths(ordered)[..i])
    {
      if key !in ordered[i].inputs {
        return Some(MissingInput);
      }
      if |ordered[i].inputs[key]| != ordered[i].length {
        return Some(LengthMismatch);
      }
      assert Lengths(ordered)[..i + 1][..i] == Lengths(ordered)[..i];
      expected := expected + |ordered[i].inputs[key]|;
    }
    assert Lengths(ordered)[..|ordered|] == Lengths(ordered);
    r := if expected > ordered[0].total then Some(ExceedsTotal) else None;
  }

  method CheckVarying(ordered: seq<Slice>) returns (same: bool)
    ensures same <==> SameVarying(ordered)
  {
    for i := 0 to |ordered|
      invariant forall j :: 0 <= j < i ==> ordered[j].varying == ordered[0].varying
    {
      if ordered[i].varying != ordered[0].varying {
        return false;
      }
    }
    same := true;
  }

  /** `_validate_merged_varying_inputs`. */
  method Validate(ordered: seq<Slice>) returns (r: Option<MergeError>)
    requires |ordered| > 1 && SameVarying(ordered)
    ensures r.None? <==> Mergeable(ordered)
  {
    var first := ordered[0];
    if first.varying == {} {
      return None;
    }
    if !(first.varying <= first.inputs.Keys) {
      return Some(VaryingNotAnInput);
    }
    for i := 0 to |ordered|
      invariant forall j :: 0 <= j < i ==> ordered[j].total == first.total
    {
      if ordered[i].total != first.total {
        return Some(InconsistentTotal);
      }
    }
    var todo := first.varying;
    while todo != {}
      invariant todo <= first.varying
      invariant forall k :: k in first.varying - todo ==> Fits(ordered, k)
    {
      hide Fits;
      var k :| k in todo;
      todo := todo - {k};
      r := CheckLengths(ordered, k);
      if r.Some? {
        return;
      }
    }
    r := None;
  }

  /** `_merge_group_compiled_graph`, its inputs. */
  method MergeGroup(group: seq<Slice>) returns (r: Result<Inputs, MergeError>)
    ensures r.Ok? <==> Mergeable(StableSort(group, IndexOf))
    ensures r.Ok? ==> Joinable(StableSort(group, IndexOf)) && r.value == MergedOf(StableSort(group, IndexOf))
  {
    var ordered := StableSort(group, IndexOf);
    hide StableSort, Fits, Concat, SameTotal;
    if group == [] {
      assert |multiset(ordered)| == |ordered|;
      return Err(EmptyGroup);
    }
    assert ordered != [] by { assert group[0] in multiset(group); }
    if |ordered| == 1 {
      return Ok(ordered[0].inputs);
    }
    var same := CheckVarying(ordered);
    if !same {
      return Err(InconsistentVarying);
    }
    r := JoinInputs(ordered);
    if r.Err? {
      NotJoinable(ordered);
      return;
    }
    var failure := Validate(ordered);
    if failure.Some? {
      r := Err(failure.value);
    }
  }

  lemma NotJoinable(ordered: seq<Slice>)
    requires |ordered| > 1 && !Joinable(ordered)
    ensures !Mergeable(ordered)
  {
    var i, k :| 0 <= i < |ordered| && k in ordered[0].varying && k in ordered[0].inputs && k !in ordered[i].inputs;
    assert !Fits(ordered, k);
  }

  // ---- positions in a merge ----------------------------------------------------------------

  /** Where slice `j` begins in a merged list. */
  ghost function Offset(slices: seq<Slice>, j: nat): (r: nat)
    requires j <= |slices|
  {
    Sum(Lengths(slices)[..j])
  }

  ghost function Total(slices: seq<Slice>): nat {
    Offset(slices, |slices|)
  }

  lemma TotalIsSum(slices: seq<Slice>)
    ensures Total(slices) == Sum(Lengths(slices))
  {
    assert Lengths(slices)[..|slices|] == Lengths(slices);
  }

  lemma OffsetNext(slices: seq<Slice>, j: nat)
    requires j < |slices|
    ensures Offset(slices, 0) == 0 && Offset(slices, j + 1) == Offset(slices, j) + slices[j].length
  {
    assert Lengths(slices)[..j + 1][..j] == Lengths(slices)[..j];
  }

  lemma {:induction false} OffsetInTotal(slices: seq<Slice>, j: nat)
    requires j <= |slices|
    ensures Offset(slices, j) <= Total(slices)
    decreases |slices| - j
  {
    if j < |slices| {
      OffsetNext(slices, j);
      OffsetInTotal(slices, j + 1);
    }
  }

  lemma OffsetPrefix(slices: seq<Slice>, m: nat, j: nat)
    requires j <= m <= |slices|
    ensures Offset(slices[..m], j) == Offset(slices, j)
  {
    assert Lengths(slices[..m])[..j] == Lengths(slices)[..j];
  }

  /** Every position of a merged list belongs to one slice. */
  lemma {:induction false} Locate(slices: seq<Slice>, m: nat, p: nat) returns (j: nat, i: nat)
    requires m <= |slices| && p < Offset(slices, m)
    ensures j < m && i < slices[j].length && p == Offset(slices, j) + i
  {
    hide Offset;
    if m == 0 {
      OffsetIsZero(slices);
      assert false;
    } else {
      OffsetNext(slices, m - 1);
      if p < Offset(slices, m - 1) {
        j, i := Locate(slices, m - 1, p);
      } else {
        j, i := m - 1, p - Offset(slices, m - 1);
      }
    }
  }

  lemma OffsetIsZero(slices: seq<Slice>)
    ensures Offset(slices, 0) == 0
  {
  }

  /** The input has one value per row of each slice. */
  ghost predicate OnePerRow(slices: seq<Slice>, key: string) {
    forall m :: 0 <= m < |slices| ==> key in slices[m].inputs && |slices[m].inputs[key]| == slices[m].length
  }

  /** Position `Offset(j) + i` of a joined list is position `i` of slice `j`. */
  lemma {:induction false} ConcatAt(slices: seq<Slice>, key: string, j: nat, i: nat)
    requires OnePerRow(slices, key) && j < |slices| && i < slices[j].length
    ensures |Concat(slices, key)| == Total(slices) && Offset(slices, j) + i < Total(slices)
    ensures Concat(slices, key)[Offset(slices, j) + i] == slices[j].inputs[key][i]
  {
    var n := |slices| - 1;
    ConcatLength(slices, key);
    ConcatLength(slices[..n], key);
    OffsetPrefix(slices, n, n);
    OffsetNext(slices, n);
    hide Offset;
    if j < n {
      ConcatAt(slices[..n], key, j, i);
      OffsetPrefix(slices, n, j);
    }
  }

  lemma {:induction false} ConcatLength(slices: seq<Slice>, key: string)
    requires OnePerRow(slices, key)
    ensures |Concat(slices, key)| == Total(slices)
  {
    if slices != [] {
      var n := |slices| - 1;
      ConcatLength(slices[..n], key);
      OffsetPrefix(slices, n, n);
      OffsetNext(slices, n);
    }
  }

  // ---- the rows of a merge -----------------------------------------------------------------

  /** Some slices of one job, in order. */
  ghost predicate Selection(inputs: Inputs, n: nat, slices: seq<Slice>) {
    Even(inputs, n) && slices != [] &&
    (forall i :: 0 <= i < |slices| ==> SliceOf(inputs, n, slices[i]) && slices[i].length > 0) &&
    forall i, j :: 0 <= i < j < |slices| ==> slices[i].start + slices[i].length <= slices[j].start
  }

  lemma {:induction false} SelectionFits(inputs: Inputs, n: nat, slices: seq<Slice>)
    requires Selection(inputs, n, slices)
    ensures |slices| <= Total(slices) <= slices[|slices| - 1].start + slices[|slices| - 1].length <= n
  {
    var k := |slices| - 1;
    OffsetNext(slices, k);
    if k > 0 {
      OffsetPrefix(slices, k, k);
      SelectionFits(inputs, n, slices[..k]);
    }
  }

  /** What a slice holds for one input. */
  lemma SliceKey(inputs: Inputs, n: nat, s: Slice, key: string)
    requires SliceOf(inputs, n, s) && s.length > 0 && key in inputs
    ensures key in s.inputs
    ensures key in Varying(inputs) ==> |s.inputs[key]| == s.length
    ensures key !in Varying(inputs) ==> s.inputs[key] == inputs[key] && |inputs[key]| == 1
  {
  }

  /** A selection of a job's slices is always accepted. */
  lemma SelectionMergeable(inputs: Inputs, n: nat, slices: seq<Slice>)
    requires Selection(inputs, n, slices)
    ensures Mergeable(slices) && Joinable(slices)
  {
    SelectionFits(inputs, n, slices);
    TotalIsSum(slices);
    forall i | 0 <= i < |slices|
      ensures slices[i].inputs.Keys == inputs.Keys && slices[i].varying == Varying(inputs) && slices[i].total == n
    {
      assert SliceOf(inputs, n, slices[i]);
    }
    forall k | k in Varying(inputs) ensures Fits(slices, k) {
      SelectionOnePerRow(inputs, n, slices, k);
    }
  }

  lemma SelectionOnePerRow(inputs: Inputs, n: nat, slices: seq<Slice>, key: string)
    requires Selection(inputs, n, slices) && key in Varying(inputs)
    ensures OnePerRow(slices, key)
  {
    forall i | 0 <= i < |slices| ensures key in slices[i].inputs && |slices[i].inputs[key]| == slices[i].length {
      SliceKey(inputs, n, slices[i], key);
    }
  }

  /** What the merge holds for one input. */
  lemma MergedKey(inputs: Inputs, n: nat, slices: seq<Slice>, key: string)
    requires Selection(inputs, n, slices) && Joinable(slices) && key in inputs
    ensures MergedOf(slices).Keys == inputs.Keys
    ensures key in Varying(inputs) ==> OnePerRow(slices, key) && MergedOf(slices)[key] == Concat(slices, key)
    ensures key !in Varying(inputs) ==> MergedOf(slices)[key] == inputs[key] && |inputs[key]| == 1
  {
    SliceKey(inputs, n, slices[0], key);
    assert slices[0].inputs.Keys == inputs.Keys && slices[0].varying == Varying(inputs) by {
      assert SliceOf(inputs, n, slices[0]);
    }
    if key in Varying(inputs) {
      SelectionOnePerRow(inputs, n, slices, key);
      hide Selection, SliceOf;
      assert slices[..0] == [];
      assert |slices| == 1 ==> Concat(slices, key) == [] + slices[0].inputs[key];
    }
  }

  lemma MergedKeys(inputs: Inputs, n: nat, slices: seq<Slice>)
    requires Selection(inputs, n, slices) && Joinable(slices)
    ensures MergedOf(slices).Keys == inputs.Keys
  {
    assert SliceOf(inputs, n, slices[0]);
  }

  lemma MergedLength(inputs: Inputs, n: nat, slices: seq<Slice>, key: string)
    requires Selection(inputs, n, slices) && Joinable(slices) && key in inputs
    ensures key in MergedOf(slices)
    ensures |MergedOf(slices)[key]| == if key in Varying(inputs) then Total(slices) else 1
  {
    MergedKey(inputs, n, slices, key);
    hide Selection, Joinable, MergedOf, Offset;
    if key in Varying(inputs) {
      ConcatLength(slices, key);
    }
  }

  lemma MergedEven(inputs: Inputs, n: nat, slices: seq<Slice>)
    requires Selection(inputs, n, slices)
    ensures Joinable(slices) && Even(MergedOf(slices), Total(slices))
  {
    hide *;
    SelectionMergeable(inputs, n, slices);
    MergedKeys(inputs, n, slices);
    SelectionFits(inputs, n, slices);
    var total, merged := Total(slices), MergedOf(slices);
    var key := LongestKey(inputs, n, slices);
    MergedLength(inputs, n, slices, key);
    forall k | k in merged ensures |merged[k]| == 1 || |merged[k]| == total {
      MergedLength(inputs, n, slices, k);
    }
    EvenBy(merged, total, key);
  }

  lemma LongestKey(inputs: Inputs, n: nat, slices: seq<Slice>) returns (key: string)
    requires Selection(inputs, n, slices) && n > 0
    ensures key in inputs && |inputs[key]| == n && (key in Varying(inputs) <==> n > 1)
    ensures Total(slices) <= n
  {
    SelectionFits(inputs, n, slices);
    key :| key in inputs && |inputs[key]| == n;
  }

  lemma EvenBy(inputs: Inputs, n: nat, key: string)
    requires forall k :: k in inputs ==> |inputs[k]| == 1 || |inputs[k]| == n
    requires n > 0 && key in inputs && |inputs[key]| == n
    ensures Even(inputs, n)
  {
  }

  /** Merging loses and reorders nothing: row `i` of slice `j` is row `Offset(j) + i` of the merge. */
  lemma MergedRowAt(inputs: Inputs, n: nat, slices: seq<Slice>, j: nat, i: nat)
    requires Selection(inputs, n, slices) && j < |slices| && i < slices[j].length
    ensures Joinable(slices) && Even(MergedOf(slices), Total(slices))
    ensures Offset(slices, j) + i < Total(slices) && slices[j].start + i < n && Even(inputs, n)
    ensures RowAt(MergedOf(slices), Offset(slices, j) + i) == RowAt(inputs, slices[j].start + i)
  {
    hide *;
    MergedEven(inputs, n, slices);
    MergedKeys(inputs, n, slices);
    OffsetNext(slices, j);
    OffsetInTotal(slices, j + 1);
    SelectionAt(inputs, n, slices, j);
    SliceRowAt(inputs, n, slices[j], i);
    forall k | k in inputs ensures SameCell(MergedOf(slices), Offset(slices, j) + i, slices[j].inputs, i, k) {
      MergedCell(inputs, n, slices, j, i, k);
    }
    SameRow(MergedOf(slices), Total(slices), Offset(slices, j) + i, slices[j].inputs, slices[j].length, i);
  }

  lemma SelectionAt(inputs: Inputs, n: nat, slices: seq<Slice>, j: nat)
    requires Selection(inputs, n, slices) && j < |slices|
    ensures SliceOf(inputs, n, slices[j]) && slices[j].length > 0
  {
  }

  ghost predicate SameCell(a: Inputs, p: nat, b: Inputs, i: nat, key: string) {
    key in a && key in b && (|a[key]| == 1 || p < |a[key]|) && (|b[key]| == 1 || i < |b[key]|) &&
    Cell(a[key], p) == Cell(b[key], i)
  }

  lemma SameRow(a: Inputs, m: nat, p: nat, b: Inputs, n: nat, i: nat)
    requires Even(a, m) && Even(b, n) && p < m && i < n && a.Keys == b.Keys
    requires forall k :: k in b ==> SameCell(a, p, b, i, k)
    ensures RowAt(a, p) == RowAt(b, i)
  {
    forall k | k in b ensures RowAt(a, p)[k] == RowAt(b, i)[k] {
      assert SameCell(a, p, b, i, k);
    }
  }

  /** The value of one input in one row. */
  function Cell(values: seq<string>, i: nat): (r: string)
    requires |values| == 1 || i < |values|
  {
    if |values| == 1 then values[0] else values[i]
  }

  lemma MergedCell(inputs: Inputs, n: nat, slices: seq<Slice>, j: nat, i: nat, key: string)
    requires Selection(inputs, n, slices) && Joinable(slices) && key in inputs && j < |slices| && i < slices[j].length
    ensures SameCell(MergedOf(slices), Offset(slices, j) + i, slices[j].inputs, i, key)
  {
    hide Selection, Joinable, MergedOf, Offset, SliceOf, Concat, Lengths, OnePerRow;
    MergedKey(inputs, n, slices, key);
    SelectionAt(inputs, n, slices, j);
    SliceKey(inputs, n, slices[j], key);
    if key in Varying(inputs) {
      ConcatAt(slices, key, j, i);
    }
  }

  lemma SliceRowAt(inputs: Inputs, n: nat, s: Slice, i: nat)
    requires SliceOf(inputs, n, s) && i < s.length
    ensures s.start + i < n && Even(inputs, n) && Even(s.inputs, s.length) && s.inputs.Keys == inputs.Keys
    ensures RowAt(s.inputs, i) == RowAt(inputs, s.start + i)
  {
    assert Rows(s.inputs, s.length)[i] == Rows(inputs, n)[s.start..s.start + s.length][i];
  }

  // ---- the slices of a whole job -----------------------------------------------------------

  /** In a tiling, a slice begins in the merge where it begins in the job. */
  lemma {:induction false} TilingOffset(inputs: Inputs, n: nat, slices: seq<Slice>, j: nat)
    requires Tiling(inputs, n, slices) && j < |slices|
    ensures Offset(slices, j) == slices[j].start
    ensures Offset(slices, j + 1) == slices[j].start + slices[j].length
  {
    OffsetNext(slices, j);
    if j > 0 {
      TilingOffset(inputs, n, slices, j - 1);
    }
  }

  lemma {:induction false} OffsetMonotone(slices: seq<Slice>, i: nat, j: nat)
    requires i <= j <= |slices|
    ensures Offset(slices, i) <= Offset(slices, j)
  {
    if i < j {
      OffsetNext(slices, j - 1);
      OffsetMonotone(slices, i, j - 1);
    }
  }

  lemma TilingAt(inputs: Inputs, n: nat, slices: seq<Slice>, i: nat)
    requires Tiling(inputs, n, slices) && i < |slices|
    ensures SliceOf(inputs, n, slices[i]) && slices[i].index == i
  {
  }

  /** The slices of a tiling follow each other. */
  lemma TilingApart(inputs: Inputs, n: nat, slices: seq<Slice>, i: nat, j: nat)
    requires Tiling(inputs, n, slices) && i < j < |slices|
    ensures slices[i].start + slices[i].length <= slices[j].start
  {
    hide *;
    TilingOffset(inputs, n, slices, i);
    TilingOffset(inputs, n, slices, j);
    OffsetMonotone(slices, i + 1, j);
  }

  lemma TilingTotal(inputs: Inputs, n: nat, slices: seq<Slice>)
    requires Tiling(inputs, n, slices)
    ensures slices != [] && Total(slices) == n
  {
    TilingOffset(inputs, n, slices, |slices| - 1);
  }

  lemma TilingSelection(inputs: Inputs, n: nat, slices: seq<Slice>)
    requires Tiling(inputs, n, slices) && n > 0
    ensures Selection(inputs, n, slices) && Total(slices) == n
  {
    hide Tiling, SliceOf, Even, Offset, Total, Lengths;
    TilingTotal(inputs, n, slices);
    forall i, j | 0 <= i < j < |slices| ensures slices[i].start + slices[i].length <= slices[j].start {
      TilingApart(inputs, n, slices, i, j);
    }
    forall i | 0 <= i < |slices| ensures SliceOf(inputs, n, slices[i]) && Even(inputs, n) && slices[i].length > 0 {
      TilingAt(inputs, n, slices, i);
      SliceShape(inputs, n, slices[i]);
    }
    assert SliceOf(inputs, n, slices[0]);
  }

  lemma SliceShape(inputs: Inputs, n: nat, s: Slice)
    requires SliceOf(inputs, n, s)
    ensures Even(inputs, n) && s.start + s.length <= n && (s.length > 0 <==> n > 0)
  {
  }

  /** Inputs of one shape with the same rows are the same. */
  lemma RowsDetermine(a: Inputs, b: Inputs, n: nat)
    requires Even(a, n) && Even(b, n) && a.Keys == b.Keys && n > 0
    requires forall k :: k in a ==> |a[k]| == |b[k]|
    requires forall p :: 0 <= p < n ==> RowAt(a, p) == RowAt(b, p)
    ensures a == b
  {
    forall k | k in a ensures a[k] == b[k] {
      forall p | 0 <= p < |a[k]| ensures a[k][p] == b[k][p] {
        assert RowAt(a, p)[k] == RowAt(b, p)[k];
      }
    }
  }

  /** Merging every slice of a job gives back the inputs of the job. */
  lemma MergeRestoresInputs(inputs: Inputs, n: nat, slices: seq<Slice>)
    requires Tiling(inputs, n, slices) && n > 0
    ensures Joinable(slices) && MergedOf(slices) == inputs
  {
    hide *;
    TilingSelection(inputs, n, slices);
    SelectionEven(inputs, n, slices);
    MergedEven(inputs, n, slices);
    MergedKeys(inputs, n, slices);
    var merged := MergedOf(slices);
    forall k | k in merged ensures |merged[k]| == |inputs[k]| {
      MergedLength(inputs, n, slices, k);
      VaryingLength(inputs, n, k);
    }
    forall p | 0 <= p < n ensures RowAt(merged, p) == RowAt(inputs, p) {
      RestoredRow(inputs, n, slices, p);
    }
    RowsDetermine(merged, inputs, n);
  }

  lemma VaryingLength(inputs: Inputs, n: nat, key: string)
    requires Even(inputs, n) && key in inputs && n > 0
    ensures |inputs[key]| == if key in Varying(inputs) then n else 1
  {
  }

  lemma SelectionEven(inputs: Inputs, n: nat, slices: seq<Slice>)
    requires Selection(inputs, n, slices)
    ensures Even(inputs, n) && slices != []
  {
  }

  lemma RestoredRow(inputs: Inputs, n: nat, slices: seq<Slice>, p: nat)
    requires Tiling(inputs, n, slices) && n > 0 && p < n
    ensures Joinable(slices) && slices != [] && Even(MergedOf(slices), n) && Even(inputs, n)
    ensures RowAt(MergedOf(slices), p) == RowAt(inputs, p)
  {
    hide Tiling, Selection, Joinable, MergedOf, Even, Offset, RowAt, Lengths;
    TilingSelection(inputs, n, slices);
    var j, i := Locate(slices, |slices|, p);
    TilingOffset(inputs, n, slices, j);
    MergedRowAt(inputs, n, slices, j, i);
  }

  // ---- cutting outputs apart ---------------------------------------------------------------

  /** The part of a flat output that belongs to slice `j`. */
  ghost function Part<T>(values: seq<T>, slices: seq<Slice>, j: nat): (r: seq<T>)
    requires j < |slices| && |values| == Total(slices)
  {
    OffsetNext(slices, j);
    OffsetInTotal(slices, j + 1);
    values[Offset(slices, j)..Offset(slices, j + 1)]
  }

  /** The offset loop of the demux; a flat output of the wrong length is an error. */
  method Demux<T>(values: seq<T>, ordered: seq<Slice>) returns (r: Option<seq<seq<T>>>)
    ensures r.Some? <==> |values| == Total(ordered)
    ensures r.Some? ==> |r.value| == |ordered|
    ensures r.Some? ==> forall j :: 0 <= j < |ordered| ==> r.value[j] == Part(values, ordered, j)
  {
    hide Offset;
    var total := 0;
    OffsetIsZero(ordered);
    for i := 0 to |ordered|
      invariant total == Offset(ordered, i)
    {
      OffsetNext(ordered, i);
      total := total + ordered[i].length;
    }
    if |values| != total {
      return None;
    }
    var parts: seq<seq<T>> := [];
    var offset := 0;
    for i := 0 to |ordered|
      invariant offset == Offset(ordered, i) && |parts| == i
      invariant forall j :: 0 <= j < i ==> parts[j] == Part(values, ordered, j)
    {
      OffsetNext(ordered, i);
      OffsetInTotal(ordered, i + 1);
      parts := parts + [values[offset..offset + ordered[i].length]];
      offset := offset + ordered[i].length;
    }
    r := Some(parts);
  }

  /** A row-wise runtime: each output of a run is one function applied to every row. */
  ghost function Outputs(f: Row -> string, rows: seq<Row>): (r: seq<string>)
    ensures |r| == |rows|
  {
    seq(|rows|, i requires 0 <= i < |rows| => f(rows[i]))
  }

  lemma OutputsAt(f: Row -> string, inputs: Inputs, n: nat, p: nat)
    requires Even(inputs, n) && p < n
    ensures Outputs(f, Rows(inputs, n))[p] == f(RowAt(inputs, p))
  {
  }

  lemma PartAt<T>(values: seq<T>, slices: seq<Slice>, j: nat)
    requires j < |slices| && |values| == Total(slices)
    ensures Offset(slices, j) + slices[j].length <= |values| && |Part(values, slices, j)| == slices[j].length
    ensures forall i :: 0 <= i < slices[j].length ==> Part(values, slices, j)[i] == values[Offset(slices, j) + i]
  {
    hide Offset;
    OffsetNext(slices, j);
    OffsetInTotal(slices, j + 1);
  }

  /** Merging, running and cutting apart gives each slice what the job has for its rows. */
  lemma DemuxRestores(f: Row -> string, inputs: Inputs, n: nat, slices: seq<Slice>, j: nat)
    requires Selection(inputs, n, slices) && j < |slices|
    ensures Joinable(slices) && Even(MergedOf(slices), Total(slices)) && SliceOf(inputs, n, slices[j])
    ensures Part(Outputs(f, Rows(MergedOf(slices), Total(slices))), slices, j) ==
            Outputs(f, Rows(inputs, n))[slices[j].start..slices[j].start + slices[j].length]
  {
    hide *;
    MergedEven(inputs, n, slices);
    SelectionAt(inputs, n, slices, j);
    SliceShape(inputs, n, slices[j]);
    var flat, whole := Outputs(f, Rows(MergedOf(slices), Total(slices))), Outputs(f, Rows(inputs, n));
    OutputsLength(f, MergedOf(slices), Total(slices));
    OutputsLength(f, inputs, n);
    PartAt(flat, slices, j);
    var a, b := Part(flat, slices, j), whole[slices[j].start..slices[j].start + slices[j].length];
    forall i | 0 <= i < |a| ensures a[i] == b[i] {
      MergedRowAt(inputs, n, slices, j, i);
      OutputsAt(f, MergedOf(slices), Total(slices), Offset(slices, j) + i);
      OutputsAt(f, inputs, n, slices[j].start + i);
    }
    assert a == b;
  }

  lemma OutputsLength(f: Row -> string, inputs: Inputs, n: nat)
    requires Even(inputs, n)
    ensures |Outputs(f, Rows(inputs, n))| == n
  {
  }
}
