/** Cutting row inputs into windows (routes/jobs.py:93-127, 2071-2106). */
module Slicing {
  import opened Collections

  /** An input list per name: one value for all rows, or one value per row. */
  type Inputs = map<string, seq<string>>

  type Row = map<string, string>

  datatype Error = UnevenInputs | BadBatchSize

  // ---- shape ------------------------------------------------------------------------------

  ghost predicate IsMaxLength(inputs: Inputs, n: nat) {
    (forall k :: k in inputs ==> |inputs[k]| <= n) && (n > 0 ==> exists k :: k in inputs && |inputs[k]| == n)
  }

  /** Every list has the row count `n` or a single value. */
  ghost predicate Even(inputs: Inputs, n: nat) {
    IsMaxLength(inputs, n) && forall k :: k in inputs ==> |inputs[k]| == 1 || |inputs[k]| == n
  }

  lemma MaxLengthUnique(inputs: Inputs, m: nat, n: nat)
    requires IsMaxLength(inputs, m) && IsMaxLength(inputs, n)
    ensures m == n
  {
  }

  method MaxLength(inputs: Inputs) returns (n: nat)
    ensures IsMaxLength(inputs, n)
  {
    n := 0;
    var todo := inputs.Keys;
    while todo != {}
      invariant todo <= inputs.Keys
      invariant forall k :: k in inputs && k !in todo ==> |inputs[k]| <= n
      invariant n > 0 ==> exists k :: k in inputs && |inputs[k]| == n
    {
      var k :| k in todo;
      todo := todo - {k};
      if |inputs[k]| > n {
        n := |inputs[k]|;
      }
    }
  }

  /** The length check both functions run. */
  method CheckEven(inputs: Inputs, n: nat) returns (even: bool)
    requires IsMaxLength(inputs, n)
    ensures even <==> Even(inputs, n)
  {
    var todo := inputs.Keys;
    while todo != {}
      invariant todo <= inputs.Keys
      invariant forall k :: k in inputs && k !in todo ==> |inputs[k]| == 1 || |inputs[k]| == n
    {
      var k :| k in todo;
      todo := todo - {k};
      if |inputs[k]| != 1 && |inputs[k]| != n {
        return false;
      }
    }
    even := true;
  }

  /** `_input_shape`: the row count, and the names of the lists longer than one. */
  method InputShape(inputs: Inputs) returns (r: Result<(nat, set<string>), Error>)
    ensures r.Ok? ==> Even(inputs, r.value.0) && r.value.1 == Varying(inputs)
    ensures r.Err? ==> forall n: nat :: !Even(inputs, n)
  {
    var n := MaxLength(inputs);
    var even := CheckEven(inputs, n);
    if !even {
      forall m: nat ensures !Even(inputs, m) {
        assert IsMaxLength(inputs, m) ==> m == n by {
          if IsMaxLength(inputs, m) { MaxLengthUnique(inputs, m, n); }
        }
      }
      return Err(UnevenInputs);
    }
    r := Ok((n, set k | k in inputs && |inputs[k]| > 1));
  }

  function Varying(inputs: Inputs): (r: set<string>) {
    set k | k in inputs && |inputs[k]| > 1
  }

  // ---- rows -------------------------------------------------------------------------------

  ghost function RowAt(inputs: Inputs, i: nat): (r: Row)
    requires forall k :: k in inputs ==> |inputs[k]| == 1 || i < |inputs[k]|
  {
    map k | k in inputs :: if |inputs[k]| == 1 then inputs[k][0] else inputs[k][i]
  }

  /** The rows the inputs stand for, single values repeated. */
  ghost function Rows(inputs: Inputs, n: nat): (r: seq<Row>)
    requires Even(inputs, n)
    ensures |r| == n
  {
    seq(n, i requires 0 <= i < n => RowAt(inputs, i))
  }

  // ---- windows ----------------------------------------------------------------------------

  function Min(a: nat, b: nat): nat { if a < b then a else b }

  /** The rows `start .. stop`, single values kept. */
  function Window(inputs: Inputs, start: nat, stop: nat): (r: Inputs)
    requires start <= stop && forall k :: k in inputs ==> |inputs[k]| == 1 || stop <= |inputs[k]|
  {
    map k | k in inputs :: if |inputs[k]| == 1 then inputs[k] else inputs[k][start..stop]
  }

  lemma WindowEven(inputs: Inputs, n: nat, start: nat, stop: nat)
    requires Even(inputs, n) && start < stop <= n && n > 1
    ensures Even(Window(inputs, start, stop), stop - start)
  {
    var w := Window(inputs, start, stop);
    var key :| key in inputs && |inputs[key]| == n;
    assert key in w && |w[key]| == stop - start;
  }

  lemma WindowRowAt(inputs: Inputs, n: nat, start: nat, stop: nat, i: nat)
    requires Even(inputs, n) && start < stop <= n && i < stop - start
    ensures RowAt(Window(inputs, start, stop), i) == RowAt(inputs, start + i)
  {
    var w := Window(inputs, start, stop);
    forall k | k in inputs ensures RowAt(w, i)[k] == RowAt(inputs, start + i)[k] {
      if |inputs[k]| != 1 {
        assert w[k] == inputs[k][start..stop];
        assert |w[k]| == 1 ==> i == 0;
      }
    }
  }

  lemma WindowRows(inputs: Inputs, n: nat, start: nat, stop: nat)
    requires Even(inputs, n) && start < stop <= n && n > 1
    ensures Even(Window(inputs, start, stop), stop - start)
    ensures Rows(Window(inputs, start, stop), stop - start) == Rows(inputs, n)[start..stop]
  {
    WindowEven(inputs, n, start, stop);
    var a, b := Rows(Window(inputs, start, stop), stop - start), Rows(inputs, n)[start..stop];
    hide Window, Even;
    assert |a| == |b|;
    forall i | 0 <= i < |a| ensures a[i] == b[i] {
      WindowRowAt(inputs, n, start, stop, i);
    }
    assert a == b;
  }

  /** `_chunk_inputs`: the whole when it fits, else consecutive windows of `size` rows. */
  method ChunkInputs(inputs: Inputs, size: nat) returns (r: Result<seq<Inputs>, Error>)
    requires size > 0
    ensures r.Err? <==> forall n: nat :: !Even(inputs, n)
    ensures r.Ok? ==> exists n: nat :: IsChunking(inputs, n, size, r.value)
  {
    var n := MaxLength(inputs);
    var even := CheckEven(inputs, n);
    if !even {
      forall m: nat ensures !Even(inputs, m) {
        assert IsMaxLength(inputs, m) ==> m == n by {
          if IsMaxLength(inputs, m) { MaxLengthUnique(inputs, m, n); }
        }
      }
      return Err(UnevenInputs);
    }
    if n <= size {
      assert IsChunking(inputs, n, size, [inputs]);
      return Ok([inputs]);
    }
    var batches: seq<Inputs> := [];
    var start := 0;
    while start < n
      invariant Even(inputs, n) && start == |batches| * size && (batches == [] || (|batches| - 1) * size < n)
      invariant forall i :: 0 <= i < |batches| ==> IsWindow(inputs, n, size, i, batches[i])
    {
      WindowBounds(size, |batches|);
      var batch := map k | k in inputs ::
        if |inputs[k]| == 1 then inputs[k] else inputs[k][start..Min(start + size, |inputs[k]|)];
      assert batch == Window(inputs, start, Min(start + size, n));
      assert IsWindow(inputs, n, size, |batches|, batch);
      batches := batches + [batch];
      start := start + size;
    }
    assert IsChunking(inputs, n, size, batches);
    r := Ok(batches);
  }

  lemma WindowBounds(size: nat, i: nat)
    requires size > 0
    ensures (i + 1) * size == i * size + size
  {
  }

  ghost predicate IsWindow(inputs: Inputs, n: nat, size: nat, i: nat, w: Inputs) {
    Even(inputs, n) && i * size < n && w == Window(inputs, i * size, Min(i * size + size, n))
  }

  /** The windows of a run: as many as needed, in order, the last one possibly short. */
  ghost predicate IsChunking(inputs: Inputs, n: nat, size: nat, chunks: seq<Inputs>) {
    Even(inputs, n) && chunks != [] &&
    if n <= size then chunks == [inputs]
    else (forall i :: 0 <= i < |chunks| ==> IsWindow(inputs, n, size, i, chunks[i])) && n <= |chunks| * size
  }

  // ---- slices ------------------------------------------------------------------------------

  datatype Slice = Slice(index: nat, start: nat, length: nat, total: nat, varying: set<string>, inputs: Inputs)

  /** The slice holds the rows `start .. start + length` of the job. */
  ghost predicate SliceOf(inputs: Inputs, n: nat, s: Slice) {
    Even(inputs, n) && s.total == n && s.varying == Varying(inputs) && s.start + s.length <= n &&
    s.inputs.Keys == inputs.Keys && Even(s.inputs, s.length) && (s.length > 0 <==> n > 0) &&
    Rows(s.inputs, s.length) == Rows(inputs, n)[s.start..s.start + s.length] &&
    (forall k :: k in inputs && k !in Varying(inputs) ==> s.inputs[k] == inputs[k]) &&
    (forall k :: k in Varying(inputs) ==> |s.inputs[k]| == s.length)
  }

  /** Slices in order, without gap or overlap, from the first row to the last. */
  ghost predicate Tiling(inputs: Inputs, n: nat, slices: seq<Slice>) {
    slices != [] && (forall i :: 0 <= i < |slices| ==> SliceOf(inputs, n, slices[i]) && slices[i].index == i) &&
    slices[0].start == 0 && slices[|slices| - 1].start + slices[|slices| - 1].length == n &&
    forall i, j :: 0 <= i && j == i + 1 && j < |slices| ==> slices[j].start == slices[i].start + slices[i].length
  }

  /** The slice loop of `submit_job`: the start of a slice is the sum of the lengths before it. */
  method SliceLoop(inputs: Inputs, n: nat, size: nat, varying: set<string>, chunks: seq<Inputs>)
    returns (slices: seq<Slice>)
    requires size > 0 && IsChunking(inputs, n, size, chunks) && varying == Varying(inputs)
    ensures Tiling(inputs, n, slices)
  {
    hide IsChunking, IsSlice, Tiling, Even, Varying, ChunkEnd;
    slices := [];
    var start := 0;
    for i := 0 to |chunks|
      invariant |slices| == i && start == ChunkStart(n, size, i)
      invariant forall j :: 0 <= j < i ==> IsSlice(inputs, n, size, slices[j], j)
    {
      ChunkShape(inputs, n, size, chunks, i);
      var window := InputShape(chunks[i]);
      assert window.Ok?;
      var (length, _) := window.value;
      EvenUnique(chunks[i], length, ChunkEnd(n, size, i) - start);
      slices := slices + [Slice(i, start, length, n, varying, chunks[i])];
      start := start + length;
    }
    LastChunk(inputs, n, size, chunks);
    TilesAll(inputs, n, size, slices);
  }

  lemma EvenUnique(inputs: Inputs, m: nat, n: nat)
    requires Even(inputs, m) && Even(inputs, n)
    ensures m == n
  {
  }

  /** Slicing one submitted workflow; without a batch size every row is a slice. */
  method MakeSlices(inputs: Inputs, batchSize: Option<int>) returns (r: Result<seq<Slice>, Error>)
    ensures r.Ok? <==> (batchSize.Some? ==> batchSize.value > 0) && exists n: nat :: Even(inputs, n)
    ensures r.Ok? ==> exists n: nat :: Tiling(inputs, n, r.value)
  {
    var shape := InputShape(inputs);
    if shape.Err? {
      return Err(shape.error);
    }
    var (n, varying) := shape.value;
    if batchSize.Some? && batchSize.value <= 0 {
      return Err(BadBatchSize);
    }
    var size: nat := if batchSize.Some? then batchSize.value else 1;
    hide Even, IsChunking, Tiling, Varying;
    var chunked := ChunkInputs(inputs, size);
    assert chunked.Ok?;
    ghost var m: nat :| IsChunking(inputs, m, size, chunked.value);
    ChunkingEven(inputs, m, size, chunked.value);
    EvenUnique(inputs, m, n);
    var slices := SliceLoop(inputs, n, size, varying, chunked.value);
    r := Ok(slices);
  }

  lemma ChunkingEven(inputs: Inputs, n: nat, size: nat, chunks: seq<Inputs>)
    requires IsChunking(inputs, n, size, chunks)
    ensures Even(inputs, n)
  {
  }

  ghost function ChunkEnd(n: nat, size: nat, i: nat): nat {
    if n <= size then n else Min(i * size + size, n)
  }

  ghost function ChunkStart(n: nat, size: nat, i: nat): nat {
    if i == 0 then 0 else ChunkEnd(n, size, i - 1)
  }

  ghost predicate IsSlice(inputs: Inputs, n: nat, size: nat, s: Slice, i: nat) {
    s.index == i && SliceOf(inputs, n, s) && s.start == ChunkStart(n, size, i) &&
    s.start + s.length == ChunkEnd(n, size, i)
  }

  /** A chunk is a window of the rows, whose length `_input_shape` recovers. */
  lemma ChunkShape(inputs: Inputs, n: nat, size: nat, chunks: seq<Inputs>, i: nat)
    requires IsChunking(inputs, n, size, chunks) && i < |chunks| && size > 0
    ensures ChunkStart(n, size, i) <= ChunkEnd(n, size, i) <= n
    ensures ChunkStart(n, size, i + 1) == ChunkEnd(n, size, i)
    ensures var start, stop := ChunkStart(n, size, i), ChunkEnd(n, size, i);
      Even(chunks[i], stop - start) &&
      IsSlice(inputs, n, size, Slice(i, start, stop - start, n, Varying(inputs), chunks[i]), i)
  {
    if n > size {
      WindowAt(inputs, n, size, chunks, i);
      var start, stop := ChunkStart(n, size, i), ChunkEnd(n, size, i);
      hide IsChunking, IsWindow, ChunkStart, ChunkEnd;
      WindowRows(inputs, n, start, stop);
      WindowIsSlice(inputs, n, start, stop, i);
    } else {
      assert chunks == [inputs] && i == 0;
      assert Rows(inputs, n)[0..n] == Rows(inputs, n);
    }
  }

  lemma WindowAt(inputs: Inputs, n: nat, size: nat, chunks: seq<Inputs>, i: nat)
    requires IsChunking(inputs, n, size, chunks) && i < |chunks| && n > size > 0
    ensures Even(inputs, n) && ChunkStart(n, size, i) < ChunkEnd(n, size, i) <= n
    ensures chunks[i] == Window(inputs, ChunkStart(n, size, i), ChunkEnd(n, size, i))
  {
    assert IsWindow(inputs, n, size, i, chunks[i]);
    if i > 0 {
      WindowBounds(size, i - 1);
    }
  }

  lemma WindowIsSlice(inputs: Inputs, n: nat, start: nat, stop: nat, i: nat)
    requires Even(inputs, n) && start < stop <= n && n > 1
    requires Even(Window(inputs, start, stop), stop - start)
    requires Rows(Window(inputs, start, stop), stop - start) == Rows(inputs, n)[start..stop]
    ensures SliceOf(inputs, n, Slice(i, start, stop - start, n, Varying(inputs), Window(inputs, start, stop)))
  {
    hide Rows;
    assert Rows(inputs, n)[start..start + (stop - start)] == Rows(inputs, n)[start..stop];
  }

  lemma TilesAll(inputs: Inputs, n: nat, size: nat, slices: seq<Slice>)
    requires slices != [] && ChunkEnd(n, size, |slices| - 1) == n
    requires forall j :: 0 <= j < |slices| ==> IsSlice(inputs, n, size, slices[j], j)
    ensures Tiling(inputs, n, slices)
  {
    assert IsSlice(inputs, n, size, slices[0], 0) && IsSlice(inputs, n, size, slices[|slices| - 1], |slices| - 1);
    forall i, j | 0 <= i && j == i + 1 && j < |slices| ensures slices[j].start == slices[i].start + slices[i].length {
      assert IsSlice(inputs, n, size, slices[i], i) && IsSlice(inputs, n, size, slices[j], j);
    }
    forall i | 0 <= i < |slices| ensures SliceOf(inputs, n, slices[i]) && slices[i].index == i {
      assert IsSlice(inputs, n, size, slices[i], i);
    }
  }

  lemma LastChunk(inputs: Inputs, n: nat, size: nat, chunks: seq<Inputs>)
    requires IsChunking(inputs, n, size, chunks) && size > 0
    ensures chunks != [] && ChunkEnd(n, size, |chunks| - 1) == n
  {
    WindowBounds(size, |chunks| - 1);
  }
}
