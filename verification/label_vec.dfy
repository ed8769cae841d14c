/**
 * The label snapshot taken at the start of a round: every record's labels
 * copied into one flat sequence, together with the position where each
 * record's chunk ends (`LabelVec` in label_vec.rs).
 */
module LabelVecs {
  import opened Labels

  datatype LabelVec = LabelVec(labels: seq<Label>, chunkBorders: seq<nat>)

  /** The in-order concatenation of all records' label lists. */
  function Flatten(data: seq<seq<Label>>): seq<Label> {
    if |data| == 0 then [] else data[0] + Flatten(data[1..])
  }

  /** The border the chunk loop has reached after `i` chunks (`last`). */
  function LastBorder(borders: seq<nat>, i: nat): nat
    requires i <= |borders|
  {
    if i == 0 then 0 else borders[i - 1]
  }

  /**
   * Borders never go backwards, never pass the end of `labels`, and the last
   * one is the end of `labels`: every chunk slice is in bounds and the chunks
   * cover all labels.
   */
  predicate Valid(v: LabelVec) {
    && (forall i, j :: 0 <= i < j < |v.chunkBorders| ==> v.chunkBorders[i] <= v.chunkBorders[j])
    && (forall i :: 0 <= i < |v.chunkBorders| ==> v.chunkBorders[i] <= |v.labels|)
    && LastBorder(v.chunkBorders, |v.chunkBorders|) == |v.labels|
  }

  lemma {:induction false} FlattenAppend(data: seq<seq<Label>>, x: seq<Label>)
    ensures Flatten(data + [x]) == Flatten(data) + x
  {
    if |data| == 0 {
      assert data + [x] == [x];
      assert Flatten([x]) == x + Flatten([]);
    } else {
      assert (data + [x])[1..] == data[1..] + [x];
      FlattenAppend(data[1..], x);
    }
  }

  /**
   * `From<&[D]>`: one pass over the records, appending each record's labels
   * and then pushing the new length as that record's border.
   */
  function From(data: seq<seq<Label>>): (v: LabelVec)
    ensures Valid(v)
    ensures |v.chunkBorders| == |data|
    ensures v.labels == Flatten(data)
    ensures forall i :: 0 <= i < |data| ==> v.chunkBorders[i] == LastBorder(v.chunkBorders, i) + |data[i]|
  {
    if |data| == 0 then LabelVec([], [])
    else
      var prev := From(data[..|data| - 1]);
      PushRecord(data, prev);
      Push(prev, data[|data| - 1])
  }

  /** One turn of the loop in `from`: append a record's labels, then push the new length as its border. */
  function Push(v: LabelVec, x: seq<Label>): LabelVec {
    LabelVec(v.labels + x, v.chunkBorders + [|v.labels + x|])
  }

  /** A turn of the loop keeps the snapshot valid. */
  lemma PushValid(v: LabelVec, x: seq<Label>)
    requires Valid(v)
    ensures Valid(Push(v, x))
  {
    var b := Push(v, x).chunkBorders;
    forall i, j | 0 <= i < j < |b|
      ensures b[i] <= b[j]
    {
      if j < |v.chunkBorders| {
        assert b[i] == v.chunkBorders[i] && b[j] == v.chunkBorders[j];
      } else {
        assert b[i] <= |v.labels|;
      }
    }
  }

  /** A turn of the loop extends every property of `From` to the whole input. */
  lemma PushRecord(data: seq<seq<Label>>, prev: LabelVec)
    requires |data| > 0
    requires Valid(prev) && |prev.chunkBorders| == |data| - 1
    requires prev.labels == Flatten(data[..|data| - 1])
    requires forall i :: 0 <= i < |data| - 1 ==> prev.chunkBorders[i] == LastBorder(prev.chunkBorders, i) + |data[i]|
    ensures var v := Push(prev, data[|data| - 1]);
      && Valid(v)
      && |v.chunkBorders| == |data|
      && v.labels == Flatten(data)
      && forall i :: 0 <= i < |data| ==> v.chunkBorders[i] == LastBorder(v.chunkBorders, i) + |data[i]|
  {
    var init := data[..|data| - 1];
    var x := data[|data| - 1];
    assert init + [x] == data;
    FlattenAppend(init, x);
    PushValid(prev, x);
    var b := Push(prev, x).chunkBorders;
    forall i | 0 <= i < |data|
      ensures b[i] == LastBorder(b, i) + |data[i]|
    {
      if i < |init| {
        assert LastBorder(b, i) == LastBorder(prev.chunkBorders, i);
      }
    }
  }

  /** The chunk `iter` yields for border `i`: the labels from the previous border up to this one. */
  function Chunk(v: LabelVec, i: nat): seq<Label>
    requires Valid(v) && i < |v.chunkBorders|
  {
    v.labels[LastBorder(v.chunkBorders, i)..v.chunkBorders[i]]
  }

  /** The per-record slices `iter` yields, in order. */
  function Chunks(v: LabelVec): (r: seq<seq<Label>>)
    requires Valid(v)
    ensures |r| == |v.chunkBorders|
    ensures forall i :: 0 <= i < |r| ==> r[i] == Chunk(v, i)
  {
    seq(|v.chunkBorders|, i requires 0 <= i < |v.chunkBorders| => Chunk(v, i))
  }

  /** `iter`: walks the borders, slicing from the previous border to the current one. */
  method Iter(v: LabelVec) returns (chunks: seq<seq<Label>>)
    requires Valid(v)
    ensures |chunks| == |v.chunkBorders|
    ensures forall i :: 0 <= i < |chunks| ==> chunks[i] == Chunk(v, i)
    ensures Flatten(chunks) == v.labels
  {
    var last := 0;
    chunks := [];
    var k := 0;
    while k < |v.chunkBorders|
      invariant k <= |v.chunkBorders|
      invariant last == LastBorder(v.chunkBorders, k)
      invariant |chunks| == k
      invariant forall i :: 0 <= i < k ==> chunks[i] == Chunk(v, i)
      invariant Flatten(chunks) == v.labels[..last]
    {
      var border := v.chunkBorders[k];
      var item := v.labels[last..border];
      FlattenAppend(chunks, item);
      assert v.labels[..border] == v.labels[..last] + item;
      last := border;
      chunks := chunks + [item];
      k := k + 1;
    }
    assert v.labels[..last] == v.labels;
  }

  /** Appending a record to the input appends exactly its labels as one more chunk. */
  lemma ChunksAppend(pv: LabelVec, x: seq<Label>)
    requires Valid(pv)
    ensures Valid(Push(pv, x))
    ensures Chunks(Push(pv, x)) == Chunks(pv) + [x]
  {
    PushValid(pv, x);
    var v := Push(pv, x);
    var c := Chunks(v);
    forall i | 0 <= i < |c|
      ensures c[i] == (Chunks(pv) + [x])[i]
    {
      if i < |pv.chunkBorders| {
        assert LastBorder(v.chunkBorders, i) == LastBorder(pv.chunkBorders, i);
        assert v.chunkBorders[i] == pv.chunkBorders[i];
        assert Chunk(v, i) == Chunk(pv, i);
      } else {
        assert LastBorder(v.chunkBorders, i) == |pv.labels|;
      }
    }
  }

  /** The snapshot of a non-empty input is the snapshot of all but its last record, extended by that record. */
  lemma FromSnoc(data: seq<seq<Label>>)
    requires |data| > 0
    ensures From(data) == Push(From(data[..|data| - 1]), data[|data| - 1])
  {
  }

  /** Round trip: the chunks of the snapshot of `data` are exactly the records' label lists. */
  lemma {:induction false} RoundTrip(data: seq<seq<Label>>)
    ensures Chunks(From(data)) == data
  {
    if |data| > 0 {
      var init := data[..|data| - 1];
      var x := data[|data| - 1];
      var pv := From(init);
      FromSnoc(data);
      RoundTrip(init);
      ChunksAppend(pv, x);
      calc {
        Chunks(From(data));
        Chunks(Push(pv, x));
        Chunks(pv) + [x];
        init + [x];
        data;
      }
    }
  }

  /** `iter` over `from(data)` hands every record's labels back, in order. */
  method SnapshotRoundTrip(data: seq<seq<Label>>) returns (chunks: seq<seq<Label>>)
    ensures chunks == data
  {
    var v := From(data);
    chunks := Iter(v);
    RoundTrip(data);
  }
}
