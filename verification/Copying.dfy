/** Copying an object: its payload reader feeds the slicer. */
module Copying {
  import opened Common
  import opened Objects
  import opened SlicerSpec
  import opened Slicer
  import SlicerTheorems
  import S = Streams

  /** An honest, complete download of an object. */
  ghost predicate WholeDownload(x: S.StreamReader<Byte>)
    reads x
  {
    x.Valid() && x.delivered == [] && x.end == S.EndOfStream && |x.original| == x.declared
  }

  /** Reads the download through a buffer of the given size, until the reader reports the end. */
  method ReadThrough(x: S.StreamReader<Byte>, size: nat) returns (results: seq<ReadResult>)
    requires WholeDownload(x) && size >= 1
    modifies x
    ensures results != []
    ensures var last := |results| - 1;
            && results[last].status == EndOfData && |results[last].data| == |x.original| % size
            && (forall i :: 0 <= i < last ==> results[i].status == More && |results[i].data| == size)
            && Flatten(ReadData(results[..last])) + results[last].data == x.original
  {
    results := [];
    ghost var rounds: nat := 0;
    while true
      invariant x.Valid() && Flatten(ReadData(results)) == x.delivered
      invariant |x.delivered| == rounds * size
      invariant forall i :: 0 <= i < |results| ==> results[i].status == More && |results[i].data| == size
      decreases |x.original| - |x.delivered|
    {
      var buf := new Byte[size];
      assert x.delivered <= x.original;
      var n, e := x.Read(buf);
      assert x.delivered <= x.original;
      if e != S.NoError {
        DivisionUnique(|x.original|, size, rounds, n);
        results := results + [ReadResult(buf[..n], EndOfData)];
        assert results[..|results| - 1] + [results[|results| - 1]] == results;
        return;
      }
      ghost var before := results;
      results := results + [ReadResult(buf[..n], More)];
      assert ReadData(results) == ReadData(before) + [buf[..n]];
      assert ReadData(results)[..|before|] == ReadData(before);
      rounds := rounds + 1;
      assert rounds * size == (rounds - 1) * size + size;
    }
  }

  /** The payload up to the last full buffer of the caller's limit. */
  function Kept(payload: seq<Byte>, o: Options): seq<Byte> {
    payload[..|payload| - |payload| % (if o.payloadLimit > 0 then o.payloadLimit else 1048576)]
  }

  /** Slicing the payload reader of a complete object stores the payload up to the last full buffer: the
      copy is whole if and only if the payload length is a multiple of the object size limit. */
  method CopyObject(x: S.StreamReader<Byte>, w: Recorder, header: Object, o: Options, key: nat, splitID: nat)
    returns (r: SliceResult)
    requires WholeDownload(x) && w.log == [] && header.header.split == null
    modifies x, w, header.header
    ensures var c := ConfigFor(old(header.header.Flat()), header.id, header.signature, o, key, splitID);
            r.Root? <==> Complete(old(header.header.fields)) && |Sliced(c, Kept(x.original, o))| <= w.accepts
    ensures r.Root? ==>
              var c := ConfigFor(old(header.header.Flat()), header.id, header.signature, o, key, splitID);
              var limit := if o.payloadLimit > 0 then o.payloadLimit else 1048576;
              && w.log == Sliced(c, Kept(x.original, o)) && SlicerTheorems.CutTo(w.log, Kept(x.original, o), limit)
              && (w.log == Sliced(c, x.original) <==> |x.original| % limit == 0)
  {
    ghost var c := ConfigFor(header.header.Flat(), header.id, header.signature, o, key, splitID);
    var results := ReadThrough(x, PayloadLimit(o));
    ghost var last := |results| - 1;
    ghost var kept := Flatten(ReadData(results[..last]));
    assert kept == Kept(x.original, o);
    r := Slice(w, header, results, o, key, splitID, last);
    SlicerTheorems.ReaderKeptIffCleanEnd(c, kept, results[last].data);
  }
}
