/** Object headers as values. Hashes are ideal: a checksum names the bytes it was taken over and an
    object identifier names the header it was taken over, so equal identifiers mean equal headers. */
module Objects {
  import opened Common

  newtype Byte = x: int | 0 <= x < 256

  datatype Checksum = SHA256(data: seq<Byte>) | TillichZemor(data: seq<Byte>)

  /** The session an object is created in and the user who issued it. */
  datatype Session = Session(id: nat, issuer: nat)

  /** Header fields the slicer only copies. */
  datatype Fields = Fields(version: (nat, nat), container: Option<nat>, owner: Option<nat>, epoch: nat, kind: nat,
                           attributes: seq<(string, string)>, session: Option<Session>)

  datatype HeaderValue = HeaderValue(fields: Fields, length: nat, hash: Option<Checksum>,
                                     homomorphic: Option<Checksum>, split: Option<SplitValue>)

  datatype SplitValue = SplitValue(splitID: Option<nat>, previous: Option<ObjectID>, parent: Option<ObjectID>,
                                   parentSignature: Option<Signature>, parentHeader: Option<HeaderValue>,
                                   children: seq<ObjectID>)

  datatype ObjectID = HashOf(header: HeaderValue)

  datatype Signature = Signature(key: nat, id: ObjectID)

  const NoSplit := SplitValue(None, None, None, None, None, [])

  /** An object as handed to the object stream. */
  datatype Stored = Stored(id: ObjectID, signature: Option<Signature>, header: HeaderValue, payload: seq<Byte>)

  // ---- Cutting a payload ----

  /** The payloads of the objects cut from `data`: full chunks, then what is left. */
  function Chunks(data: seq<Byte>, limit: nat): (chunks: seq<seq<Byte>>)
    requires limit >= 1
    ensures chunks != []
    decreases |data|
  {
    if |data| <= limit then [data] else [data[..limit]] + Chunks(data[limit..], limit)
  }

  /** Full chunks, then a last one that is not larger and, after the first, not empty. */
  ghost predicate Chunked(chunks: seq<seq<Byte>>, limit: nat) {
    && chunks != []
    && (forall i :: 0 <= i < |chunks| - 1 ==> |chunks[i]| == limit)
    && |chunks[|chunks| - 1]| <= limit
    && (|chunks| > 1 ==> |chunks[|chunks| - 1]| > 0)
  }

  lemma {:induction false} ChunksAreChunked(data: seq<Byte>, limit: nat)
    requires limit >= 1
    ensures Chunked(Chunks(data, limit), limit)
    ensures Flatten(Chunks(data, limit)) == data
    decreases |data|
  {
    var chunks := Chunks(data, limit);
    if |data| <= limit {
      FlattenSingle(data);
    } else {
      var rest := Chunks(data[limit..], limit);
      ChunksAreChunked(data[limit..], limit);
      FlattenConcat([data[..limit]], rest);
      FlattenSingle(data[..limit]);
      assert data[..limit] + data[limit..] == data;
      if |rest| == 1 {
        assert rest[0] == data[limit..];
      }
    }
  }

  /** Only one chunking of given bytes exists. */
  lemma {:induction false} ChunkingUnique(chunks: seq<seq<Byte>>, limit: nat)
    requires limit >= 1 && Chunked(chunks, limit)
    ensures Chunks(Flatten(chunks), limit) == chunks
  {
    if |chunks| == 1 {
      assert chunks == [chunks[0]];
      FlattenSingle(chunks[0]);
    } else {
      var rest := chunks[1..];
      assert chunks == [chunks[0]] + rest;
      FlattenSingle(chunks[0]);
      FlattenConcat([chunks[0]], rest);
      ChunkingUnique(rest, limit);
      FlattenNotEmpty(rest);
      assert Flatten(chunks)[..limit] == chunks[0];
      assert Flatten(chunks)[limit..] == Flatten(rest);
    }
  }

  lemma FlattenNotEmpty(chunks: seq<seq<Byte>>)
    requires chunks != [] && |chunks[|chunks| - 1]| > 0
    ensures |Flatten(chunks)| > 0
  {
  }

  /** Full chunks come off the front one by one. */
  lemma ChunksAfterFull(full: seq<seq<Byte>>, rest: seq<Byte>, limit: nat)
    requires limit >= 1 && rest != [] && forall i :: 0 <= i < |full| ==> |full[i]| == limit
    ensures Chunks(Flatten(full) + rest, limit) == full + Chunks(rest, limit)
  {
    var chunks := Chunks(rest, limit);
    ChunksAreChunked(rest, limit);
    FlattenConcat(full, chunks);
    assert Chunked(full + chunks, limit) by {
      if |chunks| == 1 {
        assert chunks == [rest];
      }
    }
    ChunkingUnique(full + chunks, limit);
  }

  lemma {:induction false} FlattenLength(chunks: seq<seq<Byte>>, limit: nat)
    requires Chunked(chunks, limit)
    ensures |Flatten(chunks)| == (|chunks| - 1) * limit + |chunks[|chunks| - 1]|
  {
    var m := |chunks| - 1;
    if m == 0 {
      assert chunks[..0] == [];
    } else {
      FlattenLength(chunks[..m], limit);
      assert (m - 1) * limit + limit == m * limit;
    }
  }

  /** There are max(1, ceil(total / limit)) chunks. */
  lemma ChunkCount(data: seq<Byte>, limit: nat)
    requires limit >= 1
    ensures |Chunks(data, limit)| == if |data| == 0 then 1 else (|data| + limit - 1) / limit
    ensures |Chunks(data, limit)| > 1 <==> |data| > limit
  {
    var chunks := Chunks(data, limit);
    ChunksAreChunked(data, limit);
    FlattenLength(chunks, limit);
    if |data| > 0 {
      CeilingUnique(|data|, limit, |chunks|);
    }
  }

  lemma CeilingUnique(total: nat, limit: nat, n: nat)
    requires limit >= 1 && n >= 1
    requires (n - 1) * limit < total <= (n - 1) * limit + limit
    ensures (total + limit - 1) / limit == n
  {
    var q, r := (total + limit - 1) / limit, (total + limit - 1) % limit;
    assert total + limit - 1 == q * limit + r;
    assert (q - n) * limit == total + limit - 1 - r - n * limit;
    assert n * limit == (n - 1) * limit + limit;
    assert q - n >= 1 ==> (q - n) * limit >= limit;
    assert q - n <= -1 ==> 0 <= limit * (n - q - 1);
  }
}
