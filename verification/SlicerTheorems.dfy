/** What every slicer run promises, proved about the objects it stores. */
module SlicerTheorems {
  import opened Common
  import opened Objects
  import opened SlicerSpec

  // ---- Payload ----

  lemma {:induction false} LeadingPayloads(c: Config, full: seq<seq<Byte>>)
    ensures Payloads(Leading(c, full)) == full
  {
    if |full| > 1 {
      var m := |full| - 1;
      LeadingPayloads(c, full[..m]);
      assert full == full[..m] + [full[m]];
    }
  }

  lemma PartsPayloads(c: Config, data: seq<Byte>)
    requires c.limit >= 1
    ensures Payloads(Parts(c, data)) == Chunks(data, c.limit)
  {
    var chunks := Chunks(data, c.limit);
    ChunkCount(data, c.limit);
    var m := |chunks| - 1;
    if m == 0 {
      assert chunks == [data];
    } else {
      LeadingPayloads(c, chunks[..m]);
      assert chunks == chunks[..m] + [chunks[m]];
    }
  }

  /** The data objects carry exactly the chunks of the input, so nothing is lost, added or reordered. */
  lemma PayloadKept(c: Config, data: seq<Byte>)
    requires c.limit >= 1
    ensures Payloads(Parts(c, data)) == Chunks(data, c.limit)
    ensures Flatten(Payloads(Parts(c, data))) == data
    ensures Chunked(Payloads(Parts(c, data)), c.limit)
    ensures |Parts(c, data)| == if |data| == 0 then 1 else (|data| + c.limit - 1) / c.limit
    ensures |Sliced(c, data)| == if |data| > c.limit then |Parts(c, data)| + 1 else 1
  {
    PartsPayloads(c, data);
    ChunksAreChunked(data, c.limit);
    ChunkCount(data, c.limit);
  }

  /** Different inputs are stored differently. */
  lemma SlicedInjective(c: Config, a: seq<Byte>, b: seq<Byte>)
    requires c.limit >= 1 && Sliced(c, a) == Sliced(c, b)
    ensures a == b
  {
    PayloadKept(c, a);
    PayloadKept(c, b);
    var k, l := |Parts(c, a)|, |Parts(c, b)|;
    assert Parts(c, a) == Sliced(c, a)[..k] && Parts(c, b) == Sliced(c, b)[..l];
  }

  /** A sliced reader is stored whole if and only if it returns no bytes along with the end of data. */
  lemma ReaderKeptIffCleanEnd(c: Config, before: seq<Byte>, atEnd: seq<Byte>)
    requires c.limit >= 1
    ensures Sliced(c, before) == Sliced(c, before + atEnd) <==> atEnd == []
  {
    if atEnd == [] {
      assert before + atEnd == before;
    } else if Sliced(c, before) == Sliced(c, before + atEnd) {
      SlicedInjective(c, before, before + atEnd);
    }
  }

  // ---- Headers ----

  /** Payload metadata, identifier and signature of an object are its own. */
  ghost predicate OwnMetadata(c: Config, o: Stored) {
    && o.header.length == |o.payload|
    && o.header.hash == Some(SHA256(o.payload))
    && (c.homomorphic ==> o.header.homomorphic == Some(TillichZemor(o.payload)))
    && o.id == HashOf(o.header)
    && o.signature == Some(Signature(c.key, o.id))
  }

  /** No link to a parent. */
  ghost predicate Parentless(s: SplitValue) {
    s.parent == None && s.parentSignature == None && s.parentHeader == None
  }

  /** The header describes the whole payload, and is the caller's in everything else. */
  ghost predicate Describes(c: Config, data: seq<Byte>, h: HeaderValue) {
    && h.length == |data| && h.hash == Some(SHA256(data))
    && h.homomorphic == (if c.homomorphic then Some(TillichZemor(data)) else c.root.homomorphic)
    && h.fields == c.root.fields && h.split == c.root.split
  }

  /** The links name the root object: its header, the hash of that, and a signature of the hash. */
  ghost predicate ParentIsRoot(c: Config, data: seq<Byte>, s: SplitValue) {
    && s.parentHeader.Some? && Describes(c, data, s.parentHeader.value)
    && s.parent == Some(HashOf(s.parentHeader.value))
    && s.parentSignature == Some(Signature(c.key, HashOf(s.parentHeader.value)))
  }

  /** The identifier of the run is that of the root object. */
  lemma RootDescribes(c: Config, data: seq<Byte>)
    ensures Describes(c, data, RootID(c, data).header)
  {
  }

  lemma {:induction false} LeadingHeaders(c: Config, full: seq<seq<Byte>>, i: nat)
    requires i < |full|
    ensures var log := Leading(c, full);
            && (i == 0 ==> log[0] == FirstChild(c, full[0]))
            && (i > 0 ==> log[i] == MiddleChild(c, log[i - 1].id, full[i]))
  {
    var m := |full| - 1;
    if i < m {
      LeadingHeaders(c, full[..m], i);
    }
  }

  /** All objects of a split run, header by header: the first child stands under the caller's own
      header with whatever split fields that came with, each later child names its immediate predecessor and the split,
      only the last child names the parent, and no child leaks a field into another. */
  lemma ChildExact(c: Config, data: seq<Byte>, i: nat)
    requires ValidConfig(c) && |data| > c.limit && i < |Parts(c, data)|
    ensures var parts := Parts(c, data);
            && (i > 0 || !Preset(c) ==> OwnMetadata(c, parts[i]))
            && (i == 0 ==> parts[0].header.fields == c.root.fields && parts[0].header.split == c.root.split)
            && (i == 0 && !c.homomorphic ==> parts[0].header.homomorphic == c.root.homomorphic)
            && (i > 0 ==>
                  && parts[i].header.fields == c.child && (!c.homomorphic ==> parts[i].header.homomorphic == None)
                  && parts[i].header.split.Some?
                  && var s := parts[i].header.split.value;
                     && s.splitID == Some(c.splitID) && s.previous == Some(parts[i - 1].id) && s.children == []
                     && (i < |parts| - 1 ==> Parentless(s))
                     && (i == |parts| - 1 ==> ParentIsRoot(c, data, s)))
  {
    var chunks := Chunks(data, c.limit);
    ChunkCount(data, c.limit);
    var m := |chunks| - 1;
    if i < m {
      LeadingHeaders(c, chunks[..m], i);
    }
  }

  /** The linking object: no payload, no predecessor, all children in order, and the same parent. */
  lemma LinkExact(c: Config, data: seq<Byte>)
    requires ValidConfig(c) && |data| > c.limit
    ensures var log, parts := Sliced(c, data), Parts(c, data);
            && |log| == |parts| + 1
            && var link := log[|parts|];
               && OwnMetadata(c, link) && link.payload == [] && link.header.fields == c.child
               && (!c.homomorphic ==> link.header.homomorphic == None)
               && link.header.split.Some?
               && var s := link.header.split.value;
                  s.splitID == Some(c.splitID) && s.previous == None && s.children == IDs(parts)
                  && ParentIsRoot(c, data, s)
  {
    ChunkCount(data, c.limit);
  }

  /** A payload within the limit becomes one object with the caller's header and the root identifier. */
  lemma WholeExact(c: Config, data: seq<Byte>)
    requires ValidConfig(c) && |data| <= c.limit
    ensures Sliced(c, data) == Parts(c, data) && |Parts(c, data)| == 1
    ensures var o := Parts(c, data)[0];
            OwnMetadata(c, o) && o.payload == data && Describes(c, data, o.header) && o.id == RootID(c, data)
            && o.header.split == c.root.split && o.header.fields == c.root.fields
  {
    ChunkCount(data, c.limit);
  }

  /** The first child of every split run describes itself if and only if the caller's header came
      without an identifier or without a signature. */
  lemma FirstChildExactIffNotPreset(c: Config)
    requires ValidConfig(c)
    ensures (forall data: seq<Byte> :: |data| > c.limit ==> OwnMetadata(c, Parts(c, data)[0])) <==> !Preset(c)
  {
    if !Preset(c) {
      forall data: seq<Byte> | |data| > c.limit ensures OwnMetadata(c, Parts(c, data)[0]) {
        ChildExact(c, data, 0);
      }
    } else {
      var zeros: seq<Byte> := seq(c.limit + 1, i => 0);
      var ones: seq<Byte> := seq(c.limit + 1, i => 1);
      PresetHeaderKept(c, zeros);
      PresetHeaderKept(c, ones);
      assert zeros[..c.limit][0] != ones[..c.limit][0];
      assert !OwnMetadata(c, Parts(c, zeros)[0]) || !OwnMetadata(c, Parts(c, ones)[0]);
    }
  }

  lemma PresetHeaderKept(c: Config, data: seq<Byte>)
    requires ValidConfig(c) && Preset(c) && |data| > c.limit
    ensures Parts(c, data)[0].header == c.root && Parts(c, data)[0].payload == data[..c.limit]
  {
    var chunks := Chunks(data, c.limit);
    ChunkCount(data, c.limit);
    LeadingHeaders(c, chunks[..|chunks| - 1], 0);
  }

  // ---- Identifiers ----

  /** Number of predecessors an identifier leads back to. */
  function Depth(id: ObjectID): nat {
    match id.header.split
    case Some(s) => (match s.previous case Some(p) => 1 + Depth(p) case None => 0)
    case None => 0
  }

  lemma {:induction false} PartDepth(c: Config, data: seq<Byte>, i: nat)
    requires ValidConfig(c) && |data| > c.limit && i < |Parts(c, data)|
    ensures Depth(Parts(c, data)[i].id) == Depth(Parts(c, data)[0].id) + i
  {
    ChildExact(c, data, i);
    if i > 0 {
      PartDepth(c, data, i - 1);
    }
  }

  /** No two parts share an identifier: the chain of predecessors cannot loop. */
  lemma PartsDistinct(c: Config, data: seq<Byte>, i: nat, j: nat)
    requires ValidConfig(c) && |data| > c.limit && i < j < |Parts(c, data)|
    ensures Parts(c, data)[i].id != Parts(c, data)[j].id
  {
    PartDepth(c, data, i);
    PartDepth(c, data, j);
  }

  /** Neither the root nor the linking object shares its identifier with a part or with each other. */
  lemma RootAndLinkDistinct(c: Config, data: seq<Byte>, i: nat)
    requires ValidConfig(c) && !Preset(c) && |data| > c.limit && i < |Parts(c, data)|
    ensures |Sliced(c, data)| == |Parts(c, data)| + 1
    ensures var link := Sliced(c, data)[|Parts(c, data)|].id;
            Parts(c, data)[i].id != link && Parts(c, data)[i].id != RootID(c, data) && link != RootID(c, data)
  {
    ChildExact(c, data, i);
    LinkExact(c, data);
    PayloadKept(c, data);
    assert Payloads(Parts(c, data))[i] == Parts(c, data)[i].payload;
  }

  // ---- What the caller asked for ----

  /** Objects cut from `data` at that limit: full ones, the rest, and behind several of them an empty one. */
  ghost predicate CutTo(log: seq<Stored>, data: seq<Byte>, limit: nat)
    requires limit >= 1
  {
    var n := if data == [] then 1 else (|data| + limit - 1) / limit;
    && 1 <= n <= |log| == (if |data| > limit then n + 1 else 1)
    && (forall i :: 0 <= i < n - 1 ==> |log[i].payload| == limit)
    && |log[n - 1].payload| <= limit
    && Flatten(Payloads(log[..n])) == data
    && (n < |log| ==> log[n].payload == [])
  }

  /** Fields of an object stored for the caller's fields `f` and options `o`: under the caller's own header
      everything it had stays except what the options say, all other objects are plain. */
  ghost predicate MadeFor(f: Fields, o: Options, g: Fields, own: bool) {
    && g.version == (2, 13) && g.epoch == o.epoch && g.container == f.container
    && g.owner == (if o.session.Some? then Some(o.session.value.issuer) else f.owner)
    && g.session == (if own && o.session == None then f.session else o.session)
    && g.attributes == (if own then f.attributes else [])
    && g.kind == if own then f.kind else 0
  }

  lemma ChunkPayloads(c: Config, data: seq<Byte>)
    requires c.limit >= 1
    ensures CutTo(Sliced(c, data), data, c.limit)
  {
    PayloadKept(c, data);
    var log, parts := Sliced(c, data), Parts(c, data);
    assert log[..|parts|] == parts;
    assert forall i :: 0 <= i < |parts| ==> Payloads(parts)[i] == log[i].payload;
    if |data| > c.limit {
      LinkExact(c, data);
    }
  }

  /** A run is cut at the limit the caller gave, or at one mebibyte. */
  lemma CutAtCallersLimit(h: HeaderValue, id: Option<ObjectID>, signature: Option<Signature>, o: Options, key: nat, splitID: nat, data: seq<Byte>)
    ensures CutTo(Sliced(ConfigFor(h, id, signature, o, key, splitID), data), data, if o.payloadLimit > 0 then o.payloadLimit else 1048576)
  {
    ChunkPayloads(ConfigFor(h, id, signature, o, key, splitID), data);
  }

  /** Fields, signature and split identifier of every object of a run. */
  lemma RunFields(c: Config, data: seq<Byte>, i: nat)
    requires ValidConfig(c) && i < |Sliced(c, data)|
    ensures var o := Sliced(c, data)[i];
            && o.header.fields == (if i == 0 then c.root.fields else c.child)
            && (i > 0 || !Preset(c) ==> o.signature == Some(Signature(c.key, o.id)))
            && (i > 0 || !Preset(c) ==>
                  o.header.homomorphic == if c.homomorphic then Some(TillichZemor(o.payload)) else if i == 0 then c.root.homomorphic else None)
            && (i > 0 ==> o.header.split.Some? && o.header.split.value.splitID == Some(c.splitID))
  {
    PayloadKept(c, data);
    if |data| <= c.limit {
      WholeExact(c, data);
    } else if i < |Parts(c, data)| {
      ChildExact(c, data, i);
      assert Sliced(c, data)[i] == Parts(c, data)[i];
    } else {
      LinkExact(c, data);
    }
  }

  /** All objects of a run carry the caller's container and what the options say. */
  lemma MadeForCaller(h: HeaderValue, id: Option<ObjectID>, signature: Option<Signature>, o: Options, key: nat, splitID: nat, data: seq<Byte>, i: nat)
    requires i < |Sliced(ConfigFor(h, id, signature, o, key, splitID), data)|
    ensures var log := Sliced(ConfigFor(h, id, signature, o, key, splitID), data);
            && MadeFor(h.fields, o, log[i].header.fields, i == 0)
            && (i > 0 || id == None || signature == None ==> log[i].signature == Some(Signature(key, log[i].id)))
            && (i > 0 || id == None || signature == None ==>
                  log[i].header.homomorphic == if o.homomorphic then Some(TillichZemor(log[i].payload)) else if i == 0 then h.homomorphic else None)
            && (i > 0 ==> log[i].header.split.Some? && log[i].header.split.value.splitID == Some(splitID))
            && MadeFor(h.fields, o, RootID(ConfigFor(h, id, signature, o, key, splitID), data).header.fields, true)
  {
    var c := ConfigFor(h, id, signature, o, key, splitID);
    RunFields(c, data, i);
    RootDescribes(c, data);
  }
}
