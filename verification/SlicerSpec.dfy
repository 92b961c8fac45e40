/** What a slicer run stores, as a function of the input bytes alone. */
module SlicerSpec {
  import opened Common
  import opened Objects

  /** Caller-side options of a run. */
  datatype Options = Options(payloadLimit: nat, epoch: nat, homomorphic: bool, session: Option<Session>)

  /** Everything a run depends on besides the bytes: the prepared root header with whatever identifier
      and signature the caller left in it, the fields of the child headers, the signing key, the
      split identifier and the payload limit. */
  datatype Config = Config(root: HeaderValue, presetID: Option<ObjectID>, presetSignature: Option<Signature>,
                           child: Fields, homomorphic: bool, key: nat, splitID: nat, limit: nat)

  ghost predicate ValidConfig(c: Config) {
    c.limit >= 1
  }

  /** The header still carries an identifier and a signature from an earlier life. */
  predicate Preset(c: Config) {
    c.presetID.Some? && c.presetSignature.Some?
  }

  const DEFAULT_LIMIT: nat := 1048576
  const CURRENT_VERSION: (nat, nat) := (2, 13)
  const REGULAR: nat := 0

  function PayloadLimit(o: Options): (l: nat)
    ensures l >= 1
  {
    if o.payloadLimit > 0 then o.payloadLimit else DEFAULT_LIMIT
  }

  /** Header metadata of the given payload; everything else stays. */
  function WithPayload(c: Config, h: HeaderValue, payload: seq<Byte>): HeaderValue {
    h.(length := |payload|, hash := Some(SHA256(payload)),
       homomorphic := if c.homomorphic then Some(TillichZemor(payload)) else h.homomorphic)
  }

  function Signed(c: Config, h: HeaderValue, payload: seq<Byte>): Stored {
    Stored(HashOf(h), Some(Signature(c.key, HashOf(h))), h, payload)
  }

  function RootHeader(c: Config, data: seq<Byte>): HeaderValue {
    WithPayload(c, c.root, data)
  }

  function RootID(c: Config, data: seq<Byte>): ObjectID {
    HashOf(RootHeader(c, data))
  }

  /** First object of a split run, written from the root header. */
  function FirstChild(c: Config, payload: seq<Byte>): Stored {
    if Preset(c) then Stored(c.presetID.value, c.presetSignature, c.root, payload)
    else Signed(c, WithPayload(c, c.root, payload), payload)
  }

  /** Header of a child or of the linking object, before its payload metadata. */
  function ChildHeader(c: Config, split: SplitValue): HeaderValue {
    HeaderValue(c.child, 0, None, None, Some(split))
  }

  function MiddleChild(c: Config, previous: ObjectID, payload: seq<Byte>): Stored {
    Signed(c, WithPayload(c, ChildHeader(c, SplitValue(Some(c.splitID), Some(previous), None, None, None, [])), payload),
           payload)
  }

  /** Split fields that point to the root object. */
  function ParentSplit(c: Config, data: seq<Byte>, previous: Option<ObjectID>, children: seq<ObjectID>): SplitValue {
    SplitValue(Some(c.splitID), previous, Some(RootID(c, data)), Some(Signature(c.key, RootID(c, data))),
               Some(RootHeader(c, data)), children)
  }

  function LastChild(c: Config, data: seq<Byte>, previous: ObjectID, payload: seq<Byte>): Stored {
    Signed(c, WithPayload(c, ChildHeader(c, ParentSplit(c, data, Some(previous), [])), payload), payload)
  }

  function LinkingObject(c: Config, data: seq<Byte>, children: seq<ObjectID>): Stored {
    Signed(c, WithPayload(c, ChildHeader(c, ParentSplit(c, data, None, children)), []), [])
  }

  function WholeObject(c: Config, data: seq<Byte>): Stored {
    Signed(c, RootHeader(c, data), data)
  }

  function IDs(log: seq<Stored>): (ids: seq<ObjectID>)
    ensures |ids| == |log|
  {
    seq(|log|, i requires 0 <= i < |log| => log[i].id)
  }

  /** Objects of the full chunks written before the last one. */
  function Leading(c: Config, full: seq<seq<Byte>>): (log: seq<Stored>)
    ensures |log| == |full|
  {
    if full == [] then []
    else if |full| == 1 then [FirstChild(c, full[0])]
    else
      var before := Leading(c, full[..|full| - 1]);
      before + [MiddleChild(c, before[|before| - 1].id, full[|full| - 1])]
  }

  /** Everything stored for the given chunks of `data`. */
  function Finished(c: Config, data: seq<Byte>, chunks: seq<seq<Byte>>): (log: seq<Stored>)
    requires chunks != []
    ensures |log| == if |chunks| == 1 then 1 else |chunks| + 1
  {
    if |chunks| == 1 then [WholeObject(c, data)]
    else
      var before := Leading(c, chunks[..|chunks| - 1]);
      var parts := before + [LastChild(c, data, before[|before| - 1].id, chunks[|chunks| - 1])];
      parts + [LinkingObject(c, data, IDs(parts))]
  }

  /** Everything stored for `data`. */
  function Sliced(c: Config, data: seq<Byte>): seq<Stored>
    requires c.limit >= 1
  {
    Finished(c, data, Chunks(data, c.limit))
  }

  /** The objects that carry payload: all but the linking object. */
  function Parts(c: Config, data: seq<Byte>): (parts: seq<Stored>)
    requires c.limit >= 1
    ensures |parts| == |Chunks(data, c.limit)|
  {
    Sliced(c, data)[..|Chunks(data, c.limit)|]
  }

  function Payloads(log: seq<Stored>): (p: seq<seq<Byte>>)
    ensures |p| == |log|
  {
    seq(|log|, i requires 0 <= i < |log| => log[i].payload)
  }

  /** Payload metadata accumulated while bytes pass by: their number and the running hashes. */
  datatype Metadata = Metadata(length: nat, hashed: seq<Byte>, homomorphic: Option<seq<Byte>>)

  function MetadataOf(homomorphic: bool, payload: seq<Byte>): Metadata {
    Metadata(|payload|, payload, if homomorphic then Some(payload) else None)
  }

  function Accumulate(m: Metadata, chunk: seq<Byte>): Metadata {
    Metadata(m.length + |chunk|, m.hashed + chunk,
             if m.homomorphic.Some? then Some(m.homomorphic.value + chunk) else None)
  }

  function Reset(m: Metadata): Metadata {
    Metadata(0, [], if m.homomorphic.Some? then Some([]) else None)
  }

  /** The object stored for the next full chunk. */
  function NextLeading(c: Config, full: seq<seq<Byte>>, payload: seq<Byte>): Stored {
    if full == [] then FirstChild(c, payload)
    else MiddleChild(c, Leading(c, full)[|full| - 1].id, payload)
  }

  lemma LeadingStep(c: Config, full: seq<seq<Byte>>, payload: seq<Byte>)
    ensures Leading(c, full + [payload]) == Leading(c, full) + [NextLeading(c, full, payload)]
    ensures IDs(Leading(c, full + [payload])) == IDs(Leading(c, full)) + [NextLeading(c, full, payload).id]
  {
    assert (full + [payload])[..|full|] == full;
  }

  lemma FinishedSplit(c: Config, data: seq<Byte>, full: seq<seq<Byte>>, payload: seq<Byte>)
    requires full != []
    ensures var last := LastChild(c, data, Leading(c, full)[|full| - 1].id, payload);
            && Finished(c, data, full + [payload])
               == Leading(c, full) + [last] + [LinkingObject(c, data, IDs(Leading(c, full)) + [last.id])]
  {
    assert (full + [payload])[..|full|] == full;
    var last := LastChild(c, data, Leading(c, full)[|full| - 1].id, payload);
    assert IDs(Leading(c, full) + [last]) == IDs(Leading(c, full)) + [last.id];
  }

  // ---- Preparing a run ----

  /** The fields a caller has to provide. */
  predicate Complete(f: Fields) {
    f.container.Some? && f.owner.Some?
  }

  /** The caller's fields with session, its issuer as owner, epoch and version filled in. */
  function PreparedFields(f: Fields, o: Options): Fields {
    var g := if o.session.Some? then f.(session := o.session, owner := Some(o.session.value.issuer)) else f;
    g.(epoch := o.epoch, version := CURRENT_VERSION)
  }

  /** Fields shared by all children and the linking object. */
  function ChildFields(f: Fields, o: Options): Fields {
    Fields(CURRENT_VERSION, f.container, PreparedFields(f, o).owner, o.epoch, REGULAR, [], o.session)
  }

  function ConfigFor(h: HeaderValue, id: Option<ObjectID>, signature: Option<Signature>, o: Options, key: nat, splitID: nat): Config {
    Config(h.(fields := PreparedFields(h.fields, o)), id, signature, ChildFields(h.fields, o), o.homomorphic, key, splitID, PayloadLimit(o))
  }

  /** Before the last object, what is stored never depends on bytes still to come. */
  lemma {:induction false} LeadingPrefix(c: Config, full: seq<seq<Byte>>, k: nat)
    requires k <= |full|
    ensures Leading(c, full[..k]) == Leading(c, full)[..k]
  {
    if k < |full| {
      var m := |full| - 1;
      LeadingPrefix(c, full[..m], k);
      assert full[..m][..k] == full[..k];
      assert full == full[..m] + [full[m]];
      LeadingStep(c, full[..m], full[m]);
    } else {
      assert full[..k] == full;
    }
  }

  /** Leading objects of a proper prefix of the data are the first objects of the whole run. */
  lemma LeadingIsPrefix(c: Config, full: seq<seq<Byte>>, data: seq<Byte>)
    requires c.limit >= 1 && (forall i :: 0 <= i < |full| ==> |full[i]| == c.limit)
    requires Flatten(full) < data
    ensures Leading(c, full) < Sliced(c, data)
  {
    var rest := data[|Flatten(full)|..];
    assert data == Flatten(full) + rest;
    ChunksAfterFull(full, rest, c.limit);
    var all := Chunks(data, c.limit);
    if full != [] {
      FinishedExtendsLeading(c, data, all, |full|);
      assert all[..|full|] == full;
    }
  }

  lemma FinishedExtendsLeading(c: Config, data: seq<Byte>, chunks: seq<seq<Byte>>, k: nat)
    requires 0 < k < |chunks|
    ensures Leading(c, chunks[..k]) < Finished(c, data, chunks)
  {
    var head := chunks[..|chunks| - 1];
    assert head[..k] == chunks[..k];
    LeadingPrefix(c, head, k);
  }
}
