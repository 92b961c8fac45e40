/** The payload slicer over shared mutable headers. */
module Slicer {
  import opened Common
  import opened Objects
  import opened SlicerSpec
  import SlicerTheorems

  // ---- Headers in memory ----

  class Split {
    var splitID: Option<nat>
    var previous: Option<ObjectID>
    var parent: Option<ObjectID>
    var parentSignature: Option<Signature>
    var parentHeader: Header?
    var children: seq<ObjectID>

    constructor (v: SplitValue, p: Header?)
      ensures splitID == v.splitID && previous == v.previous && parent == v.parent
      ensures parentSignature == v.parentSignature && parentHeader == p && children == v.children
    {
      splitID, previous, parent, parentSignature := v.splitID, v.previous, v.parent, v.parentSignature;
      parentHeader, children := p, v.children;
    }
  }

  class Header {
    var fields: Fields
    var length: nat
    var hash: Option<Checksum>
    var homomorphic: Option<Checksum>
    var split: Split?                  // split fields changed since the header was made
    const given: Option<SplitValue>    // those it came with

    constructor (h: HeaderValue)
      ensures split == null && given == h.split && Flat() == h
    {
      fields, length, hash, homomorphic := h.fields, h.length, h.hash, h.homomorphic;
      split, given := null, h.split;
    }

    /** Value of a header with the split fields it came with. */
    function Flat(): HeaderValue
      reads this
    {
      HeaderValue(fields, length, hash, homomorphic, given)
    }

    /** The header's parent, if any, is another header with the split fields it came with. */
    ghost predicate Shallow()
      reads this, split, if split == null then {} else {split.parentHeader}
    {
      split != null && split.parentHeader != null ==> split.parentHeader != this && split.parentHeader.split == null
    }

    /** Value of the split fields as they are serialised; absent fields count as empty ones. */
    function SplitNow(): SplitValue
      requires Shallow()
      reads this, split, if split == null then {} else {split.parentHeader}
    {
      if split == null then (if given == None then NoSplit else given.value)
      else SplitValue(split.splitID, split.previous, split.parent, split.parentSignature,
                      if split.parentHeader == null then None else Some(split.parentHeader.Flat()), split.children)
    }

    /** Value of the whole header as it is serialised. */
    function Value(): HeaderValue
      requires Shallow()
      reads this, split, if split == null then {} else {split.parentHeader}
    {
      HeaderValue(fields, length, hash, homomorphic, if split == null then given else Some(SplitNow()))
    }

    /** Creates the split fields on first use. */
    method NeedSplit() returns (s: Split)
      requires Shallow()
      modifies this
      ensures Shallow() && s == split
      ensures old(split) == null ==> fresh(s)
      ensures old(split) != null ==> s == old(split)
      ensures SplitNow() == old(SplitNow())
      ensures old(split) != null ==> split.parentHeader == old(split.parentHeader)
      ensures old(split) == null && given == None ==> split.parentHeader == null
      ensures Value() == old(Value()).(split := Some(old(SplitNow())))
    {
      if split == null {
        var v := SplitNow();
        var parent: Header? := null;
        if v.parentHeader.Some? {
          parent := new Header(v.parentHeader.value);
        }
        split := new Split(v, parent);
      }
      s := split;
    }

    method SetSplitID(v: Option<nat>)
      requires Shallow()
      modifies this, split
      ensures Shallow() && split != null && (if old(split) == null then fresh(split) else split == old(split))
      ensures old(split) != null ==> split.parentHeader == old(split.parentHeader)
      ensures old(split) == null && given == None ==> split.parentHeader == null
      ensures Value() == old(Value()).(split := Some(old(SplitNow()).(splitID := v)))
    {
      var s := NeedSplit();
      s.splitID := v;
    }

    method SetPrevious(v: Option<ObjectID>)
      requires Shallow()
      modifies this, split
      ensures Shallow() && split != null && (if old(split) == null then fresh(split) else split == old(split))
      ensures old(split) != null ==> split.parentHeader == old(split.parentHeader)
      ensures old(split) == null && given == None ==> split.parentHeader == null
      ensures Value() == old(Value()).(split := Some(old(SplitNow()).(previous := v)))
    {
      var s := NeedSplit();
      s.previous := v;
    }

    method SetParentID(v: Option<ObjectID>)
      requires Shallow()
      modifies this, split
      ensures Shallow() && split != null && (if old(split) == null then fresh(split) else split == old(split))
      ensures old(split) != null ==> split.parentHeader == old(split.parentHeader)
      ensures old(split) == null && given == None ==> split.parentHeader == null
      ensures Value() == old(Value()).(split := Some(old(SplitNow()).(parent := v)))
    {
      var s := NeedSplit();
      s.parent := v;
    }

    method SetChildren(v: seq<ObjectID>)
      requires Shallow()
      modifies this, split
      ensures Shallow() && split != null && (if old(split) == null then fresh(split) else split == old(split))
      ensures old(split) != null ==> split.parentHeader == old(split.parentHeader)
      ensures old(split) == null && given == None ==> split.parentHeader == null
      ensures Value() == old(Value()).(split := Some(old(SplitNow()).(children := v)))
    {
      var s := NeedSplit();
      s.children := v;
    }

    /** Drops the parent reference, signature and header. */
    method ClearParent()
      requires Shallow()
      modifies this, split
      ensures Shallow() && split != null && (if old(split) == null then fresh(split) else split == old(split))
      ensures split.parentHeader == null
      ensures Value() == old(Value()).(split := Some(old(SplitNow()).(parent := None, parentSignature := None, parentHeader := None)))
    {
      var s := NeedSplit();
      s.parent, s.parentSignature, s.parentHeader := None, None, null;
    }

    /** Points to the parent object; its header is shared, not copied. */
    method SetParent(o: Object)
      requires Shallow() && o.header != this && o.header.split == null
      modifies this, split
      ensures Shallow() && split != null && (if old(split) == null then fresh(split) else split == old(split))
      ensures split.parentHeader == o.header
      ensures Value() == old(Value()).(split := Some(old(SplitNow()).(parent := o.id, parentSignature := o.signature,
                                                                       parentHeader := Some(o.header.Flat()))))
    {
      var s := NeedSplit();
      s.parent, s.parentSignature, s.parentHeader := o.id, o.signature, o.header;
    }
  }

  /** An object variable: assigning it copies identifier and signature but shares the header. */
  datatype Object = Object(id: Option<ObjectID>, signature: Option<Signature>, header: Header)

  /** The object stream: records what it accepts and refuses everything after `accepts` objects. */
  class Recorder {
    var log: seq<Stored>
    const accepts: nat

    constructor (n: nat)
      ensures log == [] && accepts == n
    {
      log, accepts := [], n;
    }

    method Put(o: Stored) returns (ok: bool)
      modifies this
      ensures ok == (old(|log|) < accepts)
      ensures log == if ok then old(log) + [o] else old(log)
    {
      ok := |log| < accepts;
      if ok {
        log := log + [o];
      }
    }
  }

  /** Header value after its payload metadata has been set. */
  function Flushed(h: HeaderValue, m: Metadata): HeaderValue {
    h.(length := m.length, hash := Some(SHA256(m.hashed)),
       homomorphic := if m.homomorphic.Some? then Some(TillichZemor(m.homomorphic.value)) else h.homomorphic)
  }

  /** Sets payload metadata in the (possibly shared) header, and identifier and signature in the copy. */
  method FlushObjectMetadata(key: nat, m: Metadata, o: Object) returns (r: Object)
    requires o.header.Shallow()
    modifies o.header
    ensures o.header.Shallow() && o.header.split == old(o.header.split)
    ensures o.header.Value() == Flushed(old(o.header.Value()), m)
    ensures r == Object(Some(HashOf(o.header.Value())), Some(Signature(key, HashOf(o.header.Value()))), o.header)
  {
    o.header.hash := Some(SHA256(m.hashed));
    if m.homomorphic.Some? {
      o.header.homomorphic := Some(TillichZemor(m.homomorphic.value));
    }
    o.header.length := m.length;
    var id := HashOf(o.header.Value());
    r := Object(Some(id), Some(Signature(key, id)), o.header);
  }

  /** Stores an object held in memory; only one that misses its identifier or signature is flushed. */
  method WriteInMemObject(key: nat, w: Recorder, o: Object, payload: seq<Byte>, m: Metadata)
    returns (id: ObjectID, ok: bool)
    requires o.header.Shallow()
    modifies w, o.header
    ensures o.header.Shallow() && o.header.split == old(o.header.split)
    ensures var flush := o.id == None || o.signature == None;
            && o.header.Value() == (if flush then Flushed(old(o.header.Value()), m) else old(o.header.Value()))
            && id == (if flush then HashOf(o.header.Value()) else o.id.value)
            && var stored := Stored(id, if flush then Some(Signature(key, id)) else o.signature, o.header.Value(), payload);
               w.log == if ok then old(w.log) + [stored] else old(w.log)
    ensures ok == (old(|w.log|) < w.accepts)
  {
    var header := o;
    if o.id == None || o.signature == None {
      header := FlushObjectMetadata(key, m, o);
    }
    id := header.id.value;
    ok := w.Put(Stored(id, header.signature, header.header.Value(), payload));
  }

  class PayloadWriter {
    const stream: Recorder
    const key: nat
    const stub: Object

    var rootID: Option<ObjectID>
    var headerObject: Object
    var isHeaderWriteStep: bool

    var buf: seq<Byte>
    var rootMeta: Metadata
    var childMeta: Metadata

    // the limited writer: its limit, its progress and whether it feeds the child metadata as well
    const limit: nat
    var written: nat
    var feedsChild: bool

    var withSplit: bool
    const newSplitID: nat
    var splitID: Option<nat>
    var writtenChildren: seq<ObjectID>

    ghost const config: Config
    ghost var input: seq<Byte>       // all bytes accepted so far
    ghost var full: seq<seq<Byte>>   // payloads of the objects already stored

    /** Objects of the writer that are used together, and how they may share. */
    ghost predicate Shape()
      reads this, headerObject.header, stub.header, stub.header.split
    {
      && headerObject.header != stub.header
      && headerObject.header.split == null && stub.header.given == None
      && stub.id == None && stub.signature == None
      && (stub.header.split != null ==> stub.header.split.parentHeader in {null, headerObject.header})
    }

    /** The stub header is the configured one up to its payload metadata and split fields. */
    ghost predicate CleanStub()
      reads this, stub.header
    {
      && stub.header.fields == config.child
      && (!config.homomorphic ==> stub.header.homomorphic == None)
    }

    /** No children are recorded in the stub header: the one split field that is never cleared. */
    ghost predicate NoChildren()
      reads this, stub.header, stub.header.split
    {
      stub.header.split != null ==> stub.header.split.children == []
    }

    /** The root header is the configured one up to its payload metadata. */
    ghost predicate KeptRoot()
      reads this, headerObject.header
    {
      && headerObject.header.fields == config.root.fields && headerObject.header.given == config.root.split
      && (!config.homomorphic ==> headerObject.header.homomorphic == config.root.homomorphic)
    }

    /** Nothing has been done to the caller's header yet. */
    ghost predicate UntouchedRoot()
      reads this, headerObject.header
    {
      && headerObject.header.Flat() == config.root
      && headerObject.id == config.presetID && headerObject.signature == config.presetSignature
    }

    /** Counters, buffers and metadata agree with the bytes accepted so far. */
    ghost predicate Accounts()
      reads this
    {
      && key == config.key && limit == config.limit && newSplitID == config.splitID
      && (isHeaderWriteStep <==> full == [])
      && (withSplit <==> full != [])
      && (feedsChild <==> full != [])
      && (withSplit ==> splitID == Some(config.splitID))
      && Flatten(full) + buf == input
      && (forall i :: 0 <= i < |full| ==> |full[i]| == limit)
      && written == |buf| <= limit
      && rootMeta == MetadataOf(config.homomorphic, input)
      && childMeta == MetadataOf(config.homomorphic, if withSplit then buf else [])
      && writtenChildren == IDs(Leading(config, full))
    }

    ghost predicate Valid()
      reads this, stream, headerObject.header, stub.header, stub.header.split
    {
      && ValidConfig(config)
      && Shape() && CleanStub() && NoChildren() && KeptRoot() && Accounts()
      && (isHeaderWriteStep ==> UntouchedRoot())
      && stream.log == Leading(config, full)
    }

    constructor (w: Recorder, header: Object, child: Fields, homomorphic: bool, k: nat, split: nat, l: nat)
      requires w.log == [] && header.header.split == null && l >= 1
      ensures Valid() && input == [] && full == [] && buf == []
      ensures stream == w && headerObject == header && fresh(stub.header) && stub.header.split == null
      ensures config == Config(header.header.Flat(), header.id, header.signature, child, homomorphic, k, split, l)
    {
      var stubHeader := new Header(HeaderValue(child, 0, None, None, None));
      stream, key, limit, newSplitID := w, k, l, split;
      stub := Object(None, None, stubHeader);
      rootID, headerObject, isHeaderWriteStep := None, header, true;
      buf, rootMeta, childMeta := [], MetadataOf(homomorphic, []), MetadataOf(homomorphic, []);
      written, feedsChild := 0, false;
      withSplit, splitID, writtenChildren := false, None, [];
      config := Config(header.header.Flat(), header.id, header.signature, child, homomorphic, k, split, l);
      input, full := [], [];
    }

    /** The base writer behind the limit. */
    method WriteBase(p: seq<Byte>)
      requires Accounts() && |buf| + |p| <= limit
      modifies this`buf, this`rootMeta, this`childMeta, this`input, this`written
      ensures Accounts() && input == old(input) + p && buf == old(buf) + p
    {
      assert Flatten(full) + (buf + p) == input + p by {
        assert Flatten(full) + (buf + p) == (Flatten(full) + buf) + p;
      }
      buf := buf + p;
      rootMeta := Accumulate(rootMeta, p);
      if feedsChild {
        childMeta := Accumulate(childMeta, p);
      }
      input := input + p;
      written := written + |p|;
    }

    /** Writes what fits; reports an overflow when something is left. */
    method WriteLimited(p: seq<Byte>) returns (n: nat, overflow: bool)
      requires Valid()
      modifies this`buf, this`rootMeta, this`childMeta, this`input, this`written
      ensures Valid() && n <= |p|
      ensures overflow <==> n < |p|
      ensures overflow ==> |buf| == limit
      ensures input == old(input) + p[..n] && buf == old(buf) + p[..n]
      ensures old(written) < limit && p != [] ==> n > 0
    {
      overflow := |p| > limit - written;
      if overflow {
        n := limit - written;
        WriteBase(p[..n]);
      } else {
        n := |p|;
        assert p[..n] == p;
        WriteBase(p);
      }
    }

    /** Identifier of the object stored last. */
    function LastWritten(): Option<ObjectID>
      reads this
    {
      if writtenChildren == [] then None else Some(writtenChildren[|writtenChildren| - 1])
    }

    /** Clears the shared stub header and sets split and previous identifiers for the next child. */
    method FormSplit() returns (obj: Object)
      requires Shape() && NoChildren()
      modifies stub.header, stub.header.split
      ensures Shape() && stub.header.Shallow()
      ensures stub.header.split != null && (if old(stub.header.split) == null then fresh(stub.header.split) else stub.header.split == old(stub.header.split))
      ensures obj == Object(None, None, stub.header)
      ensures stub.header.Value() == old(stub.header.Flat()).(split := Some(
                SplitValue(if withSplit then splitID else None, LastWritten(), None, None, None, [])))
    {
      obj := stub;
      obj.header.SetSplitID(None);
      obj.header.SetPrevious(None);
      obj.header.ClearParent();
      obj.header.SetParentID(None);
      obj := obj.(signature := None, id := None);
      if withSplit {
        obj.header.SetSplitID(splitID);
      }
      if |writtenChildren| > 0 {
        obj.header.SetPrevious(Some(writtenChildren[|writtenChildren| - 1]));
      }
    }

    /** Between the overflow of the buffer and the storage of the next leading object. */
    ghost predicate Overflowing(meta: Metadata)
      reads this, stream, headerObject.header, stub.header, stub.header.split
    {
      && ValidConfig(config)
      && Shape() && CleanStub() && NoChildren() && KeptRoot()
      && (isHeaderWriteStep <==> full == [])
      && (isHeaderWriteStep ==> UntouchedRoot())
      && key == config.key && withSplit && splitID == Some(config.splitID)
      && meta == MetadataOf(config.homomorphic, buf)
      && writtenChildren == IDs(Leading(config, full))
      && stream.log == Leading(config, full)
    }

    /** Stores `payload` under the caller's header. */
    method StoreFirst(payload: seq<Byte>, meta: Metadata) returns (id: ObjectID, ok: bool)
      requires Shape() && KeptRoot() && UntouchedRoot() && ValidConfig(config) && key == config.key
      requires meta == MetadataOf(config.homomorphic, payload)
      modifies stream, headerObject.header
      ensures Shape() && KeptRoot()
      ensures id == FirstChild(config, payload).id
      ensures stream.log == if ok then old(stream.log) + [FirstChild(config, payload)] else old(stream.log)
      ensures ok == (old(|stream.log|) < stream.accepts)
    {
      id, ok := WriteInMemObject(key, stream, headerObject, payload, meta);
    }

    /** Stores `payload` under the stub header, whose split fields are set. */
    method StoreChild(obj: Object, payload: seq<Byte>, meta: Metadata, ghost split: SplitValue) returns (id: ObjectID, ok: bool)
      requires Shape() && CleanStub() && key == config.key && obj == Object(None, None, stub.header)
      requires stub.header.split != null && stub.header.SplitNow() == split
      requires meta == MetadataOf(config.homomorphic, payload)
      modifies stream, stub.header
      ensures Shape() && stub.header.Shallow() && stub.header.split == old(stub.header.split)
      ensures CleanStub() && stub.header.SplitNow() == split
      ensures var stored := Signed(config, WithPayload(config, ChildHeader(config, split), payload), payload);
              id == stored.id && stream.log == if ok then old(stream.log) + [stored] else old(stream.log)
      ensures ok == (old(|stream.log|) < stream.accepts)
    {
      id, ok := WriteInMemObject(key, stream, obj, payload, meta);
    }

    /** Stores the buffer as the next leading object. */
    method WriteIntermediateChild(meta: Metadata) returns (ok: bool)
      requires Overflowing(meta)
      modifies this`writtenChildren, stream, headerObject.header, stub.header, stub.header.split
      ensures Shape() && CleanStub() && NoChildren() && KeptRoot()
      ensures old(stub.header.split) != null ==> stub.header.split == old(stub.header.split)
      ensures old(stub.header.split) == null ==> fresh(stub.header.split)
      ensures ok ==> stream.log == old(stream.log) + [NextLeading(config, full, buf)]
      ensures ok ==> writtenChildren == old(writtenChildren) + [NextLeading(config, full, buf).id]
      ensures !ok ==> stream.log == old(stream.log) && |stream.log| >= stream.accepts
    {
      var obj := FormSplit();
      var id: ObjectID;
      if isHeaderWriteStep {
        id, ok := StoreFirst(buf, meta);
      } else {
        id, ok := StoreChild(obj, buf, meta, SplitValue(Some(config.splitID), LastWritten(), None, None, None, []));
      }
      if ok {
        writtenChildren := writtenChildren + [id];
      }
    }

    /** Sets the metadata of the whole payload in the root header; its hash is the root identifier. */
    method FlushRoot()
      requires Shape() && KeptRoot() && ValidConfig(config) && key == config.key
      requires rootMeta == MetadataOf(config.homomorphic, input)
      modifies this`headerObject, this`rootID, headerObject.header
      ensures headerObject.header == old(headerObject.header) && Shape()
      ensures headerObject.header.Flat() == RootHeader(config, input)
      ensures rootID == headerObject.id == Some(RootID(config, input))
      ensures headerObject.signature == Some(Signature(key, RootID(config, input)))
    {
      headerObject := FlushObjectMetadata(key, rootMeta, headerObject);
      rootID := headerObject.id;
    }

    /** Makes the stub header point to the flushed root. */
    method AttachParent(obj: Object)
      requires Shape() && obj.header == stub.header && key == config.key
      requires stub.header.split != null
      requires stub.header.SplitNow() == SplitValue(Some(config.splitID), LastWritten(), None, None, None, [])
      requires headerObject.header.Flat() == RootHeader(config, input)
      requires rootID == headerObject.id == Some(RootID(config, input))
      requires headerObject.signature == Some(Signature(key, RootID(config, input)))
      modifies stub.header, stub.header.split
      ensures Shape() && stub.header.split == old(stub.header.split)
      ensures stub.header.SplitNow() == ParentSplit(config, input, LastWritten(), [])
      ensures stub.header.Flat() == old(stub.header.Flat())
    {
      obj.header.SetParentID(rootID);
      obj.header.SetParent(headerObject);
    }

    /** Stores the linking object. */
    method WriteLinkingObject(obj: Object, meta: Metadata, ghost previous: Option<ObjectID>) returns (ok: bool)
      requires Shape() && CleanStub() && key == config.key && obj == Object(None, None, stub.header)
      requires stub.header.split != null
      requires stub.header.SplitNow() == ParentSplit(config, input, previous, [])
      requires meta == MetadataOf(config.homomorphic, [])
      modifies stream, stub.header, stub.header.split
      ensures stream.log == if ok then old(stream.log) + [LinkingObject(config, input, writtenChildren)] else old(stream.log)
      ensures ok == (old(|stream.log|) < stream.accepts)
    {
      obj.header.SetPrevious(None);
      obj.header.SetChildren(writtenChildren);
      var _, done := StoreChild(obj, [], meta, ParentSplit(config, input, None, writtenChildren));
      ok := done;
    }

    /** Stores the buffer as the whole object. */
    method WriteWholeObject() returns (ok: bool)
      requires Shape() && ValidConfig(config) && key == config.key && buf == input
      requires headerObject.header.Flat() == RootHeader(config, input)
      requires headerObject.id == Some(RootID(config, input))
      requires headerObject.signature == Some(Signature(key, RootID(config, input)))
      modifies stream, headerObject.header
      ensures stream.log == if ok then old(stream.log) + [WholeObject(config, input)] else old(stream.log)
      ensures ok == (old(|stream.log|) < stream.accepts)
    {
      var _, done := WriteInMemObject(key, stream, headerObject, buf, rootMeta);
      ok := done;
    }

    /** Stores the buffer as the last child, then the linking object. */
    method WriteLastParts(obj: Object) returns (ok: bool)
      requires Shape() && CleanStub() && key == config.key && obj == Object(None, None, stub.header)
      requires full != [] && writtenChildren == IDs(Leading(config, full)) && stream.log == Leading(config, full)
      requires stub.header.split != null && childMeta == MetadataOf(config.homomorphic, buf)
      requires stub.header.SplitNow() == ParentSplit(config, input, LastWritten(), [])
      modifies this`writtenChildren, stream, stub.header, stub.header.split
      ensures ok ==> stream.log == Finished(config, input, full + [buf]) && |stream.log| <= stream.accepts
      ensures !ok ==> stream.log < Finished(config, input, full + [buf]) && |stream.log| >= stream.accepts
    {
      FinishedSplit(config, input, full, buf);
      ghost var previous := LastWritten();
      var id;
      id, ok := StoreChild(obj, buf, childMeta, ParentSplit(config, input, previous, []));
      if ok {
        writtenChildren := writtenChildren + [id];
        ok := WriteLinkingObject(obj, Reset(childMeta), previous);
      }
    }

    /** Finishes the payload: the whole object, or the last child and the linking object. */
    method WriteLastChild() returns (ok: bool)
      requires Valid()
      modifies this`headerObject, this`rootID, this`writtenChildren, stream, headerObject.header, stub.header, stub.header.split
      ensures rootID == Some(RootID(config, input))
      ensures ok ==> stream.log == Finished(config, input, full + [buf]) && |stream.log| <= stream.accepts
      ensures !ok ==> stream.log < Finished(config, input, full + [buf]) && |stream.log| >= stream.accepts
    {
      var obj := FormSplit();
      FlushRoot();
      if withSplit {
        AttachParent(obj);
        ok := WriteLastParts(obj);
      } else {
        ok := WriteWholeObject();
      }
    }

    /** The full buffer is in the stream but still counted as the buffer. */
    ghost predicate Flushed()
      reads this, stream
    {
      && stream.log == Leading(config, full + [buf]) && writtenChildren == IDs(stream.log)
      && key == config.key && limit == config.limit && newSplitID == config.splitID
      && withSplit && feedsChild && splitID == Some(config.splitID)
      && Flatten(full) + buf == input && |buf| == limit
      && (forall i :: 0 <= i < |full| ==> |full[i]| == limit)
      && rootMeta == MetadataOf(config.homomorphic, input)
      && childMeta.homomorphic.Some? == config.homomorphic
    }

    /** Empties the buffer after the full one has been stored. */
    method EmptyBuffer()
      requires Flushed()
      modifies this`written, this`full, this`buf, this`childMeta, this`isHeaderWriteStep
      ensures Accounts() && buf == [] && full == old(full) + [old(buf)]
    {
      FlattenNext(full, buf);
      written := 0;
      full := full + [buf];
      buf := [];
      childMeta := Reset(childMeta);
      isHeaderWriteStep := false;
    }

    /** Starts the next buffer after the full one has been stored. */
    method NextBuffer()
      requires ValidConfig(config) && Shape() && CleanStub() && NoChildren() && KeptRoot() && Flushed()
      modifies this`written, this`full, this`buf, this`childMeta, this`isHeaderWriteStep
      ensures Valid() && buf == [] && full == old(full) + [old(buf)]
    {
      EmptyBuffer();
      assert Shape() && CleanStub() && NoChildren() && KeptRoot();
    }

    /** Stores the full buffer. */
    method StoreBuffer() returns (ok: bool)
      requires Valid() && |buf| == limit
      modifies this`splitID, this`withSplit, this`feedsChild, this`writtenChildren, stream, headerObject.header, stub.header, stub.header.split
      ensures Shape() && CleanStub() && NoChildren() && KeptRoot()
      ensures old(stub.header.split) != null ==> stub.header.split == old(stub.header.split)
      ensures old(stub.header.split) == null ==> fresh(stub.header.split)
      ensures ok ==> Flushed()
      ensures !ok ==> stream.log == old(stream.log) && |stream.log| >= stream.accepts
    {
      LeadingStep(config, full, buf);
      if !withSplit {
        ok := StoreFirstBuffer();
      } else {
        ok := WriteIntermediateChild(childMeta);
      }
    }

    /** Stores the first full buffer: the object becomes a split one. */
    method StoreFirstBuffer() returns (ok: bool)
      requires Valid() && |buf| == limit && !withSplit
      modifies this`splitID, this`withSplit, this`feedsChild, this`writtenChildren, stream, headerObject.header, stub.header, stub.header.split
      ensures Shape() && CleanStub() && NoChildren() && KeptRoot()
      ensures old(stub.header.split) != null ==> stub.header.split == old(stub.header.split)
      ensures old(stub.header.split) == null ==> fresh(stub.header.split)
      ensures withSplit && feedsChild && splitID == Some(config.splitID)
      ensures ok ==> stream.log == old(stream.log) + [NextLeading(config, full, buf)]
      ensures ok ==> writtenChildren == old(writtenChildren) + [NextLeading(config, full, buf).id]
      ensures !ok ==> stream.log == old(stream.log) && |stream.log| >= stream.accepts
    {
      assert input == buf;
      splitID := Some(newSplitID);
      withSplit := true;
      ok := WriteIntermediateChild(rootMeta);
      feedsChild := true;
    }

    /** Stores a full buffer and starts the next one. */
    method StoreFullBuffer() returns (ok: bool)
      requires Valid() && |buf| == limit
      modifies this, stream, headerObject.header, stub.header, stub.header.split
      ensures headerObject.header == old(headerObject.header)
      ensures old(stub.header.split) != null ==> stub.header.split == old(stub.header.split)
      ensures old(stub.header.split) == null ==> fresh(stub.header.split)
      ensures input == old(input)
      ensures ok ==> Valid() && buf == [] && full == old(full) + [old(buf)]
      ensures !ok ==> full == old(full) && stream.log == old(stream.log) && |stream.log| >= stream.accepts
    {
      ok := StoreBuffer();
      if !ok {
        return;
      }
      NextBuffer();
    }

    /** What the stream holds after a failure: only leading objects of the data. */
    ghost predicate StoredSome(data: seq<Byte>)
      reads this, stream
    {
      && stream.log == Leading(config, full)
      && (forall i :: 0 <= i < |full| ==> |full[i]| == limit)
      && Flatten(full) < data
    }

    /** Writes the next chunk of the payload. The recursion ends although a full buffer makes the
        first round consume nothing: then the buffer is not full in the next round. */
    method Write(chunk: seq<Byte>) returns (n: nat, ok: bool)
      requires Valid()
      modifies this, stream, headerObject.header, stub.header, stub.header.split
      decreases |chunk|, if written == limit then 1 else 0
      ensures headerObject.header == old(headerObject.header) && n <= |chunk|
      ensures old(stub.header.split) != null ==> stub.header.split == old(stub.header.split)
      ensures old(stub.header.split) == null && stub.header.split != null ==> fresh(stub.header.split)
      ensures ok ==> Valid() && n == |chunk| && input == old(input) + chunk
      ensures ok && chunk != [] ==> buf != []
      ensures ok && chunk == [] ==> buf == old(buf) && full == old(full)
      ensures !ok ==> StoredSome(old(input) + chunk) && |stream.log| >= stream.accepts
    {
      if chunk == [] {
        return 0, true;
      }
      var overflow;
      n, overflow := WriteLimited(chunk);
      if !overflow {
        assert chunk[..n] == chunk;
        return n, true;
      }
      assert old(input) + chunk == input + chunk[n..];
      assert Flatten(full) < input + chunk[n..];
      ok := StoreFullBuffer();
      if !ok {
        return;
      }
      var n2;
      n2, ok := Write(chunk[n..]);
      n := n + n2;
    }

    /** Finishes the object. The stored objects depend on the accepted bytes only. */
    method Close() returns (ok: bool)
      requires Valid() && (full != [] ==> buf != [])
      modifies this`headerObject, this`rootID, this`writtenChildren, stream, headerObject.header, stub.header, stub.header.split
      ensures rootID == Some(RootID(config, input))
      ensures stream.log <= Sliced(config, input)
      ensures ok <==> stream.log == Sliced(config, input)
      ensures ok <==> |Sliced(config, input)| <= stream.accepts
    {
      FlattenNext(full, buf);
      ChunkingUnique(full + [buf], limit);
      ok := WriteLastChild();
    }
  }

  /** Checks and prepares the caller's header in place and makes a writer over it. */
  method InitPayloadStream(w: Recorder, header: Object, o: Options, key: nat, splitID: nat)
    returns (r: Option<PayloadWriter>)
    requires w.log == [] && header.header.split == null
    modifies header.header
    ensures r.Some? <==> Complete(old(header.header.fields))
    ensures r.Some? ==>
              var x := r.value;
              && fresh(x) && fresh(x.stub.header) && x.stream == w && x.headerObject.header == header.header
              && x.Valid() && x.input == [] && x.full == [] && x.buf == []
              && x.stub.header.split == null
              && x.config == ConfigFor(old(header.header.Flat()), header.id, header.signature, o, key, splitID)
              && x.limit == (if o.payloadLimit > 0 then o.payloadLimit else 1048576)
  {
    var f := header.header.fields;
    if f.container == None || f.owner == None {
      return None;
    }
    var owner := f.owner;
    if o.session.Some? {
      owner := Some(o.session.value.issuer);
      header.header.fields := header.header.fields.(session := o.session, owner := owner);
    }
    header.header.fields := header.header.fields.(epoch := o.epoch, version := CURRENT_VERSION);
    var child := Fields(CURRENT_VERSION, f.container, owner, o.epoch, REGULAR, [], o.session);
    var x := new PayloadWriter(w, header, child, o.homomorphic, key, splitID, PayloadLimit(o));
    r := Some(x);
  }

  /** Writes the i-th of the chunks that make up the whole data. */
  method WriteNext(x: PayloadWriter, chunk: seq<Byte>, ghost chunks: seq<seq<Byte>>, ghost i: nat) returns (ok: bool)
    requires i < |chunks| && chunk == chunks[i]
    requires x.Valid() && x.input == Flatten(chunks[..i]) && (x.full != [] ==> x.buf != [])
    modifies x, x.stream, x.headerObject.header, x.stub.header, x.stub.header.split
    ensures x.headerObject.header == old(x.headerObject.header)
    ensures old(x.stub.header.split) != null ==> x.stub.header.split == old(x.stub.header.split)
    ensures old(x.stub.header.split) == null && x.stub.header.split != null ==> fresh(x.stub.header.split)
    ensures ok ==> x.Valid() && x.input == Flatten(chunks[..i + 1]) && (x.full != [] ==> x.buf != [])
    ensures !ok ==> x.stream.log < Sliced(x.config, Flatten(chunks)) && |x.stream.log| >= x.stream.accepts
  {
    FlattenPrefix(chunks, i);
    var _, written := x.Write(chunk);
    ok := written;
    if !ok {
      LeadingIsPrefix(x.config, x.full, Flatten(chunks));
    }
  }

  /** Any sequence of writes followed by a close. */
  method WriteAll(x: PayloadWriter, chunks: seq<seq<Byte>>) returns (ok: bool)
    requires x.Valid() && x.input == [] && x.full == []
    modifies x, x.stream, x.headerObject.header, x.stub.header, x.stub.header.split
    ensures x.stream.log <= Sliced(x.config, Flatten(chunks))
    ensures ok <==> |Sliced(x.config, Flatten(chunks))| <= x.stream.accepts
    ensures ok ==> x.stream.log == Sliced(x.config, Flatten(chunks)) && x.rootID == Some(RootID(x.config, Flatten(chunks)))
  {
    for i := 0 to |chunks|
      invariant x.Valid() && x.input == Flatten(chunks[..i]) && (x.full != [] ==> x.buf != [])
      invariant x.headerObject.header == old(x.headerObject.header)
      invariant old(x.stub.header.split) != null ==> x.stub.header.split == old(x.stub.header.split)
      invariant old(x.stub.header.split) == null && x.stub.header.split != null ==> fresh(x.stub.header.split)
    {
      ok := WriteNext(x, chunks[i], chunks, i);
      if !ok {
        return;
      }
    }
    assert chunks[..|chunks|] == chunks;
    ok := x.Close();
  }

  // ---- Slicing a reader ----

  /** One answer of the data reader: some bytes, and whether more may follow. */
  datatype Status = More | EndOfData | Failed
  datatype ReadResult = ReadResult(data: seq<Byte>, status: Status)

  datatype SliceResult = Root(id: ObjectID) | IncompleteHeader | ReadFailed | WriteFailed

  function ReadData(results: seq<ReadResult>): (d: seq<seq<Byte>>)
    ensures |d| == |results|
  {
    seq(|results|, i requires 0 <= i < |results| => results[i].data)
  }

  /** What a run over a reader ends with: `end` is the first read that does not announce more. */
  ghost predicate SlicedReader(c: Config, results: seq<ReadResult>, end: nat, accepts: nat, log: seq<Stored>, r: SliceResult)
    requires c.limit >= 1 && end < |results|
  {
    var data := Flatten(ReadData(results[..end]));
    && (r.Root? ==> results[end].status == EndOfData && log == Sliced(c, data) && r.id == RootID(c, data)
                    && |Sliced(c, data)| <= accepts)
    && (r == WriteFailed ==> log < Sliced(c, data) && |Sliced(c, data)| > accepts)
    && (r == ReadFailed ==> results[end].status == Failed && log <= Sliced(c, data))
  }

  /** The loop over the reader. */
  method Drain(x: PayloadWriter, results: seq<ReadResult>, ghost end: nat) returns (r: SliceResult)
    requires x.Valid() && x.input == [] && x.full == []
    requires end < |results| && results[end].status != More && forall i :: 0 <= i < end ==> results[i].status == More
    modifies x, x.stream, x.headerObject.header, x.stub.header, x.stub.header.split
    ensures r != IncompleteHeader
    ensures SlicedReader(x.config, results, end, x.stream.accepts, x.stream.log, r)
  {
    ghost var chunks := ReadData(results[..end]);
    var i := 0;
    while results[i].status == More
      invariant 0 <= i <= end
      invariant x.Valid() && x.input == Flatten(chunks[..i]) && (x.full != [] ==> x.buf != [])
      invariant x.headerObject.header == old(x.headerObject.header)
      invariant old(x.stub.header.split) != null ==> x.stub.header.split == old(x.stub.header.split)
      invariant old(x.stub.header.split) == null && x.stub.header.split != null ==> fresh(x.stub.header.split)
      decreases end - i
    {
      var written := WriteNext(x, results[i].data, chunks, i);
      if !written {
        return WriteFailed;
      }
      i := i + 1;
    }
    assert chunks[..end] == chunks;
    if results[i].status == Failed {
      if x.full != [] {
        LeadingIsPrefix(x.config, x.full, x.input);
      }
      return ReadFailed;
    }
    var closed := x.Close();
    r := if closed then Root(x.rootID.value) else WriteFailed;
  }

  /** Reads until the end of the data and slices what came before it. The bytes of the very read that
      reports the end are dropped. */
  method Slice(w: Recorder, header: Object, results: seq<ReadResult>, o: Options, key: nat, splitID: nat, ghost end: nat)
    returns (r: SliceResult)
    requires w.log == [] && header.header.split == null
    requires end < |results| && results[end].status != More && forall i :: 0 <= i < end ==> results[i].status == More
    modifies w, header.header
    ensures r == IncompleteHeader <==> !Complete(old(header.header.fields))
    ensures SlicedReader(ConfigFor(old(header.header.Flat()), header.id, header.signature, o, key, splitID),
                         results, end, w.accepts, w.log, r)
    ensures r.Root? ==> SlicerTheorems.CutTo(w.log, Flatten(ReadData(results[..end])), if o.payloadLimit > 0 then o.payloadLimit else 1048576)
    ensures r.Root? ==> forall i :: 0 <= i < |w.log| ==>
              SlicerTheorems.MadeFor(old(header.header.fields), o, w.log[i].header.fields, i == 0)
  {
    ghost var h, data := header.header.Flat(), Flatten(ReadData(results[..end]));
    var init := InitPayloadStream(w, header, o, key, splitID);
    if init == None {
      return IncompleteHeader;
    }
    r := Drain(init.value, results, end);
    if r.Root? {
      SlicerTheorems.CutAtCallersLimit(h, header.id, header.signature, o, key, splitID, data);
      forall i | 0 <= i < |w.log| ensures SlicerTheorems.MadeFor(h.fields, o, w.log[i].header.fields, i == 0) {
        SlicerTheorems.MadeForCaller(h, header.id, header.signature, o, key, splitID, data, i);
      }
    }
  }
}
