/** The chain reader undoes the slicer. */
module Recovery {
  import opened Common
  import opened Objects
  import opened SlicerSpec
  import opened SlicerTheorems
  import R = Relations
  import S = Slicer

  function View(h: HeaderValue): R.HeaderView<ObjectID> {
    match h.split
    case None => R.HeaderView(None)
    case Some(s) => R.HeaderView(Some(R.SplitView(s.splitID.Some?, s.previous, s.children)))
  }

  /** The servers hold this object. */
  ghost predicate Holds(e: R.Executor<ObjectID>, o: Stored) {
    && o.id in e.raw && e.raw[o.id] == R.Physical(View(o.header))
    && o.id in e.head && e.head[o.id] == View(o.header)
  }

  function LastID(c: Config, data: seq<Byte>): ObjectID
    requires c.limit >= 1
  {
    Parts(c, data)[|Parts(c, data)| - 1].id
  }

  function LinkID(c: Config, data: seq<Byte>): ObjectID
    requires c.limit >= 1
  {
    var log := Sliced(c, data);
    log[|log| - 1].id
  }

  /** Servers that store a split run: all parts, the linking object unless `link` is false, and for the
      virtual root any true split information and any list of the objects that name it as parent. */
  ghost predicate Serves(e: R.Executor<ObjectID>, c: Config, data: seq<Byte>, link: bool)
    requires ValidConfig(c) && |data| > c.limit
  {
    var root := RootID(c, data);
    && (forall i :: 0 <= i < |Parts(c, data)| ==> Holds(e, Parts(c, data)[i]))
    && (link ==> Holds(e, Sliced(c, data)[|Sliced(c, data)| - 1]))
    && root in e.raw && e.raw[root].Virtual?
    && (e.raw[root].info.link.Some? ==> link && e.raw[root].info.link.value == LinkID(c, data))
    && (e.raw[root].info.lastPart.Some? ==> e.raw[root].info.lastPart.value == LastID(c, data))
    && root in e.search
    && (forall i :: 0 <= i < |e.search[root]| ==>
          e.search[root][i] == LastID(c, data) || (link && e.search[root][i] == LinkID(c, data)))
  }

  /** The servers point to the linking object. */
  ghost predicate KnowsLink(e: R.Executor<ObjectID>, c: Config, data: seq<Byte>)
    requires c.limit >= 1 && RootID(c, data) in e.raw && e.raw[RootID(c, data)].Virtual? && RootID(c, data) in e.search
  {
    e.raw[RootID(c, data)].info.link.Some? || LinkID(c, data) in e.search[RootID(c, data)]
  }

  /** The servers point to the last part. */
  ghost predicate KnowsLast(e: R.Executor<ObjectID>, c: Config, data: seq<Byte>)
    requires c.limit >= 1 && RootID(c, data) in e.raw && e.raw[RootID(c, data)].Virtual? && RootID(c, data) in e.search
  {
    e.raw[RootID(c, data)].info.lastPart.Some? || e.search[RootID(c, data)] != []
  }

  /** The caller's header names no predecessor. */
  predicate Headless(c: Config) {
    c.root.split == None || c.root.split.value.previous == None
  }

  /** The parts form the chain the backward walk looks for if and only if the caller's header, under which
      the first one stands, names no predecessor. */
  lemma PartsAreChainIff(e: R.Executor<ObjectID>, c: Config, data: seq<Byte>)
    requires ValidConfig(c) && |data| > c.limit
    requires forall i :: 0 <= i < |Parts(c, data)| ==> Holds(e, Parts(c, data)[i])
    ensures R.IsChain(e, LastID(c, data), IDs(Parts(c, data))) <==> Headless(c)
  {
    var ids := IDs(Parts(c, data));
    ChildExact(c, data, 0);
    assert Holds(e, Parts(c, data)[0]);
    if Headless(c) {
      forall i | 0 <= i < |ids|
        ensures ids[i] in e.head && R.PreviousOf(e.head[ids[i]]) == if i == 0 then None else Some(ids[i - 1])
      {
        ChildExact(c, data, i);
        assert Holds(e, Parts(c, data)[i]);
      }
    }
  }

  /** Split information of the two objects a search by parent can return. */
  lemma SiblingInfo(e: R.Executor<ObjectID>, c: Config, data: seq<Byte>, link: bool)
    requires ValidConfig(c) && |data| > c.limit && Serves(e, c, data, link)
    ensures R.GetSplitInfo(e, LastID(c, data)) == R.Found(R.SplitInfo(None, Some(LastID(c, data))))
    ensures link ==> R.GetSplitInfo(e, LinkID(c, data)) == R.Found(R.SplitInfo(Some(LinkID(c, data)), None))
  {
    ChunkCount(data, c.limit);
    var parts := Parts(c, data);
    ChildExact(c, data, |parts| - 1);
    LinkExact(c, data);
    assert Holds(e, parts[|parts| - 1]);
  }

  /** Whatever the order and repetition in the list, scanning it finds the linking object if it is listed. */
  lemma {:induction false} ScanFinds(e: R.Executor<ObjectID>, last: ObjectID, link: ObjectID, list: seq<ObjectID>, info: R.SplitInfo<ObjectID>)
    requires R.GetSplitInfo(e, last) == R.Found(R.SplitInfo(None, Some(last)))
    requires link in list ==> R.GetSplitInfo(e, link) == R.Found(R.SplitInfo(Some(link), None))
    requires forall i :: 0 <= i < |list| ==> list[i] in {last, link}
    requires info.link == None && (info.lastPart.Some? ==> info.lastPart.value == last)
    ensures R.ScanSiblings(e, list, info).Scanned?
    ensures var r := R.ScanSiblings(e, list, info).info;
            && r.link == (if link in list then Some(link) else None)
            && (link !in list ==> r.lastPart == if list == [] then info.lastPart else Some(last))
    decreases |list|
  {
    if list != [] && list[0] != link {
      assert forall x :: x in list <==> x == list[0] || x in list[1..];
      ScanFinds(e, last, link, list[1..], info.(lastPart := Some(last)));
    } else if list != [] {
      assert list[0] == link;
    }
  }

  /** Whatever a split run stored, reading the chain returns exactly the stored parts in order: through
      the linking object when the servers point to it, by the backward walk when only the last part is
      known. Nothing depends on the order of the search result. */
  lemma ReaderRecoversParts(e: R.Executor<ObjectID>, c: Config, data: seq<Byte>, link: bool, r: R.Result<ObjectID>)
    requires ValidConfig(c) && |data| > c.limit && Serves(e, c, data, link)
    requires KnowsLink(e, c, data) || (KnowsLast(e, c, data) && Headless(c))
    requires R.IsResult(e, RootID(c, data), r)
    ensures r == R.Ok(IDs(Parts(c, data)), if KnowsLink(e, c, data) then Some(LinkID(c, data)) else None)
  {
    var root := RootID(c, data);
    var info := e.raw[root].info;
    SiblingInfo(e, c, data, link);
    PartsAreChainIff(e, c, data);
    LinkExact(c, data);
    if info.link == None {
      ScanFinds(e, LastID(c, data), LinkID(c, data), e.search[root], info);
      if !KnowsLink(e, c, data) {
        NoErrorWithChain(e, LastID(c, data), IDs(Parts(c, data)), r);
      }
    }
  }

  lemma NoErrorWithChain(e: R.Executor<ObjectID>, last: ObjectID, chain: seq<ObjectID>, r: R.Result<ObjectID>)
    requires R.IsChain(e, last, chain) && R.WalkResult(e, last, r)
    ensures r == R.Ok(chain, None)
  {
    if r.Ok? {
      R.ChainUnique(e, last, chain, r.children);
    }
  }

  /** A payload that was not split has no chain, if and only if the caller's header is not part of a split itself. */
  lemma WholeObjectHasNoChain(e: R.Executor<ObjectID>, c: Config, data: seq<Byte>, r: R.Result<ObjectID>)
    requires ValidConfig(c) && |data| <= c.limit && |Sliced(c, data)| == 1
    requires Holds(e, Sliced(c, data)[0])
    requires R.IsResult(e, RootID(c, data), r)
    ensures r == R.Ok([], None) <==> c.root.split == None || c.root.split.value.splitID == None
  {
    WholeExact(c, data);
  }

  // ---- End to end ----

  /** Headers by identifier after storing the objects of `log` one by one. */
  function Headers(log: seq<Stored>): map<ObjectID, R.HeaderView<ObjectID>> {
    if log == [] then map[]
    else Headers(log[..|log| - 1])[log[|log| - 1].id := View(log[|log| - 1].header)]
  }

  /** Servers that store `log`, report `info` for the virtual object `root` and answer a search for it with `list`. */
  function ServersOf(log: seq<Stored>, root: ObjectID, info: R.SplitInfo<ObjectID>, list: seq<ObjectID>): R.Executor<ObjectID> {
    var headers := Headers(log);
    R.Executor((map id | id in headers :: R.Physical(headers[id]))[root := R.Virtual(info)], headers, map[root := list])
  }

  lemma {:induction false} HeaderStored(log: seq<Stored>, i: nat)
    requires i < |log| && forall j :: i < j < |log| ==> log[j].id != log[i].id
    ensures log[i].id in Headers(log) && Headers(log)[log[i].id] == View(log[i].header)
  {
    var m := |log| - 1;
    if i < m {
      HeaderStored(log[..m], i);
    }
  }

  /** A run over a clean header can be stored: no object overwrites another. */
  lemma StoredRunServes(c: Config, data: seq<Byte>, info: R.SplitInfo<ObjectID>, list: seq<ObjectID>)
    requires ValidConfig(c) && !Preset(c) && |data| > c.limit
    requires info.link.Some? ==> info.link.value == LinkID(c, data)
    requires info.lastPart.Some? ==> info.lastPart.value == LastID(c, data)
    requires forall i :: 0 <= i < |list| ==> list[i] in {LastID(c, data), LinkID(c, data)}
    ensures Serves(ServersOf(Sliced(c, data), RootID(c, data), info, list), c, data, true)
  {
    var log, parts := Sliced(c, data), Parts(c, data);
    PayloadKept(c, data);
    var e := ServersOf(log, RootID(c, data), info, list);
    forall i | 0 <= i < |log| ensures Holds(e, log[i]) {
      if i < |parts| {
        RootAndLinkDistinct(c, data, i);
        forall j | i < j < |log| ensures log[j].id != log[i].id {
          if j < |parts| {
            PartsDistinct(c, data, i, j);
            assert parts[i] == log[i] && parts[j] == log[j];
          }
        }
      } else {
        RootAndLinkDistinct(c, data, 0);
      }
      HeaderStored(log, i);
    }
    forall i | 0 <= i < |parts| ensures Holds(e, parts[i]) {
      assert parts[i] == log[i];
    }
  }

  /** Write anything in any pieces, store it, read the chain back: exactly the stored parts, in order,
      whatever split information the servers give and in whatever order they list the siblings. */
  method WriteThenRead(x: S.PayloadWriter, chunks: seq<seq<Byte>>, info: R.SplitInfo<ObjectID>, list: seq<ObjectID>)
    returns (stored: bool, r: R.Result<ObjectID>)
    requires x.Valid() && x.input == [] && x.full == []
    requires !Preset(x.config) && |Flatten(chunks)| > x.config.limit
    requires info.link.Some? ==> info.link.value == LinkID(x.config, Flatten(chunks))
    requires info.lastPart.Some? ==> info.lastPart.value == LastID(x.config, Flatten(chunks))
    requires forall i :: 0 <= i < |list| ==> list[i] in {LastID(x.config, Flatten(chunks)), LinkID(x.config, Flatten(chunks))}
    requires info.link.Some? || LinkID(x.config, Flatten(chunks)) in list || (Headless(x.config) && (info.lastPart.Some? || list != []))
    modifies x, x.stream, x.headerObject.header, x.stub.header, x.stub.header.split
    ensures stored <==> |Sliced(x.config, Flatten(chunks))| <= x.stream.accepts
    ensures stored ==> r.Ok? && r.children == IDs(Parts(x.config, Flatten(chunks)))
    ensures stored ==> Flatten(Payloads(Parts(x.config, Flatten(chunks)))) == Flatten(chunks)
  {
    ghost var c, data := x.config, Flatten(chunks);
    stored := S.WriteAll(x, chunks);
    r := R.Err(R.MissingData);
    if stored {
      var e := ServersOf(x.stream.log, x.rootID.value, info, list);
      StoredRunServes(c, data, info, list);
      r := R.Get(e, x.rootID.value);
      ReaderRecoversParts(e, c, data, true, r);
      PayloadKept(c, data);
    }
  }
}
