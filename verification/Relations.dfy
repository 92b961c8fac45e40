/** Reading a split chain back: through the linking object, or backwards from the last part. */
module Relations {
  import opened Common

  /** What the reader looks at in a header. */
  datatype SplitView<ID> = SplitView(hasID: bool, previous: Option<ID>, children: seq<ID>)
  datatype HeaderView<ID> = HeaderView(split: Option<SplitView<ID>>)

  datatype SplitInfo<ID> = SplitInfo(link: Option<ID>, lastPart: Option<ID>)

  /** Answer to a raw header request: a physical header, or the split information of a virtual object. */
  datatype RawReply<ID> = Physical(header: HeaderView<ID>) | Virtual(info: SplitInfo<ID>)

  /** The servers behind the requests. A missing entry is a request that fails. */
  datatype Executor<ID(==)> = Executor(raw: map<ID, RawReply<ID>>, head: map<ID, HeaderView<ID>>, search: map<ID, seq<ID>>)

  datatype Error = RawHeaderFailed | SearchFailed | SiblingFailed | LinkerHeaderFailed | MissingData
                 | MemberHeaderFailed | DuplicatedMember

  datatype Result<ID> = Ok(children: seq<ID>, link: Option<ID>) | Err(error: Error)

  datatype Lookup<ID> = Found(info: SplitInfo<ID>) | NoSplitInfo | Failed

  function PreviousOf<ID>(h: HeaderView<ID>): Option<ID> {
    if h.split.Some? then h.split.value.previous else None
  }

  function ChildrenOf<ID>(h: HeaderView<ID>): seq<ID> {
    if h.split.Some? then h.split.value.children else []
  }

  /** Split information of one object: reported by the server, or read off its header. */
  function GetSplitInfo<ID>(e: Executor<ID>, id: ID): Lookup<ID> {
    if id !in e.raw then Failed
    else match e.raw[id]
      case Virtual(info) => Found(info)
      case Physical(h) =>
        if h.split == None || !h.split.value.hasID then NoSplitInfo
        else if h.split.value.children != [] then Found(SplitInfo(Some(id), None))
        else Found(SplitInfo(None, Some(id)))
  }

  // ---- Looking for the linking object among the siblings ----

  datatype Scan<ID> = Scanned(info: SplitInfo<ID>) | ScanFailed

  /** Split information after going through `list`: the first linking object ends the search. */
  function ScanSiblings<ID>(e: Executor<ID>, list: seq<ID>, info: SplitInfo<ID>): Scan<ID> {
    if list == [] then Scanned(info)
    else match GetSplitInfo(e, list[0])
      case Failed => ScanFailed
      case NoSplitInfo => ScanSiblings(e, list[1..], info)
      case Found(split) =>
        if split.link.Some? then Scanned(info.(link := split.link))
        else ScanSiblings(e, list[1..], if split.lastPart.Some? then info.(lastPart := split.lastPart) else info)
  }

  method FindSiblings<ID>(e: Executor<ID>, list: seq<ID>, info: SplitInfo<ID>) returns (r: Scan<ID>)
    ensures r == ScanSiblings(e, list, info)
  {
    var splitInfo := info;
    for i := 0 to |list|
      invariant ScanSiblings(e, list, info) == ScanSiblings(e, list[i..], splitInfo)
    {
      assert list[i..][1..] == list[i + 1..];
      match GetSplitInfo(e, list[i])
      case Failed =>
        return ScanFailed;
      case NoSplitInfo =>
      case Found(split) =>
        if split.link.Some? {
          return Scanned(splitInfo.(link := split.link));
        }
        if split.lastPart.Some? {
          splitInfo := splitInfo.(lastPart := split.lastPart);
        }
    }
    r := Scanned(splitInfo);
  }

  // ---- Walking back ----

  /** Consecutive members: each is readable and names its left neighbour. */
  ghost predicate Linked<ID>(e: Executor<ID>, chain: seq<ID>) {
    forall i :: 0 < i < |chain| ==> chain[i] in e.head && PreviousOf(e.head[chain[i]]) == Some(chain[i - 1])
  }

  /** A whole chain: linked, ending in `last`, and its first member names no left neighbour. */
  ghost predicate IsChain<ID>(e: Executor<ID>, last: ID, chain: seq<ID>) {
    && chain != [] && chain[|chain| - 1] == last
    && Linked(e, chain)
    && chain[0] in e.head && PreviousOf(e.head[chain[0]]) == None
  }

  /** Two linked sequences with the same end agree as far back as both go. */
  lemma {:induction false} LinkedAgree<ID>(e: Executor<ID>, a: seq<ID>, b: seq<ID>, k: nat)
    requires Linked(e, a) && Linked(e, b) && a != [] && b != [] && a[|a| - 1] == b[|b| - 1]
    requires k < |a| && k < |b|
    ensures a[|a| - 1 - k] == b[|b| - 1 - k]
  {
    if k > 0 {
      LinkedAgree(e, a, b, k - 1);
      assert a[|a| - 1 - (k - 1)] in e.head && b[|b| - 1 - (k - 1)] in e.head;
    }
  }

  /** A linked sequence is never longer than the chain with the same end. */
  lemma LinkedWithinChain<ID>(e: Executor<ID>, last: ID, chain: seq<ID>, a: seq<ID>)
    requires IsChain(e, last, chain) && Linked(e, a) && a != [] && a[|a| - 1] == last
    ensures |a| <= |chain|
    ensures a == chain[|chain| - |a|..]
  {
    if |a| > |chain| {
      var k := |a| - |chain|;
      assert PreviousOf(e.head[a[k]]) == Some(a[k - 1]);
      LinkedAgree(e, a, chain, |chain| - 1);
    }
    forall i | 0 <= i < |a| ensures a[i] == chain[|chain| - |a| + i] {
      LinkedAgree(e, a, chain, |a| - 1 - i);
    }
  }

  /** There is at most one chain with a given end. */
  lemma ChainUnique<ID>(e: Executor<ID>, last: ID, a: seq<ID>, b: seq<ID>)
    requires IsChain(e, last, a) && IsChain(e, last, b)
    ensures a == b
  {
    LinkedWithinChain(e, last, a, b);
    LinkedWithinChain(e, last, b, a);
  }

  /** A chain never visits a member twice. */
  lemma ChainHasNoDuplicates<ID>(e: Executor<ID>, last: ID, chain: seq<ID>, i: nat, j: nat)
    requires IsChain(e, last, chain) && i < j < |chain|
    ensures chain[i] != chain[j]
  {
    if chain[i] == chain[j] {
      assert PreviousOf(e.head[chain[j - i]]) == Some(chain[j - i - 1]);
      LinkedAgree(e, chain[..i + 1], chain[..j + 1], i);
    }
  }

  /** Going back from `last` along `a` leads to a member whose header cannot be read. */
  ghost predicate Broken<ID>(e: Executor<ID>, last: ID, a: seq<ID>) {
    Linked(e, a) && a != [] && a[|a| - 1] == last && a[0] !in e.head
  }

  /** Going back from `last` along `a` leads to a member seen before. */
  ghost predicate Looping<ID>(e: Executor<ID>, last: ID, a: seq<ID>) {
    && Linked(e, a) && a != [] && a[|a| - 1] == last
    && a[0] in e.head && PreviousOf(e.head[a[0]]).Some? && PreviousOf(e.head[a[0]]).value in a
  }

  /** Outcome of the backward walk: the one chain, or an error exactly when there is none. */
  ghost predicate WalkResult<ID(!new)>(e: Executor<ID>, last: ID, r: Result<ID>) {
    match r
    case Ok(chain, link) => link == None && IsChain(e, last, chain)
    case Err(error) =>
      && (forall chain :: !IsChain(e, last, chain))
      && ((error == MemberHeaderFailed && exists a :: Broken(e, last, a))
          || (error == DuplicatedMember && exists a :: Looping(e, last, a)))
  }

  /** A walk stuck at an unreadable member, or back at a member it has seen, has no chain to find. */
  lemma NoChainWhenStuck<ID>(e: Executor<ID>, last: ID, a: seq<ID>, chain: seq<ID>)
    requires Linked(e, a) && a != [] && a[|a| - 1] == last
    requires a[0] in e.head ==> PreviousOf(e.head[a[0]]).Some? && PreviousOf(e.head[a[0]]).value in a
    ensures !IsChain(e, last, chain)
  {
    if IsChain(e, last, chain) {
      LinkedWithinChain(e, last, chain, a);
      var k := |chain| - |a|;
      assert chain[k] == a[0];
      var j :| 0 <= j < |a| && PreviousOf(e.head[a[0]]).value == a[j];
      assert chain[k + j] == a[j];
      ChainHasNoDuplicates(e, last, chain, k - 1, k + j);
    }
  }

  /** The backward walk. It ends on every finite set of readable headers, loops included. */
  method Walk<ID(==,!new)>(e: Executor<ID>, last: ID) returns (r: Result<ID>)
    ensures WalkResult(e, last, r)
  {
    var idMember, chain, chainSet := last, [last], {last};
    ghost var visited: set<ID> := {};
    while true
      invariant Linked(e, chain) && chain != [] && chain[|chain| - 1] == last && chain[0] == idMember
      invariant forall x :: x in chainSet <==> x in chain
      invariant visited <= e.head.Keys && idMember !in visited && visited <= chainSet
      decreases |e.head.Keys - visited|
    {
      if idMember !in e.head {
        NoChainAtAll(e, last, chain);
        assert Broken(e, last, chain);
        return Err(MemberHeaderFailed);
      }
      var previous := PreviousOf(e.head[idMember]);
      if previous == None {
        break;
      }
      if previous.value in chainSet {
        NoChainAtAll(e, last, chain);
        assert Looping(e, last, chain);
        return Err(DuplicatedMember);
      }
      LinkedExtends(e, chain, previous.value);
      SmallerRest(e.head.Keys, visited, idMember);
      visited := visited + {idMember};
      idMember := previous.value;
      chain := [idMember] + chain;
      chainSet := chainSet + {idMember};
    }
    r := Ok(chain, None);
  }

  lemma LinkedExtends<ID>(e: Executor<ID>, a: seq<ID>, previous: ID)
    requires Linked(e, a) && a != [] && a[0] in e.head && PreviousOf(e.head[a[0]]) == Some(previous)
    ensures Linked(e, [previous] + a)
  {
    var b := [previous] + a;
    forall i | 0 < i < |b| ensures b[i] in e.head && PreviousOf(e.head[b[i]]) == Some(b[i - 1]) {
      assert b[i] == a[i - 1];
    }
  }

  lemma NoChainAtAll<ID(!new)>(e: Executor<ID>, last: ID, a: seq<ID>)
    requires Linked(e, a) && a != [] && a[|a| - 1] == last
    requires a[0] in e.head ==> PreviousOf(e.head[a[0]]).Some? && PreviousOf(e.head[a[0]]).value in a
    ensures forall chain :: !IsChain(e, last, chain)
  {
    forall chain ensures !IsChain(e, last, chain) {
      NoChainWhenStuck(e, last, a, chain);
    }
  }

  // ---- The whole reader ----

  /** What the reader returns, in terms of the lookups and the chain. */
  ghost predicate IsResult<ID(!new)>(e: Executor<ID>, root: ID, r: Result<ID>) {
    match GetSplitInfo(e, root)
    case NoSplitInfo => r == Ok([], None)
    case Failed => r == Err(RawHeaderFailed)
    case Found(info) =>
      if info.link.Some? then ResolvedResult(e, info, r)
      else if root !in e.search then r == Err(SearchFailed)
      else match ScanSiblings(e, e.search[root], info)
        case ScanFailed => r == Err(SiblingFailed)
        case Scanned(info') => ResolvedResult(e, info', r)
  }

  ghost predicate ResolvedResult<ID(!new)>(e: Executor<ID>, info: SplitInfo<ID>, r: Result<ID>) {
    if info.link.Some? then
      r == if info.link.value in e.head then Ok(ChildrenOf(e.head[info.link.value]), info.link) else Err(LinkerHeaderFailed)
    else if info.lastPart == None then r == Err(MissingData)
    else WalkResult(e, info.lastPart.value, r)
  }

  /** All objects of a split chain in order, and the linking object if it was found. */
  method Get<ID(==,!new)>(e: Executor<ID>, root: ID) returns (r: Result<ID>)
    ensures IsResult(e, root, r)
  {
    var lookup := GetSplitInfo(e, root);
    if lookup == Failed {
      return Err(RawHeaderFailed);
    }
    if lookup == NoSplitInfo {
      return Ok([], None);
    }
    var splitInfo := lookup.info;
    if splitInfo.link == None {
      if root !in e.search {
        return Err(SearchFailed);
      }
      var scan := FindSiblings(e, e.search[root], splitInfo);
      if scan == ScanFailed {
        return Err(SiblingFailed);
      }
      splitInfo := scan.info;
    }
    if splitInfo.link.Some? {
      if splitInfo.link.value !in e.head {
        return Err(LinkerHeaderFailed);
      }
      return Ok(ChildrenOf(e.head[splitInfo.link.value]), splitInfo.link);
    }
    if splitInfo.lastPart == None {
      return Err(MissingData);
    }
    r := Walk(e, splitInfo.lastPart.value);
  }
}
