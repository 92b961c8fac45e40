/** Buffered reading of chunked response streams: payloads, payload ranges and identifier lists. */
module Streams {
  import opened Common

  /** How a stream ends: regularly, or with a transport, status or message error. */
  datatype StreamError = EndOfStream | Broken(code: nat)

  datatype ReadError = NoError | EOF | UnexpectedEOF | Failed(code: nat) | SizeOverflow

  /** Copies as much as fits to `dst` from position `at` on. */
  method Copy<T>(dst: array<T>, at: nat, src: seq<T>) returns (n: nat)
    requires at <= dst.Length
    modifies dst
    ensures n == if |src| <= dst.Length - at then |src| else dst.Length - at
    ensures forall i :: 0 <= i < dst.Length ==> dst[i] == if at <= i < at + n then src[i - at] else old(dst[i])
  {
    n := 0;
    while n < |src| && at + n < dst.Length
      invariant n <= |src| && at + n <= dst.Length
      invariant forall i :: 0 <= i < dst.Length ==> dst[i] == if at <= i < at + n then src[i - at] else old(dst[i])
    {
      dst[at + n] := src[n];
      n := n + 1;
    }
  }

  /** Moving the first `k` elements of a chunk to the delivered data keeps the whole. */
  lemma Delivered<T>(done: seq<T>, chunk: seq<T>, rest: seq<T>, k: nat)
    requires k <= |chunk|
    ensures (done + chunk[..k]) + (chunk[k..] + rest) == done + (chunk + rest)
  {
    assert chunk == chunk[..k] + chunk[k..];
  }

  lemma PrefixOfPending<T>(done: seq<T>, more: seq<T>, rest: seq<T>, pending: seq<T>)
    requires (done + more) + rest == done + pending
    ensures more <= pending
  {
    assert forall i :: 0 <= i < |more| ==> ((done + more) + rest)[|done| + i] == more[i];
    assert forall i :: 0 <= i < |more| ==> (done + pending)[|done| + i] == pending[i];
  }

  /** Positions up to `n` are read, then `m` more; the rest of the buffer is as it was. */
  lemma ReadMore<T>(start: seq<T>, was: seq<T>, mid: seq<T>, now: seq<T>, n: nat, m: nat)
    requires |was| == |mid| == |now| && n + m <= |now|
    requires mid[n..] == was[n..] && now[..n] == mid[..n] && now[n + m..] == mid[n + m..]
    ensures (start + mid[..n]) + now[n..n + m] == start + now[..n + m]
    ensures now[n + m..] == was[n + m..]
  {
    assert now[..n + m] == now[..n] + now[n..n + m];
    assert mid[n + m..] == mid[n..][m..];
    assert was[n + m..] == was[n..][m..];
  }

  class StreamReader<T(0)> {
    var chunks: seq<seq<T>>      // messages not yet received
    const end: StreamError       // what follows them
    var tail: seq<T>             // received but not yet delivered
    var err: Option<StreamError>
    var remaining: int           // declared length minus what was delivered

    ghost const original: seq<T>
    ghost const declared: nat
    ghost var delivered: seq<T>

    /** Delivered data, tail and messages to come are always the original stream. */
    ghost predicate Conserved()
      reads this
    {
      delivered + (tail + Flatten(chunks)) == original
    }

    ghost predicate Valid()
      reads this
    {
      && Conserved()
      && remaining == declared - |delivered|
    }

    constructor (messages: seq<seq<T>>, e: StreamError, length: nat)
      ensures Valid() && original == Flatten(messages) && end == e && declared == length && delivered == []
    {
      chunks, end, tail, err, remaining := messages, e, [], None, length;
      original, declared, delivered := Flatten(messages), length, [];
    }

    /** Moves as much of `chunk` as fits into the buffer; the rest becomes the tail. */
    method Deliver(buf: array<T>, at: nat, chunk: seq<T>) returns (n: nat)
      requires at <= buf.Length && delivered + (chunk + Flatten(chunks)) == original
      modifies this`tail, this`delivered, buf
      ensures n == if |chunk| <= buf.Length - at then |chunk| else buf.Length - at
      ensures tail == chunk[n..] && delivered == old(delivered) + chunk[..n]
      ensures Conserved()
      ensures forall i :: 0 <= i < buf.Length ==> buf[i] == if at <= i < at + n then chunk[i - at] else old(buf[i])
    {
      n := Copy(buf, at, chunk);
      Delivered(delivered, chunk, Flatten(chunks), n);
      delivered := delivered + chunk[..n];
      tail := chunk[n..];
    }

    /** Receives the next message and delivers what fits behind the first `at` elements of the buffer. */
    method Receive(buf: array<T>, at: nat) returns (n: nat)
      requires chunks != [] && tail == [] && at < buf.Length && Conserved()
      modifies this`chunks, this`tail, this`delivered, buf
      ensures chunks == old(chunks)[1..] && Conserved() && at + n <= buf.Length
      ensures delivered == old(delivered) + buf[at..at + n]
      ensures buf[..at] == old(buf[..at]) && buf[at + n..] == old(buf[at + n..])
      ensures tail != [] ==> at + n == buf.Length
    {
      var chunk := chunks[0];
      FlattenFirst(chunks);
      chunks := chunks[1..];
      assert delivered + (chunk + Flatten(chunks)) == original by {
        assert chunk + Flatten(chunks) == [] + (chunk + Flatten(chunks));
      }
      if |chunk| == 0 {
        assert chunk + Flatten(chunks) == tail + Flatten(chunks);
        return 0;
      }
      n := Deliver(buf, at, chunk);
      assert buf[at..at + n] == chunk[..n];
    }

    /** Fills the buffer from the tail and then from as many messages as needed. */
    method ReadChunk(buf: array<T>) returns (n: nat, ok: bool)
      requires Conserved()
      modifies this`chunks, this`tail, this`err, this`delivered, buf
      ensures Conserved()
      ensures n <= buf.Length && delivered == old(delivered) + buf[..n] && buf[n..] == old(buf[n..])
      ensures ok <==> n == buf.Length
      ensures !ok ==> delivered == original && err == Some(end)
    {
      n := Deliver(buf, 0, tail);
      assert buf[..n] == old(tail)[..n];
      while n < buf.Length
        invariant n <= buf.Length && (n < buf.Length ==> tail == []) && Conserved()
        invariant delivered == old(delivered) + buf[..n] && buf[n..] == old(buf[n..])
        decreases |chunks|
      {
        if chunks == [] {
          assert tail + Flatten(chunks) == [];
          err := Some(end);
          return n, false;
        }
        ghost var mid := buf[..];
        var lastRead := Receive(buf, n);
        ReadMore(old(delivered), old(buf[..]), mid, buf[..], n, lastRead);
        n := n + lastRead;
      }
      ok := true;
    }

    /** Reads into the buffer and checks the declared length. */
    method Read(buf: array<T>) returns (n: nat, r: ReadError)
      requires Valid()
      modifies this, buf
      ensures Valid()
      ensures n <= buf.Length && delivered == old(delivered) + buf[..n] && buf[n..] == old(buf[n..])
      ensures r in {NoError, SizeOverflow} <==> n == buf.Length
      ensures r in {NoError, SizeOverflow} <==> |old(delivered)| + buf.Length <= |original|
      ensures r == SizeOverflow ==> |delivered| > declared
      ensures r == NoError ==> |delivered| <= declared
      ensures n < buf.Length ==> delivered == original
      ensures n < buf.Length ==>
                r == match end
                     case Broken(code) => Failed(code)
                     case EndOfStream => if |original| >= declared then EOF else UnexpectedEOF
    {
      var ok;
      n, ok := ReadChunk(buf);
      remaining := remaining - n;
      if !ok {
        if err.value != EndOfStream {
          return n, Failed(err.value.code);
        }
        return n, if remaining > 0 then UnexpectedEOF else EOF;
      }
      r := if remaining < 0 then SizeOverflow else NoError;
    }

    /** What is still to be delivered. */
    ghost function Pending(): seq<T>
      requires Valid()
      reads this
    {
      tail + Flatten(chunks)
    }

    /** Visits the elements one by one until `stop` says so or the stream ends. */
    method Iterate(stop: T -> bool) returns (visited: seq<T>, r: ReadError)
      requires Valid()
      modifies this`chunks, this`tail, this`err, this`delivered
      ensures Conserved()
      ensures visited <= old(Pending()) && delivered == old(delivered) + visited
      ensures forall i :: 0 <= i < |visited| - 1 ==> !stop(visited[i])
      ensures visited != [] && stop(visited[|visited| - 1]) ==> r == NoError
      ensures !(visited != [] && stop(visited[|visited| - 1])) ==>
                visited == old(Pending()) && r == if end == EndOfStream then NoError else Failed(end.code)
    {
      visited := [];
      while true
        invariant Conserved() && delivered == old(delivered) + visited
        invariant visited <= old(Pending())
        invariant forall i :: 0 <= i < |visited| ==> !stop(visited[i])
        decreases |original| - |delivered|
      {
        var buf := new T[1];
        var _, ok := ReadChunk(buf);
        if !ok {
          assert visited == old(Pending());
          return visited, if end == EndOfStream then NoError else Failed(end.code);
        }
        visited := visited + [buf[0]];
        PrefixOfPending(old(delivered), visited, tail + Flatten(chunks), old(Pending()));
        if stop(buf[0]) {
          return visited, NoError;
        }
      }
    }
  }
}
