/** Sending a payload in messages of bounded size, the counterpart of the buffered readers. */
module Upload {
  import opened Common
  import opened Streams

  const MAX_CHUNK_LEN: nat := 3 * 1024 * 1024

  /** Messages needed for `n` bytes. */
  function MessageCount(n: nat): nat {
    (n + MAX_CHUNK_LEN - 1) / MAX_CHUNK_LEN
  }

  lemma NextMessage(n: nat)
    requires n > 0
    ensures MessageCount(n) == 1 + MessageCount(if n > MAX_CHUNK_LEN then n - MAX_CHUNK_LEN else 0)
  {
  }

  /** As few messages of three mebibytes as hold the bytes. */
  lemma MessageCountLeast(n: nat)
    ensures MessageCount(n) * 3145728 >= n
    ensures n > 0 ==> (MessageCount(n) - 1) * 3145728 < n
  {
  }

  /** A message never carries nothing and never more than the server takes. */
  ghost predicate Bounded<T>(messages: seq<seq<T>>) {
    forall i :: 0 <= i < |messages| ==> 1 <= |messages[i]| <= 3145728
  }

  lemma SendNext<T>(sent: seq<seq<T>>, before: seq<T>, chunk: seq<T>, at: nat, ln: nat)
    requires at + ln <= |chunk| && Flatten(sent) == before + chunk[..at]
    ensures Flatten(sent + [chunk[at..][..ln]]) == before + chunk[..at + ln]
    ensures chunk[at..][ln..] == chunk[at + ln..]
  {
    FlattenNext(sent, chunk[at..][..ln]);
    assert chunk[..at + ln] == chunk[..at] + chunk[at..][..ln];
  }

  class ObjectWriter<T> {
    var sent: seq<seq<T>>
    const accepts: nat       // messages the server takes before the stream breaks

    ghost predicate Valid()
      reads this
    {
      |sent| <= accepts && Bounded(sent)
    }

    constructor (n: nat)
      ensures Valid() && sent == [] && accepts == n
    {
      sent, accepts := [], n;
    }

    /** Sends the chunk in as few messages as possible. Whatever happens, the count returned is what the
        server has received, and it is all of the chunk exactly when the stream lasts long enough. */
    method Write(chunk: seq<T>) returns (writtenBytes: nat, ok: bool)
      requires Valid()
      modifies this`sent
      ensures Valid() && old(sent) <= sent && writtenBytes <= |chunk|
      ensures Flatten(sent) == old(Flatten(sent)) + chunk[..writtenBytes]
      ensures ok <==> writtenBytes == |chunk|
      ensures ok <==> |old(sent)| + MessageCount(|chunk|) <= accepts
      ensures ok ==> |sent| == |old(sent)| + MessageCount(|chunk|)
      ensures !ok ==> |sent| == accepts
    {
      writtenBytes := 0;
      var rest := chunk;
      while |rest| > 0
        invariant Valid() && old(sent) <= sent
        invariant writtenBytes <= |chunk| && rest == chunk[writtenBytes..]
        invariant Flatten(sent) == old(Flatten(sent)) + chunk[..writtenBytes]
        invariant |sent| + MessageCount(|rest|) == |old(sent)| + MessageCount(|chunk|)
      {
        NextMessage(|rest|);
        var ln := if |rest| > MAX_CHUNK_LEN then MAX_CHUNK_LEN else |rest|;
        if |sent| == accepts {
          return writtenBytes, false;
        }
        SendNext(sent, old(Flatten(sent)), chunk, writtenBytes, ln);
        sent := sent + [rest[..ln]];
        writtenBytes := writtenBytes + ln;
        rest := rest[ln..];
      }
      ok := true;
    }
  }

  /** Messages needed for all chunks. */
  function TotalMessages<T>(chunks: seq<seq<T>>): nat {
    if chunks == [] then 0 else TotalMessages(chunks[..|chunks| - 1]) + MessageCount(|chunks[|chunks| - 1]|)
  }

  lemma {:induction false} TotalGrows<T>(chunks: seq<seq<T>>, k: nat)
    requires k <= |chunks|
    ensures TotalMessages(chunks[..k]) <= TotalMessages(chunks)
  {
    if k == |chunks| {
      assert chunks[..k] == chunks;
    } else {
      var m := |chunks| - 1;
      assert chunks[..m][..k] == chunks[..k];
      TotalGrows(chunks[..m], k);
    }
  }

  /** What was sent in any number of writes is what is read back, into a buffer of any size. */
  method PutThenGet<T(0)>(w: ObjectWriter<T>, chunks: seq<seq<T>>, size: nat) returns (ok: bool, data: seq<T>)
    requires w.Valid() && w.sent == []
    modifies w
    ensures ok ==> data == if size <= |Flatten(chunks)| then Flatten(chunks)[..size] else Flatten(chunks)
    ensures ok <==> TotalMessages(chunks) <= w.accepts
    ensures !ok ==> |w.sent| == w.accepts
  {
    for i := 0 to |chunks|
      invariant w.Valid() && Flatten(w.sent) == Flatten(chunks[..i]) && |w.sent| == TotalMessages(chunks[..i])
    {
      assert chunks[..i + 1][..i] == chunks[..i];
      var _, sent := w.Write(chunks[i]);
      if !sent {
        TotalGrows(chunks, i + 1);
        return false, [];
      }
      assert chunks[..i + 1] == chunks[..i] + [chunks[i]];
      FlattenNext(chunks[..i], chunks[i]);
    }
    assert chunks[..|chunks|] == chunks;
    var reader := new StreamReader(w.sent, EndOfStream, |Flatten(w.sent)|);
    var buf := new T[size];
    var n, _ := reader.Read(buf);
    assert reader.delivered == buf[..n];
    assert reader.delivered <= reader.original;
    return true, buf[..n];
  }
}
