/** Notions shared by all parts of the model. */
module Common {

  datatype Option<+T> = None | Some(value: T)

  // ---- Sequences of chunks ----

  /** The elements of the chunks in order. */
  function Flatten<T>(chunks: seq<seq<T>>): seq<T> {
    if chunks == [] then [] else Flatten(chunks[..|chunks| - 1]) + chunks[|chunks| - 1]
  }

  lemma {:induction false} FlattenConcat<T>(a: seq<seq<T>>, b: seq<seq<T>>)
    ensures Flatten(a + b) == Flatten(a) + Flatten(b)
  {
    if b == [] {
      assert a + b == a;
    } else {
      var m := |b| - 1;
      FlattenConcat(a, b[..m]);
      assert (a + b)[..|a| + m] == a + b[..m];
    }
  }

  lemma FlattenSingle<T>(chunk: seq<T>)
    ensures Flatten([chunk]) == chunk
  {
    assert [chunk][..0] == [];
    assert Flatten([chunk]) == Flatten([]) + chunk;
  }

  lemma FlattenNext<T>(chunks: seq<seq<T>>, chunk: seq<T>)
    ensures Flatten(chunks + [chunk]) == Flatten(chunks) + chunk
  {
    FlattenConcat(chunks, [chunk]);
    FlattenSingle(chunk);
  }

  lemma FlattenFirst<T>(chunks: seq<seq<T>>)
    requires chunks != []
    ensures Flatten(chunks) == chunks[0] + Flatten(chunks[1..])
  {
    assert chunks == [chunks[0]] + chunks[1..];
    FlattenConcat([chunks[0]], chunks[1..]);
    FlattenSingle(chunks[0]);
  }

  lemma FlattenPrefix<T>(chunks: seq<seq<T>>, i: nat)
    requires i < |chunks|
    ensures Flatten(chunks[..i + 1]) == Flatten(chunks[..i]) + chunks[i]
    ensures Flatten(chunks[..i + 1]) <= Flatten(chunks)
  {
    assert chunks[..i + 1][..i] == chunks[..i];
    FlattenConcat(chunks[..i + 1], chunks[i + 1..]);
    assert chunks[..i + 1] + chunks[i + 1..] == chunks;
  }

  // ---- Names ----

  /** Position of the last occurrence of a name, or -1. */
  function LastIndex(names: seq<string>, name: string): (k: int)
    ensures -1 <= k < |names|
    ensures k >= 0 ==> names[k] == name
    ensures forall j :: k < j < |names| ==> names[j] != name
  {
    if names == [] then -1
    else if names[|names| - 1] == name then |names| - 1
    else LastIndex(names[..|names| - 1], name)
  }

  // ---- Division ----

  /** Quotient and remainder are the only ones that fit. */
  lemma DivisionUnique(x: nat, y: nat, q: nat, r: nat)
    requires y >= 1 && r < y && x == q * y + r
    ensures x / y == q && x % y == r
  {
    var d := x / y - q;
    assert x == (x / y) * y + x % y;
    assert d * y == r - x % y;
    assert d >= 1 ==> d * y >= y;
    assert d <= -1 ==> 0 <= y * (-d - 1);
  }

  // ---- Sets ----

  /** One more key seen leaves fewer to see. */
  lemma SmallerRest<T>(keys: set<T>, visited: set<T>, id: T)
    requires id in keys && id !in visited
    ensures |keys - (visited + {id})| < |keys - visited|
  {
    assert keys - visited == (keys - (visited + {id})) + {id};
  }
}
