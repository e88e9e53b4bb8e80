/**
 * Rust's `slice::chunks(n)`: consecutive pieces of length `n`, the last one
 * possibly shorter and never empty. Used for codons (n = 3) and for wrapping
 * strain sequences at 60 characters per line.
 */
module Chunking {

  function Chunks<T>(s: seq<T>, n: nat): (r: seq<seq<T>>)
    requires n > 0
    ensures forall i :: 0 <= i < |r| ==> 0 < |r[i]| <= n
    ensures forall i :: 0 <= i < |r| - 1 ==> |r[i]| == n
    decreases |s|
  {
    if |s| == 0 then []
    else if |s| <= n then [s]
    else [s[..n]] + Chunks(s[n..], n)
  }

  /** There are ceil(|s| / n) chunks: `n` times the count covers `s` with less than one chunk to spare. */
  lemma {:induction false} ChunksCount<T>(s: seq<T>, n: nat)
    requires n > 0
    ensures |Chunks(s, n)| * n >= |s|
    ensures |Chunks(s, n)| * n < |s| + n
    decreases |s|
  {
    if |s| > n {
      ChunksCount(s[n..], n);
      var c := |Chunks(s[n..], n)|;
      assert |Chunks(s, n)| == c + 1;
      assert (c + 1) * n == c * n + n;
    }
  }

  /** Concatenation of a sequence of pieces. */
  function Flatten<T>(pieces: seq<seq<T>>): seq<T>
  {
    if pieces == [] then [] else pieces[0] + Flatten(pieces[1..])
  }

  /** Putting the chunks back together gives the input. */
  lemma {:induction false} ChunksFlatten<T>(s: seq<T>, n: nat)
    requires n > 0
    ensures Flatten(Chunks(s, n)) == s
    decreases |s|
  {
    if |s| == 0 {
    } else if |s| <= n {
      assert Flatten(Chunks(s, n)) == s + Flatten([]);
    } else {
      ChunksFlatten(s[n..], n);
      var r := Chunks(s, n);
      assert r[1..] == Chunks(s[n..], n);
      assert s == s[..n] + s[n..];
    }
  }

  /** Chunk `i` is the slice of the input starting at `i * n`. */
  lemma {:induction false} ChunkAt<T>(s: seq<T>, n: nat, i: nat)
    requires n > 0 && i < |Chunks(s, n)|
    ensures i * n < |s|
    ensures Chunks(s, n)[i] == s[i * n .. if (i + 1) * n <= |s| then (i + 1) * n else |s|]
    decreases |s|
  {
    if |s| <= n {
    } else if i > 0 {
      ChunkAt(s[n..], n, i - 1);
      assert Chunks(s, n)[i] == Chunks(s[n..], n)[i - 1];
      assert (i - 1) * n + n == i * n;
    }
  }
}
