/** Sequences: data handed over in pieces, and joins. */
module Chunks {
  /** The first n pieces, joined. */
  function Flat<T>(chunks: seq<seq<T>>, n: nat): seq<T>
    requires n <= |chunks|
  {
    if n == 0 then [] else Flat(chunks, n - 1) + chunks[n - 1]
  }

  lemma {:induction false} FlatGrows<T>(chunks: seq<seq<T>>, n: nat, m: nat)
    requires n <= m <= |chunks|
    ensures |Flat(chunks, n)| <= |Flat(chunks, m)|
  {
    if n < m { FlatGrows(chunks, n, m - 1); }
  }

  function Fill<T>(x: T, n: nat): (s: seq<T>)
    ensures |s| == n
  {
    seq(n, i => x)
  }

  lemma JoinAgain<T>(a: seq<T>, b: seq<T>, c: seq<T>)
    ensures (a + b) + c == a + (b + c)
  {
  }

  lemma OneMore<T>(s: seq<T>, n: nat)
    requires 0 < n <= |s|
    ensures s[..n] == s[..n - 1] + [s[n - 1]]
  {
  }
}
