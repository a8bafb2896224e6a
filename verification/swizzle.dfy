/** Channel reordering: `convert_bgra` swaps the first and third byte of every
    complete 4-byte chunk, turning B,G,R,A into R,G,B,A. The same swap over
    3-byte chunks is what a B,G,R to R,G,B conversion needs. */
module Swizzle {

  /** After swapping bytes 0 and 2 of every complete `k`-byte chunk of an
      `n`-byte buffer, the byte at position `i` comes from this position.
      Bytes of the trailing incomplete chunk stay where they are. */
  function SwapSource(i: nat, n: nat, k: nat): (j: nat)
    requires ChunkWidth(k)
    ensures i < n ==> j < n
  {
    if i >= n - Rem(n, k) then i
    else if Rem(i, k) == 0 then i + 2
    else if Rem(i, k) == 2 then i - 2
    else i
  }

  /** The chunk widths in use: 4 for B,G,R,A pixels, 3 for B,G,R pixels. */
  predicate ChunkWidth(k: nat) {
    k == 3 || k == 4
  }

  /** `x % k`, written with a literal divisor for each chunk width. */
  function Rem(x: nat, k: nat): (m: nat)
    requires ChunkWidth(k)
    ensures m < k
  {
    if k == 3 then x % 3 else x % 4
  }

  /** Swaps bytes 0 and 2 of every complete `k`-byte chunk of `s`. */
  function ChunkSwap(s: seq<bv8>, k: nat): (r: seq<bv8>)
    requires ChunkWidth(k)
    ensures |r| == |s|
  {
    seq(|s|, i requires 0 <= i < |s| => s[SwapSource(i, |s|, k)])
  }

  /** The source's `convert_bgra`. */
  function ConvertBgra(s: seq<bv8>): (r: seq<bv8>)
    ensures |r| == |s|
  {
    ChunkSwap(s, 4)
  }

  /** In every complete 4-byte chunk B,G,R,A becomes R,G,B,A; the trailing
      `|s| % 4` bytes are untouched. */
  lemma ConvertBgraChunks(s: seq<bv8>)
    ensures forall p :: 0 <= p && 4 * p + 4 <= |s| ==>
      ConvertBgra(s)[4 * p..4 * p + 4] == [s[4 * p + 2], s[4 * p + 1], s[4 * p], s[4 * p + 3]]
    ensures ConvertBgra(s)[|s| - |s| % 4..] == s[|s| - |s| % 4..]
  {
    forall p | 0 <= p && 4 * p + 4 <= |s|
      ensures ConvertBgra(s)[4 * p..4 * p + 4] == [s[4 * p + 2], s[4 * p + 1], s[4 * p], s[4 * p + 3]]
    {
      ConvertBgraChunkAt(s, p);
    }
    ConvertBgraTail(s);
  }

  lemma ConvertBgraChunkAt(s: seq<bv8>, p: nat)
    requires 4 * p + 4 <= |s|
    ensures ConvertBgra(s)[4 * p..4 * p + 4] == [s[4 * p + 2], s[4 * p + 1], s[4 * p], s[4 * p + 3]]
  {
    var r := ConvertBgra(s);
    var c := 4 * p;
    WholeChunkSources(p, |s|);
    assert r[c] == s[c + 2];
    assert r[c + 1] == s[c + 1];
    assert r[c + 2] == s[c];
    assert r[c + 3] == s[c + 3];
    assert r[c..c + 4] == [r[c], r[c + 1], r[c + 2], r[c + 3]];
  }

  lemma ConvertBgraTail(s: seq<bv8>)
    ensures ConvertBgra(s)[|s| - |s| % 4..] == s[|s| - |s| % 4..]
  {
    var r := ConvertBgra(s);
    var n := |s|;
    var whole := n - Rem(n, 4);
    forall i | whole <= i < n ensures r[i] == s[i] {
      assert SwapSource(i, n, 4) == i;
    }
    assert r[whole..] == s[whole..];
  }

  /** Where the four bytes of the `p`-th complete chunk come from. */
  lemma WholeChunkSources(p: nat, n: nat)
    requires 4 * p + 4 <= n
    ensures SwapSource(4 * p, n, 4) == 4 * p + 2
    ensures SwapSource(4 * p + 1, n, 4) == 4 * p + 1
    ensures SwapSource(4 * p + 2, n, 4) == 4 * p
    ensures SwapSource(4 * p + 3, n, 4) == 4 * p + 3
  {
  }

  /** Swapping twice restores the buffer. */
  lemma {:induction false} ChunkSwapInvolution(s: seq<bv8>, k: nat)
    requires ChunkWidth(k)
    ensures ChunkSwap(ChunkSwap(s, k), k) == s
  {
    var n := |s|;
    var r := ChunkSwap(s, k);
    var rr := ChunkSwap(r, k);
    forall i | 0 <= i < n ensures rr[i] == s[i] {
      SwapSourceInvolutive(i, n, k);
      var j := SwapSource(i, n, k);
      assert rr[i] == r[j];
      assert r[j] == s[SwapSource(j, n, k)];
    }
  }

  /** Applying the position swap twice returns to the start. */
  lemma SwapSourceInvolutive(i: nat, n: nat, k: nat)
    requires ChunkWidth(k) && i < n
    ensures SwapSource(i, n, k) < n
    ensures SwapSource(SwapSource(i, n, k), n, k) == i
  {
    if k == 3 {
      assert SwapSource(i, n, 3) < n;
    } else {
      assert SwapSource(i, n, 4) < n;
    }
  }

  /** `convert_bgra` is its own inverse. */
  lemma ConvertBgraInvolution(s: seq<bv8>)
    ensures ConvertBgra(ConvertBgra(s)) == s
  {
    ChunkSwapInvolution(s, 4);
  }

  /** The source's loop over `chunks_exact_mut(4)`, on a copy of the bytes. */
  method ConvertBgraLoop(bytes: seq<bv8>) returns (out: seq<bv8>)
    ensures out == ConvertBgra(bytes)
  {
    var n := |bytes|;
    var buf := new bv8[n](i requires 0 <= i < n => bytes[i]);
    var p := 0;
    while p < n / 4
      invariant p <= n / 4
      invariant forall i :: 0 <= i < 4 * p ==> buf[i] == bytes[SwapSource(i, n, 4)]
      invariant forall i :: 4 * p <= i < n ==> buf[i] == bytes[i]
    {
      WholeChunkSources(p, n);
      var c := 4 * p;
      var blue, red := buf[c], buf[c + 2];
      buf[c] := red;
      buf[c + 2] := blue;
      forall i | 0 <= i < c + 4 ensures buf[i] == bytes[SwapSource(i, n, 4)] {
        if i == c || i == c + 2 {
        } else if i >= c {
          assert buf[i] == bytes[i];
        }
      }
      p := p + 1;
    }
    out := buf[..];
    forall i | 0 <= i < n ensures out[i] == ConvertBgra(bytes)[i] {
      if i >= 4 * p {
        assert SwapSource(i, n, 4) == i;
      }
    }
  }

  /** A buffer of identical B,G,R,A pixels becomes the same number of
      identical R,G,B,A pixels. */
  lemma ConvertBgraUniform(s: seq<bv8>, b: bv8, g: bv8, r: bv8, a: bv8)
    requires forall p :: 0 <= p && 4 * p + 4 <= |s| ==> s[4 * p..4 * p + 4] == [b, g, r, a]
    ensures forall p :: 0 <= p && 4 * p + 4 <= |s| ==> ConvertBgra(s)[4 * p..4 * p + 4] == [r, g, b, a]
  {
    forall p | 0 <= p && 4 * p + 4 <= |s|
      ensures ConvertBgra(s)[4 * p..4 * p + 4] == [r, g, b, a]
    {
      ConvertBgraChunkAt(s, p);
      var pixel := s[4 * p..4 * p + 4];
      assert pixel[0] == s[4 * p] && pixel[1] == s[4 * p + 1];
      assert pixel[2] == s[4 * p + 2] && pixel[3] == s[4 * p + 3];
    }
  }
}
