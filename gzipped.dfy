/** The buffer concatenation of src/gzipped.ts: the decompressed chunks of the
    embedded module are summed up in one pass and copied into one fresh
    Uint8Array in a second pass. */
module Gzipped {
  import opened Host
  import opened Buffers

  /** The lengths of two lists of buffers add up. */
  lemma {:induction false} TotalLengthAppend(a: seq<seq<byte>>, b: seq<seq<byte>>)
    ensures TotalLength(a + b) == TotalLength(a) + TotalLength(b)
  {
    if a == [] {
      assert a + b == b;
    } else {
      assert (a + b)[1..] == a[1..] + b;
      TotalLengthAppend(a[1..], b);
    }
  }

  /** The copy regions of the buffers tile the output: the first starts at 0,
      each one starts where the one before it ends, and the last ends at the
      total length. So every output byte is written by exactly one buffer. */
  lemma OffsetsTile(bufs: seq<seq<byte>>, k: nat)
    requires k < |bufs|
    ensures Offset(bufs, 0) == 0
    ensures Offset(bufs, k + 1) == Offset(bufs, k) + |bufs[k]|
    ensures Offset(bufs, k + 1) <= Offset(bufs, |bufs|) == TotalLength(bufs)
  {
    assert bufs[..0] == [];
    assert bufs[..k + 1] == bufs[..k] + [bufs[k]];
    FlattenSnoc(bufs[..k], bufs[k]);
    assert bufs[..|bufs|] == bufs;
    assert bufs == bufs[..k + 1] + bufs[k + 1..];
    TotalLengthAppend(bufs[..k + 1], bufs[k + 1..]);
  }

  /** `Uint8Array.prototype.set(src, index)`: copies src into out starting at
      index and leaves the other bytes alone. */
  method Set(out: array<byte>, src: seq<byte>, index: nat)
    requires index + |src| <= out.Length
    modifies out
    ensures out[..] == old(out[..index]) + src + old(out[index + |src|..])
  {
    for j := 0 to |src|
      invariant out[..] == old(out[..index]) + src[..j] + old(out[index + j..])
    {
      assert src[..j + 1] == src[..j] + [src[j]];
      out[index + j] := src[j];
    }
    assert src[..|src|] == src;
  }

  /** `concat(a_buffers)`: a fresh buffer whose length is the sum of the
      input lengths and whose bytes are the inputs, one after another. */
  method Concat(bufs: seq<seq<byte>>) returns (out: array<byte>)
    ensures fresh(out)
    ensures out.Length == TotalLength(bufs)
    ensures out[..] == Flatten(bufs)
  {
    var size := 0;
    for k := 0 to |bufs|
      invariant size == TotalLength(bufs[..k])
    {
      assert bufs[..k + 1] == bufs[..k] + [bufs[k]];
      FlattenSnoc(bufs[..k], bufs[k]);
      size := size + |bufs[k]|;
    }
    assert bufs[..|bufs|] == bufs;

    out := new byte[size](_ => 0);

    var index := 0;
    for k := 0 to |bufs|
      invariant index == Offset(bufs, k) <= size
      invariant out[..index] == Flatten(bufs[..k])
    {
      OffsetsTile(bufs, k);
      assert bufs[..k + 1] == bufs[..k] + [bufs[k]];
      FlattenSnoc(bufs[..k], bufs[k]);
      Set(out, bufs[k], index);
      assert out[..index + |bufs[k]|] == out[..index] + bufs[k];
      index := index + |bufs[k]|;
    }
    // the copy loop ends exactly at the end of the output
    assert index == size;
    assert out[..] == out[..index];
  }
}
