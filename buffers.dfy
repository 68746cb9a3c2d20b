/** Lists of byte buffers and their in-order flattening, shared by the
    shim's iovec gathering and the buffer concatenation of src/gzipped.ts. */
module Buffers {
  import opened Host

  /** The buffers' bytes, one buffer after another. */
  function Flatten(bufs: seq<seq<byte>>): seq<byte>
  {
    if bufs == [] then [] else bufs[0] + Flatten(bufs[1..])
  }

  /** The sum of the buffers' lengths (their `byteLength`s). */
  function TotalLength(bufs: seq<seq<byte>>): nat
  {
    if bufs == [] then 0 else |bufs[0]| + TotalLength(bufs[1..])
  }

  /** The sum of the first k lengths: where buffer k starts in the flattening. */
  function Offset(bufs: seq<seq<byte>>, k: nat): nat
    requires k <= |bufs|
  {
    TotalLength(bufs[..k])
  }

  /** Appending one buffer appends its bytes and adds its length. */
  lemma {:induction false} FlattenSnoc(bufs: seq<seq<byte>>, b: seq<byte>)
    ensures Flatten(bufs + [b]) == Flatten(bufs) + b
    ensures TotalLength(bufs + [b]) == TotalLength(bufs) + |b|
  {
    if bufs == [] {
      assert [] + [b] == [b];
    } else {
      assert (bufs + [b])[1..] == bufs[1..] + [b];
      FlattenSnoc(bufs[1..], b);
    }
  }

  /** The flattening is exactly as long as the buffers together. */
  lemma {:induction false} FlattenLength(bufs: seq<seq<byte>>)
    ensures |Flatten(bufs)| == TotalLength(bufs)
  {
    if bufs != [] {
      FlattenLength(bufs[1..]);
    }
  }

  /** Byte j of buffer k lands at the offset of buffer k plus j. */
  lemma {:induction false} FlattenAt(bufs: seq<seq<byte>>, k: nat, j: nat)
    requires k < |bufs| && j < |bufs[k]|
    ensures Offset(bufs, k) + j < |Flatten(bufs)|
    ensures Flatten(bufs)[Offset(bufs, k) + j] == bufs[k][j]
  {
    FlattenLength(bufs);
    if k == 0 {
      assert bufs[..0] == [];
    } else {
      assert bufs[..k] == [bufs[0]] + bufs[1..][..k - 1];
      assert bufs[1..][k - 1] == bufs[k];
      OffsetCons(bufs, k);
      FlattenAt(bufs[1..], k - 1, j);
    }
  }

  lemma OffsetCons(bufs: seq<seq<byte>>, k: nat)
    requires 0 < k <= |bufs|
    ensures Offset(bufs, k) == |bufs[0]| + Offset(bufs[1..], k - 1)
  {
    assert bufs[..k][1..] == bufs[1..][..k - 1];
  }

  /** No buffers flatten to nothing; one buffer flattens to itself. */
  lemma FlattenSmall(b: seq<byte>)
    ensures Flatten([]) == [] && TotalLength([]) == 0
    ensures Flatten([b]) == b && TotalLength([b]) == |b|
  {
    assert [b][1..] == [];
  }
}
