/** Linear memory as the host sees it: a byte view and a little-endian 32-bit
    word view over one buffer, and the typed-array operations the core uses
    on them (`set`, `fill`, `subarray`, `copyWithin`, word loads and stores). */
module Memory {
  import opened Host

  function Min(a: int, b: int): int { if a <= b then a else b }
  function Max(a: int, b: int): int { if a <= b then b else a }

  /** A byte range [at, at + len) of linear memory. */
  datatype Region = Region(at: nat, len: nat) {
    function End(): nat { at + len }
    predicate Contains(i: int) { at <= i < at + len }
    predicate Within(size: nat) { at + len <= size }
    predicate Disjoint(other: Region) { End() <= other.at || other.End() <= at }
  }

  /** The bytes of a region. */
  function Read(mem: seq<byte>, r: Region): (s: seq<byte>)
    requires r.Within(|mem|)
    ensures |s| == r.len
    ensures forall i :: 0 <= i < r.len ==> s[i] == mem[r.at + i]
  {
    mem[r.at..r.at + r.len]
  }

  /** `view.set(src, at)`: the bytes at..at+|src| become src, nothing else changes. */
  function Splice(mem: seq<byte>, at: nat, src: seq<byte>): (r: seq<byte>)
    requires at + |src| <= |mem|
    ensures |r| == |mem|
    ensures forall i :: 0 <= i < |src| ==> r[at + i] == src[i]
    ensures forall i :: 0 <= i < |mem| && !(at <= i < at + |src|) ==> r[i] == mem[i]
  {
    mem[..at] + src + mem[at + |src|..]
  }

  /** `view.fill(v, r.at, r.End())` for an in-bounds region. */
  function Fill(mem: seq<byte>, r: Region, v: byte): (m: seq<byte>)
    requires r.Within(|mem|)
    ensures |m| == |mem|
    ensures forall i :: 0 <= i < |mem| ==> m[i] == if r.Contains(i) then v else mem[i]
  {
    mem[..r.at] + seq(r.len, _ => v) + mem[r.End()..]
  }

  /** Every byte of region r holds v. */
  ghost predicate Filled(mem: seq<byte>, r: Region, v: byte)
    requires r.Within(|mem|)
  {
    forall i :: r.at <= i < r.End() ==> mem[i] == v
  }

  /** Two memories agree on every byte of region r. */
  ghost predicate SameOn(a: seq<byte>, b: seq<byte>, r: Region)
    requires r.Within(|a|) && |a| == |b|
  {
    forall i :: r.at <= i < r.End() ==> a[i] == b[i]
  }

  /** `view.subarray(begin, end)`: both ends are clamped to the view's length. */
  function Subarray(mem: seq<byte>, begin: nat, end: nat): (s: seq<byte>)
    ensures begin <= end <= |mem| ==> s == mem[begin..end]
    ensures |s| <= end - begin || |s| == 0
  {
    var lo := Min(begin, |mem|);
    var hi := Max(lo, Min(end, |mem|));
    mem[lo..hi]
  }

  /** How many bytes `copyWithin(target, start, end)` moves, with every
      argument a non-negative offset clamped to the length (ECMA-262,
      %TypedArray%.prototype.copyWithin). */
  function CopyCount(size: nat, target: nat, start: nat, end: nat): nat
  {
    var to := Min(target, size);
    var from := Min(start, size);
    var fin := Min(end, size);
    if fin <= from then 0 else Min(fin - from, size - to)
  }

  /** The memory after `copyWithin(target, start, end)`: the bytes are moved
      as though through a temporary buffer, so overlap is harmless. */
  function CopyWithin(mem: seq<byte>, target: nat, start: nat, end: nat): (r: seq<byte>)
    ensures |r| == |mem|
  {
    var to := Min(target, |mem|);
    var from := Min(start, |mem|);
    var count := CopyCount(|mem|, target, start, end);
    seq(|mem|, i requires 0 <= i < |mem| =>
      if to <= i < to + count then mem[from + (i - to)] else mem[i])
  }

  /** `memcpy(dst, src, n)` inside the memory moves exactly n bytes: afterwards
      dst..dst+n holds what src..src+n held before, even when the two ranges
      overlap, and every other byte is as it was. */
  lemma CopyWithinMoves(mem: seq<byte>, dst: nat, src: nat, n: nat)
    requires dst + n <= |mem| && src + n <= |mem|
    ensures CopyCount(|mem|, dst, src, src + n) == n
    ensures var m := CopyWithin(mem, dst, src, src + n);
      forall i :: 0 <= i < |mem| ==> m[i] == if dst <= i < dst + n then mem[src + (i - dst)] else mem[i]
  {
  }

  // ---------------------------------------------------------------- words

  /** Number of elements of a Uint32Array over the buffer. */
  function WordCount(mem: seq<byte>): nat { |mem| / 4 }

  /** Element k of the word view: bytes 4k..4k+3, least significant first. */
  function Word(mem: seq<byte>, k: nat): (w: u32)
    requires k < WordCount(mem)
  {
    mem[4 * k] as int + 0x100 * (mem[4 * k + 1] as int + 0x100 * (mem[4 * k + 2] as int + 0x100 * mem[4 * k + 3] as int))
  }

  /** The four little-endian bytes of a word. */
  function LeBytes(v: u32): (s: seq<byte>)
    ensures |s| == 4
  {
    var q1 := v / 0x100;
    var q2 := q1 / 0x100;
    var q3 := q2 / 0x100;
    [v % 0x100, q1 % 0x100, q2 % 0x100, q3]
  }

  /** Storing v into element k of the word view. */
  function StoreWord(mem: seq<byte>, k: nat, v: u32): (m: seq<byte>)
    requires k < WordCount(mem)
    ensures |m| == |mem|
  {
    Splice(mem, 4 * k, LeBytes(v))
  }

  /** The word view reads back what was stored, every other word keeps its
      value, and no byte outside 4k..4k+3 changes. */
  lemma StoreThenLoad(mem: seq<byte>, k: nat, v: u32)
    requires k < WordCount(mem)
    ensures Word(StoreWord(mem, k, v), k) == v
    ensures forall j :: 0 <= j < WordCount(mem) && j != k ==> Word(StoreWord(mem, k, v), j) == Word(mem, j)
    ensures forall i :: 0 <= i < |mem| && !(4 * k <= i < 4 * k + 4) ==> StoreWord(mem, k, v)[i] == mem[i]
  {
    var m := StoreWord(mem, k, v);
    var q1 := v / 0x100;
    var q2 := q1 / 0x100;
    var q3 := q2 / 0x100;
    assert m[4 * k] == v % 0x100 && m[4 * k + 1] == q1 % 0x100;
    assert m[4 * k + 2] == q2 % 0x100 && m[4 * k + 3] == q3;
    assert q2 == q2 % 0x100 + 0x100 * q3;
    assert q1 == q1 % 0x100 + 0x100 * q2;
    assert v == v % 0x100 + 0x100 * q1;
  }
}
