/** The copy and fill kernels of tinymembench's util.c: whatever order they work in, blocks of 64 bytes end
    up the same. */
module BlockCopy {

  // Words lo to hi of dst are those of src; the others are as before.
  ghost predicate Copied(now: seq<int>, before: seq<int>, src: seq<int>, lo: int, hi: int) {
    && |now| == |before| && 0 <= lo && hi <= |src|
    && forall k :: 0 <= k < |now| ==> now[k] == if lo <= k < hi && k < |src| then src[k] else before[k]
  }

  // They are all one value.
  ghost predicate FilledWith(now: seq<int>, before: seq<int>, data: int, hi: int) {
    && |now| == |before|
    && forall k :: 0 <= k < |now| ==> now[k] == if k < hi then data else before[k]
  }

  // The words in the whole blocks of 64 bytes there are.
  function Words(size: int): nat {
    if size < 0 then 0 else size / 64 * 8
  }

  // The words up to which the backward kernels go down.
  function Top(size: int): int {
    if size < 0 then 0 else size / 8
  }

  /** Both directions copy everything if and only if the size is a number of blocks; otherwise the forward
      kernels leave out the last words, and the backward ones the first. */
  lemma WholeIff(size: int)
    requires size >= 0 && size % 8 == 0
    ensures Words(size) * 8 == size <==> size % 64 == 0
    ensures Top(size) == Words(size) <==> size % 64 == 0
  {
  }

  // What the caller has to provide.
  predicate Buffers(dst: array<int>, src: array<int>, size: int) {
    dst != src && Top(size) <= dst.Length && Top(size) <= src.Length
  }

  // Half a block, from word i up.
  method FourUp(dst: array<int>, src: array<int>, i: nat)
    requires dst != src && i + 3 < dst.Length && i + 3 < src.Length
    modifies dst
    ensures forall k :: 0 <= k < dst.Length ==> dst[k] == if i <= k < i + 4 then src[k] else old(dst[k])
  {
    var t1, t2, t3, t4 := src[i], src[i + 1], src[i + 2], src[i + 3];
    dst[i], dst[i + 1], dst[i + 2], dst[i + 3] := t1, t2, t3, t4;
  }

  /** aligned_block_copy; the variants that prefetch store the same words in the same order. */
  method Copy(dst: array<int>, src: array<int>, size: int)
    requires Buffers(dst, src, size)
    modifies dst
    ensures Copied(dst[..], old(dst[..]), src[..], 0, Words(size))
  {
    var n, i := size - 64, 0;
    while n >= 0
      invariant i % 8 == 0 && 0 <= i <= Words(size) && n == size - 64 - 8 * i
      invariant Copied(dst[..], old(dst[..]), src[..], 0, i)
    {
      FourUp(dst, src, i);
      FourUp(dst, src, i + 4);
      i, n := i + 8, n - 64;
    }
  }

  // Half a block, from word i down.
  method FourDown(dst: array<int>, src: array<int>, i: nat)
    requires dst != src && 3 <= i < dst.Length && i < src.Length
    modifies dst
    ensures forall k :: 0 <= k < dst.Length ==> dst[k] == if i - 4 < k <= i then src[k] else old(dst[k])
  {
    var t1, t2, t3, t4 := src[i], src[i - 1], src[i - 2], src[i - 3];
    dst[i], dst[i - 1], dst[i - 2], dst[i - 3] := t1, t2, t3, t4;
  }

  /** aligned_block_copy_backwards: word by word from the end. */
  method CopyBackwards(dst: array<int>, src: array<int>, size: int)
    requires Buffers(dst, src, size)
    modifies dst
    ensures Copied(dst[..], old(dst[..]), src[..], Top(size) - Words(size), Top(size))
  {
    var n, i := size - 64, Top(size) - 1;
    while n >= 0
      invariant n == size - 64 - 8 * (Top(size) - 1 - i) && Top(size) - Words(size) - 1 <= i < Top(size)
      invariant (Top(size) - 1 - i) % 8 == 0
      invariant Copied(dst[..], old(dst[..]), src[..], i + 1, Top(size))
    {
      FourDown(dst, src, i);
      FourDown(dst, src, i - 4);
      i, n := i - 8, n - 64;
    }
  }

  /** aligned_block_copy_backwards_bs32: backwards, but forwards within 32 bytes. */
  method CopyBackwardsBs32(dst: array<int>, src: array<int>, size: int)
    requires Buffers(dst, src, size)
    modifies dst
    ensures Copied(dst[..], old(dst[..]), src[..], Top(size) - Words(size), Top(size))
  {
    var n, i := size - 64, Top(size) - 8;
    while n >= 0
      invariant n == size - 64 - 8 * (Top(size) - 8 - i) && Top(size) - Words(size) - 8 <= i <= Top(size) - 8
      invariant (Top(size) - 8 - i) % 8 == 0
      invariant Copied(dst[..], old(dst[..]), src[..], i + 8, Top(size))
    {
      FourUp(dst, src, i + 4);
      FourUp(dst, src, i);
      i, n := i - 8, n - 64;
    }
  }

  /** aligned_block_copy_backwards_bs64: backwards, but forwards within 64 bytes. */
  method CopyBackwardsBs64(dst: array<int>, src: array<int>, size: int)
    requires Buffers(dst, src, size)
    modifies dst
    ensures Copied(dst[..], old(dst[..]), src[..], Top(size) - Words(size), Top(size))
  {
    var n, i := size - 64, Top(size) - 8;
    while n >= 0
      invariant n == size - 64 - 8 * (Top(size) - 8 - i) && Top(size) - Words(size) - 8 <= i <= Top(size) - 8
      invariant (Top(size) - 8 - i) % 8 == 0
      invariant Copied(dst[..], old(dst[..]), src[..], i + 8, Top(size))
    {
      FourUp(dst, src, i);
      FourUp(dst, src, i + 4);
      i, n := i - 8, n - 64;
    }
  }

  /** aligned_block_fill. */
  method Fill(dst: array<int>, data: int, size: int)
    requires Top(size) <= dst.Length
    modifies dst
    ensures FilledWith(dst[..], old(dst[..]), data, Words(size))
  {
    var n, i := size - 64, 0;
    while n >= 0
      invariant i % 8 == 0 && 0 <= i <= Words(size) && n == size - 64 - 8 * i
      invariant FilledWith(dst[..], old(dst[..]), data, i)
    {
      dst[i] := data;
      dst[i + 1] := data;
      dst[i + 2] := data;
      dst[i + 3] := data;
      dst[i + 4] := data;
      dst[i + 5] := data;
      dst[i + 6] := data;
      dst[i + 7] := data;
      i, n := i + 8, n - 64;
    }
  }

  /** aligned_block_fill_shuffle16. */
  method FillShuffle16(dst: array<int>, data: int, size: int)
    requires Top(size) <= dst.Length
    modifies dst
    ensures FilledWith(dst[..], old(dst[..]), data, Words(size))
  {
    var n, i := size - 64, 0;
    while n >= 0
      invariant i % 8 == 0 && 0 <= i <= Words(size) && n == size - 64 - 8 * i
      invariant FilledWith(dst[..], old(dst[..]), data, i)
    {
      dst[i] := data;
      dst[i + 1] := data;
      dst[i + 3] := data;
      dst[i + 2] := data;
      dst[i + 5] := data;
      dst[i + 4] := data;
      dst[i + 6] := data;
      dst[i + 7] := data;
      i, n := i + 8, n - 64;
    }
  }

  /** aligned_block_fill_shuffle32. */
  method FillShuffle32(dst: array<int>, data: int, size: int)
    requires Top(size) <= dst.Length
    modifies dst
    ensures FilledWith(dst[..], old(dst[..]), data, Words(size))
  {
    var n, i := size - 64, 0;
    while n >= 0
      invariant i % 8 == 0 && 0 <= i <= Words(size) && n == size - 64 - 8 * i
      invariant FilledWith(dst[..], old(dst[..]), data, i)
    {
      dst[i + 3] := data;
      dst[i] := data;
      dst[i + 2] := data;
      dst[i + 1] := data;
      dst[i + 7] := data;
      dst[i + 4] := data;
      dst[i + 6] := data;
      dst[i + 5] := data;
      i, n := i + 8, n - 64;
    }
  }

  /** aligned_block_fill_shuffle64. */
  method FillShuffle64(dst: array<int>, data: int, size: int)
    requires Top(size) <= dst.Length
    modifies dst
    ensures FilledWith(dst[..], old(dst[..]), data, Words(size))
  {
    var n, i := size - 64, 0;
    while n >= 0
      invariant i % 8 == 0 && 0 <= i <= Words(size) && n == size - 64 - 8 * i
      invariant FilledWith(dst[..], old(dst[..]), data, i)
    {
      dst[i + 5] := data;
      dst[i + 2] := data;
      dst[i + 7] := data;
      dst[i + 6] := data;
      dst[i + 1] := data;
      dst[i + 3] := data;
      dst[i] := data;
      dst[i + 4] := data;
      i, n := i + 8, n - 64;
    }
  }
}
