/** alloc_four_nonaliased_buffers of tinymembench's util.c: four buffers in one block of memory whose
    addresses do not alias in a cache. */
module Alloc {
  import opened Arith

  const ALIGN_PADDING: nat := 0x100000
  const CACHE_LINE_SIZE: nat := 128

  // The pattern of bits that keeps buffer number k away from the others.
  function Pattern(k: nat): nat {
    if k == 0 then 0xAAAAAAAA else if k == 1 then 0x55555555 else if k == 2 then 0xCCCCCCCC else 0x33333333
  }

  // Of the pattern, the bits below ALIGN_PADDING that are not within a cache line.
  function Skew(k: nat): nat {
    Pattern(k) % ALIGN_PADDING / CACHE_LINE_SIZE * CACHE_LINE_SIZE
  }

  // The patterns are different where it counts.
  lemma Skews()
    ensures Skew(0) == 0xAAA80 && Skew(1) == 0x55500 && Skew(2) == 0xCCC80 && Skew(3) == 0x33300
  {
  }

  /** align_up, for a power of two: the first multiple of align from ptr on. */
  function AlignUp(ptr: nat, align: nat): (r: nat)
    requires align > 0
    ensures ptr <= r < ptr + align && r % align == 0
  {
    DivUnique((ptr + align - 1) / align * align, align, (ptr + align - 1) / align, 0);
    (ptr + align - 1) / align * align
  }

  // A buffer that is asked for, or not (a null pointer); a negative size counts as none.
  datatype Request = Request(wanted: bool, size: int)
  {
    function Size(): nat {
      if !wanted || size < 0 then 0 else size
    }
  }

  function Total(rs: seq<Request>): nat {
    if rs == [] then 0 else rs[0].Size() + Total(rs[1..])
  }

  // Buffer k is in the block that begins at base.
  predicate Inside(rs: seq<Request>, bufs: seq<nat>, base: nat, k: nat)
    requires |rs| == |bufs| == 4 && k < 4
  {
    base <= bufs[k] && bufs[k] + rs[k].Size() <= base + Total(rs) + 9 * ALIGN_PADDING
  }

  // Buffer j ends before buffer k begins.
  predicate Before(rs: seq<Request>, bufs: seq<nat>, j: nat, k: nat)
    requires |rs| == |bufs| == 4 && j < 4 && k < 4
  {
    bufs[j] + rs[j].Size() <= bufs[k]
  }

  lemma TotalOfFour(rs: seq<Request>)
    requires |rs| == 4
    ensures Total(rs) == rs[0].Size() + rs[1].Size() + rs[2].Size() + rs[3].Size()
  {
    var r1 := rs[1..];
    var r2 := r1[1..];
    var r3 := r2[1..];
    assert Total(r3) == rs[3].Size() + Total(r3[1..]) && r3[1..] == [];
  }

  lemma Skewed(ptr: nat, k: nat)
    requires ptr % ALIGN_PADDING == 0 && k < 4
    ensures Skew(k) < ALIGN_PADDING
    ensures (ptr + Skew(k)) % ALIGN_PADDING == Skew(k) && (ptr + Skew(k)) % CACHE_LINE_SIZE == 0
  {
    Skews();
    var s := if k == 0 then 0xAAA80 else if k == 1 then 0x55500 else if k == 2 then 0xCCC80 else 0x33300;
    assert Skew(k) == s;
    Offset(ptr, s);
  }

  lemma Offset(ptr: nat, s: nat)
    requires ptr % ALIGN_PADDING == 0 && s < ALIGN_PADDING && s % CACHE_LINE_SIZE == 0
    ensures (ptr + s) % ALIGN_PADDING == s && (ptr + s) % CACHE_LINE_SIZE == 0
  {
  }

  // One buffer: where it is, and where the next one can begin.
  method Place(ptr: nat, r: Request, k: nat) returns (buf: nat, next: nat)
    requires ptr % ALIGN_PADDING == 0 && k < 4
    ensures r.wanted ==> ptr <= buf < ptr + ALIGN_PADDING && buf + r.Size() <= next < buf + r.Size() + ALIGN_PADDING
    ensures r.wanted ==> buf % ALIGN_PADDING == Skew(k) && buf % CACHE_LINE_SIZE == 0
    ensures !r.wanted ==> next == ptr
    ensures next % ALIGN_PADDING == 0
  {
    buf, next := 0, ptr;
    if r.wanted {
      Skewed(ptr, k);
      buf := ptr + Skew(k);
      next := AlignUp(buf + r.Size(), ALIGN_PADDING);
    }
  }

  /** The buffers that are asked for are inside the block, one after the other, and no two addresses are
      the same modulo ALIGN_PADDING; they begin with a cache line. */
  method FourNonaliased(base: nat, rs: seq<Request>) returns (bufs: seq<nat>)
    requires |rs| == 4
    ensures |bufs| == 4
    ensures forall k :: 0 <= k < 4 && rs[k].wanted ==>
              Inside(rs, bufs, base, k) && bufs[k] % ALIGN_PADDING == Skew(k) && bufs[k] % CACHE_LINE_SIZE == 0
    ensures forall j, k :: 0 <= j < k < 4 && rs[j].wanted && rs[k].wanted ==>
              Before(rs, bufs, j, k) && bufs[j] % ALIGN_PADDING != bufs[k] % ALIGN_PADDING
  {
    Skews();
    TotalOfFour(rs);
    var ptr0 := AlignUp(base, ALIGN_PADDING);
    var b0, ptr1 := Place(ptr0, rs[0], 0);
    var b1, ptr2 := Place(ptr1, rs[1], 1);
    var b2, ptr3 := Place(ptr2, rs[2], 2);
    var b3, ptr4 := Place(ptr3, rs[3], 3);
    bufs := [b0, b1, b2, b3];
  }
}
