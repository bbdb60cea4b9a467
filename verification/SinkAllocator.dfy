/** The alignment arithmetic of the GStreamer sink's allocator
    (gst/gstshmdatasink.c, gst_shmdata_sink_allocator_alloc). */
module SinkAllocator {
  import opened Wrappers

  function Pow2(k: nat): (p: nat)
    ensures p > 0
  {
    if k == 0 then 1 else 2 * Pow2(k - 1)
  }

  /** A mask of k low bits. */
  function Mask(k: nat): nat {
    Pow2(k) - 1
  }

  // ---------------------------------------------------------------- the C operators | and &

  function BitOr(x: nat, y: nat): nat {
    if x == 0 then y else if y == 0 then x
    else 2 * BitOr(x / 2, y / 2) + (if x % 2 == 1 || y % 2 == 1 then 1 else 0)
  }

  function BitAnd(x: nat, y: nat): nat {
    if x == 0 || y == 0 then 0
    else 2 * BitAnd(x / 2, y / 2) + (if x % 2 == 1 && y % 2 == 1 then 1 else 0)
  }

  lemma MaskHalf(k: nat)
    requires k > 0
    ensures Mask(k) % 2 == 1 && Mask(k) / 2 == Mask(k - 1)
  {
    assert Mask(k) == 2 * Mask(k - 1) + 1;
  }

  /** The union of two alignment masks is the larger one. */
  lemma {:induction false} OrOfMasks(a: nat, b: nat)
    ensures BitOr(Mask(a), Mask(b)) == Mask(if a < b then b else a)
    decreases a + b
  {
    if a > 0 && b > 0 {
      MaskHalf(a);
      MaskHalf(b);
      OrOfMasks(a - 1, b - 1);
      var m := if a < b then b else a;
      assert Mask(m) == 2 * Mask(m - 1) + 1;
    }
  }

  lemma ModByDouble(x: nat, p: nat)
    requires p > 0
    ensures x % (2 * p) == 2 * ((x / 2) % p) + x % 2
  {
    var q := (x / 2) / p;
    var r := (x / 2) % p;
    assert x / 2 == q * p + r;
    assert x == (2 * p) * q + (2 * r + x % 2);
    ModUnique(x, 2 * p, q, 2 * r + x % 2);
  }

  lemma ModUnique(x: nat, p: nat, q: nat, r: nat)
    requires r < p && x == p * q + r
    ensures x % p == r
  {
    var d := x / p - q;
    assert x == p * (x / p) + x % p;
    assert p * d == r - x % p by {
      assert p * (x / p - q) == p * (x / p) - p * q;
    }
    MulGrows(p, d);
  }

  lemma MulGrows(p: int, d: int)
    requires p > 0
    ensures d >= 1 ==> p * d >= p
    ensures d <= -1 ==> p * d <= -p
  {
  }

  /** Masking an address takes it modulo the alignment. */
  lemma {:induction false} AndWithMask(x: nat, k: nat)
    ensures BitAnd(x, Mask(k)) == x % Pow2(k)
    decreases k
  {
    if k > 0 {
      MaskHalf(k);
      AndWithMask(x / 2, k - 1);
      ModByDouble(x, Pow2(k - 1));
    }
  }

  // ---------------------------------------------------------------- the allocation

  /** The memory object that is initialised: start address, sizes and alignment mask. */
  datatype Block = Block(address: nat, maxsize: nat, align: nat, prefix: nat, size: nat, padding: nat)

  function EndOf(block: Block): nat {
    block.address + block.maxsize
  }

  function PayloadEnd(block: Block): nat {
    block.address + block.prefix + block.size
  }

  predicate Aligned(x: nat, p: nat)
    requires p > 0
  {
    x % p == 0
  }

  lemma NextMultiple(data: nat, p: nat)
    requires p > 0 && !Aligned(data, p)
    ensures Aligned(data + (p - data % p), p)
    ensures forall x: nat :: data <= x < data + (p - data % p) ==> !Aligned(x, p)
  {
    var q, r := data / p, data % p;
    assert data == p * q + r;
    assert data + (p - r) == p * (q + 1) + 0;
    ModUnique(data + (p - r), p, q + 1, 0);
    forall x: nat | data <= x < data + (p - r) ensures !Aligned(x, p) {
      ModUnique(x, p, q, x - p * q);
    }
  }

  /** `data` is the address of the shared segment, 0 when there is none, in which case
      the caller falls back on the standard allocator.  The block starts at the first
      address aligned on both alignments, its recorded size still covers prefix, size
      and padding, and it ends where the enlarged request ends.  The segment has
      `newSinkSize` bytes: the block stays inside it exactly when the enlarged request
      fits, the payload exactly when adjustment, prefix and size do; a segment that was
      just resized has room for neither prefix, padding nor adjustment. */
  method Alloc(sinkSize: nat, size: nat, prefix: nat, padding: nat, a: nat, b: nat, data: nat)
    returns (newSinkSize: nat, r: Option<Block>)
    ensures newSinkSize == if sinkSize < size then size else sinkSize
    ensures r.None? <==> data == 0
    ensures r.Some? ==>
              var p := Pow2(if a < b then b else a);
              var block := r.value;
              && block.align == p - 1 && block.prefix == prefix && block.size == size
              && data <= block.address && Aligned(block.address, p)
              && (forall x: nat :: data <= x < block.address ==> !Aligned(x, p))
              && block.maxsize >= prefix + size + padding
              && block.address + block.maxsize == data + prefix + size + padding + (p - 1)
              && block.padding == block.maxsize - (prefix + size) && block.padding >= padding
              && (EndOf(block) <= data + newSinkSize <==> prefix + size + padding + (p - 1) <= newSinkSize)
              && (sinkSize <= size ==>
                    && (EndOf(block) <= data + newSinkSize <==> prefix == 0 && padding == 0 && p == 1)
                    && (PayloadEnd(block) <= data + newSinkSize <==> prefix == 0 && Aligned(data, p)))
  {
    var maxsize := size + prefix + padding;
    var align := BitOr(Mask(a), Mask(b));
    maxsize := maxsize + align;
    newSinkSize := sinkSize;
    if newSinkSize < size {
      newSinkSize := size;
    }
    if data == 0 {
      return newSinkSize, None;
    }
    var k := if a < b then b else a;
    OrOfMasks(a, b);
    AndWithMask(data, k);
    var address := data;
    var aoffset := BitAnd(address, align);
    if aoffset != 0 {
      NextMultiple(data, Pow2(k));
      aoffset := (align + 1) - aoffset;
      address := address + aoffset;
      maxsize := maxsize - aoffset;
    }
    var rest := maxsize - (prefix + size);
    r := Some(Block(address, maxsize, align, prefix, size, rest));
  }
}
