/** The extensible zone allocator (`src/EXTZones.cpp`). */
module Zones {

  const ALIGN: nat := 32
  const PAD: nat := 31

  type Byte = x: int | 0 <= x < 256

  /** `(size + LLVM_ZONE_ALIGNPAD) & ~LLVM_ZONE_ALIGNPAD`. */
  function RoundUp(n: nat): (r: nat)
    ensures n <= r < n + ALIGN && r % ALIGN == 0
  {
    (n + PAD) / ALIGN * ALIGN
  }

  /** The size of a zone after it has grown for a request of `n` bytes, header included. */
  function Grown(size: nat, n: nat): (r: nat)
    ensures r >= 1024 && r >= 2 * n && r >= 2 * size
  {
    var wanted := 2 * if n > size then n else size;
    if wanted < 1024 then 1024 else wanted
  }

  /** Twice the larger of the two, and 1024 at least. */
  predicate Doubled(size: nat, n: nat, r: nat) {
    && r >= 1024 && r >= 2 * size && r >= 2 * n
    && (r == 1024 || r == 2 * size || r == 2 * n)
  }

  lemma GrownIsDoubled(size: nat, n: nat)
    ensures Doubled(size, n, Grown(size, n))
  {
  }

  lemma GrownIsAligned(size: nat, n: nat)
    requires size % ALIGN == 0 && n % 16 == 0
    ensures Grown(size, n) % ALIGN == 0
  {
  }

  // ---------------------------------------------------------------------------
  // When a block fits
  // ---------------------------------------------------------------------------

  /** The test that decides whether there is room. */
  predicate NeedsGrowth(offset: nat, n: nat, size: nat) {
    offset + n >= size
  }

  /** A request that passes the test fits after rounding, for any request whatever, exactly if the
      size of the segment is a multiple of the alignment or one more. */
  lemma FitsIff(size: nat)
    requires size > ALIGN + 1
    ensures (forall offset: nat, n: nat | n >= ALIGN && offset % ALIGN == 0 && !NeedsGrowth(offset, n, size) ::
               offset + RoundUp(n) <= size)
       <==> size % ALIGN <= 1
  {
    if size % ALIGN <= 1 {
      forall offset: nat, n: nat | n >= ALIGN && offset % ALIGN == 0 && !NeedsGrowth(offset, n, size)
        ensures offset + RoundUp(n) <= size
      {
        NextMultiple(offset + RoundUp(n), offset + n, size);
      }
    } else {
      TooLarge(size);
      assert !NeedsGrowth(0, size - 1, size) && 0 + RoundUp(size - 1) > size;
    }
  }

  lemma NextMultiple(m: nat, k: nat, size: nat)
    requires m % ALIGN == 0 && k <= m < k + ALIGN && k < size && size % ALIGN <= 1
    ensures m <= size
  {
  }

  lemma TooLarge(size: nat)
    requires size % ALIGN > 1
    ensures RoundUp(size - 1) > size
  {
  }

  // ---------------------------------------------------------------------------
  // The size in front of a block
  // ---------------------------------------------------------------------------

  /** The eight bytes of a size, lowest first. */
  function SizeBytes(n: nat, k: nat): (r: seq<Byte>)
    ensures |r| == k
    decreases k
  {
    if k == 0 then [] else [n % 256] + SizeBytes(n / 256, k - 1)
  }

  function SizeOf(bytes: seq<Byte>): nat {
    if bytes == [] then 0 else bytes[0] + 256 * SizeOf(bytes[1..])
  }

  function Power256(k: nat): nat {
    if k == 0 then 1 else 256 * Power256(k - 1)
  }

  lemma {:induction false} SizeReadsBack(n: nat, k: nat)
    requires n < Power256(k)
    ensures SizeOf(SizeBytes(n, k)) == n
    decreases k
  {
    if k > 0 {
      SizeReadsBack(n / 256, k - 1);
    }
  }

  /** Byte `i` counts the multiples of the power `i` of 256. */
  lemma EightBytes(b: seq<Byte>)
    requires |b| == 8
    ensures SizeOf(b) == b[0] as int + b[1] as int * 0x100 + b[2] as int * 0x1_0000 + b[3] as int * 0x100_0000
                       + b[4] as int * 0x1_0000_0000 + b[5] as int * 0x100_0000_0000
                       + b[6] as int * 0x1_0000_0000_0000 + b[7] as int * 0x100_0000_0000_0000
  {
    assert SizeOf(b[8..]) == 0;
    SizeFrom(b, 7);
    SizeFrom(b, 6);
    SizeFrom(b, 5);
    SizeFrom(b, 4);
    SizeFrom(b, 3);
    SizeFrom(b, 2);
    SizeFrom(b, 1);
    SizeFrom(b, 0);
    assert b[0..] == b;
  }

  lemma SizeFrom(b: seq<Byte>, i: nat)
    requires i < |b|
    ensures SizeOf(b[i..]) == b[i] + 256 * SizeOf(b[i + 1..])
  {
    assert b[i..][1..] == b[i + 1..];
  }

  // ---------------------------------------------------------------------------
  // Zones
  // ---------------------------------------------------------------------------

  /** Memory from the system, at an address. */
  datatype Segment = Segment(base: nat, bytes: array<Byte>)

  /** A block begins with its header at `at`; the program's pointer is past the header. */
  datatype Block = Block(seg: Segment, at: nat, len: nat)

  function Pointer(b: Block): nat {
    b.seg.base + b.at + ALIGN
  }

  predicate Apart(s: Segment, t: Segment) {
    s.base + s.bytes.Length <= t.base || t.base + t.bytes.Length <= s.base
  }

  /** Two blocks have no byte in common. */
  predicate Disjoint(a: Block, b: Block) {
    a.seg != b.seg || a.at + a.len <= b.at || b.at + b.len <= a.at
  }

  predicate Contains(s: Segment, ptr: nat) {
    s.base <= ptr < s.base + s.bytes.Length
  }

  ghost predicate SegmentsOk(segs: seq<Segment>) {
    && (forall i | 0 <= i < |segs| :: segs[i].base % ALIGN == 0)
    && (forall i, j | 0 <= i < j < |segs| :: segs[i].bytes != segs[j].bytes && Apart(segs[i], segs[j]))
  }

  /** A block lies in a segment; in the current one, which is the first, below `offset`. */
  ghost predicate BlockOk(segs: seq<Segment>, offset: nat, b: Block)
    requires segs != []
  {
    && b.seg in segs && b.at % ALIGN == 0 && b.len >= ALIGN
    && b.at + b.len <= b.seg.bytes.Length && b.at + ALIGN < b.seg.bytes.Length
    && (b.seg == segs[0] ==> b.at + b.len <= offset)
  }

  ghost predicate BlocksOk(segs: seq<Segment>, offset: nat, blocks: seq<Block>)
    requires segs != []
  {
    && (forall i | 0 <= i < |blocks| :: BlockOk(segs, offset, blocks[i]))
    && (forall i, j | 0 <= i < j < |blocks| :: Disjoint(blocks[i], blocks[j]))
  }

  /** The header says how long the block is. */
  predicate HeaderOk(b: Block)
    reads b.seg.bytes
  {
    b.at + 32 <= b.seg.bytes.Length && SizeOf(b.seg.bytes[b.at + 24..b.at + 32]) == b.len
  }

  class Zone {
    /** The segment that blocks are taken from, and those that were full. */
    var memory: Segment
    var offset: nat
    var memories: seq<Segment>
    ghost var blocks: seq<Block>

    function Segments(): seq<Segment>
      reads this
    {
      [memory] + memories
    }

    ghost function Bytes(): set<object>
      reads this
    {
      set s | s in Segments() :: s.bytes
    }

    ghost predicate Placed()
      reads this
    {
      && offset <= memory.bytes.Length && offset % ALIGN == 0 && memory.bytes.Length % ALIGN == 0
      && SegmentsOk(Segments()) && BlocksOk(Segments(), offset, blocks)
    }

    ghost predicate Valid()
      reads this, Bytes()
    {
      Placed() && forall i | 0 <= i < |blocks| :: blocks[i].seg in Segments() && HeaderOk(blocks[i])
    }

    /** `llvm_zone_create`; the system gives memory at an aligned address. */
    constructor (size: nat, base: nat)
      requires size % ALIGN == 0 && base % ALIGN == 0
      ensures Valid() && blocks == [] && memories == [] && offset == 0
      ensures memory.base == base && memory.bytes.Length == size && fresh(memory.bytes)
    {
      var bytes := new Byte[size];
      memory := Segment(base, bytes);
      offset, memories, blocks := 0, [], [];
    }

    /** `llvm_zone_reset`: the blocks are given up, the memory is kept. */
    method Reset()
      requires Valid()
      modifies this`offset, this`blocks
      ensures Valid() && offset == 0 && blocks == [] && Segments() == old(Segments())
    {
      offset, blocks := 0, [];
      assert Segments() == old(Segments());
    }

    /** The system has room for `size` bytes at `base`, apart from all segments. */
    predicate Room(base: nat, size: nat)
      reads this
    {
      base % ALIGN == 0
      && forall i | 0 <= i < |Segments()| ::
           Segments()[i].base + Segments()[i].bytes.Length <= base || base + size <= Segments()[i].base
    }

    /** The zone takes a new segment, at least twice as large.  An empty one is replaced. */
    method Grow(n: nat, base: nat)
      requires Valid() && n % 16 == 0 && Room(base, Grown(memory.bytes.Length, n))
      modifies this`memory, this`offset, this`memories
      ensures Valid() && blocks == old(blocks) && offset == 0 && fresh(memory.bytes)
      ensures memory.base == base && memory.bytes.Length == Grown(old(memory.bytes.Length), n)
      ensures memories == if old(memory.bytes.Length) == 0 then old(memories) else [old(memory)] + old(memories)
    {
      GrownIsAligned(memory.bytes.Length, n);
      ghost var segs := Segments();
      var bytes := new Byte[Grown(memory.bytes.Length, n)];
      var s := Segment(base, bytes);
      GrowthOk(segs, offset, blocks, s);
      if memory.bytes.Length != 0 {
        memories := [memory] + memories;
      }
      memory := s;
      offset := 0;
      assert Segments() == [s] + if segs[0].bytes.Length == 0 then segs[1..] else segs;
    }

    /** A block at `offset`, where there is room for it: it is cleared and its size put in front. */
    method Take(len: nat) returns (ghost b: Block)
      requires Valid() && len >= ALIGN && len % ALIGN == 0 && len < Power256(8)
      requires offset + len <= memory.bytes.Length && offset + ALIGN < memory.bytes.Length
      modifies this`offset, this`blocks, memory.bytes
      ensures Valid() && b == Block(memory, old(offset), len) && blocks == old(blocks) + [b]
      ensures offset == old(offset) + len
      ensures forall k | b.at + ALIGN <= k < b.at + b.len :: memory.bytes[k] == 0
      ensures forall k | 0 <= k < old(offset) :: memory.bytes[k] == old(memory.bytes[k])
    {
      b := Block(memory, offset, len);
      WriteBlock(memory.bytes, offset, len);
      ghost var before := blocks;
      forall i | 0 <= i < |before| ensures HeaderOk(before[i]) {
        assert BlockOk(Segments(), offset, before[i]);
        HeaderKept(before[i]);
      }
      assert HeaderOk(b);
      TakenOk(Segments(), offset, before, b);
      offset := offset + len;
      blocks := before + [b];
      assert forall i | 0 <= i < |blocks| :: blocks[i] == if i < |before| then before[i] else b;
    }

    /** `llvm_zone_malloc`.  `base` is where the system would put a new segment.  The bound is the
        one above which the source loses the size of a full segment in a 32-bit integer. */
    method Malloc(request: nat, base: nat) returns (ptr: nat, ghost b: Block)
      requires Valid() && request % 16 == 0 && request < 0x8000_0000 && memory.bytes.Length < 0x8000_0000
      requires NeedsGrowth(offset, request + ALIGN, memory.bytes.Length) ==>
        Room(base, Grown(memory.bytes.Length, request + ALIGN))
      modifies this, memory.bytes
      ensures Valid() && blocks == old(blocks) + [b] && ptr == Pointer(b) && ptr % ALIGN == 0
      ensures b.seg == memory && b.len == RoundUp(request + ALIGN) && b.at + b.len <= memory.bytes.Length
      ensures forall k | b.at + ALIGN <= k < b.at + b.len :: memory.bytes[k] == 0
      ensures offset == b.at + b.len
      ensures if old(offset) + request + 32 < old(memory).bytes.Length then
                memory == old(memory) && memories == old(memories) && b.at == old(offset)
              else
                && fresh(memory.bytes) && memory.base == base && b.at == 0
                && Doubled(old(memory).bytes.Length, request + 32, memory.bytes.Length)
                && memories == if old(memory).bytes.Length == 0 then old(memories) else [old(memory)] + old(memories)
      ensures forall k | 0 <= k < old(memory).bytes.Length && (b.seg == old(memory) ==> k < b.at) ::
        old(memory).bytes[k] == old(memory.bytes[k])
      ensures b.seg in Segments() && Contains(b.seg, ptr)
    {
      var n := request + ALIGN;
      MakeRoom(n, base);
      ptr := memory.base + offset + ALIGN;
      SizeFits(n);
      b := Take(RoundUp(n));
      assert BlockOk(Segments(), offset, blocks[|blocks| - 1]);
    }

    /** Room for a block in the current segment, which is a new one if the old one has not enough. */
    method MakeRoom(n: nat, base: nat)
      requires Valid() && n % 16 == 0 && n >= ALIGN
      requires NeedsGrowth(offset, n, memory.bytes.Length) ==> Room(base, Grown(memory.bytes.Length, n))
      modifies this`memory, this`offset, this`memories
      ensures Valid() && blocks == old(blocks)
      ensures if old(offset) + n < old(memory).bytes.Length then
                memory == old(memory) && memories == old(memories) && offset == old(offset)
              else
                && fresh(memory.bytes) && memory.base == base && offset == 0
                && Doubled(old(memory).bytes.Length, n, memory.bytes.Length)
                && memories == if old(memory).bytes.Length == 0 then old(memories) else [old(memory)] + old(memories)
      ensures offset + RoundUp(n) <= memory.bytes.Length && offset + ALIGN < memory.bytes.Length && RoundUp(n) >= ALIGN
    {
      if NeedsGrowth(offset, n, memory.bytes.Length) {
        GrownIsDoubled(memory.bytes.Length, n);
        Grow(n, base);
        RoundUpFits(n, memory.bytes.Length);
      }
      RoundedFits(offset, n, memory.bytes.Length);
    }

    /** A header below the offset, or in another segment, is as it was. */
    twostate lemma HeaderKept(b: Block)
      requires old(HeaderOk(b))
      requires b.seg.bytes != memory.bytes ==> b.seg.bytes[..] == old(b.seg.bytes[..])
      requires b.seg.bytes == memory.bytes ==> forall k | b.at <= k < b.at + 32 :: b.seg.bytes[k] == old(b.seg.bytes[k])
      ensures HeaderOk(b)
    {
      assert b.seg.bytes[b.at + 24..b.at + 32] == old(b.seg.bytes[b.at + 24..b.at + 32]);
    }

    /** `llvm_zone_ptr_size`: what the header in front of a block says. */
    method PtrSize(b: Block) returns (n: nat)
      requires Valid() && b in blocks
      ensures n == b.len
    {
      assert HeaderOk(b);
      n := 0;
      var i := 8;
      while i > 0
        invariant i <= 8 && n == SizeOf(b.seg.bytes[b.at + 24 + i..b.at + 32])
      {
        i := i - 1;
        assert b.seg.bytes[b.at + 24 + i..b.at + 32][1..] == b.seg.bytes[b.at + 24 + i + 1..b.at + 32];
        n := b.seg.bytes[b.at + 24 + i] + 256 * n;
      }
    }

    /** `llvm_ptr_in_zone`: through the current segment and the full ones. */
    method PtrInZone(ptr: nat) returns (found: bool)
      ensures found <==> exists s | s in Segments() :: Contains(s, ptr)
    {
      var segs := Segments();
      var i := 0;
      while i < |segs| && !Contains(segs[i], ptr)
        invariant i <= |segs| && forall j | 0 <= j < i :: !Contains(segs[j], ptr)
      {
        i := i + 1;
      }
      found := i < |segs|;
    }

    /** `llvm_zone_destroy`: the older segments first, from the oldest on, then the current one. */
    method Destroy() returns (freed: seq<Segment>)
      requires Valid()
      ensures |freed| == |Segments()|
      ensures forall i | 0 <= i < |freed| :: freed[i] == Segments()[|freed| - 1 - i]
      ensures forall i, j | 0 <= i < j < |freed| :: freed[i].bytes != freed[j].bytes
    {
      freed := FreeAll(Segments());
    }
  }

  /** After growing there is room: the new segment is at least twice as large as the request. */
  lemma RoundUpFits(n: nat, size: nat)
    requires n >= ALIGN && size >= 1024 && size >= 2 * n
    ensures !NeedsGrowth(0, n, size)
  {
  }

  lemma RoundedFits(offset: nat, n: nat, size: nat)
    requires offset % ALIGN == 0 && size % ALIGN == 0 && !NeedsGrowth(offset, n, size) && n >= ALIGN
    ensures offset + RoundUp(n) <= size && offset + ALIGN < size && RoundUp(n) >= ALIGN
  {
    var a, b, c := offset / 32, size / 32, (n + 31) / 32;
    assert offset == 32 * a && size == 32 * b && RoundUp(n) == 32 * c;
    assert 32 * a + n < 32 * b;
    assert 32 * c < n + 32;
    assert c < b - a + 1;
  }

  lemma SizeFits(n: nat)
    requires n < 0x8000_0000 + ALIGN
    ensures RoundUp(n) < Power256(8)
  {
    assert Power256(8) == 0x1_0000_0000_0000_0000;
  }

  lemma TakenOk(segs: seq<Segment>, offset: nat, blocks: seq<Block>, b: Block)
    requires segs != [] && BlocksOk(segs, offset, blocks) && offset % ALIGN == 0
    requires b.seg == segs[0] && b.at == offset && b.len >= ALIGN
    requires offset + b.len <= segs[0].bytes.Length && offset + ALIGN < segs[0].bytes.Length
    ensures BlocksOk(segs, offset + b.len, blocks + [b])
  {
    forall i | 0 <= i < |blocks| + 1 ensures BlockOk(segs, offset + b.len, (blocks + [b])[i]) {
      if i < |blocks| {
        assert BlockOk(segs, offset, blocks[i]);
      }
    }
    forall i | 0 <= i < |blocks| ensures Disjoint(blocks[i], b) {
      assert BlockOk(segs, offset, blocks[i]);
    }
  }

  /** Freeing what hangs on to a segment before the segment itself. */
  method FreeAll(segs: seq<Segment>) returns (freed: seq<Segment>)
    ensures |freed| == |segs| && forall i | 0 <= i < |freed| :: freed[i] == segs[|freed| - 1 - i]
    decreases |segs|
  {
    freed := [];
    if segs != [] {
      freed := FreeAll(segs[1..]);
      freed := freed + [segs[0]];
    }
  }

  /** Blocks of one zone lie apart in the address space, and the zone's pointers tell them apart. */
  lemma BlocksApart(segs: seq<Segment>, offset: nat, blocks: seq<Block>, i: nat, j: nat)
    requires segs != [] && SegmentsOk(segs) && BlocksOk(segs, offset, blocks) && i < j < |blocks|
    ensures Pointer(blocks[i]) - ALIGN + blocks[i].len <= Pointer(blocks[j]) - ALIGN
         || Pointer(blocks[j]) - ALIGN + blocks[j].len <= Pointer(blocks[i]) - ALIGN
  {
    var a, b := blocks[i], blocks[j];
    assert BlockOk(segs, offset, a) && BlockOk(segs, offset, b) && Disjoint(a, b);
    var k :| 0 <= k < |segs| && segs[k] == a.seg;
    var l :| 0 <= l < |segs| && segs[l] == b.seg;
    if k < l {
      assert Apart(segs[k], segs[l]);
    } else if l < k {
      assert Apart(segs[l], segs[k]);
    }
  }

  /** A block of `len` bytes at `at`: cleared, and its size at the end of its header. */
  method WriteBlock(bytes: array<Byte>, at: nat, len: nat)
    requires len >= ALIGN && at + len <= bytes.Length && len < Power256(8)
    modifies bytes
    ensures SizeOf(bytes[at + 24..at + 32]) == len
    ensures forall k | at + ALIGN <= k < at + len :: bytes[k] == 0
    ensures forall k | 0 <= k < at || at + len <= k < bytes.Length :: bytes[k] == old(bytes[k])
  {
    ClearBytes(bytes, at, len);
    PutSize(bytes, at + 24, len);
  }

  /** `memset(p, 0, len)`. */
  method ClearBytes(bytes: array<Byte>, at: nat, len: nat)
    requires at + len <= bytes.Length
    modifies bytes
    ensures forall k | at <= k < at + len :: bytes[k] == 0
    ensures forall k | 0 <= k < at || at + len <= k < bytes.Length :: bytes[k] == old(bytes[k])
  {
    var i := at;
    while i < at + len
      invariant at <= i <= at + len
      invariant forall k | at <= k < i :: bytes[k] == 0
      invariant forall k | 0 <= k < at || at + len <= k < bytes.Length :: bytes[k] == old(bytes[k])
    {
      bytes[i] := 0;
      i := i + 1;
    }
  }

  /** A 64-bit number, lowest byte first. */
  method PutSize(bytes: array<Byte>, at: nat, n: nat)
    requires at + 8 <= bytes.Length && n < Power256(8)
    modifies bytes
    ensures SizeOf(bytes[at..at + 8]) == n
    ensures forall k | 0 <= k < at || at + 8 <= k < bytes.Length :: bytes[k] == old(bytes[k])
  {
    var digits := SizeBytes(n, 8);
    var i := 0;
    while i < 8
      invariant i <= 8 && bytes[at..at + i] == digits[..i]
      invariant forall k | 0 <= k < at || at + 8 <= k < bytes.Length :: bytes[k] == old(bytes[k])
    {
      bytes[at + i] := digits[i];
      i := i + 1;
    }
    assert digits[..8] == digits;
    SizeReadsBack(n, 8);
  }

  lemma GrowthOk(segs: seq<Segment>, offset: nat, blocks: seq<Block>, s: Segment)
    requires segs != [] && SegmentsOk(segs) && BlocksOk(segs, offset, blocks) && s.base % ALIGN == 0
    requires forall i | 0 <= i < |segs| :: segs[i].bytes != s.bytes && Apart(segs[i], s)
    ensures var next := [s] + if segs[0].bytes.Length == 0 then segs[1..] else segs;
            SegmentsOk(next) && BlocksOk(next, 0, blocks) && forall i | 0 <= i < |blocks| :: blocks[i].seg in next
  {
    var next := [s] + if segs[0].bytes.Length == 0 then segs[1..] else segs;
    forall i | 0 <= i < |blocks| ensures BlockOk(next, 0, blocks[i]) {
      assert BlockOk(segs, offset, blocks[i]);
      var k :| 0 <= k < |segs| && segs[k] == blocks[i].seg;
      assert next[if segs[0].bytes.Length == 0 then k else k + 1] == segs[k];
    }
  }
}
