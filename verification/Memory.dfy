/** The paged memory: blocks of 4096 bytes behind one linear address space. */
module Memory {
  import opened Bytes

  const BLOCK_SIZE: nat := 4096

  datatype Access = Granted | IllegalMemoryAccess

  /** The range check both accessors start with; the sum is formed in 64 bits. */
  predicate Refuses(total: u64, address: u64, size: u64) {
    address > total || (address + size) % TWO64 > total
  }

  function LeftoverOnFirstPage(address: u64): (r: nat)
    ensures 0 < r <= BLOCK_SIZE
  {
    BLOCK_SIZE - address % BLOCK_SIZE
  }

  function FullPages(address: u64, size: u64): nat
    requires size > LeftoverOnFirstPage(address)
  {
    (size - LeftoverOnFirstPage(address)) / BLOCK_SIZE
  }

  function LeftoverOnLastPage(address: u64, size: u64): nat
    requires size > LeftoverOnFirstPage(address)
  {
    (size - LeftoverOnFirstPage(address)) % BLOCK_SIZE
  }

  /** The highest block index an access that passed the range check looks up. */
  function LastBlock(address: u64, size: u64): nat {
    if size <= LeftoverOnFirstPage(address) then
      address / BLOCK_SIZE
    else
      address / BLOCK_SIZE + FullPages(address, size) + if LeftoverOnLastPage(address, size) > 0 then 1 else 0
  }

  /** Every block the access looks up exists. */
  predicate Backed(total: u64, address: u64, size: u64) {
    LastBlock(address, size) < total / BLOCK_SIZE
  }

  lemma LastBlockHoldsLastByte(address: u64, size: u64)
    requires size > 0
    ensures LastBlock(address, size) == (address + size - 1) / BLOCK_SIZE
  {
  }

  /** The range check passes accesses that start in memory or at its end and that end there too,
      or wrap past 2^64 to an end there. It keeps all block lookups in range exactly for those
      that do not wrap and touch at least one byte of memory (or none, but not at the very end). */
  lemma RangeCheckIsExact(total: u64, address: u64, size: u64)
    requires total % BLOCK_SIZE == 0
    ensures
      !Refuses(total, address, size) <==>
      address <= total && (address + size <= total || TWO64 <= address + size <= TWO64 + total)
    ensures
      !Refuses(total, address, size) ==>
        (Backed(total, address, size) <==> address + size < TWO64 && (size > 0 || address < total))
  {
    if size > 0 {
      LastBlockHoldsLastByte(address, size);
    }
  }

  /** How a multi-page access splits into first page, full pages and last page. */
  lemma PageSplit(total: u64, address: u64, size: u64)
    requires Backed(total, address, size) && size > LeftoverOnFirstPage(address)
    ensures size == LeftoverOnFirstPage(address) + FullPages(address, size) * BLOCK_SIZE
            + LeftoverOnLastPage(address, size)
    ensures address / BLOCK_SIZE + FullPages(address, size) < total / BLOCK_SIZE
    ensures LeftoverOnLastPage(address, size) > 0 ==>
            address / BLOCK_SIZE + FullPages(address, size) + 1 < total / BLOCK_SIZE
    ensures address + LeftoverOnFirstPage(address) == (address / BLOCK_SIZE + 1) * BLOCK_SIZE
    ensures address + size <= total / BLOCK_SIZE * BLOCK_SIZE
  {
  }

  /** `d` is `base` with its first `n` bytes replaced by the `n` bytes of `f` at `address`. */
  ghost predicate Delivered(d: seq<byte>, base: seq<byte>, f: seq<byte>, address: nat, n: nat) {
    && address + n <= |f| && n <= |base| == |d|
    && forall k :: 0 <= k < |d| ==> d[k] == if k < n then f[address + k] else base[k]
  }

  /** `f` is `base` with the first `n` bytes of `source` stored at `address`. */
  ghost predicate Stored(f: seq<byte>, base: seq<byte>, source: seq<byte>, address: nat, n: nat) {
    && address + n <= |base| == |f| && n <= |source|
    && forall k :: 0 <= k < |f| ==> f[k] == if address <= k < address + n then source[k - address] else base[k]
  }

  lemma DeliveredIsSlice(d: seq<byte>, base: seq<byte>, f: seq<byte>, address: nat, n: nat)
    requires Delivered(d, base, f, address, n)
    ensures d[..n] == f[address..address + n] && d[n..] == base[n..]
  {
  }

  lemma StoredIsSplice(f: seq<byte>, base: seq<byte>, source: seq<byte>, address: nat, n: nat)
    requires Stored(f, base, source, address, n)
    ensures f == Splice(base, address, source[..n])
  {
  }

  class PagedMemory {
    const total: u64
    const blocks: array2<byte>

    ghost predicate Valid()
    {
      blocks.Length0 == total / BLOCK_SIZE && blocks.Length1 == BLOCK_SIZE
    }

    /** The flat byte array the blocks stand for. */
    ghost function Flat(): (f: seq<byte>)
      requires Valid()
      reads blocks
      ensures |f| == total / BLOCK_SIZE * BLOCK_SIZE
    {
      seq(total / BLOCK_SIZE * BLOCK_SIZE,
          (k: int) requires 0 <= k < total / BLOCK_SIZE * BLOCK_SIZE reads blocks =>
            blocks[k / BLOCK_SIZE, k % BLOCK_SIZE])
    }

    constructor (totalMemory: u64)
      requires totalMemory > 0
      ensures Valid() && total == totalMemory && fresh(blocks)
      ensures forall k :: 0 <= k < |Flat()| ==> Flat()[k] == 0
    {
      total := totalMemory;
      blocks := new byte[totalMemory / BLOCK_SIZE, BLOCK_SIZE]((i, j) => 0);
    }

    lemma Cell(page: nat, offset: nat)
      requires Valid() && page < blocks.Length0 && offset < BLOCK_SIZE
      ensures page * BLOCK_SIZE + offset < |Flat()|
      ensures Flat()[page * BLOCK_SIZE + offset] == blocks[page, offset]
    {
      var k := page * BLOCK_SIZE + offset;
      assert k / BLOCK_SIZE == page && k % BLOCK_SIZE == offset;
    }

    method CopyOut(page: nat, offset: nat, dest: array<byte>, at: nat, count: nat)
      requires Valid()
      requires page < blocks.Length0 && offset + count <= BLOCK_SIZE && at + count <= dest.Length
      modifies dest
      ensures var from := page * BLOCK_SIZE + offset;
              && from + count <= |Flat()|
              && forall k :: 0 <= k < dest.Length ==>
                   dest[k] == if at <= k < at + count then Flat()[from + k - at] else old(dest[k])
    {
      var i := 0;
      while i < count
        invariant i <= count
        invariant forall k :: 0 <= k < dest.Length ==>
          dest[k] == if at <= k < at + i then blocks[page, offset + k - at] else old(dest[k])
      {
        dest[at + i] := blocks[page, offset + i];
        i := i + 1;
      }
      ghost var from := page * BLOCK_SIZE + offset;
      Cell(page, BLOCK_SIZE - 1);
      forall k | at <= k < at + count
        ensures dest[k] == Flat()[from + k - at]
      {
        Cell(page, offset + k - at);
      }
    }

    method CopyIn(page: nat, offset: nat, source: array<byte>, at: nat, count: nat)
      requires Valid()
      requires page < blocks.Length0 && offset + count <= BLOCK_SIZE && at + count <= source.Length
      modifies blocks
      ensures var to := page * BLOCK_SIZE + offset;
              forall k :: 0 <= k < |Flat()| ==>
                Flat()[k] == if to <= k < to + count then source[at + k - to] else old(Flat())[k]
    {
      var i := 0;
      while i < count
        invariant i <= count
        invariant forall p, q :: 0 <= p < blocks.Length0 && 0 <= q < blocks.Length1 ==>
          blocks[p, q] == if p == page && offset <= q < offset + i then source[at + q - offset] else old(blocks[p, q])
      {
        blocks[page, offset + i] := source[at + i];
        i := i + 1;
      }
    }

    /** One more chunk of a read that has already delivered `done` bytes from `address` on. */
    method ReadChunk(page: nat, offset: nat, dest: array<byte>, done: nat, count: nat, ghost address: nat,
                     ghost base: seq<byte>)
      requires Valid() && page < blocks.Length0 && offset + count <= BLOCK_SIZE
      requires address + done == page * BLOCK_SIZE + offset
      requires done + count <= dest.Length == |base|
      requires Delivered(dest[..], base, Flat(), address, done)
      modifies dest
      ensures Delivered(dest[..], base, Flat(), address, done + count)
    {
      CopyOut(page, offset, dest, done, count);
    }

    /** One more chunk of a write that has already stored `done` bytes from `address` on. */
    method WriteChunk(page: nat, offset: nat, source: array<byte>, done: nat, count: nat, ghost address: nat,
                      ghost base: seq<byte>)
      requires Valid() && page < blocks.Length0 && offset + count <= BLOCK_SIZE
      requires address + done == page * BLOCK_SIZE + offset && |Flat()| == |base|
      requires done + count <= source.Length
      requires Stored(Flat(), base, source[..], address, done)
      modifies blocks
      ensures Stored(Flat(), base, source[..], address, done + count)
    {
      CopyIn(page, offset, source, done, count);
    }

    /** The multi-page case: rest of the first page, every full page, what is left on the last. */
    method ReadPages(page: nat, offset: nat, dest: array<byte>, size: nat, ghost address: nat, ghost base: seq<byte>)
      requires Valid() && offset < BLOCK_SIZE < offset + size
      requires |base| == dest.Length >= size
      requires address == page * BLOCK_SIZE + offset && address + size <= |Flat()|
      requires Delivered(dest[..], base, Flat(), address, 0)
      modifies dest
      ensures Delivered(dest[..], base, Flat(), address, size)
    {
      var leftover := BLOCK_SIZE - offset;
      var rest := size - leftover;
      var fullPages, last := rest / BLOCK_SIZE, rest % BLOCK_SIZE;
      var current := 0;
      ReadChunk(page, offset, dest, current, leftover, address, base);
      current := current + leftover;
      for i := 1 to fullPages + 1
        invariant current == leftover + (i - 1) * BLOCK_SIZE
        invariant Delivered(dest[..], base, Flat(), address, current)
      {
        ReadChunk(page + i, 0, dest, current, BLOCK_SIZE, address, base);
        current := current + BLOCK_SIZE;
      }
      if last > 0 {
        ReadChunk(page + fullPages + 1, 0, dest, current, last, address, base);
      }
      assert current + last == size;
    }

    method ReadMemory(address: u64, dest: array<byte>, size: u64) returns (r: Access)
      requires Valid() && size <= dest.Length
      requires Refuses(total, address, size) || Backed(total, address, size)
      modifies dest
      ensures r.IllegalMemoryAccess? <==> Refuses(total, address, size)
      ensures r.IllegalMemoryAccess? ==> dest[..] == old(dest[..])
      ensures r.Granted? ==> Delivered(dest[..], old(dest[..]), Flat(), address, size)
    {
      if address > total || (address + size) % TWO64 > total {
        return IllegalMemoryAccess;
      }
      var page, offset := address / BLOCK_SIZE, address % BLOCK_SIZE;
      if size <= BLOCK_SIZE - offset {
        ReadChunk(page, offset, dest, 0, size, address, dest[..]);
      } else {
        PageSplit(total, address, size);
        ReadPages(page, offset, dest, size, address, dest[..]);
      }
      return Granted;
    }

    /** The multi-page case: rest of the first page, every full page, what is left on the last. */
    method WritePages(page: nat, offset: nat, source: array<byte>, size: nat, ghost address: nat, ghost base: seq<byte>)
      requires Valid() && offset < BLOCK_SIZE < offset + size
      requires |base| == |Flat()| && size <= source.Length
      requires address == page * BLOCK_SIZE + offset && address + size <= |Flat()|
      requires Stored(Flat(), base, source[..], address, 0)
      modifies blocks
      ensures Stored(Flat(), base, source[..], address, size)
    {
      var leftover := BLOCK_SIZE - offset;
      var rest := size - leftover;
      var fullPages, last := rest / BLOCK_SIZE, rest % BLOCK_SIZE;
      var current := 0;
      WriteChunk(page, offset, source, current, leftover, address, base);
      current := current + leftover;
      for i := 1 to fullPages + 1
        invariant current == leftover + (i - 1) * BLOCK_SIZE
        invariant Stored(Flat(), base, source[..], address, current)
      {
        WriteChunk(page + i, 0, source, current, BLOCK_SIZE, address, base);
        current := current + BLOCK_SIZE;
      }
      if last > 0 {
        WriteChunk(page + fullPages + 1, 0, source, current, last, address, base);
      }
      assert current + last == size;
    }

    method WriteMemory(address: u64, source: array<byte>, size: u64) returns (r: Access)
      requires Valid() && size <= source.Length
      requires Refuses(total, address, size) || Backed(total, address, size)
      modifies blocks
      ensures r.IllegalMemoryAccess? <==> Refuses(total, address, size)
      ensures r.IllegalMemoryAccess? ==> Flat() == old(Flat())
      ensures r.Granted? ==> Stored(Flat(), old(Flat()), source[..], address, size)
    {
      if address > total || (address + size) % TWO64 > total {
        return IllegalMemoryAccess;
      }
      var page, offset := address / BLOCK_SIZE, address % BLOCK_SIZE;
      if size <= BLOCK_SIZE - offset {
        WriteChunk(page, offset, source, 0, size, address, Flat());
      } else {
        PageSplit(total, address, size);
        WritePages(page, offset, source, size, address, Flat());
      }
      return Granted;
    }
  }
}
