/**
 * The flat byte store of src/dram.py: a zero-initialised buffer of `size` bytes,
 * read by slices that are clipped at its end and written by overwriting a byte
 * range in place.
 */
module Memory {
  import opened Bytes

  /** Top of the architectural address space (128 MiB); it only sets the initial stack pointer. */
  const DRAM_SIZE: nat := 1024 * 1024 * 128

  /** Size of the allocated buffer when none is given (64 KiB). */
  const DEFAULT_SIZE: nat := 0x10000

  function Min(a: int, b: int): int { if a < b then a else b }

  function Max(a: int, b: int): int { if a < b then b else a }

  /** A buffer of `size` zero bytes. */
  function Zeros(size: nat): (r: seq<bv8>)
    ensures |r| == size && forall k :: 0 <= k < size ==> r[k] == 0
  {
    seq(size, _ => 0)
  }

  /**
   * The Python slice `mem[addr:addr+n]`: the bytes from `addr` on, but never
   * past the end of the buffer, so a request that runs over comes back short.
   */
  function SliceAt(mem: seq<bv8>, addr: nat, n: nat): (r: seq<bv8>)
    ensures |r| == Max(0, Min(n, |mem| - addr))
    ensures forall k :: 0 <= k < |r| ==> r[k] == mem[addr + k]
  {
    if addr >= |mem| then [] else mem[addr..Min(addr + n, |mem|)]
  }

  /** The buffer after bytes `[addr, addr+n)` are replaced by the first `n` bytes of `data`. */
  function Overwrite(mem: seq<bv8>, addr: nat, n: nat, data: seq<bv8>): (r: seq<bv8>)
    requires addr + n <= |mem| && n <= |data|
    ensures |r| == |mem|
    ensures forall k :: 0 <= k < |r| ==> r[k] == if addr <= k < addr + n then data[k - addr] else mem[k]
  {
    mem[..addr] + data[..n] + mem[addr + n..]
  }

  /** The buffer after a raw image is copied to address 0, truncated to the buffer's size. */
  function Preloaded(mem: seq<bv8>, image: seq<bv8>): (r: seq<bv8>)
    ensures |r| == |mem|
    ensures forall k :: 0 <= k < |r| ==> r[k] == if k < |image| then image[k] else mem[k]
  {
    Overwrite(mem, 0, Min(|image|, |mem|), image)
  }

  /** Round trip: reading back an in-bounds store returns the stored bytes. */
  lemma LoadAfterStore(mem: seq<bv8>, addr: nat, n: nat, data: seq<bv8>)
    requires addr + n <= |mem| && n <= |data|
    ensures SliceAt(Overwrite(mem, addr, n, data), addr, n) == data[..n]
  {}

  /** A store leaves every read of a range that does not overlap it unchanged. */
  lemma LoadElsewhere(mem: seq<bv8>, addr: nat, n: nat, data: seq<bv8>, addr2: nat, n2: nat)
    requires addr + n <= |mem| && n <= |data|
    requires addr2 + n2 <= addr || addr + n <= addr2
    ensures SliceAt(Overwrite(mem, addr, n, data), addr2, n2) == SliceAt(mem, addr2, n2)
  {}

  /** Storing integer data writes its low `n` bytes in little-endian order. */
  lemma StoreIntBytes(mem: seq<bv8>, addr: nat, n: nat, v: bv64)
    requires addr + n <= |mem| && n <= 8
    ensures Overwrite(mem, addr, n, LeBytes(v, 8))[addr..addr + n] == LeBytes(v, n)
  {
    LeBytesPrefix(v, n, 8);
  }

  /** Loading the same image twice gives the same buffer as loading it once. */
  lemma PreloadIdempotent(mem: seq<bv8>, image: seq<bv8>)
    ensures Preloaded(Preloaded(mem, image), image) == Preloaded(mem, image)
  {}

  /**
   * The byte buffer. Its array never changes identity or length: the model keeps
   * every store in bounds (a Python slice assignment past the end would grow it).
   */
  class Dram {
    const dram: array<bv8>
    const size: nat

    ghost predicate Valid()
    {
      dram.Length == size
    }

    /** A zeroed buffer of `size` bytes, preloaded with `image` (empty when no image file is given). */
    constructor (image: seq<bv8>, size: nat := DEFAULT_SIZE)
      ensures Valid() && this.size == size && fresh(dram)
      ensures dram[..] == Preloaded(Zeros(size), image)
    {
      this.dram := new bv8[size](_ => 0);
      this.size := size;
      new;
      if |image| > 0 {
        var dataLen := if |image| < size then |image| else size;
        Store(0, dataLen, image);
      }
      assert |image| == 0 ==> Preloaded(Zeros(size), image) == Zeros(size);
    }

    /** Copy a raw image to address 0, truncated to the buffer's size. */
    method LoadBin(image: seq<bv8>)
      requires Valid()
      modifies dram
      ensures dram[..] == Preloaded(old(dram[..]), image)
    {
      var dataLen := if |image| < size then |image| else size;
      Store(0, dataLen, image);
    }

    /** `n` bytes from `addr`, clipped at the end of the buffer; nothing changes. */
    function Load(addr: nat, n: nat): (r: seq<bv8>)
      requires Valid()
      reads dram
      ensures r == SliceAt(dram[..], addr, n)
    {
      if addr >= size then [] else dram[addr..Min(addr + n, size)]
    }

    /** Overwrite bytes `[addr, addr+n)` with the first `n` bytes of `data`. */
    method Store(addr: nat, n: nat, data: seq<bv8>)
      requires Valid() && addr + n <= size && n <= |data|
      modifies dram
      ensures dram[..] == Overwrite(old(dram[..]), addr, n, data)
    {
      var i := 0;
      while i < n
        invariant 0 <= i <= n
        invariant dram[..] == Overwrite(old(dram[..]), addr, i, data)
      {
        dram[addr + i] := data[i];
        i := i + 1;
      }
    }

    /** Store integer data: it is first serialised to eight little-endian bytes. */
    method StoreInt(addr: nat, n: nat, value: bv64)
      requires Valid() && addr + n <= size && n <= 8
      modifies dram
      ensures dram[..] == Overwrite(old(dram[..]), addr, n, LeBytes(value, 8))
    {
      Store(addr, n, LeBytes(value, 8));
    }
  }
}
