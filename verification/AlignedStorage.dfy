/**
 * `any_completion_handler_impl::allocate` and `deallocate`: an aligned block carved out of a larger one, with
 * the distance between the two stored behind it. Memory is a byte array and addresses are its indices.
 */
module AlignedStorage {
  import opened MachineTypes
  import opened Headers

  const OFFSET_SIZE := 8

  // ---------------------------------------------------------------------------
  // The mask
  // ---------------------------------------------------------------------------

  function Pow2(e: nat): (r: nat)
    ensures r > 0
  {
    if e == 0 then 1 else 2 * Pow2(e - 1)
  }

  ghost predicate IsPowerOfTwo(n: nat) {
    exists e: nat :: n == Pow2(e)
  }

  /** Bitwise and. */
  function And(a: nat, b: nat): nat {
    if a == 0 || b == 0 then 0 else (if a % 2 == 1 && b % 2 == 1 then 1 else 0) + 2 * And(a / 2, b / 2)
  }

  /** All ones keep every bit. */
  lemma {:induction false} AndOnes(x: nat, w: nat)
    requires x < Pow2(w)
    ensures And(x, Pow2(w) - 1) == x
  {
    if w > 0 {
      AndOnes(x / 2, w - 1);
      assert (Pow2(w) - 1) / 2 == Pow2(w - 1) - 1 && (Pow2(w) - 1) % 2 == 1;
    }
  }

  lemma {:induction false} Pow2Monotone(e: nat, w: nat)
    requires e <= w
    ensures Pow2(e) <= Pow2(w)
  {
    if e < w {
      Pow2Monotone(e, w - 1);
    }
  }

  lemma HalveModulo(x: nat, d: nat)
    requires d > 0
    ensures x % (2 * d) == 2 * ((x / 2) % d) + x % 2
  {
    var q, r := x / 2 / d, (x / 2) % d;
    assert x / 2 == d * q + r;
    assert x == (2 * d) * q + (2 * r + x % 2) by {
      assert x == 2 * (d * q + r) + x % 2;
      assert 2 * (d * q) == (2 * d) * q;
    }
    RemainderIs(x, 2 * d, q, 2 * r + x % 2);
  }

  lemma RemainderIs(x: nat, d: nat, q: nat, r: nat)
    requires d > 0 && x == d * q + r && r < d
    ensures x % d == r
  {
    var m := q - x / d;
    assert m * d == x % d - r by { assert x == (x / d) * d + x % d; }
    MulOrder(m, 1, d);
    MulOrder(-1, m, d);
  }

  /** In `w` bits, and-ing with the negation of 2^e rounds down to a multiple of 2^e. */
  lemma {:induction false} MaskRoundsDown(x: nat, e: nat, w: nat)
    requires e <= w && x < Pow2(w)
    ensures Pow2(e) <= Pow2(w) && And(x, Pow2(w) - Pow2(e)) == x - x % Pow2(e)
  {
    Pow2Monotone(e, w);
    if e == 0 {
      AndOnes(x, w);
    } else {
      MaskRoundsDown(x / 2, e - 1, w - 1);
      MaskStep(x, Pow2(e - 1), Pow2(w - 1) - Pow2(e - 1));
    }
  }

  /** One more low bit: the mask gets one more zero, and the multiple one more factor of two. */
  lemma MaskStep(x: nat, d: nat, k: nat)
    requires d > 0 && And(x / 2, k) == x / 2 - (x / 2) % d
    ensures And(x, 2 * k) == x - x % (2 * d)
  {
    AndEven(x, k);
    HalveModulo(x, d);
  }

  lemma AndEven(x: nat, k: nat)
    ensures And(x, 2 * k) == 2 * And(x / 2, k)
  {
  }

  lemma Pow2Word()
    ensures Pow2(64) == TWO_64
  {
    assert Pow2(8) == 0x100;
    Pow2Doubles(8, 8);
    Pow2Doubles(16, 16);
    Pow2Doubles(32, 32);
  }

  lemma {:induction false} Pow2Doubles(a: nat, b: nat)
    ensures Pow2(a + b) == Pow2(a) * Pow2(b)
  {
    if a > 0 {
      Pow2Doubles(a - 1, b);
      MulTwo(Pow2(a - 1), Pow2(b));
      assert Pow2(a + b) == 2 * Pow2(a - 1 + b);
    }
  }

  lemma MulTwo(x: nat, y: nat)
    ensures 2 * (x * y) == (2 * x) * y
  {
  }

  // ---------------------------------------------------------------------------
  // The aligned address
  // ---------------------------------------------------------------------------

  /** `(address - 1 + alignment) & -alignment` in 64 bits. */
  function AlignUp(address: nat, alignment: nat): nat
    requires 0 < alignment < TWO_64 && address + alignment <= TWO_64
  {
    And(address + alignment - 1, TWO_64 - alignment)
  }

  lemma AlignUpRoundsDown(address: nat, alignment: nat)
    requires IsPowerOfTwo(alignment) && alignment < TWO_64 && address + alignment <= TWO_64
    ensures var x := address + alignment - 1; AlignUp(address, alignment) == x - x % alignment
  {
    var e: nat :| alignment == Pow2(e);
    Pow2Word();
    if e > 64 {
      Pow2Monotone(64, e);
      assert false;
    }
    MaskRoundsDown(address + alignment - 1, e, 64);
  }

  lemma RoundedDown(x: nat, d: nat)
    requires d > 0
    ensures (x - x % d) % d == 0 && x - d < x - x % d <= x
  {
    MultipleOf(x / d, d);
    assert x - x % d == (x / d) * d;
  }

  /** For a power of two the masked sum is the least multiple at or above the address. */
  lemma AlignUpIsLeast(address: nat, alignment: nat)
    requires IsPowerOfTwo(alignment) && alignment < TWO_64 && address + alignment <= TWO_64
    ensures var p := AlignUp(address, alignment);
            p % alignment == 0 && address <= p < address + alignment
    ensures forall q: nat :: q % alignment == 0 && address <= q ==> AlignUp(address, alignment) <= q
  {
    AlignUpRoundsDown(address, alignment);
    RoundedDown(address + alignment - 1, alignment);
    forall q: nat | q % alignment == 0 && address <= q ensures AlignUp(address, alignment) <= q {
      NoMultipleBetween(q, AlignUp(address, alignment), alignment);
    }
  }

  lemma NoMultipleBetween(q: nat, p: nat, d: nat)
    requires d > 0 && q % d == 0 && p % d == 0 && p < q + d
    ensures p <= q
  {
    if q < p {
      MultiplesApart(q, p, d);
    }
  }

  lemma MulOrder(a: int, b: int, d: nat)
    ensures a >= b ==> a * d >= b * d
  {
  }

  lemma MultipleOf(k: nat, d: nat)
    requires d > 0
    ensures (k * d) % d == 0
  {
    var n := k * d;
    var m := k - n / d;
    assert m * d == n % d by { assert n == (n / d) * d + n % d; }
    MulOrder(m, 1, d);
    MulOrder(-1, m, d);
  }

  /** Distinct multiples are at least one step apart. */
  lemma MultiplesApart(q: nat, p: nat, d: nat)
    requires d > 0 && q % d == 0 && p % d == 0 && q < p
    ensures q + d <= p
  {
    assert q == (q / d) * d && p == (p / d) * d;
    MulOrder(q / d, p / d, d);
    MulOrder(p / d, q / d + 1, d);
  }

  /** The length asked of the underlying allocator. */
  function RawLength(size: nat, alignment: nat): nat
    requires alignment > 0
  {
    size + alignment - 1 + OFFSET_SIZE
  }

  /** The raw length is enough for a block at any address, and no shorter length is. */
  lemma RawLengthIsLeast(size: nat, alignment: nat, length: nat)
    requires IsPowerOfTwo(alignment) && alignment < TWO_64
    ensures RawLength(size, alignment) <= length <==>
            forall base: nat :: base + alignment <= TWO_64 ==>
              AlignUp(base, alignment) + size + 8 <= base + length
  {
    forall base: nat | base + alignment <= TWO_64
      ensures AlignUp(base, alignment) + size + 8 <= base + RawLength(size, alignment)
    {
      AlignUpIsLeast(base, alignment);
    }
    if forall base: nat :: base + alignment <= TWO_64 ==> AlignUp(base, alignment) + size + 8 <= base + length {
      AlignUpIsLeast(1, alignment);
      assert AlignUp(1, alignment) + size + 8 <= 1 + length;
      NoMultipleBetween(AlignUp(1, alignment), alignment, alignment);
    }
  }

  /** What `deallocate` computes from the memory behind the block. */
  function RecoveredBase(memory: Bytes, p: nat, size: nat): int
    requires p + size + OFFSET_SIZE <= |memory|
  {
    p - FromBytes(memory[p + size..p + size + OFFSET_SIZE])
  }

  /** `base` is what the underlying allocator returned for `RawLength(size, alignment)` bytes. */
  method Allocate(memory: array<byte>, base: nat, size: nat, alignment: nat) returns (block: Option<nat>)
    requires IsPowerOfTwo(alignment) && base + RawLength(size, alignment) <= memory.Length <= TWO_64
    modifies memory
    ensures block == Some(AlignUp(base, alignment))
    ensures var p := AlignUp(base, alignment);
            && p % alignment == 0 && base <= p && p + size + OFFSET_SIZE <= base + RawLength(size, alignment)
            && memory[..] == Stored(old(memory[..]), p + size, p - base)
  {
    AlignUpIsLeast(base, alignment);
    var space := size + alignment - 1;
    var p := AlignUp(base, alignment);
    if size + (p - base) > space {
      return None;
    }
    WriteField(memory, p + size, OFFSET_SIZE, p - base);
    return Some(p);
  }

  /** The block given back to the underlying allocator. */
  method Deallocate(memory: array<byte>, p: nat, size: nat, alignment: nat) returns (base: int, length: nat)
    requires alignment > 0 && p + size + OFFSET_SIZE <= memory.Length
    ensures base == RecoveredBase(memory[..], p, size) && length == RawLength(size, alignment)
  {
    var offset := ReadField(memory, p + size, OFFSET_SIZE);
    assert memory[..][p + size..p + size + OFFSET_SIZE] == memory[p + size..p + size + OFFSET_SIZE];
    base := p - offset;
    length := size + alignment - 1 + OFFSET_SIZE;
  }

  /** Memory after `Allocate`, and after the owner has filled its block. */
  function Stored(memory: Bytes, end: nat, offset: nat): (r: Bytes)
    requires end + OFFSET_SIZE <= |memory|
    ensures |r| == |memory| && r[end..end + OFFSET_SIZE] == ToBytes(offset, OFFSET_SIZE)
  {
    memory[..end] + ToBytes(offset, OFFSET_SIZE) + memory[end + OFFSET_SIZE..]
  }

  function Filled(memory: Bytes, p: nat, data: Bytes): (r: Bytes)
    requires p + |data| <= |memory|
    ensures |r| == |memory| && r[p + |data|..] == memory[p + |data|..]
  {
    memory[..p] + data + memory[p + |data|..]
  }

  lemma FilledKeepsOffset(memory: Bytes, p: nat, data: Bytes, offset: nat)
    requires p + |data| + OFFSET_SIZE <= |memory|
    ensures var end := p + |data|;
            Filled(Stored(memory, end, offset), p, data)[end..end + OFFSET_SIZE] == ToBytes(offset, OFFSET_SIZE)
  {
    var end := p + |data|;
    var stored := Stored(memory, end, offset);
    var used := Filled(stored, p, data);
    assert used[end..end + OFFSET_SIZE] == used[end..][..OFFSET_SIZE];
    assert stored[end..][..OFFSET_SIZE] == stored[end..end + OFFSET_SIZE];
  }

  /** However the owner fills its `size` bytes, the base that went in comes out again. */
  lemma BlockRoundTrip(memory: Bytes, base: nat, alignment: nat, data: Bytes)
    requires IsPowerOfTwo(alignment) && base + RawLength(|data|, alignment) <= |memory| <= TWO_64
    ensures var p := AlignUp(base, alignment);
            && base <= p && p + |data| + OFFSET_SIZE <= |memory|
            && RecoveredBase(Filled(Stored(memory, p + |data|, p - base), p, data), p, |data|) == base
  {
    AlignUpIsLeast(base, alignment);
    var p := AlignUp(base, alignment);
    FilledKeepsOffset(memory, p, data, p - base);
    Pow256Words();
    FromToBytes(p - base, OFFSET_SIZE);
  }
}
