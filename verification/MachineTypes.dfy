/** Machine integers, byte strings and the result types the rest of the project shares. */
module MachineTypes {

  const TWO_31 := 0x8000_0000
  const TWO_32 := 0x1_0000_0000
  const TWO_64 := 0x1_0000_0000_0000_0000

  type byte = n: int | 0 <= n < 0x100
  type uint32 = n: int | 0 <= n < 0x1_0000_0000
  type uint64 = n: int | 0 <= n < 0x1_0000_0000_0000_0000

  /** A `std::string` used as a byte container. */
  type Bytes = seq<byte>

  datatype Option<+T> = None | Some(value: T)

  /** Ok, or the C++ exception the statement raises. */
  datatype Result<+T> = Ok(value: T) | Throws

  /** Conversion of an unsigned value to `uint32_t`. */
  function Wrap32(n: nat): (r: uint32)
    ensures n < TWO_32 <==> r == n
    ensures (n - r) % TWO_32 == 0
  {
    n % TWO_32
  }

  /** `static_cast<int>` of a `size_t`: keep 32 bits, read them as two's complement. */
  function CastToInt(n: nat): (r: int)
    ensures n < TWO_31 <==> r == n
    ensures -TWO_31 <= r < TWO_31 && (n - r) % TWO_32 == 0
  {
    var low := n % TWO_32;
    if low < TWO_31 then low else low - TWO_32
  }

  /** Concatenation of byte strings, in order. */
  function Flatten(parts: seq<Bytes>): Bytes {
    if parts == [] then [] else parts[0] + Flatten(parts[1..])
  }

  lemma {:induction false} FlattenAppend(xs: seq<Bytes>, ys: seq<Bytes>)
    ensures Flatten(xs + ys) == Flatten(xs) + Flatten(ys)
  {
    if xs == [] {
      assert xs + ys == ys;
    } else {
      assert (xs + ys)[1..] == xs[1..] + ys;
      FlattenAppend(xs[1..], ys);
    }
  }

  lemma FlattenSnoc(xs: seq<Bytes>, y: Bytes)
    ensures Flatten(xs + [y]) == Flatten(xs) + y
  {
    FlattenAppend(xs, [y]);
    assert Flatten([y]) == y + Flatten([]);
  }
}
