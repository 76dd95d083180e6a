/** The two wire headers, their object representation, and the byte copies in and out of it. */
module Headers {
  import opened MachineTypes

  /** Announces a whole transmission. */
  datatype PreRequestHeader = PreRequestHeader(uuid: uint64, totalSize: uint32, numHorcruxes: uint32)

  /** Precedes the content of one Horcrux. */
  datatype RequestHeader = RequestHeader(uuid: uint64, index: uint32, contentSize: uint32, checksumSize: uint32)

  const PRE_SIZE := 16
  // Three uint32 fields after a uint64 leave four bytes of tail padding.
  const REQUEST_SIZE := 24
  const PADDING := 4

  // ---------------------------------------------------------------------------
  // Little-endian integers
  // ---------------------------------------------------------------------------

  function Pow256(width: nat): (r: nat)
    ensures r > 0
  {
    if width == 0 then 1 else 256 * Pow256(width - 1)
  }

  lemma Pow256Words()
    ensures Pow256(4) == TWO_32 && Pow256(8) == TWO_64
  {
    assert Pow256(2) == 0x1_0000;
    assert Pow256(4) == 0x1_0000 * Pow256(2);
    assert Pow256(6) == 0x1_0000 * Pow256(4);
    assert Pow256(8) == 0x1_0000 * Pow256(6);
  }

  function ToBytes(n: nat, width: nat): (b: Bytes)
    ensures |b| == width
  {
    if width == 0 then [] else [n % 256] + ToBytes(n / 256, width - 1)
  }

  function FromBytes(b: Bytes): (n: nat)
    ensures n < Pow256(|b|)
  {
    if b == [] then 0 else b[0] + 256 * FromBytes(b[1..])
  }

  lemma {:induction false} FromToBytes(n: nat, width: nat)
    requires n < Pow256(width)
    ensures FromBytes(ToBytes(n, width)) == n
  {
    if width > 0 {
      FromToBytes(n / 256, width - 1);
      assert ToBytes(n, width)[1..] == ToBytes(n / 256, width - 1);
    }
  }

  lemma {:induction false} ToFromBytes(b: Bytes)
    ensures ToBytes(FromBytes(b), |b|) == b
  {
    if b != [] {
      ToFromBytes(b[1..]);
      var n := FromBytes(b);
      assert n % 256 == b[0] && n / 256 == FromBytes(b[1..]);
      assert [b[0]] + b[1..] == b;
    }
  }

  lemma QuotientIs(n: nat, d: nat, q: nat, r: nat)
    requires d > 0 && n == d * q + r && r < d
    ensures n / d == q
  {
    var m: int := n / d - q;
    assert d * m == r - n % d by { assert n == d * (n / d) + n % d; }
    AtLeastOnce(d, m);
  }

  lemma AtLeastOnce(d: nat, m: int)
    ensures m >= 1 ==> d * m >= d
    ensures m <= -1 ==> d * m + d <= 0
  {
  }

  lemma DivideTwice(n: nat, d: nat)
    requires d > 0
    ensures n / (256 * d) == n / 256 / d
  {
    var q, r := n / 256 / d, n / 256 % d;
    assert n / 256 == d * q + r;
    assert n == (256 * d) * q + (256 * r + n % 256) by {
      assert n == 256 * (d * q + r) + n % 256;
      assert 256 * (d * q) == (256 * d) * q;
    }
    QuotientIs(n, 256 * d, q, 256 * r + n % 256);
  }

  /** The least significant byte comes first. */
  lemma {:induction false} ByteAt(n: nat, width: nat, k: nat)
    requires k < width
    ensures ToBytes(n, width)[k] == n / Pow256(k) % 256
  {
    if k > 0 {
      ByteAt(n / 256, width - 1, k - 1);
      DivideTwice(n, Pow256(k - 1));
    }
  }

  // ---------------------------------------------------------------------------
  // Object representation of the headers
  // ---------------------------------------------------------------------------

  function PreImage(h: PreRequestHeader): (b: Bytes)
    ensures |b| == PRE_SIZE
  {
    ToBytes(h.uuid, 8) + ToBytes(h.totalSize, 4) + ToBytes(h.numHorcruxes, 4)
  }

  /** The padding bytes are whatever the memory of the struct happened to hold. */
  function RequestImage(h: RequestHeader, padding: Bytes): (b: Bytes)
    requires |padding| == PADDING
    ensures |b| == REQUEST_SIZE
  {
    ToBytes(h.uuid, 8) + ToBytes(h.index, 4) + ToBytes(h.contentSize, 4) + ToBytes(h.checksumSize, 4) + padding
  }

  function Word32(b: Bytes): uint32
    requires |b| == 4
  {
    Pow256Words();
    FromBytes(b)
  }

  function Word64(b: Bytes): uint64
    requires |b| == 8
  {
    Pow256Words();
    FromBytes(b)
  }

  function ParsePre(b: Bytes): PreRequestHeader
    requires |b| == PRE_SIZE
  {
    PreRequestHeader(Word64(b[..8]), Word32(b[8..12]), Word32(b[12..]))
  }

  function ParseRequest(b: Bytes): RequestHeader
    requires |b| == REQUEST_SIZE
  {
    RequestHeader(Word64(b[..8]), Word32(b[8..12]), Word32(b[12..16]), Word32(b[16..20]))
  }

  lemma ParseOfPreImage(h: PreRequestHeader)
    ensures ParsePre(PreImage(h)) == h
  {
    Pow256Words();
    var b := PreImage(h);
    assert b[..8] == ToBytes(h.uuid, 8) && b[8..12] == ToBytes(h.totalSize, 4) && b[12..] == ToBytes(h.numHorcruxes, 4);
    FromToBytes(h.uuid, 8);
    FromToBytes(h.totalSize, 4);
    FromToBytes(h.numHorcruxes, 4);
  }

  lemma PreImageOfParse(b: Bytes)
    requires |b| == PRE_SIZE
    ensures PreImage(ParsePre(b)) == b
  {
    ToFromBytes(b[..8]);
    ToFromBytes(b[8..12]);
    ToFromBytes(b[12..]);
    assert b == b[..8] + b[8..12] + b[12..];
  }

  lemma ParseOfRequestImage(h: RequestHeader, padding: Bytes)
    requires |padding| == PADDING
    ensures ParseRequest(RequestImage(h, padding)) == h
  {
    Pow256Words();
    var b := RequestImage(h, padding);
    assert b[..8] == ToBytes(h.uuid, 8) && b[8..12] == ToBytes(h.index, 4);
    assert b[12..16] == ToBytes(h.contentSize, 4) && b[16..20] == ToBytes(h.checksumSize, 4);
    FromToBytes(h.uuid, 8);
    FromToBytes(h.index, 4);
    FromToBytes(h.contentSize, 4);
    FromToBytes(h.checksumSize, 4);
  }

  /** Only the padding is lost: re-serializing agrees with the original on every other byte. */
  lemma RequestImageOfParse(b: Bytes, padding: Bytes)
    requires |b| == REQUEST_SIZE && |padding| == PADDING
    ensures RequestImage(ParseRequest(b), padding) == b[..20] + padding
  {
    ToFromBytes(b[..8]);
    ToFromBytes(b[8..12]);
    ToFromBytes(b[12..16]);
    ToFromBytes(b[16..20]);
    assert b[..20] == b[..8] + b[8..12] + b[12..16] + b[16..20];
  }

  // ---------------------------------------------------------------------------
  // The copies, in place
  // ---------------------------------------------------------------------------

  function Overwritten(b: Bytes, offset: nat, field: Bytes): (r: Bytes)
    requires offset + |field| <= |b|
    ensures |r| == |b|
  {
    b[..offset] + field + b[offset + |field|..]
  }

  /** Lays `n` out at `offset` in the struct's memory. */
  method WriteField(memory: array<byte>, offset: nat, width: nat, n: nat)
    requires offset + width <= memory.Length
    modifies memory
    ensures memory[..] == Overwritten(old(memory[..]), offset, ToBytes(n, width))
  {
    ghost var bytes := ToBytes(n, width);
    var rest, i := n, 0;
    while i < width
      invariant 0 <= i <= width && rest >= 0
      invariant bytes[i..] == ToBytes(rest, width - i)
      invariant forall k :: 0 <= k < i ==> memory[offset + k] == bytes[k]
      invariant forall k :: 0 <= k < memory.Length && !(offset <= k < offset + i) ==> memory[k] == old(memory[k])
    {
      assert bytes[i] == bytes[i..][0] == rest % 256;
      assert bytes[i + 1..] == bytes[i..][1..];
      memory[offset + i] := rest % 256;
      rest, i := rest / 256, i + 1;
    }
    assert memory[offset..offset + width] == bytes;
    assert memory[..] == memory[..offset] + memory[offset..offset + width] + memory[offset + width..];
  }

  method ReadField(memory: array<byte>, offset: nat, width: nat) returns (n: nat)
    requires offset + width <= memory.Length
    ensures n == FromBytes(memory[offset..offset + width])
  {
    n := 0;
    var i := width;
    assert memory[offset + i..offset + width] == [];
    while i > 0
      invariant 0 <= i <= width
      invariant n == FromBytes(memory[offset + i..offset + width])
    {
      i := i - 1;
      n := memory[offset + i] + 256 * n;
      assert memory[offset + i..offset + width] == [memory[offset + i]] + memory[offset + i + 1..offset + width];
    }
  }

  /** Writing a field behind a finished prefix extends the prefix by it. */
  lemma FieldAppended(b: Bytes, offset: nat, field: Bytes)
    requires offset + |field| <= |b|
    ensures Overwritten(b, offset, field)[..offset + |field|] == b[..offset] + field
  {
  }

  lemma FirstField(b: Bytes, field: Bytes)
    requires |field| <= |b|
    ensures Overwritten(b, 0, field)[..|field|] == field
  {
  }

  method SerializePreRequestHeader(header: PreRequestHeader) returns (serialized: array<byte>)
    ensures fresh(serialized) && serialized[..] == PreImage(header)
  {
    serialized := new byte[PRE_SIZE];
    ghost var s0 := serialized[..];
    WriteField(serialized, 0, 8, header.uuid);
    ghost var s1 := serialized[..];
    WriteField(serialized, 8, 4, header.totalSize);
    ghost var s2 := serialized[..];
    WriteField(serialized, 12, 4, header.numHorcruxes);
    FirstField(s0, ToBytes(header.uuid, 8));
    FieldAppended(s1, 8, ToBytes(header.totalSize, 4));
    FieldAppended(s2, 12, ToBytes(header.numHorcruxes, 4));
  }

  /** The four fields written one after the other into memory that held `b`. */
  function LaidOut(header: RequestHeader, b: Bytes): (r: Bytes)
    requires |b| == REQUEST_SIZE
    ensures |r| == REQUEST_SIZE
  {
    var b1 := Overwritten(b, 0, ToBytes(header.uuid, 8));
    var b2 := Overwritten(b1, 8, ToBytes(header.index, 4));
    var b3 := Overwritten(b2, 12, ToBytes(header.contentSize, 4));
    Overwritten(b3, 16, ToBytes(header.checksumSize, 4))
  }

  lemma FieldsThenPadding(header: RequestHeader, b1: Bytes, b2: Bytes, b3: Bytes, b: Bytes)
    requires |b1| == |b2| == |b3| == |b| == REQUEST_SIZE && b1[..8] == ToBytes(header.uuid, 8)
    requires b2[..12] == b1[..8] + ToBytes(header.index, 4)
    requires b3[..16] == b2[..12] + ToBytes(header.contentSize, 4)
    requires b[..20] == b3[..16] + ToBytes(header.checksumSize, 4)
    ensures b == RequestImage(header, b[20..])
  {
    assert b == b[..20] + b[20..];
  }

  lemma LaidOutIsImage(header: RequestHeader, b: Bytes)
    requires |b| == REQUEST_SIZE
    ensures LaidOut(header, b) == RequestImage(header, LaidOut(header, b)[20..])
  {
    var b1 := Overwritten(b, 0, ToBytes(header.uuid, 8));
    var b2 := Overwritten(b1, 8, ToBytes(header.index, 4));
    var b3 := Overwritten(b2, 12, ToBytes(header.contentSize, 4));
    FirstField(b, ToBytes(header.uuid, 8));
    FieldAppended(b1, 8, ToBytes(header.index, 4));
    FieldAppended(b2, 12, ToBytes(header.contentSize, 4));
    FieldAppended(b3, 16, ToBytes(header.checksumSize, 4));
    FieldsThenPadding(header, b1, b2, b3, LaidOut(header, b));
  }

  method SerializeRequestHeader(header: RequestHeader) returns (serialized: array<byte>)
    ensures fresh(serialized) && serialized.Length == REQUEST_SIZE
    ensures serialized[..] == RequestImage(header, serialized[..][20..])
  {
    serialized := new byte[REQUEST_SIZE];
    ghost var before := serialized[..];
    WriteField(serialized, 0, 8, header.uuid);
    WriteField(serialized, 8, 4, header.index);
    WriteField(serialized, 12, 4, header.contentSize);
    WriteField(serialized, 16, 4, header.checksumSize);
    LaidOutIsImage(header, before);
  }

  method DeserializePreRequestHeader(binaries: array<byte>) returns (header: PreRequestHeader)
    requires binaries.Length == PRE_SIZE
    ensures header == ParsePre(binaries[..])
    ensures PreImage(header) == binaries[..]
  {
    Pow256Words();
    var uuid := ReadField(binaries, 0, 8);
    var totalSize := ReadField(binaries, 8, 4);
    var numHorcruxes := ReadField(binaries, 12, 4);
    header := PreRequestHeader(uuid, totalSize, numHorcruxes);
    var b := binaries[..];
    assert b[..8] == binaries[0..8] && b[8..12] == binaries[8..12] && b[12..] == binaries[12..16];
    PreImageOfParse(b);
  }

  method DeserializeRequestHeader(binaries: array<byte>) returns (header: RequestHeader)
    requires binaries.Length == REQUEST_SIZE
    ensures header == ParseRequest(binaries[..])
    ensures RequestImage(header, binaries[20..]) == binaries[..]
  {
    Pow256Words();
    var uuid := ReadField(binaries, 0, 8);
    var index := ReadField(binaries, 8, 4);
    var contentSize := ReadField(binaries, 12, 4);
    var checksumSize := ReadField(binaries, 16, 4);
    header := RequestHeader(uuid, index, contentSize, checksumSize);
    var b := binaries[..];
    assert b[..8] == binaries[0..8] && b[8..12] == binaries[8..12];
    assert b[12..16] == binaries[12..16] && b[16..20] == binaries[16..20];
    RequestImageOfParse(b, binaries[20..]);
    assert b == b[..20] + binaries[20..];
  }
}
