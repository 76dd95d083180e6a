/** `BasicFileSplitter`: cutting a file into pieces with 32-bit offsets, and gluing it back. */
module Splitter {
  import opened MachineTypes

  datatype HorcruxData = HorcruxData(content: Bytes, checksum: Bytes)

  function Contents(horcruxes: seq<HorcruxData>): (r: seq<Bytes>)
    ensures |r| == |horcruxes|
    ensures forall i :: 0 <= i < |r| ==> r[i] == horcruxes[i].content
  {
    seq(|horcruxes|, i requires 0 <= i < |horcruxes| => horcruxes[i].content)
  }

  // ---------------------------------------------------------------------------
  // Offsets, as the machine computes them
  // ---------------------------------------------------------------------------

  /** The quotient is computed in 64 bits and stored in 32. */
  function PieceSize(length: nat, numSplits: nat): uint32
    requires numSplits > 0
  {
    Wrap32(length / numSplits)
  }

  /** `index * horcruxSize` in `uint32_t`. */
  function BeginOf(length: nat, numSplits: nat, index: nat): nat
    requires numSplits > 0
  {
    Wrap32(index * PieceSize(length, numSplits))
  }

  function EndOf(length: nat, numSplits: nat, index: nat): nat
    requires numSplits > 0
  {
    if index != numSplits - 1 then BeginOf(length, numSplits, index + 1) else length
  }

  /** Quotient and products lose exactly their high bits, whatever the length and the count. */
  lemma OffsetsWrap(length: nat, numSplits: nat, index: nat)
    requires numSplits > 0
    ensures (length / numSplits - PieceSize(length, numSplits)) % TWO_32 == 0
    ensures (index * PieceSize(length, numSplits) - BeginOf(length, numSplits, index)) % TWO_32 == 0
    ensures EndOf(length, numSplits, numSplits - 1) == length
    ensures index != numSplits - 1 ==> EndOf(length, numSplits, index) == BeginOf(length, numSplits, index + 1)
  {
  }

  predicate RangeOk(length: nat, numSplits: nat, index: nat)
    requires numSplits > 0
  {
    BeginOf(length, numSplits, index) <= EndOf(length, numSplits, index) <= length
  }

  /** What the caller can check beforehand: the last offset fits in 32 bits. */
  predicate Splittable(length: nat, numSplits: nat) {
    0 < numSplits <= length && (numSplits - 1) * PieceSize(length, numSplits) < TWO_32
  }

  lemma OffsetBelowLength(length: nat, numSplits: nat, index: nat)
    requires 0 < numSplits && index < numSplits
    ensures index * PieceSize(length, numSplits) <= length
  {
    var q := length / numSplits;
    assert PieceSize(length, numSplits) <= q;
    assert numSplits * q <= length;
    MulMonotone(index, numSplits, PieceSize(length, numSplits), q);
  }

  lemma MulMonotone(a: nat, b: nat, x: nat, y: nat)
    requires a <= b && x <= y
    ensures a * x <= b * y
  {
    assert a * x <= a * y;
    assert a * y <= b * y;
  }

  lemma OffsetExact(length: nat, numSplits: nat, index: nat)
    requires Splittable(length, numSplits) && index < numSplits
    ensures BeginOf(length, numSplits, index) == index * PieceSize(length, numSplits) <= length
  {
    MulMonotone(index, numSplits - 1, PieceSize(length, numSplits), PieceSize(length, numSplits));
    OffsetBelowLength(length, numSplits, index);
  }

  /** While offsets stay ordered they have not wrapped: a step smaller than 2^32 cannot wrap and still grow. */
  lemma {:induction false} OrderedOffsetsAreExact(length: nat, numSplits: nat, index: nat)
    requires 0 < numSplits && index < numSplits
    requires forall i :: 0 <= i < index ==> RangeOk(length, numSplits, i)
    ensures BeginOf(length, numSplits, index) == index * PieceSize(length, numSplits)
    ensures index * PieceSize(length, numSplits) < TWO_32
  {
    var size := PieceSize(length, numSplits);
    if index > 0 {
      OrderedOffsetsAreExact(length, numSplits, index - 1);
      assert RangeOk(length, numSplits, index - 1);
      assert index * size == (index - 1) * size + size;
    }
  }

  /** The exact condition under which every piece is a well-formed range of the file. */
  lemma SplittableIff(length: nat, numSplits: nat)
    requires 0 < numSplits <= length
    ensures Splittable(length, numSplits) <==> forall i :: 0 <= i < numSplits ==> RangeOk(length, numSplits, i)
  {
    if Splittable(length, numSplits) {
      forall i | 0 <= i < numSplits ensures RangeOk(length, numSplits, i) {
        OffsetExact(length, numSplits, i);
        if i < numSplits - 1 {
          OffsetExact(length, numSplits, i + 1);
          var size := PieceSize(length, numSplits);
          assert (i + 1) * size == i * size + size;
        }
      }
    }
    if forall i :: 0 <= i < numSplits ==> RangeOk(length, numSplits, i) {
      OrderedOffsetsAreExact(length, numSplits, numSplits - 1);
    }
  }

  /** Every file below 4 GiB splits. */
  lemma SmallFilesSplit(length: nat, numSplits: nat)
    requires 0 < numSplits <= length < TWO_32
    ensures Splittable(length, numSplits)
  {
    OffsetBelowLength(length, numSplits, numSplits - 1);
  }

  /** The condition is not idle: this file is large enough for a product to wrap. */
  lemma SomeFileDoesNotSplit()
    ensures !Splittable(3 * TWO_31, 3)
    ensures !RangeOk(3 * TWO_31, 3, 1)
  {
    assert 3 * TWO_31 / 3 == TWO_31;
    assert PieceSize(3 * TWO_31, 3) == TWO_31;
    assert BeginOf(3 * TWO_31, 3, 1) == TWO_31;
    assert BeginOf(3 * TWO_31, 3, 2) == 0;
  }

  // ---------------------------------------------------------------------------
  // Pieces
  // ---------------------------------------------------------------------------

  function Piece(data: Bytes, numSplits: nat, index: nat): Bytes
    requires numSplits > 0 && RangeOk(|data|, numSplits, index)
  {
    data[BeginOf(|data|, numSplits, index)..EndOf(|data|, numSplits, index)]
  }

  ghost predicate ArePieces(data: Bytes, numSplits: nat, parts: seq<Bytes>) {
    && 0 < numSplits && |parts| <= numSplits
    && forall i :: 0 <= i < |parts| ==> RangeOk(|data|, numSplits, i) && parts[i] == Piece(data, numSplits, i)
  }

  /** Neighbouring ranges share their end point, wrapped or not, so ordered pieces always glue back together. */
  lemma {:induction false} PiecesCover(data: Bytes, numSplits: nat, parts: seq<Bytes>)
    requires ArePieces(data, numSplits, parts) && |parts| > 0
    ensures EndOf(|data|, numSplits, |parts| - 1) <= |data|
    ensures Flatten(parts) == data[..EndOf(|data|, numSplits, |parts| - 1)]
  {
    var last := |parts| - 1;
    FlattenSnoc(parts[..last], parts[last]);
    assert parts == parts[..last] + [parts[last]];
    assert RangeOk(|data|, numSplits, last);
    if last == 0 {
      assert BeginOf(|data|, numSplits, 0) == 0;
    } else {
      PiecesCover(data, numSplits, parts[..last]);
      assert EndOf(|data|, numSplits, last - 1) == BeginOf(|data|, numSplits, last);
    }
  }

  /** Split, then join, gives the file back. */
  lemma SplitThenJoin(data: Bytes, numSplits: nat, parts: seq<Bytes>)
    requires ArePieces(data, numSplits, parts) && |parts| == numSplits
    ensures Flatten(parts) == data
  {
    PiecesCover(data, numSplits, parts);
  }

  /** Every piece but the last has the size the 32-bit quotient says; the last takes what is left. */
  lemma PieceLength(data: Bytes, numSplits: nat, index: nat)
    requires Splittable(|data|, numSplits) && index < numSplits
    ensures RangeOk(|data|, numSplits, index)
    ensures var size := PieceSize(|data|, numSplits);
            |Piece(data, numSplits, index)| == if index < numSplits - 1 then size else |data| - (numSplits - 1) * size
  {
    SplittableIff(|data|, numSplits);
    assert RangeOk(|data|, numSplits, index);
    var size := PieceSize(|data|, numSplits);
    OffsetExact(|data|, numSplits, index);
    if index < numSplits - 1 {
      OffsetExact(|data|, numSplits, index + 1);
      assert (index + 1) * size == index * size + size;
    }
  }

  /** Pieces are even, the remainder going to the last one, exactly when the stored quotient lost no bits. */
  lemma EvenPiecesIff(data: Bytes, numSplits: nat, parts: seq<Bytes>)
    requires ArePieces(data, numSplits, parts) && |parts| == numSplits && Splittable(|data|, numSplits)
    ensures var q := |data| / numSplits;
            (numSplits == 1 || q < TWO_32) <==>
            forall i :: 0 <= i < numSplits ==>
              |parts[i]| == (if i < numSplits - 1 then q else q + |data| % numSplits)
  {
    var q, last := |data| / numSplits, numSplits - 1;
    var size := PieceSize(|data|, numSplits);
    assert |data| - last * q == q + |data| % numSplits by {
      assert |data| == numSplits * q + |data| % numSplits;
      assert numSplits * q == last * q + q;
    }
    forall i | 0 <= i < numSplits ensures |parts[i]| == if i < last then size else |data| - last * size {
      PieceLength(data, numSplits, i);
    }
    if numSplits > 1 && q >= TWO_32 {
      assert |parts[0]| == size != q;
    }
  }

  lemma PieceNonempty(data: Bytes, numSplits: nat, index: nat)
    requires Splittable(|data|, numSplits) && |data| / numSplits < TWO_32 && index < numSplits
    ensures RangeOk(|data|, numSplits, index) && |Piece(data, numSplits, index)| > 0
  {
    var q, last := |data| / numSplits, numSplits - 1;
    PieceLength(data, numSplits, index);
    QuotientPositive(|data|, numSplits);
    assert |data| >= numSplits * q == last * q + q;
  }

  lemma QuotientPositive(n: nat, d: nat)
    requires 0 < d <= n
    ensures n / d > 0
  {
    assert n == d * (n / d) + n % d;
  }

  /** If every piece can announce its size in 32 bits, then the piece size itself lost no bits. */
  lemma AnnounceableIsEven(data: Bytes, numSplits: nat)
    requires Splittable(|data|, numSplits)
    requires |data| - BeginOf(|data|, numSplits, numSplits - 1) < TWO_32
    ensures |data| / numSplits < TWO_32
  {
    var q, last := |data| / numSplits, numSplits - 1;
    var size := PieceSize(|data|, numSplits);
    OffsetExact(|data|, numSplits, last);
    assert |data| >= numSplits * q == last * q + q;
    MulMonotone(last, last, size, q);
  }

  // ---------------------------------------------------------------------------
  // The loops
  // ---------------------------------------------------------------------------

  /** The checksum method is a stub that gives nothing. */
  predicate NoChecksums(horcruxes: seq<HorcruxData>) {
    forall i :: 0 <= i < |horcruxes| ==> horcruxes[i].checksum == []
  }

  lemma OneMorePiece(data: Bytes, numSplits: nat, horcruxes: seq<HorcruxData>)
    requires ArePieces(data, numSplits, Contents(horcruxes)) && NoChecksums(horcruxes)
    requires |horcruxes| < numSplits && RangeOk(|data|, numSplits, |horcruxes|)
    ensures var more := horcruxes + [HorcruxData(Piece(data, numSplits, |horcruxes|), [])];
            ArePieces(data, numSplits, Contents(more)) && NoChecksums(more)
  {
    var piece := Piece(data, numSplits, |horcruxes|);
    assert Contents(horcruxes + [HorcruxData(piece, [])]) == Contents(horcruxes) + [piece];
  }

  /**
   * Cuts `binaryData`. A range whose end precedes its begin makes the string constructor throw.
   * The loop index is an `int32_t`, hence the bound on a count that is not refused.
   */
  method Split(binaryData: Bytes, numSplits: uint32) returns (r: Result<seq<HorcruxData>>)
    requires numSplits < TWO_31 || |binaryData| < numSplits
    ensures numSplits == 0 || |binaryData| < numSplits ==> r == Ok([])
    ensures 0 < numSplits <= |binaryData| ==>
              (r.Ok? <==> Splittable(|binaryData|, numSplits))
              && (r.Ok? ==> |r.value| == numSplits
                            && ArePieces(binaryData, numSplits, Contents(r.value))
                            && Flatten(Contents(r.value)) == binaryData)
    ensures r.Ok? ==> NoChecksums(r.value)
  {
    if numSplits == 0 {
      return Ok([]);
    }
    if |binaryData| < numSplits {
      return Ok([]);
    }
    SplittableIff(|binaryData|, numSplits);
    var horcruxes: seq<HorcruxData> := [];
    var horcruxSize := Wrap32(|binaryData| / numSplits);
    for index := 0 to numSplits
      invariant |horcruxes| == index
      invariant ArePieces(binaryData, numSplits, Contents(horcruxes))
      invariant NoChecksums(horcruxes)
    {
      var begin := Wrap32(index * horcruxSize);
      var end := if index != numSplits - 1 then Wrap32((index + 1) * horcruxSize) else |binaryData|;
      OffsetBelowLength(|binaryData|, numSplits, index);
      if index < numSplits - 1 {
        OffsetBelowLength(|binaryData|, numSplits, index + 1);
      }
      if end < begin {
        assert !RangeOk(|binaryData|, numSplits, index);
        return Throws;
      }
      assert RangeOk(|binaryData|, numSplits, index);
      OneMorePiece(binaryData, numSplits, horcruxes);
      horcruxes := horcruxes + [HorcruxData(binaryData[begin..end], [])];
    }
    forall i | 0 <= i < numSplits ensures RangeOk(|binaryData|, numSplits, i) {
      assert Contents(horcruxes)[i] == Piece(binaryData, numSplits, i);
    }
    SplitThenJoin(binaryData, numSplits, Contents(horcruxes));
    r := Ok(horcruxes);
  }

  method Join(horcruxes: seq<HorcruxData>) returns (joined: Bytes)
    ensures joined == Flatten(Contents(horcruxes))
  {
    // The reservation may wrap; it only affects capacity.
    var totalByteSize: uint32 := 0;
    for i := 0 to |horcruxes| {
      totalByteSize := Wrap32(totalByteSize + |horcruxes[i].content|);
    }
    joined := [];
    for i := 0 to |horcruxes|
      invariant joined == Flatten(Contents(horcruxes)[..i])
    {
      var all := Contents(horcruxes);
      assert all[..i + 1] == all[..i] + [horcruxes[i].content];
      FlattenSnoc(all[..i], horcruxes[i].content);
      joined := joined + horcruxes[i].content;
    }
    assert Contents(horcruxes)[..|horcruxes|] == Contents(horcruxes);
  }
}
