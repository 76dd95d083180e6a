/** What the client prepares before its first write, and the conditions one can check beforehand. */
module Preparation {
  import opened MachineTypes
  import opened Headers
  import opened Splitter
  import opened Connection
  import opened Protocol

  /** What the splitter produced for the client, with its padding. */
  ghost predicate Prepared(data: Bytes, numSplits: nat, job: Job) {
    && 0 < numSplits < TWO_31 && Splittable(|data|, numSplits)
    && |job.parts| == numSplits && ArePieces(data, numSplits, job.parts)
    && |job.padding| == numSplits && (forall i :: 0 <= i < numSplits ==> |job.padding[i]| == PADDING)
  }

  /** Every piece can announce its size: on files below 4 GiB always, see `SmallFileIsAnnounceable`. */
  predicate Announceable(length: nat, numSplits: nat)
    requires numSplits > 0
  {
    length - BeginOf(length, numSplits, numSplits - 1) < TWO_32
  }

  lemma SmallFileIsAnnounceable(length: nat, numSplits: nat)
    requires 0 < numSplits <= length < TWO_32
    ensures Splittable(length, numSplits) && Announceable(length, numSplits)
  {
    SmallFilesSplit(length, numSplits);
  }

  /** The pieces make a legal job: nonempty, and none too long for its size field. */
  lemma PreparedJobOk(data: Bytes, numSplits: nat, job: Job)
    requires Prepared(data, numSplits, job) && Announceable(|data|, numSplits)
    ensures JobOk(job) && Flatten(job.parts) == data
  {
    AnnounceableIsEven(data, numSplits);
    forall i | 0 <= i < numSplits ensures 0 < |job.parts[i]| < TWO_32 {
      PieceNonempty(data, numSplits, i);
      PieceLength(data, numSplits, i);
      OffsetExact(|data|, numSplits, numSplits - 1);
    }
    SplitThenJoin(data, numSplits, job.parts);
  }

  /** What the caller can check beforehand: the two limits, as the wire fields present them to the server. */
  predicate WithinLimits(length: nat, numSplits: nat) {
    numSplits <= MAX_NUM_HORCRUXES && Wrap32(length) <= MAX_TOTAL_SIZE
  }

  /** The size field wraps, so the limit does not keep out a 4 GiB file in twenty pieces. */
  lemma OversizeFileWithinLimits()
    ensures TWO_32 > MAX_TOTAL_SIZE && WithinLimits(TWO_32, 20)
    ensures Splittable(TWO_32, 20) && Announceable(TWO_32, 20)
  {
    assert TWO_32 / 20 == 214748364;
    assert PieceSize(TWO_32, 20) == 214748364;
    assert 19 * PieceSize(TWO_32, 20) == 4080218916;
  }
}
