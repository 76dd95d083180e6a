/** Building the messages of one transmission from its pieces. */
module Requests {
  import opened MachineTypes
  import opened Headers
  import opened Splitter

  datatype Request = Request(header: RequestHeader, content: Bytes, checksum: Bytes)

  function TotalSize(horcruxes: seq<HorcruxData>): nat {
    if horcruxes == [] then 0 else TotalSize(horcruxes[..|horcruxes| - 1]) + |horcruxes[|horcruxes| - 1].content|
  }

  /** No byte is counted twice or lost. */
  lemma {:induction false} TotalSizeIsLength(horcruxes: seq<HorcruxData>)
    ensures TotalSize(horcruxes) == |Flatten(Contents(horcruxes))|
  {
    if horcruxes != [] {
      var last := |horcruxes| - 1;
      TotalSizeIsLength(horcruxes[..last]);
      FlattenSnoc(Contents(horcruxes[..last]), horcruxes[last].content);
      assert Contents(horcruxes) == Contents(horcruxes[..last]) + [horcruxes[last].content];
    }
  }

  /** The size field accumulates in 32 bits, so it announces the true size modulo 2^32. */
  method PreRequestFromHorcruxes(uuid: uint64, horcruxes: seq<HorcruxData>) returns (header: PreRequestHeader)
    ensures header == Announcement(uuid, Contents(horcruxes))
  {
    header := PreRequestHeader(uuid, 0, Wrap32(|horcruxes|));
    for i := 0 to |horcruxes|
      invariant header == PreRequestHeader(uuid, Wrap32(TotalSize(horcruxes[..i])), Wrap32(|horcruxes|))
    {
      assert horcruxes[..i + 1][..i] == horcruxes[..i];
      assert TotalSize(horcruxes[..i + 1]) == TotalSize(horcruxes[..i]) + |horcruxes[i].content|;
      header := header.(totalSize := Wrap32(header.totalSize + |horcruxes[i].content|));
    }
    assert horcruxes[..|horcruxes|] == horcruxes;
    TotalSizeIsLength(horcruxes);
  }

  /** What the pre-request should say about a list of pieces, in the width of its fields. */
  function Announcement(uuid: uint64, parts: seq<Bytes>): PreRequestHeader {
    PreRequestHeader(uuid, Wrap32(|Flatten(parts)|), Wrap32(|parts|))
  }

  /** The request that carries piece `index`. The checksum size is value-initialized and never sent. */
  function RequestHeaderFor(uuid: uint64, parts: seq<Bytes>, index: nat): RequestHeader
    requires index < |parts|
  {
    RequestHeader(uuid, Wrap32(index), Wrap32(|parts[index]|), 0)
  }

  method RequestsFromHorcruxes(uuid: uint64, horcruxes: seq<HorcruxData>) returns (requests: seq<Request>)
    ensures |requests| == |horcruxes|
    ensures forall i :: 0 <= i < |requests| ==>
              && requests[i].header == RequestHeaderFor(uuid, Contents(horcruxes), i)
              && requests[i].content == horcruxes[i].content
              && requests[i].checksum == horcruxes[i].checksum
  {
    requests := [];
    for i := 0 to |horcruxes|
      invariant |requests| == i
      invariant forall j :: 0 <= j < i ==>
                  && requests[j].header == RequestHeaderFor(uuid, Contents(horcruxes), j)
                  && requests[j].content == horcruxes[j].content
                  && requests[j].checksum == horcruxes[j].checksum
    {
      var hcx := horcruxes[i];
      var header := RequestHeader(uuid, Wrap32(|requests|), Wrap32(|hcx.content|), 0);
      requests := requests + [Request(header, hcx.content, hcx.checksum)];
    }
  }
}
