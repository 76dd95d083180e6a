/** The part of the client program before its first write: load, split, announce, serialize. */
module ClientProgram {
  import opened MachineTypes
  import opened Headers
  import opened FileStore
  import opened Splitter
  import opened Requests
  import opened Protocol
  import opened Preparation

  /** The buffers the client is going to write, in order. */
  datatype Outbox = Outbox(pre: Bytes, headers: seq<Bytes>, contents: seq<Bytes>)

  /** The buffers are those of the job whose runs the protocol describes. */
  ghost predicate CarriesJob(outbox: Outbox, job: Job) {
    && outbox.pre == PreBytes(job) && outbox.contents == job.parts
    && |outbox.headers| == |job.parts| == |job.padding|
    && (forall i :: 0 <= i < |job.padding| ==> |job.padding[i]| == PADDING)
    && (forall i :: 0 <= i < |job.parts| ==> outbox.headers[i] == HeaderBytes(job, i))
  }

  /** The header buffers the send loop fills one by one, and the stray bytes at their ends. */
  method SerializeAll(requests: seq<Request>) returns (headers: seq<Bytes>, ghost padding: seq<Bytes>)
    ensures |headers| == |padding| == |requests|
    ensures forall i :: 0 <= i < |padding| ==> |padding[i]| == PADDING
    ensures forall i :: 0 <= i < |requests| ==> headers[i] == RequestImage(requests[i].header, padding[i])
  {
    headers, padding := [], [];
    for i := 0 to |requests|
      invariant |headers| == |padding| == i
      invariant forall j :: 0 <= j < i ==> |padding[j]| == PADDING
      invariant forall j :: 0 <= j < i ==> headers[j] == RequestImage(requests[j].header, padding[j])
    {
      var serialized := SerializeRequestHeader(requests[i].header);
      headers := headers + [serialized[..]];
      padding := padding + [serialized[..][20..]];
    }
  }

  /** Some(outbox) to send, None when the program gives up (missing file, or no pieces), or an exception. */
  method Prepare(directory: Directory, inputPath: string, horcruxCount: uint32, uuid: uint64)
    returns (r: Result<Option<Outbox>>, ghost job: Job)
    requires inputPath in directory.files ==> horcruxCount < TWO_31 || |directory.files[inputPath]| < horcruxCount
    ensures inputPath !in directory.files ==> r == Ok(None)
    ensures inputPath in directory.files ==>
              var data := directory.files[inputPath];
              && (r == Ok(None) <==> horcruxCount == 0 || |data| < horcruxCount)
              && (r.Throws? <==> 0 < horcruxCount <= |data| && !Splittable(|data|, horcruxCount))
              && (r.Ok? && r.value.Some? ==>
                    job.uuid == uuid && Prepared(data, horcruxCount, job) && CarriesJob(r.value.value, job))
  {
    job := Job(uuid, [], []);
    var binaries := directory.LoadFile(inputPath);
    if binaries.None? {
      return Ok(None), job;
    }
    var split := Split(binaries.value, horcruxCount);
    if split.Throws? {
      return Throws, job;
    }
    var horcruxes := split.value;
    if horcruxes == [] {
      return Ok(None), job;
    }
    var preRequest := PreRequestFromHorcruxes(uuid, horcruxes);
    var pre := SerializePreRequestHeader(preRequest);
    var requests := RequestsFromHorcruxes(uuid, horcruxes);
    var headers, padding := SerializeAll(requests);
    job := Job(uuid, Contents(horcruxes), padding);
    r := Ok(Some(Outbox(pre[..], headers, Contents(horcruxes))));
  }
}
