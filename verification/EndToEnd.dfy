/** From the client's file to the joined file, through every layer. */
module EndToEnd {
  import opened MachineTypes
  import opened Headers
  import opened FileStore
  import opened Splitter
  import opened Connection
  import opened Protocol
  import opened Lockstep
  import opened Preparation
  import opened Termination
  import opened Transfers
  import opened LateFailures
  import WholeStream

  // ---------------------------------------------------------------------------
  // Any transfers, any failures
  // ---------------------------------------------------------------------------

  /** Two things of the file, and one of each side's transfers. */
  ghost predicate GetsThrough(length: nat, numSplits: nat, s: System, es: seq<Event>)
    requires numSplits > 0 && SysOk(s) && ValidRun(s, es)
  {
    && WithinLimits(length, numSplits) && Announceable(length, numSplits)
    && Written(s, es) == Stream(s.job) && ServerReadError !in es
  }

  /**
   * The law the project is for. Whatever the file, its length, the number of pieces, the padding, the other files,
   * the interleaving, the sizes of the client's transfers and whichever reads and writes fail: when nothing can happen
   * any more but failures, joining the saved pieces gives back the file if and only if the announcement is within the
   * limits, every piece can announce its size, the client's writes took the whole stream, and no read of the server
   * failed. No other failure does harm by itself.
   */
  lemma EndToEnd(data: Bytes, numSplits: nat, job: Job, files: Files, es: seq<Event>)
    requires Prepared(data, numSplits, job) && ValidRun(Start(job, files), es)
    requires forall i :: 0 <= i < numSplits ==> Path(job.uuid, i) !in files
    requires Stuck(RunOf(Start(job, files), es))
    ensures Joined(RunOf(Start(job, files), es).files, job.uuid, numSplits) == Ok(data)
            <==> GetsThrough(|data|, numSplits, Start(job, files), es)
    ensures |es| <= Measure(Start(job, files))
  {
    SplitThenJoin(data, numSplits, job.parts);
    RunsAreBounded(Start(job, files), es);
    WholeStream.FileComesBackIff(data, numSplits, job, files);
    if Joined(RunOf(Start(job, files), es).files, job.uuid, numSplits) == Ok(data) {
      JoinedNeedsWholeWrites(job, files, es);
    }
    if GetsThrough(|data|, numSplits, Start(job, files), es) {
      EverythingWrittenSuffices(job, files, es);
    }
  }

  /** The same in terms of single transfers: every write and the first read were whole. */
  ghost predicate NothingGoesWrong(length: nat, numSplits: nat, s: System, es: seq<Event>)
    requires numSplits > 0 && SysOk(s) && ValidRun(s, es)
  {
    && WithinLimits(length, numSplits) && Announceable(length, numSplits)
    && WritesWhole(s, es) && FirstRead(es) == Some(|SUCCESS|) && ServerReadError !in es
  }

  /**
   * When nothing fails before the client's last byte is written, its writes take the whole stream exactly if each of
   * them is whole and the first reply is read whole. Short reads of later replies do no harm.
   */
  lemma WithoutEarlyFailures(data: Bytes, numSplits: nat, job: Job, files: Files, es: seq<Event>)
    requires Prepared(data, numSplits, job) && ValidRun(Start(job, files), es) && FailsLate(Start(job, files), es)
    requires forall i :: 0 <= i < numSplits ==> Path(job.uuid, i) !in files
    requires Stuck(RunOf(Start(job, files), es))
    ensures Joined(RunOf(Start(job, files), es).files, job.uuid, numSplits) == Ok(data)
            <==> NothingGoesWrong(|data|, numSplits, Start(job, files), es)
  {
    EndToEnd(data, numSplits, job, files, es);
    if Joined(RunOf(Start(job, files), es).files, job.uuid, numSplits) == Ok(data) {
      SavedFileNeedsWholeTransfers(data, numSplits, job, files, es);
    }
    if NothingGoesWrong(|data|, numSplits, Start(job, files), es) {
      PreparedJobOk(data, numSplits, job);
      WholeWritesSuffice(job, files, es);
    }
  }

  /** What a joined file needs holds at every moment of every run, not only when it is over. */
  lemma SavedFileNeedsWholeTransfers(data: Bytes, numSplits: nat, job: Job, files: Files, es: seq<Event>)
    requires Prepared(data, numSplits, job) && ValidRun(Start(job, files), es)
    requires forall i :: 0 <= i < numSplits ==> Path(job.uuid, i) !in files
    requires Joined(RunOf(Start(job, files), es).files, job.uuid, numSplits) == Ok(data)
    ensures GetsThrough(|data|, numSplits, Start(job, files), es) && ClientWriteError !in es
    ensures NothingGoesWrong(|data|, numSplits, Start(job, files), es)
  {
    SplitThenJoin(data, numSplits, job.parts);
    JoinedNeedsWholeWrites(job, files, es);
    WholeStream.FileComesBackIff(data, numSplits, job, files);
  }

  // ---------------------------------------------------------------------------
  // Whole transfers
  // ---------------------------------------------------------------------------

  /** A run that cannot go on has finished on both sides with nothing left on the wire. */
  lemma MaximalRunFinishes(s: System, files: Files)
    requires SysInv(s, files)
    requires forall e :: Enabled(s, e) ==> !Whole(s, e)
    ensures s.client.phase.Done? && s.toServer == s.link.inbox == s.toClient == []
    ensures Acceptable(s.job) ==> s.link.conn.phase.Saved? && s.files == SaveAll(files, s.job.uuid, s.job.parts)
                                  && s.client.answers == s.link.conn.replies
    ensures !Acceptable(s.job) ==> s.link.conn.phase.Rejected? && s.files == files && s.client.answers == [false]
  {
    if !Finished(s) {
      Progress(s, files);
      assert false;
    }
    RepliesStayInStep(s, EndsOf(s.job, files));
    if Acceptable(s.job) {
      assert AfterPieces(s, EndsOf(s.job, files), |s.link.conn.replies| - 1);
    }
  }

  /**
   * With whole transfers the two sides go in lockstep, both finish, and the file comes back exactly within the
   * limits; otherwise nothing was stored.
   */
  lemma WholeTransfers(data: Bytes, numSplits: nat, job: Job, files: Files, es: seq<Event>)
    requires Prepared(data, numSplits, job) && Announceable(|data|, numSplits)
    requires forall i :: 0 <= i < numSplits ==> Path(job.uuid, i) !in files
    requires WholeRun(Start(job, files), es) && ValidRun(Start(job, files), es)
    requires forall e :: Enabled(RunOf(Start(job, files), es), e) ==> !Whole(RunOf(Start(job, files), es), e)
    ensures var end := RunOf(Start(job, files), es);
            && end.client.phase.Done?
            && (Joined(end.files, job.uuid, numSplits) == Ok(data) <==> WithinLimits(|data|, numSplits))
            && (!WithinLimits(|data|, numSplits) ==> end.files == files)
  {
    PreparedJobOk(data, numSplits, job);
    var s := Start(job, files);
    StartInv(job, files);
    RunKeepsInv(s, es, files);
    var end := RunOf(s, es);
    MaximalRunFinishes(end, files);
    assert Acceptable(job) <==> WithinLimits(|data|, numSplits);
    if Acceptable(job) {
      JoinAfterSave(files, job.uuid, job.parts);
    } else {
      JoinedThrows(files, job.uuid, numSplits);
      assert Path(job.uuid, 0) !in files;
    }
  }

  /** In particular for every file and count the documentation promises: up to 20 pieces, up to 10 MB. */
  lemma PromisedFilesSurvive(data: Bytes, numSplits: nat, job: Job, files: Files, es: seq<Event>)
    requires 1 <= numSplits <= MAX_NUM_HORCRUXES && numSplits <= |data| <= MAX_TOTAL_SIZE
    requires |job.parts| == numSplits && ArePieces(data, numSplits, job.parts)
    requires |job.padding| == numSplits && (forall i :: 0 <= i < numSplits ==> |job.padding[i]| == PADDING)
    requires forall i :: 0 <= i < numSplits ==> Path(job.uuid, i) !in files
    requires WholeRun(Start(job, files), es) && ValidRun(Start(job, files), es)
    requires forall e :: Enabled(RunOf(Start(job, files), es), e) ==> !Whole(RunOf(Start(job, files), es), e)
    ensures Joined(RunOf(Start(job, files), es).files, job.uuid, numSplits) == Ok(data)
  {
    SmallFileIsAnnounceable(|data|, numSplits);
    WholeTransfers(data, numSplits, job, files, es);
  }
}
