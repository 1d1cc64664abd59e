/**
 * The reorganize-stage writer that moves each file of a chunk and records the
 * outcome in the `files_index` collection (SftpMoveAndIndexItemWriter).
 *
 * For every item, in chunk order, it computes the destination, copies the
 * file, and issues one `updateFirst` on the item's `idUnico`: status SUCCESS
 * with the destination, completion time, duration and `deleted_from_source =
 * false`, or status FAILED with the exception's message. Any exception of the
 * item, the hash failure included, is caught, so a failing item never stops
 * the chunk. The copy itself (read from origin, transfer to destination,
 * close) is an oracle: one `CopyOutcome` per item. Clock readings are given
 * per item as well.
 */
module MoveAndIndexWriter {
  import opened Wrappers
  import opened Domain
  import opened PathResolver
  import opened FilesIndex

  /** What the environment does for one item: the copy, the elapsed milliseconds and the `Instant.now()` of the update. */
  datatype ItemRun = ItemRun(copy: CopyOutcome, durationMs: int, now: int)

  /**
   * The update document `updateReorgStatus` builds: status and one more
   * attempt always; destination, completion, duration and the cleared
   * deleted flag only for SUCCESS; the error only when there is one.
   */
  function StatusUpdate(status: string, destinationPath: Option<string>, durationMs: int,
                        errorDescription: Option<string>, now: int): seq<FieldOp>
  {
    [SetStatus(status), IncAttempts(1)]
    + (if status == SUCCESS
       then [SetDestinationPath(destinationPath), SetCompletedAt(now), SetDurationMs(durationMs), SetDeletedFromSource(false)]
       else [])
    + (if errorDescription.Some? then [SetErrorDescription(errorDescription.value)] else [])
  }

  /** The fields a status update leaves alone and the fields it sets, for any record it is applied to. */
  lemma StatusUpdateEffect(r: FileRecord, status: string, destinationPath: Option<string>, durationMs: int,
                           errorDescription: Option<string>, now: int)
    ensures var u := ApplyAll(r, StatusUpdate(status, destinationPath, durationMs, errorDescription, now));
      var ok := status == SUCCESS;
      u == r.(reorg_status := Some(status),
               reorg_attempts := Some(r.reorg_attempts.GetOr(0) + 1),
               reorg_destinationPath := if ok then destinationPath else r.reorg_destinationPath,
               reorg_completedAt := if ok then Some(now) else r.reorg_completedAt,
               reorg_durationMs := if ok then Some(durationMs) else r.reorg_durationMs,
               deleted_from_source := if ok then Some(false) else r.deleted_from_source,
               reorg_errorDescription := if errorDescription.Some? then errorDescription else r.reorg_errorDescription)
  {
    var head := [SetStatus(status), IncAttempts(1)];
    var middle := if status == SUCCESS
      then [SetDestinationPath(destinationPath), SetCompletedAt(now), SetDurationMs(durationMs), SetDeletedFromSource(false)]
      else [];
    var tail := if errorDescription.Some? then [SetErrorDescription(errorDescription.value)] else [];
    ApplyAllAppend(r, head + middle, tail);
    ApplyAllAppend(r, head, middle);
    ApplyAllSnoc(r, [], SetStatus(status));
    assert [] + [SetStatus(status)] == [SetStatus(status)];
    ApplyAllSnoc(r, [SetStatus(status)], IncAttempts(1));
    assert [SetStatus(status)] + [IncAttempts(1)] == head;
    var r1 := ApplyAll(r, head);
    if status == SUCCESS {
      var m1 := [SetDestinationPath(destinationPath)];
      var m2 := m1 + [SetCompletedAt(now)];
      var m3 := m2 + [SetDurationMs(durationMs)];
      assert [] + m1 == m1;
      ApplyAllSnoc(r1, [], SetDestinationPath(destinationPath));
      ApplyAllSnoc(r1, m1, SetCompletedAt(now));
      ApplyAllSnoc(r1, m2, SetDurationMs(durationMs));
      ApplyAllSnoc(r1, m3, SetDeletedFromSource(false));
      assert m3 + [SetDeletedFromSource(false)] == middle;
    }
    if errorDescription.Some? {
      ApplyAllSnoc(ApplyAll(r, head + middle), [], SetErrorDescription(errorDescription.value));
      assert [] + tail == tail;
    }
  }

  /** What the writer catches for an item, if anything: the hash failure first, then the copy's failure. */
  function FailureOf(sha256: string -> Digest, baseDir: string, digestAvailable: bool,
                     archivo: ArchivoLegacy, run: ItemRun): Option<Option<string>>
  {
    match TryDestinationPath(sha256, archivo, baseDir, digestAvailable)
    case Failure(message) => Some(Some(message))
    case Success(_) => if run.copy.Copied? then None else Some(run.copy.message)
  }

  /** The one `updateFirst` the writer issues for an item. */
  function ItemUpdate(sha256: string -> Digest, baseDir: string, digestAvailable: bool,
                      archivo: ArchivoLegacy, run: ItemRun): (call: UpdateCall)
    ensures call.idUnico == archivo.idUnico
  {
    match FailureOf(sha256, baseDir, digestAvailable, archivo, run)
    case None =>
      UpdateCall(archivo.idUnico,
        StatusUpdate(SUCCESS, Some(DestinationPath(sha256, archivo, baseDir)), run.durationMs, None, run.now))
    case Some(message) =>
      UpdateCall(archivo.idUnico, StatusUpdate(FAILED, None, run.durationMs, message, run.now))
  }

  /**
   * The effect of an item's update on the record it reaches: SUCCESS exactly
   * when the digest exists and the copy went through, with the computed
   * destination, the completion time and duration and `deleted_from_source
   * = false`; otherwise FAILED, with destination, completion, duration and
   * deleted flag untouched and the error recorded only when the exception
   * carries a message. Either way one more attempt, and no other field moves.
   */
  lemma ItemUpdateEffect(sha256: string -> Digest, baseDir: string, digestAvailable: bool,
                         archivo: ArchivoLegacy, run: ItemRun, r: FileRecord)
    ensures var call := ItemUpdate(sha256, baseDir, digestAvailable, archivo, run);
      var u := ApplyAll(r, call.ops);
      var ok := digestAvailable && run.copy.Copied?;
      var message := if !digestAvailable then Some(HASH_FAILURE) else if run.copy.Copied? then None else run.copy.message;
      call.idUnico == archivo.idUnico
      && u.reorg_status == Some(if ok then SUCCESS else FAILED)
      && u.reorg_attempts == Some(r.reorg_attempts.GetOr(0) + 1)
      && (ok ==>
            u.reorg_destinationPath == Some(DestinationPath(sha256, archivo, baseDir))
            && u.reorg_completedAt == Some(run.now)
            && u.reorg_durationMs == Some(run.durationMs)
            && u.deleted_from_source == Some(false)
            && u.reorg_errorDescription == r.reorg_errorDescription)
      && (!ok ==>
            u.reorg_destinationPath == r.reorg_destinationPath
            && u.reorg_completedAt == r.reorg_completedAt
            && u.reorg_durationMs == r.reorg_durationMs
            && u.deleted_from_source == r.deleted_from_source
            && u.reorg_errorDescription == (if message.Some? then message else r.reorg_errorDescription))
      && u.(reorg_status := r.reorg_status, reorg_attempts := r.reorg_attempts,
            reorg_destinationPath := r.reorg_destinationPath, reorg_completedAt := r.reorg_completedAt,
            reorg_durationMs := r.reorg_durationMs, deleted_from_source := r.deleted_from_source,
            reorg_errorDescription := r.reorg_errorDescription) == r
  {
    match FailureOf(sha256, baseDir, digestAvailable, archivo, run)
    case None =>
      StatusUpdateEffect(r, SUCCESS, Some(DestinationPath(sha256, archivo, baseDir)), run.durationMs, None, run.now);
    case Some(message) =>
      StatusUpdateEffect(r, FAILED, None, run.durationMs, message, run.now);
  }

  /** The updates of a whole chunk, in chunk order. */
  function WritePlan(sha256: string -> Digest, baseDir: string, digestAvailable: bool,
                     chunk: seq<ArchivoLegacy>, runs: seq<ItemRun>): (plan: seq<UpdateCall>)
    requires |runs| == |chunk|
    ensures |plan| == |chunk|
  {
    if chunk == [] then []
    else
      WritePlan(sha256, baseDir, digestAvailable, chunk[..|chunk| - 1], runs[..|runs| - 1])
      + [ItemUpdate(sha256, baseDir, digestAvailable, chunk[|chunk| - 1], runs[|runs| - 1])]
  }

  /**
   * Exactly one update per item, in chunk order, and each one depends on its
   * own item and run only: an earlier item's failure changes nothing later.
   */
  lemma {:induction false} WritePlanOnePerItem(sha256: string -> Digest, baseDir: string, digestAvailable: bool,
                                               chunk: seq<ArchivoLegacy>, runs: seq<ItemRun>)
    requires |runs| == |chunk|
    ensures var plan := WritePlan(sha256, baseDir, digestAvailable, chunk, runs);
      forall i :: 0 <= i < |chunk| ==> plan[i] == ItemUpdate(sha256, baseDir, digestAvailable, chunk[i], runs[i])
  {
    if chunk != [] {
      WritePlanOnePerItem(sha256, baseDir, digestAvailable, chunk[..|chunk| - 1], runs[..|runs| - 1]);
    }
  }

  /** Two chunks that agree on item `i` and its run get the same update for it, whatever happens to the others. */
  lemma ItemIndependentOfOthers(sha256: string -> Digest, baseDir: string, digestAvailable: bool,
                                chunk: seq<ArchivoLegacy>, runs: seq<ItemRun>,
                                chunk': seq<ArchivoLegacy>, runs': seq<ItemRun>, i: int)
    requires |runs| == |chunk| && |runs'| == |chunk'|
    requires 0 <= i < |chunk| && i < |chunk'| && chunk[i] == chunk'[i] && runs[i] == runs'[i]
    ensures WritePlan(sha256, baseDir, digestAvailable, chunk, runs)[i]
         == WritePlan(sha256, baseDir, digestAvailable, chunk', runs')[i]
  {
    WritePlanOnePerItem(sha256, baseDir, digestAvailable, chunk, runs);
    WritePlanOnePerItem(sha256, baseDir, digestAvailable, chunk', runs');
  }

  /** How many items of the chunk reach record `j` of the collection. */
  function Hits(records: seq<FileRecord>, chunk: seq<ArchivoLegacy>, j: int): nat {
    if chunk == [] then 0
    else Hits(records, chunk[..|chunk| - 1], j) + (if FirstMatch(records, chunk[|chunk| - 1].idUnico) == j then 1 else 0)
  }

  /**
   * After a chunk, each record has exactly as many more attempts as items
   * that reached it, so attempts never decrease, and a record no item
   * reaches is unchanged.
   */
  lemma {:induction false} WriteCountsAttempts(sha256: string -> Digest, baseDir: string, digestAvailable: bool,
                                               records: seq<FileRecord>, chunk: seq<ArchivoLegacy>, runs: seq<ItemRun>)
    requires |runs| == |chunk|
    ensures var after := UpdatedAll(records, WritePlan(sha256, baseDir, digestAvailable, chunk, runs));
      forall j :: 0 <= j < |records| ==>
        after[j].reorg_attempts.GetOr(0) == records[j].reorg_attempts.GetOr(0) + Hits(records, chunk, j)
        && (Hits(records, chunk, j) == 0 ==> after[j] == records[j])
  {
    if chunk != [] {
      var n := |chunk| - 1;
      var before := WritePlan(sha256, baseDir, digestAvailable, chunk[..n], runs[..n]);
      var call := ItemUpdate(sha256, baseDir, digestAvailable, chunk[n], runs[n]);
      assert WritePlan(sha256, baseDir, digestAvailable, chunk, runs) == before + [call];
      WriteCountsAttempts(sha256, baseDir, digestAvailable, records, chunk[..n], runs[..n]);
      var mid := UpdatedAll(records, before);
      UpdatedAllSnoc(records, before, call);
      UpdatedAllKeepsIds(records, before);
      FirstMatchSameIds(mid, records, chunk[n].idUnico);
      var k := FirstMatch(records, chunk[n].idUnico);
      assert chunk[..n] == chunk[..|chunk| - 1];
      forall j | 0 <= j < |records|
        ensures UpdatedAll(records, before + [call])[j].reorg_attempts.GetOr(0)
                == records[j].reorg_attempts.GetOr(0) + Hits(records, chunk, j)
        ensures Hits(records, chunk, j) == 0 ==> UpdatedAll(records, before + [call])[j] == records[j]
      {
        if j == k {
          ItemUpdateEffect(sha256, baseDir, digestAvailable, chunk[n], runs[n], mid[k]);
        }
      }
    }
  }

  /** The plan of the first `i + 1` items is the plan of the first `i` and the update of item `i`, applied last. */
  lemma WritePlanStep(sha256: string -> Digest, baseDir: string, digestAvailable: bool,
                      chunk: seq<ArchivoLegacy>, runs: seq<ItemRun>, i: int, records: seq<FileRecord>)
    requires |runs| == |chunk| && 0 <= i < |chunk|
    ensures var plan := WritePlan(sha256, baseDir, digestAvailable, chunk[..i], runs[..i]);
      var call := ItemUpdate(sha256, baseDir, digestAvailable, chunk[i], runs[i]);
      WritePlan(sha256, baseDir, digestAvailable, chunk[..i + 1], runs[..i + 1]) == plan + [call]
      && UpdatedAll(records, plan + [call]) == UpdatedFirst(UpdatedAll(records, plan), call.idUnico, call.ops)
  {
    assert chunk[..i + 1][..i] == chunk[..i] && runs[..i + 1][..i] == runs[..i];
    var plan := WritePlan(sha256, baseDir, digestAvailable, chunk[..i], runs[..i]);
    UpdatedAllSnoc(records, plan, ItemUpdate(sha256, baseDir, digestAvailable, chunk[i], runs[i]));
  }

  /**
   * `updateReorgStatus`: build the update document and apply it with
   * `updateFirst` on `idUnico`.
   */
  method UpdateReorgStatus(index: IndexCollection, idUnico: Option<string>, status: string,
                           destinationPath: Option<string>, durationMs: int,
                           errorDescription: Option<string>, now: int)
    modifies index
    ensures index.records == UpdatedFirst(old(index.records), idUnico,
                                          StatusUpdate(status, destinationPath, durationMs, errorDescription, now))
    ensures index.calls == old(index.calls)
                           + [UpdateCall(idUnico, StatusUpdate(status, destinationPath, durationMs, errorDescription, now))]
  {
    var update := [SetStatus(status), IncAttempts(1)];
    if status == SUCCESS {
      update := update + [SetDestinationPath(destinationPath), SetCompletedAt(now),
                          SetDurationMs(durationMs), SetDeletedFromSource(false)];
    }
    if errorDescription.Some? {
      update := update + [SetErrorDescription(errorDescription.value)];
    }
    assert update == StatusUpdate(status, destinationPath, durationMs, errorDescription, now);
    index.UpdateFirst(idUnico, update);
  }

  /**
   * One turn of the `write` loop: compute the destination and copy the file,
   * then record SUCCESS, or FAILED with the message of whatever was thrown.
   */
  method WriteItem(sha256: string -> Digest, baseDir: string, digestAvailable: bool,
                   archivo: ArchivoLegacy, run: ItemRun, index: IndexCollection)
    modifies index
    ensures var call := ItemUpdate(sha256, baseDir, digestAvailable, archivo, run);
      index.records == UpdatedFirst(old(index.records), call.idUnico, call.ops)
      && index.calls == old(index.calls) + [call]
  {
    var status, destinationPath, errorDescription;
    if !digestAvailable {
      status, destinationPath, errorDescription := FAILED, None, Some(HASH_FAILURE);
    } else {
      var path := CalculateDestinationPath(sha256, archivo, baseDir);
      if run.copy.Copied? {
        status, destinationPath, errorDescription := SUCCESS, Some(path), None;
      } else {
        status, destinationPath, errorDescription := FAILED, None, run.copy.message;
      }
    }
    UpdateReorgStatus(index, archivo.idUnico, status, destinationPath, run.durationMs, errorDescription, run.now);
  }

  /**
   * `write(chunk)`: for each item, compute the destination and copy the
   * file, then record SUCCESS or, for any exception, FAILED. The collection
   * ends as the chunk's plan applied in order, and the plan is what was sent.
   */
  method Write(sha256: string -> Digest, baseDir: string, digestAvailable: bool,
               chunk: seq<ArchivoLegacy>, runs: seq<ItemRun>, index: IndexCollection)
    requires |runs| == |chunk|
    modifies index
    ensures index.calls == old(index.calls) + WritePlan(sha256, baseDir, digestAvailable, chunk, runs)
    ensures index.records == UpdatedAll(old(index.records), WritePlan(sha256, baseDir, digestAvailable, chunk, runs))
  {
    ghost var plan: seq<UpdateCall> := [];
    for i := 0 to |chunk|
      invariant plan == WritePlan(sha256, baseDir, digestAvailable, chunk[..i], runs[..i])
      invariant index.calls == old(index.calls) + plan
      invariant index.records == UpdatedAll(old(index.records), plan)
    {
      WritePlanStep(sha256, baseDir, digestAvailable, chunk, runs, i, old(index.records));
      ghost var call := ItemUpdate(sha256, baseDir, digestAvailable, chunk[i], runs[i]);
      WriteItem(sha256, baseDir, digestAvailable, chunk[i], runs[i], index);
      plan := plan + [call];
    }
    assert chunk[..|chunk|] == chunk && runs[..|runs|] == runs;
  }
}
