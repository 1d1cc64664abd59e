/**
 * The cleanup-stage writer that deletes each validated file from the origin
 * and records the outcome in the `files_index` collection
 * (OriginFileDeleteWriter).
 *
 * For a non-empty chunk it connects once, removes every result's origin path
 * (each failure is caught and written into that result), then sends one
 * unordered bulk write with one `updateOne` per result, all stamped with the
 * same `now`. The results are updated in place in the chunk. Connecting and
 * each `rm` are oracles; the deletions, run in parallel in the source, are
 * taken one after the other.
 */
module OriginDeleteWriter {
  import opened Wrappers
  import opened JavaText
  import opened FilesIndex
  import opened CleanupResults

  const DELETED_BY := "cleanup-step-pipelined"
  const CLEANUP_FAILED := "Cleanup failed: "

  /** The result after `rm` of its origin path: deleted, or not deleted with the exception's message. */
  function Marked(r: CleanupResult, rm: Outcome<Option<string>>): CleanupResult {
    match rm
    case Pass => r.(deleted := true)
    case Fail(message) => r.(deleted := false, errorMessage := message)
  }

  /** Every result of a chunk after its deletion attempt. */
  function MarkedAll(results: seq<CleanupResult>, rms: seq<Outcome<Option<string>>>): (marked: seq<CleanupResult>)
    requires |rms| == |results|
    ensures |marked| == |results|
    ensures forall i :: 0 <= i < |results| ==> marked[i] == Marked(results[i], rms[i])
  {
    seq(|results|, i requires 0 <= i < |results| => Marked(results[i], rms[i]))
  }

  /** How many results of a chunk are marked deleted. */
  function CountDeleted(results: seq<CleanupResult>): (n: nat)
    ensures n <= |results|
  {
    if results == [] then 0
    else CountDeleted(results[..|results| - 1]) + (if results[|results| - 1].deleted then 1 else 0)
  }

  /** How many `rm` calls went through. */
  function CountRemoved(rms: seq<Outcome<Option<string>>>): nat {
    if rms == [] then 0
    else CountRemoved(rms[..|rms| - 1]) + (if rms[|rms| - 1].Pass? then 1 else 0)
  }

  /**
   * After the deletions a result is deleted exactly when its `rm` went
   * through, so the success count is the number of removed files, whatever
   * the results said before.
   */
  lemma {:induction false} DeletedCountIsRemovedCount(results: seq<CleanupResult>, rms: seq<Outcome<Option<string>>>)
    requires |rms| == |results|
    ensures CountDeleted(MarkedAll(results, rms)) == CountRemoved(rms)
  {
    if results != [] {
      var n := |results| - 1;
      assert MarkedAll(results, rms)[..n] == MarkedAll(results[..n], rms[..n]);
      DeletedCountIsRemovedCount(results[..n], rms[..n]);
    }
  }

  /** The `updateOne` queued for one result. */
  function ResultUpdate(r: CleanupResult, now: int): UpdateCall {
    if r.deleted then
      UpdateCall(r.idUnico, [SetDeletedFromSource(true), SetDeletionDate(now), SetDeletedBy(DELETED_BY)])
    else
      UpdateCall(r.idUnico, [SetErrorDescription(CLEANUP_FAILED + OrNull(r.errorMessage)), SetLastAttemptAt(now)])
  }

  /**
   * The effect of a result's update on the record it reaches: a deleted
   * result sets the deleted flag, the deletion date and the deleting
   * process; a failed one sets only the error, prefixed "Cleanup failed: "
   * (a null message reads "null"), and the last attempt, never the deleted
   * flag.
   */
  lemma ResultUpdateEffect(r: CleanupResult, now: int, rec: FileRecord)
    ensures var call := ResultUpdate(r, now);
      call.idUnico == r.idUnico
      && ApplyAll(rec, call.ops)
         == if r.deleted
            then rec.(deleted_from_source := Some(true), source_deletion_date := Some(now), deleted_by := Some(DELETED_BY))
            else rec.(reorg_errorDescription := Some(CLEANUP_FAILED + OrNull(r.errorMessage)), reorg_lastAttemptAt := Some(now))
  {
    if r.deleted {
      ApplyAllThree(rec, SetDeletedFromSource(true), SetDeletionDate(now), SetDeletedBy(DELETED_BY));
    } else {
      ApplyAllTwo(rec, SetErrorDescription(CLEANUP_FAILED + OrNull(r.errorMessage)), SetLastAttemptAt(now));
    }
  }

  /** The bulk of a chunk: one update per result, in chunk order. */
  function BulkPlan(results: seq<CleanupResult>, now: int): (plan: seq<UpdateCall>)
    ensures |plan| == |results|
  {
    if results == [] then []
    else BulkPlan(results[..|results| - 1], now) + [ResultUpdate(results[|results| - 1], now)]
  }

  /**
   * Exactly one update per result, keyed by the result's id, and every date
   * the bulk writes is the one `now` of the chunk.
   */
  lemma {:induction false} BulkPlanOnePerResult(results: seq<CleanupResult>, now: int)
    ensures var plan := BulkPlan(results, now);
      forall i :: 0 <= i < |results| ==>
        plan[i] == ResultUpdate(results[i], now) && plan[i].idUnico == results[i].idUnico
        && forall k :: 0 <= k < |plan[i].ops| ==>
             (plan[i].ops[k].SetDeletionDate? ==> plan[i].ops[k].at == now)
             && (plan[i].ops[k].SetLastAttemptAt? ==> plan[i].ops[k].at == now)
  {
    if results != [] {
      BulkPlanOnePerResult(results[..|results| - 1], now);
    }
  }

  /** Whether some deleted result of the chunk reaches record `j`. */
  predicate DeletedHits(records: seq<FileRecord>, results: seq<CleanupResult>, j: int) {
    exists i :: 0 <= i < |results| && results[i].deleted && FirstMatch(records, results[i].idUnico) == j
  }

  /** A deleted result reaches record `j` in a chunk exactly when one does before the last, or the last does. */
  lemma DeletedHitsSnoc(records: seq<FileRecord>, results: seq<CleanupResult>, j: int)
    requires results != []
    ensures var n := |results| - 1;
      DeletedHits(records, results, j)
      <==> DeletedHits(records, results[..n], j)
           || (results[n].deleted && FirstMatch(records, results[n].idUnico) == j)
  {
    var n := |results| - 1;
    if DeletedHits(records, results[..n], j) {
      var i :| 0 <= i < n && results[..n][i].deleted && FirstMatch(records, results[..n][i].idUnico) == j;
      assert results[i] == results[..n][i];
    }
    if DeletedHits(records, results, j) {
      var i :| 0 <= i < |results| && results[i].deleted && FirstMatch(records, results[i].idUnico) == j;
      if i < n {
        assert results[..n][i] == results[i];
      }
    }
  }

  /** The last result's update changes record `j`'s deleted flag exactly when it is a deletion reaching `j`. */
  lemma BulkFlagStep(records: seq<FileRecord>, results: seq<CleanupResult>, now: int, j: int)
    requires results != [] && 0 <= j < |records|
    ensures var n := |results| - 1;
      var mid := UpdatedAll(records, BulkPlan(results[..n], now));
      UpdatedAll(records, BulkPlan(results, now))[j].deleted_from_source
      == if results[n].deleted && FirstMatch(records, results[n].idUnico) == j then Some(true)
         else mid[j].deleted_from_source
  {
    var n := |results| - 1;
    var before := BulkPlan(results[..n], now);
    var call := ResultUpdate(results[n], now);
    assert BulkPlan(results, now) == before + [call];
    UpdatedAllSnoc(records, before, call);
    var mid := UpdatedAll(records, before);
    UpdatedAllKeepsIds(records, before);
    FirstMatchSameIds(mid, records, results[n].idUnico);
    var k := FirstMatch(records, results[n].idUnico);
    if j == k {
      ResultUpdateEffect(results[n], now, mid[k]);
    }
  }

  /**
   * After the bulk a record is flagged deleted exactly when a deleted result
   * reaches it; every other record keeps the flag it had, so a failed
   * deletion never marks a file deleted and it stays a candidate.
   */
  lemma {:induction false} BulkSetsDeletedFlagOnlyOnDelete(records: seq<FileRecord>, results: seq<CleanupResult>, now: int)
    ensures var after := UpdatedAll(records, BulkPlan(results, now));
      forall j :: 0 <= j < |records| ==>
        after[j].deleted_from_source
        == if DeletedHits(records, results, j) then Some(true) else records[j].deleted_from_source
  {
    if results != [] {
      BulkSetsDeletedFlagOnlyOnDelete(records, results[..|results| - 1], now);
      forall j | 0 <= j < |records|
        ensures UpdatedAll(records, BulkPlan(results, now))[j].deleted_from_source
                == if DeletedHits(records, results, j) then Some(true) else records[j].deleted_from_source
      {
        BulkFlagStep(records, results, now, j);
        DeletedHitsSnoc(records, results, j);
      }
    }
  }

  /**
   * `updateMongoDBBatch(chunk)`: queue one `updateOne` per result, all with
   * the same `now`, and execute them as one bulk.
   */
  method UpdateMongoDBBatch(chunk: array<CleanupResult>, now: int, index: IndexCollection)
    modifies index
    ensures index.records == UpdatedAll(old(index.records), BulkPlan(chunk[..], now))
    ensures index.calls == old(index.calls) + BulkPlan(chunk[..], now)
  {
    var bulk: seq<UpdateCall> := [];
    for i := 0 to chunk.Length
      invariant bulk == BulkPlan(chunk[..i], now)
    {
      assert chunk[..i + 1][..i] == chunk[..i];
      var result := chunk[i];
      if result.deleted {
        bulk := bulk + [UpdateCall(result.idUnico, [SetDeletedFromSource(true), SetDeletionDate(now), SetDeletedBy(DELETED_BY)])];
      } else {
        bulk := bulk + [UpdateCall(result.idUnico, [SetErrorDescription(CLEANUP_FAILED + OrNull(result.errorMessage)), SetLastAttemptAt(now)])];
      }
    }
    assert chunk[..chunk.Length] == chunk[..];
    index.BulkWrite(bulk);
  }

  /** The deletions: each result is marked after its own `rm`; no failure stops the others. */
  method DeleteAll(chunk: array<CleanupResult>, rms: seq<Outcome<Option<string>>>)
    requires |rms| == chunk.Length
    modifies chunk
    ensures chunk[..] == MarkedAll(old(chunk[..]), rms)
  {
    for i := 0 to chunk.Length
      invariant forall j :: 0 <= j < i ==> chunk[j] == Marked(old(chunk[j]), rms[j])
      invariant forall j :: i <= j < chunk.Length ==> chunk[j] == old(chunk[j])
    {
      match rms[i]
      case Pass =>
        chunk[i] := chunk[i].(deleted := true);
      case Fail(message) =>
        chunk[i] := chunk[i].(deleted := false, errorMessage := message);
    }
  }

  /** The summary counts: how many results are deleted, and the rest. */
  method Summary(chunk: array<CleanupResult>) returns (successCount: nat, failedCount: nat)
    ensures successCount == CountDeleted(chunk[..])
    ensures successCount + failedCount == chunk.Length
  {
    successCount := 0;
    for i := 0 to chunk.Length
      invariant successCount == CountDeleted(chunk[..i])
    {
      assert chunk[..i + 1][..i] == chunk[..i];
      if chunk[i].deleted {
        successCount := successCount + 1;
      }
    }
    assert chunk[..chunk.Length] == chunk[..];
    failedCount := chunk.Length - successCount;
  }

  /**
   * `write(chunk)`: nothing for an empty chunk; otherwise connect (a failure
   * ends the write with nothing changed), delete every origin path, send the
   * bulk update and count the outcomes.
   */
  method Write(chunk: array<CleanupResult>, connect: Outcome<string>, rms: seq<Outcome<Option<string>>>,
               now: int, index: IndexCollection)
    returns (r: Outcome<string>, successCount: nat, failedCount: nat)
    requires |rms| == chunk.Length
    modifies chunk, index
    ensures chunk.Length == 0 ==> r == Pass && unchanged(chunk) && unchanged(index)
    ensures chunk.Length > 0 && connect.Fail? ==> r == connect && unchanged(chunk) && unchanged(index)
    ensures chunk.Length > 0 && connect.Pass? ==>
      r == Pass
      && chunk[..] == MarkedAll(old(chunk[..]), rms)
      && index.records == UpdatedAll(old(index.records), BulkPlan(chunk[..], now))
      && index.calls == old(index.calls) + BulkPlan(chunk[..], now)
      && successCount == CountRemoved(rms)
      && successCount + failedCount == chunk.Length
  {
    successCount, failedCount := 0, 0;
    if chunk.Length == 0 {
      return Pass, successCount, failedCount;
    }
    if connect.Fail? {
      return connect, successCount, failedCount;
    }
    DeleteAll(chunk, rms);
    UpdateMongoDBBatch(chunk, now, index);
    successCount, failedCount := Summary(chunk);
    DeletedCountIsRemovedCount(old(chunk[..]), rms);
    r := Pass;
  }
}
