/**
 * The cleanup-stage reader (CleanupCandidateReader): on its first `read` it
 * queries `files_index` once for the records whose origin copy may be
 * deleted, and from then on hands them out one per call, in query order,
 * then `null` for ever.
 *
 * The query asks for status "COMPLETED", `deleted_from_source` false, a
 * completion time no older than 90 days, and a destination path. The move
 * writer records "SUCCESS", never "COMPLETED"; the reader is modelled with
 * the literal it uses, and the status the rest of the pipeline writes is
 * available as a second reader for comparison.
 */
module CleanupCandidateReader {
  import opened Wrappers
  import opened Domain
  import opened PathResolver
  import opened FilesIndex
  import opened CleanupResults
  import opened CleanupValidator
  import opened MoveAndIndexWriter
  import opened OriginDeleteWriter

  const COMPLETED := "COMPLETED"
  const WINDOW_DAYS := 90
  const DAY_MS := 86400000

  /** `Instant.now().minus(90, DAYS)`, in epoch milliseconds. */
  function Cutoff(now: int): int {
    now - WINDOW_DAYS * DAY_MS
  }

  /** The query's filter, for a given status literal. */
  predicate MatchesQuery(r: FileRecord, now: int, status: string) {
    r.reorg_status == Some(status)
    && r.deleted_from_source == Some(false)
    && r.reorg_completedAt.Some? && r.reorg_completedAt.value >= Cutoff(now)
    && r.reorg_destinationPath.Some?
  }

  /** The records the query returns, in collection order. */
  function Query(records: seq<FileRecord>, now: int, status: string): seq<FileRecord> {
    if records == [] then []
    else
      var rest := Query(records[..|records| - 1], now, status);
      var last := records[|records| - 1];
      if MatchesQuery(last, now, status) then rest + [last] else rest
  }

  /** The query returns exactly the records of the collection that match its filter. */
  lemma {:induction false} QuerySelectsExactly(records: seq<FileRecord>, now: int, status: string)
    ensures forall r :: r in Query(records, now, status) <==> r in records && MatchesQuery(r, now, status)
  {
    if records != [] {
      var init := records[..|records| - 1];
      QuerySelectsExactly(init, now, status);
      assert records == init + [records[|records| - 1]];
    }
  }

  /**
   * The window is a lower bound on the completion time: with every other
   * condition met, a file completed 89 days ago is selected and one
   * completed 91 days ago is not.
   */
  lemma SafetyWindow(r: FileRecord, now: int, status: string)
    requires r.reorg_status == Some(status) && r.deleted_from_source == Some(false)
    requires r.reorg_destinationPath.Some?
    ensures r.reorg_completedAt == Some(now - 89 * DAY_MS) ==> MatchesQuery(r, now, status)
    ensures r.reorg_completedAt == Some(now - 91 * DAY_MS) ==> !MatchesQuery(r, now, status)
    ensures r.reorg_completedAt.Some? && r.reorg_completedAt.value < now - WINDOW_DAYS * DAY_MS
            ==> !MatchesQuery(r, now, status)
  {
  }

  /** `toCleanupCandidate`: the projected fields, copied unchanged. */
  function ToCleanupCandidate(r: FileRecord): CleanupCandidate {
    CleanupCandidate(r.idUnico, r.sourcePath, r.reorg_destinationPath, r.reorg_completedAt,
                     r.fileSize, r.lastModificationDate)
  }

  /**
   * A candidate is determined by the six projected fields alone, and it
   * keeps each of them: two records that agree on them give the same
   * candidate, and records that give the same candidate agree on them.
   */
  lemma CandidateIsProjection(a: FileRecord, b: FileRecord)
    ensures ToCleanupCandidate(a) == ToCleanupCandidate(b)
      <==> a.idUnico == b.idUnico && a.sourcePath == b.sourcePath
           && a.reorg_destinationPath == b.reorg_destinationPath && a.reorg_completedAt == b.reorg_completedAt
           && a.fileSize == b.fileSize && a.lastModificationDate == b.lastModificationDate
  {
  }

  /** The candidates of the query, in its order. */
  function Candidates(records: seq<FileRecord>, now: int, status: string): (cs: seq<CleanupCandidate>)
    ensures var q := Query(records, now, status);
      |cs| == |q| && forall i :: 0 <= i < |q| ==> cs[i] == ToCleanupCandidate(q[i])
  {
    var q := Query(records, now, status);
    seq(|q|, i requires 0 <= i < |q| => ToCleanupCandidate(q[i]))
  }

  /**
   * Every candidate the query yields has a completion time inside the window
   * and a destination, so the validator passes it exactly when its
   * destination and origin paths are non-empty.
   */
  lemma CandidatesMeetValidator(records: seq<FileRecord>, now: int, status: string)
    ensures forall c :: c in Candidates(records, now, status) ==>
      c.reorgCompletedAt.Some? && c.reorgCompletedAt.value >= Cutoff(now) && c.destinationPath.Some?
      && (Process(c).Some? <==> |c.destinationPath.value| > 0 && Present(c.sourcePath))
  {
    QuerySelectsExactly(records, now, status);
    var cs := Candidates(records, now, status);
    forall c | c in cs
      ensures c.reorgCompletedAt.Some? && c.reorgCompletedAt.value >= Cutoff(now) && c.destinationPath.Some?
    {
      var i :| 0 <= i < |cs| && cs[i] == c;
      assert Query(records, now, status)[i] in Query(records, now, status);
    }
  }

  /**
   * As written: a record the move writer has just updated, successfully or
   * not, is never selected, because its status is "SUCCESS" or "FAILED" and
   * the query asks for "COMPLETED".
   */
  lemma MovedRecordNeverCandidate(sha256: string -> Digest, baseDir: string, digestAvailable: bool,
                                  archivo: ArchivoLegacy, run: ItemRun, rec: FileRecord, now: int)
    ensures !MatchesQuery(ApplyAll(rec, ItemUpdate(sha256, baseDir, digestAvailable, archivo, run).ops), now, COMPLETED)
  {
    ItemUpdateEffect(sha256, baseDir, digestAvailable, archivo, run, rec);
  }

  /**
   * Corrected: with the status the move writer records, a file it has just
   * moved is selected while its completion is inside the window (the move
   * itself clears the deleted flag and sets the destination).
   */
  lemma MovedRecordIsIntendedCandidate(sha256: string -> Digest, baseDir: string, digestAvailable: bool,
                                       archivo: ArchivoLegacy, run: ItemRun, rec: FileRecord, now: int)
    requires digestAvailable && run.copy.Copied?
    requires run.now >= Cutoff(now)
    ensures MatchesQuery(ApplyAll(rec, ItemUpdate(sha256, baseDir, digestAvailable, archivo, run).ops), now, SUCCESS)
  {
    ItemUpdateEffect(sha256, baseDir, digestAvailable, archivo, run, rec);
  }

  /**
   * A successful deletion takes a record out of the selection for good; a
   * failed one leaves it selected exactly as before, so it is retried on the
   * next run.
   */
  lemma DeletionUpdateAndSelection(result: CleanupResult, stamp: int, rec: FileRecord, now: int, status: string)
    ensures var u := ApplyAll(rec, ResultUpdate(result, stamp).ops);
      (result.deleted ==> !MatchesQuery(u, now, status))
      && (!result.deleted ==> (MatchesQuery(u, now, status) <==> MatchesQuery(rec, now, status)))
  {
    ResultUpdateEffect(result, stamp, rec);
  }

  /**
   * The reader's state: whether the query has run, the list it returned and
   * how far reading has got. `queries` counts the queries run.
   */
  class CandidateReader {
    const status: string
    var initialized: bool
    var candidates: seq<CleanupCandidate>
    var position: nat
    ghost var queries: nat

    ghost predicate Valid()
      reads this
    {
      position <= |candidates|
      && (initialized <==> queries == 1)
      && (!initialized ==> queries == 0 && position == 0 && candidates == [])
    }

    /** The reader as the job builds it, filtering on "COMPLETED". */
    constructor ()
      ensures Valid() && status == COMPLETED && !initialized && queries == 0
    {
      status := COMPLETED;
      initialized := false;
      candidates := [];
      position := 0;
      queries := 0;
    }

    /** The same reader filtering on the status the move writer records. */
    constructor Intended()
      ensures Valid() && status == SUCCESS && !initialized && queries == 0
    {
      status := SUCCESS;
      initialized := false;
      candidates := [];
      position := 0;
      queries := 0;
    }

    /**
     * `read()`: the first call runs the query against the collection as it
     * is then; every call returns the next candidate, or `None` once all
     * have been returned. The query never runs twice.
     */
    method Read(index: IndexCollection, now: int) returns (c: Option<CleanupCandidate>)
      requires Valid()
      modifies this
      ensures Valid() && initialized && queries == 1
      ensures !old(initialized) ==> candidates == Candidates(index.records, now, status)
      ensures old(initialized) ==> candidates == old(candidates)
      ensures var start := if old(initialized) then old(position) else 0;
        (start < |candidates| ==> c == Some(candidates[start]) && position == start + 1)
        && (start >= |candidates| ==> c == None && position == start)
    {
      if !initialized {
        InitializeCandidates(index, now);
        initialized := true;
      }
      if position < |candidates| {
        c := Some(candidates[position]);
        position := position + 1;
      } else {
        c := None;
      }
    }

    /** `initializeCandidates()`: run the query, map each record to a candidate, start at the first. */
    method InitializeCandidates(index: IndexCollection, now: int)
      requires Valid() && !initialized
      modifies this
      ensures candidates == Candidates(index.records, now, status) && position == 0 && queries == 1
      ensures initialized == old(initialized)
    {
      var documents := Query(index.records, now, status);
      var list: seq<CleanupCandidate> := [];
      for i := 0 to |documents|
        invariant |list| == i
        invariant forall j :: 0 <= j < i ==> list[j] == ToCleanupCandidate(documents[j])
      {
        list := list + [ToCleanupCandidate(documents[i])];
      }
      candidates := list;
      position := 0;
      queries := queries + 1;
    }
  }

  /**
   * Reading to the end: after `k` reads of a fresh reader (with nothing
   * changing the collection in between) the reads returned the first `k`
   * candidates, in order, then `None`.
   */
  method ReadAll(reader: CandidateReader, index: IndexCollection, now: int, k: nat)
    returns (got: seq<Option<CleanupCandidate>>)
    requires reader.Valid() && !reader.initialized
    modifies reader
    ensures reader.Valid() && reader.queries == (if k == 0 then 0 else 1)
    ensures k > 0 ==> reader.candidates == Candidates(index.records, now, reader.status)
    ensures |got| == k
    ensures forall i :: 0 <= i < k ==>
      got[i] == if i < |reader.candidates| then Some(reader.candidates[i]) else None
  {
    got := [];
    for i := 0 to k
      invariant reader.Valid() && |got| == i
      invariant i == 0 ==> !reader.initialized
      invariant i > 0 ==> reader.initialized && reader.candidates == Candidates(index.records, now, reader.status)
      invariant i > 0 ==> reader.position == if i < |reader.candidates| then i else |reader.candidates|
      invariant forall j :: 0 <= j < i ==>
        got[j] == if j < |reader.candidates| then Some(reader.candidates[j]) else None
    {
      var c := reader.Read(index, now);
      got := got + [c];
    }
  }
}
