/**
 * The reorganize-stage writer that moves each file of a chunk and keeps one
 * `ProcessedArchivo` audit row per file (SftpMoveAndAuditItemWriter).
 *
 * `processFile` computes the destination outside its `try`, so the row of a
 * failed copy still names the destination, and a failure to compute it
 * escapes `write` altogether. Read and transfer failures are caught and
 * become FAILED rows. The rows of a chunk are saved with one `saveAll`, and
 * only when there is at least one. The copy is an oracle (one `CopyOutcome`
 * per item) and `Instant.now()` is given per item.
 */
module MoveAndAuditWriter {
  import opened Wrappers
  import opened Domain
  import opened PathResolver

  /** What the environment does for one item: the copy, and the `Instant.now()` of the row. */
  datatype AuditRun = AuditRun(copy: CopyOutcome, now: int)

  /** The row `processFile` returns once the destination is known. */
  function ProcessFile(sha256: string -> Digest, baseDir: string, archivo: ArchivoLegacy, run: AuditRun)
    : ProcessedArchivo
  {
    var destination := DestinationPath(sha256, archivo, baseDir);
    match run.copy
    case Copied =>
      ProcessedArchivo(archivo.idUnico, archivo.rutaOrigen, destination, archivo.nombre, SUCCESS, run.now, None)
    case CopyFailed(message) =>
      ProcessedArchivo(archivo.idUnico, archivo.rutaOrigen, destination, archivo.nombre, FAILED, run.now, message)
  }

  /**
   * A row is SUCCESS exactly when the copy went through, and then carries no
   * error; otherwise it is FAILED with the exception's message. Either way it
   * names the computed destination, the item's id, origin and name, and the
   * time of the row.
   */
  lemma ProcessFileRow(sha256: string -> Digest, baseDir: string, archivo: ArchivoLegacy, run: AuditRun)
    ensures var p := ProcessFile(sha256, baseDir, archivo, run);
      (p.status == SUCCESS <==> run.copy.Copied?)
      && (p.status == SUCCESS || p.status == FAILED)
      && (run.copy.Copied? ==> p.errorMessage == None)
      && (run.copy.CopyFailed? ==> p.errorMessage == run.copy.message)
      && p.rutaDestino == DestinationPath(sha256, archivo, baseDir)
      && p.idUnico == archivo.idUnico && p.rutaOrigen == archivo.rutaOrigen && p.nombre == archivo.nombre
      && p.processedAt == run.now
  {
    assert SUCCESS != FAILED;
  }

  /** The rows of a success and of a failure of the same item at the same time differ only in status and error. */
  lemma OutcomesDifferOnlyInStatus(sha256: string -> Digest, baseDir: string, archivo: ArchivoLegacy,
                                   message: Option<string>, now: int)
    ensures var ok := ProcessFile(sha256, baseDir, archivo, AuditRun(Copied, now));
      var failed := ProcessFile(sha256, baseDir, archivo, AuditRun(CopyFailed(message), now));
      ok.status != failed.status
      && ok.(status := failed.status, errorMessage := failed.errorMessage) == failed
  {
    assert SUCCESS != FAILED;
  }

  /** The rows of a whole chunk, in chunk order. */
  function AuditRecords(sha256: string -> Digest, baseDir: string, chunk: seq<ArchivoLegacy>, runs: seq<AuditRun>)
    : (rows: seq<ProcessedArchivo>)
    requires |runs| == |chunk|
    ensures |rows| == |chunk|
  {
    if chunk == [] then []
    else
      AuditRecords(sha256, baseDir, chunk[..|chunk| - 1], runs[..|runs| - 1])
      + [ProcessFile(sha256, baseDir, chunk[|chunk| - 1], runs[|runs| - 1])]
  }

  /** Exactly one row per item, in chunk order, each built from its own item and run. */
  lemma {:induction false} AuditRecordsOnePerItem(sha256: string -> Digest, baseDir: string,
                                                  chunk: seq<ArchivoLegacy>, runs: seq<AuditRun>)
    requires |runs| == |chunk|
    ensures var rows := AuditRecords(sha256, baseDir, chunk, runs);
      forall i :: 0 <= i < |chunk| ==> rows[i] == ProcessFile(sha256, baseDir, chunk[i], runs[i])
  {
    if chunk != [] {
      AuditRecordsOnePerItem(sha256, baseDir, chunk[..|chunk| - 1], runs[..|runs| - 1]);
    }
  }

  /** The processed-files audit collection: the rows saved so far and the number of `saveAll` calls. */
  class ProcessedFileStore {
    var saved: seq<ProcessedArchivo>
    var saveAllCalls: nat

    constructor ()
      ensures saved == [] && saveAllCalls == 0
    {
      saved := [];
      saveAllCalls := 0;
    }

    /** `saveAll(rows)`: every row is inserted, in order, by one call. */
    method SaveAll(rows: seq<ProcessedArchivo>)
      modifies this
      ensures saved == old(saved) + rows && saveAllCalls == old(saveAllCalls) + 1
    {
      saved := saved + rows;
      saveAllCalls := saveAllCalls + 1;
    }
  }

  /**
   * `processFile(archivo)`: compute the destination (a failure there is
   * thrown to the caller), then copy; the copy's outcome decides the row.
   */
  method ProcessFileOrThrow(sha256: string -> Digest, baseDir: string, digestAvailable: bool,
                            archivo: ArchivoLegacy, run: AuditRun)
    returns (r: Result<ProcessedArchivo, string>)
    ensures r.Success? <==> digestAvailable
    ensures r.Success? ==> r.value == ProcessFile(sha256, baseDir, archivo, run)
    ensures r.Failure? ==> r.error == HASH_FAILURE
  {
    if !digestAvailable {
      return Failure(HASH_FAILURE);
    }
    var destination := CalculateDestinationPath(sha256, archivo, baseDir);
    if run.copy.Copied? {
      r := Success(ProcessedArchivo(archivo.idUnico, archivo.rutaOrigen, destination, archivo.nombre,
                                    SUCCESS, run.now, None));
    } else {
      r := Success(ProcessedArchivo(archivo.idUnico, archivo.rutaOrigen, destination, archivo.nombre,
                                    FAILED, run.now, run.copy.message));
    }
  }

  /**
   * `write(chunk)`: one row per item, saved with a single `saveAll` when the
   * chunk is not empty. If the destination cannot be computed the first item
   * throws, `write` ends with that exception and nothing is saved.
   */
  method Write(sha256: string -> Digest, baseDir: string, digestAvailable: bool,
               chunk: seq<ArchivoLegacy>, runs: seq<AuditRun>, store: ProcessedFileStore)
    returns (r: Outcome<string>)
    requires |runs| == |chunk|
    modifies store
    ensures r.Fail? <==> !digestAvailable && chunk != []
    ensures r.Fail? ==> r.error == HASH_FAILURE && unchanged(store)
    ensures r.Pass? ==>
      store.saved == old(store.saved) + AuditRecords(sha256, baseDir, chunk, runs)
      && store.saveAllCalls == old(store.saveAllCalls) + (if chunk == [] then 0 else 1)
  {
    var auditRecords: seq<ProcessedArchivo> := [];
    for i := 0 to |chunk|
      invariant auditRecords == AuditRecords(sha256, baseDir, chunk[..i], runs[..i])
      invariant i > 0 ==> digestAvailable
      invariant unchanged(store)
    {
      var audit := ProcessFileOrThrow(sha256, baseDir, digestAvailable, chunk[i], runs[i]);
      if audit.Failure? {
        return Fail(audit.error);
      }
      assert chunk[..i + 1][..i] == chunk[..i] && runs[..i + 1][..i] == runs[..i];
      auditRecords := auditRecords + [audit.value];
    }
    assert chunk[..|chunk|] == chunk && runs[..|runs|] == runs;
    if |auditRecords| > 0 {
      store.SaveAll(auditRecords);
    }
    r := Pass;
  }
}
