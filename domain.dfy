/**
 * The value types the pipeline passes between its stages: the legacy file
 * descriptor the move writers consume, the audit row one of them produces,
 * and the candidate the cleanup reader yields. Java's nullable references are
 * `Option`s; instants are epoch milliseconds.
 */
module Domain {
  import opened Wrappers

  /** A file to move: its unique id, origin path, name and modification time. */
  datatype ArchivoLegacy = ArchivoLegacy(
    idUnico: Option<string>,
    rutaOrigen: Option<string>,
    nombre: Option<string>,
    mtime: Option<int>)

  /** One row of the per-file transfer audit written by the audit writer. */
  datatype ProcessedArchivo = ProcessedArchivo(
    idUnico: Option<string>,
    rutaOrigen: Option<string>,
    rutaDestino: string,
    nombre: Option<string>,
    status: string,
    processedAt: int,
    errorMessage: Option<string>)

  /** A record the cleanup stage may delete from the origin. */
  datatype CleanupCandidate = CleanupCandidate(
    idUnico: Option<string>,
    sourcePath: Option<string>,
    destinationPath: Option<string>,
    reorgCompletedAt: Option<int>,
    fileSize: Option<int>,
    lastModificationDate: Option<int>)

  /** The status the move writers record for a file that was copied, and for one that was not. */
  const SUCCESS := "SUCCESS"
  const FAILED := "FAILED"

  /**
   * How reading one file from the origin and transferring it to the
   * destination ended: done, or the message of the exception thrown (which
   * may be null). Both move writers see the copy this way.
   */
  datatype CopyOutcome = Copied | CopyFailed(message: Option<string>)
}
