/**
 * The modelled part of the reorganize job's configuration
 * (BatchReorgFullConfig, BatchConfigProperties): the two item processors and
 * their composite, which exceptions the step skips and which it retries, and
 * the configured limits with their defaults.
 *
 * Spring Batch classifies an exception by its class and every superclass, so
 * the exception classes involved are modelled with their Java hierarchy.
 */
module BatchConfig {
  import opened Wrappers
  import opened Domain
  import opened PathResolver
  import opened FilesIndex

  /** The exception classes the step configuration names, with those a copy or a hash failure can raise. */
  datatype ExceptionClass =
    | ExceptionBase
    | RuntimeExceptionClass
    | IOExceptionClass
    | InterruptedIOExceptionClass
    | SocketExceptionClass
    | SocketTimeoutExceptionClass
    | ConnectExceptionClass

  /** The direct superclass, as in `java.io` and `java.net`; it is always one level up. */
  function Super(c: ExceptionClass): (s: Option<ExceptionClass>)
    ensures s.Some? ==> Depth(s.value) + 1 == Depth(c)
    ensures s.None? <==> c == ExceptionBase
  {
    match c
    case ExceptionBase => None
    case RuntimeExceptionClass => Some(ExceptionBase)
    case IOExceptionClass => Some(ExceptionBase)
    case InterruptedIOExceptionClass => Some(IOExceptionClass)
    case SocketExceptionClass => Some(IOExceptionClass)
    case SocketTimeoutExceptionClass => Some(InterruptedIOExceptionClass)
    case ConnectExceptionClass => Some(SocketExceptionClass)
  }

  /** How far a class is below `Exception`. */
  function Depth(c: ExceptionClass): nat {
    match c
    case ExceptionBase => 0
    case RuntimeExceptionClass => 1
    case IOExceptionClass => 1
    case InterruptedIOExceptionClass => 2
    case SocketExceptionClass => 2
    case SocketTimeoutExceptionClass => 3
    case ConnectExceptionClass => 3
  }

  /** `ancestor.isAssignableFrom(c)`: `c` is `ancestor` or one of its subclasses. */
  predicate IsA(c: ExceptionClass, ancestor: ExceptionClass)
    decreases Depth(c)
  {
    c == ancestor || (Super(c).Some? && IsA(Super(c).value, ancestor))
  }

  /** `.skip(IOException.class).skip(SocketTimeoutException.class)`. */
  predicate Skippable(c: ExceptionClass) {
    IsA(c, IOExceptionClass) || IsA(c, SocketTimeoutExceptionClass)
  }

  /** `.retry(SocketTimeoutException.class).retry(SocketException.class)`. */
  predicate Retryable(c: ExceptionClass) {
    IsA(c, SocketTimeoutExceptionClass) || IsA(c, SocketExceptionClass)
  }

  /**
   * The skip rule amounts to "any `IOException`": the second registration is
   * covered by the first. A `RuntimeException`, such as the hash failure, is
   * never skipped, so it fails the step.
   */
  lemma SkipMeansIOException(c: ExceptionClass)
    ensures Skippable(c) <==> IsA(c, IOExceptionClass)
    ensures Skippable(c) <==> c in {IOExceptionClass, InterruptedIOExceptionClass, SocketExceptionClass,
                                    SocketTimeoutExceptionClass, ConnectExceptionClass}
    ensures !Skippable(RuntimeExceptionClass) && !Skippable(ExceptionBase)
  {
  }

  /**
   * Every retryable exception is also skippable, and the retryable ones are
   * exactly the socket failures: a timeout, or a `SocketException` such as a
   * refused connection. Other I/O failures are skipped without retry.
   */
  lemma RetryableAreSocketFailures(c: ExceptionClass)
    ensures Retryable(c) ==> Skippable(c)
    ensures Retryable(c) <==> c in {SocketTimeoutExceptionClass, SocketExceptionClass, ConnectExceptionClass}
    ensures Skippable(c) && !Retryable(c) <==> c in {IOExceptionClass, InterruptedIOExceptionClass}
  {
  }

  /** `BatchConfigProperties`: the `batch.*` settings. */
  datatype BatchProperties = BatchProperties(
    chunkSize: int,
    threadPoolSize: int,
    queueCapacity: int,
    skipLimit: int,
    retryLimit: int)

  /** The values used when a setting is not configured. */
  const DEFAULT_PROPERTIES := BatchProperties(100, 20, 1000, 5, 3)

  /** What the reorganize step is built with. */
  datatype StepPolicy = StepPolicy(chunkSize: int, skipLimit: int, retryLimit: int)

  function ReorganizeStepPolicy(props: BatchProperties): StepPolicy {
    StepPolicy(props.chunkSize, props.skipLimit, props.retryLimit)
  }

  /** Unconfigured, the step takes chunks of 100, skips at most 5 items and tries an item at most 3 times. */
  lemma DefaultStepPolicy()
    ensures ReorganizeStepPolicy(DEFAULT_PROPERTIES) == StepPolicy(100, 5, 3)
  {
  }

  /** `documentToLegacyProcessor`: null stays null; otherwise id, origin path, name and modification time are copied. */
  function DocumentToLegacy(doc: Option<FileRecord>): (a: Option<ArchivoLegacy>)
    ensures a.Some? <==> doc.Some?
  {
    match doc
    case None => None
    case Some(d) => Some(ArchivoLegacy(d.idUnico, d.sourcePath, d.fileName, d.lastModificationDate))
  }

  /**
   * The file a document becomes keeps exactly the document's id, origin
   * path, name and modification time, so its destination is computed from
   * the document's origin path and file name.
   */
  lemma DocumentToLegacyFields(sha256: string -> Digest, d: FileRecord, baseDir: string)
    ensures var a := DocumentToLegacy(Some(d)).value;
      a.idUnico == d.idUnico && a.rutaOrigen == d.sourcePath && a.nombre == d.fileName
      && a.mtime == d.lastModificationDate
      && DestinationPath(sha256, a, baseDir)
         == baseDir + "/" + Partition(sha256, a) + "/" + (if d.fileName.Some? then d.fileName.value else "null")
  {
  }

  /**
   * `hashPartitionProcessor`: null stays null; otherwise the destination is
   * computed and thrown away, and the item passes unchanged. Without a
   * SHA-256 implementation the computation throws.
   */
  function HashPartition(sha256: string -> Digest, baseDir: string, digestAvailable: bool,
                         a: Option<ArchivoLegacy>): (r: Result<Option<ArchivoLegacy>, string>)
    ensures a.None? || digestAvailable <==> r == Success(a)
    ensures a.Some? && !digestAvailable <==> r == Failure(HASH_FAILURE)
  {
    match a
    case None => Success(None)
    case Some(archivo) =>
      match TryDestinationPath(sha256, archivo, baseDir, digestAvailable)
      case Failure(e) => Failure(e)
      case Success(_) => Success(a)
  }

  /** The composite processor: the two delegates in order, stopping at a null. */
  function Composite(sha256: string -> Digest, baseDir: string, digestAvailable: bool,
                     doc: Option<FileRecord>): Result<Option<ArchivoLegacy>, string>
  {
    var a := DocumentToLegacy(doc);
    if a.None? then Success(None) else HashPartition(sha256, baseDir, digestAvailable, a)
  }

  /**
   * The composite is the document conversion alone whenever SHA-256 exists:
   * the hash step changes nothing. Without it, every non-null document fails
   * with the hash error, which the step does not skip.
   */
  lemma CompositeIsDocumentToLegacy(sha256: string -> Digest, baseDir: string, digestAvailable: bool,
                                    doc: Option<FileRecord>)
    ensures digestAvailable || doc.None? ==>
      Composite(sha256, baseDir, digestAvailable, doc) == Success(DocumentToLegacy(doc))
    ensures !digestAvailable && doc.Some? ==>
      Composite(sha256, baseDir, digestAvailable, doc) == Failure(HASH_FAILURE)
  {
  }

  /**
   * The file a document of the collection becomes carries the document's id,
   * so the move writer's `updateFirst` on that id reaches a record, no later
   * than the document itself, and the document itself when ids are unique.
   */
  lemma LegacyReachesItsRecord(records: seq<FileRecord>, j: int)
    requires 0 <= j < |records|
    ensures var a := DocumentToLegacy(Some(records[j])).value;
      var k := FirstMatch(records, a.idUnico);
      0 <= k <= j
      && ((forall i :: 0 <= i < |records| && i != j ==> records[i].idUnico != records[j].idUnico) ==> k == j)
  {
  }
}
