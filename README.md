# SFTP file reorganization and cleanup: a Dafny model

This project models the per-item logic of a two-stage file migration between
SFTP servers.

- **Reorganize stage.** Each file listed in the `files_index` collection is
  copied from the origin server to a destination layout partitioned by a
  SHA-256 hash. The outcome is recorded per file, either in the index or in
  a processed-files audit.
- **Cleanup stage.** The index is queried for files already moved. Each
  candidate is validated, its origin copy is deleted, and the outcome is
  written back to the index in one bulk update.
- **Job audit.** One audit document per job execution records the counters,
  the duration and the first failure.

The model has one module per source file:

| module | file | what it holds |
|---|---|---|
| `PathResolver` | `path_resolver.dfy` | hex encoding, partition path, destination path (`FileReorganizationService`) |
| `DestinationSftp` | `destination_sftp.dfy` | parent-path extraction, check-then-create directory loop, transfer (`SftpDestinationRepositoryImpl`) |
| `OriginSftp` | `origin_sftp.dfy` | `readFile` and the session-returning stream (`SftpOriginRepositoryImpl`) |
| `JobAudit` | `job_audit.dfy` | counters, duration text, stack-trace cut, mappers, audit store (`JobAuditService`) |
| `FilesIndex` | `files_index.dfy` | the `files_index` records and Mongo's `updateFirst` / `updateOne` / bulk semantics |
| `MoveAndIndexWriter` | `move_and_index_writer.dfy` | `SftpMoveAndIndexItemWriter` |
| `MoveAndAuditWriter` | `move_and_audit_writer.dfy` | `SftpMoveAndAuditItemWriter` |
| `CleanupResults` | `cleanup_results.dfy` | `CleanupResult` and its factories |
| `CleanupValidator` | `cleanup_validator.dfy` | `CleanupValidator.process` |
| `OriginDeleteWriter` | `origin_delete_writer.dfy` | `OriginFileDeleteWriter` |
| `CleanupCandidateReader` | `cleanup_candidate_reader.dfy` | the cleanup query and the lazy reader |
| `BatchConfig` | `batch_config.dfy` | item processors, skip/retry classification, defaults (`BatchReorgFullConfig`, `BatchConfigProperties`) |
| `Domain`, `Wrappers`, `JavaText` | | value types, `Option`/`Outcome`/`Result`, Java's `String.valueOf`, `%d` and truncating `/` `%` |

The model uses these conventions:

- Java `null` is `Option.None`.
- Instants are epoch milliseconds.
- Every exception a call can throw becomes an `Outcome` or a `Result`.
- Stateful parts are classes whose methods are proved against specification
  functions:
  - the remote directory tree;
  - the pooled session and its stream;
  - the `files_index` collection;
  - the audit store;
  - the processed-files store;
  - the cleanup reader.
- In-place updates stay in place. The chunk of `CleanupResult`s is an
  `array`. The index records are a `seq` updated by `updateFirst`.

The code diverges from its evident intent in three places, and the model
follows the code:

- The hash input is origin path + name, not `idUnico`.
- `createDirectories` takes the parent path twice.
- The cleanup query asks for status `"COMPLETED"`, which the move writer
  never writes.

Where the code cannot have done what its authors meant, the "## Findings"
table logs it. The table names both the member that models the code as
written and the corrected member.

## Model

| member | source | states |
|---|---|---|
| JavaText.OrNull | src/main/java/com/indra/minsait/dvsmart/reorganization/adapter/out/batch/writter/OriginFileDeleteWriter.java:159 | string concatenation renders a null reference as "null", anything else as itself |
| JavaText.LongToDecimalRoundTrip | src/main/java/com/indra/minsait/dvsmart/reorganization/domain/service/JobAuditService.java:225-228 | the `%d` rendering of a long is a sign and digits that read back as the same long |
| JavaText.TruncRem | src/main/java/com/indra/minsait/dvsmart/reorganization/domain/service/JobAuditService.java:282-284 | Java's `%` takes the sign of the dividend and rebuilds it with the truncating quotient |
| PathResolver.Unsigned | src/main/java/com/indra/minsait/dvsmart/reorganization/domain/service/FileReorganizationService.java:56 | `0xff & b` is in 0..255 and congruent to the signed byte modulo 256 |
| PathResolver.HexEncode | src/main/java/com/indra/minsait/dvsmart/reorganization/domain/service/FileReorganizationService.java:53-63 | exactly two lower-case hex characters per byte (64 for a digest) |
| PathResolver.ByteHexNibbles | src/main/java/com/indra/minsait/dvsmart/reorganization/domain/service/FileReorganizationService.java:56-60 | each byte's pair is its high and low nibble, the short `toHexString` padded with '0' |
| PathResolver.HexEncodeRoundTrip | src/main/java/com/indra/minsait/dvsmart/reorganization/domain/service/FileReorganizationService.java:53-63 | decoding the hex text gives back every unsigned byte: the encoding loses nothing |
| PathResolver.HexEncodeAt | src/main/java/com/indra/minsait/dvsmart/reorganization/domain/service/FileReorganizationService.java:55-61 | characters 2i and 2i+1 of the text are byte i's pair |
| PathResolver.BytesToHex | src/main/java/com/indra/minsait/dvsmart/reorganization/domain/service/FileReorganizationService.java:53-63 | the StringBuilder loop builds exactly the hex encoding |
| PathResolver.BuildPartitionPath | src/main/java/com/indra/minsait/dvsmart/reorganization/domain/service/FileReorganizationService.java:65-76 | the loop gives the three '/'-joined levels, or the substring exception for hashes under 4 characters |
| PathResolver.PartitionOfLongHash | src/main/java/com/indra/minsait/dvsmart/reorganization/domain/service/FileReorganizationService.java:65-76 | a hash of 6 or more characters gives `h[0..2]/h[2..4]/h[4..6]` |
| PathResolver.PartitionOfShortHash | src/main/java/com/indra/minsait/dvsmart/reorganization/domain/service/FileReorganizationService.java:68-73 | between 4 and 6 characters the last level is cut short; under 4 there is no result |
| PathResolver.PartitionShape | src/main/java/com/indra/minsait/dvsmart/reorganization/domain/service/FileReorganizationService.java:65-76 | the partition of a hex hash is 8 characters, '/' exactly at 2 and 5, hex elsewhere |
| PathResolver.Partition | src/main/java/com/indra/minsait/dvsmart/reorganization/domain/service/FileReorganizationService.java:37-38 | the partition of a file's digest is always 8 characters |
| PathResolver.CalculateDestinationPath | src/main/java/com/indra/minsait/dvsmart/reorganization/domain/service/FileReorganizationService.java:36-40 | the two loops compute the destination path, a function of origin path, name and base directory only |
| PathResolver.DestinationPathShape | src/main/java/com/indra/minsait/dvsmart/reorganization/domain/service/FileReorganizationService.java:36-40 | destination = baseDir + "/" + three hex pairs of SHA-256(origin+name) + "/" + name, with '/' at the three fixed offsets |
| PathResolver.DestinationIgnoresIdUnico | src/main/java/com/indra/minsait/dvsmart/reorganization/domain/service/FileReorganizationService.java:37 | files with the same origin path and name get the same destination whatever their id |
| PathResolver.ConcatenatedHashInputCollides | src/main/java/com/indra/minsait/dvsmart/reorganization/domain/service/FileReorganizationService.java:37 | two different (path, name) pairs with the same concatenation share a partition |
| DestinationSftp.LastIndexOf | src/main/java/com/indra/minsait/dvsmart/reorganization/adapter/out/sftp/SftpDestinationRepositoryImpl.java:139 | the position of the last occurrence, or -1 when there is none |
| DestinationSftp.ParentPath | src/main/java/com/indra/minsait/dvsmart/reorganization/adapter/out/sftp/SftpDestinationRepositoryImpl.java:138-146 | the text before the last '/', and "" exactly when no '/' follows index 0 |
| DestinationSftp.ParentPathExamples | src/main/java/com/indra/minsait/dvsmart/reorganization/adapter/out/sftp/SftpDestinationRepositoryImpl.java:133-136 | the documented examples, plus a name without '/' |
| DestinationSftp.JavaSplitLikeSplitAll | src/main/java/com/indra/minsait/dvsmart/reorganization/adapter/out/sftp/SftpDestinationRepositoryImpl.java:111 | `split("/")`'s dropped trailing empty pieces change no created directory |
| DestinationSftp.PrefixesBounded | src/main/java/com/indra/minsait/dvsmart/reorganization/adapter/out/sftp/SftpDestinationRepositoryImpl.java:114-120 | every path the loop builds is absolute and no longer than the final one |
| DestinationSftp.PrefixesGrow | src/main/java/com/indra/minsait/dvsmart/reorganization/adapter/out/sftp/SftpDestinationRepositoryImpl.java:114-127 | the paths the loop visits grow strictly, so none is checked twice |
| DestinationSftp.AncestorsAreDirPrefixes | src/main/java/com/indra/minsait/dvsmart/reorganization/adapter/out/sftp/SftpDestinationRepositoryImpl.java:104-127 | for a canonical parent, the directories made sure of are exactly the parent and every directory above it |
| DestinationSftp.LeafNeverCreated | src/main/java/com/indra/minsait/dvsmart/reorganization/adapter/out/sftp/SftpDestinationRepositoryImpl.java:104-127 | the target path itself is never among the directories created |
| DestinationSftp.CreateParentDirectoriesIdempotent | src/main/java/com/indra/minsait/dvsmart/reorganization/adapter/out/sftp/SftpDestinationRepositoryImpl.java:123-125 | a second run for the same path, with the same files, makes no `mkdir` and adds no directory |
| DestinationSftp.CreateDirectoriesMissesParent | src/main/java/com/indra/minsait/dvsmart/reorganization/adapter/out/sftp/SftpDestinationRepositoryImpl.java:81-89 | taking the parent twice, `createDirectories` never makes the parent of its argument |
| DestinationSftp.DestinationSession.Mkdir | src/main/java/com/indra/minsait/dvsmart/reorganization/adapter/out/sftp/SftpDestinationRepositoryImpl.java:124 | the directory exists afterwards, the call is logged, files are untouched |
| DestinationSftp.AfterWrite | src/main/java/com/indra/minsait/dvsmart/reorganization/adapter/out/sftp/SftpDestinationRepositoryImpl.java:65 | a completed write puts the whole data at the path, a broken-off one what it left or nothing; no other path changes |
| DestinationSftp.DestinationSession.Write | src/main/java/com/indra/minsait/dvsmart/reorganization/adapter/out/sftp/SftpDestinationRepositoryImpl.java:65 | the files become `AfterWrite` of the old files; directories and the `mkdir` log are untouched |
| DestinationSftp.DestinationSession.CreateParentDirectories | src/main/java/com/indra/minsait/dvsmart/reorganization/adapter/out/sftp/SftpDestinationRepositoryImpl.java:102-128 | afterwards every prefix of the parent not held by a regular file is a directory; `mkdir` was called once for each prefix that was neither a directory nor a file, in order; files unchanged |
| DestinationSftp.DestinationSession.CreateDirectories | src/main/java/com/indra/minsait/dvsmart/reorganization/adapter/out/sftp/SftpDestinationRepositoryImpl.java:80-97 | the prefixes of the grandparent that no file holds become directories, with `mkdir` for each one that did not exist; no parent means no change |
| DestinationSftp.DestinationSession.TransferTo | src/main/java/com/indra/minsait/dvsmart/reorganization/adapter/out/sftp/SftpDestinationRepositoryImpl.java:54-77 | parents first (the canonical parent then exists, as a directory unless a file holds one of the ancestors), then the write; when a regular file holds an ancestor the transfer fails and writes nothing and the close of the stream: success exactly when the write completed and the close did not throw; any failure is the RuntimeException message, and the files are what the write left (the whole file even when only the close threw, a partial file or nothing when it broke off), no path but `remotePath` changing |
| OriginSftp.CloseSequence | src/main/java/com/indra/minsait/dvsmart/reorganization/adapter/out/sftp/SftpOriginRepositoryImpl.java:117-140 | raw close first, `finalizeRaw` exactly when the raw close did not throw, `session.close` last and only last |
| OriginSftp.CloseOutcome | src/main/java/com/indra/minsait/dvsmart/reorganization/adapter/out/sftp/SftpOriginRepositoryImpl.java:117-129 | the first failing checked step's exception is rethrown, else close returns normally |
| OriginSftp.CloseReturnsSessionOnce | src/main/java/com/indra/minsait/dvsmart/reorganization/adapter/out/sftp/SftpOriginRepositoryImpl.java:130-140 | whatever the raw close does, exactly one `session.close` |
| OriginSftp.PooledSession.constructor | src/main/java/com/indra/minsait/dvsmart/reorganization/adapter/out/sftp/SftpOriginRepositoryImpl.java:59 | a fresh session is checked out and untouched |
| OriginSftp.PooledSession.Close | src/main/java/com/indra/minsait/dvsmart/reorganization/adapter/out/sftp/SftpOriginRepositoryImpl.java:133 | the session goes back to the pool and the call is counted and logged |
| OriginSftp.SessionAwareInputStream.constructor | src/main/java/com/indra/minsait/dvsmart/reorganization/adapter/out/sftp/SftpOriginRepositoryImpl.java:103-109 | the stream holds its untouched session, not closed |
| OriginSftp.SessionAwareInputStream.Close | src/main/java/com/indra/minsait/dvsmart/reorganization/adapter/out/sftp/SftpOriginRepositoryImpl.java:112-141 | a second close is a no-op; the first logs the close sequence, closes the session exactly once, swallows its failure, sets `closed` and rethrows the first IOException |
| OriginSftp.ReadFailure | src/main/java/com/indra/minsait/dvsmart/reorganization/adapter/out/sftp/SftpOriginRepositoryImpl.java:85 | the exception message ends with the path |
| OriginSftp.ReadFile | src/main/java/com/indra/minsait/dvsmart/reorganization/adapter/out/sftp/SftpOriginRepositoryImpl.java:54-87 | failing to borrow acquires no session; failing to open closes the borrowed session once before throwing; success hands the still checked-out session to an open stream |
| JobAudit.CountersOf | src/main/java/com/indra/minsait/dvsmart/reorganization/domain/service/JobAuditService.java:148-173 | processed = read, indexed = write, skipped = readSkip + processSkip + filter, failed = writeSkip + rollback, all zero without a step |
| JobAudit.OnlyFirstStepCounts | src/main/java/com/indra/minsait/dvsmart/reorganization/domain/service/JobAuditService.java:148-150 | steps after the first never change the counters |
| JobAudit.FormatDuration | src/main/java/com/indra/minsait/dvsmart/reorganization/domain/service/JobAuditService.java:279-293 | the text is non-empty and ends in 's' |
| JobAudit.FormatDurationShape | src/main/java/com/indra/minsait/dvsmart/reorganization/domain/service/JobAuditService.java:279-293 | for ms ≥ 0 the text is "Hh Mm Ss", "Mm Ss" or "Ss" of the three parts, with an 'h' exactly when there are hours and, without hours, an 'm' exactly when there are minutes |
| JobAudit.DurationPartsRebuild | src/main/java/com/indra/minsait/dvsmart/reorganization/domain/service/JobAuditService.java:280-284 | for a non-negative duration, minutes and seconds are in 0..59 and hours·3600 + minutes·60 + seconds is its whole seconds |
| JobAudit.ShownLetters | src/main/java/com/indra/minsait/dvsmart/reorganization/domain/service/JobAuditService.java:286-292 | an 'h' appears exactly when hours > 0; without hours an 'm' appears exactly when minutes > 0 |
| JobAudit.FormatDurationInjective | src/main/java/com/indra/minsait/dvsmart/reorganization/domain/service/JobAuditService.java:279-293 | non-negative durations with different whole seconds are shown differently |
| JobAudit.FormatDurationExample | src/main/java/com/indra/minsait/dvsmart/reorganization/domain/model/JobExecutionAudit.java:46 | 1 795 000 ms is shown as "29m 55s" |
| JobAudit.CutTrace | src/main/java/com/indra/minsait/dvsmart/reorganization/domain/service/JobAuditService.java:316-322 | at most 2000 characters; a longer text becomes its first 1997 characters and "..." |
| JobAudit.CutTraceIdempotent | src/main/java/com/indra/minsait/dvsmart/reorganization/domain/service/JobAuditService.java:316-322 | cutting a cut text changes nothing |
| JobAudit.LaterFramesInvisible | src/main/java/com/indra/minsait/dvsmart/reorganization/domain/service/JobAuditService.java:305-314 | only the first 10 frames show; later frames only count in "... k more" |
| JobAudit.TruncatedTrace | src/main/java/com/indra/minsait/dvsmart/reorganization/domain/service/JobAuditService.java:298-323 | null exactly for a null throwable, otherwise at most 2000 characters |
| JobAudit.TruncateStackTrace | src/main/java/com/indra/minsait/dvsmart/reorganization/domain/service/JobAuditService.java:298-323 | the StringBuilder loop builds exactly the truncated trace |
| JobAudit.GenerateAuditId | src/main/java/com/indra/minsait/dvsmart/reorganization/domain/service/JobAuditService.java:224-229 | the id starts with the job name and ends with the UUID's first 8 characters, two dashes between |
| JobAudit.AuditIdsDistinct | src/main/java/com/indra/minsait/dvsmart/reorganization/domain/service/JobAuditService.java:224-229 | two executions of one job never share an audit id, whatever the UUIDs |
| JobAudit.InstanceId | src/main/java/com/indra/minsait/dvsmart/reorganization/domain/service/JobAuditService.java:268-274 | a non-empty HOSTNAME wins, otherwise the host name |
| JobAudit.BuildInitialAudit | src/main/java/com/indra/minsait/dvsmart/reorganization/domain/service/JobAuditService.java:125-141 | auditId, execution id, service name, job name, start, status, parameters, host name, instance id and both timestamps set from the inputs; every other field (end, duration, counters, throughput, exit and error fields) null |
| JobAudit.DurationMs | src/main/java/com/indra/minsait/dvsmart/reorganization/domain/service/JobAuditService.java:176-189 | a duration exactly when both instants are known, and then start + duration = end |
| JobAudit.UpdateAuditWithJobMetrics | src/main/java/com/indra/minsait/dvsmart/reorganization/domain/service/JobAuditService.java:146-219 | counters from the first step, end from the job, duration = end − start exactly when both are known (and the formatted text and throughput from it), status and exit from the job, error fields from the first exception and the failure count when the job failed, kept as they were otherwise, updatedAt from the clock, identity fields kept |
| JobAudit.UpdateAuditIdempotent | src/main/java/com/indra/minsait/dvsmart/reorganization/domain/service/JobAuditService.java:146-219 | completing twice with the same job and clock equals completing once |
| JobAudit.ToDocument | src/main/java/com/indra/minsait/dvsmart/reorganization/domain/service/JobAuditService.java:332-364 | the document carries no storage id and no cleanup or step fields |
| JobAudit.ToDomain | src/main/java/com/indra/minsait/dvsmart/reorganization/domain/service/JobAuditService.java:369-401 | the audit id and execution id are read back from the document |
| JobAudit.DomainRoundTrip | src/main/java/com/indra/minsait/dvsmart/reorganization/domain/service/JobAuditService.java:332-401 | `toDomain(toDocument(a)) == a` for every audit; true by construction, since the document holds the audit record |
| JobAudit.DocumentRoundTrip | src/main/java/com/indra/minsait/dvsmart/reorganization/domain/service/JobAuditService.java:332-401 | document→domain→document keeps exactly the audit fields (by construction); a stored document's id is lost |
| JobAudit.SaveResult | src/main/java/com/indra/minsait/dvsmart/reorganization/adapter/out/persistence/mongodb/entity/JobExecutionAuditDocument.java:40-44 | `save` replaces under its id or inserts under a new one; with the unique index in the database it fails exactly when another document holds the auditId, without it it never fails |
| JobAudit.SaveKeepsUnique | src/main/java/com/indra/minsait/dvsmart/reorganization/adapter/out/persistence/mongodb/entity/JobExecutionAuditDocument.java:43-44 | under the unique index, a successful save keeps auditIds unique |
| JobAudit.ResaveWithoutIdRefused | src/main/java/com/indra/minsait/dvsmart/reorganization/domain/service/JobAuditService.java:101-104 | as written, with the unique index, re-saving the completed audit is refused as a duplicate auditId |
| JobAudit.ResaveWithoutIdDuplicates | src/main/java/com/indra/minsait/dvsmart/reorganization/domain/service/JobAuditService.java:101-104 | as written, without the index, the completed audit is inserted beside the untouched stored one, so the execution has two documents |
| JobAudit.ResaveWithIdReplaces | src/main/java/com/indra/minsait/dvsmart/reorganization/domain/service/JobAuditService.java:101-104 | with the storage id carried over, the completed audit replaces the stored one, whether or not the index exists |
| JobAudit.AuditRepository.Save | src/main/java/com/indra/minsait/dvsmart/reorganization/adapter/out/persistence/mongodb/entity/JobExecutionAuditDocument.java:40-44 | the store becomes the save's result or stays as it was, and under the unique index auditIds stay unique |
| JobAudit.AuditRepository.FindByJobExecutionId | src/main/java/com/indra/minsait/dvsmart/reorganization/domain/service/JobAuditService.java:89-92 | the single document of the execution; none gives the "Audit record not found" error, several a non-unique error |
| JobAudit.AuditRepository.CreateAuditRecord | src/main/java/com/indra/minsait/dvsmart/reorganization/domain/service/JobAuditService.java:58-79 | stores the initial audit and returns its id, or swallows the failure, returns null and changes nothing |
| JobAudit.AuditRepository.UpdateAuditRecord | src/main/java/com/indra/minsait/dvsmart/reorganization/domain/service/JobAuditService.java:84-116 | as written, with the index the store never changes and the duplicate-auditId error is logged and swallowed; without it a second document is inserted, the stored one is untouched, and the execution now has two documents, so later lookups fail as non-unique; not-found and non-unique lookups change nothing |
| JobAudit.AuditRepository.UpdateAuditRecordInPlace | src/main/java/com/indra/minsait/dvsmart/reorganization/domain/service/JobAuditService.java:84-116 | corrected: the execution's single document is replaced by its completed audit; otherwise nothing changes and the error is logged |
| FilesIndex.Incremented | src/main/java/com/indra/minsait/dvsmart/reorganization/adapter/out/batch/writter/SftpMoveAndIndexItemWriter.java:114 | `$inc` adds the amount to the old value, starting from 0 when the field is absent |
| FilesIndex.ApplyAllKeepsIdentity | src/main/java/com/indra/minsait/dvsmart/reorganization/adapter/out/batch/writter/SftpMoveAndIndexItemWriter.java:112-125 | no update changes a record's `idUnico` or `sourcePath` |
| FilesIndex.ApplyAllKeepsDeletedFlag | src/main/java/com/indra/minsait/dvsmart/reorganization/adapter/out/batch/writter/OriginFileDeleteWriter.java:158-160 | an update without a `deleted_from_source` set leaves that flag as it was |
| FilesIndex.FirstMatch | src/main/java/com/indra/minsait/dvsmart/reorganization/adapter/out/batch/writter/SftpMoveAndIndexItemWriter.java:110 | the first record whose `idUnico` matches, no earlier one matching, or none at all |
| FilesIndex.UpdatedFirst | src/main/java/com/indra/minsait/dvsmart/reorganization/adapter/out/batch/writter/SftpMoveAndIndexItemWriter.java:128 | only the first matching record gets the update; every other record is unchanged |
| FilesIndex.UpdatedFirstKeepsIds | src/main/java/com/indra/minsait/dvsmart/reorganization/adapter/out/batch/writter/SftpMoveAndIndexItemWriter.java:128 | an update never changes which record a later filter matches |
| FilesIndex.UpdatedAllKeepsIds | src/main/java/com/indra/minsait/dvsmart/reorganization/adapter/out/batch/writter/OriginFileDeleteWriter.java:146-165 | however many updates run, ids and source paths stay put |
| FilesIndex.UpdatedFirstCommute | src/main/java/com/indra/minsait/dvsmart/reorganization/adapter/out/batch/writter/OriginFileDeleteWriter.java:139-142 | updates on different ids commute, so the unordered bulk has one outcome for distinct ids |
| FilesIndex.IndexCollection.UpdateFirst | src/main/java/com/indra/minsait/dvsmart/reorganization/adapter/out/batch/writter/SftpMoveAndIndexItemWriter.java:128 | the records become the `updateFirst` result and the call is logged |
| FilesIndex.IndexCollection.BulkWrite | src/main/java/com/indra/minsait/dvsmart/reorganization/adapter/out/batch/writter/OriginFileDeleteWriter.java:165 | the records become the bulk's updates applied in turn, and every call is logged |
| MoveAndIndexWriter.StatusUpdateEffect | src/main/java/com/indra/minsait/dvsmart/reorganization/adapter/out/batch/writter/SftpMoveAndIndexItemWriter.java:107-129 | the exact record after the update: status, attempts + 1, the four SUCCESS fields only for SUCCESS, the error only when non-null |
| MoveAndIndexWriter.ItemUpdate | src/main/java/com/indra/minsait/dvsmart/reorganization/adapter/out/batch/writter/SftpMoveAndIndexItemWriter.java:64-87 | each item's update is keyed by its own `idUnico` |
| MoveAndIndexWriter.ItemUpdateEffect | src/main/java/com/indra/minsait/dvsmart/reorganization/adapter/out/batch/writter/SftpMoveAndIndexItemWriter.java:58-88 | SUCCESS exactly when the hash and the copy succeed, with the computed destination, completion, duration and deleted = false; FAILED leaves destination, completion, duration and the deleted flag alone; the error message is recorded when there is one; attempts + 1; no other field moves |
| MoveAndIndexWriter.WritePlan | src/main/java/com/indra/minsait/dvsmart/reorganization/adapter/out/batch/writter/SftpMoveAndIndexItemWriter.java:55-89 | one update per item |
| MoveAndIndexWriter.WritePlanOnePerItem | src/main/java/com/indra/minsait/dvsmart/reorganization/adapter/out/batch/writter/SftpMoveAndIndexItemWriter.java:55-89 | update i is item i's own, in chunk order |
| MoveAndIndexWriter.ItemIndependentOfOthers | src/main/java/com/indra/minsait/dvsmart/reorganization/adapter/out/batch/writter/SftpMoveAndIndexItemWriter.java:75-88 | an item's update does not depend on the other items, so a failure never stops later items |
| MoveAndIndexWriter.WriteCountsAttempts | src/main/java/com/indra/minsait/dvsmart/reorganization/adapter/out/batch/writter/SftpMoveAndIndexItemWriter.java:112-114 | after a chunk each record has exactly one more attempt per item reaching it; unreached records are unchanged |
| MoveAndIndexWriter.UpdateReorgStatus | src/main/java/com/indra/minsait/dvsmart/reorganization/adapter/out/batch/writter/SftpMoveAndIndexItemWriter.java:107-129 | the update built field by field is the status update, applied and logged as one `updateFirst` on the id |
| MoveAndIndexWriter.WriteItem | src/main/java/com/indra/minsait/dvsmart/reorganization/adapter/out/batch/writter/SftpMoveAndIndexItemWriter.java:56-88 | one loop turn issues exactly the item's update |
| MoveAndIndexWriter.Write | src/main/java/com/indra/minsait/dvsmart/reorganization/adapter/out/batch/writter/SftpMoveAndIndexItemWriter.java:53-90 | the calls sent are the chunk's plan and the collection ends as the plan applied in order |
| MoveAndAuditWriter.ProcessFileRow | src/main/java/com/indra/minsait/dvsmart/reorganization/adapter/out/batch/writter/SftpMoveAndAuditItemWriter.java:51-84 | SUCCESS exactly when the copy went through (no error), else FAILED with the message; the destination, id, origin, name and time are set in both |
| MoveAndAuditWriter.OutcomesDifferOnlyInStatus | src/main/java/com/indra/minsait/dvsmart/reorganization/adapter/out/batch/writter/SftpMoveAndAuditItemWriter.java:62-82 | the SUCCESS and FAILED rows of one item differ only in status and error |
| MoveAndAuditWriter.AuditRecords | src/main/java/com/indra/minsait/dvsmart/reorganization/adapter/out/batch/writter/SftpMoveAndAuditItemWriter.java:39-44 | one row per item |
| MoveAndAuditWriter.AuditRecordsOnePerItem | src/main/java/com/indra/minsait/dvsmart/reorganization/adapter/out/batch/writter/SftpMoveAndAuditItemWriter.java:39-44 | row i is item i's, in chunk order |
| MoveAndAuditWriter.ProcessedFileStore.SaveAll | src/main/java/com/indra/minsait/dvsmart/reorganization/adapter/out/batch/writter/SftpMoveAndAuditItemWriter.java:47 | every row is appended, by one call |
| MoveAndAuditWriter.ProcessFileOrThrow | src/main/java/com/indra/minsait/dvsmart/reorganization/adapter/out/batch/writter/SftpMoveAndAuditItemWriter.java:51-84 | a row exactly when the destination can be computed, else the uncaught hash failure |
| MoveAndAuditWriter.Write | src/main/java/com/indra/minsait/dvsmart/reorganization/adapter/out/batch/writter/SftpMoveAndAuditItemWriter.java:38-49 | fails (saving nothing) exactly when a non-empty chunk hits the hash failure; otherwise saves the chunk's rows with one `saveAll`, none for an empty chunk |
| CleanupResults.CleanupSuccess | src/main/java/com/indra/minsait/dvsmart/reorganization/domain/model/CleanupResult.java:61-67 | deleted, no error, the candidate's id and origin path |
| CleanupResults.CleanupFailure | src/main/java/com/indra/minsait/dvsmart/reorganization/domain/model/CleanupResult.java:72-79 | not deleted, the given error, the candidate's id and origin path |
| CleanupResults.FactoriesDifferOnlyInOutcome | src/main/java/com/indra/minsait/dvsmart/reorganization/domain/model/CleanupResult.java:61-79 | the two factories differ exactly in `deleted` and `errorMessage` and read nothing but id and origin path |
| CleanupValidator.Process | src/main/java/com/indra/minsait/dvsmart/reorganization/adapter/out/batch/processor/CleanupValidator.java:47-70 | a result exactly when the completion time is present and destination and origin are present and non-empty, and then `success(candidate)` |
| CleanupValidator.ValidatedResultNamesOrigin | src/main/java/com/indra/minsait/dvsmart/reorganization/adapter/out/batch/processor/CleanupValidator.java:69 | a passed candidate is deleted-marked with no error, its id and a non-empty origin path |
| CleanupValidator.EachCheckSkips | src/main/java/com/indra/minsait/dvsmart/reorganization/adapter/out/batch/processor/CleanupValidator.java:50-66 | each of the three checks alone skips the candidate |
| OriginDeleteWriter.MarkedAll | src/main/java/com/indra/minsait/dvsmart/reorganization/adapter/out/batch/writter/OriginFileDeleteWriter.java:94-111 | every result is marked after its own `rm`, none skipped |
| OriginDeleteWriter.CountDeleted | src/main/java/com/indra/minsait/dvsmart/reorganization/adapter/out/batch/writter/OriginFileDeleteWriter.java:123 | the success count never exceeds the chunk size |
| OriginDeleteWriter.DeletedCountIsRemovedCount | src/main/java/com/indra/minsait/dvsmart/reorganization/adapter/out/batch/writter/OriginFileDeleteWriter.java:94-124 | the success count is the number of `rm` calls that went through |
| OriginDeleteWriter.ResultUpdateEffect | src/main/java/com/indra/minsait/dvsmart/reorganization/adapter/out/batch/writter/OriginFileDeleteWriter.java:146-162 | a deleted result sets the flag, date and deleter; a failed one only "Cleanup failed: "+message and the attempt time; keyed by the result's id |
| OriginDeleteWriter.BulkPlan | src/main/java/com/indra/minsait/dvsmart/reorganization/adapter/out/batch/writter/OriginFileDeleteWriter.java:146-163 | one update per result |
| OriginDeleteWriter.BulkPlanOnePerResult | src/main/java/com/indra/minsait/dvsmart/reorganization/adapter/out/batch/writter/OriginFileDeleteWriter.java:144-163 | update i is result i's, keyed by its id, and every date in the bulk is the one `now` |
| OriginDeleteWriter.BulkSetsDeletedFlagOnlyOnDelete | src/main/java/com/indra/minsait/dvsmart/reorganization/adapter/out/batch/writter/OriginFileDeleteWriter.java:149-162 | after the bulk a record is flagged deleted exactly when a deleted result reaches it; all others keep their flag |
| OriginDeleteWriter.UpdateMongoDBBatch | src/main/java/com/indra/minsait/dvsmart/reorganization/adapter/out/batch/writter/OriginFileDeleteWriter.java:138-166 | the loop queues exactly the bulk plan and executes it once |
| OriginDeleteWriter.DeleteAll | src/main/java/com/indra/minsait/dvsmart/reorganization/adapter/out/batch/writter/OriginFileDeleteWriter.java:94-114 | each chunk entry, in place, is its result marked by its `rm` |
| OriginDeleteWriter.Summary | src/main/java/com/indra/minsait/dvsmart/reorganization/adapter/out/batch/writter/OriginFileDeleteWriter.java:123-124 | success = deleted results, success + failed = chunk size |
| OriginDeleteWriter.Write | src/main/java/com/indra/minsait/dvsmart/reorganization/adapter/out/batch/writter/OriginFileDeleteWriter.java:70-133 | empty chunk or failed connection change nothing; otherwise results marked in place, the bulk applied, success = removed files, success + failed = chunk size |
| CleanupCandidateReader.QuerySelectsExactly | src/main/java/com/indra/minsait/dvsmart/reorganization/adapter/out/batch/reader/CleanupCandidateReader.java:79-97 | the query returns exactly the records meeting status, not-deleted, window and destination conditions |
| CleanupCandidateReader.SafetyWindow | src/main/java/com/indra/minsait/dvsmart/reorganization/adapter/out/batch/reader/CleanupCandidateReader.java:76-83 | the cutoff is a lower bound: 89 days in, 91 days and anything older than 90 days out |
| CleanupCandidateReader.CandidateIsProjection | src/main/java/com/indra/minsait/dvsmart/reorganization/adapter/out/batch/reader/CleanupCandidateReader.java:111-120 | a candidate is exactly the six projected fields, unchanged |
| CleanupCandidateReader.Candidates | src/main/java/com/indra/minsait/dvsmart/reorganization/adapter/out/batch/reader/CleanupCandidateReader.java:103-105 | one candidate per query result, in query order |
| CleanupCandidateReader.CandidatesMeetValidator | src/main/java/com/indra/minsait/dvsmart/reorganization/adapter/out/batch/reader/CleanupCandidateReader.java:79-85 | every candidate has a completion in the window and a destination, so the validator passes it exactly when its paths are non-empty |
| CleanupCandidateReader.MovedRecordNeverCandidate | src/main/java/com/indra/minsait/dvsmart/reorganization/adapter/out/batch/reader/CleanupCandidateReader.java:80 | as written, no record the move writer has just updated is ever selected |
| CleanupCandidateReader.MovedRecordIsIntendedCandidate | src/main/java/com/indra/minsait/dvsmart/reorganization/adapter/out/batch/writter/SftpMoveAndIndexItemWriter.java:116-121 | corrected, a freshly moved file is selected while its completion is in the window |
| CleanupCandidateReader.DeletionUpdateAndSelection | src/main/java/com/indra/minsait/dvsmart/reorganization/adapter/out/batch/writter/OriginFileDeleteWriter.java:149-162 | a deletion takes a record out of the selection; a failure leaves its selection as it was |
| CleanupCandidateReader.CandidateReader.constructor | src/main/java/com/indra/minsait/dvsmart/reorganization/adapter/out/batch/reader/CleanupCandidateReader.java:55-56 | uninitialized, no query run, filtering on "COMPLETED" |
| CleanupCandidateReader.CandidateReader.Intended | src/main/java/com/indra/minsait/dvsmart/reorganization/adapter/out/batch/reader/CleanupCandidateReader.java:80 | the same reader filtering on "SUCCESS" |
| CleanupCandidateReader.CandidateReader.Read | src/main/java/com/indra/minsait/dvsmart/reorganization/adapter/out/batch/reader/CleanupCandidateReader.java:58-66 | the first read runs the query once against the collection of that moment; each read returns the next candidate or null; the query never runs twice |
| CleanupCandidateReader.CandidateReader.InitializeCandidates | src/main/java/com/indra/minsait/dvsmart/reorganization/adapter/out/batch/reader/CleanupCandidateReader.java:71-106 | the list is the projected query results and reading starts at the first |
| CleanupCandidateReader.ReadAll | src/main/java/com/indra/minsait/dvsmart/reorganization/adapter/out/batch/reader/CleanupCandidateReader.java:58-66 | k reads return the candidates in query order and then null, with one query at most |
| BatchConfig.SkipMeansIOException | src/main/java/com/indra/minsait/dvsmart/reorganization/adapter/out/batch/config/BatchReorgFullConfig.java:189-190 | skippable means any IOException subclass; the hash RuntimeException is never skipped |
| BatchConfig.RetryableAreSocketFailures | src/main/java/com/indra/minsait/dvsmart/reorganization/adapter/out/batch/config/BatchReorgFullConfig.java:194-195 | retryable means timeouts and socket failures, all of them skippable; other IOExceptions are skipped without retry |
| BatchConfig.DefaultStepPolicy | src/main/java/com/indra/minsait/dvsmart/reorganization/infrastructure/config/BatchConfigProperties.java:30-34 | unconfigured, chunks of 100, skip limit 5, retry limit 3 |
| BatchConfig.DocumentToLegacy | src/main/java/com/indra/minsait/dvsmart/reorganization/adapter/out/batch/config/BatchReorgFullConfig.java:110-123 | null exactly for null |
| BatchConfig.DocumentToLegacyFields | src/main/java/com/indra/minsait/dvsmart/reorganization/adapter/out/batch/config/BatchReorgFullConfig.java:116-121 | id, origin path, name and modification time copied, so the destination is computed from the document's path and name |
| BatchConfig.HashPartition | src/main/java/com/indra/minsait/dvsmart/reorganization/adapter/out/batch/config/BatchReorgFullConfig.java:128-139 | the input passes unchanged exactly when it is null or the hash can be computed; a non-null input without SHA-256 gives the hash failure |
| BatchConfig.CompositeIsDocumentToLegacy | src/main/java/com/indra/minsait/dvsmart/reorganization/adapter/out/batch/config/BatchReorgFullConfig.java:144-152 | the composite is the document conversion alone whenever SHA-256 exists, else the hash failure for every document |
| BatchConfig.LegacyReachesItsRecord | src/main/java/com/indra/minsait/dvsmart/reorganization/adapter/out/batch/config/BatchReorgFullConfig.java:116-117 | the converted item's id reaches its own record (or an earlier duplicate) in the move writer's `updateFirst` |

## Left out

- SHA-256 is not part of this model. It is the parameter `sha256`, any
  function returning 32 signed bytes. Whether the platform offers it is the
  boolean `digestAvailable`.
- The network and the servers are oracles given per call:
  - SSH and SFTP I/O;
  - session pooling;
  - how `write` on the destination ends;
  - `rm` and the SSH connection on the origin.
- The destination's `exists` and `mkdir` act on the session's state.
  `exists` is a stat, true for a directory or a regular file at the path.
  `mkdir` adds a directory.
  - `mkdir` and `exists` failures are not modelled, neither inside
    `DestinationSftp.DestinationSession.TransferTo` nor inside
    `DestinationSftp.DestinationSession.CreateDirectories`, whose
    "Failed to create directories on destination SFTP: " wrapper is therefore
    never reached.
- The file copy in both move writers (`readFile`, `transferTo`, closing the
  stream) is one `CopyOutcome` per item. `DestinationSftp` and `OriginSftp`
  model those calls on their own.
- Clocks, `UUID.randomUUID`, the host-name lookup and the environment are
  parameters.
- `JobAudit.BuildInitialAudit`: one clock reading for `createdAt` and
  `updatedAt`, where the source reads the clock twice.
- The conversion of `LocalDateTime` through the system time zone is not
  modelled.
- `filesPerSecond` is computed exactly as a `real`, not as a `double`.
- Job parameters are a `map<string, string>`, not a map to arbitrary
  objects.
- Parallel deletion (a thread pool of 10 with `CompletableFuture`s) is taken
  one result after the other. The outcome is the same because each task
  writes only its own result.
- The UNORDERED bulk is applied in plan order. `FilesIndex.UpdatedFirstCommute`
  shows that the order does not matter for distinct ids. Duplicate ids in
  one chunk are applied in plan order, and Mongo gives no such promise.
- Exceptions thrown by Mongo itself are not modelled: `updateFirst`,
  `bulkOps.execute`, `saveAll` and `find`.
  `MoveAndIndexWriter.Write` therefore never sees a failing `updateFirst`
  inside its `try`.
- `OriginDeleteWriter.Write`: the model does not capture aliasing between
  the `CleanupResult` objects of a chunk. The chunk is an array of values
  updated in place. Closing the SSH client in `finally` is not modelled.
- `OriginSftp.PooledSession.Close`: a `session.close()` that throws still
  counts the session as returned. The model says nothing about what the
  pool does then.
- The finalizer of `SessionAwareInputStream` is not modelled: it depends on
  garbage collection.
- The `BufferedInputStream` wrapper in `transferTo` is not modelled as a
  buffer. Its one effect on behaviour is that closing it closes the origin
  stream. `DestinationSftp.DestinationSession.TransferTo` takes whether that
  close throws as the parameter `closeFails`. What the close does to the
  origin session is `OriginSftp.SessionAwareInputStream.Close`.
- `DestinationSftp.DestinationSession.TransferTo`: what a broken-off `write`
  leaves at the path is any content or nothing, as the server decides. The
  model does not promise it is a prefix of the data.
- `JobAudit.CutTrace`: lengths are counted in Unicode code points, where
  Java's `length()` and `substring` count UTF-16 code units. For text
  outside the Basic Multilingual Plane, such as emoji in an exception
  message, the source cuts at a different point and can split a surrogate
  pair. The model keeps up to 2000 code points.
- `JobAudit.SaveResult`: whether the unique index on `auditId` exists is
  the parameter `uniqueIndex` (the field `AuditRepository.uniqueIndex`).
  The program declares the index with `@Indexed(unique = true)` but does
  not turn on automatic index creation, so it exists only if the
  deployment created it. Both cases are proved.
- The audit document is modelled as the domain record plus the storage id
  and the cleanup fields. The Java mappers copy the 29 fields one by one,
  so `JobAudit.DomainRoundTrip` and `JobAudit.DocumentRoundTrip` hold by
  construction and do not check that copying.
- `PathResolver.CalculateDestinationPath`: `baseDir` is a `string`. An unset
  `dest.baseDir` property is null in Java, and `%s` renders it as "null";
  that case is the model's input "null", which gives the same path.
- Not modelled: Spring Batch machinery (step builders, async processor and
  writer, task executor, the counting of skips and retries against their
  limits), ShedLock, the HTTP controllers, the thin repository wrappers and
  the cursor readers. Only the skip/retry classification and the configured
  limits are modelled.
- The `files_index` collection is a sequence of records in collection order.
  It is not a map, so `updateFirst` on a duplicated or null `idUnico`
  reaches the first such record, as Mongo does.
- The record carries the field names the writers and the reader use:
  `reorg_completedAt` and `deleted_from_source`. The entity classes do not
  match the core files: `DisorganizedFilesIndexDocument` has neither
  field, and `JobExecutionAuditDocument` declares `totalFilesReorganized`
  where the mappers call `totalFilesIndexed`. The core files do not compile
  against those entities, and the model uses the core files' names.
- `JobAudit.UpdateAuditRecord` requires the id generated for an insert to be
  new. Mongo's generated ids are.

## Findings

| source | as written | input that shows it | evidently intended | confidence | as-written member | corrected member |
|---|---|---|---|---|---|---|
| src/main/java/com/indra/minsait/dvsmart/reorganization/domain/service/JobAuditService.java:101-104 | `toDocument` drops the stored document's `id`, so the completing `save` is an insert carrying the same `auditId`. The outcome depends on whether the deployment created the declared unique index. If it did, the insert is refused and the error swallowed, so the audit is never completed. If it did not, a second document is inserted beside the incomplete one, and every later `findByJobExecutionId` for that execution fails as non-unique. | any execution whose audit was created: the store holds one document for it, and `updateAuditRecord` is called when the job ends | the completed audit replaces the stored document under its id | not executed | JobAudit.ResaveWithoutIdRefused | JobAudit.ResaveWithIdReplaces |
| src/main/java/com/indra/minsait/dvsmart/reorganization/adapter/out/batch/reader/CleanupCandidateReader.java:80 | the cleanup query selects `reorg_status == "COMPLETED"`, but the move writer only writes "SUCCESS" or "FAILED". No moved file is ever selected for deletion. | a record just updated by a successful move: status "SUCCESS", completion now, destination set, `deleted_from_source` false | select the status the move writer records, "SUCCESS" | not executed | CleanupCandidateReader.MovedRecordNeverCandidate | CleanupCandidateReader.MovedRecordIsIntendedCandidate |
