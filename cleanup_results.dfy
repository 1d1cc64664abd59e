/**
 * The outcome of cleaning up one file (CleanupResult): which record, which
 * origin path, whether the origin copy was deleted, and the error otherwise.
 * The two factories build a result from a candidate.
 */
module CleanupResults {
  import opened Wrappers
  import opened Domain

  datatype CleanupResult = CleanupResult(
    idUnico: Option<string>,
    sourcePath: Option<string>,
    deleted: bool,
    errorMessage: Option<string>)

  /** `CleanupResult.success(candidate)`: the candidate's id and origin path, deleted, no error. */
  function CleanupSuccess(c: CleanupCandidate): (r: CleanupResult)
    ensures r.deleted && r.errorMessage == None
    ensures r.idUnico == c.idUnico && r.sourcePath == c.sourcePath
  {
    CleanupResult(c.idUnico, c.sourcePath, true, None)
  }

  /** `CleanupResult.failure(candidate, error)`: the candidate's id and origin path, not deleted, the error kept as given. */
  function CleanupFailure(c: CleanupCandidate, error: Option<string>): (r: CleanupResult)
    ensures !r.deleted && r.errorMessage == error
    ensures r.idUnico == c.idUnico && r.sourcePath == c.sourcePath
  {
    CleanupResult(c.idUnico, c.sourcePath, false, error)
  }

  /**
   * The two factories agree on everything but the outcome: a success turned
   * into a failure with the same error is the failure, and two candidates
   * with the same id and origin path give the same results.
   */
  lemma FactoriesDifferOnlyInOutcome(c: CleanupCandidate, d: CleanupCandidate, error: Option<string>)
    ensures CleanupSuccess(c).(deleted := false, errorMessage := error) == CleanupFailure(c, error)
    ensures CleanupSuccess(c) != CleanupFailure(c, error)
    ensures c.idUnico == d.idUnico && c.sourcePath == d.sourcePath ==>
      CleanupSuccess(c) == CleanupSuccess(d) && CleanupFailure(c, error) == CleanupFailure(d, error)
  {
  }
}
