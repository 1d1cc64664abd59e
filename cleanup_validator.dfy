/**
 * The in-memory check of a cleanup candidate before deletion
 * (CleanupValidator): a candidate without completion time, destination path
 * or origin path is skipped (`null`); any other becomes a success result to
 * hand to the delete writer.
 */
module CleanupValidator {
  import opened Wrappers
  import opened Domain
  import opened CleanupResults

  /** A nullable string that is neither null nor empty. */
  predicate Present(s: Option<string>) {
    s.Some? && |s.value| > 0
  }

  /** `process(candidate)`, with `None` for the skipped candidate. */
  function Process(c: CleanupCandidate): (r: Option<CleanupResult>)
    ensures r.Some? <==> c.reorgCompletedAt.Some? && Present(c.destinationPath) && Present(c.sourcePath)
    ensures r.Some? ==> r.value == CleanupSuccess(c)
  {
    if c.reorgCompletedAt.None? then None
    else if c.destinationPath.None? || |c.destinationPath.value| == 0 then None
    else if c.sourcePath.None? || |c.sourcePath.value| == 0 then None
    else Some(CleanupSuccess(c))
  }

  /**
   * Every result the validator lets through is marked deleted, carries no
   * error, and names the candidate's record and a non-empty origin path.
   */
  lemma ValidatedResultNamesOrigin(c: CleanupCandidate)
    requires Process(c).Some?
    ensures var r := Process(c).value;
      r.deleted && r.errorMessage == None && r.idUnico == c.idUnico
      && r.sourcePath == c.sourcePath && Present(r.sourcePath)
  {
  }

  /** Each of the three checks alone is enough to skip a candidate. */
  lemma EachCheckSkips(c: CleanupCandidate)
    ensures c.reorgCompletedAt.None? ==> Process(c).None?
    ensures c.destinationPath == None || c.destinationPath == Some("") ==> Process(c).None?
    ensures c.sourcePath == None || c.sourcePath == Some("") ==> Process(c).None?
  {
  }
}
