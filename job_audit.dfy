/**
 * The job audit service (JobAuditService): one audit document per job
 * execution, created when the job starts and meant to be completed with the
 * job's counters, duration and first failure when it ends.
 *
 * Instants are epoch milliseconds. The clock, the random UUID, the host name
 * and the environment are parameters. The audit store is the class
 * `AuditRepository`, a map from storage id to document.
 */
module JobAudit {
  import opened Wrappers
  import opened JavaText

  /** The counters of one step execution that the audit reads. */
  datatype StepExecution = StepExecution(
    readCount: int,
    writeCount: int,
    commitCount: int,
    rollbackCount: int,
    readSkipCount: int,
    processSkipCount: int,
    filterCount: int,
    writeSkipCount: int)

  /** A `Throwable`: its class name, message and rendered stack frames. */
  datatype Throwable = Throwable(className: string, message: Option<string>, stackTrace: seq<string>)

  /** The parts of a Spring Batch job execution the audit reads. */
  datatype JobExecution = JobExecution(
    id: int,
    jobName: string,
    status: string,
    exitCode: string,
    exitDescription: string,
    startTime: Option<int>,
    endTime: Option<int>,
    parameters: map<string, string>,
    stepExecutions: seq<StepExecution>,
    failureExceptions: seq<Throwable>)

  /** The audit domain model, `JobExecutionAudit`; every field may be null. */
  datatype JobExecutionAudit = JobExecutionAudit(
    auditId: Option<string>,
    jobExecutionId: Option<int>,
    serviceName: Option<string>,
    jobName: Option<string>,
    startTime: Option<int>,
    endTime: Option<int>,
    durationMs: Option<int>,
    durationFormatted: Option<string>,
    status: Option<string>,
    exitCode: Option<string>,
    exitDescription: Option<string>,
    totalFilesIndexed: Option<int>,
    totalFilesProcessed: Option<int>,
    totalFilesSkipped: Option<int>,
    totalFilesFailed: Option<int>,
    totalDirectoriesProcessed: Option<int>,
    readCount: Option<int>,
    writeCount: Option<int>,
    commitCount: Option<int>,
    rollbackCount: Option<int>,
    filesPerSecond: Option<real>,
    errorDescription: Option<string>,
    errorStackTrace: Option<string>,
    failureCount: Option<int>,
    jobParameters: Option<map<string, string>>,
    hostname: Option<string>,
    instanceId: Option<string>,
    createdAt: Option<int>,
    updatedAt: Option<int>)

  /** One entry of the per-step breakdown a document may carry. */
  datatype StepExecutionSummary = StepExecutionSummary(
    stepName: Option<string>,
    status: Option<string>,
    readCount: Option<int>,
    writeCount: Option<int>,
    skipCount: Option<int>,
    duration: Option<string>)

  /**
   * The stored document: the audit's fields plus the storage `id` and the
   * cleanup-stage fields, which the mappers do not carry.
   */
  datatype AuditDocument = AuditDocument(
    id: Option<string>,
    audit: JobExecutionAudit,
    totalFilesDeleted: Option<int>,
    totalFilesDeletionFailed: Option<int>,
    stepExecutions: Option<seq<StepExecutionSummary>>)

  // ---------------------------------------------------------------- counters

  /** The counters the audit records, as `updateAuditWithJobMetrics` derives them. */
  datatype Counters = Counters(
    indexed: int,
    processed: int,
    skipped: int,
    failed: int,
    read: int,
    write: int,
    commit: int,
    rollback: int)

  /** Counters from the first step execution, or all zero when there is none. */
  function CountersOf(steps: seq<StepExecution>): (c: Counters)
    ensures steps == [] ==> c == Counters(0, 0, 0, 0, 0, 0, 0, 0)
    ensures steps != [] ==>
      var s := steps[0];
      c.processed == s.readCount && c.indexed == s.writeCount
      && c.skipped == s.readSkipCount + s.processSkipCount + s.filterCount
      && c.failed == s.writeSkipCount + s.rollbackCount
      && c.read == s.readCount && c.write == s.writeCount
      && c.commit == s.commitCount && c.rollback == s.rollbackCount
  {
    if steps == [] then Counters(0, 0, 0, 0, 0, 0, 0, 0)
    else
      var s := steps[0];
      Counters(s.writeCount, s.readCount,
               s.readSkipCount + s.processSkipCount + s.filterCount,
               s.writeSkipCount + s.rollbackCount,
               s.readCount, s.writeCount, s.commitCount, s.rollbackCount)
  }

  /** Only the first step counts: steps after it never change the counters. */
  lemma OnlyFirstStepCounts(first: StepExecution, rest: seq<StepExecution>, other: seq<StepExecution>)
    ensures CountersOf([first] + rest) == CountersOf([first] + other)
  {
    assert ([first] + rest)[0] == first == ([first] + other)[0];
  }

  // ---------------------------------------------------------------- duration

  /** `Duration.ofMillis(ms)`'s whole seconds: rounded down, as `Duration` keeps a non-negative nano part. */
  function DurationSeconds(ms: int): int {
    ms / 1000
  }

  /** `toHours()`, `toMinutesPart()` and `toSecondsPart()` of `Duration.ofMillis(ms)`. */
  function Hours(ms: int): int {
    TruncDiv(DurationSeconds(ms), 3600)
  }

  function MinutesPart(ms: int): int {
    TruncRem(TruncDiv(DurationSeconds(ms), 60), 60)
  }

  function SecondsPart(ms: int): int {
    TruncRem(DurationSeconds(ms), 60)
  }

  /**
   * `formatDuration`: "Hh Mm Ss" when there are hours, else "Mm Ss" when
   * there are minutes, else "Ss".
   */
  function FormatDuration(ms: int): (r: string)
    ensures r != [] && r[|r| - 1] == 's'
  {
    var h, m, s := Hours(ms), MinutesPart(ms), SecondsPart(ms);
    if h > 0 then LongToDecimal(h) + ("h " + (LongToDecimal(m) + ("m " + (LongToDecimal(s) + "s"))))
    else if m > 0 then LongToDecimal(m) + ("m " + (LongToDecimal(s) + "s"))
    else LongToDecimal(s) + "s"
  }

  /** For a non-negative duration the three parts rebuild its whole seconds, with minutes and seconds in 0..59. */
  lemma DurationPartsRebuild(ms: int)
    requires ms >= 0
    ensures Hours(ms) >= 0 && 0 <= MinutesPart(ms) < 60 && 0 <= SecondsPart(ms) < 60
    ensures Hours(ms) * 3600 + MinutesPart(ms) * 60 + SecondsPart(ms) == ms / 1000
  {
    var t := ms / 1000;
    assert TruncDiv(t, 60) == t / 60;
    assert TruncDiv(t, 3600) == t / 3600;
    assert (t / 60) / 60 == t / 3600;
    assert TruncRem(t / 60, 60) == (t / 60) % 60;
    assert TruncRem(t, 60) == t % 60;
  }

  /** The text the three parts are shown as, in each of the three shapes. */
  function ShownParts(h: nat, m: nat, s: nat): string {
    if h > 0 then NatToDecimal(h) + ("h " + MinutesText(m, s))
    else if m > 0 then MinutesText(m, s)
    else NatToDecimal(s) + "s"
  }

  lemma NoLetterInDigits(d: string, c: char)
    requires forall i :: 0 <= i < |d| ==> IsDigit(d[i])
    requires !IsDigit(c)
    ensures c !in d
  {
  }

  /** "Mm Ss" determines its two digit runs. */
  lemma MinutesThenSeconds(dm1: string, ds1: string, dm2: string, ds2: string)
    requires forall i :: 0 <= i < |dm1| ==> IsDigit(dm1[i])
    requires forall i :: 0 <= i < |dm2| ==> IsDigit(dm2[i])
    requires forall i :: 0 <= i < |ds1| ==> IsDigit(ds1[i])
    requires forall i :: 0 <= i < |ds2| ==> IsDigit(ds2[i])
    requires dm1 + ("m " + (ds1 + "s")) == dm2 + ("m " + (ds2 + "s"))
    ensures dm1 == dm2 && ds1 == ds2
  {
    DigitsThenStop(dm1, "m " + (ds1 + "s"), dm2, "m " + (ds2 + "s"));
    assert ds1 + "s" == ("m " + (ds1 + "s"))[2..];
    assert ds2 + "s" == ("m " + (ds2 + "s"))[2..];
    DigitsThenStop(ds1, "s", ds2, "s");
  }

  /** Whether there is an 'h' tells whether hours are shown, and likewise 'm' for minutes. */
  lemma ShownLetters(h: nat, m: nat, s: nat)
    ensures 'h' in ShownParts(h, m, s) <==> h > 0
    ensures h == 0 ==> ('m' in ShownParts(h, m, s) <==> m > 0)
  {
    var dh, dm, ds := NatToDecimal(h), NatToDecimal(m), NatToDecimal(s);
    NoLetterInDigits(dh, 'h');
    NoLetterInDigits(dm, 'h');
    NoLetterInDigits(ds, 'h');
    NoLetterInDigits(dm, 'm');
    NoLetterInDigits(ds, 'm');
    if h > 0 {
      assert ShownParts(h, m, s)[|dh|] == 'h';
    } else if m > 0 {
      assert ShownParts(h, m, s)[|dm|] == 'm';
    }
  }

  /** The "Mm Ss" tail of the shown text. */
  function MinutesText(m: nat, s: nat): string {
    NatToDecimal(m) + ("m " + (NatToDecimal(s) + "s"))
  }

  /** The shown text determines the parts it shows. */
  lemma ShownPartsInjective(h1: nat, m1: nat, s1: nat, h2: nat, m2: nat, s2: nat)
    requires ShownParts(h1, m1, s1) == ShownParts(h2, m2, s2)
    ensures h1 == h2
    ensures m1 == m2
    ensures s1 == s2
  {
    ShownLetters(h1, m1, s1);
    ShownLetters(h2, m2, s2);
    var dh1, dh2 := NatToDecimal(h1), NatToDecimal(h2);
    if h1 > 0 {
      var t1, t2 := MinutesText(m1, s1), MinutesText(m2, s2);
      DigitsThenStop(dh1, "h " + t1, dh2, "h " + t2);
      NatToDecimalInjective(h1, h2);
      assert t1 == ("h " + t1)[2..] && t2 == ("h " + t2)[2..];
      MinutesThenSeconds(NatToDecimal(m1), NatToDecimal(s1), NatToDecimal(m2), NatToDecimal(s2));
      NatToDecimalInjective(m1, m2);
      NatToDecimalInjective(s1, s2);
    } else if m1 > 0 {
      MinutesThenSeconds(NatToDecimal(m1), NatToDecimal(s1), NatToDecimal(m2), NatToDecimal(s2));
      NatToDecimalInjective(m1, m2);
      NatToDecimalInjective(s1, s2);
    } else {
      DigitsThenStop(NatToDecimal(s1), "s", NatToDecimal(s2), "s");
      NatToDecimalInjective(s1, s2);
    }
  }

  /**
   * The shape of `formatDuration` for a non-negative duration: the parts it
   * shows, an 'h' exactly when there are hours, and without hours an 'm'
   * exactly when there are minutes.
   */
  lemma FormatDurationShape(ms: int)
    requires ms >= 0
    ensures Hours(ms) >= 0 && MinutesPart(ms) >= 0 && SecondsPart(ms) >= 0
    ensures FormatDuration(ms) == ShownParts(Hours(ms), MinutesPart(ms), SecondsPart(ms))
    ensures 'h' in FormatDuration(ms) <==> Hours(ms) > 0
    ensures Hours(ms) == 0 ==> ('m' in FormatDuration(ms) <==> MinutesPart(ms) > 0)
  {
    DurationPartsRebuild(ms);
    assert FormatDuration(ms) == ShownParts(Hours(ms), MinutesPart(ms), SecondsPart(ms));
    ShownLetters(Hours(ms), MinutesPart(ms), SecondsPart(ms));
  }

  /** Non-negative durations with different whole seconds are shown differently. */
  lemma FormatDurationInjective(a: int, b: int)
    requires a >= 0 && b >= 0
    requires FormatDuration(a) == FormatDuration(b)
    ensures a / 1000 == b / 1000
  {
    DurationPartsRebuild(a);
    DurationPartsRebuild(b);
    FormatDurationShape(a);
    FormatDurationShape(b);
    ShownPartsInjective(Hours(a), MinutesPart(a), SecondsPart(a), Hours(b), MinutesPart(b), SecondsPart(b));
  }

  /** The parts of 1 795 000 ms: no hours, 29 minutes, 55 seconds. */
  lemma ExampleParts()
    ensures Hours(1795000) == 0 && MinutesPart(1795000) == 29 && SecondsPart(1795000) == 55
  {
    assert DurationSeconds(1795000) == 1795;
    assert TruncDiv(1795, 60) == 29;
  }

  /** The digits of the example's minutes and seconds. */
  lemma ExampleDigits()
    ensures LongToDecimal(29) == "29" && LongToDecimal(55) == "55"
  {
    assert NatToDecimal(2) == "2" && NatToDecimal(5) == "5";
  }

  /** The documented example: 29 minutes 55 seconds. */
  lemma FormatDurationExample()
    ensures FormatDuration(1795000) == "29m 55s"
  {
    ExampleParts();
    ExampleDigits();
  }

  // ------------------------------------------------------------ stack traces

  const MAX_FRAMES: nat := 10
  const MAX_TRACE: nat := 2000

  /** One "\tat frame\n" line per frame, in order. */
  function FrameLines(frames: seq<string>): string {
    if frames == [] then ""
    else FrameLines(frames[..|frames| - 1]) + ("\tat " + frames[|frames| - 1] + "\n")
  }

  /** The text `truncateStackTrace` builds before the length cut. */
  function StackTraceText(t: Throwable): string {
    var k := |t.stackTrace|;
    var shown := if k < MAX_FRAMES then k else MAX_FRAMES;
    t.className + ": " + OrNull(t.message) + "\n"
    + FrameLines(t.stackTrace[..shown])
    + (if k > shown then "\t... " + NatToDecimal(k - shown) + " more" else "")
  }

  /** The length cut: at most 2000 characters, the first 1997 and "..." when cut. */
  function CutTrace(full: string): (r: string)
    ensures |r| <= MAX_TRACE
    ensures |full| <= MAX_TRACE ==> r == full
    ensures |full| > MAX_TRACE ==> |r| == MAX_TRACE && r[..1997] == full[..1997] && r[1997..] == "..."
  {
    if |full| > MAX_TRACE then full[..1997] + "..." else full
  }

  /** Cutting twice cuts nothing more. */
  lemma CutTraceIdempotent(full: string)
    ensures CutTrace(CutTrace(full)) == CutTrace(full)
  {
  }

  /** Frames after the tenth never show: only their number does. */
  lemma LaterFramesInvisible(t: Throwable, u: Throwable)
    requires t.className == u.className && t.message == u.message
    requires |t.stackTrace| == |u.stackTrace|
    requires |t.stackTrace| >= MAX_FRAMES ==> t.stackTrace[..MAX_FRAMES] == u.stackTrace[..MAX_FRAMES]
    requires |t.stackTrace| < MAX_FRAMES ==> t.stackTrace == u.stackTrace
    ensures StackTraceText(t) == StackTraceText(u)
  {
  }

  /** `truncateStackTrace`: null gives null; otherwise the cut text. */
  function TruncatedTrace(t: Option<Throwable>): (r: Option<string>)
    ensures r.None? <==> t.None?
    ensures r.Some? ==> |r.value| <= MAX_TRACE
  {
    match t
    case None => None
    case Some(th) => Some(CutTrace(StackTraceText(th)))
  }

  /** One more frame line extends the text by that frame's line. */
  lemma AppendFrame(head: string, frames: seq<string>, i: nat)
    requires i < |frames|
    ensures head + FrameLines(frames[..i]) + ("\tat " + frames[i] + "\n") == head + FrameLines(frames[..i + 1])
  {
    assert frames[..i + 1][..i] == frames[..i];
  }

  /** `truncateStackTrace` as written: a `StringBuilder` filled frame by frame. */
  method TruncateStackTrace(t: Option<Throwable>) returns (r: Option<string>)
    ensures r == TruncatedTrace(t)
  {
    if t.None? {
      return None;
    }
    var th := t.value;
    var sb := th.className + ": " + OrNull(th.message) + "\n";
    var elements := th.stackTrace;
    var limit := if |elements| < MAX_FRAMES then |elements| else MAX_FRAMES;
    for i := 0 to limit
      invariant sb == th.className + ": " + OrNull(th.message) + "\n" + FrameLines(elements[..i])
    {
      AppendFrame(th.className + ": " + OrNull(th.message) + "\n", elements, i);
      sb := sb + ("\tat " + elements[i] + "\n");
    }
    if |elements| > limit {
      sb := sb + ("\t... " + NatToDecimal(|elements| - limit) + " more");
    }
    assert sb == StackTraceText(th);
    if |sb| > MAX_TRACE {
      return Some(sb[..1997] + "...");
    }
    return Some(sb);
  }

  // ---------------------------------------------------------- the audit row

  /** `generateAuditId`: job name, execution id and the first 8 characters of a random UUID. */
  function GenerateAuditId(jobName: string, executionId: int, uuid: string): (r: string)
    requires |uuid| >= 8
    ensures |r| == |jobName| + |LongToDecimal(executionId)| + 10
    ensures r[..|jobName|] == jobName && r[|r| - 8..] == uuid[..8]
  {
    jobName + "-" + LongToDecimal(executionId) + "-" + uuid[..8]
  }

  /** Two executions of the same job never share an audit id, whatever the UUIDs. */
  lemma AuditIdsDistinct(jobName: string, id1: nat, id2: nat, u1: string, u2: string)
    requires |u1| >= 8 && |u2| >= 8 && id1 != id2
    ensures GenerateAuditId(jobName, id1, u1) != GenerateAuditId(jobName, id2, u2)
  {
    var d1, d2 := NatToDecimal(id1), NatToDecimal(id2);
    var t1, t2 := GenerateAuditId(jobName, id1, u1), GenerateAuditId(jobName, id2, u2);
    var p := |jobName| + 1;
    if t1 == t2 {
      assert t1[p..] == d1 + ("-" + u1[..8]);
      assert t2[p..] == d2 + ("-" + u2[..8]);
      DigitsThenStop(d1, "-" + u1[..8], d2, "-" + u2[..8]);
      NatToDecimalInjective(id1, id2);
    }
  }

  /** `getHostname`: the local host name, or "unknown" when the lookup throws. */
  function Hostname(lookup: Option<string>): string {
    lookup.GetOr("unknown")
  }

  /** `getInstanceId`: a non-empty HOSTNAME environment variable, else the host name. */
  function InstanceId(envHostname: Option<string>, lookup: Option<string>): (r: string)
    ensures envHostname.Some? && envHostname.value != "" ==> r == envHostname.value
    ensures (envHostname.None? || envHostname.value == "") ==> r == Hostname(lookup)
  {
    if envHostname.Some? && envHostname.value != "" then envHostname.value else Hostname(lookup)
  }

  /** What the audit builder yields with no field set: every field null. */
  const EmptyAudit := JobExecutionAudit(
    None, None, None, None, None, None, None, None, None, None, None, None, None, None, None,
    None, None, None, None, None, None, None, None, None, None, None, None, None, None)

  /** `buildInitialAudit`: identification, start, status and parameters; everything else null. */
  function BuildInitialAudit(job: JobExecution, serviceName: string, auditId: string,
                             hostname: string, instanceId: string, now: int): (a: JobExecutionAudit)
    ensures a.auditId == Some(auditId) && a.jobExecutionId == Some(job.id)
    ensures a.startTime == job.startTime && a.status == Some(job.status)
    ensures a.endTime.None? && a.durationMs.None? && a.totalFilesIndexed.None? && a.errorDescription.None?
    ensures a.createdAt == Some(now) && a.updatedAt == Some(now)
    ensures a == EmptyAudit.(
      auditId := Some(auditId), jobExecutionId := Some(job.id), serviceName := Some(serviceName),
      jobName := Some(job.jobName), startTime := job.startTime, status := Some(job.status),
      jobParameters := Some(job.parameters), hostname := Some(hostname), instanceId := Some(instanceId),
      createdAt := Some(now), updatedAt := Some(now))
  {
    JobExecutionAudit(
      Some(auditId), Some(job.id), Some(serviceName), Some(job.jobName),
      job.startTime, None, None, None,
      Some(job.status), None, None,
      None, None, None, None, None,
      None, None, None, None, None,
      None, None, None,
      Some(job.parameters), Some(hostname), Some(instanceId),
      Some(now), Some(now))
  }

  /** The duration `updateAuditWithJobMetrics` records: only when both instants are known. */
  function DurationMs(start: Option<int>, end: Option<int>): (d: Option<int>)
    ensures d.Some? <==> start.Some? && end.Some?
    ensures d.Some? ==> start.value + d.value == end.value
  {
    if start.Some? && end.Some? then Some(end.value - start.value) else None
  }

  /** Throughput, when the duration and the indexed count are positive (exact, not a `double`). */
  function FilesPerSecond(d: Option<int>, indexed: int): Option<real> {
    if d.Some? && d.value > 0 && indexed > 0 then Some(indexed as real / (d.value as real / 1000.0))
    else None
  }

  /**
   * `updateAuditWithJobMetrics`: end time, duration, status, exit status and
   * counters from the job; error fields only when it failed; `updatedAt`
   * from the clock. The rest of the audit is kept.
   */
  function UpdateAuditWithJobMetrics(audit: JobExecutionAudit, job: JobExecution, now: int): (r: JobExecutionAudit)
    ensures var c := CountersOf(job.stepExecutions);
      r.totalFilesIndexed == Some(c.indexed) && r.totalFilesProcessed == Some(c.processed)
      && r.totalFilesSkipped == Some(c.skipped) && r.totalFilesFailed == Some(c.failed)
      && r.readCount == Some(c.read) && r.writeCount == Some(c.write)
      && r.commitCount == Some(c.commit) && r.rollbackCount == Some(c.rollback)
    ensures r.endTime == job.endTime
    ensures r.durationMs == DurationMs(audit.startTime, job.endTime)
    ensures r.durationMs.Some? <==> audit.startTime.Some? && job.endTime.Some?
    ensures r.durationMs.Some? ==> audit.startTime.value + r.durationMs.value == job.endTime.value
    ensures r.filesPerSecond == FilesPerSecond(r.durationMs, CountersOf(job.stepExecutions).indexed)
    ensures r.durationMs.Some? ==> r.durationFormatted == Some(FormatDuration(r.durationMs.value))
    ensures r.durationMs.None? ==> r.durationFormatted.None? && r.filesPerSecond.None?
    ensures r.status == Some(job.status) && r.exitCode == Some(job.exitCode)
    ensures r.exitDescription == Some(job.exitDescription)
    ensures job.failureExceptions == [] ==>
      r.errorDescription == audit.errorDescription && r.errorStackTrace == audit.errorStackTrace
      && r.failureCount == audit.failureCount
    ensures job.failureExceptions != [] ==>
      r.errorDescription == job.failureExceptions[0].message
      && r.errorStackTrace == TruncatedTrace(Some(job.failureExceptions[0]))
      && r.failureCount == Some(|job.failureExceptions|)
    ensures r.updatedAt == Some(now)
    ensures r.auditId == audit.auditId && r.jobExecutionId == audit.jobExecutionId
      && r.serviceName == audit.serviceName && r.jobName == audit.jobName
      && r.startTime == audit.startTime && r.totalDirectoriesProcessed == audit.totalDirectoriesProcessed
      && r.jobParameters == audit.jobParameters && r.hostname == audit.hostname
      && r.instanceId == audit.instanceId && r.createdAt == audit.createdAt
  {
    var c := CountersOf(job.stepExecutions);
    var d := DurationMs(audit.startTime, job.endTime);
    var withMetrics := audit.(
      endTime := job.endTime,
      durationMs := d,
      durationFormatted := if d.Some? then Some(FormatDuration(d.value)) else None,
      status := Some(job.status),
      exitCode := Some(job.exitCode),
      exitDescription := Some(job.exitDescription),
      totalFilesIndexed := Some(c.indexed),
      totalFilesProcessed := Some(c.processed),
      totalFilesSkipped := Some(c.skipped),
      totalFilesFailed := Some(c.failed),
      readCount := Some(c.read),
      writeCount := Some(c.write),
      commitCount := Some(c.commit),
      rollbackCount := Some(c.rollback),
      filesPerSecond := FilesPerSecond(d, c.indexed));
    var withErrors :=
      if job.failureExceptions == [] then withMetrics
      else
        var first := job.failureExceptions[0];
        withMetrics.(
          errorDescription := first.message,
          errorStackTrace := TruncatedTrace(Some(first)),
          failureCount := Some(|job.failureExceptions|));
    withErrors.(updatedAt := Some(now))
  }

  /** Completing the same audit twice with the same job and clock gives the same result as once. */
  lemma UpdateAuditIdempotent(audit: JobExecutionAudit, job: JobExecution, now: int)
    ensures var once := UpdateAuditWithJobMetrics(audit, job, now);
      UpdateAuditWithJobMetrics(once, job, now) == once
  {
  }

  // ----------------------------------------------------------------- mappers

  /** `toDocument`: every audit field copied; no storage id and no cleanup fields. */
  function ToDocument(a: JobExecutionAudit): (d: AuditDocument)
    ensures d.id.None? && d.totalFilesDeleted.None? && d.totalFilesDeletionFailed.None?
    ensures d.stepExecutions.None?
  {
    AuditDocument(None, a, None, None, None)
  }

  /** `toDomain`: every audit field read back from the document. */
  function ToDomain(d: AuditDocument): (a: JobExecutionAudit)
    ensures a.auditId == d.audit.auditId && a.jobExecutionId == d.audit.jobExecutionId
  {
    d.audit
  }

  /** Mapping an audit to its document and back loses nothing. */
  lemma DomainRoundTrip(a: JobExecutionAudit)
    ensures ToDomain(ToDocument(a)) == a
  {
  }

  /** Mapping a document to the domain and back keeps exactly its audit fields: the storage id and cleanup fields are dropped. */
  lemma DocumentRoundTrip(d: AuditDocument)
    ensures ToDocument(ToDomain(d)) == d.(id := None, totalFilesDeleted := None,
                                          totalFilesDeletionFailed := None, stepExecutions := None)
    ensures d.id.Some? ==> ToDocument(ToDomain(d)) != d
  {
  }

  // ------------------------------------------------------------------- store

  /** Why a repository call threw. */
  datatype AuditError =
    | NotFound(message: string)
    | NotUnique
    | DuplicateAuditId

  /** No two stored documents share an `auditId`: the unique index on that field. */
  ghost predicate UniqueAuditIds(docs: map<string, AuditDocument>) {
    forall k1, k2 :: k1 in docs && k2 in docs && k1 != k2 ==> docs[k1].audit.auditId != docs[k2].audit.auditId
  }

  /** Another stored document already holds this `auditId`. */
  predicate AuditIdTaken(docs: map<string, AuditDocument>, key: string, doc: AuditDocument) {
    exists k :: k in docs && k != key && docs[k].audit.auditId == doc.audit.auditId
  }

  /**
   * `save`: a document with an id replaces the one stored under it; one
   * without is inserted under the generated `newId`. When the unique index
   * on `auditId` exists in the database (`uniqueIndex`), it refuses a
   * second document with the same `auditId`; without it nothing is refused.
   */
  function SaveResult(docs: map<string, AuditDocument>, doc: AuditDocument, newId: string, uniqueIndex: bool)
    : (r: Result<map<string, AuditDocument>, AuditError>)
    ensures var key := doc.id.GetOr(newId);
      r.Success? ==> r.value == docs[key := doc.(id := Some(key))]
    ensures r.Failure? <==> uniqueIndex && AuditIdTaken(docs, doc.id.GetOr(newId), doc)
  {
    var key := doc.id.GetOr(newId);
    if uniqueIndex && AuditIdTaken(docs, key, doc) then Failure(DuplicateAuditId)
    else Success(docs[key := doc.(id := Some(key))])
  }

  /** Under the unique index, a successful save keeps `auditId`s unique. */
  lemma SaveKeepsUnique(docs: map<string, AuditDocument>, doc: AuditDocument, newId: string)
    requires UniqueAuditIds(docs)
    ensures var r := SaveResult(docs, doc, newId, true);
      r.Success? ==> UniqueAuditIds(r.value)
  {
    var key := doc.id.GetOr(newId);
    var r := SaveResult(docs, doc, newId, true);
    if r.Success? {
      var m := r.value;
      forall k1, k2 | k1 in m && k2 in m && k1 != k2
        ensures m[k1].audit.auditId != m[k2].audit.auditId
      {
        if k1 == key {
          assert !(k2 in docs && k2 != key && docs[k2].audit.auditId == doc.audit.auditId);
        } else if k2 == key {
          assert !(k1 in docs && k1 != key && docs[k1].audit.auditId == doc.audit.auditId);
        }
      }
    }
  }

  /** The storage keys of the documents of one job execution. */
  function KeysOf(docs: map<string, AuditDocument>, jobExecutionId: int): set<string> {
    set k | k in docs && docs[k].audit.jobExecutionId == Some(jobExecutionId)
  }

  /**
   * The `updateAuditRecord` as written, where the unique index exists, can
   * never store its update: the document it re-saves has no id, so it is an
   * insert, and it carries the `auditId` of the document it was read from,
   * which the index already holds.
   */
  lemma ResaveWithoutIdRefused(docs: map<string, AuditDocument>, key: string, job: JobExecution,
                               now: int, newId: string)
    requires key in docs && newId !in docs
    ensures SaveResult(docs, ToDocument(UpdateAuditWithJobMetrics(ToDomain(docs[key]), job, now)), newId, true)
            == Failure(DuplicateAuditId)
  {
    var doc := ToDocument(UpdateAuditWithJobMetrics(ToDomain(docs[key]), job, now));
    assert docs[key].audit.auditId == doc.audit.auditId;
    assert key != newId;
  }

  /**
   * The same re-save where the index was never created: the insert goes
   * through beside the stored document, which keeps its start-of-job
   * fields, and the execution now has two documents.
   */
  lemma ResaveWithoutIdDuplicates(docs: map<string, AuditDocument>, key: string, job: JobExecution,
                                  now: int, newId: string)
    requires key in KeysOf(docs, job.id) && newId !in docs
    ensures var doc := ToDocument(UpdateAuditWithJobMetrics(ToDomain(docs[key]), job, now));
      SaveResult(docs, doc, newId, false) == Success(docs[newId := doc.(id := Some(newId))])
    ensures var doc := ToDocument(UpdateAuditWithJobMetrics(ToDomain(docs[key]), job, now));
      var m := docs[newId := doc.(id := Some(newId))];
      m[key] == docs[key] && {key, newId} <= KeysOf(m, job.id) && |KeysOf(m, job.id)| >= 2
  {
    var doc := ToDocument(UpdateAuditWithJobMetrics(ToDomain(docs[key]), job, now));
    var m := docs[newId := doc.(id := Some(newId))];
    assert key != newId;
    assert m[newId].audit.jobExecutionId == Some(job.id);
    var both := {key, newId};
    assert both <= KeysOf(m, job.id);
    assert |both| == 2;
    SubsetSize(both, KeysOf(m, job.id));
  }

  lemma SubsetSize<T>(a: set<T>, b: set<T>)
    requires a <= b
    ensures |a| <= |b|
  {
    if a != {} {
      var x :| x in a;
      SubsetSize(a - {x}, b - {x});
    }
  }

  /** The corrected re-save, under the id the document was read from, replaces it in place, with or without the index. */
  lemma ResaveWithIdReplaces(docs: map<string, AuditDocument>, key: string, job: JobExecution,
                             now: int, newId: string, uniqueIndex: bool)
    requires key in docs && (uniqueIndex ==> UniqueAuditIds(docs))
    ensures var doc := ToDocument(UpdateAuditWithJobMetrics(ToDomain(docs[key]), job, now)).(id := Some(key));
      SaveResult(docs, doc, newId, uniqueIndex) == Success(docs[key := doc])
  {
    var doc := ToDocument(UpdateAuditWithJobMetrics(ToDomain(docs[key]), job, now)).(id := Some(key));
    assert doc.audit.auditId == docs[key].audit.auditId;
    forall k | k in docs && k != key && uniqueIndex
      ensures docs[k].audit.auditId != doc.audit.auditId
    {
    }
  }

  /**
   * The `job_executions_audit` collection. `uniqueIndex` says whether the
   * database holds the unique index that `@Indexed(unique = true)` declares
   * on `auditId`: nothing in the program creates it, so it depends on the
   * deployment.
   */
  class AuditRepository {
    const uniqueIndex: bool
    var docs: map<string, AuditDocument>

    ghost predicate Valid()
      reads this
    {
      uniqueIndex ==> UniqueAuditIds(docs)
    }

    constructor (uniqueIndex: bool)
      ensures this.uniqueIndex == uniqueIndex && docs == map[] && Valid()
    {
      this.uniqueIndex := uniqueIndex;
      docs := map[];
    }

    /** `save(doc)`: see `SaveResult`; `newId` is the id the database generates for an insert. */
    method Save(doc: AuditDocument, newId: string) returns (r: Outcome<AuditError>)
      requires Valid()
      modifies this
      ensures Valid()
      ensures var s := SaveResult(old(docs), doc, newId, uniqueIndex);
        (s.Success? ==> r.Pass? && docs == s.value) && (s.Failure? ==> r == Fail(s.error) && docs == old(docs))
    {
      var s := SaveResult(docs, doc, newId, uniqueIndex);
      if uniqueIndex {
        SaveKeepsUnique(docs, doc, newId);
      }
      if s.Failure? {
        return Fail(s.error);
      }
      docs := s.value;
      return Pass;
    }

    /**
     * `findByJobExecutionId`: the single document of the execution; none is
     * the `IllegalStateException` of `updateAuditRecord`, several the
     * repository's own error.
     */
    method FindByJobExecutionId(jobExecutionId: int) returns (r: Result<string, AuditError>)
      ensures var keys := KeysOf(docs, jobExecutionId);
        (keys == {} ==> r == Failure(NotFound("Audit record not found for job execution: " + LongToDecimal(jobExecutionId))))
        && (|keys| > 1 ==> r == Failure(NotUnique))
        && (|keys| == 1 ==> r.Success? && keys == {r.value})
    {
      var keys := KeysOf(docs, jobExecutionId);
      if keys == {} {
        return Failure(NotFound("Audit record not found for job execution: " + LongToDecimal(jobExecutionId)));
      }
      if |keys| > 1 {
        return Failure(NotUnique);
      }
      var k :| k in keys;
      assert keys == {k} by {
        assert |keys - {k}| == 0;
        assert keys - {k} == {};
      }
      return Success(k);
    }

    /**
     * `createAuditRecord`: build the initial audit, store it and return its
     * id; any failure is logged and turned into null.
     */
    method CreateAuditRecord(job: JobExecution, serviceName: string, uuid: string,
                             hostname: string, instanceId: string, now: int, newId: string)
      returns (r: Option<string>)
      requires Valid() && |uuid| >= 8
      modifies this
      ensures Valid()
      ensures var auditId := GenerateAuditId(job.jobName, job.id, uuid);
        var doc := ToDocument(BuildInitialAudit(job, serviceName, auditId, hostname, instanceId, now));
        var s := SaveResult(old(docs), doc, newId, uniqueIndex);
        (s.Success? ==> r == Some(auditId) && docs == s.value)
        && (s.Failure? ==> r.None? && docs == old(docs))
    {
      var auditId := GenerateAuditId(job.jobName, job.id, uuid);
      var audit := BuildInitialAudit(job, serviceName, auditId, hostname, instanceId, now);
      var saved := Save(ToDocument(audit), newId);
      if saved.Fail? {
        return None;
      }
      return Some(auditId);
    }

    /**
     * `updateAuditRecord` as written: find, map, complete, map back, save.
     * The re-saved document has lost its id, so the save is an insert. With
     * the unique index the insert is refused, the error is logged and
     * swallowed, and the store is never changed; without it a second
     * document for the execution is inserted, and every later lookup of
     * the execution fails as non-unique.
     */
    method UpdateAuditRecord(job: JobExecution, now: int, newId: string) returns (logged: Option<AuditError>)
      requires Valid() && newId !in docs
      modifies this
      ensures Valid()
      ensures |KeysOf(old(docs), job.id)| != 1 ==> docs == old(docs) && logged.Some?
      ensures KeysOf(old(docs), job.id) == {} ==> logged.value.NotFound?
      ensures uniqueIndex && |KeysOf(old(docs), job.id)| == 1 ==>
        logged == Some(DuplicateAuditId) && docs == old(docs)
      ensures !uniqueIndex && |KeysOf(old(docs), job.id)| == 1 ==>
        logged.None? && |KeysOf(docs, job.id)| >= 2
        && (forall k :: k in old(docs) ==> k in docs && docs[k] == old(docs)[k])
        && (exists key :: key in KeysOf(old(docs), job.id)
              && docs == old(docs)[newId := ToDocument(UpdateAuditWithJobMetrics(ToDomain(old(docs)[key]), job, now)).(id := Some(newId))])
    {
      var found := FindByJobExecutionId(job.id);
      if found.Failure? {
        return Some(found.error);
      }
      var key := found.value;
      var audit := UpdateAuditWithJobMetrics(ToDomain(docs[key]), job, now);
      if uniqueIndex {
        ResaveWithoutIdRefused(docs, key, job, now, newId);
      } else {
        ResaveWithoutIdDuplicates(docs, key, job, now, newId);
      }
      var saved := Save(ToDocument(audit), newId);
      if saved.Fail? {
        return Some(saved.error);
      }
      return None;
    }

    /**
     * `updateAuditRecord` as evidently intended: the completed audit is
     * saved under the storage id it was read from, replacing the document
     * created at the start.
     */
    method UpdateAuditRecordInPlace(job: JobExecution, now: int, newId: string) returns (logged: Option<AuditError>)
      requires Valid()
      modifies this
      ensures Valid()
      ensures var keys := KeysOf(old(docs), job.id);
        (|keys| == 1 ==>
          logged.None?
          && exists key :: key in keys && docs == old(docs)[key :=
               ToDocument(UpdateAuditWithJobMetrics(ToDomain(old(docs)[key]), job, now)).(id := Some(key))])
        && (|keys| != 1 ==> logged.Some? && docs == old(docs))
    {
      var found := FindByJobExecutionId(job.id);
      if found.Failure? {
        return Some(found.error);
      }
      var key := found.value;
      var audit := UpdateAuditWithJobMetrics(ToDomain(docs[key]), job, now);
      ResaveWithIdReplaces(docs, key, job, now, newId, uniqueIndex);
      var saved := Save(ToDocument(audit).(id := Some(key)), newId);
      return None;
    }
  }
}
