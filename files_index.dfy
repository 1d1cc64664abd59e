/**
 * The `files_index` collection as the reorganize and cleanup stages see it:
 * one record per file, updated field by field with `$set` and `$inc`
 * through `updateFirst` / `updateOne`, which change the first record (in
 * collection order) whose `idUnico` matches and nothing else.
 *
 * Record fields carry the names the writers and the cleanup reader use
 * (`reorg_completedAt`, `deleted_from_source`, ...). An absent or null field
 * is `None`.
 */
module FilesIndex {
  import opened Wrappers

  datatype FileRecord = FileRecord(
    idUnico: Option<string>,
    sourcePath: Option<string>,
    fileName: Option<string>,
    fileSize: Option<int>,
    lastModificationDate: Option<int>,
    reorg_status: Option<string>,
    reorg_destinationPath: Option<string>,
    reorg_completedAt: Option<int>,
    reorg_durationMs: Option<int>,
    reorg_attempts: Option<int>,
    reorg_errorDescription: Option<string>,
    reorg_lastAttemptAt: Option<int>,
    deleted_from_source: Option<bool>,
    source_deletion_date: Option<int>,
    deleted_by: Option<string>)

  /** One `$set` or `$inc` of an update document. */
  datatype FieldOp =
    | SetStatus(status: string)
    | IncAttempts(amount: int)
    | SetDestinationPath(path: Option<string>)
    | SetCompletedAt(at: int)
    | SetDurationMs(ms: int)
    | SetDeletedFromSource(deleted: bool)
    | SetErrorDescription(description: string)
    | SetLastAttemptAt(at: int)
    | SetDeletionDate(at: int)
    | SetDeletedBy(who: string)

  /** `$inc` on an absent field starts from zero. */
  function Incremented(v: Option<int>, amount: int): (r: Option<int>)
    ensures r.Some? && r.value == v.GetOr(0) + amount
  {
    Some(v.GetOr(0) + amount)
  }

  /** The effect of one operation on a record: one field changes. */
  function Apply(r: FileRecord, op: FieldOp): FileRecord {
    match op
    case SetStatus(s) => r.(reorg_status := Some(s))
    case IncAttempts(n) => r.(reorg_attempts := Incremented(r.reorg_attempts, n))
    case SetDestinationPath(p) => r.(reorg_destinationPath := p)
    case SetCompletedAt(t) => r.(reorg_completedAt := Some(t))
    case SetDurationMs(d) => r.(reorg_durationMs := Some(d))
    case SetDeletedFromSource(b) => r.(deleted_from_source := Some(b))
    case SetErrorDescription(e) => r.(reorg_errorDescription := Some(e))
    case SetLastAttemptAt(t) => r.(reorg_lastAttemptAt := Some(t))
    case SetDeletionDate(t) => r.(source_deletion_date := Some(t))
    case SetDeletedBy(b) => r.(deleted_by := Some(b))
  }

  /** The operations of one update document, applied in order. */
  function ApplyAll(r: FileRecord, ops: seq<FieldOp>): FileRecord {
    if ops == [] then r else Apply(ApplyAll(r, ops[..|ops| - 1]), ops[|ops| - 1])
  }

  /** Applying two update documents one after the other is applying their concatenation. */
  lemma {:induction false} ApplyAllAppend(r: FileRecord, a: seq<FieldOp>, b: seq<FieldOp>)
    ensures ApplyAll(r, a + b) == ApplyAll(ApplyAll(r, a), b)
  {
    if b == [] {
      assert a + b == a;
    } else {
      assert (a + b)[..|a + b| - 1] == a + b[..|b| - 1];
      ApplyAllAppend(r, a, b[..|b| - 1]);
    }
  }

  /** One more operation at the end of an update document is applied last. */
  lemma ApplyAllSnoc(r: FileRecord, ops: seq<FieldOp>, op: FieldOp)
    ensures ApplyAll(r, ops + [op]) == Apply(ApplyAll(r, ops), op)
  {
    assert (ops + [op])[..|ops|] == ops;
  }

  /** An update document of two operations applies them in order. */
  lemma ApplyAllTwo(r: FileRecord, a: FieldOp, b: FieldOp)
    ensures ApplyAll(r, [a, b]) == Apply(Apply(r, a), b)
  {
    ApplyAllSnoc(r, [], a);
    assert [] + [a] == [a];
    ApplyAllSnoc(r, [a], b);
    assert [a] + [b] == [a, b];
  }

  /** An update document of three operations applies them in order. */
  lemma ApplyAllThree(r: FileRecord, a: FieldOp, b: FieldOp, c: FieldOp)
    ensures ApplyAll(r, [a, b, c]) == Apply(Apply(Apply(r, a), b), c)
  {
    assert [a, b, c][..2] == [a, b];
    ApplyAllTwo(r, a, b);
  }

  /** No operation of `ops` touches `deleted_from_source`. */
  predicate LeavesDeletedFlag(ops: seq<FieldOp>) {
    forall i :: 0 <= i < |ops| ==> !ops[i].SetDeletedFromSource?
  }

  /** Operations that never touch the deleted flag leave it as it was. */
  lemma {:induction false} ApplyAllKeepsDeletedFlag(r: FileRecord, ops: seq<FieldOp>)
    requires LeavesDeletedFlag(ops)
    ensures ApplyAll(r, ops).deleted_from_source == r.deleted_from_source
  {
    if ops != [] {
      ApplyAllKeepsDeletedFlag(r, ops[..|ops| - 1]);
    }
  }

  /** The identity of a record is never changed by an update. */
  lemma {:induction false} ApplyAllKeepsIdentity(r: FileRecord, ops: seq<FieldOp>)
    ensures ApplyAll(r, ops).idUnico == r.idUnico
    ensures ApplyAll(r, ops).sourcePath == r.sourcePath
  {
    if ops != [] {
      ApplyAllKeepsIdentity(r, ops[..|ops| - 1]);
    }
  }

  /** The position of the first record with this `idUnico`, or -1. */
  function FirstMatch(records: seq<FileRecord>, idUnico: Option<string>): (k: int)
    ensures -1 <= k < |records|
    ensures k >= 0 ==> records[k].idUnico == idUnico
    ensures forall j :: 0 <= j < |records| && (k < 0 || j < k) ==> records[j].idUnico != idUnico
  {
    if records == [] then -1
    else if records[0].idUnico == idUnico then 0
    else
      var k := FirstMatch(records[1..], idUnico);
      if k < 0 then -1 else k + 1
  }

  /** The collection after `updateFirst(idUnico, ops)`. */
  function UpdatedFirst(records: seq<FileRecord>, idUnico: Option<string>, ops: seq<FieldOp>)
    : (r: seq<FileRecord>)
    ensures |r| == |records|
    ensures forall j :: 0 <= j < |records| && j != FirstMatch(records, idUnico) ==> r[j] == records[j]
    ensures FirstMatch(records, idUnico) >= 0 ==>
      var k := FirstMatch(records, idUnico);
      r[k] == ApplyAll(records[k], ops)
  {
    var k := FirstMatch(records, idUnico);
    if k < 0 then records else records[k := ApplyAll(records[k], ops)]
  }

  /** An update keeps every record's identity, so it never changes which record a later update matches. */
  lemma UpdatedFirstKeepsIds(records: seq<FileRecord>, idUnico: Option<string>, ops: seq<FieldOp>)
    ensures var r := UpdatedFirst(records, idUnico, ops);
      forall j :: 0 <= j < |records| ==> r[j].idUnico == records[j].idUnico && r[j].sourcePath == records[j].sourcePath
  {
    var k := FirstMatch(records, idUnico);
    if k >= 0 {
      ApplyAllKeepsIdentity(records[k], ops);
    }
  }

  /** Which record a filter matches depends only on the records' ids. */
  lemma {:induction false} FirstMatchSameIds(a: seq<FileRecord>, b: seq<FileRecord>, idUnico: Option<string>)
    requires |a| == |b|
    requires forall j :: 0 <= j < |a| ==> a[j].idUnico == b[j].idUnico
    ensures FirstMatch(a, idUnico) == FirstMatch(b, idUnico)
  {
    if a != [] && a[0].idUnico != idUnico {
      FirstMatchSameIds(a[1..], b[1..], idUnico);
    }
  }

  /** One `updateOne` / `updateFirst` call: the filter value and the update document. */
  datatype UpdateCall = UpdateCall(idUnico: Option<string>, ops: seq<FieldOp>)

  /** The collection after a sequence of update calls, applied in order. */
  function UpdatedAll(records: seq<FileRecord>, calls: seq<UpdateCall>): (r: seq<FileRecord>)
    ensures |r| == |records|
  {
    if calls == [] then records
    else
      var last := calls[|calls| - 1];
      UpdatedFirst(UpdatedAll(records, calls[..|calls| - 1]), last.idUnico, last.ops)
  }

  /** One more call at the end of a sequence of updates runs last. */
  lemma UpdatedAllSnoc(records: seq<FileRecord>, calls: seq<UpdateCall>, call: UpdateCall)
    ensures UpdatedAll(records, calls + [call]) == UpdatedFirst(UpdatedAll(records, calls), call.idUnico, call.ops)
  {
    assert (calls + [call])[..|calls|] == calls;
  }

  /** However many updates run, every record keeps its id and source path. */
  lemma {:induction false} UpdatedAllKeepsIds(records: seq<FileRecord>, calls: seq<UpdateCall>)
    ensures var r := UpdatedAll(records, calls);
      forall j :: 0 <= j < |records| ==> r[j].idUnico == records[j].idUnico && r[j].sourcePath == records[j].sourcePath
  {
    if calls != [] {
      var last := calls[|calls| - 1];
      UpdatedAllKeepsIds(records, calls[..|calls| - 1]);
      UpdatedFirstKeepsIds(UpdatedAll(records, calls[..|calls| - 1]), last.idUnico, last.ops);
    }
  }

  /**
   * Two updates on different ids, applied one after the other in either
   * order, give the same collection: an unordered bulk write has one outcome
   * for operations on distinct ids.
   */
  lemma UpdatedFirstCommute(records: seq<FileRecord>, ida: Option<string>, opsA: seq<FieldOp>,
                            idb: Option<string>, opsB: seq<FieldOp>)
    requires ida != idb
    ensures UpdatedFirst(UpdatedFirst(records, ida, opsA), idb, opsB)
         == UpdatedFirst(UpdatedFirst(records, idb, opsB), ida, opsA)
  {
    var ra := UpdatedFirst(records, ida, opsA);
    var rb := UpdatedFirst(records, idb, opsB);
    UpdatedFirstKeepsIds(records, ida, opsA);
    UpdatedFirstKeepsIds(records, idb, opsB);
    FirstMatchSameIds(ra, records, idb);
    FirstMatchSameIds(rb, records, ida);
    var ka := FirstMatch(records, ida);
    var kb := FirstMatch(records, idb);
    if ka >= 0 && kb >= 0 {
      assert ka != kb;
      assert ra == records[ka := ApplyAll(records[ka], opsA)];
      assert rb == records[kb := ApplyAll(records[kb], opsB)];
      assert ra[kb] == records[kb] && rb[ka] == records[ka];
    }
  }

  /** The collection, with the log of the update calls made on it. */
  class IndexCollection {
    var records: seq<FileRecord>
    var calls: seq<UpdateCall>

    constructor (records: seq<FileRecord>)
      ensures this.records == records && calls == []
    {
      this.records := records;
      calls := [];
    }

    /** `updateFirst` on `idUnico`: the first matching record gets `ops`; no match changes nothing. */
    method UpdateFirst(idUnico: Option<string>, ops: seq<FieldOp>)
      modifies this
      ensures records == UpdatedFirst(old(records), idUnico, ops)
      ensures calls == old(calls) + [UpdateCall(idUnico, ops)]
    {
      records := UpdatedFirst(records, idUnico, ops);
      calls := calls + [UpdateCall(idUnico, ops)];
    }

    /** `bulkWrite` of `updateOne` operations, applied in the order given. */
    method BulkWrite(bulk: seq<UpdateCall>)
      modifies this
      ensures records == UpdatedAll(old(records), bulk)
      ensures calls == old(calls) + bulk
    {
      var i := 0;
      ghost var start := records;
      while i < |bulk|
        invariant 0 <= i <= |bulk|
        invariant records == UpdatedAll(start, bulk[..i])
        invariant calls == old(calls) + bulk[..i]
      {
        UpdatedAllSnoc(start, bulk[..i], bulk[i]);
        assert bulk[..i + 1] == bulk[..i] + [bulk[i]];
        UpdateFirst(bulk[i].idUnico, bulk[i].ops);
        i := i + 1;
      }
      assert bulk[..i] == bulk;
    }
  }
}
