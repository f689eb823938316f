/** Ingest results and the job rows they are added to. */
module IngestJobs {
  import opened Sequences
  import opened Wrappers

  type Id = nat

  datatype Status = Pending | Processing | Completed | Failed | PartialSuccess

  /** The status a result's counters stand for. */
  function FinalStatus(processed: nat, failed: nat): Status
  {
    if failed == 0 && processed > 0 then Completed
    else if processed == 0 && failed > 0 then Failed
    else if processed > 0 && failed > 0 then PartialSuccess
    else Completed
  }

  class IngestResult {
    var processed: nat
    var failed: nat
    var entityIds: seq<Id>
    var errors: seq<string>
    var durationMs: nat
    var status: Status

    constructor ()
      ensures processed == failed == 0 && entityIds == [] && errors == [] && status == Pending
    {
      processed, failed, entityIds, errors, durationMs, status := 0, 0, [], [], 0, Pending;
    }

    method Finalize(durationMs: nat)
      modifies this`durationMs, this`status
      ensures this.durationMs == durationMs && status == FinalStatus(processed, failed)
      ensures status == Completed <==> failed == 0
      ensures status == PartialSuccess <==> processed > 0 && failed > 0
      ensures status == Failed <==> processed == 0 && failed > 0
    {
      this.durationMs := durationMs;
      if failed == 0 && processed > 0 {
        status := Completed;
      } else if processed == 0 && failed > 0 {
        status := Failed;
      } else if processed > 0 && failed > 0 {
        status := PartialSuccess;
      } else {
        status := Completed;
      }
    }
  }

  /** mdm-core's answer to one record: accepted, perhaps with an id, or not stored. */
  datatype RecordReply = Accepted(id: Option<Id>) | Refused(error: string)

  function IdOf(reply: RecordReply): Option<Id> { if reply.Accepted? then reply.id else None }

  function ErrorOf(reply: RecordReply): Option<string> { if reply.Refused? then Some(reply.error) else None }

  function AcceptedCount(replies: seq<RecordReply>): nat
  {
    if replies == [] then 0
    else AcceptedCount(replies[..|replies| - 1]) + (if replies[|replies| - 1].Accepted? then 1 else 0)
  }

  lemma {:induction false} CountsAccepted(replies: seq<RecordReply>)
    ensures AcceptedCount(replies) == |set i | 0 <= i < |replies| && replies[i].Accepted?|
  {
    if replies != [] {
      var front := replies[..|replies| - 1];
      CountsAccepted(front);
      var all, before := set i | 0 <= i < |replies| && replies[i].Accepted?, set i | 0 <= i < |front| && front[i].Accepted?;
      assert forall i | 0 <= i < |front| :: front[i] == replies[i];
      assert all == before + (if replies[|replies| - 1].Accepted? then {|replies| - 1} else {});
    }
  }

  /** One record at a time: every record is counted once, as processed or as failed. */
  method ProcessBatch(replies: seq<RecordReply>, durationMs: nat) returns (result: IngestResult)
    ensures fresh(result)
    ensures result.processed == |set i | 0 <= i < |replies| && replies[i].Accepted?|
    ensures result.processed + result.failed == |replies|
    ensures result.entityIds == FilterMap(replies, IdOf) && result.errors == FilterMap(replies, ErrorOf)
    ensures |result.errors| == result.failed
    ensures result.status == FinalStatus(result.processed, result.failed) && result.durationMs == durationMs
  {
    result := new IngestResult();
    for i := 0 to |replies|
      invariant fresh(result)
      invariant result.processed == AcceptedCount(replies[..i]) && result.processed + result.failed == i
      invariant result.entityIds == FilterMap(replies[..i], IdOf) && result.errors == FilterMap(replies[..i], ErrorOf)
      invariant |result.errors| == result.failed
    {
      assert replies[..i + 1][..i] == replies[..i];
      match replies[i] {
        case Accepted(id) =>
          if id.Some? {
            result.entityIds := result.entityIds + [id.value];
          }
          result.processed := result.processed + 1;
        case Refused(error) =>
          result.failed := result.failed + 1;
          result.errors := result.errors + [error];
      }
    }
    assert replies[..|replies|] == replies;
    CountsAccepted(replies);
    result.Finalize(durationMs);
  }

  /** The ids of a batch are those of its accepted records that have one, in order, and its errors
      those of its refused records. */
  lemma BatchIdsAndErrors(replies: seq<RecordReply>) returns (ids: seq<nat>, errors: seq<nat>)
    ensures Ascending(ids, |replies|) && |ids| == |FilterMap(replies, IdOf)|
    ensures forall k | 0 <= k < |ids| :: replies[ids[k]] == Accepted(Some(FilterMap(replies, IdOf)[k]))
    ensures forall i: nat | i < |replies| && replies[i].Accepted? && replies[i].id.Some? :: i in ids
    ensures Ascending(errors, |replies|) && |errors| == |FilterMap(replies, ErrorOf)|
    ensures forall k | 0 <= k < |errors| :: replies[errors[k]] == Refused(FilterMap(replies, ErrorOf)[k])
    ensures forall i: nat | i < |replies| && replies[i].Refused? :: i in errors
  {
    ids := FilterMapAt(replies, IdOf);
    errors := FilterMapAt(replies, ErrorOf);
    forall i: nat | i < |replies| && replies[i].Refused? ensures i in errors {
      assert ErrorOf(replies[i]).Some?;
    }
    forall i: nat | i < |replies| && replies[i].Accepted? && replies[i].id.Some? ensures i in ids {
      assert IdOf(replies[i]).Some?;
    }
  }

  /** mdm-core's answer to a bulk request. A readable body lists the ids it stored (some
      unparsable) and may name a failure count. */
  datatype BulkReply = BulkAccepted(body: Option<BulkBody>) | BulkRefused(error: string)
  datatype BulkBody = BulkBody(ids: seq<Option<Id>>, failed: Option<nat>, errors: seq<string>)

  function Itself(id: Option<Id>): Option<Id> { id }

  /** The ids of a list that parse, in order. */
  function Parsed(ids: seq<Option<Id>>): seq<Id> { FilterMap(ids, Itself) }

  lemma ParsedIds(ids: seq<Option<Id>>) returns (at: seq<nat>)
    ensures Ascending(at, |ids|) && |at| == |Parsed(ids)|
    ensures forall k | 0 <= k < |at| :: ids[at[k]] == Some(Parsed(ids)[k])
    ensures forall i: nat | i < |ids| && ids[i].Some? :: i in at
  {
    at := FilterMapAt(ids, Itself);
    forall i: nat | i < |ids| && ids[i].Some? ensures i in at {
      assert Itself(ids[i]).Some?;
    }
  }

  lemma ParsedCount(ids: seq<Option<Id>>)
    ensures |Parsed(ids)| == |set i | 0 <= i < |ids| && ids[i].Some?|
  {
    var found := FilterMapSize(ids, Itself);
    forall i ensures i in found <==> 0 <= i < |ids| && ids[i].Some? {
      assert 0 <= i < |ids| ==> Itself(ids[i]) == ids[i];
    }
    assert found == set i | 0 <= i < |ids| && ids[i].Some?;
  }

  /** One request for a chunk of `records` records. What counts as processed is the ids that come
      back and parse; what counts as failed is what the answer says, or everything on a refusal. */
  method ProcessBatchBulk(records: nat, reply: BulkReply, durationMs: nat) returns (result: IngestResult)
    ensures fresh(result)
    ensures result.status == FinalStatus(result.processed, result.failed) && result.durationMs == durationMs
    ensures reply.BulkAccepted? && reply.body.Some? ==>
              var body := reply.body.value;
              result.processed == |set i | 0 <= i < |body.ids| && body.ids[i].Some?|
              && result.failed == (if body.failed.Some? then body.failed.value else 0)
              && result.entityIds == Parsed(body.ids) && result.errors == body.errors
    ensures reply.BulkAccepted? && reply.body.None? ==>
              result.processed == result.failed == 0 && result.entityIds == [] && result.errors == []
    ensures reply.BulkRefused? ==>
              result.processed == 0 && result.failed == records && result.entityIds == [] && result.errors == [reply.error]
    ensures result.status == PartialSuccess <==>
              reply.BulkAccepted? && reply.body.Some? && reply.body.value.failed.Some? && reply.body.value.failed.value > 0
              && exists i :: 0 <= i < |reply.body.value.ids| && reply.body.value.ids[i].Some?
    ensures result.status == Failed <==>
              if reply.BulkRefused? then records > 0
              else reply.body.Some? && reply.body.value.failed.Some? && reply.body.value.failed.value > 0
                   && forall i | 0 <= i < |reply.body.value.ids| :: reply.body.value.ids[i].None?
  {
    result := new IngestResult();
    match reply {
      case BulkAccepted(body) =>
        if body.Some? {
          var ids := body.value.ids;
          for i := 0 to |ids|
            invariant fresh(result) && result.failed == 0
            invariant result.entityIds == Parsed(ids[..i])
          {
            assert ids[..i + 1][..i] == ids[..i];
            if ids[i].Some? {
              result.entityIds := result.entityIds + [ids[i].value];
            }
          }
          assert ids[..|ids|] == ids;
          ParsedCount(ids);
          SomeParsed(ids);
          result.processed := |result.entityIds|;
          result.failed := if body.value.failed.Some? then body.value.failed.value else 0;
          result.errors := body.value.errors;
        }
      case BulkRefused(error) =>
        result.failed := records;
        result.errors := [error];
    }
    result.Finalize(durationMs);
  }

  lemma SomeParsed(ids: seq<Option<Id>>)
    ensures |Parsed(ids)| > 0 <==> exists i :: 0 <= i < |ids| && ids[i].Some?
  {
    var at := ParsedIds(ids);
    if |Parsed(ids)| > 0 {
      assert ids[at[0]].Some?;
    } else {
      forall i: nat | i < |ids| ensures ids[i].None? {
        assert ids[i].Some? ==> i in at;
      }
    }
  }

  // -- Job rows --------------------------------------------------------------------------

  /** The row's columns this model needs; the counters are 32-bit. */
  datatype JobRow = JobRow(status: Status, processed: int, failed: int, chunksTotal: int, chunksDone: int)

  const TWO_32 := 0x1_0000_0000

  /** Rust's `as i32` on a count. */
  function AsI32(n: nat): int
  {
    var low := n % TWO_32;
    if low < 0x8000_0000 then low else low - TWO_32
  }

  predicate FitsI32(n: int)
  {
    -0x8000_0000 <= n < 0x8000_0000
  }

  function Progressed(row: JobRow, processed: int, failed: int): JobRow
  {
    row.(processed := row.processed + processed, failed := row.failed + failed, chunksDone := row.chunksDone + 1)
  }

  /** The UPDATE raises an error instead when a sum leaves the column's range. */
  predicate UpdateFits(row: JobRow, processed: int, failed: int)
  {
    FitsI32(row.processed + processed) && FitsI32(row.failed + failed)
  }

  /** The status `complete_job` writes. */
  function RowStatus(processed: int, failed: int): Status
  {
    if failed == 0 then Completed else if processed == 0 then Failed else PartialSuccess
  }

  function Finished(row: JobRow): JobRow
  {
    row.(status := RowStatus(row.processed, row.failed))
  }

  predicate AllDone(row: JobRow)
  {
    row.chunksDone >= row.chunksTotal
  }

  function NewRow(chunksTotal: int): JobRow
  {
    JobRow(Processing, 0, 0, chunksTotal, 0)
  }

  type Rows = map<Id, JobRow>

  /** The `ingest_jobs` table, each method one atomic statement. */
  class JobTable {
    var rows: Rows

    constructor ()
      ensures rows == map[]
    {
      rows := map[];
    }

    method CreateJobPending(jobId: Id, chunksTotal: int)
      requires jobId !in rows
      modifies this
      ensures rows == old(rows)[jobId := NewRow(chunksTotal)]
    {
      rows := rows[jobId := JobRow(Processing, 0, 0, chunksTotal, 0)];
    }

    method UpdateJobProgress(jobId: Id, processed: int, failed: int) returns (ok: bool)
      modifies this
      ensures ok == (jobId in old(rows) ==> UpdateFits(old(rows)[jobId], processed, failed))
      ensures rows == if ok && jobId in old(rows) then old(rows)[jobId := Progressed(old(rows)[jobId], processed, failed)]
                      else old(rows)
    {
      if jobId !in rows {
        return true;
      }
      var row := rows[jobId];
      if !FitsI32(row.processed + processed) || !FitsI32(row.failed + failed) {
        return false;
      }
      row := row.(processed := row.processed + processed);
      row := row.(failed := row.failed + failed);
      row := row.(chunksDone := row.chunksDone + 1);
      rows := rows[jobId := row];
      return true;
    }

    method ChunksAllDone(jobId: Id) returns (done: Option<bool>)
      ensures done == if jobId in rows then Some(AllDone(rows[jobId])) else None
    {
      done := if jobId in rows then Some(rows[jobId].chunksDone >= rows[jobId].chunksTotal) else None;
    }

    method CompleteJob(jobId: Id)
      modifies this
      ensures rows == if jobId in old(rows) then old(rows)[jobId := Finished(old(rows)[jobId])] else old(rows)
    {
      if jobId in rows {
        var row := rows[jobId];
        if row.failed == 0 {
          rows := rows[jobId := row.(status := Completed)];
        } else if row.processed == 0 {
          rows := rows[jobId := row.(status := Failed)];
        } else {
          rows := rows[jobId := row.(status := PartialSuccess)];
        }
      }
    }
  }

  /** What one undisturbed pass of a worker over a chunk does to its job's row. */
  function RowAfterPass(row: JobRow, processed: int, failed: int): JobRow
  {
    var row' := if UpdateFits(row, processed, failed) then Progressed(row, processed, failed) else row;
    if AllDone(row') then Finished(row') else row'
  }

  method MaybeCompleteJob(table: JobTable, jobId: Id)
    modifies table
    ensures table.rows == if jobId in old(table.rows) && AllDone(old(table.rows)[jobId])
                          then old(table.rows)[jobId := Finished(old(table.rows)[jobId])]
                          else old(table.rows)
  {
    var done := table.ChunksAllDone(jobId);
    if done == Some(true) {
      table.CompleteJob(jobId);
    }
  }

  /** A worker's pass over a dequeued chunk of `records` records, with no other worker between
      its statements; `IngestProtocol` interleaves them. */
  method ProcessChunk(table: JobTable, jobId: Id, records: nat, result: Result<(nat, nat), string>)
    modifies table
    ensures var (p, f) := match result case Success(counts) => counts case Failure(_) => (0, records);
            table.rows == if jobId in old(table.rows)
                          then old(table.rows)[jobId := RowAfterPass(old(table.rows)[jobId], AsI32(p), AsI32(f))]
                          else old(table.rows)
  {
    match result {
      case Failure(_) =>
        var _ := table.UpdateJobProgress(jobId, 0, AsI32(records));
        MaybeCompleteJob(table, jobId);
      case Success((processed, failed)) =>
        var _ := table.UpdateJobProgress(jobId, AsI32(processed), AsI32(failed));
        MaybeCompleteJob(table, jobId);
    }
  }

  /** The row's status says what the true counts say exactly when no count that matters is a
      nonzero multiple of 2^32, which the cast would turn into 0. */
  lemma CastStatusExact(processed: nat, failed: nat)
    ensures RowStatus(AsI32(processed), AsI32(failed)) == FinalStatus(processed, failed)
            <==> failed == 0 || (failed % TWO_32 != 0 && (processed == 0 || processed % TWO_32 != 0))
  {
    assert AsI32(0) == 0;
    assert AsI32(failed) == 0 <==> failed % TWO_32 == 0;
    assert AsI32(processed) == 0 <==> processed % TWO_32 == 0;
  }
}
