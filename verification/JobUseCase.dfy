/** The job use case: every operation writes its progress through it. */
module JobUseCases {
  import opened Wrappers
  import opened TimeText
  import opened Domain
  import opened Tables
  import opened Databases

  class JobUseCase {
    const database: Database

    constructor (database: Database)
      ensures this.database == database
    {
      this.database := database;
    }

    /** A job starts running. */
    method Create(certificateId: Option<nat>, kongTargetId: Option<nat>, kind: JobType, now: int, fault: bool)
      returns (r: Result<nat>)
      requires database.Valid()
      modifies database`jobs
      ensures database.Valid()
      ensures r.Ok? <==>
        !fault && Refers(certificateId, database.certificates.rows.Keys) && Refers(kongTargetId, database.targets.ids)
      ensures fault ==> r == Err(FAULT)
      ensures r.Ok? ==> r.value == old(database.jobs).nextId > 0
      ensures database.jobs ==
        if r.Ok? then InsertJob(old(database.jobs), NewJob(certificateId, kongTargetId, kind, now))
        else old(database.jobs)
    {
      r := database.CreateJob(certificateId, kongTargetId, kind, now, fault);
    }

    /** The row is read, checked and written back; only `success` and `failed` complete a job. */
    method Complete(id: nat, status: JobStatus, finishedAt: int, fetchFault: bool, updateFault: bool)
      returns (r: Outcome)
      requires database.Valid()
      modifies database`jobs
      ensures database.Valid()
      ensures r.Nil? <==> id in old(database.jobs).rows && !fetchFault && !updateFault && !status.Running?
      ensures id > 0 && (fetchFault || (updateFault && id in old(database.jobs).rows && !status.Running?)) ==>
        r == Error(FAULT)
      ensures database.jobs ==
        if r.Nil? then FinishJob(old(database.jobs), id, status, Format(finishedAt)) else old(database.jobs)
    {
      if id == 0 {
        return Error("invalid job id");
      }
      if fetchFault {
        return Error(FAULT);
      }
      if id !in database.jobs.rows {
        return Error(NOT_FOUND);
      }
      if status.Running? {
        return Error("Job completion status must be success or failed.");
      }
      r := database.UpdateJob(id, status, finishedAt, updateFault);
    }

    /** Only completed jobs go, and the count says how many. */
    method ClearCompleted(fault: bool) returns (r: Result<nat>)
      requires database.Valid()
      modifies database`jobs
      ensures database.Valid()
      ensures fault ==> r.Err? && database.jobs == old(database.jobs)
      ensures !fault ==> r == Ok(|old(database.jobs).rows| - |database.jobs.rows|)
      ensures !fault ==> forall id :: id in old(database.jobs).rows && old(database.jobs).rows[id].status.Running? ==>
        id in database.jobs.rows && database.jobs.rows[id] == old(database.jobs).rows[id]
      ensures !fault ==> forall id :: id in database.jobs.rows ==>
        id in old(database.jobs).rows && old(database.jobs).rows[id].status.Running?
      ensures database.jobs.nextId == old(database.jobs).nextId
    {
      r := database.DeleteCompletedJobs(fault);
    }
  }
}
