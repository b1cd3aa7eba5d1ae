/** The job table of server/export_store.py.
  *
  * The database is a map from ids to jobs. Every method is one section under the store's lock and is specified
  * by a function of the old table.
  */
module ExportStore {
  import opened Options

  type Id(==, !new)
  type Text(==, !new)
  type Time = int

  datatype Status = Pending | Processing | Complete | Failed | Expired | Cancelled

  datatype Job = Job(status: Status, createdAt: Time, updatedAt: Time, filePath: Option<Text>,
                     downloadUrl: Option<Text>, rowCount: Option<int>, sizeBytes: Option<int>,
                     completedAt: Option<Time>, errorMessage: Option<Text>)

  /** The columns that an update may set besides the status. */
  datatype Extras = Extras(filePath: Option<Text>, downloadUrl: Option<Text>, rowCount: Option<int>,
                           sizeBytes: Option<int>, completedAt: Option<Time>, errorMessage: Option<Text>)

  const NO_EXTRAS := Extras(None, None, None, None, None, None)

  type Jobs = map<Id, Job>

  predicate Allowed(from: Status, to: Status) {
    match from
    case Pending => to == Processing || to == Failed || to == Expired || to == Cancelled
    case Processing => to == Complete || to == Failed || to == Expired || to == Cancelled
    case Complete => to == Expired
    case Failed => to == Expired
    case Cancelled => false
    case Expired => false
  }

  /** How far a job has come. */
  function Rank(status: Status): nat {
    match status
    case Pending => 0
    case Processing => 1
    case Complete => 2
    case Failed => 2
    case Expired => 3
    case Cancelled => 3
  }

  /** A job goes forward only and may skip what lies between, except that only a job in process completes and only an
    * active one is cancelled. */
  lemma {:induction false} AllowedGoesForward(from: Status, to: Status)
    ensures Allowed(from, to) <==>
      Rank(from) < Rank(to) && (to == Complete ==> from == Processing) && (to == Cancelled ==> Rank(from) < 2)
  {
    match from
    case Pending => assert Allowed(from, to) <==> to != Pending && to != Complete;
    case Processing => assert Allowed(from, to) <==> to != Pending && to != Processing;
    case _ =>
  }

  /** `b` is the job `a` after an update: what is given is set and what is not is kept, and a job that completes without
    * a time does so now. */
  predicate Amends<T(!new, ==)>(given: Option<T>, a: Option<T>, b: Option<T>) {
    if given.Some? then b == given else b == a
  }

  predicate AmendedTo(a: Job, status: Status, extras: Extras, now: Time, b: Job) {
    && b.status == status && b.createdAt == a.createdAt && b.updatedAt == now
    && Amends(extras.filePath, a.filePath, b.filePath) && Amends(extras.downloadUrl, a.downloadUrl, b.downloadUrl)
    && Amends(extras.rowCount, a.rowCount, b.rowCount) && Amends(extras.sizeBytes, a.sizeBytes, b.sizeBytes)
    && Amends(extras.errorMessage, a.errorMessage, b.errorMessage)
    && (status != Complete || extras.completedAt.Some? ==> Amends(extras.completedAt, a.completedAt, b.completedAt))
    && (status == Complete && extras.completedAt.None? ==> b.completedAt == Some(now))
  }

  predicate Active(job: Job) {
    job.status == Pending || job.status == Processing
  }

  function ActiveIds(jobs: Jobs): set<Id> {
    set id | id in jobs && Active(jobs[id])
  }

  function NewJob(now: Time): Job {
    Job(Pending, now, now, None, None, None, None, None, None)
  }

  function Or<T>(a: Option<T>, b: Option<T>): Option<T> {
    if a.Some? then a else b
  }

  function Changed(job: Job, status: Status, extras: Extras, now: Time): Job {
    var completedAt := if extras.completedAt.None? && status == Complete then Some(now) else extras.completedAt;
    Job(status, job.createdAt, now, Or(extras.filePath, job.filePath), Or(extras.downloadUrl, job.downloadUrl),
        Or(extras.rowCount, job.rowCount), Or(extras.sizeBytes, job.sizeBytes), Or(completedAt, job.completedAt),
        Or(extras.errorMessage, job.errorMessage))
  }

  predicate CanChange(jobs: Jobs, id: Id, status: Status) {
    id in jobs && Allowed(jobs[id].status, status)
  }

  /** An update that is refused, or that finds no row, changes nothing. */
  function Updated(jobs: Jobs, id: Id, status: Status, extras: Extras, now: Time): Jobs {
    if CanChange(jobs, id, status) then jobs[id := Changed(jobs[id], status, extras, now)] else jobs
  }

  function Claimed(jobs: Jobs, id: Id, now: Time): Jobs {
    if id in jobs && jobs[id].status == Pending then jobs[id := jobs[id].(status := Processing, updatedAt := now)]
    else jobs
  }

  function Created(jobs: Jobs, id: Id, max: int, now: Time): Jobs {
    if |ActiveIds(jobs)| < max && id !in jobs then jobs[id := NewJob(now)] else jobs
  }

  function ExpiredIds(jobs: Jobs, cutoff: Time): set<Id> {
    set id | id in jobs && jobs[id].createdAt < cutoff && (jobs[id].status == Complete || jobs[id].status == Failed)
  }

  datatype CreateResult = AtCapacity | DuplicateId | New(job: Job)
  datatype UpdateResult = NotFound | InvalidTransition | Done(job: Job)

  class ExportJobStore {
    var jobs: Jobs

    constructor ()
      ensures jobs == map[]
    {
      jobs := map[];
    }

    method CountActive() returns (active: nat)
      ensures active == |ActiveIds(jobs)|
    {
      active := 0;
      var rest := jobs.Keys;
      ghost var counted: set<Id> := {};
      while rest != {}
        invariant rest <= jobs.Keys && counted == set id | id in jobs && id !in rest && Active(jobs[id])
        invariant active == |counted|
        decreases rest
      {
        var id :| id in rest;
        rest := rest - {id};
        if Active(jobs[id]) {
          assert id !in counted;
          counted := counted + {id};
          active := active + 1;
        }
      }
      assert counted == ActiveIds(jobs);
    }

    method CreateIfCapacity(id: Id, maxConcurrent: int, now: Time) returns (result: CreateResult)
      modifies this
      ensures jobs == Created(old(jobs), id, maxConcurrent, now)
      ensures result == if |ActiveIds(old(jobs))| >= maxConcurrent then AtCapacity
                        else if id in old(jobs) then DuplicateId else New(NewJob(now))
      ensures result.New? ==>
        && jobs == old(jobs)[id := result.job] && result.job.status == Pending
        && result.job.createdAt == now && result.job.updatedAt == now
        && result.job.filePath == None && result.job.downloadUrl == None && result.job.rowCount == None
        && result.job.sizeBytes == None && result.job.completedAt == None && result.job.errorMessage == None
    {
      var active := CountActive();
      if active >= maxConcurrent {
        return AtCapacity;
      }
      if id in jobs {
        return DuplicateId;
      }
      jobs := jobs[id := NewJob(now)];
      return New(jobs[id]);
    }

    method ClaimPending(id: Id, now: Time) returns (claimed: bool)
      modifies this
      ensures jobs == Claimed(old(jobs), id, now)
      ensures claimed <==> id in old(jobs) && old(jobs)[id].status == Pending
    {
      claimed := id in jobs && jobs[id].status == Pending;
      if claimed {
        jobs := jobs[id := jobs[id].(status := Processing, updatedAt := now)];
      }
    }

    method UpdateStatus(id: Id, status: Status, extras: Extras, now: Time) returns (result: UpdateResult)
      modifies this
      ensures jobs == Updated(old(jobs), id, status, extras, now)
      ensures result == if id !in old(jobs) then NotFound
                        else if !Allowed(old(jobs)[id].status, status) then InvalidTransition
                        else Done(Changed(old(jobs)[id], status, extras, now))
      ensures result.Done? <==>
        id in old(jobs) && var from := old(jobs)[id].status;
        && Rank(from) < Rank(status) && (status == Complete ==> from == Processing)
        && (status == Cancelled ==> Rank(from) < 2)
      ensures result.Done? ==>
        jobs == old(jobs)[id := result.job] && AmendedTo(old(jobs)[id], status, extras, now, result.job)
      ensures !result.Done? ==> jobs == old(jobs)
    {
      if id in jobs {
        AllowedGoesForward(jobs[id].status, status);
      }
      if id !in jobs {
        return NotFound;
      }
      var job := jobs[id];
      if !Allowed(job.status, status) {
        return InvalidTransition;
      }
      job := job.(status := status, updatedAt := now);
      job := job.(filePath := Or(extras.filePath, job.filePath),
                  downloadUrl := Or(extras.downloadUrl, job.downloadUrl));
      job := job.(rowCount := Or(extras.rowCount, job.rowCount), sizeBytes := Or(extras.sizeBytes, job.sizeBytes));
      var completedAt := extras.completedAt;
      if completedAt.None? && status == Complete {
        completedAt := Some(now);
      }
      job := job.(completedAt := Or(completedAt, job.completedAt),
                  errorMessage := Or(extras.errorMessage, job.errorMessage));
      jobs := jobs[id := job];
      return Done(job);
    }

    method Delete(id: Id) returns (deleted: bool)
      modifies this
      ensures jobs == old(jobs) - {id} && (deleted <==> id in old(jobs))
    {
      deleted := id in jobs;
      jobs := jobs - {id};
    }

    /** Jobs of any order: the queries have no ORDER BY. */
    method FindStale() returns (found: seq<Id>)
      ensures forall id :: id in found <==> id in ActiveIds(jobs)
    {
      found := [];
      var rest := jobs.Keys;
      while rest != {}
        invariant rest <= jobs.Keys
        invariant forall id :: id in found <==> id in ActiveIds(jobs) && id !in rest
        decreases rest
      {
        var id :| id in rest;
        rest := rest - {id};
        if Active(jobs[id]) {
          found := found + [id];
        }
      }
    }

    method FindExpired(ttl: int, now: Time) returns (found: seq<Id>)
      ensures forall id :: id in found <==> id in ExpiredIds(jobs, now - ttl)
    {
      found := [];
      var rest := jobs.Keys;
      while rest != {}
        invariant rest <= jobs.Keys
        invariant forall id :: id in found <==> id in ExpiredIds(jobs, now - ttl) && id !in rest
        decreases rest
      {
        var id :| id in rest;
        rest := rest - {id};
        if jobs[id].createdAt < now - ttl && (jobs[id].status == Complete || jobs[id].status == Failed) {
          found := found + [id];
        }
      }
    }
  }
}
