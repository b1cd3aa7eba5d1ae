/** Export jobs under concurrent requests: the methods of server/export_service.py, cut at every store call. */
module ExportJobs {
  import opened ExportStore
  import opened Options
  import opened Sets

  /** What a worker has to do next. */
  datatype WorkerStep =
    | Claim
    | Work
    | CheckWritten(extras: Extras)
    | MarkComplete(extras: Extras)
    | CheckFailed(message: Text)
    | MarkFailed(message: Text)

  /** The calls in progress. */
  datatype Agent =
    | Worker(id: Id, step: WorkerStep)
    | Deleter(id: Id)
    | Canceller(id: Id)
    | Remover(id: Id)
    | Sweeper(ttl: int)
    | Expirer(left: seq<Id>)
    | Recoverer(message: Text)
    | Restarter(left: seq<Id>, message: Text)
    | Ended

  /** What the world decides at a step: the export's outcome, and the order of a query's rows. */
  datatype Choice =
    | Wrote(path: Text, url: Text, rowCount: Option<int>, sizeBytes: Option<int>)
    | Broke(message: Text)
    | Rows(ids: seq<Id>)

  datatype Event = Submit(id: Id) | Spawn(agent: Agent) | Step(k: nat, choice: Choice)

  /** `used` are the ids given out so far, `claims` and `changes` count what happened to every job. */
  datatype State = State(jobs: Jobs, agents: seq<Agent>, used: set<Id>, claims: map<Id, nat>, changes: map<Id, nat>)

  const INITIAL := State(map[], [], {}, map[], map[])

  function Count(counts: map<Id, nat>, id: Id): nat {
    if id in counts then counts[id] else 0
  }

  /** How a call starts. */
  predicate Fresh(agent: Agent) {
    (agent.Worker? && agent.step == Claim) || agent.Deleter? || agent.Sweeper? || agent.Recoverer?
  }

  /** A status update of the table, and its count. */
  function Transition(s: State, id: Id, status: Status, extras: Extras, now: Time): State {
    s.(jobs := Updated(s.jobs, id, status, extras, now),
    changes := if CanChange(s.jobs, id, status) then s.changes[id := Count(s.changes, id) + 1] else s.changes)
  }

  predicate Refused(jobs: Jobs, id: Id, status: Status) {
    id in jobs && !Allowed(jobs[id].status, status)
  }

  /** The state and the rest of the call after one step of a worker. */
  function WorkerNext(s: State, id: Id, step: WorkerStep, choice: Choice, now: Time): (State, Agent) {
    match step
    case Claim =>
      if id in s.jobs && s.jobs[id].status == Pending then
        (s.(jobs := Claimed(s.jobs, id, now), claims := s.claims[id := Count(s.claims, id) + 1],
         changes := s.changes[id := Count(s.changes, id) + 1]), Worker(id, Work))
      else (s, Ended)
    case Work =>
      (s, match choice
          case Wrote(path, url, rows, bytes) =>
            Worker(id, CheckWritten(Extras(Some(path), Some(url), rows, bytes, None, None)))
          case Broke(message) => Worker(id, CheckFailed(message))
          case Rows(_) => Worker(id, Work))
    case CheckWritten(extras) =>
      (s, if id !in s.jobs || s.jobs[id].status == Cancelled then Ended else Worker(id, MarkComplete(extras)))
    case MarkComplete(extras) =>
      // a refused update raises, and the handler marks the job failed
      (Transition(s, id, Complete, extras, now),
       if Refused(s.jobs, id, Complete) && choice.Broke? then Worker(id, CheckFailed(choice.message))
       else if Refused(s.jobs, id, Complete) then Worker(id, MarkComplete(extras))
       else Ended)
    case CheckFailed(message) =>
      (s, if id !in s.jobs || s.jobs[id].status == Cancelled then Ended else Worker(id, MarkFailed(message)))
    case MarkFailed(message) =>
      (Transition(s, id, Failed, NO_EXTRAS.(errorMessage := Some(message)), now), Ended)
  }

  /** The next of a list of updates; a refused one raises and ends the call. */
  function ListNext(s: State, left: seq<Id>, status: Status, extras: Extras, now: Time): (State, bool)
    requires left != []
  {
    (Transition(s, left[0], status, extras, now), !Refused(s.jobs, left[0], status))
  }

  function AgentNext(s: State, agent: Agent, choice: Choice, now: Time): (State, Agent) {
    match agent
    case Worker(id, step) => WorkerNext(s, id, step, choice, now)
    case Deleter(id) =>
      (s, if id !in s.jobs then Ended else if Active(s.jobs[id]) then Canceller(id) else Remover(id))
    case Canceller(id) =>
      (Transition(s, id, Cancelled, NO_EXTRAS, now), Ended)
    case Remover(id) =>
      (s.(jobs := s.jobs - {id}), Ended)
    case Sweeper(ttl) =>
      (s, if choice.Rows? && (set id | id in choice.ids) == ExpiredIds(s.jobs, now - ttl)
          then Expirer(choice.ids) else agent)
    case Expirer(left) =>
      if left == [] then (s, Ended)
      else
        var (next, goesOn) := ListNext(s, left, Expired, NO_EXTRAS, now);
        (next, if goesOn then Expirer(left[1..]) else Ended)
    case Recoverer(message) =>
      (s, if choice.Rows? && (set id | id in choice.ids) == ActiveIds(s.jobs)
          then Restarter(choice.ids, message) else agent)
    case Restarter(left, message) =>
      if left == [] then (s, Ended)
      else
        var (next, goesOn) := ListNext(s, left, Failed, NO_EXTRAS.(errorMessage := Some(message)), now);
        (next, if goesOn then Restarter(left[1..], message) else Ended)
    case Ended => (s, Ended)
  }

  /** A submitted job gets an id that was never used. */
  function Next(s: State, event: Event, max: int, now: Time): State {
    match event
    case Submit(id) =>
      if id in s.used then s else s.(jobs := Created(s.jobs, id, max, now), used := s.used + {id})
    case Spawn(agent) =>
      if Fresh(agent) then s.(agents := s.agents + [agent]) else s
    case Step(k, choice) =>
      if k >= |s.agents| then s
      else
        var (next, agent) := AgentNext(s, s.agents[k], choice, now);
        next.(agents := next.agents[k := agent])
  }

  datatype Timed = At(event: Event, now: Time)

  function Run(s: State, events: seq<Timed>, max: int): State
    decreases |events|
  {
    if events == [] then s else Run(Next(s, events[0].event, max, events[0].now), events[1..], max)
  }

  // ---------------------------------------------------------------- what the table keeps

  predicate HasFile(job: Job) {
    job.filePath.Some? && job.downloadUrl.Some? && job.completedAt.Some?
  }

  ghost predicate Counted(s: State) {
    forall id: Id ::
      && Count(s.claims, id) <= 1 && Count(s.changes, id) <= 3
      && (id !in s.used ==> id !in s.jobs && Count(s.claims, id) == 0 && Count(s.changes, id) == 0)
      && (id in s.jobs ==> Count(s.changes, id) <= Rank(s.jobs[id].status))
      && (id in s.jobs && s.jobs[id].status == Pending ==> Count(s.claims, id) == 0)
  }

  ghost predicate FilesKnown(s: State) {
    forall id :: id in s.jobs && s.jobs[id].status == Complete ==> HasFile(s.jobs[id])
  }

  /** A cap below zero lets no job in, like a cap of zero. */
  function Cap(max: int): nat {
    if max < 0 then 0 else max
  }

  ghost predicate TableInv(s: State, max: int) {
    |ActiveIds(s.jobs)| <= Cap(max) && Counted(s) && FilesKnown(s)
  }

  lemma {:induction false} FewerActive(a: Jobs, b: Jobs)
    requires ActiveIds(a) <= ActiveIds(b)
    ensures |ActiveIds(a)| <= |ActiveIds(b)|
  {
    SubsetIsSmaller(ActiveIds(a), ActiveIds(b));
  }

  /** The status updates that bring what they promise: completing brings the file. */
  predicate Supplied(status: Status, extras: Extras) {
    status == Complete ==> extras.filePath.Some? && extras.downloadUrl.Some?
  }

  lemma {:induction false} AllowedClimbs(from: Status, to: Status)
    requires Allowed(from, to)
    ensures Rank(from) < Rank(to) <= 3 && to != Pending
  {
  }

  lemma {:induction false} TransitionCounted(s: State, id: Id, status: Status, extras: Extras, now: Time)
    requires Counted(s)
    ensures Counted(Transition(s, id, status, extras, now))
  {
    if CanChange(s.jobs, id, status) {
      AllowedClimbs(s.jobs[id].status, status);
    }
  }

  lemma {:induction false} TransitionFiles(s: State, id: Id, status: Status, extras: Extras, now: Time)
    requires FilesKnown(s) && Supplied(status, extras)
    ensures FilesKnown(Transition(s, id, status, extras, now))
  {
    if CanChange(s.jobs, id, status) && status == Complete {
      assert HasFile(Changed(s.jobs[id], status, extras, now));
    }
  }

  lemma {:induction false} TransitionActive(s: State, id: Id, status: Status, extras: Extras, now: Time)
    ensures ActiveIds(Transition(s, id, status, extras, now).jobs) <= ActiveIds(s.jobs)
  {
  }

  lemma {:induction false} TransitionKeeps(s: State, id: Id, status: Status, extras: Extras, now: Time, max: int)
    requires TableInv(s, max) && Supplied(status, extras)
    ensures TableInv(Transition(s, id, status, extras, now), max)
  {
    TransitionActive(s, id, status, extras, now);
    FewerActive(Transition(s, id, status, extras, now).jobs, s.jobs);
    TransitionCounted(s, id, status, extras, now);
    TransitionFiles(s, id, status, extras, now);
  }

  function ClaimTable(s: State, id: Id, now: Time): State {
    s.(jobs := Claimed(s.jobs, id, now), claims := s.claims[id := Count(s.claims, id) + 1],
    changes := s.changes[id := Count(s.changes, id) + 1])
  }

  lemma {:induction false} ClaimKeeps(s: State, id: Id, now: Time, max: int)
    requires TableInv(s, max) && id in s.jobs && s.jobs[id].status == Pending
    ensures TableInv(ClaimTable(s, id, now), max)
  {
    assert ActiveIds(Claimed(s.jobs, id, now)) == ActiveIds(s.jobs);
    assert Counted(ClaimTable(s, id, now));
    assert FilesKnown(ClaimTable(s, id, now));
  }

  lemma {:induction false} ClaimEvolves(s: State, id: Id, now: Time)
    requires Counted(s) && id in s.jobs && s.jobs[id].status == Pending
    ensures var next := ClaimTable(s, id, now);
      Evolves(s, next) && Count(next.claims, id) == 1 && id in s.used && Count(s.claims, id) == 0
  {
  }

  lemma {:induction false} RemoveKeeps(s: State, id: Id, max: int)
    requires TableInv(s, max)
    ensures TableInv(s.(jobs := s.jobs - {id}), max)
  {
    FewerActive(s.jobs - {id}, s.jobs);
  }

  lemma {:induction false} SubmitKeeps(s: State, id: Id, max: int, now: Time)
    requires TableInv(s, max) && id !in s.used
    ensures TableInv(s.(jobs := Created(s.jobs, id, max, now), used := s.used + {id}), max)
  {
    var jobs := Created(s.jobs, id, max, now);
    if jobs != s.jobs {
      assert ActiveIds(jobs) == ActiveIds(s.jobs) + {id};
    }
  }

  // ---------------------------------------------------------------- what the calls keep

  /** Has the worker claimed its job? */
  predicate Working(agent: Agent) {
    agent.Worker? && agent.step != Claim
  }

  /** What a call in progress may rely on. */
  predicate AgentInv(s: State, agent: Agent) {
    && (Working(agent) ==> agent.id in s.used && Count(s.claims, agent.id) == 1)
    && (agent.Worker? && (agent.step.CheckWritten? || agent.step.MarkComplete?) ==>
          Supplied(Complete, agent.step.extras))
    && (agent.Remover? ==> agent.id in s.used && (agent.id in s.jobs ==> !Active(s.jobs[agent.id])))
  }

  ghost predicate AgentsInv(s: State) {
    && (forall k :: 0 <= k < |s.agents| ==> AgentInv(s, s.agents[k]))
    && (forall k, l :: 0 <= k < l < |s.agents| && Working(s.agents[k]) && Working(s.agents[l]) ==>
          s.agents[k].id != s.agents[l].id)
  }

  /** What one step can do to the table, as far as the other calls are concerned. */
  ghost predicate Evolves(a: State, b: State) {
    && a.used <= b.used
    && (forall id :: id in a.jobs && id in b.jobs ==>
          a.jobs[id] == b.jobs[id] || Allowed(a.jobs[id].status, b.jobs[id].status))
    && (forall id :: id in b.jobs && id !in a.jobs ==> id !in a.used)
    && (forall id :: id in a.jobs && id !in b.jobs ==> !Active(a.jobs[id]))
    && (forall id :: Count(a.claims, id) <= Count(b.claims, id))
  }

  lemma {:induction false} AgentInvEvolves(a: State, b: State, agent: Agent)
    requires AgentInv(a, agent) && Evolves(a, b) && Counted(b)
    ensures AgentInv(b, agent)
  {
    if Working(agent) {
      assert Count(b.claims, agent.id) <= 1;
    }
  }

  lemma {:induction false} TransitionEvolves(s: State, id: Id, status: Status, extras: Extras, now: Time)
    ensures Evolves(s, Transition(s, id, status, extras, now))
  {
  }

  ghost predicate StepKeeps(s: State, next: State, before: Agent, after: Agent, max: int) {
    && TableInv(next, max) && Evolves(s, next) && AgentInv(next, after)
    && next.agents == s.agents && next.used == s.used
    && (Working(after) ==>
          before.Worker? && after.id == before.id && (before.step == Claim ==> Count(s.claims, before.id) == 0))
  }

  lemma {:induction false} WorkerStepKeeps(s: State, agent: Agent, choice: Choice, now: Time, max: int)
    requires TableInv(s, max) && AgentInv(s, agent) && agent.Worker?
    ensures var r := WorkerNext(s, agent.id, agent.step, choice, now); StepKeeps(s, r.0, agent, r.1, max)
  {
    var id := agent.id;
    match agent.step
    case Claim =>
      if id in s.jobs && s.jobs[id].status == Pending {
        ClaimKeeps(s, id, now, max);
        ClaimEvolves(s, id, now);
      }
    case Work =>
    case CheckWritten(_) =>
    case MarkComplete(extras) =>
      TransitionKeeps(s, id, Complete, extras, now, max);
      TransitionEvolves(s, id, Complete, extras, now);
    case CheckFailed(_) =>
    case MarkFailed(message) =>
      TransitionKeeps(s, id, Failed, NO_EXTRAS.(errorMessage := Some(message)), now, max);
      TransitionEvolves(s, id, Failed, NO_EXTRAS.(errorMessage := Some(message)), now);
  }

  lemma {:induction false} ListStepKeeps(s: State, left: seq<Id>, status: Status, extras: Extras, now: Time, max: int)
    requires TableInv(s, max) && left != [] && status != Complete
    ensures var next := ListNext(s, left, status, extras, now).0;
      TableInv(next, max) && Evolves(s, next) && next.agents == s.agents && next.used == s.used
  {
    TransitionKeeps(s, left[0], status, extras, now, max);
    TransitionEvolves(s, left[0], status, extras, now);
  }

  lemma {:induction false} DeleterStepKeeps(s: State, agent: Agent, choice: Choice, now: Time, max: int)
    requires TableInv(s, max) && agent.Deleter?
    ensures var r := AgentNext(s, agent, choice, now); StepKeeps(s, r.0, agent, r.1, max)
  {
  }

  lemma {:induction false} AgentStepKeeps(s: State, agent: Agent, choice: Choice, now: Time, max: int)
    requires TableInv(s, max) && AgentInv(s, agent)
    ensures var r := AgentNext(s, agent, choice, now); StepKeeps(s, r.0, agent, r.1, max)
  {
    hide Updated, ActiveIds, Counted, FilesKnown, WorkerNext;
    match agent
    case Worker(_, _) =>
      WorkerStepKeeps(s, agent, choice, now, max);
    case Canceller(id) =>
      TransitionKeeps(s, id, Cancelled, NO_EXTRAS, now, max);
      TransitionEvolves(s, id, Cancelled, NO_EXTRAS, now);
    case Remover(id) =>
      RemoveKeeps(s, id, max);
    case Expirer(left) =>
      if left != [] {
        ListStepKeeps(s, left, Expired, NO_EXTRAS, now, max);
      }
    case Restarter(left, message) =>
      if left != [] {
        ListStepKeeps(s, left, Failed, NO_EXTRAS.(errorMessage := Some(message)), now, max);
      }
    case Deleter(_) =>
      DeleterStepKeeps(s, agent, choice, now, max);
    case Sweeper(_) =>
    case Recoverer(_) =>
    case Ended =>
  }

  ghost predicate Inv(s: State, max: int) {
    TableInv(s, max) && AgentsInv(s)
  }

  lemma {:induction false} ReplaceAgent(s: State, next: State, k: nat, agent: Agent, max: int)
    requires Inv(s, max) && k < |s.agents| && StepKeeps(s, next, s.agents[k], agent, max)
    ensures Inv(next.(agents := next.agents[k := agent]), max)
  {
    var r := next.(agents := next.agents[k := agent]);
    forall l | 0 <= l < |r.agents|
      ensures AgentInv(r, r.agents[l])
    {
      if l != k {
        AgentInvEvolves(s, next, s.agents[l]);
      }
    }
    forall i, j | 0 <= i < j < |r.agents| && Working(r.agents[i]) && Working(r.agents[j])
      ensures r.agents[i].id != r.agents[j].id
    {
      assert AgentInv(s, s.agents[i]) && AgentInv(s, s.agents[j]);
    }
    assert TableInv(r, max);
  }

  lemma {:induction false} StepInv(s: State, event: Event, max: int, now: Time)
    requires Inv(s, max)
    ensures Inv(Next(s, event, max, now), max)
  {
    match event
    case Submit(id) =>
      if id !in s.used {
        SubmitKeeps(s, id, max, now);
        var r := Next(s, event, max, now);
        forall l | 0 <= l < |r.agents|
          ensures AgentInv(r, r.agents[l])
        {
          assert AgentInv(s, s.agents[l]);
        }
      }
    case Spawn(agent) =>
      if Fresh(agent) {
        var r := Next(s, event, max, now);
        forall l | 0 <= l < |r.agents|
          ensures AgentInv(r, r.agents[l])
        {
          assert l < |s.agents| ==> AgentInv(s, s.agents[l]);
        }
      }
    case Step(k, choice) =>
      if k < |s.agents| {
        AgentStepKeeps(s, s.agents[k], choice, now, max);
        var r := AgentNext(s, s.agents[k], choice, now);
        ReplaceAgent(s, r.0, k, r.1, max);
      }
  }

  lemma {:induction false} RunInv(s: State, events: seq<Timed>, max: int)
    requires Inv(s, max)
    ensures Inv(Run(s, events, max), max)
    decreases |events|
  {
    if events != [] {
      StepInv(s, events[0].event, max, events[0].now);
      RunInv(Next(s, events[0].event, max, events[0].now), events[1..], max);
    }
  }

  lemma {:induction false} InitialInv(max: int)
    ensures Inv(INITIAL, max)
  {
    assert ActiveIds(INITIAL.jobs) == {};
  }

  // ---------------------------------------------------------------- over whole runs

  /** However the calls interleave, there are never more active jobs than the cap allows. */
  lemma {:induction false} ActiveJobsWithinCap(events: seq<Timed>, max: int)
    ensures |ActiveIds(Run(INITIAL, events, max).jobs)| <= Cap(max)
  {
    InitialInv(max);
    RunInv(INITIAL, events, max);
  }

  /** No job is claimed twice, and none changes its status more than three times. */
  lemma {:induction false} ClaimedOnceChangedThrice(events: seq<Timed>, max: int, id: Id)
    ensures Count(Run(INITIAL, events, max).claims, id) <= 1
    ensures Count(Run(INITIAL, events, max).changes, id) <= 3
  {
    InitialInv(max);
    RunInv(INITIAL, events, max);
  }

  /** No two workers work on the same job. */
  lemma {:induction false} OneWorkerPerJob(events: seq<Timed>, max: int, k: nat, l: nat)
    requires var s := Run(INITIAL, events, max);
      k < l < |s.agents| && Working(s.agents[k]) && Working(s.agents[l])
    ensures Run(INITIAL, events, max).agents[k].id != Run(INITIAL, events, max).agents[l].id
  {
    InitialInv(max);
    RunInv(INITIAL, events, max);
  }

  /** A complete job can be downloaded: its file, its address and its time of completion are known. */
  lemma {:induction false} CompleteJobsHaveFiles(events: seq<Timed>, max: int, id: Id)
    requires id in Run(INITIAL, events, max).jobs && Run(INITIAL, events, max).jobs[id].status == Complete
    ensures HasFile(Run(INITIAL, events, max).jobs[id])
  {
    InitialInv(max);
    RunInv(INITIAL, events, max);
  }

  /** What a job can be later: the same, further on, or deleted; a deleted job does not come back, and one that was
    * active has changed before it was deleted. */
  ghost predicate Later(a: State, b: State, id: Id) {
    && (id in a.used ==> id in b.used)
    && (id in a.jobs && id in b.jobs ==> a.jobs[id] == b.jobs[id] || Rank(a.jobs[id].status) < Rank(b.jobs[id].status))
    && (id in a.used && id !in a.jobs ==> id !in b.jobs)
    && Count(a.changes, id) <= Count(b.changes, id)
    && (id in a.jobs && id in b.jobs && a.jobs[id] != b.jobs[id] ==> Count(a.changes, id) < Count(b.changes, id))
    && (id in a.jobs && Active(a.jobs[id]) && id !in b.jobs ==> Count(a.changes, id) < Count(b.changes, id))
  }

  lemma {:induction false} ChangesGrow(s: State, agent: Agent, choice: Choice, now: Time, id: Id)
    ensures var next := AgentNext(s, agent, choice, now).0;
      Count(s.changes, id) + (if id in s.jobs && id in next.jobs && s.jobs[id] != next.jobs[id] then 1 else 0)
        == Count(next.changes, id)
  {
  }

  lemma {:induction false} StepIsLater(s: State, event: Event, max: int, now: Time, id: Id)
    requires Inv(s, max)
    ensures Later(s, Next(s, event, max, now), id)
  {
    if event.Step? && event.k < |s.agents| {
      var agent := s.agents[event.k];
      assert AgentInv(s, agent);
      AgentStepKeeps(s, agent, event.choice, now, max);
      ChangesGrow(s, agent, event.choice, now, id);
    }
  }

  lemma {:induction false} RunIsLater(s: State, events: seq<Timed>, max: int, id: Id)
    requires Inv(s, max)
    ensures Later(s, Run(s, events, max), id)
    decreases |events|
  {
    if events != [] {
      var next := Next(s, events[0].event, max, events[0].now);
      StepIsLater(s, events[0].event, max, events[0].now, id);
      StepInv(s, events[0].event, max, events[0].now);
      RunIsLater(next, events[1..], max, id);
      LaterIsTransitive(s, next, Run(s, events, max), id);
    }
  }

  lemma {:induction false} LaterIsTransitive(a: State, b: State, c: State, id: Id)
    requires Counted(a) && Later(a, b, id) && Later(b, c, id)
    ensures Later(a, c, id)
  {
  }

  /** From any point of any run on, statuses only climb; a cancelled or expired job stays what it is until it is
    * deleted; and no active job is deleted without being completed, failed, expired or cancelled first. */
  lemma {:induction false} StatusesOnlyClimb(events: seq<Timed>, more: seq<Timed>, max: int, id: Id)
    ensures var s := Run(INITIAL, events, max);
            var t := Run(s, more, max);
      && Later(s, t, id)
      && (id in s.jobs && (s.jobs[id].status == Cancelled || s.jobs[id].status == Expired) && id in t.jobs ==>
            t.jobs[id] == s.jobs[id])
  {
    var s := Run(INITIAL, events, max);
    InitialInv(max);
    RunInv(INITIAL, events, max);
    RunIsLater(s, more, max, id);
  }

  // ---------------------------------------------------------------- no job is left in process

  predicate HasWorker(agents: seq<Agent>, id: Id) {
    exists k :: 0 <= k < |agents| && Working(agents[k]) && agents[k].id == id
  }

  ghost predicate AllAttended(s: State) {
    forall id :: id in s.jobs && s.jobs[id].status == Processing ==> HasWorker(s.agents, id)
  }

  /** A step leaves no other job in process than before, but for the one that it claims; and the worker of a job stays
    * until the job is no longer in process. */
  lemma {:induction false} StepAttends(s: State, agent: Agent, choice: Choice, now: Time, id: Id)
    requires var r := AgentNext(s, agent, choice, now); id in r.0.jobs && r.0.jobs[id].status == Processing
    ensures var r := AgentNext(s, agent, choice, now);
      if id in s.jobs && s.jobs[id].status == Processing then
        Working(agent) && agent.id == id ==> Working(r.1) && r.1.id == id
      else Working(r.1) && r.1.id == id
  {
  }

  lemma {:induction false} AttendedStep(s: State, event: Event, max: int, now: Time)
    requires AllAttended(s)
    ensures AllAttended(Next(s, event, max, now))
  {
    var next := Next(s, event, max, now);
    forall id | id in next.jobs && next.jobs[id].status == Processing
      ensures HasWorker(next.agents, id)
    {
      if event.Step? && event.k < |s.agents| {
        StepAttends(s, s.agents[event.k], event.choice, now, id);
        hide AgentNext;
        if id in s.jobs && s.jobs[id].status == Processing {
          var k :| 0 <= k < |s.agents| && Working(s.agents[k]) && s.agents[k].id == id;
          assert Working(next.agents[k]) && next.agents[k].id == id;
        } else {
          assert Working(next.agents[event.k]) && next.agents[event.k].id == id;
        }
      } else {
        var k :| 0 <= k < |s.agents| && Working(s.agents[k]) && s.agents[k].id == id;
        assert next.agents[k] == s.agents[k];
      }
    }
  }

  lemma {:induction false} RunAttends(s: State, events: seq<Timed>, max: int)
    requires AllAttended(s)
    ensures AllAttended(Run(s, events, max))
    decreases |events|
  {
    if events != [] {
      AttendedStep(s, events[0].event, max, events[0].now);
      RunAttends(Next(s, events[0].event, max, events[0].now), events[1..], max);
    }
  }

  /** However the calls interleave, a job in process has a worker at work on it: a worker that ends, whatever came in
    * between, leaves its job complete, failed, expired, cancelled or deleted. */
  lemma {:induction false} ProcessingHasWorker(events: seq<Timed>, max: int, id: Id)
    requires id in Run(INITIAL, events, max).jobs && Run(INITIAL, events, max).jobs[id].status == Processing
    ensures HasWorker(Run(INITIAL, events, max).agents, id)
  {
    RunAttends(INITIAL, events, max);
  }

  // ---------------------------------------------------------------- calls that nothing interrupts

  /** A call on its own, one step for each choice. */
  function Alone(s: State, agent: Agent, choices: seq<Choice>, now: Time): (State, Agent)
    decreases |choices|
  {
    if choices == [] then (s, agent)
    else
      var (next, rest) := AgentNext(s, agent, choices[0], now);
      Alone(next, rest, choices[1..], now)
  }

  /** A worker that claims a pending job completes it with what it wrote, or fails it with the reason. */
  lemma {:induction false} WorkerFinishes(s: State, id: Id, choices: seq<Choice>, now: Time)
    requires id in s.jobs && s.jobs[id].status == Pending
    requires |choices| == 4 && (choices[1].Wrote? || choices[1].Broke?)
    ensures var (after, agent) := Alone(s, Worker(id, Claim), choices, now);
            var job := if id in after.jobs then after.jobs[id] else s.jobs[id];
      && agent == Ended && after.jobs.Keys == s.jobs.Keys
      && (forall other :: other in s.jobs && other != id ==> after.jobs[other] == s.jobs[other])
      && (choices[1].Wrote? ==>
            && job.status == Complete && job.completedAt == Some(now)
            && job.filePath == Some(choices[1].path) && job.downloadUrl == Some(choices[1].url)
            && (choices[1].rowCount.Some? ==> job.rowCount == choices[1].rowCount)
            && (choices[1].sizeBytes.Some? ==> job.sizeBytes == choices[1].sizeBytes))
      && (choices[1].Broke? ==> job.status == Failed && job.errorMessage == Some(choices[1].message))
  {
    var one := AgentNext(s, Worker(id, Claim), choices[0], now);
    var two := AgentNext(one.0, one.1, choices[1], now);
    var three := AgentNext(two.0, two.1, choices[2], now);
    var four := AgentNext(three.0, three.1, choices[3], now);
    assert Alone(s, Worker(id, Claim), choices, now) == four by {
      hide AgentNext;
      var rest := choices[1..];
      assert rest[1..] == choices[2..] && choices[2..][1..] == choices[3..] && choices[3..][1..] == [];
      assert Alone(three.0, three.1, choices[3..], now) == four;
      assert Alone(two.0, two.1, choices[2..], now) == four;
      assert Alone(one.0, one.1, rest, now) == four;
    }
  }

  /** A call to delete cancels an active job and removes any other. */
  lemma {:induction false} DeleterFinishes(s: State, id: Id, choices: seq<Choice>, now: Time)
    requires id in s.jobs && |choices| == 2
    ensures var (after, agent) := Alone(s, Deleter(id), choices, now);
      && agent == Ended
      && (forall other :: other in s.jobs && other != id ==> other in after.jobs && after.jobs[other] == s.jobs[other])
      && (if Active(s.jobs[id]) then
            id in after.jobs && after.jobs[id] == s.jobs[id].(status := Cancelled, updatedAt := now)
          else id !in after.jobs)
  {
    var one := AgentNext(s, Deleter(id), choices[0], now);
    var two := AgentNext(one.0, one.1, choices[1], now);
    assert choices[1..][0] == choices[1] && choices[1..][1..] == [];
    assert Alone(two.0, two.1, [], now) == two;
  }

  /** What a list of updates leaves of the table. */
  ghost predicate AllMoved(before: Jobs, ids: seq<Id>, status: Status, message: Option<Text>, now: Time, after: Jobs) {
    && after.Keys == before.Keys
    && (forall id :: id in before && id !in ids ==> after[id] == before[id])
    && (forall id :: id in before && id in ids ==>
          after[id] == before[id].(status := status, updatedAt := now,
                                   errorMessage := if message.Some? then message else before[id].errorMessage))
  }

  predicate NoneTwice(ids: seq<Id>) {
    forall i, j :: 0 <= i < j < |ids| ==> ids[i] != ids[j]
  }

  /** A sweep expires all the rows of its query. */
  lemma {:induction false} ExpirerFinishes(s: State, left: seq<Id>, choices: seq<Choice>, now: Time)
    requires NoneTwice(left) && |choices| == |left| + 1
    requires forall id :: id in left ==> id in s.jobs && (s.jobs[id].status == Complete || s.jobs[id].status == Failed)
    ensures var (after, agent) := Alone(s, Expirer(left), choices, now);
      agent == Ended && AllMoved(s.jobs, left, Expired, None, now, after.jobs)
    decreases |left|
  {
    if left != [] {
      var (next, goesOn) := ListNext(s, left, Expired, NO_EXTRAS, now);
      assert left[0] in left && goesOn;
      assert left == [left[0]] + left[1..];
      ExpirerFinishes(next, left[1..], choices[1..], now);
    } else {
      assert choices[1..] == [];
    }
  }

  /** A restart fails all the rows of its query. */
  lemma {:induction false} RestarterFinishes(s: State, left: seq<Id>, message: Text, choices: seq<Choice>, now: Time)
    requires NoneTwice(left) && |choices| == |left| + 1
    requires forall id :: id in left ==> id in s.jobs && Active(s.jobs[id])
    ensures var (after, agent) := Alone(s, Restarter(left, message), choices, now);
      agent == Ended && AllMoved(s.jobs, left, Failed, Some(message), now, after.jobs)
    decreases |left|
  {
    if left != [] {
      var (next, goesOn) := ListNext(s, left, Failed, NO_EXTRAS.(errorMessage := Some(message)), now);
      assert left[0] in left && goesOn;
      assert left == [left[0]] + left[1..];
      RestarterFinishes(next, left[1..], message, choices[1..], now);
    } else {
      assert choices[1..] == [];
    }
  }

  /** Once nothing interrupts it, a sweep leaves no complete or failed job older than its time to live. */
  lemma {:induction false} SweepExpiresAll(s: State, ttl: int, ids: seq<Id>, choices: seq<Choice>, now: Time)
    requires NoneTwice(ids) && |choices| == |ids| + 2 && choices[0] == Rows(ids)
    requires forall id :: id in ids <==> id in ExpiredIds(s.jobs, now - ttl)
    ensures var (after, agent) := Alone(s, Sweeper(ttl), choices, now);
      agent == Ended && AllMoved(s.jobs, ids, Expired, None, now, after.jobs) && ExpiredIds(after.jobs, now - ttl) == {}
  {
    assert (set id | id in ids) == ExpiredIds(s.jobs, now - ttl);
    assert AgentNext(s, Sweeper(ttl), choices[0], now) == (s, Expirer(ids));
    ExpirerFinishes(s, ids, choices[1..], now);
  }

  /** And a restart leaves no active job. */
  lemma {:induction false} RestartFailsAll(s: State, message: Text, ids: seq<Id>, choices: seq<Choice>, now: Time)
    requires NoneTwice(ids) && |choices| == |ids| + 2 && choices[0] == Rows(ids)
    requires forall id :: id in ids <==> id in ActiveIds(s.jobs)
    ensures var (after, agent) := Alone(s, Recoverer(message), choices, now);
      agent == Ended && AllMoved(s.jobs, ids, Failed, Some(message), now, after.jobs) && ActiveIds(after.jobs) == {}
  {
    assert (set id | id in ids) == ActiveIds(s.jobs);
    assert AgentNext(s, Recoverer(message), choices[0], now) == (s, Restarter(ids, message));
    RestarterFinishes(s, ids, message, choices[1..], now);
  }
}
