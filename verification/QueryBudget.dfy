/** Query admission of server/query_budget.py: requests interleaved at every suspension point, and cancelled there. */
module QueryBudgets {
  import opened Options

  /** The semaphore's free permits and the two counters of the budget. */
  datatype Counters = Counters(free: int, waiting: int, active: int)

  /** `depth` is the optional bound on the queue; the source does not require it to be positive. */
  datatype Limits = Limits(slots: nat, depth: Option<int>)

  function Max(a: int, b: int): int { if a < b then b else a }

  predicate QueueFull(l: Limits, c: Counters) {
    l.depth.Some? && c.active + c.waiting >= l.slots && c.waiting >= l.depth.value
  }

  function Enqueue(c: Counters): Counters { c.(waiting := c.waiting + 1) }

  function TakePermit(c: Counters): Counters { c.(free := c.free - 1) }

  function Settle(c: Counters, acquired: bool): Counters {
    c.(waiting := Max(0, c.waiting - 1), active := if acquired then c.active + 1 else c.active)
  }

  function Release(c: Counters): Counters {
    c.(free := c.free + 1, active := Max(0, c.active - 1))
  }

  /** Each method is the code between two suspension points of the source. */
  class QueryBudget {
    const limits: Limits
    var free: int
    var waiting: int
    var active: int

    function State(): Counters
      reads this
    {
      Counters(free, waiting, active)
    }

    constructor (maxConcurrent: int, maxQueueDepth: Option<int>)
      ensures limits == Limits(Max(1, maxConcurrent), maxQueueDepth)
      ensures State() == Counters(limits.slots, 0, 0)
    {
      limits := Limits(Max(1, maxConcurrent), maxQueueDepth);
      free, waiting, active := Max(1, maxConcurrent), 0, 0;
    }

    method Admit() returns (admitted: bool)
      modifies this
      ensures admitted == !QueueFull(limits, old(State()))
      ensures State() == if admitted then Enqueue(old(State())) else old(State())
      ensures !admitted <==>
        limits.depth.Some? && old(active) + old(waiting) >= limits.slots && old(waiting) >= limits.depth.value
      ensures free == old(free) && active == old(active) && waiting == old(waiting) + if admitted then 1 else 0
    {
      if limits.depth.Some? && active + waiting >= limits.slots && waiting >= limits.depth.value {
        return false;
      }
      waiting := waiting + 1;
      return true;
    }

    method AcquirePermit() returns (acquired: bool)
      modifies this
      ensures acquired == (old(free) > 0)
      ensures State() == if acquired then TakePermit(old(State())) else old(State())
      ensures waiting == old(waiting) && active == old(active) && free == old(free) - if acquired then 1 else 0
    {
      acquired := free > 0;
      if acquired {
        free := free - 1;
      }
    }

    method FinalizeAcquire(acquired: bool)
      modifies this
      ensures State() == Settle(old(State()), acquired)
      ensures old(waiting) >= 1 ==> waiting == old(waiting) - 1
      ensures free == old(free) && active == old(active) + if acquired then 1 else 0
    {
      waiting := Max(0, waiting - 1);
      if acquired {
        active := active + 1;
      }
    }

    method ReleaseSlot()
      modifies this
      ensures State() == Release(old(State()))
      ensures old(active) >= 1 ==> active == old(active) - 1
      ensures free == old(free) + 1 && waiting == old(waiting)
    {
      active := Max(0, active - 1);
      free := free + 1;
    }
  }

  // ---------------------------------------------------------------- one request

  /** A cleanup task behind `asyncio.shield`: whether its body has been entered, whether it has finished,
    * and whether the caller was already cancelled while waiting for it. */
  datatype Cleanup = Cleanup(entered: bool, finished: bool, interrupted: bool)

  const FreshCleanup := Cleanup(false, false, false)

  /** `Lost...` phases are ends that keep something: a second cancellation during one cleanup reaches the
    * cleanup task itself, and a cancellation during a successful settle skips the release. */
  datatype Phase =
    | Arriving
    | Queued
    | Settling(acquired: bool, cleanup: Cleanup)
    | Running
    | Leaving(cleanup: Cleanup)
    | Ended
    | Rejected
    | LostSlot
    | LostPlace(withPermit: bool)
    | LostActive

  datatype Event = Step(task: nat) | Cancel(task: nat)

  datatype World = World(limits: Limits, counters: Counters, tasks: seq<Phase>)

  /** What running one task up to its next suspension point does. */
  function StepTask(l: Limits, c: Counters, p: Phase): (Counters, Phase) {
    match p
    case Arriving => if QueueFull(l, c) then (c, Rejected) else (Enqueue(c), Queued)
    case Queued => if c.free > 0 then (TakePermit(c), Settling(true, FreshCleanup)) else (c, p)
    case Settling(acquired, k) =>
      if !k.entered then (c, Settling(acquired, k.(entered := true)))
      else if !k.finished then (Settle(c, acquired), Settling(acquired, k.(finished := true)))
      else (c, if acquired && !k.interrupted then Running else if acquired then LostSlot else Ended)
    case Running => (c, Leaving(FreshCleanup))
    case Leaving(k) =>
      if !k.entered then (c, Leaving(k.(entered := true)))
      else if !k.finished then (Release(c), Leaving(k.(finished := true)))
      else (c, Ended)
    case _ => (c, p)
  }

  /** What `task.cancel()` does to a task suspended in that phase. */
  function CancelTask(c: Counters, p: Phase): (Counters, Phase) {
    match p
    case Arriving => (c, Ended)
    case Queued => (c, Settling(false, FreshCleanup))
    case Settling(acquired, k) =>
      if k.interrupted && !k.finished then (c, LostPlace(acquired))
      else (c, Settling(acquired, k.(interrupted := true)))
    case Running => (c, Leaving(FreshCleanup))
    case Leaving(k) =>
      if k.interrupted && !k.finished then
        // Once entered, the `finally` around the counter update still releases the semaphore.
        if k.entered then (c.(free := c.free + 1), LostActive) else (c, LostSlot)
      else (c, Leaving(k.(interrupted := true)))
    case _ => (c, p)
  }

  function Apply(w: World, e: Event): (w': World)
    ensures w'.limits == w.limits && |w'.tasks| == |w.tasks|
  {
    if e.task >= |w.tasks| then w else
    var (c, p) := if e.Step? then StepTask(w.limits, w.counters, w.tasks[e.task])
                  else CancelTask(w.counters, w.tasks[e.task]);
    w.(counters := c, tasks := w.tasks[e.task := p])
  }

  function Start(l: Limits, tasks: nat): World {
    World(l, Counters(l.slots, 0, 0), seq(tasks, _ => Arriving))
  }

  /** The state after a schedule: the order of the events is the interleaving. */
  function Execute(w: World, schedule: seq<Event>): (w': World)
    ensures w'.limits == w.limits && |w'.tasks| == |w.tasks|
  {
    if schedule == [] then w
    else Apply(Execute(w, schedule[..|schedule| - 1]), schedule[|schedule| - 1])
  }

  // ---------------------------------------------------------------- what each phase owes

  predicate HoldsPlace(p: Phase) {
    p.Queued? || (p.Settling? && !p.cleanup.finished) || p.LostPlace?
  }

  predicate HoldsPermit(p: Phase) {
    || (p.Settling? && p.acquired) || p.Running? || (p.Leaving? && !p.cleanup.finished)
    || p.LostSlot? || (p.LostPlace? && p.withPermit)
  }

  predicate CountsActive(p: Phase) {
    || (p.Settling? && p.acquired && p.cleanup.finished) || p.Running?
    || (p.Leaving? && !p.cleanup.finished) || p.LostSlot? || p.LostActive?
  }

  predicate Lost(p: Phase) { p.LostSlot? || p.LostPlace? || p.LostActive? }

  predicate Over(p: Phase) { p.Ended? || p.Rejected? || Lost(p) }

  predicate AllOver(w: World) { forall t :: 0 <= t < |w.tasks| ==> Over(w.tasks[t]) }

  /** How many tasks of `ps` satisfy `f`. */
  function Count(ps: seq<Phase>, f: Phase -> bool): nat {
    if ps == [] then 0 else (if f(ps[0]) then 1 else 0) + Count(ps[1..], f)
  }

  function One(b: bool): nat { if b then 1 else 0 }

  lemma {:induction false} CountUpdate(ps: seq<Phase>, f: Phase -> bool, t: nat, p: Phase)
    requires t < |ps|
    ensures Count(ps[t := p], f) == Count(ps, f) - One(f(ps[t])) + One(f(p))
  {
    if t == 0 {
      assert ps[t := p][1..] == ps[1..];
    } else {
      assert ps[t := p][1..] == ps[1..][t - 1 := p];
      CountUpdate(ps[1..], f, t - 1, p);
    }
  }

  lemma {:induction false} CountZero(ps: seq<Phase>, f: Phase -> bool)
    ensures Count(ps, f) == 0 <==> forall t :: 0 <= t < |ps| ==> !f(ps[t])
  {
    if ps != [] {
      CountZero(ps[1..], f);
      assert forall t :: 1 <= t < |ps| ==> ps[t] == ps[1..][t - 1];
      assert forall t :: 0 <= t < |ps[1..]| ==> ps[1..][t] == ps[t + 1];
    }
  }

  lemma {:induction false} CountAtMost(ps: seq<Phase>, f: Phase -> bool, g: Phase -> bool, h: Phase -> bool)
    requires forall p :: f(p) ==> g(p) || h(p)
    ensures Count(ps, f) <= Count(ps, g) + Count(ps, h)
  {
    if ps != [] {
      CountAtMost(ps[1..], f, g, h);
    }
  }

  /** The counters are exactly what the tasks owe. */
  ghost predicate Balanced(w: World) {
    && w.counters.free + Count(w.tasks, HoldsPermit) == w.limits.slots
    && w.counters.waiting == Count(w.tasks, HoldsPlace)
    && w.counters.active == Count(w.tasks, CountsActive)
    && w.counters.free >= 0
  }

  lemma {:induction false} BalancedStart(l: Limits, tasks: nat)
    ensures Balanced(Start(l, tasks))
  {
    var w := Start(l, tasks);
    CountZero(w.tasks, HoldsPermit);
    CountZero(w.tasks, HoldsPlace);
    CountZero(w.tasks, CountsActive);
  }

  /** A task that holds something is counted, so taking one off its counter cannot reach the clamp. */
  lemma {:induction false} HoldersAreCounted(w: World, t: nat)
    requires Balanced(w) && t < |w.tasks|
    ensures HoldsPlace(w.tasks[t]) ==> w.counters.waiting >= 1
    ensures CountsActive(w.tasks[t]) ==> w.counters.active >= 1
  {
    CountZero(w.tasks, HoldsPlace);
    CountZero(w.tasks, CountsActive);
  }

  lemma {:induction false} PermitsApply(w: World, e: Event)
    requires Balanced(w) && e.task < |w.tasks|
    ensures var r := Apply(w, e);
      r.counters.free + Count(r.tasks, HoldsPermit) == r.limits.slots && r.counters.free >= 0
  {
    CountUpdate(w.tasks, HoldsPermit, e.task, Apply(w, e).tasks[e.task]);
  }

  lemma {:induction false} PlacesApply(w: World, e: Event)
    requires Balanced(w) && e.task < |w.tasks|
    ensures Apply(w, e).counters.waiting == Count(Apply(w, e).tasks, HoldsPlace)
  {
    HoldersAreCounted(w, e.task);
    CountUpdate(w.tasks, HoldsPlace, e.task, Apply(w, e).tasks[e.task]);
  }

  lemma {:induction false} ActiveApply(w: World, e: Event)
    requires Balanced(w) && e.task < |w.tasks|
    ensures Apply(w, e).counters.active == Count(Apply(w, e).tasks, CountsActive)
  {
    HoldersAreCounted(w, e.task);
    CountUpdate(w.tasks, CountsActive, e.task, Apply(w, e).tasks[e.task]);
  }

  lemma {:induction false} BalancedApply(w: World, e: Event)
    requires Balanced(w)
    ensures Balanced(Apply(w, e))
  {
    if e.task < |w.tasks| {
      PermitsApply(w, e);
      PlacesApply(w, e);
      ActiveApply(w, e);
    }
  }

  /** In every interleaving, with any number of cancellations, free permits and permit holders make up the
    * limit, and both counters count exactly the tasks that owe them. */
  lemma {:induction false} CountersMatchTasks(l: Limits, tasks: nat, schedule: seq<Event>)
    ensures Balanced(Execute(Start(l, tasks), schedule))
  {
    if schedule == [] {
      BalancedStart(l, tasks);
    } else {
      CountersMatchTasks(l, tasks, schedule[..|schedule| - 1]);
      BalancedApply(Execute(Start(l, tasks), schedule[..|schedule| - 1]), schedule[|schedule| - 1]);
    }
  }

  /** The `max(0, ...)` clamps never change a result: whoever settles or releases is still counted. */
  lemma {:induction false} ClampsNeverBite(l: Limits, tasks: nat, schedule: seq<Event>, t: nat)
    requires t < tasks
    ensures var w := Execute(Start(l, tasks), schedule);
            && (w.tasks[t].Settling? && !w.tasks[t].cleanup.finished ==> w.counters.waiting - 1 >= 0)
            && (w.tasks[t].Leaving? && !w.tasks[t].cleanup.finished ==> w.counters.active - 1 >= 0)
  {
    CountersMatchTasks(l, tasks, schedule);
    HoldersAreCounted(Execute(Start(l, tasks), schedule), t);
  }

  // ---------------------------------------------------------------- the bound on the queue

  predicate IsLostActive(p: Phase) { p.LostActive? }

  ghost predicate WithinBound(w: World) {
    w.limits.depth.Some? ==>
      w.counters.active + w.counters.waiting
      <= w.limits.slots + Max(0, w.limits.depth.value) + Count(w.tasks, IsLostActive)
  }

  lemma {:induction false} WithinBoundApply(w: World, e: Event)
    requires Balanced(w) && WithinBound(w)
    ensures WithinBound(Apply(w, e))
  {
    if e.task < |w.tasks| {
      HoldersAreCounted(w, e.task);
      CountAtMost(w.tasks, CountsActive, HoldsPermit, IsLostActive);
      CountUpdate(w.tasks, IsLostActive, e.task, Apply(w, e).tasks[e.task]);
    }
  }

  /** Running and queued requests never exceed the slots plus the queue depth, except for active counts
    * that a second cancellation kept from being taken back. */
  lemma {:induction false} LoadStaysBounded(l: Limits, tasks: nat, schedule: seq<Event>)
    ensures WithinBound(Execute(Start(l, tasks), schedule))
  {
    if schedule != [] {
      var before := schedule[..|schedule| - 1];
      LoadStaysBounded(l, tasks, before);
      CountersMatchTasks(l, tasks, before);
      WithinBoundApply(Execute(Start(l, tasks), before), schedule[|schedule| - 1]);
    }
  }

  // ---------------------------------------------------------------- what is left at the end

  ghost predicate Idle(w: World) { w.counters == Counters(w.limits.slots, 0, 0) }

  /** Once every request is over, the budget is back at its start exactly when no request lost anything. */
  lemma {:induction false} IdleIffNothingLost(l: Limits, tasks: nat, schedule: seq<Event>)
    requires AllOver(Execute(Start(l, tasks), schedule))
    ensures var w := Execute(Start(l, tasks), schedule);
            Idle(w) <==> forall t :: 0 <= t < tasks ==> !Lost(w.tasks[t])
  {
    var w := Execute(Start(l, tasks), schedule);
    CountersMatchTasks(l, tasks, schedule);
    CountZero(w.tasks, HoldsPermit);
    CountZero(w.tasks, HoldsPlace);
    CountZero(w.tasks, CountsActive);
    assert forall t :: 0 <= t < tasks ==>
        (Lost(w.tasks[t]) <==> HoldsPermit(w.tasks[t]) || HoldsPlace(w.tasks[t]) || CountsActive(w.tasks[t]));
  }

  /** How often the schedule cancels task `t`. */
  function Cancels(schedule: seq<Event>, t: nat): nat {
    if schedule == [] then 0
    else Cancels(schedule[..|schedule| - 1], t) + One(schedule[|schedule| - 1] == Cancel(t))
  }

  /** Some cancellation reached `t` between obtaining its permit and entering the body. */
  predicate HitWhileSettling(w: World, schedule: seq<Event>, t: nat)
    requires t < |w.tasks|
  {
    schedule != [] &&
    var before, e := schedule[..|schedule| - 1], schedule[|schedule| - 1];
    || HitWhileSettling(w, before, t)
    || (var p := Execute(w, before).tasks[t]; e == Cancel(t) && p.Settling? && p.acquired)
  }

  predicate SlotHit(l: Limits, tasks: nat, schedule: seq<Event>, t: nat)
    requires t < tasks
  {
    HitWhileSettling(Start(l, tasks), schedule, t)
  }

  /** How the history of one task shows in its phase. */
  ghost predicate TellsHistory(p: Phase, cancels: nat, hit: bool) {
    && (p.Settling? && p.cleanup.interrupted ==> cancels >= 1)
    && (p.Leaving? && p.cleanup.interrupted ==> cancels >= 1)
    && (p.LostPlace? || p.LostActive? ==> cancels >= 2)
    && (hit ==> cancels >= 1 && (p.LostSlot? || (p.LostPlace? && p.withPermit)
                || (p.Settling? && p.acquired && p.cleanup.interrupted)))
    && (!hit ==> && (p.Settling? && p.acquired ==> !p.cleanup.interrupted)
                 && (p.LostSlot? ==> cancels >= 2))
  }

  lemma {:induction false} PhaseTellsHistory(l: Limits, tasks: nat, schedule: seq<Event>, t: nat)
    requires t < tasks
    ensures TellsHistory(Execute(Start(l, tasks), schedule).tasks[t], Cancels(schedule, t),
                         HitWhileSettling(Start(l, tasks), schedule, t))
  {
    if schedule != [] {
      PhaseTellsHistory(l, tasks, schedule[..|schedule| - 1], t);
    }
  }

  /** With at most one cancellation for each request, a request that is over kept its slot exactly when
    * that cancellation came after its permit and before its body: the release is then never reached. */
  lemma {:induction false} SlotLostIffCancelledWhileSettling(l: Limits, tasks: nat, schedule: seq<Event>, t: nat)
    requires t < tasks && Cancels(schedule, t) <= 1
    requires Over(Execute(Start(l, tasks), schedule).tasks[t])
    ensures var p := Execute(Start(l, tasks), schedule).tasks[t];
            && (p == LostSlot <==> SlotHit(l, tasks, schedule, t))
            && (Lost(p) ==> p == LostSlot)
  {
    PhaseTellsHistory(l, tasks, schedule, t);
  }

  /** Under the same condition, all counters return to their start exactly when no request was hit there. */
  lemma {:induction false} IdleIffNoneHit(l: Limits, tasks: nat, schedule: seq<Event>)
    requires AllOver(Execute(Start(l, tasks), schedule))
    requires forall t :: 0 <= t < tasks ==> Cancels(schedule, t) <= 1
    ensures Idle(Execute(Start(l, tasks), schedule))
       <==> forall t :: 0 <= t < tasks ==> !SlotHit(l, tasks, schedule, t)
  {
    var w := Execute(Start(l, tasks), schedule);
    IdleIffNothingLost(l, tasks, schedule);
    forall t: nat | t < tasks
      ensures Lost(w.tasks[t]) <==> SlotHit(l, tasks, schedule, t)
    {
      assert Over(w.tasks[t]);
      SlotLostIffCancelledWhileSettling(l, tasks, schedule, t);
    }
  }

  /** The leak happens: one request, cancelled once while its successful settle runs. */
  lemma {:induction false} CancelledSettleLeaksASlot(l: Limits)
    requires l == Limits(1, Some(0))
    ensures var w := Execute(Start(l, 1), [Step(0), Step(0), Cancel(0), Step(0), Step(0), Step(0)]);
            AllOver(w) && w.counters == Counters(0, 0, 1)
  {
    var w0 := Start(l, 1);
    var s := [Step(0), Step(0), Cancel(0), Step(0), Step(0), Step(0)];
    assert s[..1] == [Step(0)] && s[..2][..1] == s[..1] && s[..3][..2] == s[..2];
    assert s[..4][..3] == s[..3] && s[..5][..4] == s[..4] && s[..6] == s && s[..0] == [] && s[..1][..0] == [];
    assert Execute(w0, s[..1]).tasks == [Queued];
    assert Execute(w0, s[..2]).tasks == [Settling(true, FreshCleanup)];
    assert Execute(w0, s[..3]).tasks == [Settling(true, Cleanup(false, false, true))];
    assert Execute(w0, s[..4]).tasks == [Settling(true, Cleanup(true, false, true))];
    assert Execute(w0, s[..5]).tasks == [Settling(true, Cleanup(true, true, true))];
  }

  // ---------------------------------------------------------------- progress

  ghost predicate Stuck(w: World) {
    && (exists t :: 0 <= t < |w.tasks| && !Over(w.tasks[t]))
    && (forall t: nat :: t < |w.tasks| ==> Apply(w, Step(t)) == w)
  }

  predicate LostPermit(p: Phase) { p.LostSlot? || (p.LostPlace? && p.withPermit) }

  lemma {:induction false} CountSame(ps: seq<Phase>, f: Phase -> bool, g: Phase -> bool)
    requires forall t :: 0 <= t < |ps| ==> f(ps[t]) == g(ps[t])
    ensures Count(ps, f) == Count(ps, g)
  {
    if ps != [] {
      assert forall t :: 0 <= t < |ps[1..]| ==> ps[1..][t] == ps[t + 1];
      CountSame(ps[1..], f, g);
    }
  }

  /** Requests can only wait for ever when every slot has been lost. */
  lemma {:induction false} StuckMeansEverySlotLost(l: Limits, tasks: nat, schedule: seq<Event>)
    requires Stuck(Execute(Start(l, tasks), schedule))
    ensures Count(Execute(Start(l, tasks), schedule).tasks, LostPermit) == l.slots
  {
    var w := Execute(Start(l, tasks), schedule);
    CountersMatchTasks(l, tasks, schedule);
    forall t | 0 <= t < |w.tasks|
      ensures Over(w.tasks[t]) || w.tasks[t].Queued?
      ensures HoldsPermit(w.tasks[t]) == LostPermit(w.tasks[t])
    {
      assert Apply(w, Step(t)) == w;
      assert Apply(w, Step(t)).tasks[t] == w.tasks[t];
    }
    CountSame(w.tasks, HoldsPermit, LostPermit);
    var q :| 0 <= q < |w.tasks| && !Over(w.tasks[q]);
    assert Apply(w, Step(q)).tasks[q] == w.tasks[q];
  }

  // ---------------------------------------------------------------- what a request meets

  /** A request that arrives is turned away exactly if there is a bound on the queue, the requests that run and wait
    * take all slots, and those that wait are as many as the bound; otherwise it waits. */
  lemma {:induction false} TurnedAwayIffFull(l: Limits, tasks: nat, schedule: seq<Event>, t: nat)
    requires t < tasks && Execute(Start(l, tasks), schedule).tasks[t] == Arriving
    ensures var w := Execute(Start(l, tasks), schedule);
            var running, waiting := Count(w.tasks, CountsActive), Count(w.tasks, HoldsPlace);
            var full := l.depth.Some? && running + waiting >= l.slots && waiting >= l.depth.value;
      Apply(w, Step(t)).tasks[t] == if full then Rejected else Queued
  {
    CountersMatchTasks(l, tasks, schedule);
  }

  /** A request that waits goes on exactly if fewer requests than there are slots hold one. */
  lemma {:induction false} GoesOnIffSlotFree(l: Limits, tasks: nat, schedule: seq<Event>, t: nat)
    requires t < tasks && Execute(Start(l, tasks), schedule).tasks[t] == Queued
    ensures var w := Execute(Start(l, tasks), schedule);
            var next := Apply(w, Step(t)).tasks[t];
      if Count(w.tasks, HoldsPermit) < l.slots then HoldsPermit(next) && next.Settling? else next == Queued
  {
    CountersMatchTasks(l, tasks, schedule);
  }

  /** Was the body of the request entered in this schedule? */
  predicate Ran(w: World, schedule: seq<Event>, t: nat)
    requires t < |w.tasks|
  {
    Execute(w, schedule).tasks[t] == Running || (schedule != [] && Ran(w, schedule[..|schedule| - 1], t))
  }

  /** Where a request is that was never cancelled. */
  predicate Undisturbed(p: Phase, ran: bool) {
    match p
    case Arriving => !ran
    case Queued => !ran
    case Rejected => !ran
    case Settling(acquired, k) => acquired && !k.interrupted && (k.finished ==> k.entered) && !ran
    case Running => ran
    case Leaving(k) => !k.interrupted && (k.finished ==> k.entered) && ran
    case Ended => ran
    case _ => false
  }

  /** A request that is never cancelled is turned away or runs; it loses nothing. */
  lemma {:induction false} UncancelledRuns(l: Limits, tasks: nat, schedule: seq<Event>, t: nat)
    requires t < tasks && Cancels(schedule, t) == 0
    ensures var p := Execute(Start(l, tasks), schedule).tasks[t];
      && Undisturbed(p, Ran(Start(l, tasks), schedule, t))
      && (Over(p) ==> p == Rejected || (p == Ended && Ran(Start(l, tasks), schedule, t)))
  {
    if schedule != [] {
      UncancelledRuns(l, tasks, schedule[..|schedule| - 1], t);
    }
  }

  /** How many turns a phase is from the end of its request, at most. */
  function TurnsLeft(p: Phase): nat {
    match p
    case Arriving => 9
    case Queued => 8
    case Settling(_, k) => if !k.entered then 7 else if !k.finished then 6 else 5
    case Running => 4
    case Leaving(k) => if !k.entered then 3 else if !k.finished then 2 else 1
    case _ => 0
  }

  /** Every turn brings a request nearer to its end, unless it is over or waits while all slots are held. */
  lemma {:induction false} TurnsAdvance(l: Limits, tasks: nat, schedule: seq<Event>, t: nat)
    requires t < tasks
    ensures var w := Execute(Start(l, tasks), schedule);
            var p, next := w.tasks[t], Apply(w, Step(t)).tasks[t];
      || TurnsLeft(next) < TurnsLeft(p)
      || (Over(p) && next == p)
      || (p == Queued && next == p && Count(w.tasks, HoldsPermit) == l.slots)
  {
    CountersMatchTasks(l, tasks, schedule);
  }
}
