/** `get_or_set` and `_refresh_in_background` of server/cache.py as interleaved tasks that are never cancelled. */
module SingleFlight {
  import opened Options
  import opened ResultCache

  /** The arguments of one call; `ttl` and `cap` are after the defaults were filled in. */
  datatype Call = Call(key: Key, ttl: real, cap: int, window: real)

  datatype Config = Config(maxBytes: int, maxItemBytes: int, sizeOf: Value -> nat, hasStore: bool)

  datatype Source = FromL1 | FromL2 | Computed | Joined(owner: nat)

  datatype Reply =
    | Answer(value: Value, source: Source, stale: bool, at: real)
    | Raised(owner: nat)
    | Nothing

  /** Where a task is suspended. */
  datatype Pc =
    | Begin
    | StaleFound(value: Value, at: real)
    | LookL2
    | Join
    | Waiting(owner: nat)
    | StartRefresh
    | Loading
    | Loaded(value: Value)
    | Unregister(outcome: Option<Value>)
    | Done(reply: Reply)

  datatype Task = Task(call: Call, background: bool, pc: Pc)

  datatype Future = Pending | Settled(outcome: Option<Value>)

  datatype Row = Row(value: Value, expiresAt: real)

  /** A loader's value entering the first level: `storedAt + ttl` is where its freshness ends. */
  datatype Cert = Cert(key: Key, value: Value, storedAt: real, ttl: real)

  /** `calls`, `produced` and `certs` only record history; no step reads them. */
  datatype Sys = Sys(now: real, tasks: seq<Task>, inflight: map<Key, nat>, futures: map<nat, Future>,
                     l1: seq<Slot>, l2: map<Key, Row>,
                     calls: set<Call>, produced: set<(Key, Value)>, certs: set<Cert>)

  /** `result`, `slow` and `l2Fails` are what the loader, the clock and the second level do in that step. */
  datatype Event =
    | Arrive(call: Call)
    | Run(task: nat, result: Option<Value>, slow: bool, l2Fails: bool)
    | Tick(elapsed: real)
    | ForgetRow(key: Key)
    | Reset

  // ---------------------------------------------------------------- steps

  /** What a step does to the inflight entry of its task's key. */
  datatype Claim = Keep | Take | Free

  /** The outcome of one step of one task: its next suspension point and everything shared that it writes. */
  datatype Effect = Effect(pc: Pc, claim: Claim, future: Option<Future>, spawn: bool, l1: seq<Slot>, l2: map<Key, Row>,
                           produced: set<(Key, Value)>, certs: set<Cert>)

  /** Go to `pc` and touch nothing shared. */
  function To(s: Sys, pc: Pc): Effect {
    Effect(pc, Keep, None, false, s.l1, s.l2, {}, {})
  }

  function RunBegin(s: Sys, c: Call): Effect {
    var next := match Looked(s.l1, c.key, s.now)
                case Fresh(v) => if v != Null then Done(Answer(v, FromL1, false, s.now)) else LookL2
                case Stale(v) => if v != Null then StaleFound(v, s.now) else LookL2
                case Miss => LookL2;
    To(s, next).(l1 := AfterLookup(s.l1, c.key, s.now))
  }

  /** Serve the stale value; a refresh is scheduled unless the key is already being loaded. */
  function RunStaleFound(s: Sys, c: Call, value: Value, at: real): Effect {
    To(s, Done(Answer(value, FromL1, true, at))).(spawn := c.key !in s.inflight)
  }

  /** A row that is found moves to the first level with its remaining lifetime only. */
  function RunLookL2(cfg: Config, s: Sys, c: Call): Effect {
    if !cfg.hasStore || c.key !in s.l2 then To(s, Join)
    else
      var row := s.l2[c.key];
      if row.expiresAt <= s.now then To(s, Join).(l2 := s.l2 - {c.key})
      else if row.value == Null then To(s, Join)
      else
        var remaining := row.expiresAt - s.now;
        var expiresAt := s.now + remaining;
        var e := Slot(c.key, row.value, cfg.sizeOf(row.value), expiresAt, expiresAt + c.window);
        To(s, Done(Answer(row.value, FromL2, false, s.now)))
          .(l1 := Stored(s.l1, e, cfg.maxItemBytes, cfg.maxBytes))
  }

  /** Become the owner of the key: the future is registered before the loader runs. */
  function Register(s: Sys): Effect {
    To(s, Loading).(claim := Take, future := Some(Pending))
  }

  function RunJoin(s: Sys, c: Call): Effect {
    if c.key in s.inflight then To(s, Waiting(s.inflight[c.key])) else Register(s)
  }

  function RunStartRefresh(s: Sys, c: Call): Effect {
    if c.key in s.inflight then To(s, Done(Nothing)) else Register(s)
  }

  function RunWaiting(s: Sys, o: nat): Effect {
    if o !in s.futures || s.futures[o] == Pending then To(s, Waiting(o))
    else match s.futures[o].outcome
      case Some(v) => To(s, Done(Answer(v, Joined(o), false, s.now)))
      case None => To(s, Done(Raised(o)))
  }

  function Settle(s: Sys, outcome: Option<Value>): Effect {
    To(s, Unregister(outcome)).(future := Some(Settled(outcome)))
  }

  function RunLoading(s: Sys, c: Call, result: Option<Value>): Effect {
    match result
    case Some(v) => To(s, Loaded(v)).(produced := {(c.key, v)})
    case None => Settle(s, None)
  }

  predicate Admits(cfg: Config, task: Task, v: Value, slow: bool) {
    && (slow || task.background)
    && task.call.ttl > 0.0
    && Admissible(cfg.sizeOf(v), task.call.cap, cfg.maxBytes)
  }

  function NewSlot(cfg: Config, s: Sys, c: Call, v: Value): Slot {
    Slot(c.key, v, cfg.sizeOf(v), s.now + c.ttl, s.now + c.ttl + c.window)
  }

  /** Store the value in both levels and settle the future; a failing second level settles it with an error. */
  function RunLoaded(cfg: Config, s: Sys, task: Task, v: Value, slow: bool, l2Fails: bool): Effect {
    var c := task.call;
    if Admits(cfg, task, v, slow) then
      var outcome := if cfg.hasStore && l2Fails then None else Some(v);
      Effect(Unregister(outcome), Keep, Some(Settled(outcome)), false,
             Stored(s.l1, NewSlot(cfg, s, c, v), c.cap, cfg.maxBytes),
             if cfg.hasStore && !l2Fails then s.l2[c.key := Row(v, s.now + c.ttl)] else s.l2,
             {}, {Cert(c.key, v, s.now, c.ttl)})
    else Settle(s, Some(v))
  }

  function RunUnregister(s: Sys, t: nat, background: bool, outcome: Option<Value>): Effect {
    var reply := if background then Nothing
                 else match outcome
                   case Some(v) => Answer(v, Computed, false, s.now)
                   case None => Raised(t);
    To(s, Done(reply)).(claim := Free)
  }

  function EffectOf(cfg: Config, s: Sys, e: Event): Effect
    requires e.Run? && e.task < |s.tasks|
  {
    var task := s.tasks[e.task];
    match task.pc
    case Begin => RunBegin(s, task.call)
    case StaleFound(v, at) => RunStaleFound(s, task.call, v, at)
    case LookL2 => RunLookL2(cfg, s, task.call)
    case Join => RunJoin(s, task.call)
    case Waiting(o) => RunWaiting(s, o)
    case StartRefresh => RunStartRefresh(s, task.call)
    case Loading => RunLoading(s, task.call, e.result)
    case Loaded(v) => RunLoaded(cfg, s, task, v, e.slow, e.l2Fails)
    case Unregister(outcome) => RunUnregister(s, e.task, task.background, outcome)
    case Done(reply) => To(s, Done(reply))
  }

  function Commit(s: Sys, t: nat, f: Effect): Sys
    requires t < |s.tasks|
  {
    var k := s.tasks[t].call.key;
    s.(tasks := s.tasks[t := s.tasks[t].(pc := f.pc)]
                + (if f.spawn then [Task(s.tasks[t].call, true, StartRefresh)] else []),
       inflight := match f.claim case Keep => s.inflight case Take => s.inflight[k := t] case Free => s.inflight - {k},
       futures := if f.future.Some? then s.futures[t := f.future.value] else s.futures,
       l1 := f.l1, l2 := f.l2, produced := s.produced + f.produced, certs := s.certs + f.certs)
  }

  function Apply(cfg: Config, s: Sys, e: Event): Sys {
    match e
    case Arrive(c) => s.(tasks := s.tasks + [Task(c, false, Begin)], calls := s.calls + {c})
    case Run(t, _, _, _) => if t < |s.tasks| then Commit(s, t, EffectOf(cfg, s, e)) else s
    case Tick(d) => if d > 0.0 then s.(now := s.now + d) else s
    case ForgetRow(k) => s.(l2 := s.l2 - {k})
    case Reset => s.(l1 := [], l2 := map[])
  }

  function Start(now: real): Sys {
    Sys(now, [], map[], map[], [], map[], {}, {}, {})
  }

  /** The state after a schedule. */
  function Execute(cfg: Config, now: real, schedule: seq<Event>): Sys {
    if schedule == [] then Start(now)
    else Apply(cfg, Execute(cfg, now, schedule[..|schedule| - 1]), schedule[|schedule| - 1])
  }

  // ---------------------------------------------------------------- single flight

  predicate Working(pc: Pc) { pc.Loading? || pc.Loaded? }

  predicate Owning(pc: Pc) { Working(pc) || pc.Unregister? }

  predicate Owns(s: Sys, t: nat) { t < |s.tasks| && Owning(s.tasks[t].pc) }

  /** The inflight map lists exactly the tasks between registration and their final pop. */
  ghost predicate InflightExact(s: Sys) {
    && (forall k :: k in s.inflight ==> Owns(s, s.inflight[k]) && s.tasks[s.inflight[k]].call.key == k)
    && (forall t: nat :: Owns(s, t) ==>
          (s.tasks[t].call.key in s.inflight && s.inflight[s.tasks[t].call.key] == t))
  }

  /** The inflight entry is taken and freed exactly as the task enters and leaves ownership. */
  predicate ClaimFits(s: Sys, t: nat, f: Effect)
    requires t < |s.tasks|
  {
    match f.claim
    case Keep => Owning(f.pc) == Owning(s.tasks[t].pc)
    case Take => !Owning(s.tasks[t].pc) && Owning(f.pc) && s.tasks[t].call.key !in s.inflight
    case Free => Owning(s.tasks[t].pc) && !Owning(f.pc)
  }

  lemma {:induction false} EffectClaims(cfg: Config, s: Sys, e: Event)
    requires e.Run? && e.task < |s.tasks|
    ensures ClaimFits(s, e.task, EffectOf(cfg, s, e))
  {
  }

  lemma {:induction false} CommitInflight(s: Sys, t: nat, f: Effect)
    requires InflightExact(s) && t < |s.tasks| && ClaimFits(s, t, f)
    ensures InflightExact(Commit(s, t, f))
  {
    var s' := Commit(s, t, f);
    assert forall u: nat :: u != t ==> Owns(s', u) == Owns(s, u);
  }

  lemma {:induction false} InflightStep(cfg: Config, s: Sys, e: Event)
    requires InflightExact(s)
    ensures InflightExact(Apply(cfg, s, e))
  {
    if e.Run? && e.task < |s.tasks| {
      EffectClaims(cfg, s, e);
      CommitInflight(s, e.task, EffectOf(cfg, s, e));
    } else {
      assert forall t: nat :: Owns(Apply(cfg, s, e), t) == Owns(s, t);
    }
  }

  /** In every interleaving a key is registered exactly while its one owner works on it. */
  lemma {:induction false} InflightAlwaysExact(cfg: Config, now: real, schedule: seq<Event>)
    ensures InflightExact(Execute(cfg, now, schedule))
  {
    if schedule != [] {
      InflightAlwaysExact(cfg, now, schedule[..|schedule| - 1]);
      InflightStep(cfg, Execute(cfg, now, schedule[..|schedule| - 1]), schedule[|schedule| - 1]);
    }
  }

  /** So no two loaders for one key ever run together, counting background refreshes. */
  lemma {:induction false} OneLoaderPerKey(cfg: Config, now: real, schedule: seq<Event>, t: nat, u: nat)
    ensures var s := Execute(cfg, now, schedule);
      Owns(s, t) && Owns(s, u) && s.tasks[t].call.key == s.tasks[u].call.key ==> t == u
  {
    InflightAlwaysExact(cfg, now, schedule);
  }

  // ---------------------------------------------------------------- waiters get what the owner got

  predicate SameKey(tasks: seq<Task>, t: nat, u: nat) {
    t < |tasks| && u < |tasks| && tasks[u].call.key == tasks[t].call.key
  }

  predicate HasOutcome(futures: map<nat, Future>, u: nat, outcome: Option<Value>) {
    u in futures && futures[u] == Settled(outcome)
  }

  /** What the position `pc` of task `t` says about the futures. */
  predicate PcFits(tasks: seq<Task>, futures: map<nat, Future>, t: nat, pc: Pc) {
    match pc
    case Begin => t !in futures
    case StaleFound(_, _) => t !in futures
    case LookL2 => t !in futures
    case Join => t !in futures
    case StartRefresh => t !in futures && t < |tasks| && tasks[t].background
    case Waiting(u) => t !in futures && u in futures && SameKey(tasks, t, u)
    case Loading => t in futures && futures[t] == Pending
    case Loaded(_) => t in futures && futures[t] == Pending
    case Unregister(outcome) => HasOutcome(futures, t, outcome)
    case Done(Answer(v, Computed, _, _)) => HasOutcome(futures, t, Some(v))
    case Done(Answer(v, Joined(u), _, _)) =>
      t !in futures && HasOutcome(futures, u, Some(v)) && SameKey(tasks, t, u)
    case Done(Answer(_, _, _, _)) => t !in futures
    case Done(Raised(u)) => (u == t || t !in futures) && HasOutcome(futures, u, None) && SameKey(tasks, t, u)
    case Done(Nothing) => t < |tasks| && tasks[t].background
  }

  ghost predicate FuturesExact(s: Sys) {
    && (forall t: nat :: t < |s.tasks| ==> PcFits(s.tasks, s.futures, t, s.tasks[t].pc))
    && (forall u :: u in s.futures ==> u < |s.tasks| && (s.futures[u] == Pending <==> Working(s.tasks[u].pc)))
  }

  function NextFutures(s: Sys, t: nat, f: Effect): map<nat, Future> {
    if f.future.Some? then s.futures[t := f.future.value] else s.futures
  }

  /** A future is created by a task that had none, settled once, and then kept. */
  ghost predicate FutureFits(s: Sys, t: nat, f: Effect)
    requires t < |s.tasks|
  {
    var after := NextFutures(s, t, f);
    && (f.future.Some? && t in s.futures ==> s.futures[t] == Pending)
    && (t in after ==> (after[t] == Pending <==> Working(f.pc)))
    && PcFits(s.tasks, after, t, f.pc)
  }

  lemma {:induction false} EarlyFutures(cfg: Config, s: Sys, e: Event)
    requires FuturesExact(s) && e.Run? && e.task < |s.tasks|
    requires s.tasks[e.task].pc.Begin? || s.tasks[e.task].pc.StaleFound? || s.tasks[e.task].pc.LookL2?
    ensures FutureFits(s, e.task, EffectOf(cfg, s, e))
  {
    assert PcFits(s.tasks, s.futures, e.task, s.tasks[e.task].pc);
  }

  lemma {:induction false} JoinFutures(cfg: Config, s: Sys, e: Event)
    requires FuturesExact(s) && InflightExact(s) && e.Run? && e.task < |s.tasks|
    requires s.tasks[e.task].pc.Join? || s.tasks[e.task].pc.StartRefresh?
    ensures FutureFits(s, e.task, EffectOf(cfg, s, e))
  {
    var k := s.tasks[e.task].call.key;
    assert PcFits(s.tasks, s.futures, e.task, s.tasks[e.task].pc);
    if k in s.inflight {
      assert Owns(s, s.inflight[k]) && PcFits(s.tasks, s.futures, s.inflight[k], s.tasks[s.inflight[k]].pc);
    }
  }

  lemma {:induction false} OwnerFutures(cfg: Config, s: Sys, e: Event)
    requires FuturesExact(s) && e.Run? && e.task < |s.tasks| && Owning(s.tasks[e.task].pc)
    ensures FutureFits(s, e.task, EffectOf(cfg, s, e))
  {
    assert PcFits(s.tasks, s.futures, e.task, s.tasks[e.task].pc);
  }

  lemma {:induction false} EffectFutures(cfg: Config, s: Sys, e: Event)
    requires FuturesExact(s) && InflightExact(s) && e.Run? && e.task < |s.tasks|
    ensures FutureFits(s, e.task, EffectOf(cfg, s, e))
  {
    var pc := s.tasks[e.task].pc;
    if pc.Begin? || pc.StaleFound? || pc.LookL2? {
      EarlyFutures(cfg, s, e);
    } else if pc.Join? || pc.StartRefresh? {
      JoinFutures(cfg, s, e);
    } else if Owning(pc) {
      OwnerFutures(cfg, s, e);
    } else {
      assert PcFits(s.tasks, s.futures, e.task, pc);
    }
  }

  lemma {:induction false} CommitFutures(s: Sys, t: nat, f: Effect)
    requires FuturesExact(s) && t < |s.tasks| && FutureFits(s, t, f)
    ensures FuturesExact(Commit(s, t, f))
  {
    var s' := Commit(s, t, f);
    forall u: nat | u < |s'.tasks|
      ensures PcFits(s'.tasks, s'.futures, u, s'.tasks[u].pc)
    {
      if u < |s.tasks| && u != t {
        assert PcFits(s.tasks, s.futures, u, s.tasks[u].pc);
      }
    }
  }

  lemma {:induction false} FuturesStep(cfg: Config, s: Sys, e: Event)
    requires FuturesExact(s) && InflightExact(s)
    ensures FuturesExact(Apply(cfg, s, e))
  {
    if e.Run? && e.task < |s.tasks| {
      EffectFutures(cfg, s, e);
      CommitFutures(s, e.task, EffectOf(cfg, s, e));
    } else {
      var s' := Apply(cfg, s, e);
      forall u: nat | u < |s.tasks|
        ensures PcFits(s'.tasks, s'.futures, u, s'.tasks[u].pc)
      {
        assert PcFits(s.tasks, s.futures, u, s.tasks[u].pc);
      }
    }
  }

  lemma {:induction false} FuturesAlwaysExact(cfg: Config, now: real, schedule: seq<Event>)
    ensures FuturesExact(Execute(cfg, now, schedule))
  {
    if schedule != [] {
      FuturesAlwaysExact(cfg, now, schedule[..|schedule| - 1]);
      InflightAlwaysExact(cfg, now, schedule[..|schedule| - 1]);
      FuturesStep(cfg, Execute(cfg, now, schedule[..|schedule| - 1]), schedule[|schedule| - 1]);
    }
  }

  /** Whoever waited for a request ends as that request ends, under the same key: with its value or its
    * exception. */
  lemma {:induction false} WaitersGetTheOwnersOutcome(cfg: Config, now: real, schedule: seq<Event>, t: nat, u: nat)
    requires var tasks := Execute(cfg, now, schedule).tasks;
      && t < |tasks| && u < |tasks| && tasks[t].pc.Done? && tasks[u].pc.Done? && !tasks[u].background
    ensures var tasks := Execute(cfg, now, schedule).tasks;
            var mine, owners := tasks[t].pc.reply, tasks[u].pc.reply;
      && (mine.Answer? && mine.source == Joined(u) ==>
            tasks[t].call.key == tasks[u].call.key
            && owners.Answer? && owners.source == Computed && owners.value == mine.value)
      && (mine == Raised(u) ==> tasks[t].call.key == tasks[u].call.key && owners == Raised(u))
  {
    FuturesAlwaysExact(cfg, now, schedule);
    var s := Execute(cfg, now, schedule);
    assert PcFits(s.tasks, s.futures, t, s.tasks[t].pc);
    assert PcFits(s.tasks, s.futures, u, s.tasks[u].pc);
  }

  /** No waiter is stranded: its future is settled, or an owner is still between registration and settling. */
  lemma {:induction false} WaitersAreServed(cfg: Config, now: real, schedule: seq<Event>, t: nat)
    requires t < |Execute(cfg, now, schedule).tasks| && Execute(cfg, now, schedule).tasks[t].pc.Waiting?
    ensures var s := Execute(cfg, now, schedule);
            var u := s.tasks[t].pc.owner;
      && u in s.futures && u < |s.tasks|
      && (s.futures[u] == Pending ==> Working(s.tasks[u].pc) && Owns(s, u))
      && (s.futures[u] != Pending ==>
            forall e: Event :: e.Run? && e.task == t ==> EffectOf(cfg, s, e).pc.Done?)
  {
    FuturesAlwaysExact(cfg, now, schedule);
    InflightAlwaysExact(cfg, now, schedule);
    var s := Execute(cfg, now, schedule);
    assert PcFits(s.tasks, s.futures, t, s.tasks[t].pc);
    assert Owns(s, s.tasks[t].pc.owner) == Owning(s.tasks[s.tasks[t].pc.owner].pc);
  }

  // ---------------------------------------------------------------- where values come from

  /** Some loader run's value of `k` entered the cache with freshness ending at `expiresAt`. */
  ghost predicate Vouched(s: Sys, k: Key, v: Value, expiresAt: real) {
    exists c :: c in s.certs && c.key == k && c.value == v && c.storedAt + c.ttl == expiresAt
  }

  /** At that moment the value was within the time to live of a store of it. */
  ghost predicate FreshAt(s: Sys, k: Key, v: Value, at: real) {
    exists c :: c in s.certs && c.key == k && c.value == v && c.storedAt <= at < c.storedAt + c.ttl
  }

  /** At that moment the value was past its time to live, by less than the window some call gave. */
  ghost predicate StaleAt(s: Sys, k: Key, v: Value, at: real) {
    exists c, call :: c in s.certs && c.key == k && c.value == v && call in s.calls && call.key == k
      && c.storedAt + c.ttl <= at < c.storedAt + c.ttl + call.window
  }

  ghost predicate SlotSound(s: Sys, e: Slot) {
    && Vouched(s, e.key, e.value, e.expiresAt)
    && exists call :: call in s.calls && call.key == e.key && e.staleUntil == e.expiresAt + call.window
  }

  ghost predicate AnswerSound(s: Sys, k: Key, v: Value, source: Source, stale: bool, at: real) {
    && at <= s.now && (k, v) in s.produced
    && (stale ==> StaleAt(s, k, v, at))
    && (!stale && (source.FromL1? || source.FromL2?) ==> FreshAt(s, k, v, at))
  }

  ghost predicate PcSound(s: Sys, k: Key, pc: Pc) {
    match pc
    case StaleFound(v, at) => AnswerSound(s, k, v, FromL1, true, at)
    case Loaded(v) => (k, v) in s.produced
    case Unregister(Some(v)) => (k, v) in s.produced
    case Done(Answer(v, source, stale, at)) => AnswerSound(s, k, v, source, stale, at)
    case _ => true
  }

  ghost predicate CertsSound(s: Sys) {
    forall c :: c in s.certs ==> c.ttl > 0.0 && c.storedAt <= s.now && (c.key, c.value) in s.produced
  }

  ghost predicate L1Sound(cfg: Config, s: Sys, l1: seq<Slot>) {
    && (forall e :: e in l1 ==> SlotSound(s, e))
    && UniqueKeys(l1) && (cfg.maxBytes > 0 ==> Bytes(l1) <= cfg.maxBytes)
  }

  ghost predicate L2Sound(s: Sys, l2: map<Key, Row>) {
    forall k :: k in l2 ==> Vouched(s, k, l2[k].value, l2[k].expiresAt)
  }

  ghost predicate TasksSound(s: Sys) {
    && (forall t :: 0 <= t < |s.tasks| ==>
          s.tasks[t].call in s.calls && PcSound(s, s.tasks[t].call.key, s.tasks[t].pc))
    && (forall u, v :: u in s.futures && s.futures[u] == Settled(Some(v)) ==>
          u < |s.tasks| && (s.tasks[u].call.key, v) in s.produced)
  }

  ghost predicate Sound(cfg: Config, s: Sys) {
    CertsSound(s) && L1Sound(cfg, s, s.l1) && L2Sound(s, s.l2) && TasksSound(s)
  }

  /** History only grows, so what it vouches for stays vouched for. */
  ghost predicate Grows(s: Sys, s': Sys) {
    s.now <= s'.now && s.calls <= s'.calls && s.produced <= s'.produced && s.certs <= s'.certs
  }

  lemma {:induction false} LevelsStaySound(cfg: Config, s: Sys, s': Sys, l1: seq<Slot>, l2: map<Key, Row>)
    requires Grows(s, s') && L1Sound(cfg, s, l1) && L2Sound(s, l2)
    ensures L1Sound(cfg, s', l1) && L2Sound(s', l2)
  {
    forall e | e in l1 ensures SlotSound(s', e) { assert SlotSound(s, e); }
  }

  lemma {:induction false} PcStaysSound(s: Sys, s': Sys, k: Key, pc: Pc)
    requires Grows(s, s') && PcSound(s, k, pc)
    ensures PcSound(s', k, pc)
  {
  }

  lemma {:induction false} StoreStaysSound(cfg: Config, s: Sys, l1: seq<Slot>, e: Slot, cap: int)
    requires L1Sound(cfg, s, l1) && SlotSound(s, e)
    ensures L1Sound(cfg, s, Stored(l1, e, cap, cfg.maxBytes))
  {
    StoredFacts(l1, e, cap, cfg.maxBytes);
  }

  /** The state with an effect's history already written. */
  function Recorded(s: Sys, f: Effect): Sys {
    s.(produced := s.produced + f.produced, certs := s.certs + f.certs)
  }

  lemma {:induction false} LookupSound(cfg: Config, s: Sys, k: Key)
    requires CertsSound(s) && L1Sound(cfg, s, s.l1)
    ensures L1Sound(cfg, s, AfterLookup(s.l1, k, s.now))
    ensures match Looked(s.l1, k, s.now)
            case Miss => true
            case Fresh(v) => AnswerSound(s, k, v, FromL1, false, s.now)
            case Stale(v) => AnswerSound(s, k, v, FromL1, true, s.now)
  {
    LookupFacts(s.l1, k, s.now);
    if Find(s.l1, k).Some? {
      assert SlotSound(s, Find(s.l1, k).value);
    }
  }

  /** Promotion keeps the row's own end of freshness. */
  lemma {:induction false} PromoteSound(cfg: Config, s: Sys, c: Call)
    requires CertsSound(s) && L1Sound(cfg, s, s.l1) && L2Sound(s, s.l2) && c in s.calls
    ensures var f := RunLookL2(cfg, s, c);
            L1Sound(cfg, s, f.l1) && L2Sound(s, f.l2) && PcSound(s, c.key, f.pc)
  {
    if c.key in s.l2 && s.l2[c.key].expiresAt > s.now {
      var row := s.l2[c.key];
      var e := Slot(c.key, row.value, cfg.sizeOf(row.value), s.now + (row.expiresAt - s.now), row.expiresAt + c.window);
      assert e.expiresAt == row.expiresAt && SlotSound(s, e);
      StoreStaysSound(cfg, s, s.l1, e, cfg.maxItemBytes);
    }
  }

  lemma {:induction false} LoadedLevels(cfg: Config, s: Sys, task: Task, v: Value, slow: bool, l2Fails: bool)
    requires L1Sound(cfg, s, s.l1) && L2Sound(s, s.l2) && task.call in s.calls
    ensures var f := RunLoaded(cfg, s, task, v, slow, l2Fails);
            L1Sound(cfg, Recorded(s, f), f.l1) && L2Sound(Recorded(s, f), f.l2)
  {
    var c, f := task.call, RunLoaded(cfg, s, task, v, slow, l2Fails);
    var after := Recorded(s, f);
    LevelsStaySound(cfg, s, after, s.l1, s.l2);
    if Admits(cfg, task, v, slow) {
      assert Cert(c.key, v, s.now, c.ttl) in after.certs;
      assert Vouched(after, c.key, v, s.now + c.ttl);
      assert SlotSound(after, NewSlot(cfg, s, c, v));
      StoreStaysSound(cfg, after, s.l1, NewSlot(cfg, s, c, v), c.cap);
    }
  }

  lemma {:induction false} EffectLevels(cfg: Config, s: Sys, e: Event)
    requires Sound(cfg, s) && e.Run? && e.task < |s.tasks|
    ensures var f := EffectOf(cfg, s, e);
            L1Sound(cfg, Recorded(s, f), f.l1) && L2Sound(Recorded(s, f), f.l2)
  {
    var task := s.tasks[e.task];
    match task.pc
    case Loaded(v) => LoadedLevels(cfg, s, task, v, e.slow, e.l2Fails);
    case Begin =>
      LookupSound(cfg, s, task.call.key);
      LevelsStaySound(cfg, s, Recorded(s, EffectOf(cfg, s, e)), EffectOf(cfg, s, e).l1, s.l2);
    case LookL2 =>
      PromoteSound(cfg, s, task.call);
      LevelsStaySound(cfg, s, Recorded(s, EffectOf(cfg, s, e)), EffectOf(cfg, s, e).l1, EffectOf(cfg, s, e).l2);
    case _ =>
      LevelsStaySound(cfg, s, Recorded(s, EffectOf(cfg, s, e)), s.l1, s.l2);
  }

  lemma {:induction false} EffectCerts(cfg: Config, s: Sys, e: Event)
    requires Sound(cfg, s) && e.Run? && e.task < |s.tasks|
    ensures CertsSound(Recorded(s, EffectOf(cfg, s, e)))
  {
    assert PcSound(s, s.tasks[e.task].call.key, s.tasks[e.task].pc);
  }

  /** The next position tells the truth, given the history that the effect records. */
  ghost predicate OutcomeSound(s: Sys, k: Key, f: Effect) {
    && PcSound(Recorded(s, f), k, f.pc)
    && (forall v :: f.future == Some(Settled(Some(v))) ==> (k, v) in Recorded(s, f).produced)
  }

  lemma {:induction false} LookupOutcome(cfg: Config, s: Sys, e: Event)
    requires Sound(cfg, s) && e.Run? && e.task < |s.tasks|
    requires s.tasks[e.task].pc.Begin? || s.tasks[e.task].pc.LookL2?
    ensures OutcomeSound(s, s.tasks[e.task].call.key, EffectOf(cfg, s, e))
  {
    var c, f := s.tasks[e.task].call, EffectOf(cfg, s, e);
    LookupSound(cfg, s, c.key);
    PromoteSound(cfg, s, c);
    PcStaysSound(s, Recorded(s, f), c.key, f.pc);
  }

  lemma {:induction false} WaitingOutcome(s: Sys, t: nat)
    requires TasksSound(s) && t < |s.tasks| && s.tasks[t].pc.Waiting?
    requires PcFits(s.tasks, s.futures, t, s.tasks[t].pc)
    ensures OutcomeSound(s, s.tasks[t].call.key, RunWaiting(s, s.tasks[t].pc.owner))
  {
  }

  lemma {:induction false} EffectOutcome(cfg: Config, s: Sys, e: Event)
    requires Sound(cfg, s) && FuturesExact(s) && e.Run? && e.task < |s.tasks|
    ensures OutcomeSound(s, s.tasks[e.task].call.key, EffectOf(cfg, s, e))
  {
    var task := s.tasks[e.task];
    if task.pc.Begin? || task.pc.LookL2? {
      LookupOutcome(cfg, s, e);
    } else if task.pc.Waiting? {
      WaitingOutcome(s, e.task);
    } else {
      PcStaysSound(s, Recorded(s, EffectOf(cfg, s, e)), task.call.key, task.pc);
    }
  }

  lemma {:induction false} CommitSound(cfg: Config, s: Sys, t: nat, f: Effect)
    requires Sound(cfg, s) && t < |s.tasks|
    requires CertsSound(Recorded(s, f)) && OutcomeSound(s, s.tasks[t].call.key, f)
    requires L1Sound(cfg, Recorded(s, f), f.l1) && L2Sound(Recorded(s, f), f.l2)
    ensures Sound(cfg, Commit(s, t, f))
  {
    var s' := Commit(s, t, f);
    LevelsStaySound(cfg, Recorded(s, f), s', f.l1, f.l2);
    forall u | 0 <= u < |s'.tasks|
      ensures s'.tasks[u].call in s'.calls && PcSound(s', s'.tasks[u].call.key, s'.tasks[u].pc)
    {
      if u == t {
        PcStaysSound(Recorded(s, f), s', s.tasks[t].call.key, f.pc);
      } else if u < |s.tasks| {
        PcStaysSound(s, s', s.tasks[u].call.key, s.tasks[u].pc);
      }
    }
  }

  lemma {:induction false} SoundStep(cfg: Config, s: Sys, e: Event)
    requires Sound(cfg, s) && FuturesExact(s)
    ensures Sound(cfg, Apply(cfg, s, e))
  {
    if e.Run? && e.task < |s.tasks| {
      EffectLevels(cfg, s, e);
      EffectCerts(cfg, s, e);
      EffectOutcome(cfg, s, e);
      CommitSound(cfg, s, e.task, EffectOf(cfg, s, e));
    } else {
      var s' := Apply(cfg, s, e);
      LevelsStaySound(cfg, s, s', s.l1, s.l2);
      forall u | 0 <= u < |s.tasks|
        ensures PcSound(s', s.tasks[u].call.key, s.tasks[u].pc)
      {
        PcStaysSound(s, s', s.tasks[u].call.key, s.tasks[u].pc);
      }
    }
  }

  lemma {:induction false} AlwaysSound(cfg: Config, now: real, schedule: seq<Event>)
    ensures Sound(cfg, Execute(cfg, now, schedule))
  {
    if schedule != [] {
      AlwaysSound(cfg, now, schedule[..|schedule| - 1]);
      FuturesAlwaysExact(cfg, now, schedule[..|schedule| - 1]);
      SoundStep(cfg, Execute(cfg, now, schedule[..|schedule| - 1]), schedule[|schedule| - 1]);
    }
  }

  /** In every interleaving a returned value was produced by a loader run under the same key; an answer from
    * either level that is not marked stale was within its time to live when it was looked up, and one marked
    * stale was past it by less than a stale window given for that key. */
  lemma {:induction false} AnswersAreGenuine(cfg: Config, now: real, schedule: seq<Event>, t: nat)
    requires t < |Execute(cfg, now, schedule).tasks|
    requires var pc := Execute(cfg, now, schedule).tasks[t].pc; pc.Done? && pc.reply.Answer?
    ensures var s := Execute(cfg, now, schedule);
            var k, r := s.tasks[t].call.key, s.tasks[t].pc.reply;
      && (k, r.value) in s.produced
      && (r.stale ==> StaleAt(s, k, r.value, r.at))
      && (!r.stale && (r.source.FromL1? || r.source.FromL2?) ==> FreshAt(s, k, r.value, r.at))
  {
    AlwaysSound(cfg, now, schedule);
    var s := Execute(cfg, now, schedule);
    assert PcSound(s, s.tasks[t].call.key, s.tasks[t].pc);
  }

  /** In every interleaving no level prolongs a value: where its freshness ends is always the time some store
    * of it happened plus that store's time to live, also after promotion from the second level. */
  lemma {:induction false} PromotionNeverExtends(cfg: Config, now: real, schedule: seq<Event>)
    ensures var s := Execute(cfg, now, schedule);
      && (forall e :: e in s.l1 ==> Vouched(s, e.key, e.value, e.expiresAt))
      && (forall k :: k in s.l2 ==> Vouched(s, k, s.l2[k].value, s.l2[k].expiresAt))
      && (cfg.maxBytes > 0 ==> Bytes(s.l1) <= cfg.maxBytes)
  {
    AlwaysSound(cfg, now, schedule);
    var s := Execute(cfg, now, schedule);
    forall e | e in s.l1 ensures Vouched(s, e.key, e.value, e.expiresAt) { assert SlotSound(s, e); }
  }
}
