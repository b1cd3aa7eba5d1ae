/** How the requests of server/cache.py end, told by what happens in the schedule: what each loader did, whether the
  * second level failed, and what was in the cache when it was looked up.
  */
module FlightOutcomes {
  import opened Options
  import opened Recency
  import opened ResultCache
  import opened SingleFlight

  /** A slow or background load with a time to live that neither cap refuses. */
  predicate ToBeStored(cfg: Config, task: Task, v: Value, slow: bool) {
    && (slow || task.background)
    && task.call.ttl > 0.0
    && (task.call.cap <= 0 || cfg.sizeOf(v) <= task.call.cap)
    && (cfg.maxBytes <= 0 || cfg.sizeOf(v) <= cfg.maxBytes)
  }

  /** It is the turn of task `t` in the state `s`. */
  predicate TurnOf(s: Sys, e: Event, t: nat) { e.Run? && e.task == t && t < |s.tasks| }

  /** In this event the load of task `t` is over and its value is to be stored. */
  predicate StoresNow(cfg: Config, s: Sys, e: Event, t: nat) {
    TurnOf(s, e, t) && s.tasks[t].pc.Loaded? && ToBeStored(cfg, s.tasks[t], s.tasks[t].pc.value, e.slow)
  }

  /** What the loader of task `t` came to in this schedule, if it has ended: a value, or `None` if it raised. */
  function LoaderResult(cfg: Config, now: real, schedule: seq<Event>, t: nat): Option<Option<Value>> {
    if schedule == [] then None
    else
      var before, e := schedule[..|schedule| - 1], schedule[|schedule| - 1];
      var s := Execute(cfg, now, before);
      if TurnOf(s, e, t) && s.tasks[t].pc == Loading then Some(e.result) else LoaderResult(cfg, now, before, t)
  }

  /** The second level failed while task `t` stored a value. */
  predicate StoreFailed(cfg: Config, now: real, schedule: seq<Event>, t: nat) {
    schedule != [] &&
    var before, e := schedule[..|schedule| - 1], schedule[|schedule| - 1];
    || (StoresNow(cfg, Execute(cfg, now, before), e, t) && cfg.hasStore && e.l2Fails)
    || StoreFailed(cfg, now, before, t)
  }

  function CertOf(s: Sys, task: Task): Cert
    requires task.pc.Loaded?
  {
    Cert(task.call.key, task.pc.value, s.now, task.call.ttl)
  }

  /** The record of what task `t` stored in this schedule, if anything. */
  function StoredValue(cfg: Config, now: real, schedule: seq<Event>, t: nat): Option<Cert> {
    if schedule == [] then None
    else
      var before, e := schedule[..|schedule| - 1], schedule[|schedule| - 1];
      var s := Execute(cfg, now, before);
      if StoresNow(cfg, s, e, t) then Some(CertOf(s, s.tasks[t])) else StoredValue(cfg, now, before, t)
  }

  // ---------------------------------------------------------------- the ends of all requests

  /** With `result` from its loader a task comes to `outcome`. */
  predicate ComesTo(result: Option<Option<Value>>, failed: bool, outcome: Option<Value>) {
    result.Some? && outcome == (if failed then None else result.value) && (failed ==> result.value.Some?)
  }

  /** The position of task `t` agrees with what its loader and the second level did. */
  predicate Agrees(t: nat, task: Task, result: Option<Option<Value>>, failed: bool) {
    match task.pc
    case Loaded(v) => result == Some(Some(v)) && !failed
    case Unregister(outcome) => ComesTo(result, failed, outcome)
    case Done(Answer(v, source, stale, _)) =>
      && !task.background
      && (source == Computed ==> !stale && ComesTo(result, failed, Some(v)))
      && (source != Computed ==> result == None && !failed && (stale ==> source == FromL1))
    case Done(Raised(u)) =>
      && !task.background
      && (u == t ==> ComesTo(result, failed, None))
      && (u != t ==> result == None && !failed)
    case Done(Nothing) => task.background
    case StartRefresh => task.background && result == None && !failed
    case Loading => result == None && !failed
    case _ => !task.background && result == None && !failed
  }

  predicate TaskAgrees(s: Sys, t: nat, result: Option<Option<Value>>, failed: bool) {
    && (if t < |s.tasks| then Agrees(t, s.tasks[t], result, failed) else result == None && !failed)
    && (t in s.futures && s.futures[t] != Pending ==> ComesTo(result, failed, s.futures[t].outcome))
  }

  ghost predicate AllAgree(cfg: Config, now: real, schedule: seq<Event>) {
    forall t: nat :: TaskAgrees(Execute(cfg, now, schedule), t,
                                LoaderResult(cfg, now, schedule, t), StoreFailed(cfg, now, schedule, t))
  }

  function ResultAfter(s: Sys, e: Event, t: nat, result: Option<Option<Value>>): Option<Option<Value>> {
    if TurnOf(s, e, t) && s.tasks[t].pc == Loading then Some(e.result) else result
  }

  predicate FailedAfter(cfg: Config, s: Sys, e: Event, t: nat, failed: bool) {
    (StoresNow(cfg, s, e, t) && cfg.hasStore && e.l2Fails) || failed
  }

  /** The steps of a load: the loader ends, the value is stored, the entry is freed. */
  lemma {:induction false} LoadTurnAgrees(cfg: Config, s: Sys, e: Event, t: nat, result: Option<Option<Value>>,
                                          failed: bool)
    requires FuturesExact(s) && TurnOf(s, e, t) && TaskAgrees(s, t, result, failed) && Owning(s.tasks[t].pc)
    ensures TaskAgrees(Apply(cfg, s, e), t, ResultAfter(s, e, t, result), FailedAfter(cfg, s, e, t, failed))
  {
    hide RunBegin, RunStaleFound, RunLookL2, RunJoin, RunWaiting, RunStartRefresh, Stored;
    assert PcFits(s.tasks, s.futures, t, s.tasks[t].pc);
  }

  lemma {:induction false} OwnTurnAgrees(cfg: Config, s: Sys, e: Event, t: nat, result: Option<Option<Value>>,
                                         failed: bool)
    requires FuturesExact(s) && TurnOf(s, e, t) && TaskAgrees(s, t, result, failed) && !Owning(s.tasks[t].pc)
    ensures TaskAgrees(Apply(cfg, s, e), t, ResultAfter(s, e, t, result), FailedAfter(cfg, s, e, t, failed))
  {
    hide RunLoading, RunLoaded, RunUnregister, Stored, Looked, AfterLookup;
    assert PcFits(s.tasks, s.futures, t, s.tasks[t].pc);
  }

  lemma {:induction false} OtherTurnsAgree(cfg: Config, s: Sys, e: Event, t: nat, result: Option<Option<Value>>,
                                           failed: bool)
    requires FuturesExact(s) && !TurnOf(s, e, t) && TaskAgrees(s, t, result, failed)
    ensures TaskAgrees(Apply(cfg, s, e), t, result, failed)
  {
    hide RunBegin, RunStaleFound, RunLookL2, RunJoin, RunWaiting, RunStartRefresh, RunLoading, RunLoaded, RunUnregister;
  }

  lemma {:induction false} AlwaysAgree(cfg: Config, now: real, schedule: seq<Event>)
    ensures AllAgree(cfg, now, schedule)
  {
    if schedule != [] {
      var before, e := schedule[..|schedule| - 1], schedule[|schedule| - 1];
      var s := Execute(cfg, now, before);
      AlwaysAgree(cfg, now, before);
      FuturesAlwaysExact(cfg, now, before);
      forall t: nat
        ensures TaskAgrees(Apply(cfg, s, e), t,
                           LoaderResult(cfg, now, schedule, t), StoreFailed(cfg, now, schedule, t))
      {
        var result, failed := LoaderResult(cfg, now, before, t), StoreFailed(cfg, now, before, t);
        assert TaskAgrees(s, t, result, failed);
        if TurnOf(s, e, t) && Owning(s.tasks[t].pc) {
          LoadTurnAgrees(cfg, s, e, t, result, failed);
        } else if TurnOf(s, e, t) {
          OwnTurnAgrees(cfg, s, e, t, result, failed);
        } else {
          OtherTurnsAgree(cfg, s, e, t, result, failed);
        }
      }
    }
  }

  /** A request that ran the loader ends with the loader's value, not stale, unless the loader raised or the second
    * level failed while the value was being stored; then, and only then, it raises on its own account. */
  lemma {:induction false} OwnersEndAsTheirLoader(cfg: Config, now: real, schedule: seq<Event>, t: nat)
    requires var s := Execute(cfg, now, schedule);
      t < |s.tasks| && s.tasks[t].pc.Done? && !s.tasks[t].background
    ensures var result, failed := LoaderResult(cfg, now, schedule, t), StoreFailed(cfg, now, schedule, t);
            var reply := Execute(cfg, now, schedule).tasks[t].pc.reply;
      && (result.Some? && result.value.Some? && !failed <==>
            reply.Answer? && reply.source == Computed && !reply.stale && result == Some(Some(reply.value)))
      && (result == Some(None) || failed <==> reply == Raised(t))
      && (result == None <==>
            (reply.Answer? && reply.source != Computed) || (reply.Raised? && reply.owner != t))
  {
    AlwaysAgree(cfg, now, schedule);
    var s := Execute(cfg, now, schedule);
    assert TaskAgrees(s, t, LoaderResult(cfg, now, schedule, t), StoreFailed(cfg, now, schedule, t));
  }

  /** Whoever raises `u`'s exception: `u` is a task of that key whose loader raised, or for which the second level
    * failed. Whoever answers from `u` answers with what `u`'s loader returned. */
  lemma {:induction false} WaitersEndAsTheLoader(cfg: Config, now: real, schedule: seq<Event>, t: nat, u: nat)
    requires var s := Execute(cfg, now, schedule); t < |s.tasks| && s.tasks[t].pc.Done?
    ensures var tasks := Execute(cfg, now, schedule).tasks;
            var result, failed := LoaderResult(cfg, now, schedule, u), StoreFailed(cfg, now, schedule, u);
            var reply := tasks[t].pc.reply;
      && (reply == Raised(u) ==>
            u < |tasks| && tasks[u].call.key == tasks[t].call.key && (result == Some(None) || failed))
      && (reply.Answer? && reply.source == Joined(u) ==>
            u < |tasks| && tasks[u].call.key == tasks[t].call.key && result == Some(Some(reply.value)) && !failed)
  {
    AlwaysAgree(cfg, now, schedule);
    FuturesAlwaysExact(cfg, now, schedule);
    var s := Execute(cfg, now, schedule);
    assert PcFits(s.tasks, s.futures, t, s.tasks[t].pc);
    assert TaskAgrees(s, u, LoaderResult(cfg, now, schedule, u), StoreFailed(cfg, now, schedule, u));
  }

  // ---------------------------------------------------------------- one turn of a task

  /** What a turn of task `t` may touch: its own position, and one new refresh. */
  lemma {:induction false} TurnIsLocal(cfg: Config, s: Sys, e: Event, t: nat)
    requires TurnOf(s, e, t)
    ensures var s' := Apply(cfg, s, e);
      && s'.now == s.now && |s.tasks| <= |s'.tasks| <= |s.tasks| + 1
      && (forall u: nat :: u < |s.tasks| && u != t ==> s'.tasks[u] == s.tasks[u])
      && s'.tasks[t] == s.tasks[t].(pc := s'.tasks[t].pc)
      && (|s'.tasks| > |s.tasks| ==>
            s.tasks[t].pc.StaleFound? && s'.tasks[|s.tasks|] == Task(s.tasks[t].call, true, StartRefresh))
  {
    hide Looked, AfterLookup, Stored, Admits;
    assert EffectOf(cfg, s, e).spawn ==> s.tasks[t].pc.StaleFound?;
  }

  /** What is found in the first level decides: a fresh value is the answer; a stale one will be, and a refresh is
    * to follow; anything else sends the request to the second level. */
  lemma {:induction false} FirstLevelAnswers(cfg: Config, now: real, schedule: seq<Event>, e: Event, t: nat)
    requires var s := Execute(cfg, now, schedule); TurnOf(s, e, t) && s.tasks[t].pc == Begin
    ensures var s := Execute(cfg, now, schedule);
            var s', k := Apply(cfg, s, e), s.tasks[t].call.key;
            var pc := s'.tasks[t].pc;
      && (forall i: nat :: i < |s.l1| && s.l1[i].key == k ==>
            var d, rest := s.l1[i], s.l1[..i] + s.l1[i + 1..];
            && (s.now < d.expiresAt && d.value != Null ==> pc == Done(Answer(d.value, FromL1, false, s.now)))
            && (d.expiresAt <= s.now < d.staleUntil && d.value != Null ==> pc == StaleFound(d.value, s.now))
            && ((d.expiresAt <= s.now && d.staleUntil <= s.now) || d.value == Null ==> pc == LookL2)
            && s'.l1 == rest + (if s.now < d.expiresAt || s.now < d.staleUntil then [d] else []))
      && ((forall i: nat :: i < |s.l1| ==> s.l1[i].key != k) ==> pc == LookL2 && s'.l1 == s.l1)
      && s'.l2 == s.l2
  {
    hide RunLoaded, RunLookL2, Stored;
    AlwaysSound(cfg, now, schedule);
    var s := Execute(cfg, now, schedule);
    var k := s.tasks[t].call.key;
    assert UniqueKeys(s.l1);
    forall i: nat | i < |s.l1| && s.l1[i].key == k
      ensures Looked(s.l1, k, s.now) == (if s.now < s.l1[i].expiresAt then Fresh(s.l1[i].value)
                                         else if s.now < s.l1[i].staleUntil then Stale(s.l1[i].value) else Miss)
      ensures AfterLookup(s.l1, k, s.now) == s.l1[..i] + s.l1[i + 1..]
                + (if s.now < s.l1[i].expiresAt || s.now < s.l1[i].staleUntil then [s.l1[i]] else [])
    {
      LookupAnswers(s.l1, i, s.now);
    }
  }

  /** A stale answer is given at once; a refresh starts with it unless the key is being loaded. */
  lemma {:induction false} StaleIsAnswered(cfg: Config, now: real, schedule: seq<Event>, e: Event, t: nat)
    requires var s := Execute(cfg, now, schedule); TurnOf(s, e, t) && s.tasks[t].pc.StaleFound?
    ensures var s := Execute(cfg, now, schedule);
            var s', task := Apply(cfg, s, e), s.tasks[t];
      && s'.tasks[t].pc == Done(Answer(task.pc.value, FromL1, true, task.pc.at))
      && (|s'.tasks| == |s.tasks| <==> exists u: nat :: Owns(s, u) && s.tasks[u].call.key == task.call.key)
      && s'.l1 == s.l1 && s'.l2 == s.l2
  {
    InflightAlwaysExact(cfg, now, schedule);
    var s := Execute(cfg, now, schedule);
    var k := s.tasks[t].call.key;
    if k in s.inflight {
      assert Owns(s, s.inflight[k]);
    }
  }

  /** A row of the second level is the answer until it expires, and enters the first level with the lifetime it has
    * left; no other case answers, and an expired row is deleted. */
  lemma {:induction false} SecondLevelAnswers(cfg: Config, now: real, schedule: seq<Event>, e: Event, t: nat)
    requires var s := Execute(cfg, now, schedule); TurnOf(s, e, t) && s.tasks[t].pc == LookL2
    ensures var s := Execute(cfg, now, schedule);
            var s', call := Apply(cfg, s, e), s.tasks[t].call;
            var pc, found := s'.tasks[t].pc, cfg.hasStore && call.key in s.l2;
      && (found && s.now < s.l2[call.key].expiresAt && s.l2[call.key].value != Null ==>
            var row := s.l2[call.key];
            && pc == Done(Answer(row.value, FromL2, false, s.now)) && s'.l2 == s.l2
            && Entered(s.l1, Slot(call.key, row.value, cfg.sizeOf(row.value), row.expiresAt,
                                  row.expiresAt + call.window), cfg.maxItemBytes, cfg.maxBytes, s'.l1))
      && (!found || s.l2[call.key].expiresAt <= s.now || s.l2[call.key].value == Null ==>
            && pc == Join && s'.l1 == s.l1
            && s'.l2 == if found && s.l2[call.key].expiresAt <= s.now then s.l2 - {call.key} else s.l2)
  {
    hide Stored, Entered, UniqueKeys, RunBegin, RunJoin, RunWaiting, Execute, Bytes;
    AlwaysSound(cfg, now, schedule);
    var s := Execute(cfg, now, schedule);
    var call := s.tasks[t].call;
    if cfg.hasStore && call.key in s.l2 {
      var row := s.l2[call.key];
      StoreEnters(s.l1, Slot(call.key, row.value, cfg.sizeOf(row.value), row.expiresAt, row.expiresAt + call.window),
                  cfg.maxItemBytes, cfg.maxBytes);
    }
  }

  /** A request joins the one load of its key that is on its way, or becomes it; a refresh gives up instead of
    * joining. */
  lemma {:induction false} OneJoinsOrLoads(cfg: Config, now: real, schedule: seq<Event>, e: Event, t: nat)
    requires var s := Execute(cfg, now, schedule);
      TurnOf(s, e, t) && (s.tasks[t].pc == Join || s.tasks[t].pc == StartRefresh)
    ensures var s := Execute(cfg, now, schedule);
            var s', task := Apply(cfg, s, e), s.tasks[t];
      && (forall u: nat :: Owns(s, u) && s.tasks[u].call.key == task.call.key ==>
            s'.tasks[t].pc == if task.pc == Join then Waiting(u) else Done(Nothing))
      && ((forall u: nat :: Owns(s, u) ==> s.tasks[u].call.key != task.call.key) ==> s'.tasks[t].pc == Loading)
      && s'.l1 == s.l1 && s'.l2 == s.l2
  {
    InflightAlwaysExact(cfg, now, schedule);
    var s := Execute(cfg, now, schedule);
    var k := s.tasks[t].call.key;
    if k in s.inflight {
      assert Owns(s, s.inflight[k]);
    }
  }

  /** When a load is over its value enters both levels exactly if it was slow or in the background, its time to live
    * is positive and neither cap refuses it; a second level that fails is left as it was. */
  lemma {:induction false} LoadIsStored(cfg: Config, now: real, schedule: seq<Event>, e: Event, t: nat)
    requires var s := Execute(cfg, now, schedule); TurnOf(s, e, t) && s.tasks[t].pc.Loaded?
    ensures var s := Execute(cfg, now, schedule);
            var s', task := Apply(cfg, s, e), s.tasks[t];
            var c, v := task.call, task.pc.value;
            var slot := Slot(c.key, v, cfg.sizeOf(v), s.now + c.ttl, s.now + c.ttl + c.window);
      && ((e.slow || task.background) && c.ttl > 0.0 ==>
            Entered(s.l1, slot, c.cap, cfg.maxBytes, s'.l1))
      && (!(e.slow || task.background) || c.ttl <= 0.0 ==> s'.l1 == s.l1)
      && s'.l2 == (if ToBeStored(cfg, task, v, e.slow) && cfg.hasStore && !e.l2Fails
                   then s.l2[c.key := Row(v, s.now + c.ttl)] else s.l2)
  {
    hide Stored, Entered, UniqueKeys, RunBegin, RunJoin, RunWaiting, Execute, Bytes;
    AlwaysSound(cfg, now, schedule);
    var s := Execute(cfg, now, schedule);
    var c, v := s.tasks[t].call, s.tasks[t].pc.value;
    StoreEnters(s.l1, Slot(c.key, v, cfg.sizeOf(v), s.now + c.ttl, s.now + c.ttl + c.window), c.cap, cfg.maxBytes);
  }

  /** No other turn touches either level. */
  lemma {:induction false} OtherTurnsStoreNothing(cfg: Config, s: Sys, e: Event, t: nat)
    requires TurnOf(s, e, t) && !s.tasks[t].pc.Begin? && !s.tasks[t].pc.LookL2? && !s.tasks[t].pc.Loaded?
    ensures Apply(cfg, s, e).l1 == s.l1 && Apply(cfg, s, e).l2 == s.l2
  {
    hide RunBegin, RunLookL2, RunLoaded, Looked, AfterLookup, Stored;
    assert EffectOf(cfg, s, e).l1 == s.l1 && EffectOf(cfg, s, e).l2 == s.l2 by {
      hide Commit;
    }
    hide EffectOf;
  }

  /** How far a task has come. */
  function Progress(pc: Pc): nat {
    match pc
    case Begin => 0
    case StaleFound(_, _) => 1
    case LookL2 => 1
    case Join => 2
    case StartRefresh => 2
    case Waiting(_) => 3
    case Loading => 3
    case Loaded(_) => 4
    case Unregister(_) => 5
    case Done(_) => 6
  }

  lemma {:induction false} EffectAdvances(cfg: Config, s: Sys, e: Event)
    requires e.Run? && e.task < |s.tasks|
    ensures var pc, pc' := s.tasks[e.task].pc, EffectOf(cfg, s, e).pc;
      || Progress(pc') > Progress(pc)
      || (pc.Done? && pc' == pc)
      || (pc.Waiting? && pc' == pc && (pc.owner !in s.futures || s.futures[pc.owner] == Pending))
  {
    hide Looked, AfterLookup, Stored, Admits, NewSlot, Recorded;
    match s.tasks[e.task].pc
    case Begin => assert EffectOf(cfg, s, e) == RunBegin(s, s.tasks[e.task].call);
    case LookL2 => assert EffectOf(cfg, s, e) == RunLookL2(cfg, s, s.tasks[e.task].call);
    case _ =>
  }

  /** Every turn brings a task further, unless it is done or waits for a load that is still on its way: a task has at
    * most six turns besides those. */
  lemma {:induction false} TurnsAdvance(cfg: Config, now: real, schedule: seq<Event>, e: Event, t: nat)
    requires TurnOf(Execute(cfg, now, schedule), e, t)
    ensures var s := Execute(cfg, now, schedule);
            var pc, pc' := s.tasks[t].pc, Apply(cfg, s, e).tasks[t].pc;
      || Progress(pc') > Progress(pc)
      || (pc.Done? && pc' == pc)
      || (pc.Waiting? && pc' == pc && Owns(s, pc.owner) && s.tasks[pc.owner].call.key == s.tasks[t].call.key)
  {
    hide EffectOf, Execute, Progress;
    EffectAdvances(cfg, Execute(cfg, now, schedule), e);
    FuturesAlwaysExact(cfg, now, schedule);
    var s := Execute(cfg, now, schedule);
    assert PcFits(s.tasks, s.futures, t, s.tasks[t].pc);
  }

  // ---------------------------------------------------------------- the records are those of the schedule

  /** A task stores at most once, as its last step before it frees its entry. */
  ghost predicate StoresOnce(cfg: Config, now: real, schedule: seq<Event>) {
    var s := Execute(cfg, now, schedule);
    forall u: nat :: StoredValue(cfg, now, schedule, u).Some? ==>
      u < |s.tasks| && (s.tasks[u].pc.Unregister? || s.tasks[u].pc.Done?)
  }

  lemma {:induction false} StoredIsOver(cfg: Config, s: Sys, e: Event, u: nat)
    requires u < |s.tasks|
    requires s.tasks[u].pc.Unregister? || s.tasks[u].pc.Done? || StoresNow(cfg, s, e, u)
    ensures var s' := Apply(cfg, s, e); u < |s'.tasks| && (s'.tasks[u].pc.Unregister? || s'.tasks[u].pc.Done?)
  {
    hide Looked, AfterLookup, Stored, Admits;
    hide RunBegin, RunLookL2, RunJoin, RunStartRefresh, RunWaiting, RunStaleFound, RunLoading;
  }

  lemma {:induction false} AlwaysStoresOnce(cfg: Config, now: real, schedule: seq<Event>)
    ensures StoresOnce(cfg, now, schedule)
  {
    if schedule != [] {
      var s, e := Execute(cfg, now, schedule[..|schedule| - 1]), schedule[|schedule| - 1];
      AlwaysStoresOnce(cfg, now, schedule[..|schedule| - 1]);
      forall u: nat | StoredValue(cfg, now, schedule, u).Some?
        ensures var s' := Apply(cfg, s, e); u < |s'.tasks| && (s'.tasks[u].pc.Unregister? || s'.tasks[u].pc.Done?)
      {
        assert StoredValue(cfg, now, schedule[..|schedule| - 1], u).Some? || StoresNow(cfg, s, e, u);
        StoredIsOver(cfg, s, e, u);
      }
    }
  }

  function StoredAfter(cfg: Config, s: Sys, e: Event, t: nat, stored: Option<Cert>): Option<Cert> {
    if StoresNow(cfg, s, e, t) then Some(CertOf(s, s.tasks[t])) else stored
  }

  ghost predicate ProducedIs(s: Sys, result: nat -> Option<Option<Value>>) {
    forall k, v :: (k, v) in s.produced <==>
      exists u: nat :: u < |s.tasks| && s.tasks[u].call.key == k && result(u) == Some(Some(v))
  }

  ghost predicate StoresAre(s: Sys, stored: nat -> Option<Cert>) {
    forall c :: c in s.certs <==> exists u: nat :: stored(u) == Some(c)
  }

  /** What one event adds to the records. */
  lemma {:induction false} ProducedGrows(cfg: Config, s: Sys, e: Event)
    ensures var s' := Apply(cfg, s, e);
      && (forall k, v :: (k, v) in s'.produced <==>
            || (k, v) in s.produced
            || (e.Run? && e.task < |s.tasks| && s.tasks[e.task].pc == Loading && e.result == Some(v)
                && s.tasks[e.task].call.key == k))
      && |s.tasks| <= |s'.tasks| && forall u: nat :: u < |s.tasks| ==> s'.tasks[u].call == s.tasks[u].call
  {
    hide Looked, AfterLookup, Stored, Admits, RunBegin, RunLookL2, RunLoaded;
    if e.Run? && e.task < |s.tasks| {
      assert EffectOf(cfg, s, e).produced ==
        if s.tasks[e.task].pc == Loading && e.result.Some? then {(s.tasks[e.task].call.key, e.result.value)} else {}
      by {
        OnlyLoadersProduce(cfg, s, e);
      }
      hide EffectOf;
    }
  }

  lemma {:induction false} OnlyLoadersProduce(cfg: Config, s: Sys, e: Event)
    requires e.Run? && e.task < |s.tasks|
    ensures EffectOf(cfg, s, e).produced ==
      if s.tasks[e.task].pc == Loading && e.result.Some? then {(s.tasks[e.task].call.key, e.result.value)} else {}
  {
    hide Looked, AfterLookup, Stored, Admits;
  }

  lemma {:induction false} CertsGrow(cfg: Config, s: Sys, e: Event)
    ensures forall c :: c in Apply(cfg, s, e).certs <==>
      || c in s.certs
      || (e.Run? && StoresNow(cfg, s, e, e.task) && c == CertOf(s, s.tasks[e.task]))
  {
    hide Looked, AfterLookup, Stored;
  }

  lemma {:induction false} ProducedStep(cfg: Config, s: Sys, e: Event, result: nat -> Option<Option<Value>>,
                                        after: nat -> Option<Option<Value>>)
    requires forall u: nat :: u >= |s.tasks| || s.tasks[u].pc == Loading ==> result(u) == None
    requires forall u: nat :: after(u) == ResultAfter(s, e, u, result(u))
    requires ProducedIs(s, result)
    ensures ProducedIs(Apply(cfg, s, e), after)
  {
    hide Apply, StoresNow;
    ProducedGrows(cfg, s, e);
  }

  lemma {:induction false} StoredStep(cfg: Config, s: Sys, e: Event, stored: nat -> Option<Cert>,
                                      after: nat -> Option<Cert>)
    requires forall u: nat :: stored(u).Some? ==> u < |s.tasks| && !s.tasks[u].pc.Loaded?
    requires forall u: nat :: after(u) == StoredAfter(cfg, s, e, u, stored(u))
    requires StoresAre(s, stored)
    ensures StoresAre(Apply(cfg, s, e), after)
  {
    hide Apply, ToBeStored;
    CertsGrow(cfg, s, e);
  }

  function Results(cfg: Config, now: real, schedule: seq<Event>): nat -> Option<Option<Value>> {
    (u: nat) => LoaderResult(cfg, now, schedule, u)
  }

  function Stores(cfg: Config, now: real, schedule: seq<Event>): nat -> Option<Cert> {
    (u: nat) => StoredValue(cfg, now, schedule, u)
  }

  lemma {:induction false} AlwaysProduced(cfg: Config, now: real, schedule: seq<Event>)
    ensures ProducedIs(Execute(cfg, now, schedule), Results(cfg, now, schedule))
  {
    if schedule != [] {
      var before, e := schedule[..|schedule| - 1], schedule[|schedule| - 1];
      var s := Execute(cfg, now, before);
      AlwaysProduced(cfg, now, before);
      AlwaysAgree(cfg, now, before);
      forall u: nat
        ensures u >= |s.tasks| || s.tasks[u].pc == Loading ==> Results(cfg, now, before)(u) == None
      {
        assert TaskAgrees(s, u, LoaderResult(cfg, now, before, u), StoreFailed(cfg, now, before, u));
      }
      ProducedStep(cfg, s, e, Results(cfg, now, before), Results(cfg, now, schedule));
    }
  }

  lemma {:induction false} AlwaysStores(cfg: Config, now: real, schedule: seq<Event>)
    ensures StoresAre(Execute(cfg, now, schedule), Stores(cfg, now, schedule))
  {
    if schedule != [] {
      var before, e := schedule[..|schedule| - 1], schedule[|schedule| - 1];
      var s := Execute(cfg, now, before);
      AlwaysStores(cfg, now, before);
      AlwaysStoresOnce(cfg, now, before);
      assert forall u: nat :: Stores(cfg, now, before)(u) == StoredValue(cfg, now, before, u);
      StoredStep(cfg, s, e, Stores(cfg, now, before), Stores(cfg, now, schedule));
    }
  }

  /** A value is recorded as produced exactly if a loader of that key returned it. */
  lemma {:induction false} ProducedByLoaders(cfg: Config, now: real, schedule: seq<Event>, k: Key, v: Value)
    ensures var s := Execute(cfg, now, schedule);
      (k, v) in s.produced <==>
        exists u: nat :: u < |s.tasks| && s.tasks[u].call.key == k
                         && LoaderResult(cfg, now, schedule, u) == Some(Some(v))
  {
    var s, results := Execute(cfg, now, schedule), Results(cfg, now, schedule);
    AlwaysProduced(cfg, now, schedule);
    forall u: nat ensures results(u) == LoaderResult(cfg, now, schedule, u) {}
    assert (exists u: nat :: u < |s.tasks| && s.tasks[u].call.key == k && results(u) == Some(Some(v))) <==>
      (k, v) in s.produced;
  }

  /** A store is recorded exactly if a task made it. */
  lemma {:induction false} StoredByTasks(cfg: Config, now: real, schedule: seq<Event>, c: Cert)
    ensures c in Execute(cfg, now, schedule).certs <==>
      exists u: nat :: StoredValue(cfg, now, schedule, u) == Some(c)
  {
    AlwaysStores(cfg, now, schedule);
    if u: nat :| Stores(cfg, now, schedule)(u) == Some(c) {
      assert StoredValue(cfg, now, schedule, u) == Some(c);
    }
    if u: nat :| StoredValue(cfg, now, schedule, u) == Some(c) {
      assert Stores(cfg, now, schedule)(u) == Some(c);
    }
  }

  /** A call is recorded exactly if it arrived. */
  lemma {:induction false} CallsArrived(cfg: Config, now: real, schedule: seq<Event>, c: Call)
    ensures c in Execute(cfg, now, schedule).calls <==> Arrive(c) in schedule
  {
    if schedule != [] {
      CallsArrived(cfg, now, schedule[..|schedule| - 1], c);
      assert schedule == schedule[..|schedule| - 1] + [schedule[|schedule| - 1]];
    }
  }

  /** Whatever source an answer names, some loader of its key returned that value in this schedule. */
  lemma {:induction false} AnswersWereLoaded(cfg: Config, now: real, schedule: seq<Event>, t: nat)
    requires t < |Execute(cfg, now, schedule).tasks|
    requires var pc := Execute(cfg, now, schedule).tasks[t].pc; pc.Done? && pc.reply.Answer?
    ensures var tasks := Execute(cfg, now, schedule).tasks;
      exists u: nat :: u < |tasks| && tasks[u].call.key == tasks[t].call.key
                       && LoaderResult(cfg, now, schedule, u) == Some(Some(tasks[t].pc.reply.value))
  {
    AnswersAreGenuine(cfg, now, schedule, t);
    var task := Execute(cfg, now, schedule).tasks[t];
    ProducedByLoaders(cfg, now, schedule, task.call.key, task.pc.reply.value);
  }
}
