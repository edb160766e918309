/** What the pool counts and stamps: the acquired total over runs, and how long a free connection has been idle. */
module PoolAccounting {
  import opened Seqs
  import opened PoolSteps
  import opened PoolRuns

  /** The connection an event gives to a caller of acquire, if it does. */
  predicate Grants(w: World, e: Event)
    requires Enabled(w, e)
  {
    match e
    case Acquire(_) => !w.pool.shuttingDown && w.pool.free != []
    case ConnectOk(_) => true
    case Resume(x) => x in w.pool.handed
    case _ => false
  }

  function GrantCount(w: World, es: seq<Event>): nat
    requires Legal(w, es)
    decreases |es|
  {
    if es == [] then 0 else (if Grants(w, es[0]) then 1 else 0) + GrantCount(Step(w, es[0]), es[1..])
  }

  /** Exactly the granting events add to the total, and each puts a connection in a client's hands. */
  lemma StepCounts(w: World, e: Event)
    requires Enabled(w, e)
    ensures Step(w, e).pool.totalAcquired == w.pool.totalAcquired + if Grants(w, e) then 1 else 0
    ensures !Grants(w, e) ==> Step(w, e).clients <= w.clients
  {
    hide ReleaseStep, ReapStep, ConnectedStep, WarmedStep;
    match e
    case ConnectOk(now) => ConnectedTotal(w.pool, now);
    case RunRelease(c, open, now) => ReleaseTotal(w.pool, c, w.releasing[c], open, now);
    case StrayRelease(c, healthy, open, now) => ReleaseTotal(w.pool, c, healthy, open, now);
    case WarmOk(i, now) => WarmedTotal(w.pool, now);
    case Reap(now) => ReapTotal(w.pool, now);
    case _ =>
  }

  lemma ConnectedTotal(p: PoolState, now: int)
    ensures ConnectedStep(p, now).totalAcquired == p.totalAcquired + 1
  {
  }

  lemma ReleaseTotal(p: PoolState, c: Conn, healthy: bool, open: bool, now: int)
    ensures ReleaseStep(p, c, healthy, open, now).totalAcquired == p.totalAcquired
  {
  }

  lemma WarmedTotal(p: PoolState, now: int)
    ensures WarmedStep(p, now).totalAcquired == p.totalAcquired
  {
  }

  lemma ReapTotal(p: PoolState, now: int)
    ensures ReapStep(p, now).totalAcquired == p.totalAcquired
  {
  }

  /** In every run the published total is the number of acquires that returned a connection. */
  lemma {:induction false} TotalCountsGrants(w: World, es: seq<Event>)
    requires Legal(w, es)
    ensures Exec(w, es).pool.totalAcquired == w.pool.totalAcquired + GrantCount(w, es)
    decreases |es|
  {
    hide Step, Grants;
    if es != [] {
      StepCounts(w, es[0]);
      TotalCountsGrants(Step(w, es[0]), es[1..]);
    }
  }

  /** The moment of the event that made a connection free. */
  predicate FreedAt(e: Event, c: Conn, next: Conn, now: int) {
    match e
    case RunRelease(d, _, t) => c == d && now == t
    case StrayRelease(d, _, _, t) => c == d && now == t
    case WarmOk(_, t) => c == next && now == t
    case _ => false
  }

  /** `c` is free in `q`, and free in `p` already with the same stamp. */
  predicate SameStamp(p: PoolState, q: PoolState, c: Conn) {
    c in p.free && c in p.info && c in q.info && q.info[c].lastUsed == p.info[c].lastUsed
  }

  lemma AcquireStamp(p: PoolState, now: int, c: Conn)
    requires Structure(p) && c in AcquireStep(p, now).0.free
    ensures SameStamp(p, AcquireStep(p, now).0, c)
  {
    if !p.shuttingDown && p.free != [] {
      PopFree(p.all, p.free, p.active);
    }
  }

  lemma ReleaseStamp(p: PoolState, d: Conn, healthy: bool, open: bool, now: int, c: Conn)
    requires Structure(p) && c in ReleaseStep(p, d, healthy, open, now).free
    ensures var q := ReleaseStep(p, d, healthy, open, now);
            if c in p.free then SameStamp(p, q, c) else c == d && c in q.info && q.info[c].lastUsed == now
  {
    hide Erase;
  }

  lemma ReapStamp(p: PoolState, now: int, c: Conn)
    requires Structure(p) && c in ReapStep(p, now).free
    ensures SameStamp(p, ReapStep(p, now), c)
  {
    if !p.shuttingDown {
      ReapSpec(p, now);
    }
  }

  lemma WarmedStamp(p: PoolState, now: int, c: Conn)
    requires Structure(p) && c in WarmedStep(p, now).free
    ensures var q := WarmedStep(p, now);
            if c in p.free then SameStamp(p, q, c) else c == p.nextConn && c in q.info && q.info[c].lastUsed == now
  {
  }

  lemma ConnectedStamp(p: PoolState, now: int, c: Conn)
    requires Structure(p) && c in ConnectedStep(p, now).free
    ensures SameStamp(p, ConnectedStep(p, now), c)
  {
  }

  lemma UntouchedStamp(p: PoolState, c: Conn)
    requires Structure(p) && c in p.free
    ensures SameStamp(p, p, c)
  {
  }

  /** A free connection carries the time at which it became free: nothing restamps it while it stays free. */
  lemma IdleStamp(w: World, e: Event, c: Conn)
    requires Enabled(w, e) && Structure(w.pool) && c in Step(w, e).pool.free
    ensures var p, p' := w.pool, Step(w, e).pool;
            if c in p.free then SameStamp(p, p', c)
            else c in p'.info && FreedAt(e, c, p.nextConn, p'.info[c].lastUsed)
  {
    hide Structure, AcquireStep, ConnectedStep, ReleaseStep, WarmedStep, ReapStep;
    if c in w.pool.free {
      UntouchedStamp(w.pool, c);
    }
    match e
    case Acquire(now) =>
      var r := AcquireStep(w.pool, now).1;
      if r.Granted? || r.Queued? { AcquireStamp(w.pool, now, c); }
    case ConnectOk(now) => ConnectedStamp(w.pool, now, c);
    case RunRelease(d, open, now) => ReleaseStamp(w.pool, d, w.releasing[d], open, now, c);
    case StrayRelease(d, healthy, open, now) => ReleaseStamp(w.pool, d, healthy, open, now, c);
    case WarmOk(i, now) => WarmedStamp(w.pool, now, c);
    case Reap(now) => ReapStamp(w.pool, now, c);
    case _ =>
  }

  /** Free before every event of the run, and after the last. */
  ghost predicate FreeThroughout(w: World, es: seq<Event>, c: Conn)
    requires Legal(w, es)
    decreases |es|
  {
    c in w.pool.free && (es == [] || FreeThroughout(Step(w, es[0]), es[1..], c))
  }

  /** So the reaper measures idleness from the release or warm-up that made the connection free, over any run between. */
  lemma {:induction false} IdleSinceFreed(w: World, e: Event, es: seq<Event>, c: Conn)
    requires Enabled(w, e) && Legal(Step(w, e), es) && Structure(w.pool)
    requires c !in w.pool.free && FreeThroughout(Step(w, e), es, c)
    ensures var p := Exec(Step(w, e), es).pool; c in p.info && FreedAt(e, c, w.pool.nextConn, p.info[c].lastUsed)
  {
    hide Step, Structure;
    StepKeepsStructure(w, e);
    IdleStamp(w, e, c);
    StampKept(Step(w, e), es, c);
  }

  lemma {:induction false} StampKept(w: World, es: seq<Event>, c: Conn)
    requires Legal(w, es) && Structure(w.pool) && FreeThroughout(w, es, c)
    ensures c in w.pool.info && c in Exec(w, es).pool.info
    ensures Exec(w, es).pool.info[c].lastUsed == w.pool.info[c].lastUsed
    decreases |es|
  {
    hide Step;
    UntouchedStamp(w.pool, c);
    if es != [] {
      StepKeepsStructure(w, es[0]);
      IdleStamp(w, es[0], c);
      StampKept(Step(w, es[0]), es[1..], c);
    }
  }

  /** A connection made free at time t expires at `now` exactly when it has been free for longer than the limit. */
  lemma ExpiredExactlyAfterIdleTime(w: World, e: Event, es: seq<Event>, c: Conn, t: int, now: int)
    requires Enabled(w, e) && Legal(Step(w, e), es) && Structure(w.pool)
    requires c !in w.pool.free && FreeThroughout(Step(w, e), es, c)
    requires match e
             case RunRelease(_, _, at) => at == t
             case StrayRelease(_, _, _, at) => at == t
             case WarmOk(_, at) => at == t
             case _ => true
    ensures var p := Exec(Step(w, e), es).pool;
            c in Expired(p, p.free, now) <==> now - t > p.cfg.maxIdle
  {
    IdleSinceFreed(w, e, es, c);
    FreeAtTheEnd(Step(w, e), es, c);
  }

  lemma {:induction false} FreeAtTheEnd(w: World, es: seq<Event>, c: Conn)
    requires Legal(w, es) && FreeThroughout(w, es, c)
    ensures c in Exec(w, es).pool.free
    decreases |es|
  {
    if es != [] {
      FreeAtTheEnd(Step(w, es[0]), es[1..], c);
    }
  }

  // ---- The longest idle connection is reused first ----

  /** The free list in the order of its stamps, none later than `now`. */
  ghost predicate ByAge(free: seq<Conn>, info: map<Conn, ConnInfo>, now: int) {
    && (forall c :: c in free ==> c in info && info[c].lastUsed <= now)
    && (forall i, j :: 0 <= i < j < |free| ==> info[free[i]].lastUsed <= info[free[j]].lastUsed)
  }

  ghost predicate FreeByAge(p: PoolState, now: int) { ByAge(p.free, p.info, now) }

  /** The clock's reading at the event, if it reads the clock. */
  function TimeOf(e: Event, clock: int): int {
    match e
    case Acquire(now) => now
    case ConnectOk(now) => now
    case RunRelease(_, _, now) => now
    case StrayRelease(_, _, _, now) => now
    case WarmOk(_, now) => now
    case Reap(now) => now
    case _ => clock
  }

  /** The clock never goes back. */
  predicate Timed(es: seq<Event>, clock: int)
    decreases |es|
  {
    es == [] || (clock <= TimeOf(es[0], clock) && Timed(es[1..], TimeOf(es[0], clock)))
  }

  function ClockAfter(es: seq<Event>, clock: int): int
    decreases |es|
  {
    if es == [] then clock else ClockAfter(es[1..], TimeOf(es[0], clock))
  }

  lemma SameStampsKeepAge(p: PoolState, q: PoolState, clock: int, now: int)
    requires FreeByAge(p, clock) && clock <= now && q.free == p.free
    requires forall c :: c in p.free ==> c in q.info && c in p.info && q.info[c].lastUsed == p.info[c].lastUsed
    ensures FreeByAge(q, now)
  {
  }

  lemma PoppedByAge(p: PoolState, q: PoolState, clock: int, now: int)
    requires FreeByAge(p, clock) && clock <= now && p.free != [] && q.free == p.free[1..]
    requires forall c :: c in p.free[1..] ==> c in q.info && c in p.info && q.info[c].lastUsed == p.info[c].lastUsed
    ensures FreeByAge(q, now)
  {
    assert p.free == [p.free[0]] + p.free[1..];
  }

  lemma AppendedByAge(p: PoolState, q: PoolState, c: Conn, clock: int, now: int)
    requires FreeByAge(p, clock) && clock <= now && q.free == p.free + [c] && c in q.info && q.info[c].lastUsed == now
    requires forall d :: d in p.free ==> d in q.info && d in p.info && q.info[d].lastUsed == p.info[d].lastUsed
    ensures FreeByAge(q, now)
  {
  }

  lemma AgeTail(free: seq<Conn>, info: map<Conn, ConnInfo>, now: int)
    requires ByAge(free, info, now) && free != []
    ensures ByAge(free[1..], info, now)
    ensures forall c :: c in free[1..] ==> c in info && info[free[0]].lastUsed <= info[c].lastUsed
  {
    assert free == [free[0]] + free[1..];
  }

  lemma AgeCons(c: Conn, free: seq<Conn>, info: map<Conn, ConnInfo>, now: int)
    requires ByAge(free, info, now) && c in info && info[c].lastUsed <= now
    requires forall d :: d in free ==> d in info && info[c].lastUsed <= info[d].lastUsed
    ensures ByAge([c] + free, info, now)
  {
    var all := [c] + free;
    forall i, j | 0 <= i < j < |all| ensures info[all[i]].lastUsed <= info[all[j]].lastUsed {
      assert all[j] == free[j - 1] && free[j - 1] in free;
    }
  }

  lemma {:induction false} WithoutByAge(free: seq<Conn>, gone: seq<Conn>, info: map<Conn, ConnInfo>, now: int)
    requires ByAge(free, info, now)
    ensures ByAge(Without(free, gone), info, now)
  {
    if free != [] {
      AgeTail(free, info, now);
      WithoutByAge(free[1..], gone, info, now);
      assert free[0] in info && info[free[0]].lastUsed <= now;
      hide ByAge;
      AgeCons(free[0], Without(free[1..], gone), info, now);
    }
  }

  lemma AcquireKeepsAge(p: PoolState, clock: int, now: int)
    requires Structure(p) && FreeByAge(p, clock) && clock <= now
    ensures FreeByAge(AcquireStep(p, now).0, now)
  {
    if !p.shuttingDown && p.free != [] {
      PopFree(p.all, p.free, p.active);
      PoppedByAge(p, AcquireStep(p, now).0, clock, now);
    }
  }

  lemma ReleaseKeepsAge(p: PoolState, c: Conn, healthy: bool, open: bool, clock: int, now: int)
    requires Structure(p) && FreeByAge(p, clock) && clock <= now
    ensures FreeByAge(ReleaseStep(p, c, healthy, open, now), now)
  {
    hide FreeByAge, Erase;
    var q := ReleaseStep(p, c, healthy, open, now);
    ReleaseOutcome(p, c, healthy, open, now);
    if q.free == p.free {
      SameStampsKeepAge(p, q, clock, now);
    } else {
      AppendedByAge(p, q, c, clock, now);
    }
  }

  lemma GrowthKeepsAge(p: PoolState, clock: int, now: int)
    requires Structure(p) && FreeByAge(p, clock) && clock <= now
    ensures FreeByAge(ConnectedStep(p, now), now) && FreeByAge(WarmedStep(p, now), now)
  {
    hide FreeByAge;
    SameStampsKeepAge(p, ConnectedStep(p, now), clock, now);
    AppendedByAge(p, WarmedStep(p, now), p.nextConn, clock, now);
  }

  lemma ReapKeepsAge(p: PoolState, clock: int, now: int)
    requires Structure(p) && FreeByAge(p, clock) && clock <= now
    ensures FreeByAge(ReapStep(p, now), now)
  {
    if !p.shuttingDown {
      ReapSpec(p, now);
      WithoutByAge(p.free, Reaped(p, p.free, p.all, now), p.info, now);
    }
  }

  lemma StepKeepsAge(w: World, e: Event, clock: int)
    requires Enabled(w, e) && Structure(w.pool) && FreeByAge(w.pool, clock) && clock <= TimeOf(e, clock)
    ensures FreeByAge(Step(w, e).pool, TimeOf(e, clock))
  {
    hide Structure, FreeByAge, AcquireStep, ConnectedStep, ReleaseStep, WarmedStep, ReapStep;
    var now := TimeOf(e, clock);
    Later(w.pool, clock, now);
    match e
    case Acquire(_) => AcquireKeepsAge(w.pool, clock, now);
    case ConnectOk(_) => GrowthKeepsAge(w.pool, clock, now);
    case WarmOk(_, _) => GrowthKeepsAge(w.pool, clock, now);
    case RunRelease(c, open, _) => ReleaseKeepsAge(w.pool, c, w.releasing[c], open, clock, now);
    case StrayRelease(c, healthy, open, _) => ReleaseKeepsAge(w.pool, c, healthy, open, clock, now);
    case Reap(_) => ReapKeepsAge(w.pool, clock, now);
    case Drain => DrainedByAge(w.pool, now);
    case Resume(x) => ResumedByAge(w.pool, x, now);
    case _ =>
  }

  lemma Later(p: PoolState, clock: int, now: int)
    requires FreeByAge(p, clock) && clock <= now
    ensures FreeByAge(p, now)
  {
  }

  lemma DrainedByAge(p: PoolState, now: int)
    ensures FreeByAge(DrainStep(p), now)
  {
  }

  lemma ResumedByAge(p: PoolState, x: Waiter, now: int)
    requires FreeByAge(p, now)
    ensures FreeByAge(ResumeStep(p, x).0, now)
  {
  }

  lemma {:induction false} AgeInEveryRun(w: World, es: seq<Event>, clock: int)
    requires Legal(w, es) && Timed(es, clock) && Structure(w.pool) && FreeByAge(w.pool, clock)
    ensures FreeByAge(Exec(w, es).pool, ClockAfter(es, clock))
    decreases |es|
  {
    hide Structure, Step, FreeByAge;
    if es != [] {
      StepKeepsStructure(w, es[0]);
      StepKeepsAge(w, es[0], clock);
      AgeInEveryRun(Step(w, es[0]), es[1..], TimeOf(es[0], clock));
    }
  }

  /** In every run with a clock that never goes back, an acquire that reuses a connection takes one that has been free longest. */
  lemma LongestIdleIsReused(cfg: PoolConfig, es: seq<Event>, clock: int, now: int)
    requires Legal(Initial(cfg), es) && Timed(es, clock)
    ensures var p := Exec(Initial(cfg), es).pool;
            match AcquireStep(p, now).1
            case Granted(c) =>
              c in p.free && c in p.info && forall d :: d in p.free ==> d in p.info && p.info[c].lastUsed <= p.info[d].lastUsed
            case _ => p.shuttingDown || p.free == []
  {
    AgeInEveryRun(Initial(cfg), es, clock);
    StructureInEveryRun(Initial(cfg), es);
    var p := Exec(Initial(cfg), es).pool;
    assert forall i :: 0 < i < |p.free| ==> p.info[p.free[0]].lastUsed <= p.info[p.free[i]].lastUsed;
  }
}
