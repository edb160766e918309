/** How many connections the pool can hold, when waiters can be stranded, and what drain leaves behind. */
module PoolCapacity {
  import opened Seqs
  import opened PoolSteps
  import opened PoolRuns

  /** Never more than max - 1 connections beyond the overlapping connects. */
  predicate WithinCapacity(w: World) {
    && InFlight(w) <= w.peak
    && |w.pool.all| + InFlight(w) <= w.pool.cfg.maxConns - 1 + w.peak
  }

  lemma WarmHeadKeepsCapacity(w: World, i: nat)
    requires WithinCapacity(w)
    ensures WithinCapacity(WarmHead(w, i))
    ensures WarmHead(w, i).pool == w.pool && w.peak <= WarmHead(w, i).peak
  {
  }

  lemma StepKeepsCapacity(w: World, e: Event)
    requires Enabled(w, e) && WithinCapacity(w)
    ensures WithinCapacity(Step(w, e))
    ensures Step(w, e).pool.cfg == w.pool.cfg && w.peak <= Step(w, e).peak
  {
    hide AcquireStep, ReleaseStep, ReapLoop, Erase;
    match e
    case Acquire(now) => AcquireSizes(w.pool, now);
    case RunRelease(c, open, now) => ReleaseSizes(w.pool, c, w.releasing[c], open, now);
    case StrayRelease(c, healthy, open, now) => ReleaseSizes(w.pool, c, healthy, open, now);
    case WarmBegin => WarmHeadKeepsCapacity(w, 0);
    case WarmOk(i, now) =>
      WarmHeadKeepsCapacity(w.(pool := WarmedStep(w.pool, now), warming := Erase(w.warming, i)), i + 1);
    case Reap(now) => ReapShrinks(w.pool, w.pool.free, w.pool.all, now);
    case _ =>
  }

  /**
   Over every run, tracked connections plus connects in flight stay within
   max - 1 plus the peak number of overlapping connects.
  */
  lemma {:induction false} CapacityInEveryRun(w: World, es: seq<Event>)
    requires Legal(w, es) && WithinCapacity(w)
    ensures WithinCapacity(Exec(w, es))
    ensures Exec(w, es).pool.cfg == w.pool.cfg
    decreases |es|
  {
    if es != [] {
      StepKeepsCapacity(w, es[0]);
      CapacityInEveryRun(Step(w, es[0]), es[1..]);
    }
  }

  /** When connects never overlap, the configured maximum is respected. */
  lemma NoOverlapNoExcess(cfg: PoolConfig, es: seq<Event>)
    requires cfg.maxConns >= 1 && Legal(Initial(cfg), es)
    requires Exec(Initial(cfg), es).peak <= 1
    ensures |Exec(Initial(cfg), es).pool.all| <= cfg.maxConns
  {
    CapacityInEveryRun(Initial(cfg), es);
  }

  // ---- The bound is tight ----

  /** An open pool of `size` checked-out connections, nothing free, `flying` connects pending. */
  predicate Busy(w: World, size: nat, flying: nat, peak: nat) {
    && !w.pool.shuttingDown && w.pool.free == []
    && |w.pool.all| == size && w.acquiring == flying && w.warming == [] && w.peak == peak
  }

  function Repeat(e: Event, n: nat): (r: seq<Event>)
    ensures |r| == n
  {
    if n == 0 then [] else [e] + Repeat(e, n - 1)
  }

  /** `n` acquires in turn, each waiting for its connect. */
  function InTurn(n: nat): seq<Event> {
    if n == 0 then [] else [Acquire(0), ConnectOk(0)] + InTurn(n - 1)
  }

  lemma {:induction false} LegalAppend(w: World, es: seq<Event>, fs: seq<Event>)
    requires Legal(w, es) && Legal(Exec(w, es), fs)
    ensures Legal(w, es + fs) && Exec(w, es + fs) == Exec(Exec(w, es), fs)
    decreases |es|
  {
    hide Step, Enabled;
    if es == [] {
      assert es + fs == fs;
    } else {
      assert (es + fs)[1..] == es[1..] + fs;
      LegalAppend(Step(w, es[0]), es[1..], fs);
    }
  }

  lemma {:induction false} GrowInTurn(w: World, n: nat)
    requires Busy(w, |w.pool.all|, 0, w.peak) && w.peak <= 1
    requires |w.pool.all| + n <= w.pool.cfg.maxConns
    ensures Legal(w, InTurn(n))
    ensures var w' := Exec(w, InTurn(n));
            Busy(w', |w.pool.all| + n, 0, w'.peak) && w'.peak <= 1 && w'.pool.cfg == w.pool.cfg
    decreases n
  {
    if n > 0 {
      var es := InTurn(n);
      var w1 := Step(w, es[0]);
      var w2 := Step(w1, es[1]);
      assert Busy(w2, |w.pool.all| + 1, 0, 1);
      GrowInTurn(w2, n - 1);
      assert es[1..][1..] == InTurn(n - 1);
      assert Legal(w1, es[1..]);
      assert Exec(w1, es[1..]) == Exec(w2, InTurn(n - 1));
    }
  }

  lemma {:induction false} StartTogether(w: World, n: nat)
    requires Busy(w, |w.pool.all|, w.acquiring, w.peak) && w.peak <= w.acquiring + n
    requires w.acquiring <= w.peak && |w.pool.all| < w.pool.cfg.maxConns
    ensures Legal(w, Repeat(Acquire(0), n))
    ensures var w' := Exec(w, Repeat(Acquire(0), n));
            Busy(w', |w.pool.all|, w.acquiring + n, w.acquiring + n) && w'.pool.cfg == w.pool.cfg
    decreases n
  {
    if n > 0 {
      StartTogether(Step(w, Acquire(0)), n - 1);
    }
  }

  lemma {:induction false} FinishTogether(w: World, n: nat)
    requires Busy(w, |w.pool.all|, n, w.peak)
    ensures Legal(w, Repeat(ConnectOk(0), n))
    ensures Busy(Exec(w, Repeat(ConnectOk(0), n)), |w.pool.all| + n, 0, w.peak)
    decreases n
  {
    if n > 0 {
      FinishTogether(Step(w, ConnectOk(0)), n - 1);
    }
  }

  /** max - 1 acquires in turn, then n overlapping ones. */
  function Overshoot(maxConns: nat, n: nat): seq<Event>
    requires maxConns >= 1
  {
    InTurn(maxConns - 1) + (Repeat(Acquire(0), n) + Repeat(ConnectOk(0), n))
  }

  /** For every maximum and every degree of overlap, some run reaches the bound exactly. */
  lemma CapacityIsTight(cfg: PoolConfig, n: nat)
    requires cfg.maxConns >= 1 && n >= 1
    ensures Legal(Initial(cfg), Overshoot(cfg.maxConns, n))
    ensures var w := Exec(Initial(cfg), Overshoot(cfg.maxConns, n));
            w.peak == n && |w.pool.all| == cfg.maxConns - 1 + n
  {
    var w0 := Initial(cfg);
    assert Busy(w0, 0, 0, 0);
    GrowInTurn(w0, cfg.maxConns - 1);
    var w1 := Exec(w0, InTurn(cfg.maxConns - 1));
    StartTogether(w1, n);
    var w2 := Exec(w1, Repeat(Acquire(0), n));
    FinishTogether(w2, n);
    LegalAppend(w1, Repeat(Acquire(0), n), Repeat(ConnectOk(0), n));
    LegalAppend(w0, InTurn(cfg.maxConns - 1), Repeat(Acquire(0), n) + Repeat(ConnectOk(0), n));
  }

  // ---- Stranded waiters ----

  /** A waiter queues only while nothing is free and the pool is full. */
  predicate NobodyStranded(p: PoolState) {
    p.waiters != [] ==> !p.shuttingDown && p.free == [] && |p.all| >= p.cfg.maxConns
  }

  /** The release of an active connection that closes it instead of reusing it. */
  predicate Closes(w: World, e: Event)
    requires Enabled(w, e)
  {
    match e
    case RunRelease(c, open, _) => c in w.pool.active && !(w.releasing[c] && open)
    case StrayRelease(c, healthy, open, _) => c in w.pool.active && !(healthy && open)
    case _ => false
  }

  /** The two moves that leave a waiter queued beside usable capacity. */
  predicate Strands(w: World, e: Event)
    requires Enabled(w, e)
  {
    w.pool.waiters != [] && (e.WarmOk? || (Closes(w, e) && |w.pool.all| <= w.pool.cfg.maxConns))
  }

  /** One step strands a waiter exactly when it is one of those two moves. */
  lemma StrandedExactlyBy(w: World, e: Event)
    requires Enabled(w, e) && Structure(w.pool) && WaiterProtocol(w) && NobodyStranded(w.pool)
    ensures NobodyStranded(Step(w, e).pool) <==> !Strands(w, e)
  {
    hide Erase, ReapStep, ReleaseStep;
    match e
    case Reap(now) => ReapStrandsNobody(w.pool, now);
    case RunRelease(c, open, now) => CloseOrReuse(w.pool, c, w.releasing[c], open, now);
    case StrayRelease(c, healthy, open, now) => CloseOrReuse(w.pool, c, healthy, open, now);
    case _ =>
  }

  lemma ReapStrandsNobody(p: PoolState, now: int)
    requires Structure(p) && NobodyStranded(p)
    ensures NobodyStranded(ReapStep(p, now))
  {
    if !p.shuttingDown {
      ReapSpec(p, now);
    }
  }

  lemma CloseOrReuse(p: PoolState, c: Conn, healthy: bool, open: bool, now: int)
    requires Structure(p) && NobodyStranded(p)
    ensures NobodyStranded(ReleaseStep(p, c, healthy, open, now)) <==>
            !(p.waiters != [] && c in p.active && !(healthy && open) && |p.all| <= p.cfg.maxConns)
  {
    hide Erase;
  }

  predicate StrandFree(w: World, es: seq<Event>)
    requires Legal(w, es)
    decreases |es|
  {
    es == [] || (!Strands(w, es[0]) && StrandFree(Step(w, es[0]), es[1..]))
  }

  lemma {:induction false} NobodyStrandedInEveryRun(w: World, es: seq<Event>)
    requires Legal(w, es) && StrandFree(w, es)
    requires Structure(w.pool) && WaiterProtocol(w) && NobodyStranded(w.pool)
    ensures NobodyStranded(Exec(w, es).pool)
    decreases |es|
  {
    if es != [] {
      StepKeepsStructure(w, es[0]);
      StepKeepsProtocol(w, es[0]);
      StrandedExactlyBy(w, es[0]);
      NobodyStrandedInEveryRun(Step(w, es[0]), es[1..]);
    }
  }

  // ---- Drain ----

  predicate Quiet(w: World) {
    w.pool.shuttingDown && w.pool.all == [] && w.pool.free == [] && w.pool.active == {} && w.pool.waiters == []
  }

  lemma DrainIsQuiet(w: World)
    ensures Quiet(Step(w, Drain)) && InFlight(Step(w, Drain)) == InFlight(w)
  {
  }

  /** With no connect in flight a drained pool stays empty and refuses every acquire. */
  lemma {:induction false} QuietForever(w: World, es: seq<Event>)
    requires Legal(w, es) && Quiet(w) && InFlight(w) == 0
    ensures Quiet(Exec(w, es)) && InFlight(Exec(w, es)) == 0
    ensures forall now :: AcquireStep(Exec(w, es).pool, now) == (Exec(w, es).pool, Rejected)
    decreases |es|
  {
    if es != [] {
      assert Quiet(Step(w, es[0])) && InFlight(Step(w, es[0])) == 0;
      QuietForever(Step(w, es[0]), es[1..]);
    }
  }

  ghost predicate StaysQuiet(w: World) {
    forall es :: Legal(w, es) ==> Quiet(Exec(w, es))
  }

  /** Drain is absorbing exactly when no connect was in flight across it. */
  lemma DrainAbsorbsExactlyWhenIdle(w: World)
    ensures StaysQuiet(Step(w, Drain)) <==> InFlight(w) == 0
  {
    var d := Step(w, Drain);
    DrainIsQuiet(w);
    if InFlight(w) == 0 {
      forall es | Legal(d, es) ensures Quiet(Exec(d, es)) {
        QuietForever(d, es);
      }
    } else {
      var e: Event;
      if d.acquiring > 0 {
        e := ConnectOk(0);
      } else {
        e := WarmOk(d.warming[0], 0);
      }
      var es := [e];
      assert es[1..] == [];
      assert Legal(Step(d, e), []);
      assert Legal(d, es) && Exec(d, es) == Exec(Step(d, e), []) == Step(d, e);
      assert !Quiet(Exec(d, es));
    }
  }

  lemma NothingNewAfterDrain(w: World, e: Event)
    requires Enabled(w, e) && w.pool.shuttingDown
    ensures var w' := Step(w, e);
            w'.pool.shuttingDown && |w'.pool.all| + InFlight(w') <= |w.pool.all| + InFlight(w)
  {
    hide AcquireStep, ReleaseStep, ReapLoop, Erase;
    match e
    case Acquire(now) => AcquireSizes(w.pool, now);
    case RunRelease(c, open, now) => ReleaseSizes(w.pool, c, w.releasing[c], open, now);
    case StrayRelease(c, healthy, open, now) => ReleaseSizes(w.pool, c, healthy, open, now);
    case Reap(now) => ReapShrinks(w.pool, w.pool.free, w.pool.all, now);
    case _ =>
  }

  /** Otherwise at most the connects that were in flight are tracked again. */
  lemma {:induction false} DrainLeavesAtMostInFlight(w: World, es: seq<Event>)
    requires Legal(w, es) && w.pool.shuttingDown
    ensures Exec(w, es).pool.shuttingDown
    ensures |Exec(w, es).pool.all| + InFlight(Exec(w, es)) <= |w.pool.all| + InFlight(w)
    decreases |es|
  {
    if es != [] {
      NothingNewAfterDrain(w, es[0]);
      DrainLeavesAtMostInFlight(Step(w, es[0]), es[1..]);
    }
  }
}
