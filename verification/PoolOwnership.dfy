/** Who holds each active connection, and which waiter a released one reaches. */
module PoolOwnership {
  import opened Seqs
  import opened PoolSteps
  import opened PoolRuns

  /**
   Active connections are in bijection with their owners: a client, a release
   queued on the strand, or one woken waiter that holds the connection as its result.
  */
  ghost predicate Owned(active: set<Conn>, clients: set<Conn>, releasing: set<Conn>, handed: map<Waiter, Conn>) {
    && clients !! releasing
    && (forall x :: x in handed ==> handed[x] !in clients && handed[x] !in releasing)
    && (forall x, y :: x in handed && y in handed && x != y ==> handed[x] != handed[y])
    && (forall c :: c in active <==> c in clients || c in releasing || c in handed.Values)
  }

  ghost predicate Ownership(w: World) {
    w.pool.shuttingDown || Owned(w.pool.active, w.clients, w.releasing.Keys, w.pool.handed)
  }

  /** Clients release only what they hold; a release of anything else finds it inactive. */
  predicate Disciplined(w: World, e: Event) {
    e.StrayRelease? ==> e.c !in w.pool.active
  }

  predicate DisciplinedRun(w: World, es: seq<Event>)
    requires Legal(w, es)
    decreases |es|
  {
    es == [] || (Disciplined(w, es[0]) && DisciplinedRun(Step(w, es[0]), es[1..]))
  }

  lemma OwnedRelease(w: World, c: Conn, healthy: bool, open: bool, now: int)
    requires Structure(w.pool) && WaiterProtocol(w) && !w.pool.shuttingDown
    requires Owned(w.pool.active, w.clients, w.releasing.Keys, w.pool.handed)
    requires c in w.releasing
    ensures var q := ReleaseStep(w.pool, c, healthy, open, now);
            Owned(q.active, w.clients, w.releasing.Keys - {c}, q.handed)
  {
    var p := w.pool;
    if HandsOff(p, c, healthy, open) {
      var x := p.waiters[0];
      assert x in p.waiters && x !in p.handed;
      var h := p.handed[x := c];
      assert forall y :: y in p.handed ==> h[y] == p.handed[y] && h[y] in h.Values;
      assert h[x] in h.Values;
    }
  }

  lemma OwnedResume(active: set<Conn>, clients: set<Conn>, releasing: set<Conn>, handed: map<Waiter, Conn>, x: Waiter)
    requires Owned(active, clients, releasing, handed) && x in handed
    ensures Owned(active, clients + {handed[x]}, releasing, handed - {x})
  {
    var h := handed - {x};
    assert forall y :: y in h ==> h[y] in h.Values;
    assert forall y :: y in handed && y != x ==> y in h && h[y] == handed[y];
  }

  lemma OwnedGrant(active: set<Conn>, clients: set<Conn>, releasing: set<Conn>, handed: map<Waiter, Conn>, c: Conn)
    requires Owned(active, clients, releasing, handed) && c !in active
    ensures Owned(active + {c}, clients + {c}, releasing, handed)
  {
    assert forall x :: x in handed ==> handed[x] in handed.Values;
  }

  lemma OwnedCall(active: set<Conn>, clients: set<Conn>, releasing: set<Conn>, handed: map<Waiter, Conn>, c: Conn)
    requires Owned(active, clients, releasing, handed) && c in clients
    ensures Owned(active, clients - {c}, releasing + {c}, handed)
  {
  }

  lemma AcquireKeepsOwnership(w: World, now: int)
    requires Structure(w.pool) && Ownership(w)
    ensures Ownership(AcquireEvent(w, now))
  {
    if !w.pool.shuttingDown && w.pool.free != [] {
      OwnedGrant(w.pool.active, w.clients, w.releasing.Keys, w.pool.handed, w.pool.free[0]);
    }
  }

  lemma ConnectKeepsOwnership(w: World, now: int)
    requires Structure(w.pool) && Ownership(w) && w.acquiring > 0
    ensures Ownership(Step(w, ConnectOk(now)))
  {
    if !w.pool.shuttingDown {
      OwnedGrant(w.pool.active, w.clients, w.releasing.Keys, w.pool.handed, w.pool.nextConn);
    }
  }

  lemma ResumeKeepsOwnership(w: World, x: Waiter)
    requires Ownership(w)
    ensures Ownership(ResumeEvent(w, x))
  {
    if !w.pool.shuttingDown && x in w.pool.handed {
      OwnedResume(w.pool.active, w.clients, w.releasing.Keys, w.pool.handed, x);
    }
  }

  lemma CallKeepsOwnership(w: World, c: Conn, healthy: bool)
    requires Ownership(w) && c in w.clients
    ensures Ownership(Step(w, CallRelease(c, healthy)))
  {
    if !w.pool.shuttingDown {
      OwnedCall(w.pool.active, w.clients, w.releasing.Keys, w.pool.handed, c);
      assert w.releasing[c := healthy].Keys == w.releasing.Keys + {c};
    }
  }

  lemma RunKeepsOwnership(w: World, c: Conn, open: bool, now: int)
    requires Structure(w.pool) && WaiterProtocol(w) && Ownership(w) && c in w.releasing
    ensures Ownership(Step(w, RunRelease(c, open, now)))
  {
    if !w.pool.shuttingDown {
      OwnedRelease(w, c, w.releasing[c], open, now);
      hide Owned, ReleaseStep, Structure, WaiterProtocol;
      assert (w.releasing - {c}).Keys == w.releasing.Keys - {c};
      assert Step(w, RunRelease(c, open, now)).pool == ReleaseStep(w.pool, c, w.releasing[c], open, now);
    }
  }

  lemma StepKeepsOwnership(w: World, e: Event)
    requires Enabled(w, e) && Disciplined(w, e)
    requires Structure(w.pool) && WaiterProtocol(w) && Ownership(w)
    ensures Ownership(Step(w, e))
  {
    hide Structure, WaiterProtocol, Owned;
    match e
    case Acquire(now) => AcquireKeepsOwnership(w, now);
    case ConnectOk(now) => ConnectKeepsOwnership(w, now);
    case Resume(x) => ResumeKeepsOwnership(w, x);
    case CallRelease(c, healthy) => CallKeepsOwnership(w, c, healthy);
    case RunRelease(c, open, now) => RunKeepsOwnership(w, c, open, now);
    case _ =>
  }

  lemma {:induction false} OwnershipInEveryRun(w: World, es: seq<Event>)
    requires Legal(w, es) && DisciplinedRun(w, es)
    requires Structure(w.pool) && WaiterProtocol(w) && Ownership(w)
    ensures Ownership(Exec(w, es))
    decreases |es|
  {
    if es != [] {
      StepKeepsStructure(w, es[0]);
      StepKeepsProtocol(w, es[0]);
      StepKeepsOwnership(w, es[0]);
      OwnershipInEveryRun(Step(w, es[0]), es[1..]);
    }
  }

  /** All of it, from the empty pool. */
  lemma PoolInvariants(cfg: PoolConfig, es: seq<Event>)
    requires Legal(Initial(cfg), es) && DisciplinedRun(Initial(cfg), es)
    ensures var w := Exec(Initial(cfg), es);
            Structure(w.pool) && WaiterProtocol(w) && Ownership(w)
  {
    StructureInEveryRun(Initial(cfg), es);
    WaiterProtocolInEveryRun(Initial(cfg), es);
    OwnershipInEveryRun(Initial(cfg), es);
  }

  /** A hand-off goes to the earliest waiter still queued, and nobody else's result changes. */
  lemma HandOffReachesEarliest(w: World, c: Conn, healthy: bool, open: bool, now: int, x: Waiter)
    requires WaiterProtocol(w)
    requires x in ReleaseStep(w.pool, c, healthy, open, now).handed && x !in w.pool.handed
    ensures var q := ReleaseStep(w.pool, c, healthy, open, now);
            && x in w.pool.waiters && x !in q.waiters
            && (forall y :: y in w.pool.waiters ==> x <= y)
            && (forall y :: y in w.pool.waiters && y != x ==> y in q.waiters)
            && q.handed == w.pool.handed[x := c] && c in q.active && q.free == w.pool.free
  {
    var ws := w.pool.waiters;
    assert x == ws[0] && ws == [ws[0]] + ws[1..];
    assert forall y :: y in ws[1..] ==> ws[0] < y;
  }

  // ---- A hand-off is never lost ----

  lemma HandedKeptByStep(w: World, e: Event, x: Waiter)
    requires Enabled(w, e) && WaiterProtocol(w) && x in w.pool.handed && e != Resume(x)
    ensures var w' := Step(w, e);
            x in w'.pool.handed && w'.pool.handed[x] == w.pool.handed[x] && x in w'.woken
  {
    match e
    case RunRelease(c, open, now) => ReleaseKeepsHanded(w.pool, c, w.releasing[c], open, now, x);
    case StrayRelease(c, healthy, open, now) => ReleaseKeepsHanded(w.pool, c, healthy, open, now, x);
    case _ =>
  }

  lemma ReleaseKeepsHanded(p: PoolState, c: Conn, healthy: bool, open: bool, now: int, x: Waiter)
    requires x in p.handed && x !in p.waiters
    ensures var q := ReleaseStep(p, c, healthy, open, now); x in q.handed && q.handed[x] == p.handed[x]
  {
  }

  /** Until its coroutine resumes, a waiter keeps the connection handed to it and stays woken, whatever else happens. */
  lemma {:induction false} HandedUntilResumed(w: World, es: seq<Event>, x: Waiter)
    requires Legal(w, es) && WaiterProtocol(w) && x in w.pool.handed && Resume(x) !in es
    ensures var w' := Exec(w, es);
            WaiterProtocol(w') && x in w'.pool.handed && w'.pool.handed[x] == w.pool.handed[x] && x in w'.woken
    decreases |es|
  {
    hide Step, WaiterProtocol;
    if es == [] {
      HandedIsWoken(w, x);
    } else {
      HandedKeptByStep(w, es[0], x);
      StepKeepsProtocol(w, es[0]);
      HandedUntilResumed(Step(w, es[0]), es[1..], x);
    }
  }

  lemma HandedIsWoken(w: World, x: Waiter)
    requires WaiterProtocol(w) && x in w.pool.handed
    ensures x in w.woken
  {
  }

  /**
   A hand-off is not lost: whether or not the waiter's timer has expired by then,
   and whatever happens before its coroutine resumes, the acquire returns the
   released connection and its caller owns it.
  */
  lemma LateReleaseIsNotLost(w: World, c: Conn, open: bool, now: int, es: seq<Event>)
    requires WaiterProtocol(w) && c in w.releasing && HandsOff(w.pool, c, w.releasing[c], open)
    requires Legal(Step(w, RunRelease(c, open, now)), es) && Resume(w.pool.waiters[0]) !in es
    ensures var x, w' := w.pool.waiters[0], Exec(Step(w, RunRelease(c, open, now)), es);
            && Enabled(w', Resume(x))
            && var w'' := Step(w', Resume(x));
               && x in w''.ended && w''.ended[x] == Acquired(c) && c in w''.clients
               && x !in w''.pool.waiters && x !in w''.pool.handed
  {
    hide WaiterProtocol;
    var x, w1 := w.pool.waiters[0], Step(w, RunRelease(c, open, now));
    assert x in w1.pool.handed && w1.pool.handed[x] == c;
    StepKeepsProtocol(w, RunRelease(c, open, now));
    HandedUntilResumed(w1, es, x);
    ReturnsHanded(Exec(w1, es), x);
  }

  lemma ReturnsHanded(w: World, x: Waiter)
    requires WaiterProtocol(w) && x in w.pool.handed
    ensures Enabled(w, Resume(x))
    ensures var w', c := Step(w, Resume(x)), w.pool.handed[x];
            && x in w'.ended && w'.ended[x] == Acquired(c) && c in w'.clients
            && x !in w'.pool.waiters && x !in w'.pool.handed
            && w'.pool.active == w.pool.active && w'.pool.all == w.pool.all
  {
  }

  // ---- When a handed connection is alive ----

  /** Handed connections exist, and after drain the pool knows none of them any more. */
  ghost predicate HandedAge(handed: map<Waiter, Conn>, next: Conn, drained: bool, active: set<Conn>, free: seq<Conn>) {
    forall x :: x in handed ==> handed[x] < next && (drained ==> handed[x] !in active && handed[x] !in free)
  }

  ghost predicate HandedAges(p: PoolState) { HandedAge(p.handed, p.nextConn, p.shuttingDown, p.active, p.free) }

  lemma ReleaseKeepsAges(p: PoolState, c: Conn, healthy: bool, open: bool, now: int)
    requires Structure(p) && HandedAges(p)
    ensures HandedAges(ReleaseStep(p, c, healthy, open, now))
  {
    if c in p.active {
      assert c in p.all;
    }
  }

  lemma AcquireKeepsAges(p: PoolState, now: int)
    requires HandedAges(p)
    ensures HandedAges(AcquireStep(p, now).0)
  {
  }

  lemma GrowthKeepsAges(p: PoolState, now: int)
    requires HandedAges(p)
    ensures HandedAges(ConnectedStep(p, now)) && HandedAges(WarmedStep(p, now))
  {
  }

  lemma ShrinkageKeepsAges(p: PoolState, now: int, x: Waiter)
    requires HandedAges(p)
    ensures HandedAges(ReapStep(p, now)) && HandedAges(DrainStep(p)) && HandedAges(ResumeStep(p, x).0)
  {
    if p.shuttingDown {
      assert ReapStep(p, now) == p;
    }
  }

  lemma StepKeepsAges(w: World, e: Event)
    requires Enabled(w, e) && Structure(w.pool) && HandedAges(w.pool)
    ensures HandedAges(Step(w, e).pool)
  {
    hide Structure, HandedAges, AcquireStep, ConnectedStep, ReleaseStep, WarmedStep, ReapStep, DrainStep, ResumeStep;
    match e
    case Acquire(now) => AcquireKeepsAges(w.pool, now);
    case ConnectOk(now) => GrowthKeepsAges(w.pool, now);
    case WarmOk(i, now) => GrowthKeepsAges(w.pool, now);
    case RunRelease(c, open, now) => ReleaseKeepsAges(w.pool, c, w.releasing[c], open, now);
    case StrayRelease(c, healthy, open, now) => ReleaseKeepsAges(w.pool, c, healthy, open, now);
    case Reap(now) => ShrinkageKeepsAges(w.pool, now, 0);
    case Drain => ShrinkageKeepsAges(w.pool, 0, 0);
    case Resume(x) => ShrinkageKeepsAges(w.pool, 0, x);
    case _ =>
  }

  lemma {:induction false} AgesInEveryRun(w: World, es: seq<Event>)
    requires Legal(w, es) && Structure(w.pool) && HandedAges(w.pool)
    ensures HandedAges(Exec(w, es).pool)
    decreases |es|
  {
    hide Step, Structure, HandedAges;
    if es != [] {
      StepKeepsStructure(w, es[0]);
      StepKeepsAges(w, es[0]);
      AgesInEveryRun(Step(w, es[0]), es[1..]);
    }
  }

  /**
   In every reachable state a connection handed to a waiter is one of the pool's
   active connections if and only if the pool has not been drained.
  */
  lemma HandedIsLiveExactlyBeforeDrain(cfg: PoolConfig, es: seq<Event>, x: Waiter)
    requires Legal(Initial(cfg), es) && DisciplinedRun(Initial(cfg), es)
    requires x in Exec(Initial(cfg), es).pool.handed
    ensures var p := Exec(Initial(cfg), es).pool;
            && (p.handed[x] in p.active <==> !p.shuttingDown)
            && (p.handed[x] in p.all <==> !p.shuttingDown)
  {
    PoolInvariants(cfg, es);
    AgesInEveryRun(Initial(cfg), es);
    var p := Exec(Initial(cfg), es).pool;
    assert p.handed[x] in p.handed.Values;
  }

  /** So an acquire that resumes returns a connection the pool still tracks if and only if no drain came before. */
  lemma ResumedConnectionIsLiveExactlyBeforeDrain(cfg: PoolConfig, es: seq<Event>, x: Waiter)
    requires Legal(Initial(cfg), es) && DisciplinedRun(Initial(cfg), es)
    requires x in Exec(Initial(cfg), es).pool.handed
    ensures var w := Exec(Initial(cfg), es);
            && Enabled(w, Resume(x))
            && var w' := Step(w, Resume(x));
               && x in w'.ended && w'.ended[x].Acquired?
               && (w'.ended[x].conn in w'.pool.all <==> !w.pool.shuttingDown)
  {
    HandedIsLiveExactlyBeforeDrain(cfg, es, x);
    WaiterProtocolInEveryRun(Initial(cfg), es);
    hide WaiterProtocol, Step;
    ReturnsHanded(Exec(Initial(cfg), es), x);
  }

  // ---- How long a client's connection exists ----

  /** The event calls release for `c`. */
  predicate Calls(e: Event, c: Conn) { e.CallRelease? && e.c == c }

  predicate NeverCalls(es: seq<Event>, c: Conn) { forall e :: e in es ==> !Calls(e, c) }

  /** The invariants that hold in every reachable state. */
  ghost predicate Reachable(w: World) { Structure(w.pool) && WaiterProtocol(w) && Ownership(w) }

  lemma StepKeepsReachable(w: World, e: Event)
    requires Enabled(w, e) && Disciplined(w, e) && Reachable(w)
    ensures Reachable(Step(w, e))
  {
    hide Structure, WaiterProtocol, Ownership, Step;
    StepKeepsStructure(w, e);
    StepKeepsProtocol(w, e);
    StepKeepsOwnership(w, e);
  }

  lemma OwnedIsTracked(w: World, c: Conn)
    requires Reachable(w) && !w.pool.shuttingDown && (c in w.clients || c in w.releasing)
    ensures c in w.pool.active && c in w.pool.all && c < w.pool.nextConn
  {
  }

  lemma ClientsKeepTheirs(w: World, e: Event, c: Conn)
    requires Enabled(w, e) && c in w.clients && !Calls(e, c)
    ensures c in Step(w, e).clients
    ensures e != Drain ==> Step(w, e).pool.shuttingDown == w.pool.shuttingDown
  {
    hide Erase, ReapLoop, ReleaseStep;
    match e
    case RunRelease(d, open, now) => ReleaseSizes(w.pool, d, w.releasing[d], open, now);
    case StrayRelease(d, healthy, open, now) => ReleaseSizes(w.pool, d, healthy, open, now);
    case _ =>
  }

  /** An identity once given out that the pool does not track. */
  predicate Gone(p: PoolState, c: Conn) { c < p.nextConn && c !in p.all }

  lemma ReleaseKeepsGone(p: PoolState, d: Conn, healthy: bool, open: bool, now: int, c: Conn)
    requires Structure(p) && Gone(p, c)
    ensures Gone(ReleaseStep(p, d, healthy, open, now), c)
  {
    EraseMembers(p.all, d);
  }

  lemma ReapKeepsGone(p: PoolState, now: int, c: Conn)
    requires Structure(p) && Gone(p, c)
    ensures Gone(ReapStep(p, now), c)
  {
    if !p.shuttingDown {
      ReapSpec(p, now);
    }
  }

  lemma OthersKeepGone(p: PoolState, now: int, x: Waiter, c: Conn)
    requires Gone(p, c)
    ensures Gone(AcquireStep(p, now).0, c) && Gone(ConnectedStep(p, now), c) && Gone(WarmedStep(p, now), c)
    ensures Gone(DrainStep(p), c) && Gone(ResumeStep(p, x).0, c)
  {
  }

  /** A connection the pool no longer tracks never comes back: identities are not reused. */
  lemma GoneStaysGoneStep(w: World, e: Event, c: Conn)
    requires Enabled(w, e) && Structure(w.pool) && Gone(w.pool, c)
    ensures Gone(Step(w, e).pool, c)
  {
    hide Structure, Gone, AcquireStep, ConnectedStep, ReleaseStep, WarmedStep, ReapStep, DrainStep, ResumeStep;
    match e
    case Acquire(now) => OthersKeepGone(w.pool, now, 0, c);
    case ConnectOk(now) => OthersKeepGone(w.pool, now, 0, c);
    case WarmOk(i, now) => OthersKeepGone(w.pool, now, 0, c);
    case RunRelease(d, open, now) => ReleaseKeepsGone(w.pool, d, w.releasing[d], open, now, c);
    case StrayRelease(d, healthy, open, now) => ReleaseKeepsGone(w.pool, d, healthy, open, now, c);
    case Reap(now) => ReapKeepsGone(w.pool, now, c);
    case Drain => OthersKeepGone(w.pool, 0, 0, c);
    case Resume(x) => OthersKeepGone(w.pool, 0, x, c);
    case _ =>
  }

  lemma {:induction false} GoneStaysGone(w: World, es: seq<Event>, c: Conn)
    requires Legal(w, es) && Structure(w.pool) && Gone(w.pool, c)
    ensures Gone(Exec(w, es).pool, c)
    decreases |es|
  {
    hide Structure, Step, Gone;
    if es != [] {
      StepKeepsStructure(w, es[0]);
      GoneStaysGoneStep(w, es[0], c);
      GoneStaysGone(Step(w, es[0]), es[1..], c);
    }
  }

  lemma DrainTracksNothing(w: World)
    ensures Step(w, Drain).pool.all == [] && Step(w, Drain).pool.nextConn == w.pool.nextConn
  {
  }

  /** As long as its client does not call release, a connection exists exactly until the pool is drained. */
  lemma {:induction false} HeldConnectionLivesExactlyUntilDrain(w: World, es: seq<Event>, c: Conn)
    requires Legal(w, es) && DisciplinedRun(w, es) && Reachable(w) && !w.pool.shuttingDown
    requires c in w.clients && NeverCalls(es, c)
    ensures c in Exec(w, es).pool.all <==> Drain !in es
    decreases |es|
  {
    hide Reachable, Step;
    OwnedIsTracked(w, c);
    if es != [] {
      var e := es[0];
      assert es == [e] + es[1..] && e in es;
      StepKeepsReachable(w, e);
      if e == Drain {
        DrainTracksNothing(w);
        ReachableStructure(Step(w, e));
        GoneStaysGone(Step(w, e), es[1..], c);
      } else {
        ClientsKeepTheirs(w, e, c);
        HeldConnectionLivesExactlyUntilDrain(Step(w, e), es[1..], c);
      }
    }
  }

  lemma ReachableStructure(w: World)
    requires Reachable(w)
    ensures Structure(w.pool)
  {
  }

  /** In no continuation without drain, and without a call of release for `c`, is `c` lost. */
  ghost predicate SafeToWrite(w: World, c: Conn) {
    forall es :: Legal(w, es) && DisciplinedRun(w, es) && Drain !in es && NeverCalls(es, c) ==> c in Exec(w, es).pool.all
  }

  /**
   Writing to a connection, as the query counter is written after release was called,
   is safe against every continuation exactly while the writer is its client: from
   the call on its release may close it at any moment.
  */
  lemma SafeToWriteExactlyWhileHeld(w: World, c: Conn)
    requires Reachable(w) && !w.pool.shuttingDown && (c in w.clients || c in w.releasing)
    ensures SafeToWrite(w, c) <==> c in w.clients
  {
    if c in w.clients {
      forall es | Legal(w, es) && DisciplinedRun(w, es) && Drain !in es && NeverCalls(es, c)
        ensures c in Exec(w, es).pool.all
      {
        HeldConnectionLivesExactlyUntilDrain(w, es, c);
      }
    } else {
      ClosedRelease(w, c);
    }
  }

  lemma ClosedRelease(w: World, c: Conn)
    requires Reachable(w) && !w.pool.shuttingDown && c in w.releasing
    ensures !SafeToWrite(w, c)
  {
    hide Structure, WaiterProtocol;
    var e := RunRelease(c, false, 0);
    var es := [e];
    var w' := Step(w, e);
    OwnedIsTracked(w, c);
    EraseOnce(w.pool, c);
    assert c !in w'.pool.all;
    assert es[1..] == [];
    assert Legal(w', []) && DisciplinedRun(w', []);
    assert Legal(w, es) && DisciplinedRun(w, es) && Exec(w, es) == Exec(w', []) == w';
  }

  /** A healthy, open connection is no exception: drained, or reaped once it is free, it is gone as well. */
  lemma HealthyReleaseMayBeLost(w: World, c: Conn, now: int)
    requires Reachable(w) && !w.pool.shuttingDown && c in w.releasing
    ensures var es := [Drain, RunRelease(c, true, now)];
            Legal(w, es) && c !in Exec(w, es).pool.all
  {
    hide Structure, WaiterProtocol;
    var es := [Drain, RunRelease(c, true, now)];
    var w1 := Step(w, es[0]);
    var w2 := Step(w1, es[1]);
    assert es[1..] == [es[1]] && es[1..][1..] == [];
    assert Legal(w2, []);
    assert Legal(w1, [es[1]]);
    assert Exec(w1, [es[1]]) == Exec(w2, []) == w2;
  }

  lemma EraseOnce(p: PoolState, c: Conn)
    requires Structure(p)
    ensures c !in Erase(p.all, c)
  {
    EraseMembers(p.all, c);
  }

  // ---- A closed connection is never handed out again ----

  /** The pool has let go of `c`, no waiter holds it and no client does. */
  ghost predicate LetGo(p: PoolState, clients: set<Conn>, c: Conn) {
    Gone(p, c) && c !in clients && forall x :: x in p.handed ==> p.handed[x] != c
  }

  lemma ReleaseKeepsLetGo(p: PoolState, clients: set<Conn>, d: Conn, healthy: bool, open: bool, now: int, c: Conn)
    requires Structure(p) && LetGo(p, clients, c)
    ensures LetGo(ReleaseStep(p, d, healthy, open, now), clients, c)
  {
    ReleaseKeepsGone(p, d, healthy, open, now, c);
    if d in p.active {
      assert d in p.all;
    }
  }

  lemma AcquireKeepsLetGo(w: World, now: int, c: Conn)
    requires Structure(w.pool) && LetGo(w.pool, w.clients, c)
    ensures LetGo(AcquireEvent(w, now).pool, AcquireEvent(w, now).clients, c)
  {
    if !w.pool.shuttingDown && w.pool.free != [] {
      assert w.pool.free[0] in w.pool.all;
    }
  }

  lemma OthersKeepLetGo(p: PoolState, clients: set<Conn>, now: int, c: Conn)
    requires LetGo(p, clients, c)
    ensures LetGo(ConnectedStep(p, now), clients + {p.nextConn}, c) && LetGo(WarmedStep(p, now), clients, c)
    ensures LetGo(DrainStep(p), clients, c)
  {
  }

  lemma ResumeKeepsLetGo(w: World, x: Waiter, c: Conn)
    requires LetGo(w.pool, w.clients, c)
    ensures LetGo(ResumeEvent(w, x).pool, ResumeEvent(w, x).clients, c)
  {
  }

  lemma ReapKeepsLetGo(p: PoolState, clients: set<Conn>, now: int, c: Conn)
    requires Structure(p) && LetGo(p, clients, c)
    ensures LetGo(ReapStep(p, now), clients, c)
  {
    ReapKeepsGone(p, now, c);
  }

  lemma CallKeepsLetGo(p: PoolState, clients: set<Conn>, d: Conn, c: Conn)
    requires LetGo(p, clients, c)
    ensures LetGo(p, clients - {d}, c)
  {
  }

  lemma StepKeepsLetGo(w: World, e: Event, c: Conn)
    requires Enabled(w, e) && Structure(w.pool) && LetGo(w.pool, w.clients, c)
    ensures LetGo(Step(w, e).pool, Step(w, e).clients, c)
  {
    hide Structure, LetGo, AcquireEvent, ResumeEvent, ConnectedStep, ReleaseStep, WarmedStep, ReapStep, DrainStep;
    match e
    case Acquire(now) => AcquireKeepsLetGo(w, now, c);
    case RunRelease(d, open, now) => ReleaseKeepsLetGo(w.pool, w.clients, d, w.releasing[d], open, now, c);
    case StrayRelease(d, healthy, open, now) => ReleaseKeepsLetGo(w.pool, w.clients, d, healthy, open, now, c);
    case ConnectOk(now) => OthersKeepLetGo(w.pool, w.clients, now, c);
    case WarmOk(_, now) => OthersKeepLetGo(w.pool, w.clients, now, c);
    case Drain => OthersKeepLetGo(w.pool, w.clients, 0, c);
    case Resume(x) => ResumeKeepsLetGo(w, x, c);
    case CallRelease(d, _) => CallKeepsLetGo(w.pool, w.clients, d, c);
    case Reap(now) => ReapKeepsLetGo(w.pool, w.clients, now, c);
    case _ =>
  }

  lemma {:induction false} LetGoForEver(w: World, es: seq<Event>, c: Conn)
    requires Legal(w, es) && Structure(w.pool) && LetGo(w.pool, w.clients, c)
    ensures LetGo(Exec(w, es).pool, Exec(w, es).clients, c)
    decreases |es|
  {
    hide Structure, Step, LetGo;
    if es != [] {
      StepKeepsStructure(w, es[0]);
      StepKeepsLetGo(w, es[0], c);
      LetGoForEver(Step(w, es[0]), es[1..], c);
    }
  }

  /**
   Once the release of an unhealthy or closed connection has run, no acquire ever
   returns it again: in every continuation it is neither tracked, nor free, nor any
   waiter's result, nor any client's.
  */
  lemma ClosedIsNeverHandedOutAgain(w: World, c: Conn, open: bool, now: int, es: seq<Event>)
    requires Reachable(w) && !w.pool.shuttingDown && c in w.releasing && !(w.releasing[c] && open)
    requires Legal(Step(w, RunRelease(c, open, now)), es)
    ensures var w' := Exec(Step(w, RunRelease(c, open, now)), es);
            && c !in w'.pool.all && c !in w'.clients
            && (forall x :: x in w'.pool.handed ==> w'.pool.handed[x] != c)
  {
    var e := RunRelease(c, open, now);
    var w1 := Step(w, e);
    OwnedIsTracked(w, c);
    ReleaseOutcome(w.pool, c, w.releasing[c], open, now);
    assert LetGo(w1.pool, w1.clients, c);
    StepKeepsStructure(w, e);
    hide Structure, Step, Reachable;
    LetGoForEver(w1, es, c);
  }
}
