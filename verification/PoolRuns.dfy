/**
 The pool among its clients: every interleaving of suspended acquires, woken
 waiters, releases, warming, reaping and draining, as sequences of events.
*/
module PoolRuns {
  import opened Seqs
  import opened PoolSteps

  /**
   The pool together with what runs around it.
     acquiring  acquire coroutines suspended at their connect
     warming    warm coroutines suspended at their connect, by loop counter
     peak       the largest number of overlapping connects so far
     asleep     waiters whose timer is pending
     woken      waiters whose wait completed but whose coroutine has not resumed
     ended      waiters whose acquire returned, and what it returned
     clients    connections handed out by acquire and not yet given to release
     releasing  connections whose release handler is queued on the strand
  */
  datatype World = World(
    pool: PoolState,
    acquiring: nat,
    warming: seq<nat>,
    peak: nat,
    asleep: set<Waiter>,
    woken: set<Waiter>,
    ended: map<Waiter, Outcome>,
    clients: set<Conn>,
    releasing: map<Conn, bool>)

  datatype Event =
    | Acquire(now: int)
    | ConnectOk(now: int)
    | ConnectFail
    | TimerFires(w: Waiter)
    | Resume(w: Waiter)
    | CallRelease(c: Conn, healthy: bool)
    | RunRelease(c: Conn, open: bool, now: int)
    | StrayRelease(c: Conn, healthy: bool, open: bool, now: int)
    | WarmBegin
    | WarmOk(i: nat, now: int)
    | WarmFail(i: nat)
    | Reap(now: int)
    | Drain

  function Initial(cfg: PoolConfig): World {
    World(EmptyPool(cfg), 0, [], 0, {}, {}, map[], {}, map[])
  }

  function InFlight(w: World): nat { w.acquiring + |w.warming| }

  /** Records a new high-water mark of overlapping connects. */
  function Peaked(w: World): World {
    if InFlight(w) > w.peak then w.(peak := InFlight(w)) else w
  }

  /** warm_impl at its loop head: start connect number `i`, or finish. */
  function WarmHead(w: World, i: nat): World {
    if WarmStarts(w.pool, i) then
      Peaked(w.(warming := w.warming + [i]))
    else w
  }

  /** Cancels the timer of a queued waiter: it will resume, whether or not the timer had expired. */
  function Wake(w: World, ws: set<Waiter>): World {
    w.(asleep := w.asleep - ws, woken := w.woken + (w.asleep * ws))
  }

  predicate Enabled(w: World, e: Event) {
    match e
    case Acquire(_) => true
    case ConnectOk(_) => w.acquiring > 0
    case ConnectFail => w.acquiring > 0
    case TimerFires(x) => x in w.asleep
    case Resume(x) => x in w.woken
    case CallRelease(c, _) => c in w.clients
    case RunRelease(c, _, _) => c in w.releasing
    case StrayRelease(_, _, _, _) => true
    case WarmBegin => true
    case WarmOk(i, _) => i in w.warming
    case WarmFail(i) => i in w.warming
    case Reap(_) => true
    case Drain => true
  }

  function AcquireEvent(w: World, now: int): World {
    var (p, r) := AcquireStep(w.pool, now);
    match r
    case Rejected => w
    case Granted(c) => w.(pool := p, clients := w.clients + {c})
    case Connecting => Peaked(w.(acquiring := w.acquiring + 1))
    case Queued(x) => w.(pool := p, asleep := w.asleep + {x})
  }

  function ResumeEvent(w: World, x: Waiter): World {
    var (p, out) := ResumeStep(w.pool, x);
    w.(pool := p,
       woken := w.woken - {x},
       ended := w.ended[x := out],
       clients := if out.Acquired? then w.clients + {out.conn} else w.clients)
  }

  function ReleaseEvent(w: World, c: Conn, healthy: bool, open: bool, now: int): World {
    var w' := w.(pool := ReleaseStep(w.pool, c, healthy, open, now));
    if HandsOff(w.pool, c, healthy, open) then Wake(w', {w.pool.waiters[0]}) else w'
  }

  function Step(w: World, e: Event): World
    requires Enabled(w, e)
  {
    match e
    case Acquire(now) => AcquireEvent(w, now)
    case ConnectOk(now) =>
      w.(pool := ConnectedStep(w.pool, now),
         acquiring := w.acquiring - 1,
         clients := w.clients + {w.pool.nextConn})
    case ConnectFail => w.(acquiring := w.acquiring - 1)
    case TimerFires(x) => w.(asleep := w.asleep - {x}, woken := w.woken + {x})
    case Resume(x) => ResumeEvent(w, x)
    case CallRelease(c, healthy) => w.(clients := w.clients - {c}, releasing := w.releasing[c := healthy])
    case RunRelease(c, open, now) =>
      ReleaseEvent(w.(releasing := w.releasing - {c}), c, w.releasing[c], open, now)
    case StrayRelease(c, healthy, open, now) => ReleaseEvent(w, c, healthy, open, now)
    case WarmBegin => WarmHead(w, 0)
    case WarmOk(i, now) =>
      WarmHead(w.(pool := WarmedStep(w.pool, now), warming := Erase(w.warming, i)), i + 1)
    case WarmFail(i) => w.(warming := Erase(w.warming, i))
    case Reap(now) => w.(pool := ReapStep(w.pool, now))
    case Drain => Wake(w.(pool := DrainStep(w.pool)), Elems(w.pool.waiters))
  }

  predicate Legal(w: World, es: seq<Event>)
    decreases |es|
  {
    es == [] || (Enabled(w, es[0]) && Legal(Step(w, es[0]), es[1..]))
  }

  function Exec(w: World, es: seq<Event>): World
    requires Legal(w, es)
    decreases |es|
  {
    if es == [] then w else Exec(Step(w, es[0]), es[1..])
  }

  // ---- Containers, state fields and counters agree in every reachable state ----

  lemma StepKeepsStructure(w: World, e: Event)
    requires Enabled(w, e) && Structure(w.pool)
    ensures Structure(Step(w, e).pool)
  {
    hide Structure, AcquireStep, ConnectedStep, ReleaseStep, WarmedStep, ReapStep;
    match e
    case Acquire(now) => AcquireKeepsStructure(w.pool, now);
    case ConnectOk(now) => ConnectedKeepsStructure(w.pool, now);
    case RunRelease(c, open, now) => ReleaseKeepsStructure(w.pool, c, w.releasing[c], open, now);
    case StrayRelease(c, healthy, open, now) => ReleaseKeepsStructure(w.pool, c, healthy, open, now);
    case WarmOk(i, now) => WarmedKeepsStructure(w.pool, now);
    case Reap(now) => ReapKeepsStructure(w.pool, now);
    case Drain => DrainKeepsStructure(w.pool);
    case Resume(x) => ResumeKeepsStructure(w.pool, x);
    case _ =>
  }

  /** Whatever the clients do, releases of connections they do not hold included. */
  lemma {:induction false} StructureInEveryRun(w: World, es: seq<Event>)
    requires Legal(w, es) && Structure(w.pool)
    ensures Structure(Exec(w, es).pool)
    decreases |es|
  {
    if es != [] {
      StepKeepsStructure(w, es[0]);
      StructureInEveryRun(Step(w, es[0]), es[1..]);
    }
  }

  // ---- Waiters ----

  /** Queued waiters stand in arrival order. */
  ghost predicate InArrivalOrder(ws: seq<Waiter>, next: Waiter) {
    Ascending(ws) && (forall x :: x in ws ==> x < next)
  }

  ghost predicate Ascending(ws: seq<Waiter>) {
    forall i, j :: 0 <= i < j < |ws| ==> ws[i] < ws[j]
  }

  /**
   Queued waiters never hold a result and are suspended; a waiter holding a
   result has been woken; only queued waiters sleep; and every waiter ever
   created is in exactly one of asleep, woken, ended.
  */
  ghost predicate Protocol(queue: seq<Waiter>, handed: set<Waiter>, next: Waiter,
                           asleep: set<Waiter>, woken: set<Waiter>, ended: set<Waiter>) {
    && InArrivalOrder(queue, next)
    && (forall x :: x in queue ==> x !in handed && (x in asleep || x in woken))
    && handed <= woken
    && asleep <= Elems(queue)
    && asleep !! woken
    && (asleep + woken) !! ended
    && (forall x: Waiter :: x in asleep || x in woken || x in ended <==> x < next)
  }

  ghost predicate WaiterProtocol(w: World) {
    Protocol(w.pool.waiters, w.pool.handed.Keys, w.pool.nextWaiter, w.asleep, w.woken, w.ended.Keys)
  }

  lemma Enqueue(queue: seq<Waiter>, handed: set<Waiter>, next: Waiter,
                asleep: set<Waiter>, woken: set<Waiter>, ended: set<Waiter>)
    requires Protocol(queue, handed, next, asleep, woken, ended)
    ensures Protocol(queue + [next], handed, next + 1, asleep + {next}, woken, ended)
  {
    assert forall i :: 0 <= i < |queue| ==> queue[i] in queue;
  }

  lemma HandOff(queue: seq<Waiter>, handed: set<Waiter>, next: Waiter,
                asleep: set<Waiter>, woken: set<Waiter>, ended: set<Waiter>)
    requires Protocol(queue, handed, next, asleep, woken, ended) && queue != []
    ensures Protocol(queue[1..], handed + {queue[0]}, next,
                     asleep - {queue[0]}, woken + (asleep * {queue[0]}), ended)
  {
    hide Ascending;
    AscendingTail(queue);
  }

  lemma Finish(queue: seq<Waiter>, handed: set<Waiter>, next: Waiter,
               asleep: set<Waiter>, woken: set<Waiter>, ended: set<Waiter>, x: Waiter)
    requires Protocol(queue, handed, next, asleep, woken, ended) && x in woken
    ensures x in handed ==> Protocol(queue, handed - {x}, next, asleep, woken - {x}, ended + {x})
    ensures x !in handed ==> Protocol(Erase(queue, x), handed, next, asleep, woken - {x}, ended + {x})
  {
    EraseAscending(queue, x);
  }

  lemma AscendingCons(x: Waiter, ws: seq<Waiter>)
    requires Ascending(ws) && (forall y :: y in ws ==> x < y)
    ensures Ascending([x] + ws)
  {
    forall i, j | 0 <= i < j < |[x] + ws| ensures ([x] + ws)[i] < ([x] + ws)[j] {
      assert ws[j - 1] in ws;
    }
  }

  lemma AscendingTail(ws: seq<Waiter>)
    requires Ascending(ws) && ws != []
    ensures Ascending(ws[1..])
    ensures forall y :: y in ws[1..] ==> ws[0] < y
    ensures forall y :: y in ws <==> y == ws[0] || y in ws[1..]
  {
    assert ws == [ws[0]] + ws[1..];
  }

  lemma {:induction false} EraseAscending(ws: seq<Waiter>, x: Waiter)
    requires Ascending(ws)
    ensures Ascending(Erase(ws, x))
    ensures forall y :: y in Erase(ws, x) <==> y in ws && y != x
  {
    hide Ascending;
    if ws != [] {
      AscendingTail(ws);
      if ws[0] != x {
        EraseAscending(ws[1..], x);
        AscendingCons(ws[0], Erase(ws[1..], x));
      }
    }
  }

  lemma ReleaseKeepsProtocol(w: World, c: Conn, healthy: bool, open: bool, now: int)
    requires WaiterProtocol(w)
    ensures WaiterProtocol(ReleaseEvent(w, c, healthy, open, now))
  {
    if HandsOff(w.pool, c, healthy, open) {
      var p := w.pool;
      HandOff(p.waiters, p.handed.Keys, p.nextWaiter, w.asleep, w.woken, w.ended.Keys);
      assert p.handed[p.waiters[0] := c].Keys == p.handed.Keys + {p.waiters[0]};
    }
  }

  lemma AcquireKeepsProtocol(w: World, now: int)
    requires WaiterProtocol(w)
    ensures WaiterProtocol(AcquireEvent(w, now))
  {
    hide Protocol;
    Enqueue(w.pool.waiters, w.pool.handed.Keys, w.pool.nextWaiter, w.asleep, w.woken, w.ended.Keys);
  }

  lemma TimerKeepsProtocol(w: World, x: Waiter)
    requires WaiterProtocol(w) && x in w.asleep
    ensures WaiterProtocol(Step(w, TimerFires(x)))
  {
  }

  lemma DrainKeepsProtocol(w: World)
    requires WaiterProtocol(w)
    ensures WaiterProtocol(Step(w, Drain)) && Step(w, Drain).pool.handed == w.pool.handed
  {
    assert w.pool.handed - Elems(w.pool.waiters) == w.pool.handed;
  }

  lemma ResumeKeepsProtocol(w: World, x: Waiter)
    requires WaiterProtocol(w) && x in w.woken
    ensures WaiterProtocol(ResumeEvent(w, x)) && x !in w.ended
  {
    var w' := ResumeEvent(w, x);
    Finish(w.pool.waiters, w.pool.handed.Keys, w.pool.nextWaiter, w.asleep, w.woken, w.ended.Keys, x);
    assert w'.ended.Keys == w.ended.Keys + {x};
    assert x in w.pool.handed ==> w'.pool.handed.Keys == w.pool.handed.Keys - {x};
  }

  lemma StepKeepsProtocol(w: World, e: Event)
    requires Enabled(w, e) && WaiterProtocol(w)
    ensures WaiterProtocol(Step(w, e))
    ensures forall x :: x in w.ended ==> x in Step(w, e).ended && Step(w, e).ended[x] == w.ended[x]
  {
    hide Protocol;
    match e
    case Acquire(now) => AcquireKeepsProtocol(w, now);
    case Resume(x) => ResumeKeepsProtocol(w, x);
    case RunRelease(c, open, now) =>
      ReleaseKeepsProtocol(w.(releasing := w.releasing - {c}), c, w.releasing[c], open, now);
    case StrayRelease(c, healthy, open, now) => ReleaseKeepsProtocol(w, c, healthy, open, now);
    case TimerFires(x) => TimerKeepsProtocol(w, x);
    case Drain => DrainKeepsProtocol(w);
    case _ =>
  }

  /** Over any run the protocol holds and what an acquire returned never changes. */
  lemma {:induction false} WaiterProtocolInEveryRun(w: World, es: seq<Event>)
    requires Legal(w, es) && WaiterProtocol(w)
    ensures WaiterProtocol(Exec(w, es))
    ensures forall x :: x in w.ended ==> x in Exec(w, es).ended && Exec(w, es).ended[x] == w.ended[x]
    decreases |es|
  {
    if es != [] {
      StepKeepsProtocol(w, es[0]);
      WaiterProtocolInEveryRun(Step(w, es[0]), es[1..]);
    }
  }
}
