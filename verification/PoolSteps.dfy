/**
 The state of one connection pool and what each uninterrupted stretch of strand
 code does to it.  Everything between two suspension points of a pool coroutine
 is one step here: connection creation and timers are the environment's moves.
*/
module PoolSteps {
  import opened Seqs

  /** Identity of a PooledConnection.  Identities are never reused. */
  type Conn = nat

  /** Identity of a queued acquire, numbered in order of arrival. */
  type Waiter = nat

  datatype ConnectionState = IDLE | IN_USE | VALIDATING | CLOSED

  datatype ConnInfo = ConnInfo(state: ConnectionState, lastUsed: int)

  datatype PoolConfig = PoolConfig(minConns: nat, maxConns: nat, maxIdle: nat)

  /** The counters published for readers off the strand. */
  datatype Counts = Counts(free: nat, active: nat, waiters: nat, total: nat)

  datatype PoolState = PoolState(
    cfg: PoolConfig,
    all: seq<Conn>,
    free: seq<Conn>,
    active: set<Conn>,
    waiters: seq<Waiter>,
    shuttingDown: bool,
    info: map<Conn, ConnInfo>,
    handed: map<Waiter, Conn>,  // the non-null Waiter::result fields
    counts: Counts,
    totalAcquired: nat,
    nextConn: Conn,
    nextWaiter: Waiter)

  datatype AcquireResult = Rejected | Granted(conn: Conn) | Connecting | Queued(waiter: Waiter)

  datatype Outcome = Acquired(conn: Conn) | TimedOut

  function EmptyPool(cfg: PoolConfig): PoolState {
    PoolState(cfg, [], [], {}, [], false, map[], map[], Counts(0, 0, 0, 0), 0, 0, 0)
  }

  /** Publishes the sizes of the four containers. */
  function Sync(p: PoolState): PoolState {
    p.(counts := Counts(|p.free|, |p.active|, |p.waiters|, |p.all|))
  }

  /** A fresh connection enters `all`, idle; its identity is the old `nextConn`. */
  function Track(p: PoolState, now: int): PoolState {
    p.(all := p.all + [p.nextConn],
       info := p.info[p.nextConn := ConnInfo(IDLE, now)],
       nextConn := p.nextConn + 1)
  }

  /** The bookkeeping fields of `c` after its state, or state and last use, were written. */
  function Mark(info: map<Conn, ConnInfo>, c: Conn, st: ConnectionState): map<Conn, ConnInfo> {
    if c in info then info[c := info[c].(state := st)] else info
  }

  function MarkUsed(info: map<Conn, ConnInfo>, c: Conn, st: ConnectionState, now: int): map<Conn, ConnInfo> {
    info[c := ConnInfo(st, now)]
  }

  /** acquire_impl up to its first suspension or return. */
  function AcquireStep(p: PoolState, now: int): (PoolState, AcquireResult) {
    if p.shuttingDown then (p, Rejected)
    else if p.free != [] then
      var c := p.free[0];
      (Sync(p.(free := p.free[1..],
               active := p.active + {c},
               info := MarkUsed(p.info, c, IN_USE, now),
               totalAcquired := p.totalAcquired + 1)),
       Granted(c))
    else if |p.all| < p.cfg.maxConns then (p, Connecting)
    else
      (Sync(p.(waiters := p.waiters + [p.nextWaiter], nextWaiter := p.nextWaiter + 1)), Queued(p.nextWaiter))
  }

  /** acquire_impl after its connect succeeded: the new connection goes to the caller. */
  function ConnectedStep(p: PoolState, now: int): PoolState {
    var q := Track(p, now);
    Sync(q.(active := p.active + {p.nextConn},
            info := Mark(q.info, p.nextConn, IN_USE),
            totalAcquired := p.totalAcquired + 1))
  }

  /** acquire_impl after its waiter was woken, by whatever cause. */
  function ResumeStep(p: PoolState, w: Waiter): (PoolState, Outcome) {
    if w in p.handed then
      (p.(totalAcquired := p.totalAcquired + 1, handed := p.handed - {w}), Acquired(p.handed[w]))
    else
      (Sync(p.(waiters := Erase(p.waiters, w))), TimedOut)
  }

  /** A release that gives its connection to a queued waiter. */
  predicate HandsOff(p: PoolState, c: Conn, healthy: bool, open: bool) {
    c in p.active && healthy && !p.shuttingDown && open && p.waiters != []
  }

  /** The strand handler of release(). */
  function ReleaseStep(p: PoolState, c: Conn, healthy: bool, open: bool, now: int): PoolState {
    if c !in p.active then p
    else if !healthy || p.shuttingDown || !open then
      Sync(p.(active := p.active - {c}, all := Erase(p.all, c)))
    else if p.waiters != [] then
      Sync(p.(waiters := p.waiters[1..],
              info := Mark(p.info, c, IN_USE),
              handed := p.handed[p.waiters[0] := c]))
    else
      Sync(p.(active := p.active - {c},
              free := p.free + [c],
              info := MarkUsed(p.info, c, IDLE, now)))
  }

  /** warm_impl after one connect succeeded: the new connection becomes free. */
  function WarmedStep(p: PoolState, now: int): PoolState {
    var q := Track(p, now);
    Sync(q.(free := p.free + [p.nextConn], info := Mark(q.info, p.nextConn, IDLE)))
  }

  predicate TooOld(p: PoolState, c: Conn, now: int) {
    c in p.info && now - p.info[c].lastUsed > p.cfg.maxIdle
  }

  /** The reaper's loop over the rest of the free list: what stays free, and what stays in `all`. */
  function ReapLoop(p: PoolState, rest: seq<Conn>, all: seq<Conn>, now: int): (seq<Conn>, seq<Conn>) {
    if rest == [] then ([], all)
    else if TooOld(p, rest[0], now) && |all| > p.cfg.minConns then
      ReapLoop(p, rest[1..], Erase(all, rest[0]), now)
    else
      var (keep, all') := ReapLoop(p, rest[1..], all, now);
      ([rest[0]] + keep, all')
  }

  /** One tick of the idle reaper. */
  function ReapStep(p: PoolState, now: int): PoolState {
    if p.shuttingDown then p
    else
      var (keep, all) := ReapLoop(p, p.free, p.all, now);
      Sync(p.(free := keep, all := all))
  }

  /** drain_impl: clears the queued waiters' results, then every container. */
  function DrainStep(p: PoolState): PoolState {
    Sync(p.(shuttingDown := true,
            handed := p.handed - Elems(p.waiters),
            waiters := [], free := [], active := {}, all := []))
  }

  /** A stretch of strand code that may run while a coroutine is suspended. */
  datatype Call =
    | AcquireCall(now: int)
    | ConnectedCall(now: int)
    | ResumedCall(w: Waiter)
    | ReleaseCall(c: Conn, healthy: bool, open: bool, now: int)
    | WarmedCall(now: int)
    | ReapCall(now: int)
    | DrainCall

  function Performed(p: PoolState, call: Call): PoolState {
    match call
    case AcquireCall(now) => AcquireStep(p, now).0
    case ConnectedCall(now) => ConnectedStep(p, now)
    case ResumedCall(w) => ResumeStep(p, w).0
    case ReleaseCall(c, healthy, open, now) => ReleaseStep(p, c, healthy, open, now)
    case WarmedCall(now) => WarmedStep(p, now)
    case ReapCall(now) => ReapStep(p, now)
    case DrainCall => DrainStep(p)
  }

  function PerformedAll(p: PoolState, calls: seq<Call>): PoolState
    decreases |calls|
  {
    if calls == [] then p else Performed(PerformedAll(p, calls[..|calls| - 1]), calls[|calls| - 1])
  }

  /** One connect of warm_impl: what runs meanwhile, whether it succeeds, and when. */
  datatype WarmConnect = WarmConnect(meanwhile: seq<Call>, ok: bool, now: int)

  /** Whether warm_impl starts connect number `i`. */
  predicate WarmStarts(p: PoolState, i: nat) {
    i < p.cfg.minConns && !p.shuttingDown && |p.all| < p.cfg.maxConns
  }

  /** warm_impl from loop counter `i` on, suspended at each connect. */
  function WarmRun(p: PoolState, i: nat, connects: seq<WarmConnect>): PoolState
    decreases |connects| - i
  {
    if i < |connects| && WarmStarts(p, i) then
      var q := PerformedAll(p, connects[i].meanwhile);
      if connects[i].ok then WarmRun(WarmedStep(q, connects[i].now), i + 1, connects) else q
    else p
  }

  // ---- Structure: the four containers, the state fields and the counters agree ----

  /** The free list and the active set are duplicate-free, disjoint and together exactly `all`. */
  ghost predicate Partition(all: seq<Conn>, free: seq<Conn>, active: set<Conn>) {
    && NoDup(all)
    && NoDup(free)
    && (forall c :: c in free ==> c !in active)
    && (forall c :: c in all <==> c in free || c in active)
  }

  /** Every tracked connection is known, and its state field says which container holds it. */
  ghost predicate Labels(all: seq<Conn>, free: seq<Conn>, active: set<Conn>, info: map<Conn, ConnInfo>, next: Conn) {
    && (forall c :: c in all ==> c < next && c in info)
    && (forall c :: c in free ==> c in info && info[c].state == IDLE)
    && (forall c :: c in active ==> c in info && info[c].state == IN_USE)
  }

  ghost predicate Structure(p: PoolState) {
    && Partition(p.all, p.free, p.active)
    && Labels(p.all, p.free, p.active, p.info, p.nextConn)
    && p.counts == Counts(|p.free|, |p.active|, |p.waiters|, |p.all|)
  }

  lemma PopFree(all: seq<Conn>, free: seq<Conn>, active: set<Conn>)
    requires Partition(all, free, active) && free != []
    ensures Partition(all, free[1..], active + {free[0]})
    ensures forall c :: c in free[1..] ==> c in free && c != free[0]
  {
    assert free == [free[0]] + free[1..];
  }

  lemma AcquireKeepsStructure(p: PoolState, now: int)
    requires Structure(p)
    ensures Structure(AcquireStep(p, now).0)
  {
    if !p.shuttingDown && p.free != [] {
      PopFree(p.all, p.free, p.active);
    }
  }

  lemma ConnectedKeepsStructure(p: PoolState, now: int)
    requires Structure(p)
    ensures Structure(ConnectedStep(p, now))
  {
    NoDupAppend(p.all, p.nextConn);
  }

  lemma WarmedKeepsStructure(p: PoolState, now: int)
    requires Structure(p)
    ensures Structure(WarmedStep(p, now))
  {
    NoDupAppend(p.all, p.nextConn);
    NoDupAppend(p.free, p.nextConn);
  }

  lemma ReleaseKeepsStructure(p: PoolState, c: Conn, healthy: bool, open: bool, now: int)
    requires Structure(p)
    ensures Structure(ReleaseStep(p, c, healthy, open, now))
  {
    if c in p.active {
      EraseMembers(p.all, c);
      NoDupAppend(p.free, c);
    }
  }

  /**
   What becomes of a released connection.  One that is not active is none of the
   pool's business.  An unhealthy or closed one, and any one of a pool that is shutting
   down, is closed: the pool has it no longer.  Every other goes to the first waiter
   or, if nobody waits, to the end of the free list.
  */
  lemma ReleaseOutcome(p: PoolState, c: Conn, healthy: bool, open: bool, now: int)
    requires Structure(p)
    ensures var q := ReleaseStep(p, c, healthy, open, now);
            if c !in p.active then q == p
            else if !healthy || !open || p.shuttingDown then
              && c !in q.all && c !in q.free && c !in q.active
              && q.free == p.free && q.active == p.active - {c} && q.waiters == p.waiters && q.handed == p.handed
            else
              && q.all == p.all
              && if p.waiters != [] then
                   && q.active == p.active && q.free == p.free
                   && q.waiters == p.waiters[1..] && q.handed == p.handed[p.waiters[0] := c]
                 else
                   && q.active == p.active - {c} && q.free == p.free + [c]
                   && q.waiters == [] && q.handed == p.handed
                   && c in q.info && q.info[c] == ConnInfo(IDLE, now)
  {
    if c in p.active {
      EraseMembers(p.all, c);
    }
  }

  // ---- The reaper ----

  /** The connections of `rest` idle for longer than the limit, in order. */
  function Expired(p: PoolState, rest: seq<Conn>, now: int): (r: seq<Conn>)
    ensures forall c :: c in r <==> c in rest && TooOld(p, c, now)
  {
    if rest == [] then []
    else if TooOld(p, rest[0], now) then [rest[0]] + Expired(p, rest[1..], now)
    else Expired(p, rest[1..], now)
  }

  /** `s` without the members of `gone`, order kept. */
  function Without(s: seq<Conn>, gone: seq<Conn>): (r: seq<Conn>)
    ensures forall c :: c in r <==> c in s && c !in gone
  {
    if s == [] then []
    else if s[0] in gone then Without(s[1..], gone)
    else [s[0]] + Without(s[1..], gone)
  }

  /** How many connections a pass may close: the excess over the minimum. */
  function Excess(all: seq<Conn>, minConns: nat): nat {
    if |all| > minConns then |all| - minConns else 0
  }

  /** The connections one pass closes: the earliest expired ones, as many as the excess allows. */
  function Reaped(p: PoolState, rest: seq<Conn>, all: seq<Conn>, now: int): seq<Conn> {
    var expired := Expired(p, rest, now);
    if |expired| <= Excess(all, p.cfg.minConns) then expired else expired[..Excess(all, p.cfg.minConns)]
  }

  lemma {:induction false} WithoutStranger(s: seq<Conn>, gone: seq<Conn>, gone': seq<Conn>)
    requires forall c :: c in s ==> (c in gone <==> c in gone')
    ensures Without(s, gone) == Without(s, gone')
  {
    if s != [] {
      WithoutStranger(s[1..], gone, gone');
    }
  }

  lemma {:induction false} ReapLoopSpec(p: PoolState, rest: seq<Conn>, all: seq<Conn>, now: int)
    requires NoDup(all) && NoDup(rest) && (forall c :: c in rest ==> c in all)
    ensures var gone := Reaped(p, rest, all, now);
            var (keep, all') := ReapLoop(p, rest, all, now);
            && keep == Without(rest, gone)
            && NoDup(all') && (forall c :: c in all' <==> c in all && c !in gone)
            && |all'| == |all| - |gone|
  {
    if rest != [] {
      var c := rest[0];
      assert c in rest && c !in rest[1..] && rest == [c] + rest[1..];
      if TooOld(p, c, now) && |all| > p.cfg.minConns {
        EraseMembers(all, c);
        ReapLoopSpec(p, rest[1..], Erase(all, c), now);
        var gone' := Reaped(p, rest[1..], Erase(all, c), now);
        assert Reaped(p, rest, all, now) == [c] + gone';
        WithoutStranger(rest[1..], [c] + gone', gone');
      } else {
        ReapLoopSpec(p, rest[1..], all, now);
        assert Reaped(p, rest, all, now) == Reaped(p, rest[1..], all, now);
      }
    }
  }

  /**
   A reaper pass closes exactly min(expired idle connections, excess over the
   minimum) connections: the earliest expired ones of the free list.  The others
   keep their order, no active connection is touched, and a pool at or above its
   minimum stays there.
  */
  lemma ReapSpec(p: PoolState, now: int)
    requires Structure(p) && !p.shuttingDown
    ensures var q := ReapStep(p, now);
            var gone := Reaped(p, p.free, p.all, now);
            && gone <= Expired(p, p.free, now)
            && |gone| == (if |Expired(p, p.free, now)| < Excess(p.all, p.cfg.minConns)
                          then |Expired(p, p.free, now)| else Excess(p.all, p.cfg.minConns))
            && q.free == Without(p.free, gone)
            && (forall c :: c in q.all <==> c in p.all && c !in gone)
            && |q.all| == |p.all| - |gone|
            && q.active == p.active && q.waiters == p.waiters && q.handed == p.handed
            && (|p.all| >= p.cfg.minConns ==> |q.all| >= p.cfg.minConns)
            && Structure(q)
  {
    ReapLoopSpec(p, p.free, p.all, now);
    var gone := Reaped(p, p.free, p.all, now);
    WithoutNoDup(p.free, gone);
  }

  lemma ReapKeepsStructure(p: PoolState, now: int)
    requires Structure(p)
    ensures Structure(ReapStep(p, now))
  {
    if !p.shuttingDown {
      ReapSpec(p, now);
    }
  }

  lemma ResumeKeepsStructure(p: PoolState, w: Waiter)
    requires Structure(p)
    ensures Structure(ResumeStep(p, w).0)
  {
  }

  lemma DrainKeepsStructure(p: PoolState)
    ensures Structure(DrainStep(p))
  {
  }

  lemma AcquireSizes(p: PoolState, now: int)
    ensures var (q, r) := AcquireStep(p, now);
            && q.cfg == p.cfg && q.shuttingDown == p.shuttingDown && q.all == p.all
            && (r.Connecting? ==> !p.shuttingDown && |p.all| < p.cfg.maxConns)
  {
  }

  lemma ReleaseSizes(p: PoolState, c: Conn, healthy: bool, open: bool, now: int)
    ensures var q := ReleaseStep(p, c, healthy, open, now);
            q.cfg == p.cfg && q.shuttingDown == p.shuttingDown && |q.all| <= |p.all|
  {
  }

  lemma {:induction false} ReapShrinks(p: PoolState, rest: seq<Conn>, all: seq<Conn>, now: int)
    ensures |ReapLoop(p, rest, all, now).1| <= |all|
    decreases |rest|
  {
    if rest != [] {
      ReapShrinks(p, rest[1..], if TooOld(p, rest[0], now) && |all| > p.cfg.minConns then Erase(all, rest[0]) else all, now);
    }
  }

  lemma {:induction false} WithoutNoDup(s: seq<Conn>, gone: seq<Conn>)
    requires NoDup(s)
    ensures NoDup(Without(s, gone))
  {
    if s != [] {
      WithoutNoDup(s[1..], gone);
    }
  }

  // ---- Warming an undisturbed pool ----

  /** What warming adds: `made` connections, all of them free, nothing else changed. */
  predicate WarmedBy(p: PoolState, q: PoolState, made: nat) {
    && q.active == p.active && q.waiters == p.waiters && q.handed == p.handed
    && q.shuttingDown == p.shuttingDown && q.cfg == p.cfg
    && |q.all| == |p.all| + made && |q.free| == |p.free| + made
    && p.all <= q.all && p.free <= q.free && q.all[|p.all|..] == q.free[|p.free|..]
  }

  lemma WarmedByOneMore(p: PoolState, now: int, q: PoolState, made: nat)
    requires WarmedBy(WarmedStep(p, now), q, made)
    ensures WarmedBy(p, q, made + 1)
  {
    var p1 := WarmedStep(p, now);
    var m, n := |p.all|, |p.free|;
    assert p1.all == p.all + [p.nextConn] && p1.free == p.free + [p.nextConn];
    assert q.all[..m + 1] == p1.all && q.free[..n + 1] == p1.free;
    assert q.all[m] == p.nextConn && q.free[n] == p.nextConn;
    assert q.all[..m] == p.all && q.free[..n] == p.free;
    assert q.all[m..] == [q.all[m]] + q.all[m + 1..] && q.free[n..] == [q.free[n]] + q.free[n + 1..];
  }

  /**
   When nothing runs meanwhile, warming adds exactly the connections made, up to the
   first failure, the minimum or the maximum, and never goes beyond the maximum.
  */
  lemma {:induction false} WarmRunUndisturbed(p: PoolState, i: nat, connects: seq<WarmConnect>) returns (made: nat)
    requires |connects| >= p.cfg.minConns && forall k :: 0 <= k < |connects| ==> connects[k].meanwhile == []
    ensures WarmedBy(p, WarmRun(p, i, connects), made)
    ensures forall k :: i <= k < i + made ==> k < |connects| && connects[k].ok
    ensures var q := WarmRun(p, i, connects);
            i + made < p.cfg.minConns && !p.shuttingDown && |q.all| < p.cfg.maxConns ==> !connects[i + made].ok
    ensures made > 0 ==> i + made <= p.cfg.minConns && |WarmRun(p, i, connects).all| <= p.cfg.maxConns
    decreases |connects| - i
  {
    if i < |connects| && WarmStarts(p, i) && connects[i].ok {
      var p1 := WarmedStep(p, connects[i].now);
      var more := WarmRunUndisturbed(p1, i + 1, connects);
      made := more + 1;
      WarmedByOneMore(p, connects[i].now, WarmRun(p1, i + 1, connects), more);
    } else {
      made := 0;
      assert p.all[|p.all|..] == p.free[|p.free|..] == [];
    }
  }
}
