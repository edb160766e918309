/** The pool object: each strand handler proved to perform its step. */
module ConnectionPool {
  import opened Seqs
  import opened PoolSteps

  class Pool {
    const cfg: PoolConfig
    var all: seq<Conn>
    var free: seq<Conn>
    var active: set<Conn>
    var waiters: seq<Waiter>
    var shuttingDown: bool
    var info: map<Conn, ConnInfo>
    var handed: map<Waiter, Conn>
    var counts: Counts
    var totalAcquired: nat
    var nextConn: Conn
    var nextWaiter: Waiter

    ghost function State(): PoolState
      reads this
    {
      PoolState(cfg, all, free, active, waiters, shuttingDown, info, handed,
                counts, totalAcquired, nextConn, nextWaiter)
    }

    /** The containers partition the tracked connections, and state fields and counters agree with them. */
    ghost predicate Valid()
      reads this
    {
      Structure(State())
    }

    constructor (cfg: PoolConfig)
      ensures State() == EmptyPool(cfg) && Valid()
    {
      this.cfg := cfg;
      all, free, active, waiters, shuttingDown := [], [], {}, [], false;
      info, handed, counts, totalAcquired := map[], map[], Counts(0, 0, 0, 0), 0;
      nextConn, nextWaiter := 0, 0;
    }

    method SyncMetrics()
      modifies this`counts
      ensures State() == Sync(old(State()))
    {
      counts := Counts(|free|, |active|, |waiters|, |all|);
    }

    method TrackNew(now: int) returns (c: Conn)
      modifies this`all, this`info, this`nextConn
      ensures State() == Track(old(State()), now) && c == old(nextConn)
    {
      c := nextConn;
      info := info[c := ConnInfo(IDLE, now)];
      all := all + [c];
      nextConn := nextConn + 1;
    }

    method Untrack(c: Conn)
      modifies this`all
      ensures all == Erase(old(all), c)
    {
      all := EraseFirst(all, c);
    }

    method Acquire(now: int) returns (r: AcquireResult)
      requires Valid()
      modifies this
      ensures (State(), r) == AcquireStep(old(State()), now)
      ensures Valid()
    {
      hide Structure;
      AcquireKeepsStructure(State(), now);
      if shuttingDown {
        return Rejected;
      }
      if free != [] {
        var c := free[0];
        free := free[1..];
        info := MarkUsed(info, c, IN_USE, now);
        active := active + {c};
        totalAcquired := totalAcquired + 1;
        SyncMetrics();
        return Granted(c);
      }
      if |all| < cfg.maxConns {
        return Connecting;
      }
      r := Queued(nextWaiter);
      waiters := waiters + [nextWaiter];
      nextWaiter := nextWaiter + 1;
      SyncMetrics();
    }

    method AcquireConnected(now: int) returns (c: Conn)
      requires Valid()
      modifies this
      ensures State() == ConnectedStep(old(State()), now) && c == old(nextConn)
      ensures Valid()
    {
      hide Structure;
      ConnectedKeepsStructure(State(), now);
      c := TrackNew(now);
      info := Mark(info, c, IN_USE);
      active := active + {c};
      totalAcquired := totalAcquired + 1;
      SyncMetrics();
    }

    method AcquireResumed(w: Waiter) returns (out: Outcome)
      requires Valid()
      modifies this
      ensures (State(), out) == ResumeStep(old(State()), w)
      ensures Valid()
    {
      hide Structure;
      ResumeKeepsStructure(State(), w);
      if w in handed {
        totalAcquired := totalAcquired + 1;
        out := Acquired(handed[w]);
        handed := handed - {w};
        return;
      }
      waiters := EraseFirst(waiters, w);
      SyncMetrics();
      out := TimedOut;
    }

    /** The front waiter gets the connection as its result. */
    method HandOver(c: Conn)
      requires waiters != []
      modifies this`waiters, this`info, this`active, this`handed, this`counts
      ensures State() == var p := old(State());
                         Sync(p.(waiters := p.waiters[1..], info := Mark(p.info, c, IN_USE),
                                 active := p.active + {c}, handed := p.handed[p.waiters[0] := c]))
    {
      var w := waiters[0];
      waiters := waiters[1..];
      info := Mark(info, c, IN_USE);
      active := active + {c};
      handed := handed[w := c];
      SyncMetrics();
    }

    method Release(c: Conn, healthy: bool, open: bool, now: int)
      requires Valid()
      modifies this
      ensures State() == ReleaseStep(old(State()), c, healthy, open, now)
      ensures Valid()
    {
      hide Structure, Mark, MarkUsed, Erase;
      ReleaseKeepsStructure(State(), c, healthy, open, now);
      if c !in active {
        return;
      }
      active := active - {c};
      if !healthy || shuttingDown || !open {
        Untrack(c);
        SyncMetrics();
        return;
      }
      if waiters != [] {
        HandOver(c);
        assert active == old(active);
        return;
      }
      info := MarkUsed(info, c, IDLE, now);
      free := free + [c];
      SyncMetrics();
    }

    method WarmConnected(now: int)
      requires Valid()
      modifies this
      ensures State() == WarmedStep(old(State()), now)
      ensures Valid()
    {
      hide Structure;
      WarmedKeepsStructure(State(), now);
      var c := TrackNew(now);
      info := Mark(info, c, IDLE);
      free := free + [c];
      SyncMetrics();
    }

    /** The reaper's loop over the free list. */
    method ReapFree(now: int) returns (keep: seq<Conn>)
      modifies this`all
      ensures (keep, all) == ReapLoop(old(State()), free, old(all), now)
    {
      keep := [];
      ghost var p := State();
      var i := 0;
      assert free[0..] == free;
      while i < |free|
        invariant 0 <= i <= |free|
        invariant keep + ReapLoop(p, free[i..], all, now).0 == ReapLoop(p, free, p.all, now).0
        invariant ReapLoop(p, free[i..], all, now).1 == ReapLoop(p, free, p.all, now).1
      {
        var c := free[i];
        assert free[i..][1..] == free[i + 1..];
        var tooOld := c in info && now - info[c].lastUsed > cfg.maxIdle;
        if tooOld && |all| > cfg.minConns {
          Untrack(c);
        } else {
          keep := keep + [c];
        }
        i := i + 1;
      }
      assert free[i..] == [] && keep + [] == keep;
    }

    method ReapTick(now: int)
      requires Valid()
      modifies this
      ensures State() == ReapStep(old(State()), now)
      ensures Valid()
    {
      hide Structure, ReapLoop;
      ReapKeepsStructure(State(), now);
      if shuttingDown {
        return;
      }
      free := ReapFree(now);
      SyncMetrics();
    }

    /** No queued waiter keeps a result. */
    method ClearResults()
      modifies this`handed
      ensures handed == old(handed) - Elems(waiters)
    {
      for i := 0 to |waiters|
        modifies this`handed
        invariant handed == old(handed) - Elems(waiters[..i])
      {
        assert waiters[..i + 1] == waiters[..i] + [waiters[i]];
        handed := handed - {waiters[i]};
      }
      assert waiters[..|waiters|] == waiters;
    }

    method Drain()
      requires Valid()
      modifies this
      ensures State() == DrainStep(old(State()))
      ensures Valid()
    {
      hide Structure;
      DrainKeepsStructure(State());
      shuttingDown := true;
      ClearResults();
      waiters, free, active, all := [], [], {}, [];
      SyncMetrics();
    }

    method Perform(call: Call)
      requires Valid()
      modifies this
      ensures State() == Performed(old(State()), call)
      ensures Valid()
    {
      hide Structure, AcquireStep, ConnectedStep, ResumeStep, ReleaseStep, WarmedStep, ReapStep, DrainStep;
      match call
      case AcquireCall(now) => var _ := Acquire(now);
      case ConnectedCall(now) => var _ := AcquireConnected(now);
      case ResumedCall(w) => var _ := AcquireResumed(w);
      case ReleaseCall(c, healthy, open, now) => Release(c, healthy, open, now);
      case WarmedCall(now) => WarmConnected(now);
      case ReapCall(now) => ReapTick(now);
      case DrainCall => Drain();
    }

    method PerformAll(calls: seq<Call>)
      requires Valid()
      modifies this
      ensures State() == PerformedAll(old(State()), calls)
      ensures Valid()
    {
      hide Structure, Performed;
      for i := 0 to |calls|
        invariant Valid() && State() == PerformedAll(old(State()), calls[..i])
      {
        Perform(calls[i]);
        assert calls[..i + 1][..i] == calls[..i];
      }
      assert calls[..|calls|] == calls;
    }

    /** The warming loop; whatever else the strand runs while a connect is pending is part of `connects`. */
    method Warm(connects: seq<WarmConnect>)
      requires Valid() && |connects| >= cfg.minConns
      modifies this
      ensures State() == WarmRun(old(State()), 0, connects)
      ensures Valid()
    {
      hide Structure, PerformedAll, WarmedStep;
      var i := 0;
      while i < cfg.minConns && !shuttingDown
        invariant Valid() && WarmRun(State(), i, connects) == WarmRun(old(State()), 0, connects)
        decreases cfg.minConns - i
      {
        if |all| >= cfg.maxConns {
          break;
        }
        PerformAll(connects[i].meanwhile);
        if !connects[i].ok {
          return;
        }
        WarmConnected(connects[i].now);
        i := i + 1;
      }
    }
  }
}
