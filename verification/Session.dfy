/** The connection object: the command loop, the statements it answers itself and those it routes. */
module Session {
  import opened Options
  import opened SqlText
  import opened CommentScanner
  import opened StatementSplitter
  import opened QueryClassifier
  import opened RoutingTypes
  import opened BackendSelector
  import opened BackendRegistry
  import opened RoutingEngine
  import opened StatementWords
  import opened SchemaExtractor
  import opened SessionState

  /** What the routing pipeline sees of a session: route_and_forward never sets a pin. */
  function ViewOf(s: State): SessionView {
    SessionView(s.currentDb, s.inTransaction, s.autocommit, None)
  }

  /** The plan is for a primary of the resolved schema's group that is HEALTHY or DEGRADED. */
  ghost predicate OnLivePrimary(setup: Setup, view: map<string, Backend>, sql: string, session: SessionView, plan: RoutePlan) {
    && plan.role == PRIMARY && plan.backendId in view && SchemaOf(setup, sql, session).Some?
    && var b := view[plan.backendId];
       && b.role == PRIMARY && (b.state == HEALTHY || b.state == DEGRADED)
       && b.group == SchemaOf(setup, sql, session).value.backendGroup
  }

  /** Over any history: a batch with a write, or any statement after an unclosed begin, reaches only a live primary. */
  lemma HistoryIsWriteSafe(s: State, h: seq<string>, setup: Setup, view: map<string, Backend>, sql: string, ctx: RoutingContext, plan: RoutePlan)
    requires !s.inTransaction && Run(s, h).open && Keyed(view)
    requires PlanAllowed(setup, view, sql, ViewOf(Run(s, h)), ctx, Ok(plan))
    requires OpenTransaction(h) || BatchWrites(sql)
    ensures OnLivePrimary(setup, view, sql, ViewOf(Run(s, h)), plan)
  {
    hide Run, OpenTransaction, BatchWrites, Classify, PlanAllowed, SchemaOf;
    InTransactionExactly(s, h);
    WritesReachOnlyPrimaries(setup, view, sql, ViewOf(Run(s, h)), ctx, plan);
  }

  /**
   From the configuration to the plan: after a load and any updates of health and lag
   and removals, a write, or anything after an unclosed begin, goes only to a backend
   that the configuration lists as a primary of the resolved schema's group.
  */
  lemma WritesReachConfiguredPrimaries(configs: seq<BackendConfig>, us: seq<Update>, s: State, h: seq<string>, setup: Setup,
                                       sql: string, ctx: RoutingContext, plan: RoutePlan)
    requires forall u :: u in us ==> KeepsRoles(u)
    requires !s.inTransaction && Run(s, h).open
    requires PlanAllowed(setup, UpdatedAll(Loaded(configs), us), sql, ViewOf(Run(s, h)), ctx, Ok(plan))
    requires OpenTransaction(h) || BatchWrites(sql)
    ensures SchemaOf(setup, sql, ViewOf(Run(s, h))).Some?
    ensures exists c :: c in configs && c.id == plan.backendId && c.role == PRIMARY
                        && c.group == SchemaOf(setup, sql, ViewOf(Run(s, h))).value.backendGroup
  {
    hide Run, OpenTransaction, BatchWrites, PlanAllowed, SchemaOf, UpdatedAll, Loaded;
    RolesStayConfigured(configs, us);
    var view := UpdatedAll(Loaded(configs), us);
    assert Keyed(view);
    HistoryIsWriteSafe(s, h, setup, view, sql, ctx, plan);
  }

  /** No SET statement, autocommit or not, changes any plan made after it. */
  lemma SetNeverChangesPlans(s: State, statement: string, setup: Setup, view: map<string, Backend>, sql: string,
                             ctx: RoutingContext, r: Result<RoutePlan>)
    requires LocalKind(Prefix(statement)) == Some(SetLocal)
    ensures PlanAllowed(setup, view, sql, ViewOf(QueryStep(s, statement)), ctx, r) <==>
            PlanAllowed(setup, view, sql, ViewOf(s), ctx, r)
  {
    hide Classify, ExtractOr, SelectAllowed, Contains, Prefix;
  }

  datatype Reply = Answered | Ended | Routed(plan: Result<RoutePlan>)

  /** The command is a query none of the session-local tests recognises. */
  predicate IsRouted(s: State, payload: string) {
    s.open && payload != [] && payload[0] as int == COM_QUERY && LocalKind(Prefix(payload[1..])).None?
  }

  /** A reply the session in state `s` may give to a packet. */
  ghost predicate Faithful(setup: Setup, view: map<string, Backend>, s: State, payload: string, r: Reply) {
    && (r.Routed? <==> IsRouted(s, payload))
    && (r.Ended? <==> !CommandStep(s, payload).open)
    && (r.Routed? ==> PlanAllowed(setup, view, payload[1..], ViewOf(s), RoutingContext(None, None), r.plan))
  }

  /** The registry's reading when packet `k` is handled: the updates that came in before it are applied. */
  function ViewAt(view: map<string, Backend>, updates: seq<seq<Update>>, k: nat): map<string, Backend>
    requires k <= |updates|
    decreases k
  {
    if k == 0 then view else UpdatedAll(ViewAt(view, updates, k - 1), updates[k - 1])
  }

  lemma {:induction false} ViewAtIsKeyed(view: map<string, Backend>, updates: seq<seq<Update>>, k: nat)
    requires Keyed(view) && k <= |updates|
    ensures Keyed(ViewAt(view, updates, k))
    decreases k
  {
    hide Keyed;
    if k > 0 {
      ViewAtIsKeyed(view, updates, k - 1);
      UpdatesKeepKeyed(ViewAt(view, updates, k - 1), updates[k - 1]);
    }
  }

  /** The replies to the first packets of a run, each faithful to the session and to the registry as they were then. */
  ghost predicate AllFaithful(setup: Setup, views: seq<map<string, Backend>>, start: State, payloads: seq<string>, replies: seq<Reply>) {
    && |replies| <= |payloads| && |views| == |replies|
    && forall k :: 0 <= k < |replies| ==> Faithful(setup, views[k], Run(start, payloads[..k]), payloads[k], replies[k])
  }

  /** What must not reach a replica at point `k` of a run: a batch with a write, or anything after an unclosed begin. */
  ghost predicate Guarded(payloads: seq<string>, k: nat)
    requires k < |payloads|
  {
    OpenTransaction(payloads[..k]) || (payloads[k] != [] && BatchWrites(payloads[k][1..]))
  }

  /** The reply is no plan, or a plan on a live primary. */
  ghost predicate SafeReply(setup: Setup, view: map<string, Backend>, s: State, payload: string, r: Reply) {
    r.Routed? && r.plan.Ok? ==> payload != [] && OnLivePrimary(setup, view, payload[1..], ViewOf(s), r.plan.value)
  }

  /** From a session outside transactions, every guarded point of the run has a safe reply. */
  ghost predicate AllWriteSafe(setup: Setup, views: seq<map<string, Backend>>, start: State, payloads: seq<string>, replies: seq<Reply>) {
    && |replies| <= |payloads| && |views| == |replies|
    && forall k :: 0 <= k < |replies| && !start.inTransaction && Guarded(payloads, k) ==>
         SafeReply(setup, views[k], Run(start, payloads[..k]), payloads[k], replies[k])
  }

  /** Every plan the command loop makes is write safe, at every point of every run, however the registry changes meanwhile. */
  lemma EveryReplyIsWriteSafe(setup: Setup, views: seq<map<string, Backend>>, start: State, payloads: seq<string>, replies: seq<Reply>, k: nat)
    requires AllFaithful(setup, views, start, payloads, replies) && !start.inTransaction
    requires k < |replies| && Keyed(views[k]) && Guarded(payloads, k)
    ensures SafeReply(setup, views[k], Run(start, payloads[..k]), payloads[k], replies[k])
  {
    hide Run, OpenTransaction, BatchWrites, PlanAllowed, OnLivePrimary, Keyed;
    assert Faithful(setup, views[k], Run(start, payloads[..k]), payloads[k], replies[k]);
    if replies[k].Routed? && replies[k].plan.Ok? {
      HistoryIsWriteSafe(start, payloads[..k], setup, views[k], payloads[k][1..], RoutingContext(None, None), replies[k].plan.value);
    }
  }

  lemma NoReplies(setup: Setup, start: State, payloads: seq<string>)
    ensures AllFaithful(setup, [], start, payloads, [])
  {
  }

  lemma OneMoreReply(setup: Setup, views: seq<map<string, Backend>>, start: State, payloads: seq<string>, replies: seq<Reply>,
                     view: map<string, Backend>, r: Reply)
    requires AllFaithful(setup, views, start, payloads, replies) && |replies| < |payloads|
    requires Faithful(setup, view, Run(start, payloads[..|replies|]), payloads[|replies|], r)
    ensures AllFaithful(setup, views + [view], start, payloads, replies + [r])
  {
    hide Faithful, Run;
  }

  /** The readings a run sees, one per reply. */
  ghost predicate ViewsOf(views: seq<map<string, Backend>>, view: map<string, Backend>, updates: seq<seq<Update>>) {
    |views| <= |updates| && forall k :: 0 <= k < |views| ==> views[k] == ViewAt(view, updates, k + 1)
  }

  lemma OneMoreView(views: seq<map<string, Backend>>, view: map<string, Backend>, updates: seq<seq<Update>>)
    requires ViewsOf(views, view, updates) && |views| < |updates|
    ensures ViewsOf(views + [ViewAt(view, updates, |views| + 1)], view, updates)
  {
    hide ViewAt;
  }

  lemma ReplyIsWriteSafe(setup: Setup, views: seq<map<string, Backend>>, start: State, payloads: seq<string>, replies: seq<Reply>,
                         view: map<string, Backend>, updates: seq<seq<Update>>, k: nat)
    requires AllFaithful(setup, views, start, payloads, replies) && !start.inTransaction
    requires ViewsOf(views, view, updates) && Keyed(view) && k < |replies| && Guarded(payloads, k)
    ensures SafeReply(setup, views[k], Run(start, payloads[..k]), payloads[k], replies[k])
  {
    hide Run, Guarded, SafeReply, Faithful, Keyed, ViewAt;
    ViewAtIsKeyed(view, updates, k + 1);
    EveryReplyIsWriteSafe(setup, views, start, payloads, replies, k);
  }

  lemma LoopIsWriteSafe(setup: Setup, views: seq<map<string, Backend>>, start: State, payloads: seq<string>, replies: seq<Reply>,
                        view: map<string, Backend>, updates: seq<seq<Update>>)
    requires AllFaithful(setup, views, start, payloads, replies) && ViewsOf(views, view, updates) && Keyed(view)
    ensures AllWriteSafe(setup, views, start, payloads, replies)
  {
    hide Run, Guarded, SafeReply, Faithful, Keyed, ViewAt, ViewsOf;
    forall k | 0 <= k < |replies| && !start.inTransaction && Guarded(payloads, k)
      ensures SafeReply(setup, views[k], Run(start, payloads[..k]), payloads[k], replies[k])
    {
      ReplyIsWriteSafe(setup, views, start, payloads, replies, view, updates, k);
    }
  }

  lemma NoViews(view: map<string, Backend>, updates: seq<seq<Update>>)
    ensures ViewAt(view, updates, 0) == view && ViewsOf([], view, updates)
  {
  }

  lemma ViewAfter(view: map<string, Backend>, updates: seq<seq<Update>>, k: nat)
    requires k < |updates|
    ensures ViewAt(view, updates, k + 1) == UpdatedAll(ViewAt(view, updates, k), updates[k])
  {
  }

  lemma RunNone(s: State)
    ensures Run(s, []) == s
  {
  }

  lemma RunOneMore(s: State, payloads: seq<string>, i: nat)
    requires i < |payloads|
    ensures Run(s, payloads[..i + 1]) == CommandStep(Run(s, payloads[..i]), payloads[i])
  {
    assert payloads[..i + 1][..i] == payloads[..i];
  }

  lemma {:induction false} RunAfterEnd(s: State, payloads: seq<string>, n: nat)
    requires n <= |payloads| && !Run(s, payloads[..n]).open
    ensures Run(s, payloads) == Run(s, payloads[..n])
    decreases |payloads|
  {
    if n == |payloads| {
      assert payloads[..n] == payloads;
    } else {
      var shorter := payloads[..|payloads| - 1];
      assert shorter[..n] == payloads[..n];
      RunAfterEnd(s, shorter, n);
    }
  }

  class Connection {
    const engine: Engine
    var currentDb: string
    var inTransaction: bool
    var autocommit: bool
    var open: bool

    function Value(): State
      reads this
    {
      State(currentDb, inTransaction, autocommit, open)
    }

    constructor (engine: Engine, database: string)
      ensures this.engine == engine && Value() == State(database, false, true, true)
    {
      this.engine, currentDb := engine, database;
      inTransaction, autocommit, open := false, true, true;
    }

    /** The statements recognised by their prefix change the session and are answered here. */
    method AnswerLocally(sql: string, prefix: string) returns (r: Option<Reply>)
      requires prefix == Prefix(sql)
      modifies this
      ensures Value() == QueryStep(old(Value()), sql)
      ensures r.None? <==> LocalKind(prefix).None?
      ensures r.Some? ==> r.value == if LocalKind(prefix) == Some(UseLocal) && UseTarget(sql).None? then Ended else Answered
    {
      hide Normalise, UseTarget;
      r := Some(Answered);
      if StartsWith(prefix, "SET ") {
        if Contains(prefix, "AUTOCOMMIT") {
          autocommit := !Contains(prefix, "AUTOCOMMIT=0") && !Contains(prefix, "AUTOCOMMIT = 0");
        }
      } else if StartsWith(prefix, "USE ") {
        NormaliseShorter(sql, true, PREFIX);
        var db := FindUseTarget(sql);
        if db.None? {
          open := false;
          return Some(Ended);
        }
        currentDb := db.value;
      } else if StartsWith(prefix, "BEGIN") || StartsWith(prefix, "START TRANS") {
        inTransaction := true;
      } else if StartsWith(prefix, "COMMIT") || StartsWith(prefix, "ROLLBACK") {
        inTransaction := false;
      } else {
        r := None;
      }
    }

    /** A statement of COM_QUERY: answered here, or routed; `draw` feeds the random policies. */
    method HandleQuery(sql: string, draw: nat) returns (r: Reply)
      requires engine.selector.Valid()
      modifies this, engine.selector.Counters()
      ensures engine.selector.Valid() && engine.selector.registry.View() == old(engine.selector.registry.View())
      ensures Value() == QueryStep(old(Value()), sql)
      ensures r.Routed? <==> LocalKind(Prefix(sql)).None?
      ensures r.Ended? <==> LocalKind(Prefix(sql)) == Some(UseLocal) && UseTarget(sql).None?
      ensures r.Routed? ==>
                PlanAllowed(engine.Settings(), engine.selector.registry.View(), sql, ViewOf(Value()), RoutingContext(None, None), r.plan)
    {
      hide PlanAllowed, Prefix, LocalKind, UseTarget, QueryStep, Indexed;
      var prefix := NormalisePrefix(sql);
      var answer := AnswerLocally(sql, prefix);
      if answer.Some? {
        return answer.value;
      }
      var plan := engine.Plan(sql, SessionView(currentDb, inTransaction, autocommit, None), RoutingContext(None, None), draw);
      r := Routed(plan);
    }

    /** One turn of the command loop. */
    method HandleCommand(payload: string, draw: nat) returns (r: Reply)
      requires engine.selector.Valid() && open
      modifies this, engine.selector.Counters()
      ensures engine.selector.Valid() && engine.selector.registry.View() == old(engine.selector.registry.View())
      ensures Value() == CommandStep(old(Value()), payload)
      ensures Faithful(engine.Settings(), engine.selector.registry.View(), old(Value()), payload, r)
      ensures r.Ended? <==> !open
    {
      hide PlanAllowed, LocalKind, Prefix, UseTarget, Contains, Indexed;
      if payload == [] || payload[0] as int == COM_QUIT {
        open := false;
        return Ended;
      }
      r := Answered;
      if payload[0] as int == COM_INIT_DB {
        if |payload| > 1 {
          currentDb := payload[1..];
        }
      } else if payload[0] as int == COM_QUERY {
        r := HandleQuery(payload[1..], draw);
      }
    }

    /**
     The command loop over the packets a client sends, with the updates of the
     registry that come in before each: the session after each packet is the run so
     far, every reply is faithful to the session and the registry as they were then,
     and no plan for a write or inside a transaction leaves the live primaries.
    */
    method CommandLoop(payloads: seq<string>, draws: seq<nat>, updates: seq<seq<Update>>)
      returns (replies: seq<Reply>, ghost views: seq<map<string, Backend>>)
      requires engine.selector.Valid() && open && |draws| == |payloads| == |updates|
      modifies this, engine.selector.Counters(), engine.selector.registry, engine.selector.registry.current.byId.Values
      ensures engine.selector.Valid()
      ensures Value() == Run(old(Value()), payloads)
      ensures open ==> |replies| == |payloads|
      ensures ViewsOf(views, old(engine.selector.registry.View()), updates)
      ensures AllFaithful(engine.Settings(), views, old(Value()), payloads, replies)
      ensures AllWriteSafe(engine.Settings(), views, old(Value()), payloads, replies)
    {
      hide Run, CommandStep, Faithful, AllFaithful, Indexed, ViewAt, ViewsOf, UpdatedAll, AllWriteSafe;
      var registry := engine.selector.registry;
      ghost var start, setup, view := Value(), engine.Settings(), registry.View();
      replies, views := [], [];
      NoReplies(setup, start, payloads);
      NoViews(view, updates);
      RunNone(start);
      ValidRegistryIsKeyed(registry);
      for i := 0 to |payloads|
        invariant engine.selector.Valid() && open && |replies| == |views| == i
        invariant forall id :: id in registry.current.byId ==>
                    registry.current.byId[id] in old(registry.current.byId.Values) || fresh(registry.current.byId[id])
        invariant registry.View() == ViewAt(view, updates, i)
        invariant Value() == Run(start, payloads[..i])
        invariant ViewsOf(views, view, updates) && AllFaithful(setup, views, start, payloads, replies)
      {
        registry.ApplyAll(updates[i]);
        ViewAfter(view, updates, i);
        var r := HandleCommand(payloads[i], draws[i]);
        RunOneMore(start, payloads, i);
        OneMoreReply(setup, views, start, payloads, replies, ViewAt(view, updates, i + 1), r);
        OneMoreView(views, view, updates);
        replies, views := replies + [r], views + [ViewAt(view, updates, i + 1)];
        if r.Ended? {
          RunAfterEnd(start, payloads, i + 1);
          LoopIsWriteSafe(setup, views, start, payloads, replies, view, updates);
          return;
        }
      }
      assert payloads[..|payloads|] == payloads;
      LoopIsWriteSafe(setup, views, start, payloads, replies, view, updates);
    }
  }
}
