/** Planning a route: classify, resolve the schema, choose the role, honour a pin, select a backend. */
module RoutingEngine {
  import opened Options
  import opened SqlText
  import opened CommentScanner
  import opened StatementSplitter
  import opened QueryClassifier
  import opened StatementWords
  import opened SchemaExtractor
  import opened RoutingTypes
  import opened RoutingPolicies
  import opened BackendRegistry
  import opened BackendSelector

  datatype SessionView = SessionView(currentSchema: string, inTransaction: bool, autocommit: bool, pinned: Option<string>)

  datatype RoutePlan = RoutePlan(queryType: QueryType, schema: string, backendId: string, role: BackendRole)

  /** The named schema's configuration, else the catch-all one. */
  function Lookup(schemas: map<string, SchemaConfig>, name: string): Option<SchemaConfig> {
    if name in schemas then Some(schemas[name])
    else if "default" in schemas then Some(schemas["default"])
    else None
  }

  function SelectRole(t: QueryType, inTransaction: bool): BackendRole {
    if inTransaction then PRIMARY else if t == SELECT then REPLICA else PRIMARY
  }

  function SplitsReads(cfg: SchemaConfig, routing: RoutingConfig): bool {
    match cfg.readWriteSplit
    case Some(b) => b
    case None => routing.readWriteSplit
  }

  /** The role a statement is planned for. */
  function PlannedRole(cfg: SchemaConfig, routing: RoutingConfig, t: QueryType, inTransaction: bool): BackendRole {
    if SplitsReads(cfg, routing) then SelectRole(t, inTransaction) else PRIMARY
  }

  function SchemaOf(setup: Setup, sql: string, session: SessionView): Option<SchemaConfig> {
    Lookup(setup.schemas, ExtractOr(sql, session.currentSchema))
  }

  /** What the engine is built from: the schemas, its own settings and the selector's. */
  datatype Setup = Setup(schemas: map<string, SchemaConfig>, routing: RoutingConfig, defaults: RoutingConfig)

  /** The plans that may come out, given what the registry reads. */
  ghost predicate PlanAllowed(setup: Setup, view: map<string, Backend>, sql: string, session: SessionView,
                              ctx: RoutingContext, r: Result<RoutePlan>) {
    match SchemaOf(setup, sql, session)
    case None => r == Err(NO_SCHEMA_CONFIG)
    case Some(cfg) =>
      var t := Classify(sql);
      var schema := ExtractOr(sql, session.currentSchema);
      var role := PlannedRole(cfg, setup.routing, t, session.inTransaction);
      if session.pinned.Some? && role == PRIMARY then r == Ok(RoutePlan(t, schema, session.pinned.value, role))
      else
        match r
        case Err(e) => SelectAllowed(view, cfg, role, setup.defaults, ctx, Err(e))
        case Ok(p) => p == RoutePlan(t, schema, p.backendId, role) && SelectAllowed(view, cfg, role, setup.defaults, ctx, Ok(p.backendId))
  }

  lemma ResultIsAllowed(view: map<string, Backend>, schema: SchemaConfig, role: BackendRole, cfg: RoutingConfig,
                        ctx: RoutingContext, draw: nat, count: nat, r: Result<string>)
    requires count < U64_LIMIT && SelectResult(view, schema, role, cfg, ctx, draw, count, r)
    ensures SelectAllowed(view, schema, role, cfg, ctx, r)
  {
    hide SelectResult;
  }

  class Engine {
    const schemas: map<string, SchemaConfig>
    const selector: Selector
    const routing: RoutingConfig

    constructor (schemas: map<string, SchemaConfig>, selector: Selector, routing: RoutingConfig)
      ensures this.schemas == schemas && this.selector == selector && this.routing == routing
    {
      this.schemas, this.selector, this.routing := schemas, selector, routing;
    }

    function Settings(): Setup { Setup(schemas, routing, selector.defaults) }

    method Plan(sql: string, session: SessionView, ctx: RoutingContext, draw: nat) returns (r: Result<RoutePlan>)
      requires selector.Valid()
      modifies selector.Counters()
      ensures selector.Valid() && selector.registry.View() == old(selector.registry.View())
      ensures PlanAllowed(Settings(), selector.registry.View(), sql, session, ctx, r)
    {
      hide Classify, SelectAllowed, SelectResult, Extract, Indexed;
      var t := ClassifySql(sql);
      var named := ExtractScan(sql);
      var schema := match named case Some(name) => name case None => session.currentSchema;
      var config := Lookup(schemas, schema);
      if config.None? {
        return Err(NO_SCHEMA_CONFIG);
      }
      var role := SelectRole(t, session.inTransaction);
      if !SplitsReads(config.value, routing) {
        role := PRIMARY;
      }
      if session.pinned.Some? && role == PRIMARY {
        return Ok(RoutePlan(t, schema, session.pinned.value, role));
      }
      ghost var count := selector.CountOf(PolicyOf(config.value, selector.defaults));
      var backend := selector.Select(config.value, role, ctx, draw);
      ResultIsAllowed(selector.registry.View(), config.value, role, selector.defaults, ctx, draw, count, backend);
      if backend.Err? {
        return Err(backend.error);
      }
      r := Ok(RoutePlan(t, schema, backend.value, role));
    }
  }

  // ---- Safety ----

  /** `id` names a backend of the group that has the role and is fit to serve it. */
  ghost predicate Serves(view: map<string, Backend>, id: string, group: string, role: BackendRole, cfg: RoutingConfig) {
    id in view && Eligible(view[id], group, role, cfg)
  }

  /** The backends a selection for the role may end at: the eligible ones, or the eligible primaries for want of a replica. */
  ghost predicate MayServe(view: map<string, Backend>, id: string, group: string, role: BackendRole, cfg: RoutingConfig) {
    if role == REPLICA && (forall other :: !Serves(view, other, group, REPLICA, cfg))
    then Serves(view, id, group, PRIMARY, cfg)
    else Serves(view, id, group, role, cfg)
  }

  /** A plan that is not the pin names an eligible backend of the planned role, or a primary when no replica is eligible. */
  lemma PlanNamesEligible(setup: Setup, view: map<string, Backend>, sql: string, session: SessionView, ctx: RoutingContext, plan: RoutePlan)
    requires Keyed(view) && (session.pinned.None? || plan.role == REPLICA)
    requires PlanAllowed(setup, view, sql, session, ctx, Ok(plan))
    ensures SchemaOf(setup, sql, session).Some?
    ensures MayServe(view, plan.backendId, SchemaOf(setup, sql, session).value.backendGroup, plan.role, setup.defaults)
  {
    hide Classify, ExtractOr, SelectAllowed;
    var cfg := SchemaOf(setup, sql, session).value;
    SelectedIsInPool(view, cfg, plan.role, setup.defaults, ctx, plan.backendId);
    var group := cfg.backendGroup;
    var b :| b in ChoicePool(view, group, plan.role, setup.defaults) && b.id == plan.backendId;
    EmptySetExactly(view, group, plan.role, setup.defaults);
    if id :| id in view && Eligible(view[id], group, plan.role, setup.defaults) {
      assert Serves(view, id, group, plan.role, setup.defaults);
    } else {
      assert b in EligibleSet(view, group, PRIMARY, setup.defaults);
    }
  }

  /**
   Without live signals the successful plans are exactly those that name such a
   backend: under every policy each of them comes out for some order of the group's
   list, some draw and some value of the policy's counter.
  */
  lemma UnpinnedPlansExactly(setup: Setup, view: map<string, Backend>, sql: string, session: SessionView, cfg: SchemaConfig, plan: RoutePlan)
    requires NamedBackends(view) && session.pinned.None? && SchemaOf(setup, sql, session) == Some(cfg)
    ensures var t := Classify(sql);
            var role := PlannedRole(cfg, setup.routing, t, session.inTransaction);
            PlanAllowed(setup, view, sql, session, RoutingContext(None, None), Ok(plan)) <==>
            plan == RoutePlan(t, ExtractOr(sql, session.currentSchema), plan.backendId, role)
            && MayServe(view, plan.backendId, cfg.backendGroup, role, setup.defaults)
  {
    var role := PlannedRole(cfg, setup.routing, Classify(sql), session.inTransaction);
    hide Classify, ExtractOr, SelectAllowed, MayServe, PlannedRole;
    SelectedExactly(view, cfg, role, setup.defaults, plan.backendId);
  }

  /** The pool's members are exactly the backends that may serve. */
  lemma PoolExactly(view: map<string, Backend>, group: string, role: BackendRole, defaults: RoutingConfig, id: string)
    requires Keyed(view)
    ensures MayServe(view, id, group, role, defaults) <==>
            id in view && view[id] in ChoicePool(view, group, role, defaults)
  {
    EmptySetExactly(view, group, role, defaults);
    if other :| Serves(view, other, group, role, defaults) {
      assert view[other] in EligibleSet(view, group, role, defaults);
    } else {
      assert forall b :: b in view ==> !Serves(view, b, group, role, defaults);
    }
  }

  lemma SelectedExactly(view: map<string, Backend>, cfg: SchemaConfig, role: BackendRole, defaults: RoutingConfig, id: string)
    requires NamedBackends(view)
    ensures SelectAllowed(view, cfg, role, defaults, RoutingContext(None, None), Ok(id)) <==>
            MayServe(view, id, cfg.backendGroup, role, defaults)
  {
    hide SelectAllowed, MayServe, EligibleSet;
    var group := cfg.backendGroup;
    PoolExactly(view, group, role, defaults, id);
    if MayServe(view, id, group, role, defaults) {
      EveryMemberIsSelectable(view, cfg, role, defaults, view[id]);
    }
    if SelectAllowed(view, cfg, role, defaults, RoutingContext(None, None), Ok(id)) {
      SelectedIsInPool(view, cfg, role, defaults, RoutingContext(None, None), id);
      var b :| b in ChoicePool(view, group, role, defaults) && b.id == id;
      PoolOfView(view, group, role, defaults);
    }
  }

  lemma PoolOfView(view: map<string, Backend>, group: string, role: BackendRole, defaults: RoutingConfig)
    requires Keyed(view)
    ensures var pool := ChoicePool(view, group, role, defaults);
            && SeparateIds(pool)
            && forall b :: b in pool ==> b.id in view && view[b.id] == b && !Down(b)
  {
  }

  /** Whatever the policy, each member of the pool is selected for some order of its list, with the first draw and a fresh counter. */
  lemma EveryMemberIsSelectable(view: map<string, Backend>, cfg: SchemaConfig, role: BackendRole, defaults: RoutingConfig, b: Backend)
    requires NamedBackends(view) && b in ChoicePool(view, cfg.backendGroup, role, defaults)
    ensures SelectAllowed(view, cfg, role, defaults, RoutingContext(None, None), Ok(b.id))
  {
    var pool, ctx := ChoicePool(view, cfg.backendGroup, role, defaults), RoutingContext(None, None);
    PoolOfView(view, cfg.backendGroup, role, defaults);
    hide ChoicePool, Choice, Lists;
    var c := ListWithHead(pool, b);
    HeadCanBeChosen(PolicyOf(cfg, defaults), c);
    assert SelectResult(view, cfg, role, defaults, ctx, 0, 0, Ok(b.id));
  }

  /** Work the client must see on a primary: an open transaction, or a batch with some statement other than a read. */
  ghost predicate PrimaryBound(sql: string, session: SessionView) {
    session.inTransaction || BatchWrites(sql) || Classify(sql) != SELECT
  }

  lemma PrimaryBoundExactly(sql: string, session: SessionView)
    ensures PrimaryBound(sql, session) <==> SelectRole(Classify(sql), session.inTransaction) == PRIMARY
  {
    hide BatchWrites, Classify;
    BatchWritesExactly(sql);
  }

  /** Writes, and everything in a transaction, only ever reach a live primary of the resolved schema's group. */
  lemma WritesReachOnlyPrimaries(setup: Setup, view: map<string, Backend>, sql: string, session: SessionView, ctx: RoutingContext, plan: RoutePlan)
    requires Keyed(view) && session.pinned.None?
    requires PlanAllowed(setup, view, sql, session, ctx, Ok(plan))
    requires PrimaryBound(sql, session)
    ensures plan.role == PRIMARY && plan.backendId in view && SchemaOf(setup, sql, session).Some?
    ensures var b := view[plan.backendId];
            b.role == PRIMARY && (b.state == HEALTHY || b.state == DEGRADED)
            && b.group == SchemaOf(setup, sql, session).value.backendGroup
  {
    hide PrimaryBound, Classify, ExtractOr, SelectAllowed;
    PrimaryBoundExactly(sql, session);
    PlanNamesEligible(setup, view, sql, session, ctx, plan);
  }

  /** What has to hold for a plan to name a replica. */
  lemma ReplicaServesOnlyReads(setup: Setup, view: map<string, Backend>, sql: string, session: SessionView, ctx: RoutingContext, plan: RoutePlan)
    requires Keyed(view) && session.pinned.None?
    requires PlanAllowed(setup, view, sql, session, ctx, Ok(plan))
    requires plan.backendId in view && view[plan.backendId].role == REPLICA
    ensures !PrimaryBound(sql, session) && SchemaOf(setup, sql, session).Some?
    ensures SplitsReads(SchemaOf(setup, sql, session).value, setup.routing)
    ensures view[plan.backendId].state == HEALTHY
    ensures setup.defaults.replicationAware ==> view[plan.backendId].lagMs <= setup.defaults.maxReplicaLagMs
  {
    hide PrimaryBound, Classify, ExtractOr, SelectAllowed;
    PrimaryBoundExactly(sql, session);
    PlanNamesEligible(setup, view, sql, session, ctx, plan);
  }

  /** A plan's role disagrees with its backend's exactly when a read fell back for want of an eligible replica. */
  lemma RoleMismatchExactlyOnFallback(setup: Setup, view: map<string, Backend>, sql: string, session: SessionView, ctx: RoutingContext, plan: RoutePlan)
    requires Keyed(view) && session.pinned.None?
    requires PlanAllowed(setup, view, sql, session, ctx, Ok(plan))
    ensures plan.backendId in view && SchemaOf(setup, sql, session).Some?
    ensures var cfg := SchemaOf(setup, sql, session).value;
            view[plan.backendId].role != plan.role <==>
            !PrimaryBound(sql, session) && SplitsReads(cfg, setup.routing)
            && forall id :: !Serves(view, id, cfg.backendGroup, REPLICA, setup.defaults)
  {
    hide PrimaryBound, Classify, ExtractOr, SelectAllowed;
    PrimaryBoundExactly(sql, session);
    PlanNamesEligible(setup, view, sql, session, ctx, plan);
  }

  /** Without live signals planning fails exactly for an unknown schema or a group nobody in which can serve. */
  lemma PlanFailsExactlyWhen(setup: Setup, view: map<string, Backend>, sql: string, session: SessionView, r: Result<RoutePlan>)
    requires NamedBackends(view) && session.pinned.None?
    requires PlanAllowed(setup, view, sql, session, RoutingContext(None, None), r)
    ensures match SchemaOf(setup, sql, session)
            case None => r == Err(NO_SCHEMA_CONFIG)
            case Some(cfg) =>
              var role := if PrimaryBound(sql, session) || !SplitsReads(cfg, setup.routing) then PRIMARY else REPLICA;
              r.Err? <==> forall id :: id in view ==> !Eligible(view[id], cfg.backendGroup, role, setup.defaults)
                                                      && !Eligible(view[id], cfg.backendGroup, PRIMARY, setup.defaults)
  {
    hide PrimaryBound, Classify, ExtractOr, SelectAllowed;
    PrimaryBoundExactly(sql, session);
    var found := SchemaOf(setup, sql, session);
    if found.Some? {
      var cfg := found.value;
      var role := PlannedRole(cfg, setup.routing, Classify(sql), session.inTransaction);
      var chosen := match r case Ok(p) => Ok(p.backendId) case Err(e) => Err(e);
      SelectFailsExactlyWhenNoneEligible(view, cfg, role, setup.defaults, RoutingContext(None, None), chosen);
      assert role == if PrimaryBound(sql, session) || !SplitsReads(cfg, setup.routing) then PRIMARY else REPLICA;
      assert r.Err? <==> chosen.Err?;
    }
  }

  /** Any plan, pinned or not, names a backend fit for its role exactly when it is not the pin, or the pin is a live primary of the group. */
  lemma PlanIsFitExactlyWhen(setup: Setup, view: map<string, Backend>, sql: string, session: SessionView, ctx: RoutingContext, plan: RoutePlan)
    requires Keyed(view) && PlanAllowed(setup, view, sql, session, ctx, Ok(plan))
    ensures SchemaOf(setup, sql, session).Some?
    ensures var group := SchemaOf(setup, sql, session).value.backendGroup;
            MayServe(view, plan.backendId, group, plan.role, setup.defaults) <==>
            session.pinned.None? || plan.role == REPLICA || Serves(view, session.pinned.value, group, PRIMARY, setup.defaults)
  {
    hide Classify, ExtractOr, SelectAllowed, Serves;
    if session.pinned.None? || plan.role == REPLICA {
      PlanNamesEligible(setup, view, sql, session, ctx, plan);
    }
  }

  /** The pin is taken for all work of the primary, reads without splitting included, whatever the registry reads. */
  lemma PinIsNeverChecked(setup: Setup, view: map<string, Backend>, sql: string, session: SessionView, ctx: RoutingContext, r: Result<RoutePlan>)
    requires session.pinned.Some? && SchemaOf(setup, sql, session).Some?
    requires PrimaryBound(sql, session) || !SplitsReads(SchemaOf(setup, sql, session).value, setup.routing)
    ensures PlanAllowed(setup, view, sql, session, ctx, r) <==>
            r == Ok(RoutePlan(Classify(sql), ExtractOr(sql, session.currentSchema), session.pinned.value, PRIMARY))
  {
    hide PrimaryBound, Classify, ExtractOr, SelectAllowed;
    PrimaryBoundExactly(sql, session);
  }

  // ---- Which schema, which role ----

  /** The schema a statement is planned by: the one it names, else the session's; and if it is not configured, the catch-all. */
  lemma SchemaResolved(setup: Setup, sql: string, session: SessionView)
    ensures var name := match ExtractSchema(sql) case Some(named) => named case None => session.currentSchema;
            && (name in setup.schemas ==> SchemaOf(setup, sql, session) == Some(setup.schemas[name]))
            && (name !in setup.schemas && "default" in setup.schemas ==> SchemaOf(setup, sql, session) == Some(setup.schemas["default"]))
            && (name !in setup.schemas && "default" !in setup.schemas ==> SchemaOf(setup, sql, session) == None)
  {
    hide Extract;
  }

  /**
   A plan is for a replica exactly when the SQL is a read outside a transaction and
   reads are split: by the schema's own setting, or by the general one if it has none.
  */
  lemma PlanRoleExactly(setup: Setup, view: map<string, Backend>, sql: string, session: SessionView, ctx: RoutingContext, plan: RoutePlan)
    requires PlanAllowed(setup, view, sql, session, ctx, Ok(plan))
    ensures SchemaOf(setup, sql, session).Some? && plan.queryType == Classify(sql)
    ensures var cfg := SchemaOf(setup, sql, session).value;
            plan.role == REPLICA <==>
            && plan.queryType == SELECT && !session.inTransaction
            && (cfg.readWriteSplit == Some(true) || (cfg.readWriteSplit == None && setup.routing.readWriteSplit))
  {
    hide Classify, ExtractOr, SelectAllowed;
  }
}
