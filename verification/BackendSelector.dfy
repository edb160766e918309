/** Filtering a group's backends by role, health and lag, falling back to the primary, then applying the policy. */
module BackendSelector {
  import opened Options
  import opened Seqs
  import opened RoutingTypes
  import opened Residues
  import opened RoutingPolicies
  import opened BackendRegistry

  datatype SchemaConfig = SchemaConfig(name: string, backendGroup: string, policy: Option<Policy>, readWriteSplit: Option<bool>)

  datatype RoutingConfig = RoutingConfig(defaultPolicy: Policy, readWriteSplit: bool, replicationAware: bool, maxReplicaLagMs: nat)

  predicate UsableForRole(st: BackendState, role: BackendRole) {
    st == HEALTHY || (role == PRIMARY && st == DEGRADED)
  }

  predicate TooFarBehind(b: Backend, role: BackendRole, cfg: RoutingConfig) {
    role == REPLICA && cfg.replicationAware && b.lagMs > cfg.maxReplicaLagMs
  }

  predicate Passes(b: Backend, role: BackendRole, cfg: RoutingConfig) {
    UsableForRole(b.state, role) && !TooFarBehind(b, role, cfg)
  }

  predicate Eligible(b: Backend, group: string, role: BackendRole, cfg: RoutingConfig) {
    b.group == group && b.role == role && Passes(b, role, cfg)
  }

  /** The eligible backends of a registry reading. */
  function EligibleSet(view: map<string, Backend>, group: string, role: BackendRole, cfg: RoutingConfig): set<Backend> {
    set id | id in view && Eligible(view[id], group, role, cfg) :: view[id]
  }

  /** Where the choice is made: the requested role, or the primaries when no replica is eligible. */
  function ChoicePool(view: map<string, Backend>, group: string, role: BackendRole, cfg: RoutingConfig): set<Backend> {
    var own := EligibleSet(view, group, role, cfg);
    if own == {} && role == REPLICA then EligibleSet(view, group, PRIMARY, cfg) else own
  }

  function PolicyOf(schema: SchemaConfig, cfg: RoutingConfig): Policy {
    match schema.policy
    case Some(p) => p
    case None => cfg.defaultPolicy
  }

  /** Every signal is at its maximum, so no candidate beats the initial bound. */
  ghost predicate Saturated(signal: Option<string -> nat>, pool: set<Backend>) {
    signal.Some? && forall b :: b in pool ==> signal.value(b.id) >= U64_MAX
  }

  ghost predicate Best(signal: Option<string -> nat>, pool: set<Backend>, id: string) {
    signal.Some? ==> forall b :: b in pool ==> signal.value(id) <= signal.value(b.id)
  }

  /** What a policy may return for a non-empty pool. */
  ghost predicate MayChoose(signal: Option<string -> nat>, pool: set<Backend>, id: string) {
    if Saturated(signal, pool) then id == ""
    else (exists b :: b in pool && b.id == id) && Best(signal, pool, id)
  }

  /** `c` lists the pool, in some order. */
  ghost predicate Lists(c: seq<Backend>, pool: set<Backend>) { DistinctIds(c) && Elems(c) == pool }

  function Named(id: string): Result<string> { if id == "" then Err(NO_BACKEND_AVAILABLE) else Ok(id) }

  /** What select() returns on a registry reading, given a draw and the policy's counter: only the order of the pool is open. */
  ghost predicate SelectResult(view: map<string, Backend>, schema: SchemaConfig, role: BackendRole, cfg: RoutingConfig,
                               ctx: RoutingContext, draw: nat, count: nat, r: Result<string>) {
    var pool := ChoicePool(view, schema.backendGroup, role, cfg);
    if pool == {} then r == Err(NO_BACKEND_AVAILABLE)
    else exists c :: Lists(c, pool) && c != [] && r == Named(Choice(PolicyOf(schema, cfg), c, ctx, draw, count))
  }

  /** The outcomes over all draws and counter values. */
  ghost predicate SelectAllowed(view: map<string, Backend>, schema: SchemaConfig, role: BackendRole,
                                cfg: RoutingConfig, ctx: RoutingContext, r: Result<string>) {
    exists draw: nat, count: nat :: count < U64_LIMIT && SelectResult(view, schema, role, cfg, ctx, draw, count, r)
  }

  /** Every policy returns a member of its list that its signal likes best, or nothing when all signals are at their maximum. */
  lemma ChoiceMayChoose(p: Policy, c: seq<Backend>, ctx: RoutingContext, draw: nat, count: nat)
    requires c != []
    ensures MayChoose(SignalOf(p, ctx), Elems(c), Choice(p, c, ctx, draw, count))
  {
    hide Drawn, Least, FailoverIndex, MayChoose;
    match SignalOf(p, ctx)
    case Some(signal) => LeastMayChoose(c, signal);
    case None =>
      var i := match p
        case RANDOM => draw % |c|
        case WEIGHTED => Drawn(c, draw % Total(c))
        case FAILOVER => FailoverIndex(c)
        case _ => count % |c|;
      MemberMayBeChosen(c, i);
  }

  lemma MemberMayBeChosen(c: seq<Backend>, i: nat)
    requires i < |c|
    ensures MayChoose(None, Elems(c), c[i].id)
  {
    assert c[i] in Elems(c);
  }

  lemma ResultMayChoose(view: map<string, Backend>, schema: SchemaConfig, role: BackendRole,
                        cfg: RoutingConfig, ctx: RoutingContext, r: Result<string>) returns (id: string)
    requires SelectAllowed(view, schema, role, cfg, ctx, r)
    requires ChoicePool(view, schema.backendGroup, role, cfg) != {}
    ensures MayChoose(SignalOf(PolicyOf(schema, cfg), ctx), ChoicePool(view, schema.backendGroup, role, cfg), id) && r == Named(id)
  {
    hide MayChoose, ChoicePool, Choice;
    var draw: nat, count: nat :| count < U64_LIMIT && SelectResult(view, schema, role, cfg, ctx, draw, count, r);
    var pool, p := ChoicePool(view, schema.backendGroup, role, cfg), PolicyOf(schema, cfg);
    var c :| Lists(c, pool) && c != [] && r == Named(Choice(p, c, ctx, draw, count));
    ChoiceMayChoose(p, c, ctx, draw, count);
    id := Choice(p, c, ctx, draw, count);
  }

  /** A successful selection names a member of the pool, the best by the policy's signal if it has one. */
  lemma SelectedIsInPool(view: map<string, Backend>, schema: SchemaConfig, role: BackendRole,
                         cfg: RoutingConfig, ctx: RoutingContext, id: string)
    requires SelectAllowed(view, schema, role, cfg, ctx, Ok(id))
    ensures var pool := ChoicePool(view, schema.backendGroup, role, cfg);
            (exists b :: b in pool && b.id == id) && Best(SignalOf(PolicyOf(schema, cfg), ctx), pool, id)
  {
    hide SelectAllowed, ChoicePool;
    if ChoicePool(view, schema.backendGroup, role, cfg) == {} {
      EmptyPoolFails(view, schema, role, cfg, ctx, Ok(id));
    } else {
      var got := ResultMayChoose(view, schema, role, cfg, ctx, Ok(id));
    }
  }

  lemma EmptyPoolFails(view: map<string, Backend>, schema: SchemaConfig, role: BackendRole,
                       cfg: RoutingConfig, ctx: RoutingContext, r: Result<string>)
    requires SelectAllowed(view, schema, role, cfg, ctx, r) && ChoicePool(view, schema.backendGroup, role, cfg) == {}
    ensures r == Err(NO_BACKEND_AVAILABLE)
  {
    hide ChoicePool;
    var draw: nat, count: nat :| count < U64_LIMIT && SelectResult(view, schema, role, cfg, ctx, draw, count, r);
  }

  ghost predicate NamedBackends(view: map<string, Backend>) {
    forall id :: id in view ==> id != "" && view[id].id == id
  }

  /** With no live signal supplied, selection fails exactly when no backend is eligible. */
  lemma SelectFailsExactlyWhenNoneEligible(view: map<string, Backend>, schema: SchemaConfig, role: BackendRole,
                                           cfg: RoutingConfig, ctx: RoutingContext, r: Result<string>)
    requires NamedBackends(view) && ctx == RoutingContext(None, None)
    requires SelectAllowed(view, schema, role, cfg, ctx, r)
    ensures r.Err? <==> forall id :: id in view ==>
              !Eligible(view[id], schema.backendGroup, role, cfg) && !Eligible(view[id], schema.backendGroup, PRIMARY, cfg)
  {
    var group := schema.backendGroup;
    var pool := ChoicePool(view, group, role, cfg);
    EmptyPoolExactly(view, group, role, cfg);
    hide SelectAllowed;
    if pool == {} {
      EmptyPoolFails(view, schema, role, cfg, ctx, r);
    } else {
      var id := ResultMayChoose(view, schema, role, cfg, ctx, r);
      var b :| b in pool && b.id == id;
      assert b.id in view && b.id != "";
    }
  }

  lemma EmptyPoolExactly(view: map<string, Backend>, group: string, role: BackendRole, cfg: RoutingConfig)
    ensures ChoicePool(view, group, role, cfg) == {} <==>
            forall id :: id in view ==> !Eligible(view[id], group, role, cfg) && !Eligible(view[id], group, PRIMARY, cfg)
  {
    EmptySetExactly(view, group, role, cfg);
    EmptySetExactly(view, group, PRIMARY, cfg);
  }

  lemma EmptySetExactly(view: map<string, Backend>, group: string, role: BackendRole, cfg: RoutingConfig)
    ensures EligibleSet(view, group, role, cfg) == {} <==> forall id :: id in view ==> !Eligible(view[id], group, role, cfg)
  {
    if id :| id in view && Eligible(view[id], group, role, cfg) {
      assert view[id] in EligibleSet(view, group, role, cfg);
    }
  }

  // ---- Failover and the order of the list ----

  /** On the selector's own candidates the failover policy's test of the state never fires: it takes the head. */
  lemma FailoverTakesHead(c: seq<Backend>, role: BackendRole, cfg: RoutingConfig)
    requires c != [] && forall b :: b in c ==> Passes(b, role, cfg)
    ensures FailoverIndex(c) == 0
  {
    assert c[0] in c;
  }

  ghost predicate SeparateIds(pool: set<Backend>) {
    forall a, b :: a in pool && b in pool && a != b ==> a.id != b.id
  }

  lemma {:induction false} ListPool(pool: set<Backend>) returns (c: seq<Backend>)
    requires SeparateIds(pool)
    ensures Lists(c, pool)
    decreases |pool|
  {
    if pool == {} {
      c := [];
    } else {
      var b :| b in pool;
      var rest := ListPool(pool - {b});
      c := ListBehind(b, rest, pool);
    }
  }

  lemma ListBehind(b: Backend, rest: seq<Backend>, pool: set<Backend>) returns (c: seq<Backend>)
    requires SeparateIds(pool) && b in pool && Lists(rest, pool - {b})
    ensures Lists(c, pool) && c != [] && c[0] == b
  {
    c := [b] + rest;
    assert Elems(c) == {b} + Elems(rest);
    forall j | 0 <= j < |rest| ensures rest[j].id != b.id {
      assert rest[j] in Elems(rest);
    }
  }

  /** Every member of a pool heads some list of it. */
  lemma ListWithHead(pool: set<Backend>, b: Backend) returns (c: seq<Backend>)
    requires SeparateIds(pool) && b in pool
    ensures Lists(c, pool) && c != [] && c[0] == b
  {
    var rest := ListPool(pool - {b});
    c := ListBehind(b, rest, pool);
  }

  /** Failover chooses the same backend from all lists of the pool. */
  ghost predicate OrderFree(pool: set<Backend>) {
    forall c, d :: Lists(c, pool) && Lists(d, pool) && c != [] && d != [] ==> c[FailoverIndex(c)] == d[FailoverIndex(d)]
  }

  /** Among usable candidates failover does not depend on the order of the list exactly when there is only one. */
  lemma FailoverIsOrderFreeExactlyWhen(pool: set<Backend>, role: BackendRole, cfg: RoutingConfig)
    requires pool != {} && SeparateIds(pool) && forall b :: b in pool ==> Passes(b, role, cfg)
    ensures OrderFree(pool) <==> |pool| == 1
  {
    hide FailoverIndex, Passes;
    var a :| a in pool;
    if pool - {a} == {} {
      assert pool == {a};
      forall c, d | Lists(c, pool) && Lists(d, pool) && c != [] && d != []
        ensures c[FailoverIndex(c)] == d[FailoverIndex(d)]
      {
        assert c[FailoverIndex(c)] in Elems(c) && d[FailoverIndex(d)] in Elems(d);
      }
    } else {
      var b :| b in pool - {a};
      assert |pool| == 1 + |pool - {a}| && |pool - {a}| > 0;
      var c := ListWithHead(pool, a);
      var d := ListWithHead(pool, b);
      assert (forall x :: x in c ==> x in Elems(c)) && (forall x :: x in d ==> x in Elems(d));
      FailoverTakesHead(c, role, cfg);
      FailoverTakesHead(d, role, cfg);
    }
  }

  // ---- The object ----

  /** The entries usable for the role, as they read now. */
  method FilterUsable(list: seq<Entry>, role: BackendRole, cfg: RoutingConfig) returns (out: seq<Backend>)
    requires forall i, j :: 0 <= i < j < |list| ==> list[i].id != list[j].id
    ensures DistinctIds(out)
    ensures forall b :: b in out ==> Passes(b, role, cfg) && exists e :: e in list && e.Reading() == b
    ensures forall e :: e in list && Passes(e.Reading(), role, cfg) ==> e.Reading() in out
  {
    out := [];
    for i := 0 to |list|
      invariant DistinctIds(out)
      invariant forall b :: b in out ==> Passes(b, role, cfg) && exists j :: 0 <= j < i && list[j].Reading() == b
      invariant forall j :: 0 <= j < i && Passes(list[j].Reading(), role, cfg) ==> list[j].Reading() in out
    {
      var b := list[i].Reading();
      if !UsableForRole(b.state, role) {
        continue;
      }
      if TooFarBehind(b, role, cfg) {
        continue;
      }
      OneMoreDistinct(out, b, list, i);
      out := out + [b];
    }
  }

  lemma OneMoreDistinct(out: seq<Backend>, b: Backend, list: seq<Entry>, i: nat)
    requires forall k, j :: 0 <= k < j < |list| ==> list[k].id != list[j].id
    requires i < |list| && b.id == list[i].id && DistinctIds(out)
    requires forall a :: a in out ==> exists j :: 0 <= j < i && list[j].Reading() == a
    ensures DistinctIds(out + [b])
  {
    forall k | 0 <= k < |out| ensures out[k].id != b.id {
      assert out[k] in out;
      var j :| 0 <= j < i && list[j].Reading() == out[k];
    }
  }

  lemma EmptyElems(c: seq<Backend>)
    ensures c == [] <==> Elems(c) == {}
  {
    if c != [] {
      assert c[0] in Elems(c);
    }
  }

  /** The candidate that call number `i` chooses from its list when the counter starts at `k`. */
  function InTurn(lists: seq<seq<Backend>>, k: nat, i: nat): string
    requires lists != [] && forall j :: 0 <= j < |lists| ==> lists[j] != []
  {
    var c := ListInTurn(lists, i);
    c[Wrapped(k + i) % |c|].id
  }

  /** The lists come round in turn. */
  function ListInTurn(lists: seq<seq<Backend>>, i: nat): (c: seq<Backend>)
    requires lists != [] && forall j :: 0 <= j < |lists| ==> lists[j] != []
    ensures c != []
  {
    lists[i % |lists|]
  }

  lemma WrappedOnce(k: nat)
    requires k < U64_LIMIT
    ensures Wrapped(k + 0) == k
  {
  }

  /** Turn number `i` of list `j` sees the counter at k + j + |lists| * i, as long as it does not wrap. */
  lemma TurnsOfList(lists: seq<seq<Backend>>, k: nat, j: nat, i: nat)
    requires j < |lists| && forall j :: 0 <= j < |lists| ==> lists[j] != []
    requires k + j + |lists| * i < U64_LIMIT
    ensures InTurn(lists, k, j + |lists| * i) == lists[j][(k + j + |lists| * i) % |lists[j]|].id
  {
    var l := |lists|;
    assert l * i >= 0 && j + l * i == i * l + j;
    ResidueIsUnique(j + l * i, i, j, l);
  }

  class Selector {
    const registry: Registry
    const defaults: RoutingConfig
    const roundRobin: Counter
    const leastConnections: Counter
    const latency: Counter
    const consistentHashing: Counter

    ghost predicate Valid()
      reads registry, roundRobin, leastConnections, latency, consistentHashing
    {
      registry.Valid() && roundRobin.Valid() && leastConnections.Valid() && latency.Valid() && consistentHashing.Valid()
    }

    ghost function Counters(): set<object> { {roundRobin, leastConnections, latency, consistentHashing} }

    constructor (registry: Registry, defaults: RoutingConfig)
      requires registry.Valid()
      ensures this.registry == registry && this.defaults == defaults && Valid()
    {
      this.registry, this.defaults := registry, defaults;
      roundRobin := new Counter();
      leastConnections := new Counter();
      latency := new Counter();
      consistentHashing := new Counter();
    }

    /** The pool of the role, listed in the order of the group's index. */
    method Candidates(group: string, role: BackendRole) returns (out: seq<Backend>)
      requires registry.Valid()
      ensures Lists(out, EligibleSet(registry.View(), group, role, defaults))
    {
      var list := registry.GetGroupByRole(group, role);
      assert forall i, j :: 0 <= i < j < |list| ==> list[i] in list && list[j] in list && list[i] != list[j];
      out := FilterUsable(list, role, defaults);
      ghost var view := registry.View();
      forall b | b in out ensures b in EligibleSet(view, group, role, defaults) {
        var e :| e in list && e.Reading() == b;
        assert view[e.id] == b;
      }
      forall b | b in EligibleSet(view, group, role, defaults) ensures b in out {
        var id :| id in view && Eligible(view[id], group, role, defaults) && view[id] == b;
        assert registry.current.byId[id] in list;
      }
    }

    /** The counter a policy uses. */
    function CountOf(p: Policy): nat
      reads roundRobin, leastConnections, latency, consistentHashing
    {
      match p
      case LEAST_CONNECTIONS => leastConnections.value
      case LATENCY => latency.value
      case CONSISTENT_HASHING => consistentHashing.value
      case _ => roundRobin.value
    }

    /** One policy applied to a non-empty list; `draw` is the random number it may use. */
    method Choose(p: Policy, c: seq<Backend>, ctx: RoutingContext, draw: nat) returns (id: string)
      requires Valid() && c != []
      modifies Counters()
      ensures Valid() && id == Choice(p, c, ctx, draw, old(CountOf(p)))
      ensures p == ROUND_ROBIN ==> CountOf(p) == (old(CountOf(p)) + 1) % U64_LIMIT
    {
      match p {
        case ROUND_ROBIN => id := roundRobin.RoundRobin(c);
        case CONSISTENT_HASHING => id := consistentHashing.RoundRobin(c);
        case RANDOM => id := c[draw % |c|].id;
        case WEIGHTED => id := Weighted(c, draw % Total(c));
        case FAILOVER => id := Failover(c);
        case LEAST_CONNECTIONS => id := LeastOrRoundRobin(leastConnections, c, ctx.activeConnections);
        case LATENCY => id := LeastOrRoundRobin(latency, c, ctx.latencyUs);
      }
    }

    /**
     Lists of different groups or roles, served in turn by round robin: they share the
     selector's one counter, so the j-th of L lists sees only every L-th of its values.
    */
    method ServeInTurn(lists: seq<seq<Backend>>, n: nat) returns (ids: seq<string>)
      requires Valid() && lists != [] && forall j :: 0 <= j < |lists| ==> lists[j] != []
      modifies Counters()
      ensures Valid() && |ids| == n
      ensures forall i :: 0 <= i < n ==> ids[i] == InTurn(lists, old(CountOf(ROUND_ROBIN)), i)
    {
      hide ListInTurn, Wrapped, Indexed;
      ids := [];
      ghost var k := CountOf(ROUND_ROBIN);
      WrappedOnce(k);
      for i := 0 to n
        invariant Valid() && |ids| == i && CountOf(ROUND_ROBIN) == Wrapped(k + i)
        invariant forall j :: 0 <= j < i ==> ids[j] == InTurn(lists, k, j)
      {
        var c := ListInTurn(lists, i);
        var id := Choose(ROUND_ROBIN, c, RoutingContext(None, None), 0);
        NextValue(k + i);
        ids := ids + [id];
      }
    }

    method LeastOrRoundRobin(counter: Counter, c: seq<Backend>, signal: Option<string -> nat>) returns (id: string)
      requires counter.Valid() && c != []
      modifies counter
      ensures counter.Valid()
      ensures id == match signal case None => c[old(counter.value) % |c|].id case Some(f) => Least(c, f, "", U64_MAX)
    {
      if signal.None? {
        id := counter.RoundRobin(c);
      } else {
        id := LeastOf(c, signal.value);
      }
    }

    method Select(schema: SchemaConfig, role: BackendRole, ctx: RoutingContext, draw: nat) returns (r: Result<string>)
      requires Valid()
      modifies Counters()
      ensures Valid() && registry.View() == old(registry.View())
      ensures SelectResult(registry.View(), schema, role, defaults, ctx, draw, old(CountOf(PolicyOf(schema, defaults))), r)
    {
      hide Indexed, EligibleSet, Choice, DistinctIds;
      var group := schema.backendGroup;
      var candidates := Candidates(group, role);
      EmptyElems(candidates);
      if candidates == [] && role == REPLICA {
        candidates := Candidates(group, PRIMARY);
        EmptyElems(candidates);
      }
      if candidates == [] {
        return Err(NO_BACKEND_AVAILABLE);
      }
      var chosen := Choose(PolicyOf(schema, defaults), candidates, ctx, draw);
      r := if chosen == "" then Err(NO_BACKEND_AVAILABLE) else Ok(chosen);
    }
  }

  lemma LeastMayChoose(c: seq<Backend>, signal: string -> nat)
    requires c != []
    ensures MayChoose(Some(signal), Elems(c), Least(c, signal, "", U64_MAX))
  {
    LeastSpec(c, signal, "", U64_MAX);
    if NoneBelow(c, signal, U64_MAX) {
      assert Saturated(Some(signal), Elems(c));
    } else {
      var id := Least(c, signal, "", U64_MAX);
      var i :| LeastAt(c, signal, U64_MAX, i) && c[i].id == id;
      assert c[i] in Elems(c);
    }
  }

  // ---- Who is eligible, and which settings count ----

  /**
   A backend serves its group in its role if it is healthy, or degraded and a primary,
   and, for replicas under lag control, not too far behind.
  */
  lemma EligibleByFields(b: Backend, group: string, role: BackendRole, cfg: RoutingConfig)
    ensures Eligible(b, group, role, cfg) <==>
            && b.group == group && b.role == role
            && (role == PRIMARY ==> b.state == HEALTHY || b.state == DEGRADED)
            && (role == REPLICA ==> b.state == HEALTHY && (cfg.replicationAware ==> b.lagMs <= cfg.maxReplicaLagMs))
  {
  }

  /** A schema's own policy counts before the default one. */
  lemma SchemaPolicyCounts(view: map<string, Backend>, schema: SchemaConfig, role: BackendRole, cfg: RoutingConfig,
                           ctx: RoutingContext, draw: nat, count: nat, r: Result<string>, p: Policy)
    ensures schema.policy == Some(p) ==>
            (SelectResult(view, schema, role, cfg, ctx, draw, count, r) <==>
             SelectResult(view, schema, role, cfg.(defaultPolicy := p), ctx, draw, count, r))
    ensures schema.policy == None && cfg.defaultPolicy == p ==>
            (SelectResult(view, schema, role, cfg, ctx, draw, count, r) <==>
             SelectResult(view, schema.(policy := Some(p)), role, cfg, ctx, draw, count, r))
  {
    hide Choice, Lists, Named;
    SamePool(view, schema.backendGroup, role, cfg, p);
    if schema.policy == None && cfg.defaultPolicy == p {
      assert PolicyOf(schema, cfg) == PolicyOf(schema.(policy := Some(p)), cfg);
    }
  }

  lemma SamePool(view: map<string, Backend>, group: string, role: BackendRole, cfg: RoutingConfig, p: Policy)
    ensures ChoicePool(view, group, role, cfg.(defaultPolicy := p)) == ChoicePool(view, group, role, cfg)
  {
    var cfg' := cfg.(defaultPolicy := p);
    assert forall id, r :: id in view ==> Eligible(view[id], group, r, cfg') == Eligible(view[id], group, r, cfg);
    assert EligibleSet(view, group, role, cfg') == EligibleSet(view, group, role, cfg);
    assert EligibleSet(view, group, PRIMARY, cfg') == EligibleSet(view, group, PRIMARY, cfg);
  }
}
