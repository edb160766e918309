/**
 The registry of backends: a by-id map and a by-group index built together, and
 entries whose role, state and lag are updated in place, visible to every
 snapshot that holds them.
*/
module BackendRegistry {
  import opened RoutingTypes
  import opened Seqs

  datatype BackendConfig = BackendConfig(id: string, host: string, port: nat, group: string, role: BackendRole, weight: int)

  class Entry {
    const id: string
    const group: string
    const weight: int
    var role: BackendRole
    var state: BackendState
    var lagMs: nat

    constructor (c: BackendConfig)
      ensures id == c.id && group == c.group && Reading() == FreshBackend(c)
    {
      id, group, weight := c.id, c.group, c.weight;
      role, state, lagMs := c.role, HEALTHY, 0;
    }

    function Reading(): Backend
      reads this
    {
      Backend(id, group, role, state, lagMs, weight)
    }
  }

  /** A newly configured backend: healthy, without lag. */
  function FreshBackend(c: BackendConfig): Backend {
    Backend(c.id, c.group, c.role, HEALTHY, 0, c.weight)
  }

  datatype Snapshot = Snapshot(byId: map<string, Entry>, byGroup: map<string, seq<Entry>>)

  ghost predicate KeyedById(byId: map<string, Entry>) {
    forall id :: id in byId ==> byId[id].id == id
  }

  /** `list` is, without repeats, exactly the entries of `byId` in group `g`. */
  ghost predicate GroupList(byId: map<string, Entry>, g: string, list: seq<Entry>) {
    && NoDup(list)
    && (forall e :: e in list ==> e.id in byId && byId[e.id] == e && e.group == g)
    && (forall id :: id in byId && byId[id].group == g ==> byId[id] in list)
  }

  /** The index agrees with the map: every group that has an entry has its exact list, and no other group is present. */
  ghost predicate Indexed(s: Snapshot) {
    && KeyedById(s.byId)
    && (forall g :: g in s.byGroup ==> s.byGroup[g] != [] && GroupList(s.byId, g, s.byGroup[g]))
    && (forall id :: id in s.byId ==> s.byId[id].group in s.byGroup)
  }

  /** The group's list, empty for a group without entries. */
  function ListOf(s: Snapshot, g: string): seq<Entry> {
    if g in s.byGroup then s.byGroup[g] else []
  }

  lemma ListOfIsGroupList(s: Snapshot, g: string)
    requires Indexed(s)
    ensures GroupList(s.byId, g, ListOf(s, g))
  {
  }

  /** Two lists of the same group hold the same entries: the index leaves nothing but the order open. */
  lemma GroupListsAgree(byId: map<string, Entry>, g: string, a: seq<Entry>, b: seq<Entry>)
    requires KeyedById(byId) && GroupList(byId, g, a) && GroupList(byId, g, b)
    ensures Elems(a) == Elems(b) && |a| == |b|
  {
    NoDupSize(a);
    NoDupSize(b);
    assert forall e :: e in a ==> byId[e.id] in b;
    assert forall e :: e in b ==> byId[e.id] in a;
    assert Elems(a) == Elems(b);
  }

  /** The index after one more entry of the by-id map has been appended to its group. */
  lemma AppendToGroup(done: map<string, Entry>, index: map<string, seq<Entry>>, e: Entry)
    requires Indexed(Snapshot(done, index)) && e.id !in done
    ensures Indexed(Snapshot(done[e.id := e], index[e.group := ListOf(Snapshot(done, index), e.group) + [e]]))
  {
    var s := Snapshot(done, index);
    var old' := ListOf(s, e.group);
    ListOfIsGroupList(s, e.group);
    assert e !in old';
    NoDupAppend(old', e);
    var done' := done[e.id := e];
    assert GroupList(done', e.group, old' + [e]);
    forall g | g in index && g != e.group ensures GroupList(done', g, index[g]) {
    }
  }

  // ---- The order of the index ----

  /** An order in which the map may be walked: each key once. */
  ghost predicate Walks(walk: seq<string>, byId: map<string, Entry>) {
    NoDup(walk) && Elems(walk) == byId.Keys
  }

  /** The index filled entry by entry along a walk. */
  function Filled(byId: map<string, Entry>, walk: seq<string>): map<string, seq<Entry>>
    requires forall id :: id in walk ==> id in byId
    decreases |walk|
  {
    if walk == [] then map[]
    else
      var index := Filled(byId, walk[..|walk| - 1]);
      var e := byId[walk[|walk| - 1]];
      index[e.group := (if e.group in index then index[e.group] else []) + [e]]
  }

  lemma NothingFilled(byId: map<string, Entry>)
    ensures Filled(byId, []) == map[]
  {
  }

  lemma FilledStep(byId: map<string, Entry>, walk: seq<string>, id: string)
    requires id in byId && forall x :: x in walk ==> x in byId
    ensures forall x :: x in walk + [id] ==> x in byId
    ensures Filled(byId, walk + [id]) ==
            var index, e := Filled(byId, walk), byId[id];
            index[e.group := (if e.group in index then index[e.group] else []) + [e]]
  {
    assert (walk + [id])[..|walk|] == walk;
  }

  /** The entries of a group in the order of a walk. */
  function InWalkOrder(byId: map<string, Entry>, walk: seq<string>, g: string): seq<Entry>
    requires forall id :: id in walk ==> id in byId
    decreases |walk|
  {
    if walk == [] then []
    else
      var e := byId[walk[|walk| - 1]];
      InWalkOrder(byId, walk[..|walk| - 1], g) + if e.group == g then [e] else []
  }

  /** Each group's list is its entries in the order of the walk, whatever the order of the configuration. */
  lemma {:induction false} IndexIsInWalkOrder(byId: map<string, Entry>, walk: seq<string>, g: string)
    requires forall id :: id in walk ==> id in byId
    ensures var list := InWalkOrder(byId, walk, g);
            (g in Filled(byId, walk) <==> list != []) && (g in Filled(byId, walk) ==> Filled(byId, walk)[g] == list)
    decreases |walk|
  {
    if walk != [] {
      IndexIsInWalkOrder(byId, walk[..|walk| - 1], g);
    }
  }

  /** Of two backends configured in one group, either may stand first in the index: both orders are walks of their map. */
  lemma IndexMayReverseConfigOrder(first: Entry, second: Entry)
    requires first.id != second.id && first.group == second.group
    ensures var byId := map[first.id := first, second.id := second];
            && Walks([first.id, second.id], byId) && Filled(byId, [first.id, second.id]) == map[first.group := [first, second]]
            && Walks([second.id, first.id], byId) && Filled(byId, [second.id, first.id]) == map[first.group := [second, first]]
  {
    var byId := map[first.id := first, second.id := second];
    TwoInOrder(byId, first, second);
    TwoInOrder(byId, second, first);
  }

  lemma TwoInOrder(byId: map<string, Entry>, a: Entry, b: Entry)
    requires a.id != b.id && a.group == b.group && byId == map[a.id := a, b.id := b]
    ensures Walks([a.id, b.id], byId) && Filled(byId, [a.id, b.id]) == map[a.group := [a, b]]
  {
    NothingFilled(byId);
    FilledStep(byId, [], a.id);
    FilledStep(byId, [a.id], b.id);
    hide Filled;
    assert [] + [a.id] == [a.id] && [a.id] + [b.id] == [a.id, b.id];
    assert [] + [a] == [a] && [a] + [b] == [a, b];
    assert Elems([a.id, b.id]) == {a.id, b.id};
  }

  lemma EntriesDistinct(s: Snapshot)
    requires Indexed(s)
    ensures forall j, k :: j in s.byId && k in s.byId && j != k ==> s.byId[j] != s.byId[k]
  {
  }

  lemma KeyedAfterAdd(s: Snapshot, e: Entry)
    requires Indexed(s)
    ensures KeyedById(s.byId[e.id := e])
  {
  }

  lemma KeyedAfterRemove(s: Snapshot, id: string)
    requires Indexed(s)
    ensures KeyedById(s.byId - {id})
  {
  }

  /** Fills the index from the map, in whatever order the map is walked. */
  method Build(byId: map<string, Entry>) returns (s: Snapshot, ghost walk: seq<string>)
    requires KeyedById(byId)
    ensures s.byId == byId && Indexed(s)
    ensures Walks(walk, byId) && s.byGroup == Filled(byId, walk)
  {
    hide Indexed, Filled, NoDup;
    var index: map<string, seq<Entry>> := map[];
    var left := byId.Keys;
    ghost var done: map<string, Entry> := map[];
    walk := [];
    NothingIndexed();
    NothingFilled(byId);
    NoDupNothing();
    while left != {}
      invariant left <= byId.Keys
      invariant done.Keys == byId.Keys - left
      invariant forall id :: id in done ==> done[id] == byId[id]
      invariant Indexed(Snapshot(done, index))
      invariant NoDup(walk) && Elems(walk) == done.Keys
      invariant (forall id :: id in walk ==> id in byId) && index == Filled(byId, walk)
      decreases left
    {
      var id :| id in left;
      var e := byId[id];
      AppendToGroup(done, index, e);
      OneMoreStep(walk, id, done.Keys);
      FilledStep(byId, walk, id);
      index := index[e.group := (if e.group in index then index[e.group] else []) + [e]];
      done := done[id := e];
      left := left - {id};
      walk := walk + [id];
    }
    assert done == byId;
    s := Snapshot(byId, index);
  }

  lemma OneMoreStep(walk: seq<string>, id: string, done: set<string>)
    requires NoDup(walk) && Elems(walk) == done && id !in done
    ensures NoDup(walk + [id]) && Elems(walk + [id]) == done + {id}
  {
    assert forall x :: x in walk ==> x in Elems(walk);
    NoDupAppend(walk, id);
  }

  lemma NoDupNothing()
    ensures NoDup<string>([])
  {
  }

  lemma NothingIndexed()
    ensures Indexed(Snapshot(map[], map[]))
  {
  }

  /** No earlier configuration has the same id. */
  ghost predicate FirstOfItsId(configs: seq<BackendConfig>, i: nat)
    requires i < |configs|
  {
    forall j :: 0 <= j < i ==> configs[j].id != configs[i].id
  }

  ghost predicate UniqueIds(configs: seq<BackendConfig>) {
    forall i :: 0 <= i < |configs| ==> FirstOfItsId(configs, i)
  }

  /** The fields a backend must have. */
  predicate Complete(c: BackendConfig) { c.id != "" && c.host != "" && c.port != 0 && c.group != "" }

  /** The start-up check of the backend list: complete backends, no id twice. */
  method ValidateBackends(configs: seq<BackendConfig>) returns (ok: bool)
    ensures ok <==> (UniqueIds(configs) && forall c :: c in configs ==> c.id != "" && c.host != "" && c.port != 0 && c.group != "")
  {
    var ids: set<string> := {};
    for i := 0 to |configs|
      invariant ids == set c | c in configs[..i] :: c.id
      invariant forall k :: 0 <= k < i ==> FirstOfItsId(configs, k) && Complete(configs[k])
    {
      var b := configs[i];
      assert b in configs;
      if b.id == "" {
        return false;
      }
      if b.host == "" {
        return false;
      }
      if b.port == 0 {
        return false;
      }
      if b.group == "" {
        return false;
      }
      if b.id in ids {
        var c :| c in configs[..i] && c.id == b.id;
        assert !FirstOfItsId(configs, i);
        return false;
      }
      assert FirstOfItsId(configs, i) by {
        forall j | 0 <= j < i ensures configs[j].id != b.id {
          assert configs[j] in configs[..i];
        }
      }
      assert configs[..i + 1] == configs[..i] + [b];
      ids := ids + {b.id};
    }
    ok := true;
  }

  /** What a configuration list reads as: the first configuration of each id. */
  function Loaded(configs: seq<BackendConfig>): map<string, Backend>
    decreases |configs|
  {
    if configs == [] then map[]
    else
      var before, c := Loaded(configs[..|configs| - 1]), configs[|configs| - 1];
      if c.id in before then before else before[c.id := FreshBackend(c)]
  }

  /** It holds exactly the configured ids, each with its first configuration. */
  lemma {:induction false} LoadedKeepsFirst(configs: seq<BackendConfig>)
    ensures Loaded(configs).Keys == set c | c in configs :: c.id
    ensures forall i :: 0 <= i < |configs| && FirstOfItsId(configs, i)
              ==> configs[i].id in Loaded(configs) && var c := configs[i]; Loaded(configs)[c.id] == Backend(c.id, c.group, c.role, HEALTHY, 0, c.weight)
    decreases |configs|
  {
    if configs != [] {
      var n := |configs| - 1;
      var before, c := configs[..n], configs[n];
      LoadedKeepsFirst(before);
      assert configs == before + [c];
      forall i | 0 <= i < |configs| && FirstOfItsId(configs, i)
        ensures configs[i].id in Loaded(configs) && Loaded(configs)[configs[i].id] == FreshBackend(configs[i])
      {
        if i < n {
          assert before[i] == configs[i] && FirstOfItsId(before, i);
        } else {
          assert forall j :: 0 <= j < n ==> before[j] == configs[j];
          assert c.id !in Loaded(before);
        }
      }
    }
  }

  lemma {:induction false} LoadedIsKeyed(configs: seq<BackendConfig>)
    ensures Keyed(Loaded(configs))
    decreases |configs|
  {
    if configs != [] {
      LoadedIsKeyed(configs[..|configs| - 1]);
    }
  }

  /** A registry reading in which every backend stands under its own id. */
  ghost predicate Keyed(view: map<string, Backend>) {
    forall id :: id in view ==> view[id].id == id
  }

  /** One new entry per id, by emplace: a repeated id does not replace the first. */
  method NewEntries(configs: seq<BackendConfig>) returns (byId: map<string, Entry>)
    ensures KeyedById(byId)
    ensures forall id :: id in byId ==> fresh(byId[id])
    ensures byId.Keys == Loaded(configs).Keys
    ensures forall id :: id in byId ==> byId[id].Reading() == Loaded(configs)[id]
  {
    byId := map[];
    for i := 0 to |configs|
      invariant KeyedById(byId)
      invariant forall id :: id in byId ==> fresh(byId[id])
      invariant byId.Keys == Loaded(configs[..i]).Keys
      invariant forall id :: id in byId ==> byId[id].Reading() == Loaded(configs[..i])[id]
    {
      assert configs[..i + 1][..i] == configs[..i];
      var e := new Entry(configs[i]);
      if configs[i].id !in byId {
        byId := byId[configs[i].id := e];
      }
    }
    assert configs[..|configs|] == configs;
  }

  // ---- Updates ----

  datatype Update =
    | LoadAll(configs: seq<BackendConfig>)
    | SetState(id: string, state: BackendState)
    | SetRole(id: string, role: BackendRole)
    | SetLag(id: string, lagMs: nat)
    | AddBackend(config: BackendConfig)
    | RemoveBackend(id: string)

  /** What the registry reads after an update. */
  function Updated(view: map<string, Backend>, u: Update): map<string, Backend> {
    match u
    case LoadAll(configs) => Loaded(configs)
    case SetState(id, state) => if id in view then view[id := view[id].(state := state)] else view
    case SetRole(id, role) => if id in view then view[id := view[id].(role := role)] else view
    case SetLag(id, lagMs) => if id in view then view[id := view[id].(lagMs := lagMs)] else view
    case AddBackend(c) => view[c.id := FreshBackend(c)]
    case RemoveBackend(id) => view - {id}
  }

  function UpdatedAll(view: map<string, Backend>, us: seq<Update>): map<string, Backend>
    decreases |us|
  {
    if us == [] then view else Updated(UpdatedAll(view, us[..|us| - 1]), us[|us| - 1])
  }

  lemma {:induction false} UpdatesKeepKeyed(view: map<string, Backend>, us: seq<Update>)
    requires Keyed(view)
    ensures Keyed(UpdatedAll(view, us))
    decreases |us|
  {
    if us != [] {
      UpdatesKeepKeyed(view, us[..|us| - 1]);
      var u := us[|us| - 1];
      if u.LoadAll? {
        LoadedIsKeyed(u.configs);
      }
    }
  }

  /** The update leaves every backend's role as it is configured. */
  predicate KeepsRoles(u: Update) { u.SetState? || u.SetLag? || u.RemoveBackend? }

  /** Every backend read has its id, group and role from the configuration list. */
  ghost predicate AsConfigured(view: map<string, Backend>, configs: seq<BackendConfig>) {
    forall id :: id in view ==>
      exists c :: c in configs && c.id == id && view[id].id == id && view[id].group == c.group && view[id].role == c.role
  }

  lemma {:induction false} LoadedAsConfigured(configs: seq<BackendConfig>)
    ensures AsConfigured(Loaded(configs), configs)
    decreases |configs|
  {
    if configs != [] {
      var before, c := configs[..|configs| - 1], configs[|configs| - 1];
      LoadedAsConfigured(before);
      assert configs == before + [c];
      forall id | id in Loaded(configs)
        ensures exists d :: d in configs && d.id == id && Loaded(configs)[id].id == id
                            && Loaded(configs)[id].group == d.group && Loaded(configs)[id].role == d.role
      {
        if id in Loaded(before) {
          var d :| d in before && d.id == id && Loaded(before)[id].id == id
                   && Loaded(before)[id].group == d.group && Loaded(before)[id].role == d.role;
          assert d in configs;
        } else {
          assert c in configs;
        }
      }
    }
  }

  /** After a load, and updates of health and lag and removals, every backend is read in the role it is configured for. */
  lemma {:induction false} RolesStayConfigured(configs: seq<BackendConfig>, us: seq<Update>)
    requires forall u :: u in us ==> KeepsRoles(u)
    ensures AsConfigured(UpdatedAll(Loaded(configs), us), configs)
    decreases |us|
  {
    if us == [] {
      LoadedAsConfigured(configs);
    } else {
      RolesStayConfigured(configs, us[..|us| - 1]);
      assert KeepsRoles(us[|us| - 1]);
    }
  }

  class Registry {
    var current: Snapshot
    var version: nat

    ghost predicate Valid()
      reads this
    {
      Indexed(current)
    }

    /** Every backend as it reads now. */
    ghost function View(): map<string, Backend>
      reads this, current.byId.Values
    {
      map id | id in current.byId :: current.byId[id].Reading()
    }

    constructor ()
      ensures Valid() && View() == map[] && version == 0
    {
      current := Snapshot(map[], map[]);
      version := 0;
    }

    /** The first configuration of each id is kept; a validated list, without repeats, loses none. */
    method Load(configs: seq<BackendConfig>)
      requires Valid()
      modifies this
      ensures Valid() && version == old(version) + 1
      ensures forall id :: id in current.byId ==> fresh(current.byId[id])
      ensures View() == Loaded(configs)
      ensures View().Keys == set c | c in configs :: c.id
      ensures forall i :: 0 <= i < |configs| && FirstOfItsId(configs, i)
                ==> configs[i].id in View() && var c := configs[i]; View()[c.id] == Backend(c.id, c.group, c.role, HEALTHY, 0, c.weight)
      ensures UniqueIds(configs) ==>
                forall c :: c in configs ==> c.id in View() && View()[c.id] == Backend(c.id, c.group, c.role, HEALTHY, 0, c.weight)
    {
      var byId := NewEntries(configs);
      LoadedKeepsFirst(configs);
      hide Indexed, KeyedById, Loaded, Filled, Walks;
      ghost var walk;
      current, walk := Build(byId);
      version := version + 1;
    }

    /** The entries of a group with a role: exactly what a full filter of the by-id map gives. */
    method GetGroupByRole(group: string, role: BackendRole) returns (out: seq<Entry>)
      requires Valid()
      ensures NoDup(out)
      ensures forall e :: e in out ==> e.id in current.byId && current.byId[e.id] == e && e.group == group && e.role == role
      ensures forall id :: id in current.byId && current.byId[id].group == group && current.byId[id].role == role
                ==> current.byId[id] in out
    {
      out := [];
      if group !in current.byGroup {
        return;
      }
      var list := current.byGroup[group];
      for i := 0 to |list|
        invariant NoDup(out)
        invariant forall e :: e in out ==> e in list[..i] && e.role == role
        invariant forall e :: e in list[..i] && e.role == role ==> e in out
      {
        assert list[..i + 1] == list[..i] + [list[i]];
        assert list[i] !in list[..i];
        if list[i].role == role {
          out := out + [list[i]];
        }
      }
      assert list[..|list|] == list;
    }

    method Add(c: BackendConfig)
      requires Valid()
      modifies this
      ensures Valid() && version == old(version) + 1
      ensures View() == old(View())[c.id := Backend(c.id, c.group, c.role, HEALTHY, 0, c.weight)]
      ensures forall id :: id in current.byId ==> current.byId[id] in old(current.byId.Values) || fresh(current.byId[id])
    {
      hide Indexed, KeyedById, Filled, Walks;
      var e := new Entry(c);
      var copy := current.byId[c.id := e];
      KeyedAfterAdd(current, e);
      ghost var walk;
      current, walk := Build(copy);
      version := version + 1;
    }

    method Remove(id: string)
      requires Valid()
      modifies this
      ensures Valid()
      ensures View() == old(View()) - {id}
      ensures current.byId.Values <= old(current.byId.Values)
      ensures version == if id in old(View()) then old(version) + 1 else old(version)
    {
      hide Indexed, KeyedById, Filled, Walks;
      if id !in current.byId {
        assert View() - {id} == View();
        return;
      }
      var copy := current.byId - {id};
      KeyedAfterRemove(current, id);
      ghost var walk;
      current, walk := Build(copy);
      version := version + 1;
    }

    method UpdateState(id: string, state: BackendState)
      requires Valid()
      modifies this`version, current.byId.Values`state
      ensures Valid() && current == old(current)
      ensures id in old(View()) ==> View() == old(View())[id := old(View())[id].(state := state)] && version == old(version) + 1
      ensures id !in old(View()) ==> View() == old(View()) && version == old(version)
    {
      hide Indexed;
      EntriesDistinct(current);
      if id in current.byId {
        current.byId[id].state := state;
        version := version + 1;
      }
    }

    method UpdateRole(id: string, role: BackendRole)
      requires Valid()
      modifies this`version, current.byId.Values`role
      ensures Valid() && current == old(current)
      ensures id in old(View()) ==> View() == old(View())[id := old(View())[id].(role := role)] && version == old(version) + 1
      ensures id !in old(View()) ==> View() == old(View()) && version == old(version)
    {
      hide Indexed;
      EntriesDistinct(current);
      if id in current.byId {
        current.byId[id].role := role;
        version := version + 1;
      }
    }

    method UpdateLag(id: string, lagMs: nat)
      requires Valid()
      modifies current.byId.Values`lagMs
      ensures Valid() && current == old(current) && version == old(version)
      ensures id in old(View()) ==> View() == old(View())[id := old(View())[id].(lagMs := lagMs)]
      ensures id !in old(View()) ==> View() == old(View())
    {
      hide Indexed;
      EntriesDistinct(current);
      if id in current.byId {
        current.byId[id].lagMs := lagMs;
      }
    }

    /** One update, whichever it is, as the maintenance of the registry issues it. */
    method Apply(u: Update)
      requires Valid()
      modifies this, current.byId.Values
      ensures Valid() && View() == Updated(old(View()), u)
      ensures forall id :: id in current.byId ==> current.byId[id] in old(current.byId.Values) || fresh(current.byId[id])
    {
      hide Indexed;
      match u
      case LoadAll(configs) => Load(configs);
      case SetState(id, state) => UpdateState(id, state);
      case SetRole(id, role) => UpdateRole(id, role);
      case SetLag(id, lagMs) => UpdateLag(id, lagMs);
      case AddBackend(c) => Add(c);
      case RemoveBackend(id) => Remove(id);
    }

    method ApplyAll(us: seq<Update>)
      requires Valid()
      modifies this, current.byId.Values
      ensures Valid() && View() == UpdatedAll(old(View()), us)
      ensures forall id :: id in current.byId ==> current.byId[id] in old(current.byId.Values) || fresh(current.byId[id])
    {
      hide Indexed, Updated;
      for i := 0 to |us|
        invariant Valid() && View() == UpdatedAll(old(View()), us[..i])
        invariant forall id :: id in current.byId ==> current.byId[id] in old(current.byId.Values) || fresh(current.byId[id])
      {
        Apply(us[i]);
        assert us[..i + 1][..i] == us[..i];
      }
      assert us[..|us|] == us;
    }
  }

  /** A valid registry always reads as a keyed view. */
  lemma ValidRegistryIsKeyed(registry: Registry)
    requires registry.Valid()
    ensures Keyed(registry.View())
  {
  }
}
