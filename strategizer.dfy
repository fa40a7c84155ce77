/** The strategizer: the per-tick engine that discovers units, gives each
    recognised one an agent, maps every agent to a manager and rebuilds the
    managers' memberships from that map. */
module Strategizer {
  import opened Agents
  import OrderedKeys
  import Routing
  import SupplyManager

  /** The host reports a set of units: no two share a handle. */
  predicate UniqueIds(units: seq<Unit>)
  {
    forall i, j :: 0 <= i < j < |units| ==> units[i].id != units[j].id
  }

  /** A unit discovery gives a new agent: completed, of a recognised kind,
      and not yet in the table. */
  predicate Discoverable(u: Unit, known: set<UnitId>)
  {
    u.completed && u.id !in known && AgentKindOf(u.kind).Some?
  }

  /** The units a discovery pass over `units` adds to a table with keys `known`. */
  function NewUnits(units: seq<Unit>, known: set<UnitId>): set<UnitId>
  {
    set u | u in units && Discoverable(u, known) :: u.id
  }

  /** The agent discovery creates for a discoverable unit. */
  function Spawned(u: Unit): Agent
    requires AgentKindOf(u.kind).Some?
  {
    NewAgent(u.id, AgentKindOf(u.kind).value)
  }

  lemma NewUnitsExtend(units: seq<Unit>, known: set<UnitId>, i: nat)
    requires i < |units|
    ensures NewUnits(units[..i + 1], known) ==
              NewUnits(units[..i], known) + if Discoverable(units[i], known) then {units[i].id} else {}
  {
    assert units[..i + 1] == units[..i] + [units[i]];
  }

  /** Discovery is idempotent: a second pass over the same units, against
      the table the first pass produced, adds nothing. */
  lemma DiscoveryIdempotent(units: seq<Unit>, known: set<UnitId>)
    ensures NewUnits(units, known + NewUnits(units, known)) == {}
  {
  }

  /** Discovery never adds an incomplete unit nor a unit of a kind that has
      no agent class, and every unit it adds comes from the host's list. */
  lemma DiscoveryOnlyRecognised(units: seq<Unit>, known: set<UnitId>)
    ensures forall id :: id in NewUnits(units, known) ==>
              id !in known && exists u :: u in units && u.id == id && u.completed && u.kind != Other
  {
  }

  /** The walk order lists exactly the keys of the table, in increasing order. */
  ghost predicate KeysInOrder(uam: map<UnitId, AgentId>, order: seq<UnitId>)
  {
    OrderedKeys.Increasing(order) && forall u :: u in order <==> u in uam
  }

  /** Agent handles are below `next`, and a table entry and a live agent
      point at each other: the entry of unit `u` names an agent bound to
      `u` (when that agent is live), and every live agent is named by the
      entry of its own unit. So no two units share a live agent. */
  ghost predicate AgentsBound(uam: map<UnitId, AgentId>, agents: map<AgentId, Agent>, next: AgentId)
  {
    && (forall u :: u in uam ==> uam[u] < next)
    && (forall u :: u in uam && uam[u] in agents ==> agents[uam[u]].unit == u)
    && (forall a :: a in agents ==> a < next && agents[a].unit in uam && uam[agents[a].unit] == a)
  }

  /** Each agent in the deletion trace was allocated and is no longer live. */
  ghost predicate DeletedRetired(deleted: seq<AgentId>, agents: map<AgentId, Agent>, next: AgentId)
  {
    && (forall i :: 0 <= i < |deleted| ==> deleted[i] < next && deleted[i] !in agents)
  }

  /** The table entries and memberships name live agents only. */
  ghost predicate NoDangling(uam: map<UnitId, AgentId>, agents: map<AgentId, Agent>, members: map<ManagerId, set<AgentId>>)
  {
    && (forall u :: u in uam ==> uam[u] in agents)
    && (forall m :: m in members ==> members[m] <= agents.Keys)
  }

  /** A unit of the host's list whose handle is unique was not added by
      the discovery of the units before it. */
  lemma FreshId(units: seq<Unit>, known: set<UnitId>, i: nat)
    requires UniqueIds(units) && i < |units|
    ensures units[i].id !in NewUnits(units[..i], known)
  {
    forall w | w in units[..i]
      ensures w.id != units[i].id
    {
      var j :| 0 <= j < i && units[..i][j] == w;
    }
  }

  /** The loop invariant of discovery after the first `i` units: starting
      from the table `uam0` and agents `agents0`, exactly the discoverable
      units among them have been added, each with a fresh agent of its
      class, and nothing that was there has changed. */
  ghost predicate DiscoveredUpTo(units: seq<Unit>, i: nat,
                                 uam0: map<UnitId, AgentId>, agents0: map<AgentId, Agent>, next0: AgentId,
                                 uam: map<UnitId, AgentId>, agents: map<AgentId, Agent>, next: AgentId)
    requires i <= |units|
  {
    && uam.Keys == uam0.Keys + NewUnits(units[..i], uam0.Keys)
    && (forall u :: u in uam0 ==> u in uam && uam[u] == uam0[u])
    && (forall a :: a in agents0 ==> a in agents && agents[a] == agents0[a])
    && (forall j :: 0 <= j < i && Discoverable(units[j], uam0.Keys) ==>
          units[j].id in uam && next0 <= uam[units[j].id] &&
          uam[units[j].id] in agents && agents[uam[units[j].id]] == Spawned(units[j]))
    && (forall a :: a in agents && a !in agents0 ==> next0 <= a)
    && next0 <= next
  }

  lemma DiscoveryStep(units: seq<Unit>, i: nat,
                      uam0: map<UnitId, AgentId>, agents0: map<AgentId, Agent>, next0: AgentId,
                      uam: map<UnitId, AgentId>, agents: map<AgentId, Agent>, next: AgentId,
                      uam': map<UnitId, AgentId>, agents': map<AgentId, Agent>, next': AgentId)
    requires UniqueIds(units) && i < |units|
    requires DiscoveredUpTo(units, i, uam0, agents0, next0, uam, agents, next)
    requires forall a :: a in agents ==> a < next
    requires Discoverable(units[i], uam.Keys) ==>
               next' == next + 1 && uam' == uam[units[i].id := next] && agents' == agents[next := Spawned(units[i])]
    requires !Discoverable(units[i], uam.Keys) ==> next' == next && uam' == uam && agents' == agents
    ensures DiscoveredUpTo(units, i + 1, uam0, agents0, next0, uam', agents', next')
  {
    NewUnitsExtend(units, uam0.Keys, i);
    FreshId(units, uam0.Keys, i);
    assert units[..i + 1][..i] == units[..i];
    if Discoverable(units[i], uam.Keys) {
      DiscoveryAdds(units, i, uam0, agents0, next0, uam, agents, next);
    } else {
      DiscoverySkips(units, i, uam0, agents0, next0, uam, agents, next);
    }
  }

  lemma DiscoveryAdds(units: seq<Unit>, i: nat,
                      uam0: map<UnitId, AgentId>, agents0: map<AgentId, Agent>, next0: AgentId,
                      uam: map<UnitId, AgentId>, agents: map<AgentId, Agent>, next: AgentId)
    requires i < |units| && Discoverable(units[i], uam.Keys)
    requires DiscoveredUpTo(units, i, uam0, agents0, next0, uam, agents, next)
    requires forall a :: a in agents ==> a < next
    requires NewUnits(units[..i + 1], uam0.Keys) == NewUnits(units[..i], uam0.Keys) + {units[i].id}
    ensures DiscoveredUpTo(units, i + 1, uam0, agents0, next0,
                           uam[units[i].id := next], agents[next := Spawned(units[i])], next + 1)
  {
  }

  lemma DiscoverySkips(units: seq<Unit>, i: nat,
                       uam0: map<UnitId, AgentId>, agents0: map<AgentId, Agent>, next0: AgentId,
                       uam: map<UnitId, AgentId>, agents: map<AgentId, Agent>, next: AgentId)
    requires i < |units| && !Discoverable(units[i], uam0.Keys)
    requires DiscoveredUpTo(units, i, uam0, agents0, next0, uam, agents, next)
    requires NewUnits(units[..i + 1], uam0.Keys) == NewUnits(units[..i], uam0.Keys)
    ensures DiscoveredUpTo(units, i + 1, uam0, agents0, next0, uam, agents, next)
  {
  }

  /** After the default pass has visited every key of the table, every
      live agent is mapped to the manager of its class, and only those. */
  lemma DefaultPassComplete(uam: map<UnitId, AgentId>, order: seq<UnitId>, agents: map<AgentId, Agent>,
                            next: AgentId, members: map<ManagerId, set<AgentId>>, amm: map<AgentId, ManagerId>)
    requires KeysInOrder(uam, order) && AgentsBound(uam, agents, next) && NoDangling(uam, agents, members)
    requires amm.Keys <= agents.Keys
    requires forall a :: a in agents && agents[a].unit in order ==>
               a in amm && amm[a] == Routing.DefaultManager(agents[a].variant)
    ensures amm == Routing.DefaultRouting(Variants(agents))
    ensures forall u :: u in uam ==> uam[u] in amm && amm[uam[u]] == Routing.DefaultManager(agents[uam[u]].variant)
  {
    var d := Routing.DefaultRouting(Variants(agents));
    forall a | a in amm
      ensures amm[a] == d[a]
    {
    }
  }

  /** Deleting a set of live agents, recorded once each in a trace
      extension, keeps the bindings and the deletion trace consistent. */
  lemma DeletionKeepsInvariant(uam: map<UnitId, AgentId>, agents: map<AgentId, Agent>, next: AgentId,
                               deleted: seq<AgentId>, gone: set<AgentId>, tail: seq<AgentId>)
    requires AgentsBound(uam, agents, next) && DeletedRetired(deleted, agents, next)
    requires gone <= agents.Keys && multiset(tail) == multiset(gone)
    ensures AgentsBound(uam, agents - gone, next) && DeletedRetired(deleted + tail, agents - gone, next)
  {
    forall k | 0 <= k < |tail|
      ensures tail[k] in gone
    {
      assert tail[k] in multiset(tail);
    }
  }

  lemma SpawnKeepsInvariant(uam: map<UnitId, AgentId>, order: seq<UnitId>, agents: map<AgentId, Agent>, next: AgentId,
                            amm: map<AgentId, ManagerId>, members: map<ManagerId, set<AgentId>>, deleted: seq<AgentId>,
                            u: UnitId, v: AgentKind)
    requires KeysInOrder(uam, order) && AgentsBound(uam, agents, next) && DeletedRetired(deleted, agents, next)
    requires amm.Keys <= agents.Keys && NoDangling(uam, agents, members) && u !in uam
    ensures KeysInOrder(uam[u := next], OrderedKeys.Insert(order, u))
    ensures AgentsBound(uam[u := next], agents[next := NewAgent(u, v)], next + 1)
    ensures DeletedRetired(deleted, agents[next := NewAgent(u, v)], next + 1)
    ensures amm.Keys <= agents[next := NewAgent(u, v)].Keys
    ensures NoDangling(uam[u := next], agents[next := NewAgent(u, v)], members)
  {
    SpawnKeepsOrder(uam, order, u, next);
    SpawnKeepsBindings(uam, agents, next, u, v);
  }

  lemma SpawnKeepsOrder(uam: map<UnitId, AgentId>, order: seq<UnitId>, u: UnitId, a: AgentId)
    requires KeysInOrder(uam, order)
    ensures KeysInOrder(uam[u := a], OrderedKeys.Insert(order, u))
  {
  }

  lemma SpawnKeepsBindings(uam: map<UnitId, AgentId>, agents: map<AgentId, Agent>, next: AgentId,
                           u: UnitId, v: AgentKind)
    requires AgentsBound(uam, agents, next) && u !in uam
    ensures AgentsBound(uam[u := next], agents[next := NewAgent(u, v)], next + 1)
  {
  }

  lemma SweepKeepsInvariant(uam: map<UnitId, AgentId>, agents: map<AgentId, Agent>, swept: map<AgentId, Agent>,
                            next: AgentId, members: map<ManagerId, set<AgentId>>, deleted: seq<AgentId>)
    requires AgentsBound(uam, agents, next) && DeletedRetired(deleted, agents, next) && NoDangling(uam, agents, members)
    requires swept.Keys == agents.Keys
    requires forall a :: a in agents ==> swept[a].unit == agents[a].unit && swept[a].variant == agents[a].variant
    ensures AgentsBound(uam, swept, next) && DeletedRetired(deleted, swept, next) && NoDangling(uam, swept, members)
    ensures Variants(swept) == Variants(agents)
  {
  }

  /** The agents as the combat, production and resource managers leave them,
      one after the other. */
  function DrivenBeforeSupply(agents: map<AgentId, Agent>, members: map<ManagerId, set<AgentId>>,
                              orders: map<ManagerId, map<AgentId, Orders>>): (r: map<AgentId, Agent>)
    requires Combat in members && Production in members && Resource in members
    ensures r.Keys == agents.Keys
    ensures forall a :: a in agents ==> r[a].unit == agents[a].unit && r[a].variant == agents[a].variant
    ensures forall a :: a in agents && a !in members[Combat] && a !in members[Production] && a !in members[Resource] ==>
              r[a] == agents[a]
  {
    var c := Drive(agents, members[Combat], OrdersOf(orders, Combat));
    var p := Drive(c, members[Production], OrdersOf(orders, Production));
    Drive(p, members[Resource], OrdersOf(orders, Resource))
  }

  lemma MembershipKeepsInvariant(uam: map<UnitId, AgentId>, agents: map<AgentId, Agent>,
                                 members: map<ManagerId, set<AgentId>>, amm: map<AgentId, ManagerId>)
    requires NoDangling(uam, agents, members) && amm.Keys <= agents.Keys
    ensures NoDangling(uam, agents, Routing.Membership(amm))
  {
  }

  lemma MembershipIsRouting(amm: map<AgentId, ManagerId>, ms: map<ManagerId, set<AgentId>>)
    requires ms.Keys == AllManagers
    requires forall m :: m in ms ==> ms[m] == set a | a in amm && amm[a] == m
    ensures ms == Routing.Membership(amm)
  {
    var r := Routing.Membership(amm);
    forall m | m in ms
      ensures ms[m] == r[m]
    {
      AllManagersComplete(m);
    }
  }

  /** The loop invariant of teardown: of the agents `all` that were mapped,
      `gone` have been erased from `amm`, deleted from `live` and appended,
      once each, to the trace `d0` as `tail`. */
  ghost predicate Teardown(amm: map<AgentId, ManagerId>, agents: map<AgentId, Agent>, deleted: seq<AgentId>,
                           d0: seq<AgentId>, live: map<AgentId, Agent>, all: set<AgentId>,
                           gone: set<AgentId>, tail: seq<AgentId>)
  {
    && gone + amm.Keys == all && gone !! amm.Keys
    && agents == live - gone
    && deleted == d0 + tail
    && multiset(tail) == multiset(gone)
  }

  lemma TeardownStep(amm: map<AgentId, ManagerId>, agents: map<AgentId, Agent>, deleted: seq<AgentId>,
                     d0: seq<AgentId>, live: map<AgentId, Agent>, all: set<AgentId>,
                     gone: set<AgentId>, tail: seq<AgentId>, a: AgentId)
    requires Teardown(amm, agents, deleted, d0, live, all, gone, tail) && a in amm
    ensures Teardown(amm - {a}, agents - {a}, deleted + [a], d0, live, all, gone + {a}, tail + [a])
  {
    assert (amm - {a}).Keys == amm.Keys - {a};
    OneMoreGone(live, gone, a);
    OneMoreTraced(tail, gone, a);
    assert deleted + [a] == d0 + (tail + [a]);
  }

  lemma OneMoreGone(live: map<AgentId, Agent>, gone: set<AgentId>, a: AgentId)
    ensures (live - gone) - {a} == live - (gone + {a})
  {
  }

  lemma OneMoreTraced(tail: seq<AgentId>, gone: set<AgentId>, a: AgentId)
    requires multiset(tail) == multiset(gone) && a !in gone
    ensures multiset(tail + [a]) == multiset(gone + {a})
  {
    assert multiset(gone + {a}) == multiset(gone) + multiset{a};
  }

  lemma TeardownDone(amm: map<AgentId, ManagerId>, agents: map<AgentId, Agent>, deleted: seq<AgentId>,
                     d0: seq<AgentId>, live: map<AgentId, Agent>, all: set<AgentId>,
                     gone: set<AgentId>, tail: seq<AgentId>)
    requires Teardown(amm, agents, deleted, d0, live, all, gone, tail) && amm == map[]
    ensures agents == live - all
    ensures |d0| <= |deleted| && deleted[..|d0|] == d0 && multiset(deleted[|d0|..]) == multiset(all)
  {
    assert deleted[..|d0|] == d0 && deleted[|d0|..] == tail;
  }

  /** The loop of onMatchEnd on values: erases each entry of `mapped` and
      deletes its agent from `live`, appending it to the deletion trace. */
  method EraseAndDelete(mapped: map<AgentId, ManagerId>, live: map<AgentId, Agent>, trace: seq<AgentId>)
    returns (left: map<AgentId, Agent>, trace': seq<AgentId>)
    requires mapped.Keys <= live.Keys
    ensures left == live - mapped.Keys
    ensures |trace| <= |trace'| && trace'[..|trace|] == trace
    ensures multiset(trace'[|trace|..]) == multiset(mapped.Keys)
  {
    var rest := mapped;
    left := live;
    trace' := trace;
    ghost var gone: set<AgentId> := {};
    ghost var tail: seq<AgentId> := [];
    while rest != map[]
      invariant Teardown(rest, left, trace', trace, live, mapped.Keys, gone, tail)
      decreases |rest|
    {
      var a :| a in rest;
      TeardownStep(rest, left, trace', trace, live, mapped.Keys, gone, tail, a);
      rest := rest - {a};
      // delete agent
      left := left - {a};
      trace' := trace' + [a];
      gone := gone + {a};
      tail := tail + [a];
    }
    TeardownDone(rest, left, trace', trace, live, mapped.Keys, gone, tail);
  }

  /** The loop of redistributeAgents on values: adds each agent of `amm`
      to the membership of the manager it is mapped to. */
  method Rebuild(amm: map<AgentId, ManagerId>, cleared: map<ManagerId, set<AgentId>>)
    returns (ms: map<ManagerId, set<AgentId>>)
    requires cleared.Keys == AllManagers && forall m :: m in cleared ==> cleared[m] == {}
    ensures ms == Routing.Membership(amm)
  {
    ms := cleared;
    var pending := amm.Keys;
    while pending != {}
      invariant pending <= amm.Keys && ms.Keys == AllManagers
      invariant forall m :: m in ms ==> ms[m] == set a | a in amm && a !in pending && amm[a] == m
      decreases pending
    {
      var a :| a in pending;
      AllManagersComplete(amm[a]);
      ms := ms[amm[a] := ms[amm[a]] + {a}];
      pending := pending - {a};
    }
    MembershipIsRouting(amm, ms);
  }

  class Strategizer {
    /** unitAgentMap: each discovered unit and its agent. */
    var unitAgentMap: map<UnitId, AgentId>
    /** The keys of unitAgentMap in the order the map is walked. */
    var unitOrder: seq<UnitId>
    /** The live agents (allocated and not yet deleted). */
    var agents: map<AgentId, Agent>
    /** The next fresh agent handle. */
    var nextAgent: AgentId
    /** agentManagerMap: the manager each agent is given to. */
    var agentManagerMap: map<AgentId, ManagerId>
    /** Each manager's membership set. */
    var members: map<ManagerId, set<AgentId>>
    /** The manager updates whose bodies are outside the model, in call order. */
    var updateCalls: seq<ManagerId>
    /** The agents deleted so far, in deletion order. */
    var deleted: seq<AgentId>

    /** The invariant of the tables, before and after teardown alike. */
    ghost predicate Valid()
      reads this
    {
      && KeysInOrder(unitAgentMap, unitOrder)
      && AgentsBound(unitAgentMap, agents, nextAgent)
      && agentManagerMap.Keys <= agents.Keys
      && members.Keys == AllManagers
      && DeletedRetired(deleted, agents, nextAgent)
    }

    /** No table refers to a deleted agent. */
    ghost predicate Live()
      reads this
    {
      Valid() && NoDangling(unitAgentMap, agents, members)
    }

    /** Between ticks: every live agent is mapped to a manager. */
    ghost predicate Settled()
      reads this
    {
      Live() && agentManagerMap.Keys == agents.Keys
    }

    constructor ()
      ensures Settled()
      ensures unitAgentMap == map[] && unitOrder == [] && agents == map[] && agentManagerMap == map[]
      ensures forall m :: m in members ==> members[m] == {}
      ensures updateCalls == [] && deleted == []
    {
      unitAgentMap := map[];
      unitOrder := [];
      agents := map[];
      nextAgent := 0;
      agentManagerMap := map[];
      members := map m | m in AllManagers :: {};
      updateCalls := [];
      deleted := [];
    }

    /** Manager::numAgents: the members of manager `m` whose agent is of
        class `v`. It is at most the manager's size, and zero exactly when
        no live member is of that class. */
    function NumAgents(m: ManagerId, v: AgentKind): (r: nat)
      reads this
      requires m in members
      ensures r <= |members[m]|
      ensures r == 0 <==> forall a :: a in members[m] && a in agents ==> agents[a].variant != v
    {
      Routing.CountOf(members[m], Variants(agents), v)
    }

    // -------------------------------------------------------------------
    // Phase 1: discovery

    /** Allocates an agent of class `v` for unit `u` and enters it in the table. */
    method AddNewAgent(u: UnitId, v: AgentKind) returns (a: AgentId)
      requires Live() && u !in unitAgentMap
      modifies this
      ensures Live()
      ensures a == old(nextAgent) && nextAgent == a + 1
      ensures agents == old(agents)[a := NewAgent(u, v)]
      ensures unitAgentMap == old(unitAgentMap)[u := a]
      ensures unitOrder == OrderedKeys.Insert(old(unitOrder), u)
      ensures agentManagerMap == old(agentManagerMap) && members == old(members)
      ensures updateCalls == old(updateCalls) && deleted == old(deleted)
    {
      SpawnKeepsInvariant(unitAgentMap, unitOrder, agents, nextAgent, agentManagerMap, members, deleted, u, v);
      a := nextAgent;
      nextAgent := nextAgent + 1;
      agents := agents[a := NewAgent(u, v)];
      unitAgentMap := unitAgentMap[u := a];
      unitOrder := OrderedKeys.Insert(unitOrder, u);
    }

    /** One step of discovery: a completed unit of a recognised kind that has
        no entry yet gets a fresh agent; any other unit changes nothing. */
    method DiscoverUnit(u: Unit)
      requires Live()
      modifies this
      ensures Live()
      ensures Discoverable(u, old(unitAgentMap).Keys) ==>
                && nextAgent == old(nextAgent) + 1
                && unitAgentMap == old(unitAgentMap)[u.id := old(nextAgent)]
                && agents == old(agents)[old(nextAgent) := Spawned(u)]
      ensures !Discoverable(u, old(unitAgentMap).Keys) ==>
                nextAgent == old(nextAgent) && unitAgentMap == old(unitAgentMap) && agents == old(agents)
      ensures agentManagerMap == old(agentManagerMap) && members == old(members)
      ensures updateCalls == old(updateCalls) && deleted == old(deleted)
    {
      // only completed units get agents
      if !u.completed || u.id in unitAgentMap {
        return;
      }
      var v := AgentKindOf(u.kind);
      if v.Some? {
        var a := AddNewAgent(u.id, v.value);
      }
    }

    /** Creates an agent for each completed unit of a recognised kind that
        has none yet. Existing entries and agents are left as they were. */
    method UpdateUnitAgentMap(units: seq<Unit>)
      requires Live() && UniqueIds(units)
      modifies this
      ensures Live()
      ensures unitAgentMap.Keys == old(unitAgentMap).Keys + NewUnits(units, old(unitAgentMap).Keys)
      ensures forall u :: u in old(unitAgentMap) ==> unitAgentMap[u] == old(unitAgentMap)[u]
      ensures forall a :: a in old(agents) ==> a in agents && agents[a] == old(agents)[a]
      ensures forall u :: u in units && Discoverable(u, old(unitAgentMap).Keys) ==>
                old(nextAgent) <= unitAgentMap[u.id] && agents[unitAgentMap[u.id]] == Spawned(u)
      ensures forall a :: a in agents && a !in old(agents) ==> old(nextAgent) <= a
      ensures old(nextAgent) <= nextAgent
      ensures agentManagerMap == old(agentManagerMap) && members == old(members)
      ensures updateCalls == old(updateCalls) && deleted == old(deleted)
    {
      for i := 0 to |units|
        invariant Live()
        invariant DiscoveredUpTo(units, i, old(unitAgentMap), old(agents), old(nextAgent), unitAgentMap, agents, nextAgent)
        invariant agentManagerMap == old(agentManagerMap) && members == old(members)
        invariant updateCalls == old(updateCalls) && deleted == old(deleted)
      {
        ghost var uam, live, next := unitAgentMap, agents, nextAgent;
        DiscoverUnit(units[i]);
        DiscoveryStep(units, i, old(unitAgentMap), old(agents), old(nextAgent), uam, live, next,
                      unitAgentMap, agents, nextAgent);
      }
      assert units[..|units|] == units;
    }

    // -------------------------------------------------------------------
    // Phase 2: assignment

    /** The default pass: walks the table and maps every agent to the
        manager of its class. */
    method AssignDefaultManagers()
      requires Live()
      modifies this
      ensures Live()
      ensures agentManagerMap == Routing.DefaultRouting(Variants(agents))
      ensures forall u :: u in unitAgentMap ==>
                unitAgentMap[u] in agentManagerMap &&
                agentManagerMap[unitAgentMap[u]] == Routing.DefaultManager(agents[unitAgentMap[u]].variant)
      ensures unitAgentMap == old(unitAgentMap) && unitOrder == old(unitOrder) && agents == old(agents)
      ensures nextAgent == old(nextAgent) && members == old(members)
      ensures updateCalls == old(updateCalls) && deleted == old(deleted)
    {
      var amm := agentManagerMap;
      for i := 0 to |unitOrder|
        invariant amm.Keys <= agents.Keys
        invariant forall a :: a in agents && agents[a].unit in unitOrder[..i] ==>
                    a in amm && amm[a] == Routing.DefaultManager(agents[a].variant)
      {
        assert unitOrder[..i + 1] == unitOrder[..i] + [unitOrder[i]];
        var a := unitAgentMap[unitOrder[i]];
        amm := amm[a := Routing.DefaultManager(agents[a].variant)];
      }
      assert unitOrder[..|unitOrder|] == unitOrder;
      DefaultPassComplete(unitAgentMap, unitOrder, agents, nextAgent, members, amm);
      agentManagerMap := amm;
    }

    /** One override rule: walks the table and remaps the first worker
        found at the resource manager to `target`, then stops. */
    method MoveFirstResourceWorker(target: ManagerId)
      requires Live() && agentManagerMap.Keys == agents.Keys
      modifies this
      ensures Live() && agentManagerMap.Keys == agents.Keys
      ensures agentManagerMap == Routing.Override(unitOrder, unitAgentMap, Variants(agents), old(agentManagerMap), target)
      ensures unitAgentMap == old(unitAgentMap) && unitOrder == old(unitOrder) && agents == old(agents)
      ensures nextAgent == old(nextAgent) && members == old(members)
      ensures updateCalls == old(updateCalls) && deleted == old(deleted)
    {
      ghost var kinds := Variants(agents);
      var amm := agentManagerMap;
      ghost var moved := false;
      for i := 0 to |unitOrder|
        invariant !moved && amm == agentManagerMap
        invariant Routing.FirstFrom(unitOrder, unitAgentMap, kinds, amm, i) ==
                  Routing.FirstFrom(unitOrder, unitAgentMap, kinds, amm, 0)
      {
        var a := unitAgentMap[unitOrder[i]];
        if agents[a].variant == SCVAgent && amm[a] == Resource {
          assert Routing.CandidateAt(unitOrder, unitAgentMap, kinds, amm, i);
          Routing.OverrideTakes(unitOrder, unitAgentMap, kinds, amm, target, i);
          amm := amm[a := target];
          moved := true;
          break;
        }
      }
      if !moved {
        Routing.OverrideSkips(unitOrder, unitAgentMap, kinds, agentManagerMap, target);
      }
      agentManagerMap := amm;
    }

    /** updateAgentManagerMap: the default pass, then the supply override,
        then the expansion override, each override judged on the worker
        counts of the memberships built on the previous tick. */
    method UpdateAgentManagerMap(supplyTotal: int, supplyUsed: int)
      requires Live()
      modifies this
      ensures Settled()
      ensures agentManagerMap == Routing.Assignment(unitOrder, unitAgentMap, Variants(agents), supplyTotal, supplyUsed,
                                                    NumAgents(Supply, SCVAgent), NumAgents(Combat, SCVAgent))
      ensures unitAgentMap == old(unitAgentMap) && unitOrder == old(unitOrder) && agents == old(agents)
      ensures nextAgent == old(nextAgent) && members == old(members)
      ensures updateCalls == old(updateCalls) && deleted == old(deleted)
    {
      AssignDefaultManagers();
      if Routing.SupplyPressure(supplyTotal, supplyUsed, NumAgents(Supply, SCVAgent)) {
        MoveFirstResourceWorker(Supply);
      }
      if Routing.ExpansionPressure(supplyUsed, NumAgents(Combat, SCVAgent)) {
        MoveFirstResourceWorker(Combat);
      }
    }

    // -------------------------------------------------------------------
    // Phase 3: redistribution

    /** Clears all seven memberships (Manager::removeAllAgents), then adds
        every mapped agent to the manager it is mapped to (Manager::addAgent,
        where adding a member twice changes nothing). */
    method RedistributeAgents()
      requires Live()
      modifies this
      ensures Live()
      ensures members == Routing.Membership(agentManagerMap)
      ensures unitAgentMap == old(unitAgentMap) && unitOrder == old(unitOrder) && agents == old(agents)
      ensures nextAgent == old(nextAgent) && agentManagerMap == old(agentManagerMap)
      ensures updateCalls == old(updateCalls) && deleted == old(deleted)
    {
      var cleared := map m | m in AllManagers :: {};
      var rebuilt := Rebuild(agentManagerMap, cleared);
      MembershipKeepsInvariant(unitAgentMap, agents, members, agentManagerMap);
      members := rebuilt;
    }

    // -------------------------------------------------------------------
    // Phase 4: the managers' updates

    /** updateManagers: combat, production, resource, then supply. Each of
        them issues its entry of `orders` to its own members (`Drive`);
        the build, construction and scout managers are not updated.
        `before` is the agent table the supply manager's update starts
        from and `swept` the table right after its low-supply sweep. */
    method UpdateManagers(supplyTotal: int, supplyUsed: int, orders: map<ManagerId, map<AgentId, Orders>>)
      returns (ghost before: map<AgentId, Agent>, ghost swept: map<AgentId, Agent>)
      requires Live()
      modifies this
      ensures Live()
      ensures agents.Keys == old(agents).Keys && Variants(agents) == Variants(old(agents))
      ensures forall a :: a in old(agents) ==> agents[a].unit == old(agents)[a].unit
      ensures forall a :: a in old(agents) && a !in members[Combat] && a !in members[Production] &&
                          a !in members[Resource] && a !in members[Supply] ==>
                agents[a] == old(agents)[a]
      ensures before == DrivenBeforeSupply(old(agents), old(members), orders)
      ensures swept.Keys == before.Keys && members[Supply] <= swept.Keys
      ensures SupplyManager.LowOnSupply(supplyTotal, supplyUsed) ==>
                forall a :: a in members[Supply] ==>
                  swept[a].state == BuildState && swept[a].target == Some(TerranSupplyDepot)
      ensures forall a :: a in before && a !in members[Supply] ==> swept[a] == before[a]
      ensures !SupplyManager.LowOnSupply(supplyTotal, supplyUsed) ==> swept == before
      ensures agents == Drive(swept, members[Supply], OrdersOf(orders, Supply))
      ensures updateCalls == old(updateCalls) + [Combat, Production, Resource, Supply]
      ensures unitAgentMap == old(unitAgentMap) && unitOrder == old(unitOrder) && nextAgent == old(nextAgent)
      ensures agentManagerMap == old(agentManagerMap) && members == old(members) && deleted == old(deleted)
    {
      var driven := DrivenBeforeSupply(agents, members, orders);
      ghost var s;
      var after;
      s, after := SupplyManager.Update(driven, members[Supply], supplyTotal, supplyUsed, OrdersOf(orders, Supply));
      SweepKeepsInvariant(unitAgentMap, agents, after, nextAgent, members, deleted);
      agents := after;
      before := driven;
      swept := s;
      updateCalls := updateCalls + [Combat, Production, Resource, Supply];
    }

    // -------------------------------------------------------------------
    // The tick

    /** update: discovery, assignment, redistribution, then the managers'
        updates, in which each manager issues its entry of `orders`.
        `before` is the agent table the supply manager's update starts from,
        and `swept` the table right after its sweep. The manager updates
        leave every membership as it is, so the memberships at the end of
        the tick are the ones redistribution built. */
    method Update(units: seq<Unit>, supplyTotal: int, supplyUsed: int, orders: map<ManagerId, map<AgentId, Orders>>)
      returns (ghost before: map<AgentId, Agent>, ghost swept: map<AgentId, Agent>)
      requires Live() && UniqueIds(units)
      modifies this
      ensures Settled()
      ensures unitAgentMap.Keys == old(unitAgentMap).Keys + NewUnits(units, old(unitAgentMap).Keys)
      ensures forall u :: u in old(unitAgentMap) ==> unitAgentMap[u] == old(unitAgentMap)[u]
      ensures forall u :: u in units && Discoverable(u, old(unitAgentMap).Keys) ==>
                old(nextAgent) <= unitAgentMap[u.id] && agents[unitAgentMap[u.id]].variant == AgentKindOf(u.kind).value
      ensures forall a :: a in old(agents) ==>
                a in agents && agents[a].unit == old(agents)[a].unit && agents[a].variant == old(agents)[a].variant
      ensures agentManagerMap == Routing.Assignment(unitOrder, unitAgentMap, Variants(agents), supplyTotal, supplyUsed,
                                                    old(NumAgents(Supply, SCVAgent)), old(NumAgents(Combat, SCVAgent)))
      ensures members == Routing.Membership(agentManagerMap)
      ensures swept.Keys == agents.Keys && before.Keys == agents.Keys
      ensures SupplyManager.LowOnSupply(supplyTotal, supplyUsed) ==>
                forall a :: a in members[Supply] ==> swept[a].state == BuildState && swept[a].target == Some(TerranSupplyDepot)
      ensures forall a :: a in before && a !in members[Supply] ==> swept[a] == before[a]
      ensures !SupplyManager.LowOnSupply(supplyTotal, supplyUsed) ==> swept == before
      ensures agents == Drive(swept, members[Supply], OrdersOf(orders, Supply))
      ensures updateCalls == old(updateCalls) + [Combat, Production, Resource, Supply]
      ensures deleted == old(deleted)
    {
      ghost var supplyWorkers := NumAgents(Supply, SCVAgent);
      ghost var combatWorkers := NumAgents(Combat, SCVAgent);
      UpdateUnitAgentMap(units);
      CountUnchanged(Supply, old(agents));
      CountUnchanged(Combat, old(agents));
      UpdateAgentManagerMap(supplyTotal, supplyUsed);
      RedistributeAgents();
      ghost var kinds := Variants(agents);
      before, swept := UpdateManagers(supplyTotal, supplyUsed, orders);
      assert Variants(agents) == kinds;
    }

    /** Discovery adds agents but no members, so it leaves every worker count as it was. */
    lemma CountUnchanged(m: ManagerId, before: map<AgentId, Agent>)
      requires m in members && members[m] <= before.Keys
      requires forall a :: a in before ==> a in agents && agents[a] == before[a]
      ensures NumAgents(m, SCVAgent) == Routing.CountOf(members[m], Variants(before), SCVAgent)
    {
      assert Routing.Counted(members[m], Variants(agents), SCVAgent) == Routing.Counted(members[m], Variants(before), SCVAgent);
    }

    // -------------------------------------------------------------------
    // Teardown

    /** onMatchEnd: erases every entry of agentManagerMap and deletes its
        agent, each exactly once. The unit-to-agent table and the managers'
        memberships are left as they were, so they still name the deleted
        agents. */
    method OnMatchEnd()
      requires agentManagerMap.Keys <= agents.Keys
      modifies this
      ensures old(Valid()) ==> Valid()
      ensures agentManagerMap == map[]
      ensures agents == old(agents) - old(agentManagerMap).Keys
      ensures old(agentManagerMap.Keys == agents.Keys) ==> agents == map[]
      ensures |old(deleted)| <= |deleted| && deleted[..|old(deleted)|] == old(deleted)
      ensures multiset(deleted[|old(deleted)|..]) == multiset(old(agentManagerMap).Keys)
      ensures unitAgentMap == old(unitAgentMap) && unitOrder == old(unitOrder) && nextAgent == old(nextAgent)
      ensures forall u :: u in unitAgentMap && unitAgentMap[u] in old(agentManagerMap) ==> unitAgentMap[u] !in agents
      ensures members == old(members) && updateCalls == old(updateCalls)
    {
      var live, trace := EraseAndDelete(agentManagerMap, agents, deleted);
      if Valid() {
        assert trace == deleted + trace[|deleted|..];
        DeletionKeepsInvariant(unitAgentMap, agents, nextAgent, deleted, agentManagerMap.Keys, trace[|deleted|..]);
      }
      agentManagerMap := map[];
      agents := live;
      deleted := trace;
    }

    /** onMatchEnd as it is evidently meant: the same deletions, and the
        unit-to-agent table and all memberships cleared as well, so that no
        table names a deleted agent and the next match starts empty. */
    method OnMatchEndReleasingTables()
      requires Settled()
      modifies this
      ensures Settled()
      ensures unitAgentMap == map[] && unitOrder == [] && agents == map[] && agentManagerMap == map[]
      ensures forall m :: m in members ==> members[m] == {}
      ensures |old(deleted)| <= |deleted| && deleted[..|old(deleted)|] == old(deleted)
      ensures multiset(deleted[|old(deleted)|..]) == multiset(old(agentManagerMap).Keys)
      ensures nextAgent == old(nextAgent) && updateCalls == old(updateCalls)
    {
      OnMatchEnd();
      unitAgentMap := map[];
      unitOrder := [];
      members := map m | m in AllManagers :: {};
    }
  }

  /** A match in which one completed worker was discovered and assigned,
      then onMatchEnd as written: the unit's table entry survives and names
      the agent that was just deleted. */
  method MatchEndLeavesDangling() returns (dangling: nat)
    ensures dangling == 1
  {
    var s := new Strategizer();
    var units := [Unit(7, Worker, true)];
    assert NewUnits(units, {}) == {7} by {
      assert Discoverable(units[0], {});
    }
    s.UpdateUnitAgentMap(units);
    s.UpdateAgentManagerMap(10, 4);
    assert s.unitAgentMap.Keys == {7};
    s.OnMatchEnd();
    assert s.agents == map[] && s.unitAgentMap.Keys == {7};
    dangling := |set u | u in s.unitAgentMap && s.unitAgentMap[u] !in s.agents|;
    assert (set u | u in s.unitAgentMap && s.unitAgentMap[u] !in s.agents) == {7};
  }
}
