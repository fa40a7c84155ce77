# Strategizer: the per-tick agent-to-manager assignment engine

This project models the core of the BWAPI bot's strategizer. Each frame the
strategizer runs one tick with four phases, in this order:

1. **Discovery.** A completed unit of a recognised kind (worker, resource
   depot, barracks, marine) that has no entry yet in `unitAgentMap` gets a
   new agent of the matching class.
2. **Assignment.** Every agent is given its default manager in
   `agentManagerMap`: workers go to the resource manager, command centers
   to production, barracks and marines to combat. Then two override rules
   run. The supply rule fires below a headroom of 6 while the supply manager
   holds at most one worker. The expansion rule fires above 20 supply used
   while the combat manager holds at most one worker. Each rule walks
   `unitAgentMap` in key order and moves the first worker still mapped to
   the resource manager, then stops.
3. **Redistribution.** All seven managers' memberships are cleared. Every
   agent is then added to the manager it is mapped to.
4. **Manager updates.** The combat, production, resource and supply
   managers are updated, in that order. The supply manager's own rule is
   modelled: below a headroom of 5, every member is put in `BuildState` with
   a supply-depot target. The base `Manager::update` then runs once. The
   bodies of the other updates are not part of this model: each update may
   give any of its own members a new state and target, supplied as input
   orders (`Agents.Drive`).

At match end, `onMatchEnd` erases every entry of `agentManagerMap` and
deletes its agent.

Modules:

- `Agents` (agents.dfy): the data model. It holds units and their kinds,
  agent classes, states and unit-type targets, the agent record and the
  seven managers.
- `OrderedKeys` (ordered_keys.dfy): the key order of a `std::map`, kept as a
  strictly increasing sequence. Insertion keeps it sorted.
- `Routing` (routing.dfy): the assignment phase as functions of its inputs,
  plus the lemmas about the override rules and the rebuilt memberships.
- `SupplyManager` (supply_manager.dfy): the low-supply sweep over a
  manager's members, as a loop over values.
- `Strategizer` (strategizer.dfy): the class `Strategizer`. It holds the
  tables as fields: `unitAgentMap`, `unitOrder` (its key order), the live
  `agents`, `agentManagerMap`, the managers' `members`, and two traces. One
  trace records the opaque manager updates, the other the deleted agents.
  The phases are methods with loops, and each method is tied to the
  `Routing` functions.

The host is replaced by plain inputs. A tick receives a sequence of units,
each with an id, a kind and a `completed` flag, plus `supplyTotal` and
`supplyUsed`. Agents are fresh natural-number handles. Deleting an agent
removes it from the live-agent map and appends it to the deletion trace.

`Valid()` is the class invariant. It says:

- `unitOrder` lists the keys of `unitAgentMap`, strictly increasing;
- a table entry and a live agent name each other;
- only live agents are mapped;
- all seven managers exist;
- the deletion trace holds only retired agents.

`Live()` adds that no table names a deleted agent. `Settled()` adds that
every live agent is mapped. A tick requires `Live()` and ends `Settled()`.

Two points where the source's behaviour may be unexpected. The model
follows the source in both:

- A teardown would be expected to release every table the engine owns. The
  source empties only `agentManagerMap` (see Findings).
- `numAgents(Terran_SCV) <= 1` (Strategizer.cpp:191) still fires the
  expansion rule when the combat manager already holds one worker.
  `Routing.ExpansionPressure` uses `<= WorkerCap` with `WorkerCap = 1`.

Both supply thresholds are kept as in the source: 6 in the strategizer's
supply rule and 5 in the supply manager's sweep.

## Model

| member | source | states |
|---|---|---|
| Agents.AgentKindOf | BasicAIModule/source/Strategizer.cpp:117-127 | Only the four recognised kinds get an agent class, and a worker gets exactly the SCV class. |
| OrderedKeys.Insert | BasicAIModule/source/Strategizer.cpp:130 | Entering a new key keeps the walk order strictly increasing. The result holds exactly the old keys plus the new one, and grows by one when the key is new. |
| Strategizer.DiscoveryOnlyRecognised | BasicAIModule/source/Strategizer.cpp:110-130 | Every unit discovery adds is a completed unit of the host's list with no entry yet, and its kind is not `Other`. |
| Strategizer.DiscoveryIdempotent | BasicAIModule/source/Strategizer.cpp:115-131 | A second discovery pass over the same units, against the table the first pass produced, adds nothing. |
| Strategizer.Strategizer.AddNewAgent | BasicAIModule/source/Strategizer.cpp:118-130 | A fresh agent of the given class is bound to the unit and entered in the table and its key order. Nothing else changes, and the invariant is kept. |
| Strategizer.Strategizer.DiscoverUnit | BasicAIModule/source/Strategizer.cpp:107-131 | A discoverable unit gets exactly one fresh agent of its class. Any other unit (incomplete, already known, unrecognised) changes nothing. |
| Strategizer.Strategizer.UpdateUnitAgentMap | BasicAIModule/source/Strategizer.cpp:99-135 | The table's keys grow by exactly the discoverable units. Old entries and old agents are unchanged, and each new unit's agent is fresh and of its class. |
| Strategizer.DefaultPassComplete | BasicAIModule/source/Strategizer.cpp:144-172 | Once the default pass has visited every key, the map equals the default routing of all live agents, and each unit's agent goes to its class's manager. |
| Strategizer.Strategizer.AssignDefaultManagers | BasicAIModule/source/Strategizer.cpp:144-172 | Worker to resource, command center to production, barracks and marine to combat, for every agent in the table. The other tables are unchanged. |
| Routing.FirstFrom | BasicAIModule/source/Strategizer.cpp:178-186 | The position found is the first candidate at or after `i` in walk order: a worker mapped to the resource manager. No earlier position qualifies, and none at all when the result is None. |
| Strategizer.Strategizer.MoveFirstResourceWorker | BasicAIModule/source/Strategizer.cpp:178-186 | The loop with `break` yields exactly `Routing.Override`: the first resource-mapped worker in walk order is remapped to the target, or nothing changes if there is none. |
| Routing.OverrideMovesAtMostOne | BasicAIModule/source/Strategizer.cpp:178-186 | One override changes at most one mapping. The agent it moves is the first worker in walk order that was mapped to the resource manager, and it now goes to the target. |
| Routing.OverrideMovesExactlyOne | BasicAIModule/source/Strategizer.cpp:178-186 | When some worker is resource-mapped and the target is another manager, exactly one agent moves: the first such worker. |
| Strategizer.Strategizer.NumAgents | BasicAIModule/source/Strategizer.cpp:176-191 | The worker count both override guards read: the members of a manager whose agent has the SCV class. It is at most the manager's size, and it is zero exactly when no live member is of that class. |
| Strategizer.Strategizer.UpdateAgentManagerMap | BasicAIModule/source/Strategizer.cpp:141-203 | The new map is `Routing.Assignment` of the table, the supply figures and the previous memberships' worker counts, and every live agent is mapped. |
| Routing.AssignmentTotal | BasicAIModule/source/Strategizer.cpp:141-203 | Every agent is mapped. A non-worker keeps its default manager, and a worker ends at resource, supply or combat. |
| Routing.SupplyReceivesFirstWorker | BasicAIModule/source/Strategizer.cpp:175-187 | The supply manager receives exactly the first resource-mapped worker when headroom is below 6, it holds at most one worker, and such a worker exists. Otherwise it receives no agent, so a headroom of 6 sends none. |
| Routing.ExpansionTakesAtMostOneWorker | BasicAIModule/source/Strategizer.cpp:190-202 | At most one worker goes to the combat manager, and none unless more than 20 supply is used while it holds at most one worker. |
| Routing.SupplyWinsOverExpansion | BasicAIModule/source/Strategizer.cpp:181-198 | When the supply rule fires, the worker it took is still at the supply manager after the expansion rule. |
| Routing.AtMostTwoMoves | BasicAIModule/source/Strategizer.cpp:175-202 | Across both rules at most two mappings differ from the defaults. Each moved agent is a worker whose default was resource and which ends at supply or combat. |
| Strategizer.Rebuild | BasicAIModule/source/Strategizer.cpp:219-226 | Adding each mapped agent to its manager, starting from seven empty memberships, yields exactly `Routing.Membership` of the map. |
| Strategizer.Strategizer.RedistributeAgents | BasicAIModule/source/Strategizer.cpp:208-227 | After clearing all seven managers and adding every agent, the memberships equal `Routing.Membership(agentManagerMap)`. The other tables are unchanged. |
| Routing.MembershipPartitions | BasicAIModule/source/Strategizer.cpp:208-227 | Rebuilt memberships are total and exclusive. Every mapped agent is a member of its manager and of no other, and only mapped agents are members. |
| SupplyManager.BuildDepotsIfLow | BasicAIModule/source/Managers/SupplyManager.cpp:10-18 | Below a headroom of 5, every member ends in `BuildState` with target `Terran_Supply_Depot`, same unit and class. Non-members are untouched, and at headroom 5 or more, or with no members, nothing changes. |
| Agents.Drive | BasicAIModule/source/Strategizer.cpp:232-235 | The combat, production and resource updates, and the base `Manager::update` of SupplyManager.cpp:20-21, all have this effect. An update whose body is outside the model creates and deletes no agent, changes no agent's unit or class, and changes no agent outside its own members. Each member it names ends with exactly the state and target issued to it. |
| SupplyManager.Update | BasicAIModule/source/Managers/SupplyManager.cpp:7-22 | Right after the sweep, below a headroom of 5, every member is in `BuildState` with a depot target. Non-members are untouched by the sweep, and at headroom 5 or more the sweep changes nothing. The base update then drives the members from that table, and non-members stay unchanged to the end. |
| Strategizer.DrivenBeforeSupply | BasicAIModule/source/Strategizer.cpp:232-235 | The combat, production and resource updates keep every agent's unit and class, and leave unchanged every agent that belongs to none of the three. |
| Strategizer.Strategizer.UpdateManagers | BasicAIModule/source/Strategizer.cpp:229-238 | Combat, production, resource and supply are updated in that order, and build, construction and scout are not updated. The supply update starts from the table the first three leave. Right after its sweep, supply members are in `BuildState` with a depot target when supply is low; the final table is that one driven by the supply manager's orders. Agents in none of the four memberships are unchanged, and no agent changes unit or class. No update changes any manager's membership. |
| Strategizer.Strategizer.Update | BasicAIModule/source/Strategizer.cpp:37-52 | One tick ends settled, and discovery only adds. The map is the assignment judged on the previous tick's worker counts, and the memberships are rebuilt from it. Supply members are in `BuildState` with a depot target right after the sweep, and the final table is that one driven by the supply manager's orders. Below a headroom of 5 the sweep changes only supply members; at 5 or more `swept` is the table the supply update started from. |
| Strategizer.EraseAndDelete | BasicAIModule/source/Strategizer.cpp:85-92 | The teardown loop removes exactly the mapped agents from the live set. Each is appended to the deletion trace exactly once, and the earlier trace is kept. |
| Strategizer.Strategizer.OnMatchEnd | BasicAIModule/source/Strategizer.cpp:76-93 | `agentManagerMap` ends empty, and every agent that was a key is deleted exactly once, with no leak when every live agent was mapped. `unitAgentMap` and the memberships are unchanged and still name the deleted agents. |
| Strategizer.MatchEndLeavesDangling | BasicAIModule/source/Strategizer.cpp:76-93 | After a match that discovered and assigned one completed worker, onMatchEnd as written leaves exactly one table entry naming a deleted agent. |
| Strategizer.Strategizer.OnMatchEndReleasingTables | BasicAIModule/source/Strategizer.cpp:76-93 | The corrected teardown makes the same deletions, then clears the table, its key order and all memberships. The engine ends settled and empty. |

## Left out

- Drawing and the APM display (Strategizer.cpp:39) are left out: they are output only.
- The bodies of the combat, production and resource managers' updates, and the base `Manager::update`, are not part of this model. Their calls and order are recorded in `updateCalls`. The base `Manager::update` (SupplyManager.cpp:21) has no entry of its own: it is part of the `Supply` entry. Their effect on the agents is an input: new states and targets for the manager's members.
- Agents.Drive: it assumes that a manager update creates and deletes no agent, keeps every agent's unit and class, changes only the agents of its own manager, and leaves every manager's membership as it was. So `Strategizer.Strategizer.Update`'s end-of-tick memberships are the ones redistribution built, and the next tick's worker counts (Strategizer.cpp:176, :191) are read from them. Those bodies are not part of this model, so this is assumed, not derived.
- `Strategizer.Strategizer.Update` and `Strategizer.Strategizer.UpdateManagers` promise the depot orders only right after the sweep (`swept`). The base update that follows may reissue any order.
- `supplyTotal() - supplyUsed()` (Strategizer.cpp:175, SupplyManager.cpp:10) is C++ `int` arithmetic. `Routing.SupplyPressure` and `SupplyManager.LowOnSupply` use unbounded integers. The two agree, because game supply values are far too small to overflow.
- Strategizer.Strategizer.NumAgents: the body of `Manager::numAgents` is not part of this model. It counts by the agent class fixed at discovery, and `SCVAgent` goes to every `isWorker()` unit (Strategizer.cpp:119-120). The source filters on the exact type `Terran_SCV`. The two counts agree only while every worker is an SCV whose type does not change.
- The agent classes' constructors (`SCVAgent` and the others) are not part of this model. A new agent is assumed to start in `IdleState` with no target.
- The source re-reads a unit's current type on every tick (Strategizer.cpp:150-168). The model uses the agent class fixed at discovery. The two agree while a unit's type does not change, and a change of type is not modelled. The case that comes up in play is a unit that leaves the host's list. It keeps its agent, because reaping is a TODO (Strategizer.cpp:134). In the model that agent stays an `SCVAgent` when it was one: it is still counted, still routed to the resource manager, and can still be picked as either override's first worker (:181, :196). In the source that depends on what `getType()` returns for such a unit, which the source does not show.
- `std::map` ordering by `Unit*` and `Agent*` pointer values is modelled as increasing natural-number handles. Pointer identity and the heap are not modelled.
- The host's unit set is given as a sequence with unique ids. Its iteration order affects only which fresh handle each unit gets.
- `Strategizer.Strategizer.OnMatchEnd` deletes the mapped agents in an unspecified order (`:|`), not in the map's ascending key order. Its contract does not depend on that order.
- `Strategizer.Strategizer.RedistributeAgents` adds the agents in an unspecified order, not in the map's key order. Set membership does not depend on it.
- `Strategizer.Strategizer.MoveFirstResourceWorker` requires every live agent to be mapped. This is what the default pass establishes before either override runs. `agentManagerMap[a]` inserting a null entry for a missing key (Strategizer.cpp:181, :196) therefore never happens and is not modelled.
- `Strategizer.Strategizer.Update` requires `Live()`. After the source's own `onMatchEnd`, a next match's tick would read deleted agents; the model excludes that (see Findings).
- Reaping destroyed units is a TODO in the source (Strategizer.cpp:134) and is not modelled.
- `onMatchStart` and `onEvent` are empty in the source and are not modelled.
- The host glue in BasicAIModule.cpp (callbacks, BWTA analysis, text and drawing) is not part of this model.
- ResourceManager.h holds declarations only, and its nearest-mineral logic is not part of this model.
- The `Strategizer::instance()` singleton is not modelled: the model is one `Strategizer` object.

## Findings

| source | as written | input that shows it | evidently intended | confidence | as-written member | corrected member |
|---|---|---|---|---|---|---|
| BasicAIModule/source/Strategizer.cpp:76-93 | `onMatchEnd` deletes every agent of `agentManagerMap` but leaves `unitAgentMap` and the seven memberships holding the deleted agents. | One tick that discovers a completed worker (id 7) and assigns it, then match end. Entry 7 of `unitAgentMap` still names the deleted agent. The next tick's default pass reads that agent's unit (:147-150), and `numAgents` reads the stale memberships (:176). `BasicAIModule::onEnd` (BasicAIModule.cpp:45-47) is empty, so the bot never calls `Strategizer::onMatchEnd`. Reaching the stale entries needs a caller that invokes `onMatchEnd` and then ticks again. | Teardown releases every table the engine owns, so that nothing names a deleted agent and the next match starts empty. | medium; not executed | Strategizer.MatchEndLeavesDangling | Strategizer.Strategizer.OnMatchEndReleasingTables |
