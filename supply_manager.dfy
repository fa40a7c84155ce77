/** SupplyManager::update: while supply headroom is low, every member is
    sent to build a supply depot; then the base manager update drives the
    members, as one `Drive` of the swept table. */
module SupplyManager {
  import opened Agents

  /** Members are sent to build depots below this much supply headroom. */
  const DepotHeadroom := 5

  predicate LowOnSupply(supplyTotal: int, supplyUsed: int)
  {
    supplyTotal - supplyUsed < DepotHeadroom
  }

  /** The sweep over the membership: when supply is low, each member is put
      in BuildState and then given Terran_Supply_Depot as its unit-type
      target; no other agent and no other field of an agent changes, and
      the table keeps exactly the same agents. */
  method BuildDepotsIfLow(agents: map<AgentId, Agent>, members: set<AgentId>, supplyTotal: int, supplyUsed: int)
    returns (swept: map<AgentId, Agent>)
    requires members <= agents.Keys
    ensures swept.Keys == agents.Keys
    ensures LowOnSupply(supplyTotal, supplyUsed) ==>
              forall a :: a in members ==>
                swept[a].state == BuildState && swept[a].target == Some(TerranSupplyDepot) &&
                swept[a].unit == agents[a].unit && swept[a].variant == agents[a].variant
    ensures forall a :: a in agents && a !in members ==> swept[a] == agents[a]
    ensures !LowOnSupply(supplyTotal, supplyUsed) || members == {} ==> swept == agents
  {
    swept := agents;
    if LowOnSupply(supplyTotal, supplyUsed) {
      var pending := members;
      while pending != {}
        invariant pending <= members
        invariant swept.Keys == agents.Keys
        invariant forall a :: a in agents && a !in members ==> swept[a] == agents[a]
        invariant forall a :: a in pending ==> swept[a] == agents[a]
        invariant forall a :: a in members && a !in pending ==>
                    swept[a] == agents[a].(state := BuildState, target := Some(TerranSupplyDepot))
        decreases pending
      {
        var a :| a in pending;
        swept := swept[a := swept[a].(state := BuildState)];
        swept := swept[a := swept[a].(target := Some(TerranSupplyDepot))];
        pending := pending - {a};
      }
    }
  }

  /** SupplyManager::update: the sweep, then the base manager update, which
      issues `orders` to the members (see `Drive`). `swept` is the agent
      table between the two; only when supply is low does it differ from
      the table given. */
  method Update(agents: map<AgentId, Agent>, members: set<AgentId>, supplyTotal: int, supplyUsed: int,
                orders: map<AgentId, Orders>)
    returns (ghost swept: map<AgentId, Agent>, after: map<AgentId, Agent>)
    requires members <= agents.Keys
    ensures swept.Keys == agents.Keys
    ensures LowOnSupply(supplyTotal, supplyUsed) ==>
              forall a :: a in members ==> swept[a].state == BuildState && swept[a].target == Some(TerranSupplyDepot)
    ensures forall a :: a in agents && a !in members ==> swept[a] == agents[a]
    ensures !LowOnSupply(supplyTotal, supplyUsed) ==> swept == agents
    ensures after == Drive(swept, members, orders)
    ensures after.Keys == agents.Keys
    ensures forall a :: a in agents ==> after[a].unit == agents[a].unit && after[a].variant == agents[a].variant
    ensures forall a :: a in agents && a !in members ==> after[a] == agents[a]
  {
    var s := BuildDepotsIfLow(agents, members, supplyTotal, supplyUsed);
    swept := s;
    after := Drive(s, members, orders);
  }
}
