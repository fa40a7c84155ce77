/** Data model shared by the strategizer and its managers: host units,
    agents (the controllers wrapped around units) and the seven managers. */
module Agents {

  /** A host unit handle (the `Unit*` key of the unit-to-agent table). The
      numeric order of ids stands for the order in which a `std::map` keyed
      by unit pointers visits its keys. */
  type UnitId = nat

  /** An agent handle (the `Agent*` the strategizer allocates). */
  type AgentId = nat

  datatype Option<T> = None | Some(value: T)

  /** The unit-type tests made by discovery and by the default routing, in
      the order they are made: isWorker, isResourceDepot, Terran_Barracks,
      Terran_Marine, and everything else. */
  datatype UnitKind = Worker | Depot | Barracks | Marine | Other

  /** A unit of the controlled player as the host reports it. */
  datatype Unit = Unit(id: UnitId, kind: UnitKind, completed: bool)

  /** The agent class chosen for a unit when its agent is created. */
  datatype AgentKind = SCVAgent | CommandCenterAgent | BarracksAgent | MarineAgent

  /** Behavioural states an agent can be put in. */
  datatype AgentState = IdleState | MoveToTargetState | GatherState | BuildState | CombatState

  /** Unit types a manager can ask an agent to produce. */
  datatype UnitType = TerranSupplyDepot | TerranBarracks | TerranMarine | TerranSCV

  /** An agent: the unit it is bound to, its class, its state and its
      unit-type target. */
  datatype Agent = Agent(unit: UnitId, variant: AgentKind, state: AgentState, target: Option<UnitType>)

  /** What a manager's update may issue to one of its agents: a new state
      and a new unit-type target. */
  datatype Orders = Orders(state: AgentState, target: Option<UnitType>)

  /** The seven managers the strategizer owns. */
  datatype ManagerId = Build | Combat | Construction | Production | Resource | Scout | Supply

  const AllManagers: set<ManagerId> := {Build, Combat, Construction, Production, Resource, Scout, Supply}

  lemma AllManagersComplete(m: ManagerId)
    ensures m in AllManagers
  {
  }

  /** The agent class discovery creates for a unit of kind `k`, tested in
      the source's order; units of any other kind get no agent. */
  function AgentKindOf(k: UnitKind): (r: Option<AgentKind>)
    ensures r.None? <==> k == Other
    ensures r == Some(SCVAgent) <==> k == Worker
  {
    match k
    case Worker => Some(SCVAgent)
    case Depot => Some(CommandCenterAgent)
    case Barracks => Some(BarracksAgent)
    case Marine => Some(MarineAgent)
    case Other => None
  }

  /** A freshly constructed agent for unit `u` of class `v`. */
  function NewAgent(u: UnitId, v: AgentKind): Agent
  {
    Agent(u, v, IdleState, None)
  }

  /** The class of every agent in an agent table. */
  function Variants(agents: map<AgentId, Agent>): (r: map<AgentId, AgentKind>)
    ensures r.Keys == agents.Keys
  {
    map a | a in agents :: agents[a].variant
  }

  /** The effect of a manager update whose body is outside this model: each
      member of `ms` named in `orders` takes the state and target issued to
      it. No agent is created or deleted, none changes unit or class, and no
      agent outside `ms` changes. */
  function Drive(agents: map<AgentId, Agent>, ms: set<AgentId>, orders: map<AgentId, Orders>): (r: map<AgentId, Agent>)
    ensures r.Keys == agents.Keys
    ensures forall a :: a in agents ==> r[a].unit == agents[a].unit && r[a].variant == agents[a].variant
    ensures forall a :: a in agents && (a !in ms || a !in orders) ==> r[a] == agents[a]
    ensures forall a :: a in agents && a in ms && a in orders ==>
              r[a].state == orders[a].state && r[a].target == orders[a].target
  {
    map a | a in agents :: if a in ms && a in orders then agents[a].(state := orders[a].state, target := orders[a].target)
                           else agents[a]
  }

  /** The orders issued by manager `m` in one tick; a manager not named issues none. */
  function OrdersOf(orders: map<ManagerId, map<AgentId, Orders>>, m: ManagerId): map<AgentId, Orders>
  {
    if m in orders then orders[m] else map[]
  }
}
