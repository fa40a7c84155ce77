/** The assignment phase of a strategizer tick as a function of its
    inputs: the default manager of every agent, the two override rules
    that each pull at most one gathering worker off the resource manager,
    and the manager memberships rebuilt from the resulting map. */
module Routing {
  import opened Agents

  /** The supply override fires below this much supply headroom. */
  const LowSupplyHeadroom := 6
  /** The expansion override fires above this much supply used. */
  const ExpansionSupplyUsed := 20
  /** Either override fires only while its manager holds at most this many workers. */
  const WorkerCap := 1

  /** The manager an agent of class `v` is routed to by default. */
  function DefaultManager(v: AgentKind): ManagerId
  {
    match v
    case SCVAgent => Resource
    case CommandCenterAgent => Production
    case BarracksAgent => Combat
    case MarineAgent => Combat
  }

  /** The default pass applied to every agent of the table. */
  function DefaultRouting(kinds: map<AgentId, AgentKind>): (r: map<AgentId, ManagerId>)
    ensures r.Keys == kinds.Keys
  {
    map a | a in kinds :: DefaultManager(kinds[a])
  }

  /** Number of members of a manager whose agent is of class `v`. */
  function CountOf(members: set<AgentId>, kinds: map<AgentId, AgentKind>, v: AgentKind): (r: nat)
    ensures r <= |members|
    ensures r == 0 <==> forall a :: a in members && a in kinds ==> kinds[a] != v
  {
    SubsetCardinality(Counted(members, kinds, v), members);
    NoneCounted(members, kinds, v);
    |Counted(members, kinds, v)|
  }

  /** The members of class `v`. */
  function Counted(members: set<AgentId>, kinds: map<AgentId, AgentKind>, v: AgentKind): set<AgentId>
  {
    set a | a in members && a in kinds && kinds[a] == v
  }

  lemma NoneCounted(members: set<AgentId>, kinds: map<AgentId, AgentKind>, v: AgentKind)
    ensures Counted(members, kinds, v) == {} <==> forall a :: a in members && a in kinds ==> kinds[a] != v
  {
    if Counted(members, kinds, v) != {} {
      var x :| x in Counted(members, kinds, v);
    } else {
      forall a | a in members && a in kinds
        ensures kinds[a] != v
      {
        assert a !in Counted(members, kinds, v);
      }
    }
  }

  /** Condition of the supply override. */
  predicate SupplyPressure(supplyTotal: int, supplyUsed: int, supplyWorkers: nat)
  {
    supplyTotal - supplyUsed < LowSupplyHeadroom && supplyWorkers <= WorkerCap
  }

  /** Condition of the expansion override. */
  predicate ExpansionPressure(supplyUsed: int, combatWorkers: nat)
  {
    supplyUsed > ExpansionSupplyUsed && combatWorkers <= WorkerCap
  }

  /** A worker currently mapped to the resource manager. */
  predicate ResourceWorker(kinds: map<AgentId, AgentKind>, amm: map<AgentId, ManagerId>, a: AgentId)
  {
    a in kinds && kinds[a] == SCVAgent && a in amm && amm[a] == Resource
  }

  /** The entry at position `i` of the table walk is one an override may take. */
  predicate CandidateAt(keys: seq<UnitId>, uam: map<UnitId, AgentId>, kinds: map<AgentId, AgentKind>,
                        amm: map<AgentId, ManagerId>, i: nat)
    requires i < |keys|
  {
    keys[i] in uam && ResourceWorker(kinds, amm, uam[keys[i]])
  }

  /** The first position at or after `i` that an override may take. */
  function FirstFrom(keys: seq<UnitId>, uam: map<UnitId, AgentId>, kinds: map<AgentId, AgentKind>,
                     amm: map<AgentId, ManagerId>, i: nat): (r: Option<nat>)
    requires i <= |keys|
    ensures r.Some? ==> i <= r.value < |keys| && CandidateAt(keys, uam, kinds, amm, r.value)
    ensures r.Some? ==> forall j :: i <= j < r.value ==> !CandidateAt(keys, uam, kinds, amm, j)
    ensures r.None? ==> forall j :: i <= j < |keys| ==> !CandidateAt(keys, uam, kinds, amm, j)
    decreases |keys| - i
  {
    if i == |keys| then None
    else if CandidateAt(keys, uam, kinds, amm, i) then Some(i)
    else FirstFrom(keys, uam, kinds, amm, i + 1)
  }

  /** The agent an override takes: the first resource-mapped worker in table order. */
  function FirstResourceWorker(keys: seq<UnitId>, uam: map<UnitId, AgentId>, kinds: map<AgentId, AgentKind>,
                               amm: map<AgentId, ManagerId>): Option<AgentId>
  {
    match FirstFrom(keys, uam, kinds, amm, 0)
    case None => None
    case Some(i) => Some(uam[keys[i]])
  }

  /** One override rule: remap that worker, if there is one, to `target`. */
  function Override(keys: seq<UnitId>, uam: map<UnitId, AgentId>, kinds: map<AgentId, AgentKind>,
                    amm: map<AgentId, ManagerId>, target: ManagerId): (r: map<AgentId, ManagerId>)
    ensures r.Keys == amm.Keys
  {
    match FirstResourceWorker(keys, uam, kinds, amm)
    case None => amm
    case Some(a) => amm[a := target]
  }

  /** Once the walk has passed no candidate before position `i` and finds one
      there, the override is that one move. */
  lemma OverrideTakes(keys: seq<UnitId>, uam: map<UnitId, AgentId>, kinds: map<AgentId, AgentKind>,
                      amm: map<AgentId, ManagerId>, target: ManagerId, i: nat)
    requires i < |keys| && FirstFrom(keys, uam, kinds, amm, i) == FirstFrom(keys, uam, kinds, amm, 0)
    requires CandidateAt(keys, uam, kinds, amm, i)
    ensures Override(keys, uam, kinds, amm, target) == amm[uam[keys[i]] := target]
  {
  }

  /** A walk that passes no candidate at all leaves the map as it was. */
  lemma OverrideSkips(keys: seq<UnitId>, uam: map<UnitId, AgentId>, kinds: map<AgentId, AgentKind>,
                      amm: map<AgentId, ManagerId>, target: ManagerId)
    requires FirstFrom(keys, uam, kinds, amm, |keys|) == FirstFrom(keys, uam, kinds, amm, 0)
    ensures Override(keys, uam, kinds, amm, target) == amm
  {
  }

  /** The supply override applied to the default routing. */
  function AfterSupplyRule(keys: seq<UnitId>, uam: map<UnitId, AgentId>, kinds: map<AgentId, AgentKind>,
                           supplyTotal: int, supplyUsed: int, supplyWorkers: nat): map<AgentId, ManagerId>
  {
    var d := DefaultRouting(kinds);
    if SupplyPressure(supplyTotal, supplyUsed, supplyWorkers) then Override(keys, uam, kinds, d, Supply) else d
  }

  /** The whole assignment phase: defaults, then the supply override, then
      the expansion override. `supplyWorkers` and `combatWorkers` are the
      worker counts of those managers' memberships from the previous tick. */
  function Assignment(keys: seq<UnitId>, uam: map<UnitId, AgentId>, kinds: map<AgentId, AgentKind>,
                      supplyTotal: int, supplyUsed: int, supplyWorkers: nat, combatWorkers: nat): map<AgentId, ManagerId>
  {
    var s := AfterSupplyRule(keys, uam, kinds, supplyTotal, supplyUsed, supplyWorkers);
    if ExpansionPressure(supplyUsed, combatWorkers) then Override(keys, uam, kinds, s, Combat) else s
  }

  /** The agents whose manager differs between two maps. */
  function Moved(before: map<AgentId, ManagerId>, after: map<AgentId, ManagerId>): set<AgentId>
  {
    set a | a in before && a in after && before[a] != after[a]
  }

  /** The workers an agent-to-manager map sends to manager `m`. */
  function WorkersRoutedTo(amm: map<AgentId, ManagerId>, kinds: map<AgentId, AgentKind>, m: ManagerId): set<AgentId>
  {
    set a | a in amm && a in kinds && kinds[a] == SCVAgent && amm[a] == m
  }

  /** Manager memberships rebuilt from an agent-to-manager map. */
  function Membership(amm: map<AgentId, ManagerId>): (r: map<ManagerId, set<AgentId>>)
    ensures r.Keys == AllManagers
  {
    map m | m in AllManagers :: set a | a in amm && amm[a] == m
  }

  // ---------------------------------------------------------------------
  // One override rule

  /** An override remaps at most one agent, and only the first
      resource-mapped worker in table order, to its target. */
  lemma OverrideMovesAtMostOne(keys: seq<UnitId>, uam: map<UnitId, AgentId>, kinds: map<AgentId, AgentKind>,
                               amm: map<AgentId, ManagerId>, target: ManagerId)
    ensures |Moved(amm, Override(keys, uam, kinds, amm, target))| <= 1
    ensures forall a :: a in Moved(amm, Override(keys, uam, kinds, amm, target)) ==>
              ResourceWorker(kinds, amm, a) && Override(keys, uam, kinds, amm, target)[a] == target &&
              FirstResourceWorker(keys, uam, kinds, amm) == Some(a)
  {
    var r := Override(keys, uam, kinds, amm, target);
    match FirstResourceWorker(keys, uam, kinds, amm)
    case None =>
      assert Moved(amm, r) == {};
    case Some(x) =>
      assert Moved(amm, r) <= {x};
      assert Moved(amm, r) == {} || Moved(amm, r) == {x};
  }

  /** When some resource-mapped worker exists, an override to another
      manager moves exactly one agent: the first such worker. */
  lemma OverrideMovesExactlyOne(keys: seq<UnitId>, uam: map<UnitId, AgentId>, kinds: map<AgentId, AgentKind>,
                                amm: map<AgentId, ManagerId>, target: ManagerId, i: nat)
    requires target != Resource
    requires i < |keys| && CandidateAt(keys, uam, kinds, amm, i)
    ensures FirstResourceWorker(keys, uam, kinds, amm).Some?
    ensures Moved(amm, Override(keys, uam, kinds, amm, target)) == {FirstResourceWorker(keys, uam, kinds, amm).value}
  {
    var f := FirstFrom(keys, uam, kinds, amm, 0);
    var x := uam[keys[f.value]];
    var r := Override(keys, uam, kinds, amm, target);
    assert r == amm[x := target];
    assert Moved(amm, r) == {x};
  }

  // ---------------------------------------------------------------------
  // The assignment phase

  /** Every agent of the table is mapped, and an agent that is not a worker
      keeps its default manager. */
  lemma AssignmentTotal(keys: seq<UnitId>, uam: map<UnitId, AgentId>, kinds: map<AgentId, AgentKind>,
                        supplyTotal: int, supplyUsed: int, supplyWorkers: nat, combatWorkers: nat)
    ensures Assignment(keys, uam, kinds, supplyTotal, supplyUsed, supplyWorkers, combatWorkers).Keys == kinds.Keys
    ensures forall a :: a in kinds && kinds[a] != SCVAgent ==>
              Assignment(keys, uam, kinds, supplyTotal, supplyUsed, supplyWorkers, combatWorkers)[a] == DefaultManager(kinds[a])
    ensures forall a :: a in kinds && kinds[a] == SCVAgent ==>
              Assignment(keys, uam, kinds, supplyTotal, supplyUsed, supplyWorkers, combatWorkers)[a] in {Resource, Supply, Combat}
  {
    var d := DefaultRouting(kinds);
    var s := AfterSupplyRule(keys, uam, kinds, supplyTotal, supplyUsed, supplyWorkers);
    var r := Assignment(keys, uam, kinds, supplyTotal, supplyUsed, supplyWorkers, combatWorkers);
    OverrideMovesAtMostOne(keys, uam, kinds, d, Supply);
    OverrideMovesAtMostOne(keys, uam, kinds, s, Combat);
    forall a | a in kinds && kinds[a] != SCVAgent
      ensures r[a] == DefaultManager(kinds[a])
    {
      assert a !in Moved(d, s);
      assert a !in Moved(s, r);
    }
  }

  /** The agents the supply manager receives: exactly the first worker in
      table order when the supply rule fires and a worker exists, and no
      agent otherwise. In particular a headroom of 6 or more sends no agent
      to the supply manager. */
  lemma SupplyReceivesFirstWorker(keys: seq<UnitId>, uam: map<UnitId, AgentId>, kinds: map<AgentId, AgentKind>,
                                  supplyTotal: int, supplyUsed: int, supplyWorkers: nat, combatWorkers: nat)
    ensures var r := Assignment(keys, uam, kinds, supplyTotal, supplyUsed, supplyWorkers, combatWorkers);
            var first := FirstResourceWorker(keys, uam, kinds, DefaultRouting(kinds));
            (set a | a in r && r[a] == Supply) ==
              if SupplyPressure(supplyTotal, supplyUsed, supplyWorkers) && first.Some? then {first.value} else {}
  {
    var d := DefaultRouting(kinds);
    var s := AfterSupplyRule(keys, uam, kinds, supplyTotal, supplyUsed, supplyWorkers);
    var r := Assignment(keys, uam, kinds, supplyTotal, supplyUsed, supplyWorkers, combatWorkers);
    var first := FirstResourceWorker(keys, uam, kinds, d);
    OverrideMovesAtMostOne(keys, uam, kinds, d, Supply);
    OverrideMovesAtMostOne(keys, uam, kinds, s, Combat);
    assert forall a :: a in d ==> d[a] != Supply;
    if SupplyPressure(supplyTotal, supplyUsed, supplyWorkers) && first.Some? {
      var x := first.value;
      assert s == d[x := Supply];
      assert !ResourceWorker(kinds, s, x);
      assert x !in Moved(s, r);
      assert (set a | a in r && r[a] == Supply) == {x};
    } else {
      assert s == d;
      assert (set a | a in r && r[a] == Supply) == {};
    }
  }

  /** Supply wins: the worker the supply rule takes is not taken again by
      the expansion rule, even when both fire. */
  lemma SupplyWinsOverExpansion(keys: seq<UnitId>, uam: map<UnitId, AgentId>, kinds: map<AgentId, AgentKind>,
                                supplyTotal: int, supplyUsed: int, supplyWorkers: nat, combatWorkers: nat)
    requires SupplyPressure(supplyTotal, supplyUsed, supplyWorkers)
    requires FirstResourceWorker(keys, uam, kinds, DefaultRouting(kinds)).Some?
    ensures var x := FirstResourceWorker(keys, uam, kinds, DefaultRouting(kinds)).value;
            Assignment(keys, uam, kinds, supplyTotal, supplyUsed, supplyWorkers, combatWorkers)[x] == Supply
  {
    var d := DefaultRouting(kinds);
    var x := FirstResourceWorker(keys, uam, kinds, d).value;
    var s := AfterSupplyRule(keys, uam, kinds, supplyTotal, supplyUsed, supplyWorkers);
    assert s == d[x := Supply];
    OverrideMovesAtMostOne(keys, uam, kinds, s, Combat);
    var r := Assignment(keys, uam, kinds, supplyTotal, supplyUsed, supplyWorkers, combatWorkers);
    assert x !in Moved(s, r);
  }

  /** The two overrides together change at most two agents' managers, and
      each changed agent is a worker taken from the resource manager. */
  lemma AtMostTwoMoves(keys: seq<UnitId>, uam: map<UnitId, AgentId>, kinds: map<AgentId, AgentKind>,
                       supplyTotal: int, supplyUsed: int, supplyWorkers: nat, combatWorkers: nat)
    ensures var d := DefaultRouting(kinds);
            var r := Assignment(keys, uam, kinds, supplyTotal, supplyUsed, supplyWorkers, combatWorkers);
            |Moved(d, r)| <= 2 &&
            forall a :: a in Moved(d, r) ==> kinds[a] == SCVAgent && d[a] == Resource && r[a] in {Supply, Combat}
  {
    var d := DefaultRouting(kinds);
    var s := AfterSupplyRule(keys, uam, kinds, supplyTotal, supplyUsed, supplyWorkers);
    var r := Assignment(keys, uam, kinds, supplyTotal, supplyUsed, supplyWorkers, combatWorkers);
    OverrideMovesAtMostOne(keys, uam, kinds, d, Supply);
    OverrideMovesAtMostOne(keys, uam, kinds, s, Combat);
    assert Moved(d, r) <= Moved(d, s) + Moved(s, r);
    SubsetCardinality(Moved(d, r), Moved(d, s) + Moved(s, r));
  }

  /** The expansion rule sends at most one worker to the combat manager,
      and none unless it fires. */
  lemma ExpansionTakesAtMostOneWorker(keys: seq<UnitId>, uam: map<UnitId, AgentId>, kinds: map<AgentId, AgentKind>,
                                      supplyTotal: int, supplyUsed: int, supplyWorkers: nat, combatWorkers: nat)
    ensures var w := WorkersRoutedTo(Assignment(keys, uam, kinds, supplyTotal, supplyUsed, supplyWorkers, combatWorkers), kinds, Combat);
            |w| <= 1 && (w != {} ==> ExpansionPressure(supplyUsed, combatWorkers))
  {
    var d := DefaultRouting(kinds);
    var s := AfterSupplyRule(keys, uam, kinds, supplyTotal, supplyUsed, supplyWorkers);
    var r := Assignment(keys, uam, kinds, supplyTotal, supplyUsed, supplyWorkers, combatWorkers);
    OverrideMovesAtMostOne(keys, uam, kinds, d, Supply);
    OverrideMovesAtMostOne(keys, uam, kinds, s, Combat);
    var w := WorkersRoutedTo(r, kinds, Combat);
    forall a | a in s && a in kinds && kinds[a] == SCVAgent
      ensures s[a] != Combat
    {
      assert d[a] == Resource;
      assert a !in Moved(d, s) || s[a] == Supply;
    }
    assert w <= Moved(s, r);
    SubsetCardinality(w, Moved(s, r));
    if !ExpansionPressure(supplyUsed, combatWorkers) {
      assert Moved(s, r) == {};
    }
  }

  lemma {:induction false} SubsetCardinality<T>(a: set<T>, b: set<T>)
    requires a <= b
    ensures |a| <= |b|
  {
    if a != {} {
      var x :| x in a;
      SubsetCardinality(a - {x}, b - {x});
    }
  }

  // ---------------------------------------------------------------------
  // Redistribution

  /** Rebuilt memberships are exclusive and total: every mapped agent is a
      member of its manager and of no other, and only mapped agents are
      members. */
  lemma MembershipPartitions(amm: map<AgentId, ManagerId>)
    ensures forall m, a :: m in AllManagers && a in Membership(amm)[m] ==> a in amm && amm[a] == m
    ensures forall a :: a in amm ==> a in Membership(amm)[amm[a]]
    ensures forall a, m1, m2 ::
              (m1 in AllManagers && m2 in AllManagers && a in Membership(amm)[m1] && a in Membership(amm)[m2]) ==> m1 == m2
  {
    forall a | a in amm ensures amm[a] in AllManagers {
      AllManagersComplete(amm[a]);
    }
  }
}
