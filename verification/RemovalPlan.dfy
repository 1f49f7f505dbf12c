/**
 `removal_plan` of packages/cli/canyonos/aws_provision.py: what tearing down one provision
 run deletes. The AWS answers are one snapshot: the live machines, and the security groups
 and key pairs that carry the run's tag.
 */
module RemovalPlan {

  type Id = string

  /** A live machine; `isAgent` is the agent CreatedBy tag, `deployedFrom` the tag of that name. */
  datatype Machine = Machine(id: Id, groups: set<Id>, keyName: string, isAgent: bool, deployedFrom: Id)

  datatype Plan = Plan(
    machineIds: seq<Id>,
    agentIds: seq<Id>,
    groupIds: seq<Id>,
    keyNames: seq<string>,
    keptGroups: map<Id, seq<Id>>,
    keptKeys: map<string, seq<Id>>)

  function UsersOfGroup(live: seq<Machine>, group: Id): seq<Machine> {
    if live == [] then []
    else (if group in live[0].groups then [live[0]] else []) + UsersOfGroup(live[1..], group)
  }

  function UsersOfKey(live: seq<Machine>, name: string): seq<Machine> {
    if live == [] then []
    else (if live[0].keyName == name then [live[0]] else []) + UsersOfKey(live[1..], name)
  }

  function DeployedFrom(live: seq<Machine>, ids: seq<Id>): seq<Machine> {
    if live == [] then []
    else (if live[0].deployedFrom in ids then [live[0]] else []) + DeployedFrom(live[1..], ids)
  }

  function Agents(ms: seq<Machine>): seq<Machine> {
    if ms == [] then []
    else (if ms[0].isAgent then [ms[0]] else []) + Agents(ms[1..])
  }

  /** The ids of the machines that are neither listed in `agents` nor named in `spared`. */
  function Others(ms: seq<Machine>, agents: seq<Machine>, spared: seq<Id>): seq<Id> {
    if ms == [] then []
    else (if ms[0] in agents || ms[0].id in spared then [] else [ms[0].id]) + Others(ms[1..], agents, spared)
  }

  lemma {:induction false} SelectionsAre(live: seq<Machine>, group: Id, name: string, ids: seq<Id>)
    ensures forall m :: m in UsersOfGroup(live, group) <==> m in live && group in m.groups
    ensures forall m :: m in UsersOfKey(live, name) <==> m in live && m.keyName == name
    ensures forall m :: m in DeployedFrom(live, ids) <==> m in live && m.deployedFrom in ids
    ensures forall m :: m in Agents(live) <==> m in live && m.isAgent
  {
    if live != [] {
      SelectionsAre(live[1..], group, name, ids);
      assert forall m :: m in live <==> m == live[0] || m in live[1..];
    }
  }

  lemma {:induction false} OthersAre(ms: seq<Machine>, agents: seq<Machine>, spared: seq<Id>)
    ensures forall id :: id in Others(ms, agents, spared) <==>
                         exists m :: m in ms && m.id == id && m !in agents && id !in spared
    ensures Others(ms, agents, spared) == [] <==> forall m :: m in ms ==> m in agents || m.id in spared
  {
    if ms != [] {
      OthersAre(ms[1..], agents, spared);
      assert forall m :: m in ms <==> m == ms[0] || m in ms[1..];
    }
  }

  function MachineIdSet(ms: seq<Machine>): set<Id> {
    set m | m in ms :: m.id
  }

  ghost predicate Distinct(ids: seq<Id>) {
    forall i, j :: 0 <= i < j < |ids| ==> ids[i] != ids[j]
  }

  // ------------------------------------------------------- the reference

  /** The group has a live user that is neither an agent nor one of the given machines. */
  ghost predicate GroupHeld(live: seq<Machine>, given: seq<Id>, group: Id) {
    exists m :: m in live && group in m.groups && !m.isAgent && m.id !in given
  }

  ghost predicate AgentIn(live: seq<Machine>, group: Id, id: Id) {
    exists m :: m in live && m.id == id && m.isAgent && group in m.groups
  }

  ghost predicate AgentOfFreed(live: seq<Machine>, groups: seq<Id>, given: seq<Id>, id: Id) {
    exists g :: g in groups && !GroupHeld(live, given, g) && AgentIn(live, g, id)
  }

  /** The machines a plan ends: agents of freed groups, and what the given machines deployed. */
  ghost predicate Terminated(live: seq<Machine>, groups: seq<Id>, given: seq<Id>, id: Id) {
    AgentOfFreed(live, groups, given, id) || exists m :: m in live && m.id == id && m.deployedFrom in given
  }

  ghost predicate KeyHeld(live: seq<Machine>, groups: seq<Id>, given: seq<Id>, name: string) {
    exists m :: m in live && m.keyName == name && m.id !in given && !Terminated(live, groups, given, m.id)
  }

  /** A kept group is listed with exactly the machines that hold it. */
  ghost predicate NamesGroupUsers(live: seq<Machine>, given: seq<Id>, group: Id, ids: seq<Id>) {
    forall id :: id in ids <==>
      id !in given && exists m :: m in live && m.id == id && group in m.groups && !m.isAgent
  }

  /** A kept key pair is listed with exactly the machines that use it and are not ended. */
  ghost predicate NamesKeyUsers(live: seq<Machine>, name: string, ended: seq<Id>, ids: seq<Id>) {
    forall id :: id in ids <==> id !in ended && exists m :: m in live && m.id == id && m.keyName == name
  }

  /** The groups nobody holds, as they are listed. */
  ghost function FreeGroups(live: seq<Machine>, groups: seq<Id>, given: seq<Id>): seq<Id> {
    if groups == [] then []
    else
      var group := groups[|groups| - 1];
      FreeGroups(live, groups[..|groups| - 1], given) + if GroupHeld(live, given, group) then [] else [group]
  }

  /** The key pairs only ended machines use, as they are listed. */
  ghost function FreeKeys(live: seq<Machine>, keys: seq<string>, ended: seq<Id>): seq<string> {
    if keys == [] then []
    else
      var name := keys[|keys| - 1];
      FreeKeys(live, keys[..|keys| - 1], ended)
      + if exists m :: m in live && m.keyName == name && m.id !in ended then [] else [name]
  }

  ghost predicate UsesRemoved(plan: Plan, m: Machine) {
    m.keyName in plan.keyNames || exists g :: g in plan.groupIds && g in m.groups
  }

  // ------------------------------------------------------------ the plan

  method AddAgents(agents: seq<Machine>, agentIds: seq<Id>) returns (r: seq<Id>)
    requires Distinct(agentIds)
    ensures Distinct(r)
    ensures forall id :: id in r <==> id in agentIds || id in MachineIdSet(agents)
  {
    r := agentIds;
    for i := 0 to |agents|
      invariant Distinct(r)
      invariant forall id :: id in r <==> id in agentIds || exists j :: 0 <= j < i && agents[j].id == id
    {
      if agents[i].id !in r {
        r := r + [agents[i].id];
      }
    }
  }

  method Make(live: seq<Machine>, groups: seq<Id>, keys: seq<string>, given: seq<Id>) returns (plan: Plan)
    ensures plan.machineIds == given
    ensures plan.groupIds == FreeGroups(live, groups, given)
    ensures plan.keyNames == FreeKeys(live, keys, given + plan.agentIds)
    ensures Distinct(plan.agentIds)
    ensures forall g :: g in plan.groupIds <==> g in groups && !GroupHeld(live, given, g)
    ensures forall g :: g in plan.keptGroups <==> g in groups && GroupHeld(live, given, g)
    ensures forall g :: g in plan.keptGroups ==>
              plan.keptGroups[g] != [] && NamesGroupUsers(live, given, g, plan.keptGroups[g])
    ensures forall id :: id in plan.agentIds <==> Terminated(live, groups, given, id)
    ensures forall k :: k in plan.keyNames <==> k in keys && !KeyHeld(live, groups, given, k)
    ensures forall k :: k in plan.keptKeys <==> k in keys && KeyHeld(live, groups, given, k)
    ensures forall k :: k in plan.keptKeys ==>
              plan.keptKeys[k] != [] && NamesKeyUsers(live, k, given + plan.agentIds, plan.keptKeys[k])
    ensures forall m :: m in live && UsesRemoved(plan, m) ==> m.id in given || m.id in plan.agentIds
  {
    var groupIds, agentIds, keptGroups := PlanGroups(live, groups, given);
    var deployed := if given != [] then DeployedFrom(live, given) else [];
    SelectionsAre(live, "", "", given);
    agentIds := AddAgents(deployed, agentIds);
    assert forall id :: id in agentIds <==> Terminated(live, groups, given, id);
    var keyNames, keptKeys := PlanKeys(live, keys, given, agentIds);
    plan := Plan(given, agentIds, groupIds, keyNames, keptGroups, keptKeys);
  }

  method PlanGroups(live: seq<Machine>, groups: seq<Id>, given: seq<Id>)
    returns (groupIds: seq<Id>, agentIds: seq<Id>, kept: map<Id, seq<Id>>)
    ensures Distinct(agentIds)
    ensures groupIds == FreeGroups(live, groups, given)
    ensures forall g :: g in groupIds <==> g in groups && !GroupHeld(live, given, g)
    ensures forall g :: g in kept <==> g in groups && GroupHeld(live, given, g)
    ensures forall g :: g in kept ==> kept[g] != [] && NamesGroupUsers(live, given, g, kept[g])
    ensures forall id :: id in agentIds <==> AgentOfFreed(live, groups, given, id)
  {
    groupIds, agentIds, kept := [], [], map[];
    for i := 0 to |groups|
      invariant Distinct(agentIds)
      invariant groupIds == FreeGroups(live, groups[..i], given)
      invariant forall g :: g in groupIds <==> g in groups[..i] && !GroupHeld(live, given, g)
      invariant forall g :: g in kept <==> g in groups[..i] && GroupHeld(live, given, g)
      invariant forall g :: g in kept ==> kept[g] != [] && NamesGroupUsers(live, given, g, kept[g])
      invariant forall id :: id in agentIds <==> AgentOfFreed(live, groups[..i], given, id)
    {
      var group := groups[i];
      assert groups[..i + 1] == groups[..i] + [group] && groups[..i + 1][..i] == groups[..i];
      FreedGrows(live, groups[..i], given, group);
      var others, agents := UsersOf(live, given, group);
      if others != [] {
        kept := kept[group := others];
      } else {
        groupIds := groupIds + [group];
        agentIds := AddAgents(agents, agentIds);
      }
    }
    assert groups[..|groups|] == groups;
  }

  lemma FreedGrows(live: seq<Machine>, groups: seq<Id>, given: seq<Id>, group: Id)
    ensures forall id :: AgentOfFreed(live, groups + [group], given, id) <==>
                         || AgentOfFreed(live, groups, given, id)
                         || (!GroupHeld(live, given, group) && AgentIn(live, group, id))
  {
    assert forall g :: g in groups + [group] <==> g in groups || g == group;
  }

  /** One group's users: the ones that hold it, and its agents. */
  method UsersOf(live: seq<Machine>, given: seq<Id>, group: Id) returns (others: seq<Id>, agents: seq<Machine>)
    ensures others != [] <==> GroupHeld(live, given, group)
    ensures NamesGroupUsers(live, given, group, others)
    ensures forall id :: id in MachineIdSet(agents) <==> AgentIn(live, group, id)
  {
    var users := UsersOfGroup(live, group);
    SelectionsAre(live, group, "", given);
    agents := Agents(users);
    SelectionsAre(users, "", "", given);
    others := Others(users, agents, given);
    OthersAre(users, agents, given);
  }

  method PlanKeys(live: seq<Machine>, keys: seq<string>, given: seq<Id>, agentIds: seq<Id>)
    returns (keyNames: seq<string>, kept: map<string, seq<Id>>)
    ensures keyNames == FreeKeys(live, keys, given + agentIds)
    ensures forall k :: k in keyNames <==> k in keys && !HeldBut(live, k, given, agentIds)
    ensures forall k :: k in kept <==> k in keys && HeldBut(live, k, given, agentIds)
    ensures forall k :: k in kept ==> kept[k] != [] && NamesKeyUsers(live, k, given + agentIds, kept[k])
  {
    keyNames, kept := [], map[];
    for i := 0 to |keys|
      invariant keyNames == FreeKeys(live, keys[..i], given + agentIds)
      invariant forall k :: k in keyNames <==> k in keys[..i] && !HeldBut(live, k, given, agentIds)
      invariant forall k :: k in kept <==> k in keys[..i] && HeldBut(live, k, given, agentIds)
      invariant forall k :: k in kept ==> kept[k] != [] && NamesKeyUsers(live, k, given + agentIds, kept[k])
    {
      var name := keys[i];
      assert keys[..i + 1] == keys[..i] + [name] && keys[..i + 1][..i] == keys[..i];
      var users := UsersOfKey(live, name);
      SelectionsAre(live, "", name, given);
      var others := Others(users, [], given + agentIds);
      OthersAre(users, [], given + agentIds);
      if others != [] {
        kept := kept[name := others];
      } else {
        keyNames := keyNames + [name];
      }
    }
    assert keys[..|keys|] == keys;
  }

  ghost predicate HeldBut(live: seq<Machine>, name: string, given: seq<Id>, agentIds: seq<Id>) {
    exists m :: m in live && m.keyName == name && m.id !in given && m.id !in agentIds
  }
}
