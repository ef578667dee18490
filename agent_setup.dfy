/**
 * Keeping an agent's AGENTS.md and .claude/CLAUDE.md current with its team
 * (crates/rustyclaw-core/src/agent_setup.rs, `update_agent_teammates`): the agent's
 * teammates and the agents of other teams are listed in a block spliced between the
 * teammate markers. The files are values: `None` for a file that does not exist.
 */
module AgentSetup {
  import opened Wrappers
  import opened Text
  import opened Types

  const StartMarker := "<!-- TEAMMATES_START -->"
  const EndMarker := "<!-- TEAMMATES_END -->"

  /** A teammate as listed: id, display name and model. */
  datatype Teammate = Teammate(id: string, name: string, model: string)

  /** An agent of another team as listed, with that team's display name. */
  datatype OtherAgent = OtherAgent(id: string, name: string, model: string, teamName: string)

  // ----- teammates -----

  /** The ids of the teams that list the agent, in iteration order. */
  function MyTeamIds(teams: Teams, agentId: string): (r: seq<string>)
    ensures forall id :: id in r <==> exists i :: 0 <= i < |teams| && teams[i].0 == id && agentId in teams[i].1.agents
  {
    if teams == [] then []
    else
      var last := teams[|teams| - 1];
      var prev := MyTeamIds(teams[..|teams| - 1], agentId);
      assert forall i :: 0 <= i < |teams| - 1 ==> teams[..|teams| - 1][i] == teams[i];
      prev + (if agentId in last.1.agents then [last.0] else [])
  }

  /** The members of the teams that list the agent, team after team. */
  function CoMembers(teams: Teams, agentId: string): (r: seq<string>)
    ensures forall id :: id in r <==> exists i :: 0 <= i < |teams| && agentId in teams[i].1.agents && id in teams[i].1.agents
  {
    if teams == [] then []
    else
      var last := teams[|teams| - 1];
      var prev := CoMembers(teams[..|teams| - 1], agentId);
      assert forall i :: 0 <= i < |teams| - 1 ==> teams[..|teams| - 1][i] == teams[i];
      prev + (if agentId in last.1.agents then last.1.agents else [])
  }

  predicate Listed(teammates: seq<Teammate>, id: string) {
    exists t <- teammates :: t.id == id
  }

  /** The listed name and model are the agent's own. */
  predicate Describes(agents: Agents, t: Teammate) {
    var agent := GetAgent(agents, t.id);
    agent.Some? && t.name == agent.value.name && t.model == agent.value.model
  }

  /** Teammates taken from `ids` in order: known agents other than the agent, each once. */
  function PickTeammates(ids: seq<string>, agents: Agents, agentId: string): seq<Teammate> {
    if ids == [] then []
    else
      var prev := PickTeammates(ids[..|ids| - 1], agents, agentId);
      var id := ids[|ids| - 1];
      var agent := GetAgent(agents, id);
      if id != agentId && agent.Some? && !Listed(prev, id)
      then prev + [Teammate(id, agent.value.name, agent.value.model)]
      else prev
  }

  /** The teammates `update_agent_teammates` lists. */
  function Teammates(agents: Agents, teams: Teams, agentId: string): seq<Teammate> {
    PickTeammates(CoMembers(teams, agentId), agents, agentId)
  }

  /**
   * Picked teammates are the known ids of the list other than the agent, each listed once
   * with the name and model the agents map gives it.
   */
  lemma {:induction false} PickTeammatesProperties(ids: seq<string>, agents: Agents, agentId: string)
    ensures var r := PickTeammates(ids, agents, agentId);
      && (forall i, j :: 0 <= i < j < |r| ==> r[i].id != r[j].id)
      && (forall t <- r :: t.id in ids && t.id != agentId && Describes(agents, t))
      && (forall id <- ids :: id != agentId && HasAgent(agents, id) ==> Listed(r, id))
    decreases |ids|
  {
    if ids != [] {
      var init := ids[..|ids| - 1];
      PickTeammatesProperties(init, agents, agentId);
      assert forall id <- init :: id in ids;
      assert ids == init + [ids[|ids| - 1]];
    }
  }

  /** The teammates: every known agent sharing a team with the agent, other than itself, each once. */
  lemma TeammatesProperties(agents: Agents, teams: Teams, agentId: string)
    ensures var r := Teammates(agents, teams, agentId);
      && (forall i, j :: 0 <= i < j < |r| ==> r[i].id != r[j].id)
      && (forall t <- r :: t.id != agentId && Describes(agents, t)
                          && exists i :: 0 <= i < |teams| && agentId in teams[i].1.agents && t.id in teams[i].1.agents)
      && (forall i, id :: (0 <= i < |teams| && agentId in teams[i].1.agents && id in teams[i].1.agents
                           && id != agentId && HasAgent(agents, id)) ==> Listed(r, id))
      && ((forall i :: 0 <= i < |teams| ==> agentId !in teams[i].1.agents) ==> r == [])
  {
    var ids := CoMembers(teams, agentId);
    PickTeammatesProperties(ids, agents, agentId);
    if forall i :: 0 <= i < |teams| ==> agentId !in teams[i].1.agents {
      NoMembers(ids);
    }
  }

  lemma NoMembers<T>(s: seq<T>)
    requires forall x :: x !in s
    ensures s == []
  {
    FirstIn(s);
  }

  lemma FirstIn<T>(s: seq<T>)
    ensures s != [] ==> s[0] in s
  {
  }

  // ----- agents of other teams -----

  /** The pairs (member, team name) of one team, in member order. */
  function TeamOffers(team: TeamConfig): (r: seq<(string, string)>)
    ensures |r| == |team.agents| && forall k :: 0 <= k < |r| ==> r[k] == (team.agents[k], team.name)
  {
    seq(|team.agents|, k requires 0 <= k < |team.agents| => (team.agents[k], team.name))
  }

  /** The pairs (member, team name) of the teams whose id is not one of `myIds`, team after team. */
  function Offers(teams: Teams, myIds: seq<string>): (r: seq<(string, string)>)
    ensures forall o :: o in r <==>
      exists i :: 0 <= i < |teams| && teams[i].0 !in myIds && o.0 in teams[i].1.agents && o.1 == teams[i].1.name
  {
    if teams == [] then []
    else
      var last := teams[|teams| - 1];
      var prev := Offers(teams[..|teams| - 1], myIds);
      assert forall i :: 0 <= i < |teams| - 1 ==> teams[..|teams| - 1][i] == teams[i];
      assert forall o :: o in TeamOffers(last.1) <==> o.0 in last.1.agents && o.1 == last.1.name by {
        forall o: (string, string) | o.0 in last.1.agents && o.1 == last.1.name ensures o in TeamOffers(last.1) {
          var k :| 0 <= k < |last.1.agents| && last.1.agents[k] == o.0;
          assert TeamOffers(last.1)[k] == o;
        }
      }
      prev + (if last.0 !in myIds then TeamOffers(last.1) else [])
  }

  predicate Mentioned(others: seq<OtherAgent>, id: string) {
    exists o <- others :: o.id == id
  }

  /** Other agents taken from the offers in order: known agents that are not teammates, each once. */
  function PickOthers(offers: seq<(string, string)>, agents: Agents, teammates: seq<Teammate>): seq<OtherAgent> {
    if offers == [] then []
    else
      var prev := PickOthers(offers[..|offers| - 1], agents, teammates);
      var (id, teamName) := offers[|offers| - 1];
      var agent := GetAgent(agents, id);
      if agent.Some? && !Mentioned(prev, id) && !Listed(teammates, id)
      then prev + [OtherAgent(id, agent.value.name, agent.value.model, teamName)]
      else prev
  }

  /** Whether the agent may hand off across teams: its own setting, and yes for an unknown agent. */
  function CanCrossTeam(agents: Agents, agentId: string): bool {
    match GetAgent(agents, agentId)
    case Some(a) => a.crossTeamHandoffs
    case None => true
  }

  /** The agents of other teams `update_agent_teammates` lists. */
  function Others(agents: Agents, teams: Teams, agentId: string): seq<OtherAgent> {
    if CanCrossTeam(agents, agentId)
    then PickOthers(Offers(teams, MyTeamIds(teams, agentId)), agents, Teammates(agents, teams, agentId))
    else []
  }

  lemma PickOthersProperties(offers: seq<(string, string)>, agents: Agents, teammates: seq<Teammate>)
    ensures var r := PickOthers(offers, agents, teammates);
      && (forall i, j :: 0 <= i < j < |r| ==> r[i].id != r[j].id)
      && (forall o <- r :: (o.id, o.teamName) in offers && !Listed(teammates, o.id)
                          && Describes(agents, Teammate(o.id, o.name, o.model)))
      && (forall p <- offers :: HasAgent(agents, p.0) && !Listed(teammates, p.0) ==> Mentioned(r, p.0))
  {
    PickOthersDistinct(offers, agents, teammates);
    PickOthersSound(offers, agents, teammates);
    PickOthersComplete(offers, agents, teammates);
  }

  /** No agent appears twice among `others`. */
  predicate DistinctOthers(others: seq<OtherAgent>) {
    forall i, j :: 0 <= i < j < |others| ==> others[i].id != others[j].id
  }

  lemma {:induction false} PickOthersDistinct(offers: seq<(string, string)>, agents: Agents, teammates: seq<Teammate>)
    ensures DistinctOthers(PickOthers(offers, agents, teammates))
    decreases |offers|
  {
    if offers != [] {
      var prev := PickOthers(offers[..|offers| - 1], agents, teammates);
      PickOthersDistinct(offers[..|offers| - 1], agents, teammates);
      var r := PickOthers(offers, agents, teammates);
      if r != prev {
        var id := offers[|offers| - 1].0;
        assert r == prev + [r[|prev|]] && r[|prev|].id == id && !Mentioned(prev, id);
        forall i | 0 <= i < |prev| ensures r[i].id != id {
          assert r[i] == prev[i] && prev[i] in prev;
        }
      }
    }
  }

  lemma {:induction false} PickOthersSound(offers: seq<(string, string)>, agents: Agents, teammates: seq<Teammate>)
    ensures forall o <- PickOthers(offers, agents, teammates) ::
      (o.id, o.teamName) in offers && !Listed(teammates, o.id) && Describes(agents, Teammate(o.id, o.name, o.model))
    decreases |offers|
  {
    if offers != [] {
      var init := offers[..|offers| - 1];
      PickOthersSound(init, agents, teammates);
      var last := offers[|offers| - 1];
      assert (last.0, last.1) == last;
      assert forall p <- init :: p in offers;
    }
  }

  lemma {:induction false} PickOthersComplete(offers: seq<(string, string)>, agents: Agents, teammates: seq<Teammate>)
    ensures var r := PickOthers(offers, agents, teammates);
      forall p <- offers :: HasAgent(agents, p.0) && !Listed(teammates, p.0) ==> Mentioned(r, p.0)
    decreases |offers|
  {
    if offers != [] {
      var init := offers[..|offers| - 1];
      PickOthersComplete(init, agents, teammates);
      assert offers == init + [offers[|offers| - 1]];
    }
  }

  /**
   * The agents of other teams: none when the agent may not hand off across teams; otherwise
   * every known member of a team that does not list the agent, unless it is a teammate,
   * each once and with the name of a team that lists it. The agent itself is never among them.
   */
  lemma OthersProperties(agents: Agents, teams: Teams, agentId: string)
    ensures var r := Others(agents, teams, agentId);
      var teammates := Teammates(agents, teams, agentId);
      && (!CanCrossTeam(agents, agentId) ==> r == [])
      && (forall i, j :: 0 <= i < j < |r| ==> r[i].id != r[j].id)
      && (forall o <- r :: o.id != agentId && !Listed(teammates, o.id)
                          && Describes(agents, Teammate(o.id, o.name, o.model))
                          && exists i :: (0 <= i < |teams| && agentId !in teams[i].1.agents
                                          && o.id in teams[i].1.agents && o.teamName == teams[i].1.name))
      && (CanCrossTeam(agents, agentId) ==>
            forall i, id :: (0 <= i < |teams| && teams[i].0 !in MyTeamIds(teams, agentId) && id in teams[i].1.agents
                             && HasAgent(agents, id) && !Listed(teammates, id)) ==> Mentioned(r, id))
  {
    if CanCrossTeam(agents, agentId) {
      var myIds := MyTeamIds(teams, agentId);
      var offers := Offers(teams, myIds);
      var teammates := Teammates(agents, teams, agentId);
      PickOthersProperties(offers, agents, teammates);
      var r := Others(agents, teams, agentId);
      forall o <- r ensures o.id != agentId && exists i :: (0 <= i < |teams| && agentId !in teams[i].1.agents
                                                       && o.id in teams[i].1.agents && o.teamName == teams[i].1.name) {
        assert (o.id, o.teamName) in offers;
        var i :| 0 <= i < |teams| && teams[i].0 !in myIds && o.id in teams[i].1.agents && o.teamName == teams[i].1.name;
        assert agentId !in teams[i].1.agents;
      }
      forall i, id | 0 <= i < |teams| && teams[i].0 !in myIds && id in teams[i].1.agents
                     && HasAgent(agents, id) && !Listed(teammates, id)
        ensures Mentioned(r, id)
      {
        assert (id, teams[i].1.name) in offers;
      }
    }
  }

  // ----- collecting the lists -----

  lemma PickTeammatesStep(ids: seq<string>, id: string, agents: Agents, agentId: string)
    ensures PickTeammates(ids + [id], agents, agentId) ==
      var prev := PickTeammates(ids, agents, agentId);
      var agent := GetAgent(agents, id);
      if id != agentId && agent.Some? && !Listed(prev, id)
      then prev + [Teammate(id, agent.value.name, agent.value.model)]
      else prev
  {
    assert (ids + [id])[..|ids|] == ids;
  }

  lemma PickOthersStep(offers: seq<(string, string)>, p: (string, string), agents: Agents, teammates: seq<Teammate>)
    ensures PickOthers(offers + [p], agents, teammates) ==
      var prev := PickOthers(offers, agents, teammates);
      var agent := GetAgent(agents, p.0);
      if agent.Some? && !Mentioned(prev, p.0) && !Listed(teammates, p.0)
      then prev + [OtherAgent(p.0, agent.value.name, agent.value.model, p.1)]
      else prev
  {
    assert (offers + [p])[..|offers|] == offers;
  }

  lemma TeamsStep(teams: Teams, i: nat, agentId: string, myIds: seq<string>)
    requires i < |teams|
    ensures CoMembers(teams[..i + 1], agentId) ==
      CoMembers(teams[..i], agentId) + (if agentId in teams[i].1.agents then teams[i].1.agents else [])
    ensures MyTeamIds(teams[..i + 1], agentId) ==
      MyTeamIds(teams[..i], agentId) + (if agentId in teams[i].1.agents then [teams[i].0] else [])
    ensures Offers(teams[..i + 1], myIds) ==
      Offers(teams[..i], myIds) + (if teams[i].0 !in myIds then TeamOffers(teams[i].1) else [])
  {
    assert teams[..i + 1][..i] == teams[..i];
  }

  /** The inner loop over one team of the agent: its members join the teammates in order. */
  method AddTeammates(teammates: seq<Teammate>, ghost before: seq<string>, members: seq<string>,
                      agentId: string, agents: Agents) returns (teammates': seq<Teammate>)
    requires teammates == PickTeammates(before, agents, agentId)
    ensures teammates' == PickTeammates(before + members, agents, agentId)
  {
    teammates' := teammates;
    assert before + members[..0] == before;
    for j := 0 to |members|
      invariant teammates' == PickTeammates(before + members[..j], agents, agentId)
    {
      var tid := members[j];
      ExtendPrefix(before, members, j);
      PickTeammatesStep(before + members[..j], tid, agents, agentId);
      ghost var prev := teammates';
      if tid == agentId {
        continue;
      }
      var agent := GetAgent(agents, tid);
      if agent.Some? && !Listed(teammates', tid) {
        teammates' := teammates' + [Teammate(tid, agent.value.name, agent.value.model)];
      }
      assert teammates' == (if agent.Some? && !Listed(prev, tid)
                            then prev + [Teammate(tid, agent.value.name, agent.value.model)] else prev);
    }
    assert members[..|members|] == members;
  }

  /** The first loop of `update_agent_teammates`: the agent's teams and its teammates. */
  method FindTeammates(agentId: string, agents: Agents, teams: Teams)
    returns (teammates: seq<Teammate>, myTeamIds: seq<string>)
    ensures teammates == Teammates(agents, teams, agentId)
    ensures myTeamIds == MyTeamIds(teams, agentId)
  {
    teammates := [];
    myTeamIds := [];
    for i := 0 to |teams|
      invariant teammates == PickTeammates(CoMembers(teams[..i], agentId), agents, agentId)
      invariant myTeamIds == MyTeamIds(teams[..i], agentId)
    {
      TeamsStep(teams, i, agentId, []);
      var team := teams[i].1;
      if agentId !in team.agents {
        assert CoMembers(teams[..i], agentId) + [] == CoMembers(teams[..i], agentId);
        continue;
      }
      myTeamIds := myTeamIds + [teams[i].0];
      teammates := AddTeammates(teammates, CoMembers(teams[..i], agentId), team.agents, agentId, agents);
    }
    assert teams[..|teams|] == teams;
  }

  /** The inner loop over a team that is not the agent's: its known members that are not yet listed join. */
  method AddOthers(others: seq<OtherAgent>, ghost before: seq<(string, string)>, team: TeamConfig,
                   agents: Agents, teammates: seq<Teammate>) returns (others': seq<OtherAgent>)
    requires others == PickOthers(before, agents, teammates)
    ensures others' == PickOthers(before + TeamOffers(team), agents, teammates)
  {
    others' := others;
    ghost var offers := TeamOffers(team);
    assert before + offers[..0] == before;
    for j := 0 to |team.agents|
      invariant others' == PickOthers(before + offers[..j], agents, teammates)
    {
      var tid := team.agents[j];
      ExtendPrefix(before, offers, j);
      assert offers[j] == (tid, team.name);
      PickOthersStep(before + offers[..j], (tid, team.name), agents, teammates);
      ghost var prev := others';
      var agent := GetAgent(agents, tid);
      if agent.Some? && !Mentioned(others', tid) && !Listed(teammates, tid) {
        others' := others' + [OtherAgent(tid, agent.value.name, agent.value.model, team.name)];
      }
      assert others' == (if agent.Some? && !Mentioned(prev, tid) && !Listed(teammates, tid)
                         then prev + [OtherAgent(tid, agent.value.name, agent.value.model, team.name)] else prev);
    }
    assert offers[..|team.agents|] == offers;
  }

  /** The second loop: agents of the teams that are not the agent's, when it may hand off across teams. */
  method FindOthers(agentId: string, agents: Agents, teams: Teams, teammates: seq<Teammate>, myTeamIds: seq<string>)
    returns (others: seq<OtherAgent>)
    requires teammates == Teammates(agents, teams, agentId)
    requires myTeamIds == MyTeamIds(teams, agentId)
    ensures others == Others(agents, teams, agentId)
  {
    others := [];
    var selfConfig := GetAgent(agents, agentId);
    var canCrossTeam := if selfConfig.Some? then selfConfig.value.crossTeamHandoffs else true;
    if !canCrossTeam {
      return;
    }
    for i := 0 to |teams|
      invariant others == PickOthers(Offers(teams[..i], myTeamIds), agents, teammates)
    {
      TeamsStep(teams, i, agentId, myTeamIds);
      if teams[i].0 in myTeamIds {
        assert Offers(teams[..i], myTeamIds) + [] == Offers(teams[..i], myTeamIds);
        continue;
      }
      others := AddOthers(others, Offers(teams[..i], myTeamIds), teams[i].1, agents, teammates);
    }
    assert teams[..|teams|] == teams;
  }

  // ----- the block -----

  /** The separator the list lines use: an em dash between spaces. */
  const Dash := " \U{2014} "
  const YouHeading := "\n### You\n\n"
  const TeammatesHeading := "\n### Your Teammates\n\nUse `[@agent_id: message]` to message them:\n\n"
  const OthersHeading := "\n### Other Agents (cross-team)\n\nUse `[@!agent_id: message]` to hand off to them:\n\n"

  /** One listed agent: its mention, bold name and model. */
  function AgentLine(id: string, name: string, model: string): string {
    "- `@" + id + "`" + Dash + "**" + name + "** (" + model + ")"
  }

  function TeammateLine(t: Teammate): string {
    AgentLine(t.id, t.name, t.model) + "\n"
  }

  function OtherLine(o: OtherAgent): string {
    AgentLine(o.id, o.name, o.model) + Dash + "team: " + o.teamName + "\n"
  }

  function TeammateLines(ts: seq<Teammate>): string {
    if ts == [] then "" else TeammateLines(ts[..|ts| - 1]) + TeammateLine(ts[|ts| - 1])
  }

  function OtherLines(os: seq<OtherAgent>): string {
    if os == [] then "" else OtherLines(os[..|os| - 1]) + OtherLine(os[|os| - 1])
  }

  /** The "You" section, when the agent is known. */
  function YouSection(agents: Agents, agentId: string): string {
    match GetAgent(agents, agentId)
    case Some(a) => YouHeading + AgentLine(agentId, a.name, a.model) + "\n"
    case None => ""
  }

  /** The block up to and including the teammates section. */
  function WithTeammates(agents: Agents, agentId: string, teammates: seq<Teammate>): string {
    var you := YouSection(agents, agentId);
    if teammates == [] then you else you + TeammatesHeading + TeammateLines(teammates)
  }

  /** The block between the markers: each section only when it has something to show. */
  function Block(agents: Agents, agentId: string, teammates: seq<Teammate>, others: seq<OtherAgent>): string {
    var withTeammates := WithTeammates(agents, agentId, teammates);
    if others == [] then withTeammates else withTeammates + OthersHeading + OtherLines(others)
  }

  method AppendTeammateLines(block: string, teammates: seq<Teammate>) returns (block': string)
    ensures block' == block + TeammateLines(teammates)
  {
    block' := block;
    for i := 0 to |teammates|
      invariant block' == block + TeammateLines(teammates[..i])
    {
      assert teammates[..i + 1][..i] == teammates[..i];
      block' := block' + TeammateLine(teammates[i]);
    }
    assert teammates[..|teammates|] == teammates;
  }

  method AppendOtherLines(block: string, others: seq<OtherAgent>) returns (block': string)
    ensures block' == block + OtherLines(others)
  {
    block' := block;
    for i := 0 to |others|
      invariant block' == block + OtherLines(others[..i])
    {
      assert others[..i + 1][..i] == others[..i];
      block' := block' + OtherLine(others[i]);
    }
    assert others[..|others|] == others;
  }

  /** Building the block by appending to a string, section by section and line by line. */
  method BuildBlock(agents: Agents, agentId: string, teammates: seq<Teammate>, others: seq<OtherAgent>)
    returns (block: string)
    ensures block == Block(agents, agentId, teammates, others)
  {
    block := "";
    var selfAgent := GetAgent(agents, agentId);
    if selfAgent.Some? {
      block := YouHeading + AgentLine(agentId, selfAgent.value.name, selfAgent.value.model) + "\n";
    }
    if teammates != [] {
      block := AppendTeammateLines(block + TeammatesHeading, teammates);
    }
    if others != [] {
      block := AppendOtherLines(block + OthersHeading, others);
    }
  }

  lemma {:induction false} TeammateLinesContain(ts: seq<Teammate>)
    ensures forall t <- ts :: Contains(TeammateLines(ts), TeammateLine(t))
    decreases |ts|
  {
    if ts != [] {
      var init := ts[..|ts| - 1];
      var last := ts[|ts| - 1];
      TeammateLinesContain(init);
      forall t <- ts ensures Contains(TeammateLines(ts), TeammateLine(t)) {
        if t in init {
          ContainsBeforeSuffix(TeammateLines(init), TeammateLine(last), TeammateLine(t));
        } else {
          ContainsAt(TeammateLine(last), 0, TeammateLine(last));
          ContainsAfterPrefix(TeammateLines(init), TeammateLine(last), TeammateLine(t));
        }
      }
    }
  }

  lemma {:induction false} OtherLinesContain(os: seq<OtherAgent>)
    ensures forall o <- os :: Contains(OtherLines(os), OtherLine(o))
    decreases |os|
  {
    if os != [] {
      var init := os[..|os| - 1];
      var last := os[|os| - 1];
      OtherLinesContain(init);
      forall o <- os ensures Contains(OtherLines(os), OtherLine(o)) {
        if o in init {
          ContainsBeforeSuffix(OtherLines(init), OtherLine(last), OtherLine(o));
        } else {
          ContainsAt(OtherLine(last), 0, OtherLine(last));
          ContainsAfterPrefix(OtherLines(init), OtherLine(last), OtherLine(o));
        }
      }
    }
  }

  /** The block is empty exactly when the agent is unknown and there is nobody to list. */
  lemma BlockEmpty(agents: Agents, agentId: string, teammates: seq<Teammate>, others: seq<OtherAgent>)
    ensures Block(agents, agentId, teammates, others) == "" <==> !HasAgent(agents, agentId) && teammates == [] && others == []
  {
    var you := YouSection(agents, agentId);
    assert HasAgent(agents, agentId) ==> |you| > 0;
  }

  /** Whatever the "You" and teammates sections hold, the block holds. */
  lemma WithTeammatesInBlock(agents: Agents, agentId: string, teammates: seq<Teammate>, others: seq<OtherAgent>, x: string)
    requires Contains(WithTeammates(agents, agentId, teammates), x)
    ensures Contains(Block(agents, agentId, teammates, others), x)
  {
    var w := WithTeammates(agents, agentId, teammates);
    assert Block(agents, agentId, teammates, others) == if others == [] then w else w + OthersHeading + OtherLines(others);
    if others != [] {
      ContainsBeforeSuffix(w, OthersHeading, x);
      ContainsBeforeSuffix(w + OthersHeading, OtherLines(others), x);
    }
  }

  /** A known agent's own line is in the block. */
  lemma BlockHoldsYou(agents: Agents, agentId: string, teammates: seq<Teammate>, others: seq<OtherAgent>)
    requires HasAgent(agents, agentId)
    ensures var a := GetAgent(agents, agentId).value;
      Contains(Block(agents, agentId, teammates, others), YouHeading + AgentLine(agentId, a.name, a.model))
  {
    var you := YouSection(agents, agentId);
    var a := GetAgent(agents, agentId).value;
    var line := YouHeading + AgentLine(agentId, a.name, a.model);
    ContainsAt(line, 0, line);
    ContainsBeforeSuffix(line, "\n", line);
    if teammates != [] {
      ContainsBeforeSuffix(you, TeammatesHeading, line);
      ContainsBeforeSuffix(you + TeammatesHeading, TeammateLines(teammates), line);
    }
    WithTeammatesInBlock(agents, agentId, teammates, others, line);
  }

  /** With teammates, the block holds their heading and every teammate's line. */
  lemma BlockHoldsTeammates(agents: Agents, agentId: string, teammates: seq<Teammate>, others: seq<OtherAgent>)
    requires teammates != []
    ensures Contains(Block(agents, agentId, teammates, others), TeammatesHeading)
    ensures forall t <- teammates :: Contains(Block(agents, agentId, teammates, others), TeammateLine(t))
  {
    var you := YouSection(agents, agentId);
    ContainsAt(TeammatesHeading, 0, TeammatesHeading);
    ContainsAfterPrefix(you, TeammatesHeading, TeammatesHeading);
    ContainsBeforeSuffix(you + TeammatesHeading, TeammateLines(teammates), TeammatesHeading);
    WithTeammatesInBlock(agents, agentId, teammates, others, TeammatesHeading);
    TeammateLinesContain(teammates);
    forall t <- teammates ensures Contains(Block(agents, agentId, teammates, others), TeammateLine(t)) {
      ContainsAfterPrefix(you + TeammatesHeading, TeammateLines(teammates), TeammateLine(t));
      WithTeammatesInBlock(agents, agentId, teammates, others, TeammateLine(t));
    }
  }

  /** With agents of other teams, the block holds their heading and every one's line. */
  lemma BlockHoldsOthers(agents: Agents, agentId: string, teammates: seq<Teammate>, others: seq<OtherAgent>)
    requires others != []
    ensures Contains(Block(agents, agentId, teammates, others), OthersHeading)
    ensures forall o <- others :: Contains(Block(agents, agentId, teammates, others), OtherLine(o))
  {
    var w := WithTeammates(agents, agentId, teammates);
    assert Block(agents, agentId, teammates, others) == w + OthersHeading + OtherLines(others);
    ContainsAt(OthersHeading, 0, OthersHeading);
    ContainsAfterPrefix(w, OthersHeading, OthersHeading);
    ContainsBeforeSuffix(w + OthersHeading, OtherLines(others), OthersHeading);
    OtherLinesContain(others);
    forall o <- others ensures Contains(Block(agents, agentId, teammates, others), OtherLine(o)) {
      ContainsAfterPrefix(w + OthersHeading, OtherLines(others), OtherLine(o));
    }
  }

  // ----- the splice -----

  /**
   * The file with the block put after its first start marker `a` and, in place of everything
   * up to the end of its first end marker `z`, a fresh end marker; nothing when a marker is
   * missing.
   */
  function SpliceAt(content: string, block: string, a: string, z: string): Option<string> {
    match (Find(content, a), Find(content, z))
    case (Some(s), Some(e)) => Some(content[..s + |a|] + block + z + content[e + |z|..])
    case _ => None
  }

  lemma SpliceAtFound(content: string, block: string, a: string, z: string, s: nat, e: nat)
    requires Find(content, a) == Some(s) && Find(content, z) == Some(e)
    ensures s + |a| <= |content| && e + |z| <= |content|
    ensures SpliceAt(content, block, a, z) == Some(content[..s + |a|] + block + z + content[e + |z|..])
  {
  }

  /** The text between the first start marker and the first end marker, when they come in that order. */
  function RegionAt(content: string, a: string, z: string): Option<string> {
    match (Find(content, a), Find(content, z))
    case (Some(s), Some(e)) => if s + |a| <= e then Some(content[s + |a|..e]) else None
    case _ => None
  }

  /** `SpliceAt` with the teammate markers. */
  function Splice(content: string, block: string): Option<string> {
    SpliceAt(content, block, StartMarker, EndMarker)
  }

  /** `RegionAt` with the teammate markers. */
  function Region(content: string): Option<string> {
    RegionAt(content, StartMarker, EndMarker)
  }

  /**
   * The new CLAUDE.md: the splice when it has both markers, otherwise the old text without
   * its trailing whitespace, a blank line, and the markers around the block on a line of
   * their own. A missing file counts as empty.
   */
  function ClaudeUpdate(claude: Option<string>, block: string): string {
    var c := if claude.Some? then claude.value else "";
    match Splice(c, block)
    case Some(r) => r
    case None => TrimEnd(c) + "\n\n" + StartMarker + block + EndMarker + "\n"
  }

  /**
   * What the round-trip proofs need of a pair of markers: both open with `<` and the start
   * marker has no other; neither holds a line break; the end marker is no longer than the
   * start marker and differs from its beginning.
   */
  predicate MarkerPair(a: string, z: string) {
    && 0 < |z| <= |a| && a[0] == '<' && z[0] == '<'
    && (forall k :: 0 < k < |a| ==> a[k] != '<')
    && '\n' !in a && '\n' !in z
    && exists k :: 0 <= k < |z| && a[k] != z[k]
  }

  /** The teammate markers are such a pair. */
  lemma TeammateMarkers()
    ensures MarkerPair(StartMarker, EndMarker)
  {
    assert StartMarker[15] != EndMarker[15];
  }

  /** Putting text after the first occurrence of a needle leaves that occurrence first. */
  lemma FindKeptBefore(content: string, a: string, s: nat, block: string, z: string, tail: string, r: string)
    requires Find(content, a) == Some(s) && r == content[..s + |a|] + block + z + tail
    ensures Find(r, a) == Some(s)
  {
    var n := s + |a|;
    PrefixOfAppend(content[..n] + block + z, tail, n);
    PrefixOfAppend(content[..n] + block, z, n);
    PrefixOfAppend(content[..n], block, n);
    assert r[s..n] == a;
    forall j {:trigger StartsWith(r[j..], a)} | 0 <= j < s ensures !StartsWith(r[j..], a) {
      StartsWithWithin(r, content, j, a);
    }
    FindAt(r, a, s);
  }

  /** Past a start `s`, up to the end of a text that ends in needle `a` at `s`, and through a block without `<`, no `<` is found. */
  lemma NoAngle(p: string, a: string, s: nat, block: string, t: string, j: nat)
    requires s + |a| == |p| && p[s..] == a && s < j < |p| + |block| && '<' !in block
    requires forall k :: 0 < k < |a| ==> a[k] != '<'
    requires |p| + |block| <= |t| && t[..|p| + |block|] == p + block
    ensures t[j] != '<'
  {
    assert t[j] == (p + block)[j];
    if j < |p| {
      assert p[j] == p[s..][j - s];
    } else {
      assert (p + block)[j] == block[j - |p|];
    }
  }

  /** The positions before the block's end where `z` cannot start, for `FindAfterBlock`. */
  lemma NoEarlierEnd(content: string, a: string, z: string, s: nat, e: nat, block: string, tail: string, r: string)
    requires Find(content, a) == Some(s) && Find(content, z) == Some(e) && s + |a| <= e
    requires 0 < |z| <= |a| && z[0] == '<' && '<' !in block
    requires forall k :: 0 < k < |a| ==> a[k] != '<'
    requires r == content[..s + |a|] + block + z + tail
    ensures forall j {:trigger StartsWith(r[j..], z)} :: 0 <= j < s + |a| + |block| ==> !StartsWith(r[j..], z)
  {
    var n := s + |a|;
    var p := content[..n];
    PrefixOfAppend(p + block + z, tail, |p| + |block|);
    PrefixOfAppend(p + block, z, |p| + |block|);
    PrefixOfAppend(p + block, z + tail, n);
    assert p[s..] == a;
    forall j {:trigger StartsWith(r[j..], z)} | 0 <= j < n + |block| ensures !StartsWith(r[j..], z) {
      if j + |z| <= n {
        StartsWithWithin(r, content, j, z);
      } else {
        NoAngle(p, a, s, block, r, j);
        Mismatch(r, z, j, j);
      }
    }
  }

  /**
   * A needle `z` starting with `<` is found right after a text without `<`, which follows
   * a prefix of `content` ending in the first occurrence of a needle `a` that has `<` only
   * at its start, when `z` does not occur in `content` before it.
   */
  lemma FindAfterBlock(content: string, a: string, z: string, s: nat, e: nat, block: string, tail: string, r: string)
    requires Find(content, a) == Some(s) && Find(content, z) == Some(e) && s + |a| <= e
    requires 0 < |z| <= |a| && z[0] == '<' && '<' !in block
    requires forall k :: 0 < k < |a| ==> a[k] != '<'
    requires r == content[..s + |a|] + block + z + tail
    ensures Find(r, z) == Some(s + |a| + |block|)
  {
    var n := s + |a|;
    assert r[n + |block|..n + |block| + |z|] == z;
    NoEarlierEnd(content, a, z, s, e, block, tail, r);
    FindAt(r, z, n + |block|);
  }

  /**
   * A text made of a prefix ending in the first start marker, a block, the first end marker
   * and a rest: its region is the block, and splicing the block in again gives it back.
   */
  lemma ReadBack(p: string, block: string, z: string, rest: string, a: string, r: string, s: nat)
    requires r == p + block + z + rest && |p| == s + |a|
    requires Find(r, a) == Some(s) && Find(r, z) == Some(s + |a| + |block|)
    ensures RegionAt(r, a, z) == Some(block)
    ensures SpliceAt(r, block, a, z) == Some(r)
  {
    assert r[..|p|] == p;
    assert r[|p|..|p| + |block|] == block;
    assert r[|p| + |block| + |z|..] == rest;
  }

  /** A splice keeps everything up to the end of the first start marker and everything from the first end marker on. */
  lemma SpliceAtKeeps(content: string, block: string, a: string, z: string)
    requires Find(content, a).Some? && Find(content, z).Some?
    ensures SpliceAt(content, block, a, z).Some?
    ensures var r := SpliceAt(content, block, a, z).value;
      && StartsWith(r, content[..Find(content, a).value + |a|])
      && EndsWith(r, content[Find(content, z).value..])
  {
    var s := Find(content, a).value;
    var e := Find(content, z).value;
    var rest := content[e + |z|..];
    var r := SpliceAt(content, block, a, z).value;
    assert content[e..] == z + rest;
    assert r[|r| - |content[e..]|..] == content[e..];
  }

  /**
   * When the markers come in order and the block holds no `<`, the block spliced in is read
   * back as the region, and splicing it again changes nothing.
   */
  lemma SpliceAtRoundTrip(content: string, block: string, a: string, z: string)
    requires MarkerPair(a, z) && RegionAt(content, a, z).Some? && '<' !in block
    ensures SpliceAt(content, block, a, z).Some?
    ensures RegionAt(SpliceAt(content, block, a, z).value, a, z) == Some(block)
    ensures SpliceAt(SpliceAt(content, block, a, z).value, block, a, z) == SpliceAt(content, block, a, z)
  {
    var s := Find(content, a).value;
    var e := Find(content, z).value;
    var p := content[..s + |a|];
    var rest := content[e + |z|..];
    var r := p + block + z + rest;
    SpliceAtFound(content, block, a, z, s, e);
    FindKeptBefore(content, a, s, block, z, rest, r);
    FindAfterBlock(content, a, z, s, e, block, rest, r);
    ReadBack(p, block, z, rest, a, r, s);
  }

  /**
   * Before the end of a blank line `gap` that follows a text, a needle without a line break
   * and absent from the text does not start.
   */
  lemma NoStartBeforeGap(u: string, gap: string, z: string, t: string, j: nat)
    requires !Contains(u, z) && |z| > 0 && '\n' !in z
    requires |gap| == 2 && gap[0] == '\n' && gap[1] == '\n'
    requires |u| + 2 <= |t| && t[..|u| + 2] == u + gap
    requires j < |u| + 2
    ensures !StartsWith(t[j..], z)
  {
    if j + |z| <= |u| {
      PrefixOfAppend(u, gap, |u|);
      assert t[..|u|] == u by { assert t[..|u|] == t[..|u| + 2][..|u|]; }
      assert t[j..j + |z|] == u[j..j + |z|] by { assert t[j..j + |z|] == t[..|u|][j..j + |z|]; }
      StartsWithWithin(t, u, j, z);
      NotContainedAt(u, z, j);
    } else {
      var p := if j <= |u| then |u| else j;
      assert t[p] == (u + gap)[p] == gap[p - |u|];
      Mismatch(t, z, j, p);
    }
  }

  /** Appended after a blank line, a needle absent from the text is first found there. */
  lemma GapFindsStart(u: string, gap: string, a: string, block: string, z: string, nl: string, t: string)
    requires !Contains(u, a) && |a| > 0 && '\n' !in a
    requires |gap| == 2 && gap[0] == '\n' && gap[1] == '\n'
    requires t == u + gap + a + block + z + nl
    ensures Find(t, a) == Some(|u| + 2)
  {
    var n := |u| + 2;
    assert t[n..n + |a|] == a;
    assert t[..n] == u + gap;
    forall j {:trigger StartsWith(t[j..], a)} | 0 <= j < n ensures !StartsWith(t[j..], a) {
      NoStartBeforeGap(u, gap, a, t, j);
    }
    FindAt(t, a, n);
  }

  /** Before a block without `<` appended after a blank line, an end marker absent from the text does not start. */
  lemma NoEndBeforeBlockEnd(u: string, gap: string, a: string, block: string, z: string, nl: string, k0: nat, t: string)
    requires !Contains(u, z) && 0 < |z| <= |a| && '\n' !in z && z[0] == '<' && '<' !in block
    requires |gap| == 2 && gap[0] == '\n' && gap[1] == '\n'
    requires forall k :: 0 < k < |a| ==> a[k] != '<'
    requires k0 < |z| && a[k0] != z[k0]
    requires t == u + gap + a + block + z + nl
    ensures forall j {:trigger StartsWith(t[j..], z)} :: 0 <= j < |u| + 2 + |a| + |block| ==> !StartsWith(t[j..], z)
  {
    var n := |u| + 2;
    var p := u + gap + a;
    assert p[n..] == a;
    PrefixOfAppend(p + block + z, nl, |p| + |block|);
    PrefixOfAppend(p + block, z, |p| + |block|);
    PrefixOfAppend(p + block + z, nl, n);
    PrefixOfAppend(p + block, z, n);
    PrefixOfAppend(p, block, n);
    PrefixOfAppend(u + gap, a, n);
    forall j {:trigger StartsWith(t[j..], z)} | 0 <= j < n + |a| + |block| ensures !StartsWith(t[j..], z) {
      if j < n {
        NoStartBeforeGap(u, gap, z, t, j);
      } else if j == n {
        assert t[j + k0] == a[k0];
        Mismatch(t, z, j, j + k0);
      } else {
        NoAngle(p, a, n, block, t, j);
        Mismatch(t, z, j, j);
      }
    }
  }

  /** Appended after a block without `<`, an end marker absent from the text is first found there. */
  lemma GapFindsEnd(u: string, gap: string, a: string, block: string, z: string, nl: string, k0: nat, t: string)
    requires !Contains(u, z) && 0 < |z| <= |a| && '\n' !in z && z[0] == '<' && '<' !in block
    requires |gap| == 2 && gap[0] == '\n' && gap[1] == '\n'
    requires forall k :: 0 < k < |a| ==> a[k] != '<'
    requires k0 < |z| && a[k0] != z[k0]
    requires t == u + gap + a + block + z + nl
    ensures Find(t, z) == Some(|u| + 2 + |a| + |block|)
  {
    var e := |u| + 2 + |a| + |block|;
    NoEndBeforeBlockEnd(u, gap, a, block, z, nl, k0, t);
    assert t == (u + gap + a + block) + z + nl;
    assert t[e..e + |z|] == z;
    FindAt(t, z, e);
  }

  /**
   * Markers around a block without `<` appended after a blank line to a text holding neither
   * marker: the region read back is the block, and splicing the block in again changes nothing.
   */
  lemma AppendedRoundTrip(u: string, gap: string, block: string, nl: string, a: string, z: string)
    requires MarkerPair(a, z) && !Contains(u, a) && !Contains(u, z) && '<' !in block
    requires |gap| == 2 && gap[0] == '\n' && gap[1] == '\n'
    ensures RegionAt(u + gap + a + block + z + nl, a, z) == Some(block)
    ensures SpliceAt(u + gap + a + block + z + nl, block, a, z) == Some(u + gap + a + block + z + nl)
  {
    var k0 :| 0 <= k0 < |z| && a[k0] != z[k0];
    AppendedFinds(u, gap, block, nl, a, z, k0);
    ReadBack(u + gap + a, block, z, nl, a, u + gap + a + block + z + nl, |u| + 2);
  }

  /** In such a text the first start marker is right after the blank line and the first end marker right after the block. */
  lemma AppendedFinds(u: string, gap: string, block: string, nl: string, a: string, z: string, k0: nat)
    requires 0 < |z| <= |a| && a[0] == '<' && z[0] == '<' && '\n' !in a && '\n' !in z
    requires forall k :: 0 < k < |a| ==> a[k] != '<'
    requires k0 < |z| && a[k0] != z[k0]
    requires !Contains(u, a) && !Contains(u, z) && '<' !in block
    requires |gap| == 2 && gap[0] == '\n' && gap[1] == '\n'
    ensures Find(u + gap + a + block + z + nl, a) == Some(|u| + 2)
    ensures Find(u + gap + a + block + z + nl, z) == Some(|u| + 2 + |a| + |block|)
  {
    var t := u + gap + a + block + z + nl;
    GapFindsStart(u, gap, a, block, z, nl, t);
    GapFindsEnd(u, gap, a, block, z, nl, k0, t);
  }

  /** A text of six pieces starts with the first and ends with the last two. */
  lemma Ends(u: string, gap: string, a: string, block: string, z: string, nl: string)
    ensures StartsWith(u + gap + a + block + z + nl, u)
    ensures EndsWith(u + gap + a + block + z + nl, z + nl)
  {
    var t := u + gap + a + block + z + nl;
    assert t[..|u|] == u;
    assert t == (u + gap + a + block) + (z + nl);
    assert t[|t| - |z + nl|..] == z + nl;
  }

  /**
   * A splice of AGENTS.md or CLAUDE.md keeps everything up to the end of the first start
   * marker and everything from the first end marker on.
   */
  lemma SpliceKeeps(content: string, block: string)
    requires Find(content, StartMarker).Some? && Find(content, EndMarker).Some?
    ensures Splice(content, block).Some?
    ensures var r := Splice(content, block).value;
      && StartsWith(r, content[..Find(content, StartMarker).value + |StartMarker|])
      && EndsWith(r, content[Find(content, EndMarker).value..])
  {
    SpliceAtKeeps(content, block, StartMarker, EndMarker);
  }

  /**
   * When the teammate markers come in order and the block holds no `<`, the block spliced in
   * is read back as the region, and splicing it again changes nothing.
   */
  lemma SpliceRoundTrip(content: string, block: string)
    requires Region(content).Some? && '<' !in block
    ensures Splice(content, block).Some?
    ensures Region(Splice(content, block).value) == Some(block)
    ensures Splice(Splice(content, block).value, block) == Splice(content, block)
  {
    TeammateMarkers();
    SpliceAtRoundTrip(content, block, StartMarker, EndMarker);
  }

  /** The CLAUDE.md written when it lacks a marker: the old text without its trailing whitespace, then the markers and a line break. */
  lemma ClaudeAppendKeeps(c: string, block: string)
    requires Find(c, StartMarker).None? || Find(c, EndMarker).None?
    ensures StartsWith(ClaudeUpdate(Some(c), block), TrimEnd(c))
    ensures EndsWith(ClaudeUpdate(Some(c), block), EndMarker + "\n")
  {
    assert ClaudeUpdate(Some(c), block) == TrimEnd(c) + "\n\n" + StartMarker + block + EndMarker + "\n";
    Ends(TrimEnd(c), "\n\n", StartMarker, block, EndMarker, "\n");
  }

  /**
   * The CLAUDE.md written when it has neither marker and the block holds no `<`: read back,
   * the region is the block, and updating it again with the same block changes nothing.
   */
  lemma ClaudeAppendRoundTrip(c: string, block: string)
    requires !Contains(c, StartMarker) && !Contains(c, EndMarker) && '<' !in block
    ensures Region(ClaudeUpdate(Some(c), block)) == Some(block)
    ensures ClaudeUpdate(Some(ClaudeUpdate(Some(c), block)), block) == ClaudeUpdate(Some(c), block)
  {
    FindNone(c, StartMarker);
    var u := TrimEnd(c);
    assert ClaudeUpdate(Some(c), block) == u + "\n\n" + StartMarker + block + EndMarker + "\n";
    TrimEndKeepsAbsent(c, StartMarker);
    TrimEndKeepsAbsent(c, EndMarker);
    TeammateMarkers();
    AppendedRoundTrip(u, "\n\n", block, "\n", StartMarker, EndMarker);
  }

  // ----- update_agent_teammates -----

  /** The two files written: the new AGENTS.md and the new .claude/CLAUDE.md. */
  datatype Written = Written(agentsMd: string, claudeMd: string)

  /** The block the agent's files get under the given configuration. */
  function TeamBlock(agents: Agents, teams: Teams, agentId: string): string {
    Block(agents, agentId, Teammates(agents, teams, agentId), Others(agents, teams, agentId))
  }

  /**
   * The files `update_agent_teammates` writes for a block: nothing without an AGENTS.md or
   * without both markers in it; otherwise the block goes between its markers and into CLAUDE.md.
   */
  function Update(agentsMd: Option<string>, claudeMd: Option<string>, block: string): Option<Written> {
    if agentsMd.None? then None
    else
      match Splice(agentsMd.value, block)
      case None => None
      case Some(a) => Some(Written(a, ClaudeUpdate(claudeMd, block)))
  }

  /** The CLAUDE.md half of `update_agent_teammates`. */
  method UpdateClaude(claudeMd: Option<string>, block: string) returns (claudeContent: string)
    ensures claudeContent == ClaudeUpdate(claudeMd, block)
  {
    claudeContent := if claudeMd.Some? then claudeMd.value else "";
    var cStart := Find(claudeContent, StartMarker);
    var cEnd := Find(claudeContent, EndMarker);
    if cStart.Some? && cEnd.Some? {
      claudeContent := claudeContent[..cStart.value + |StartMarker|] + block + EndMarker + claudeContent[cEnd.value + |EndMarker|..];
    } else {
      claudeContent := TrimEnd(claudeContent) + "\n\n" + StartMarker + block + EndMarker + "\n";
    }
  }

  /** The teammates, then the other agents, then the block built from both. */
  method ComposeBlock(agentId: string, agents: Agents, teams: Teams) returns (block: string)
    ensures block == TeamBlock(agents, teams, agentId)
  {
    var teammates, myTeamIds := FindTeammates(agentId, agents, teams);
    var others := FindOthers(agentId, agents, teams, teammates, myTeamIds);
    block := BuildBlock(agents, agentId, teammates, others);
  }

  /** `update_agent_teammates`, step by step in the source's order. */
  method UpdateAgentTeammates(agentsMd: Option<string>, claudeMd: Option<string>, agentId: string, agents: Agents, teams: Teams)
    returns (w: Option<Written>)
    ensures w == Update(agentsMd, claudeMd, TeamBlock(agents, teams, agentId))
  {
    if agentsMd.None? {
      return None;
    }
    var content := agentsMd.value;
    var startIdx := Find(content, StartMarker);
    if startIdx.None? {
      UpdateMissing(agentsMd, claudeMd, TeamBlock(agents, teams, agentId));
      return None;
    }
    var endIdx := Find(content, EndMarker);
    if endIdx.None? {
      UpdateMissing(agentsMd, claudeMd, TeamBlock(agents, teams, agentId));
      return None;
    }
    var block := ComposeBlock(agentId, agents, teams);
    w := WriteBlock(agentsMd, claudeMd, block, startIdx.value, endIdx.value);
  }

  /** The writing half of `update_agent_teammates`: AGENTS.md spliced at the markers found, then CLAUDE.md. */
  method WriteBlock(agentsMd: Option<string>, claudeMd: Option<string>, block: string, s: nat, e: nat)
    returns (w: Option<Written>)
    requires agentsMd.Some? && Find(agentsMd.value, StartMarker) == Some(s) && Find(agentsMd.value, EndMarker) == Some(e)
    ensures w == Update(agentsMd, claudeMd, block)
  {
    var content := agentsMd.value;
    UpdateFound(agentsMd, claudeMd, block, s, e);
    var newContent := content[..s + |StartMarker|] + block + EndMarker + content[e + |EndMarker|..];
    var claudeContent := UpdateClaude(claudeMd, block);
    return Some(Written(newContent, claudeContent));
  }

  lemma UpdateMissing(agentsMd: Option<string>, claudeMd: Option<string>, block: string)
    requires agentsMd.Some? && (Find(agentsMd.value, StartMarker).None? || Find(agentsMd.value, EndMarker).None?)
    ensures Update(agentsMd, claudeMd, block).None?
  {
  }

  lemma UpdateFound(agentsMd: Option<string>, claudeMd: Option<string>, block: string, s: nat, e: nat)
    requires agentsMd.Some? && Find(agentsMd.value, StartMarker) == Some(s) && Find(agentsMd.value, EndMarker) == Some(e)
    ensures s + |StartMarker| <= |agentsMd.value| && e + |EndMarker| <= |agentsMd.value|
    ensures var c := agentsMd.value;
      Update(agentsMd, claudeMd, block)
      == Some(Written(c[..s + |StartMarker|] + block + EndMarker + c[e + |EndMarker|..], ClaudeUpdate(claudeMd, block)))
  {
    SpliceAtFound(agentsMd.value, block, StartMarker, EndMarker, s, e);
  }

  /**
   * Nothing is written exactly when AGENTS.md is missing or lacks a marker. When something
   * is, AGENTS.md keeps everything up to its first start marker and from its first end
   * marker on.
   */
  lemma UpdateAgentsMd(agentsMd: Option<string>, claudeMd: Option<string>, block: string)
    ensures var w := Update(agentsMd, claudeMd, block);
      w.None? <==> agentsMd.None? || !Contains(agentsMd.value, StartMarker) || !Contains(agentsMd.value, EndMarker)
    ensures var w := Update(agentsMd, claudeMd, block);
      w.Some? ==>
        var s := Find(agentsMd.value, StartMarker).value;
        var e := Find(agentsMd.value, EndMarker).value;
        && StartsWith(w.value.agentsMd, agentsMd.value[..s + |StartMarker|])
        && EndsWith(w.value.agentsMd, agentsMd.value[e..])
  {
    if agentsMd.Some? {
      var c := agentsMd.value;
      FindNone(c, StartMarker);
      FindNone(c, EndMarker);
      if Find(c, StartMarker).Some? && Find(c, EndMarker).Some? {
        SpliceKeeps(c, block);
        assert Update(agentsMd, claudeMd, block) == Some(Written(Splice(c, block).value, ClaudeUpdate(claudeMd, block)));
      } else {
        assert Splice(c, block).None?;
      }
    }
  }

  /**
   * When something is written, a CLAUDE.md with both markers is spliced like AGENTS.md;
   * otherwise it becomes the old text (empty when missing) trimmed at the end and followed
   * by the markers around the block and a line break.
   */
  lemma UpdateClaudeMd(agentsMd: Option<string>, claudeMd: Option<string>, block: string)
    requires Update(agentsMd, claudeMd, block).Some?
    ensures var c := if claudeMd.Some? then claudeMd.value else "";
      var w := Update(agentsMd, claudeMd, block).value;
      Find(c, StartMarker).Some? && Find(c, EndMarker).Some? ==>
        var s := Find(c, StartMarker).value;
        var e := Find(c, EndMarker).value;
        && StartsWith(w.claudeMd, c[..s + |StartMarker|])
        && EndsWith(w.claudeMd, c[e..])
    ensures var c := if claudeMd.Some? then claudeMd.value else "";
      var w := Update(agentsMd, claudeMd, block).value;
      Find(c, StartMarker).None? || Find(c, EndMarker).None? ==>
        && StartsWith(w.claudeMd, TrimEnd(c))
        && EndsWith(w.claudeMd, EndMarker + "\n")
  {
    var c := if claudeMd.Some? then claudeMd.value else "";
    assert Update(agentsMd, claudeMd, block).value.claudeMd == ClaudeUpdate(claudeMd, block);
    if Find(c, StartMarker).Some? && Find(c, EndMarker).Some? {
      SpliceKeeps(c, block);
    } else {
      ClaudeAppendKeeps(c, block);
    }
  }

  /**
   * A CLAUDE.md with its markers in order or with neither, updated with a block without `<`,
   * reads back the block as its region and takes a second splice of it unchanged.
   */
  lemma ClaudeTwice(claudeMd: Option<string>, block: string)
    requires '<' !in block
    requires var c := if claudeMd.Some? then claudeMd.value else "";
      Region(c).Some? || (!Contains(c, StartMarker) && !Contains(c, EndMarker))
    ensures Region(ClaudeUpdate(claudeMd, block)) == Some(block)
    ensures Splice(ClaudeUpdate(claudeMd, block), block) == Some(ClaudeUpdate(claudeMd, block))
  {
    var c := if claudeMd.Some? then claudeMd.value else "";
    if Region(c).Some? {
      SpliceRoundTrip(c, block);
      assert ClaudeUpdate(claudeMd, block) == Splice(c, block).value;
    } else {
      ClaudeAppendRoundTrip(c, block);
      assert ClaudeUpdate(claudeMd, block) == ClaudeUpdate(Some(c), block);
    }
  }

  /**
   * Running the update again with the same block rewrites nothing: when AGENTS.md has its
   * markers in order, CLAUDE.md has its markers in order or neither of them, and the block
   * holds no `<`, both files read back the block as their region and a second update writes
   * the same two files.
   */
  lemma UpdateTwice(agentsMd: Option<string>, claudeMd: Option<string>, block: string)
    requires agentsMd.Some? && Region(agentsMd.value).Some? && '<' !in block
    requires var c := if claudeMd.Some? then claudeMd.value else "";
      Region(c).Some? || (!Contains(c, StartMarker) && !Contains(c, EndMarker))
    ensures Update(agentsMd, claudeMd, block).Some?
    ensures var w := Update(agentsMd, claudeMd, block).value;
      && Region(w.agentsMd) == Some(block)
      && Region(w.claudeMd) == Some(block)
      && Update(Some(w.agentsMd), Some(w.claudeMd), block) == Some(w)
  {
    var a := agentsMd.value;
    SpliceRoundTrip(a, block);
    ClaudeTwice(claudeMd, block);
    var a' := Splice(a, block).value;
    var c' := ClaudeUpdate(claudeMd, block);
    assert Update(agentsMd, claudeMd, block) == Some(Written(a', c'));
    assert ClaudeUpdate(Some(c'), block) == c';
    assert Update(Some(a'), Some(c'), block) == Some(Written(a', c'));
  }
}
