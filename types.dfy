/**
 * The records shared by the routing core and the queue processor.
 * A Rust `HashMap<String, _>` whose iteration order matters is modelled as a
 * sequence of (key, value) pairs in iteration order; lookups take the first
 * pair with the key, which is the only pair when the keys are distinct, as
 * they are in a map.
 */
module Types {
  import opened Wrappers

  datatype AgentConfig = AgentConfig(
    name: string,
    provider: string,
    model: string,
    workingDirectory: string,
    resetPolicy: string,
    resetHour: Option<nat>,
    idleTimeoutMinutes: Option<nat>,
    contextWindow: Option<nat>,
    fallbacks: Option<seq<string>>,
    crossTeamHandoffs: bool,
    routePatterns: Option<seq<string>>,
    routePriority: nat)

  datatype TeamConfig = TeamConfig(name: string, agents: seq<string>, leaderAgent: string, description: Option<string>)

  /** One agent's reply recorded in a conversation. */
  datatype ChainStep = ChainStep(agentId: string, response: string)

  datatype TeamContext = TeamContext(teamId: string, team: TeamConfig)

  /** A queued inbound message. */
  datatype MessageData = MessageData(
    channel: string,
    sender: string,
    senderId: Option<string>,
    message: string,
    timestamp: nat,
    messageId: string,
    agent: Option<string>,
    files: Option<seq<string>>,
    conversationId: Option<string>,
    fromAgent: Option<string>)

  /** A reply written to the outgoing queue. */
  datatype ResponseData = ResponseData(
    channel: string,
    sender: string,
    message: string,
    originalMessage: string,
    timestamp: nat,
    messageId: string,
    agent: Option<string>,
    files: Option<seq<string>>)

  /** A fan-out/fan-in exchange between agents triggered by one inbound message. */
  datatype Conversation = Conversation(
    id: string,
    channel: string,
    sender: string,
    originalMessage: string,
    messageId: string,
    pending: int,
    responses: seq<ChainStep>,
    files: set<string>,
    totalMessages: nat,
    maxMessages: nat,
    teamContext: Option<TeamContext>,
    startTime: nat,
    outgoingMentions: map<string, nat>)

  datatype RoutingResult = RoutingResult(agentId: string, message: string, isTeam: bool, multiAgents: seq<string>)

  datatype TeammateMention = TeammateMention(teammateId: string, message: string)

  /** The agents map, in iteration order. */
  type Agents = seq<(string, AgentConfig)>

  /** The teams map, in iteration order. */
  type Teams = seq<(string, TeamConfig)>

  predicate HasAgent(agents: Agents, id: string) {
    exists i :: 0 <= i < |agents| && agents[i].0 == id
  }

  predicate HasTeam(teams: Teams, id: string) {
    exists i :: 0 <= i < |teams| && teams[i].0 == id
  }

  /** `HashMap::get` on the agents map. */
  function GetAgent(agents: Agents, id: string): (r: Option<AgentConfig>)
    ensures r.Some? <==> HasAgent(agents, id)
    ensures r.Some? ==> exists i :: 0 <= i < |agents| && agents[i] == (id, r.value)
  {
    if |agents| == 0 then None
    else if agents[0].0 == id then Some(agents[0].1)
    else
      var r := GetAgent(agents[1..], id);
      assert forall i :: 1 <= i < |agents| ==> agents[i] == agents[1..][i - 1];
      r
  }

  /** `HashMap::get` on the teams map. */
  function GetTeam(teams: Teams, id: string): (r: Option<TeamConfig>)
    ensures r.Some? <==> HasTeam(teams, id)
    ensures r.Some? ==> exists i :: 0 <= i < |teams| && teams[i] == (id, r.value)
  {
    if |teams| == 0 then None
    else if teams[0].0 == id then Some(teams[0].1)
    else
      var r := GetTeam(teams[1..], id);
      assert forall i :: 1 <= i < |teams| ==> teams[i] == teams[1..][i - 1];
      r
  }
}
