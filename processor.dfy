/**
 * The queue processor: the incoming and processing queue directories, where a message
 * is routed, and the table of open conversations whose `pending` counter tracks the
 * agent branches that still owe a reply.
 */
module Processor {
  import opened Wrappers
  import opened Text
  import opened Types
  import opened Tags
  import opened Routing
  import opened Conversations
  import opened Session
  import opened Compaction

  /** `CONVERSATION_TIMEOUT_MS`: thirty minutes. */
  const ConversationTimeoutMs: nat := 30 * 60 * 1000

  // ----- listing the incoming queue -----

  /** A directory entry: its name and, when its metadata could be read, its modification time in ms. */
  datatype DirEntry = DirEntry(name: string, modified: Option<nat>)

  datatype QueueFile = QueueFile(name: string, time: nat)

  /** `Path::extension() == Some("json")`: a ".json" suffix after a non-empty stem. */
  predicate HasJsonExtension(name: string) {
    |name| > 5 && EndsWith(name, ".json")
  }

  /** The ".json" entries whose modification time could be read, in directory order. */
  function JsonFiles(entries: seq<DirEntry>): seq<QueueFile> {
    if entries == [] then []
    else
      var e := entries[0];
      (if HasJsonExtension(e.name) && e.modified.Some? then [QueueFile(e.name, e.modified.value)] else [])
      + JsonFiles(entries[1..])
  }

  predicate SortedByTime(fs: seq<QueueFile>) {
    forall i, j :: 0 <= i < j < |fs| ==> fs[i].time <= fs[j].time
  }

  /** Inserts a file before the first one that is not older, so equal times keep their order. */
  function InsertByTime(f: QueueFile, sorted: seq<QueueFile>): (r: seq<QueueFile>)
    ensures multiset(r) == multiset(sorted) + multiset{f}
  {
    if sorted == [] || f.time <= sorted[0].time then [f] + sorted
    else
      assert sorted == [sorted[0]] + sorted[1..];
      [sorted[0]] + InsertByTime(f, sorted[1..])
  }

  /** `sort_by_key(|f| f.time)`: a stable sort, as an insertion sort. */
  function SortByTime(fs: seq<QueueFile>): (r: seq<QueueFile>)
    ensures multiset(r) == multiset(fs)
  {
    if fs == [] then []
    else
      assert fs == [fs[0]] + fs[1..];
      InsertByTime(fs[0], SortByTime(fs[1..]))
  }

  /** `list_queue_files`: nothing when the directory cannot be read. */
  function ListQueueFiles(listing: Option<seq<DirEntry>>): seq<QueueFile> {
    match listing
    case None => []
    case Some(entries) => SortByTime(JsonFiles(entries))
  }

  /** The files with the given time, in order: what a stable sort must not reorder. */
  function AtTime(fs: seq<QueueFile>, t: nat): seq<QueueFile> {
    if fs == [] then []
    else (if fs[0].time == t then [fs[0]] else []) + AtTime(fs[1..], t)
  }

  lemma {:induction false} JsonFilesProperties(entries: seq<DirEntry>)
    ensures forall f <- JsonFiles(entries) :: HasJsonExtension(f.name) && DirEntry(f.name, Some(f.time)) in entries
    ensures forall e <- entries :: HasJsonExtension(e.name) && e.modified.Some? ==>
      QueueFile(e.name, e.modified.value) in JsonFiles(entries)
  {
    if entries != [] {
      JsonFilesProperties(entries[1..]);
      assert entries == [entries[0]] + entries[1..];
    }
  }

  lemma {:induction false} InsertSorted(f: QueueFile, sorted: seq<QueueFile>)
    requires SortedByTime(sorted)
    ensures SortedByTime(InsertByTime(f, sorted))
  {
    if sorted != [] && f.time > sorted[0].time {
      InsertSorted(f, sorted[1..]);
      var r := InsertByTime(f, sorted[1..]);
      assert InsertByTime(f, sorted) == [sorted[0]] + r;
      assert forall g <- r :: g.time >= sorted[0].time by {
        assert multiset(r) == multiset(sorted[1..]) + multiset{f};
        forall g <- r ensures g.time >= sorted[0].time {
          assert g in multiset(r);
          if g != f {
            assert g in multiset(sorted[1..]);
          }
        }
      }
    }
  }

  lemma {:induction false} SortSorted(fs: seq<QueueFile>)
    ensures SortedByTime(SortByTime(fs))
  {
    if fs != [] {
      SortSorted(fs[1..]);
      InsertSorted(fs[0], SortByTime(fs[1..]));
    }
  }

  /** `AtTime` looks at the first file, then at the rest. */
  lemma AtTimeCons(g: QueueFile, rest: seq<QueueFile>, t: nat)
    ensures AtTime([g] + rest, t) == (if g.time == t then [g] else []) + AtTime(rest, t)
  {
    assert ([g] + rest)[1..] == rest;
  }

  lemma {:induction false} InsertAtTime(f: QueueFile, sorted: seq<QueueFile>, t: nat)
    ensures AtTime(InsertByTime(f, sorted), t) == (if f.time == t then [f] else []) + AtTime(sorted, t)
  {
    if sorted == [] || f.time <= sorted[0].time {
      assert InsertByTime(f, sorted) == [f] + sorted;
      AtTimeCons(f, sorted, t);
    } else {
      var rest := InsertByTime(f, sorted[1..]);
      InsertAtTime(f, sorted[1..], t);
      assert InsertByTime(f, sorted) == [sorted[0]] + rest;
      assert sorted == [sorted[0]] + sorted[1..];
      AtTimeSkip(sorted[0], f, rest, sorted[1..], t);
    }
  }

  /** A file passed over on the way to the insertion point keeps its place among the files with its time. */
  lemma AtTimeSkip(head: QueueFile, f: QueueFile, rest: seq<QueueFile>, tail: seq<QueueFile>, t: nat)
    requires head.time != f.time
    requires AtTime(rest, t) == (if f.time == t then [f] else []) + AtTime(tail, t)
    ensures AtTime([head] + rest, t) == (if f.time == t then [f] else []) + AtTime([head] + tail, t)
  {
    var mine := if f.time == t then [f] else [];
    var first := if head.time == t then [head] else [];
    var later := AtTime(tail, t);
    AtTimeCons(head, rest, t);
    AtTimeCons(head, tail, t);
    if first == [] {
      assert first + (mine + later) == mine + later;
      assert first + later == later;
    } else {
      assert mine == [];
      assert mine + later == later;
      assert mine + (first + later) == first + later;
    }
  }

  lemma {:induction false} SortStable(fs: seq<QueueFile>, t: nat)
    ensures AtTime(SortByTime(fs), t) == AtTime(fs, t)
  {
    if fs != [] {
      SortStable(fs[1..], t);
      InsertAtTime(fs[0], SortByTime(fs[1..]), t);
    }
  }

  /**
   * The listing holds exactly the readable ".json" entries, oldest first, and files with
   * the same time stay in directory order.
   */
  lemma ListQueueFilesProperties(entries: seq<DirEntry>, t: nat)
    ensures var fs := ListQueueFiles(Some(entries));
      && SortedByTime(fs)
      && multiset(fs) == multiset(JsonFiles(entries))
      && AtTime(fs, t) == AtTime(JsonFiles(entries), t)
      && (forall f <- fs :: HasJsonExtension(f.name) && DirEntry(f.name, Some(f.time)) in entries)
      && (forall e <- entries :: HasJsonExtension(e.name) && e.modified.Some? ==> QueueFile(e.name, e.modified.value) in fs)
  {
    var js := JsonFiles(entries);
    SortSorted(js);
    SortStable(js, t);
    JsonFilesProperties(entries);
    var fs := SortByTime(js);
    forall f <- fs ensures f in js {
      assert f in multiset(fs);
    }
    forall f <- js ensures f in fs {
      assert f in multiset(js);
    }
  }

  // ----- the queue directories -----

  function JsonNames(names: set<string>): set<string> {
    set n <- names | HasJsonExtension(n)
  }

  /**
   * The incoming and processing directories, by file name, and the set of names handed
   * to an agent worker and not yet finished.
   */
  class Queue {
    var incoming: set<string>
    var processing: set<string>
    var queued: set<string>

    constructor(incoming0: set<string>, processing0: set<string>)
      ensures incoming == incoming0 && processing == processing0 && queued == {}
    {
      incoming := incoming0;
      processing := processing0;
      queued := {};
    }

    /** `recover_orphaned_files`: at startup every ".json" file left in processing moves back to incoming. */
    method RecoverOrphans()
      modifies this
      ensures incoming == old(incoming) + JsonNames(old(processing))
      ensures processing == old(processing) - JsonNames(old(processing))
      ensures queued == old(queued)
    {
      var todo := processing;
      ghost var done: set<string> := {};
      while todo != {}
        invariant todo + done == old(processing) && todo !! done
        invariant incoming == old(incoming) + JsonNames(done)
        invariant processing == old(processing) - JsonNames(done)
        invariant queued == old(queued)
        decreases todo
      {
        var n :| n in todo;
        assert JsonNames(done + {n}) == JsonNames(done) + (if HasJsonExtension(n) then {n} else {});
        if HasJsonExtension(n) {
          processing := processing - {n};
          incoming := incoming + {n};
        }
        todo := todo - {n};
        done := done + {n};
      }
    }

    /** The rename that starts processing a message; it fails when the file is no longer in incoming. */
    method Claim(name: string) returns (claimed: bool)
      modifies this
      ensures claimed <==> name in old(incoming)
      ensures claimed ==> incoming == old(incoming) - {name} && processing == old(processing) + {name}
      ensures !claimed ==> incoming == old(incoming) && processing == old(processing)
      ensures queued == old(queued)
    {
      claimed := name in incoming;
      if claimed {
        incoming := incoming - {name};
        processing := processing + {name};
      }
    }

    /** A message handled to the end: its processing file is removed. */
    method Complete(name: string)
      modifies this
      ensures processing == old(processing) - {name}
      ensures incoming == old(incoming) && queued == old(queued)
    {
      processing := processing - {name};
    }

    /** `process_message` after an error: the processing file, if it is still there, goes back to incoming for a retry. */
    method Fail(name: string)
      modifies this
      ensures name in old(processing) ==> processing == old(processing) - {name} && incoming == old(incoming) + {name}
      ensures name !in old(processing) ==> processing == old(processing) && incoming == old(incoming)
      ensures queued == old(queued)
    {
      if name in processing {
        processing := processing - {name};
        incoming := incoming + {name};
      }
    }

    /**
     * One poll tick's dispatch: each listed name not already queued is queued and sent to
     * its agent's worker, in listing order.
     */
    method Dispatch(files: seq<QueueFile>) returns (sent: seq<string>)
      modifies this
      ensures sent == NewlyQueued(Names(files), old(queued))
      ensures queued == old(queued) + set f <- files :: f.name
      ensures incoming == old(incoming) && processing == old(processing)
    {
      var names := Names(files);
      sent := [];
      var i := 0;
      while i < |names|
        invariant 0 <= i <= |names|
        invariant queued == old(queued) + Added(names, i)
        invariant sent + NewlyQueued(names[i..], queued) == NewlyQueued(names, old(queued))
        invariant incoming == old(incoming) && processing == old(processing)
      {
        NewlyQueuedStep(names, i, queued);
        AddedStep(names, i);
        if names[i] !in queued {
          queued := queued + {names[i]};
          Reassociate(sent, [names[i]], NewlyQueued(names[i + 1..], queued));
          sent := sent + [names[i]];
        }
        i := i + 1;
      }
      AddedAll(files);
    }

    /** The worker finished with a name (or the send to it failed): the name may be queued again. */
    method Release(name: string)
      modifies this
      ensures queued == old(queued) - {name}
      ensures incoming == old(incoming) && processing == old(processing)
    {
      queued := queued - {name};
    }
  }

  function Names(files: seq<QueueFile>): (ns: seq<string>)
    ensures |ns| == |files| && forall i :: 0 <= i < |files| ==> ns[i] == files[i].name
  {
    seq(|files|, i requires 0 <= i < |files| => files[i].name)
  }

  /** The first `i` names, as a set. */
  ghost function Added(names: seq<string>, i: nat): set<string>
    requires i <= |names|
  {
    set j | 0 <= j < i :: names[j]
  }

  lemma AddedStep(names: seq<string>, i: nat)
    requires i < |names|
    ensures Added(names, i + 1) == Added(names, i) + {names[i]}
  {
  }

  /** All the names are the listed files' names. */
  lemma AddedAll(files: seq<QueueFile>)
    ensures Added(Names(files), |files|) == set f <- files :: f.name
  {
    var names := Names(files);
    forall f <- files ensures f.name in Added(names, |files|) {
      var k :| 0 <= k < |files| && files[k] == f;
      assert names[k] == f.name;
    }
  }

  /** One more name of the dispatch: sent and queued when it was not queued, skipped otherwise. */
  lemma NewlyQueuedStep(names: seq<string>, i: nat, queued: set<string>)
    requires i < |names|
    ensures NewlyQueued(names[i..], queued)
            == if names[i] in queued then NewlyQueued(names[i + 1..], queued)
               else [names[i]] + NewlyQueued(names[i + 1..], queued + {names[i]})
  {
    assert names[i..][1..] == names[i + 1..];
  }

  /** The names a dispatch sends: those not queued, each once, in order. */
  function NewlyQueued(names: seq<string>, queued: set<string>): seq<string> {
    if names == [] then []
    else if names[0] in queued then NewlyQueued(names[1..], queued)
    else [names[0]] + NewlyQueued(names[1..], queued + {names[0]})
  }

  /**
   * A dispatch sends no name twice and none already queued, and sends every listed name
   * that was not queued.
   */
  lemma {:induction false} NewlyQueuedProperties(names: seq<string>, queued: set<string>)
    ensures var sent := NewlyQueued(names, queued);
      && (forall i, j :: 0 <= i < j < |sent| ==> sent[i] != sent[j])
      && (forall n <- sent :: n in names && n !in queued)
      && (forall n <- names :: n !in queued ==> n in sent)
  {
    if names != [] {
      var n := names[0];
      if n in queued {
        NewlyQueuedProperties(names[1..], queued);
      } else {
        NewlyQueuedProperties(names[1..], queued + {n});
        var rest := NewlyQueued(names[1..], queued + {n});
        assert forall m <- rest :: m != n;
      }
      assert names == [n] + names[1..];
    }
  }

  /** While its worker has not finished, a name is not sent again, however often it is listed. */
  lemma {:induction false} QueuedNamesNotResent(names: seq<string>, queued: set<string>)
    requires forall n <- names :: n in queued
    ensures NewlyQueued(names, queued) == []
  {
    if names != [] {
      QueuedNamesNotResent(names[1..], queued);
    }
  }

  // ----- routing a message -----

  /** Lines 196-215 of the processor: a pre-routed known agent keeps the raw message; anything else is parsed. */
  function RouteMessage(m: MessageData, agents: Agents, teams: Teams): RoutingResult {
    if m.agent.Some? && HasAgent(agents, m.agent.value) then RoutingResult(m.agent.value, m.message, false, [])
    else ParseAgentRouting(m.message, agents, teams)
  }

  /**
   * `peek_agent_id`: the agent whose worker a queued file goes to. `message` is None when
   * the file cannot be read or parsed, `config` when the settings cannot be loaded; the
   * agents are those `get_agents` yields.
   */
  function PeekAgentId(message: Option<MessageData>, config: Option<(Agents, Teams)>): string {
    if message.None? || config.None? then "default"
    else
      var m := message.value;
      var (agents, teams) := config.value;
      if m.agent.Some? && HasAgent(agents, m.agent.value) then m.agent.value
      else ParseAgentRouting(m.message, agents, teams).agentId
  }

  /**
   * A peek picks the agent that processing the message routes it to, and so a known
   * agent, a team's leader or "default"; anything unreadable goes to "default".
   */
  lemma PeekAgentIdProperties(message: Option<MessageData>, config: Option<(Agents, Teams)>)
    ensures message.None? || config.None? ==> PeekAgentId(message, config) == "default"
    ensures message.Some? && config.Some? ==>
      var id := PeekAgentId(message, config);
      var (agents, teams) := config.value;
      && id == RouteMessage(message.value, agents, teams).agentId
      && (id == "default" || HasAgent(agents, id) || exists k :: 0 <= k < |teams| && teams[k].1.leaderAgent == id)
  {
    if message.Some? && config.Some? {
      ParseAgentRoutingTargets(message.value.message, config.value.0, config.value.1);
    }
  }

  /** Lines 217-218: a message from outside that names several agents up front is fanned out to all of them. */
  predicate IsMultiDispatch(m: MessageData, route: RoutingResult) {
    m.conversationId.None? && |route.multiAgents| > 1
  }

  /**
   * Lines 267-280: an unknown agent falls back to "default" with the raw message, and
   * when that is unknown too, to the first configured agent; with no agents at all the
   * message fails.
   */
  function ResolveAgent(agentId: string, message: string, raw: string, agents: Agents): Result<(string, string), string> {
    var (id, text) := if HasAgent(agents, agentId) then (agentId, message) else ("default", raw);
    if HasAgent(agents, id) then Ok((id, text))
    else if |agents| > 0 then Ok((agents[0].0, text))
    else Err("No agents configured")
  }

  lemma ResolveAgentProperties(agentId: string, message: string, raw: string, agents: Agents)
    ensures var r := ResolveAgent(agentId, message, raw, agents);
      && (r.Ok? <==> |agents| > 0)
      && (r.Ok? ==> HasAgent(agents, r.value.0))
      && (HasAgent(agents, agentId) ==> r == Ok((agentId, message)))
      && (!HasAgent(agents, agentId) && r.Ok? ==> r.value.1 == raw)
      && (!HasAgent(agents, agentId) && HasAgent(agents, "default") ==> r == Ok(("default", raw)))
  {
    if |agents| > 0 {
      assert HasAgent(agents, agents[0].0);
    }
  }

  /** The first team, in iteration order, that the agent leads and belongs to. */
  function LedTeam(agentId: string, teams: Teams): (r: Option<TeamContext>)
    ensures r.Some? ==> (r.value.team.leaderAgent == agentId && agentId in r.value.team.agents
                         && exists k :: 0 <= k < |teams| && teams[k] == (r.value.teamId, r.value.team))
    ensures r.None? ==> forall k :: 0 <= k < |teams| ==> !(teams[k].1.leaderAgent == agentId && agentId in teams[k].1.agents)
  {
    if teams == [] then None
    else if teams[0].1.leaderAgent == agentId && agentId in teams[0].1.agents then Some(TeamContext(teams[0].0, teams[0].1))
    else
      var r := LedTeam(agentId, teams[1..]);
      assert forall k :: 1 <= k < |teams| ==> teams[k] == teams[1..][k - 1];
      r
  }

  /**
   * Lines 305-330: an internal message keeps its conversation's team (none once the
   * conversation is gone); a team-routed message takes a team its agent leads; otherwise
   * the agent's first team, if any.
   */
  function TeamContextFor(m: MessageData, conversations: map<string, Conversation>, isTeamRouted: bool,
                          agentId: string, teams: Teams): Option<TeamContext>
  {
    if m.conversationId.Some? then
      if m.conversationId.value in conversations then conversations[m.conversationId.value].teamContext else None
    else
      var led := if isTeamRouted then LedTeam(agentId, teams) else None;
      if led.Some? then led else FindTeamForAgent(agentId, teams)
  }

  const PendingNoteTail := " other teammate response(s) are still being processed and will be delivered when ready. Do not re-mention teammates who haven't responded yet.]"

  /**
   * Lines 339-352: an internal message whose conversation still waits on other branches
   * tells the agent how many.
   */
  function WithPendingNote(message: string, m: MessageData, conversations: map<string, Conversation>): string {
    if m.conversationId.Some? && m.conversationId.value in conversations
       && conversations[m.conversationId.value].pending - 1 > 0
    then message + BlockSeparator + "[" + NatToString(conversations[m.conversationId.value].pending - 1) + PendingNoteTail
    else message
  }

  /** The note is added only while other branches are pending, after the message, and the count in it reads back. */
  lemma PendingNoteProperties(message: string, m: MessageData, conversations: map<string, Conversation>)
    ensures var r := WithPendingNote(message, m, conversations);
      var waiting := m.conversationId.Some? && m.conversationId.value in conversations
                     && conversations[m.conversationId.value].pending > 1;
      && (!waiting ==> r == message)
      && (waiting ==> (StartsWith(r, message + BlockSeparator + "[") && EndsWith(r, PendingNoteTail)
                       && var digits := r[|message| + |BlockSeparator| + 1 .. |r| - |PendingNoteTail|];
                          ParseDigits(digits) == conversations[m.conversationId.value].pending - 1))
  {
    var r := WithPendingNote(message, m, conversations);
    if m.conversationId.Some? && m.conversationId.value in conversations && conversations[m.conversationId.value].pending > 1 {
      var n: nat := conversations[m.conversationId.value].pending - 1;
      var head := message + BlockSeparator + "[";
      assert r == head + NatToString(n) + PendingNoteTail;
      assert r[|head| .. |r| - |PendingNoteTail|] == NatToString(n);
      NatToStringRoundTrip(n);
    }
  }

  // ----- handoffs a reply makes -----

  /** A handoff to forward: the target agent and the text of its internal message. */
  datatype Forward = Forward(target: string, text: string)

  const TeammatePrefix := "[Message from teammate @"
  const CrossTeamPrefix := "[Cross-team message from @"
  const PeerPrefix := "[Message from @"

  /** The internal messages' texts: the prefix, the sending agent, "]:", a newline and the mention's text. */
  function Addressed(prefix: string, agentId: string, ms: seq<TeammateMention>): (fs: seq<Forward>)
    ensures |fs| == |ms| && forall i :: 0 <= i < |ms| ==> fs[i].target == ms[i].teammateId
  {
    seq(|ms|, i requires 0 <= i < |ms| => Forward(ms[i].teammateId, prefix + agentId + "]:\n" + ms[i].message))
  }

  function MentionIds(ms: seq<TeammateMention>): set<string> {
    set m <- ms :: m.teammateId
  }

  /**
   * Lines 813-853: in a team conversation, teammates of the conversation's team first,
   * then `[@!id: ...]` agents of other teams not already mentioned, then bare `@id:` lines
   * to agents not mentioned either way.
   */
  function TeamForwards(conv: Conversation, response: string, agentId: string, agents: Agents, teams: Teams): seq<Forward> {
    var teamId := if conv.teamContext.Some? then conv.teamContext.value.teamId else "";
    var teammate := if teamId != "" then BracketMentions(response, Plain, Plain, Teammate(teamId), agentId, agents, teams, {}) else [];
    var cross := BracketMentions(response, Bang, OptionalBang, CrossTeam, agentId, agents, [], MentionIds(teammate));
    var natural := NaturalHandoffs(response, agentId, agents, MentionIds(teammate) + MentionIds(cross));
    Addressed(TeammatePrefix, agentId, teammate) + Addressed(CrossTeamPrefix, agentId, cross) + Addressed(PeerPrefix, agentId, natural)
  }

  /** Lines 541-555 and 596-608: outside a team, bracket mentions of any agent, then bare `@id:` lines. */
  function AdHocForwards(response: string, agentId: string, agents: Agents): seq<Forward> {
    var bracket := BracketMentions(response, OptionalBang, OptionalBang, AnyAgent, agentId, agents, [], {});
    var natural := NaturalHandoffs(response, agentId, agents, MentionIds(bracket));
    Addressed(PeerPrefix, agentId, bracket + natural)
  }

  method CollectTeamForwards(conv: Conversation, response: string, agentId: string, agents: Agents, teams: Teams)
    returns (forwards: seq<Forward>)
    ensures forwards == TeamForwards(conv, response, agentId, agents, teams)
  {
    var teamId := if conv.teamContext.Some? then conv.teamContext.value.teamId else "";
    var teammate: seq<TeammateMention> := [];
    if teamId != "" {
      teammate := ExtractTeammateMentions(response, agentId, teamId, teams, agents);
    }
    var already := MentionIds(teammate);
    var cross := ExtractCrossTeamMentions(response, agentId, agents, already);
    already := already + MentionIds(cross);
    var natural := ExtractNaturalHandoffs(response, agentId, agents, already);
    forwards := Addressed(TeammatePrefix, agentId, teammate) + Addressed(CrossTeamPrefix, agentId, cross)
                + Addressed(PeerPrefix, agentId, natural);
  }

  method CollectAdHocForwards(response: string, agentId: string, agents: Agents) returns (forwards: seq<Forward>)
    ensures forwards == AdHocForwards(response, agentId, agents)
  {
    var bracket := ExtractAllAgentMentions(response, agentId, agents, {});
    var natural := ExtractNaturalHandoffs(response, agentId, agents, MentionIds(bracket));
    forwards := Addressed(PeerPrefix, agentId, bracket + natural);
  }

  predicate DistinctTargets(fs: seq<Forward>) {
    forall i, j :: 0 <= i < j < |fs| ==> fs[i].target != fs[j].target
  }

  /** Mentions of distinct known agents other than the sender, none of them already mentioned. */
  predicate GoodMentions(ms: seq<TeammateMention>, agentId: string, agents: Agents, already: set<string>) {
    DistinctIds(ms) && forall m <- ms :: m.teammateId != agentId && HasAgent(agents, m.teammateId) && m.teammateId !in already
  }

  lemma AddressedGood(prefix: string, agentId: string, ms: seq<TeammateMention>, agents: Agents, already: set<string>)
    requires GoodMentions(ms, agentId, agents, already)
    ensures var fs := Addressed(prefix, agentId, ms);
      DistinctTargets(fs) && forall f <- fs :: (f.target in MentionIds(ms) && f.target != agentId
                                                && HasAgent(agents, f.target) && f.target !in already)
  {
    var fs := Addressed(prefix, agentId, ms);
    forall f <- fs ensures f.target in MentionIds(ms) && f.target != agentId && HasAgent(agents, f.target) && f.target !in already {
      var i :| 0 <= i < |fs| && fs[i] == f;
      assert ms[i] in ms;
    }
  }

  lemma ConcatDistinct(a: seq<Forward>, b: seq<Forward>)
    requires DistinctTargets(a) && DistinctTargets(b)
    requires forall f <- a, g <- b :: f.target != g.target
    ensures DistinctTargets(a + b)
  {
    forall i, j | 0 <= i < j < |a + b| ensures (a + b)[i].target != (a + b)[j].target {
      if j >= |a| && i < |a| {
        assert (a + b)[i] in a && (a + b)[j] in b;
      }
    }
  }

  lemma BracketGood(response: string, tagMode: TagMode, stripMode: TagMode, gate: Gate,
                    current: string, agents: Agents, teams: Teams, already: set<string>)
    ensures GoodMentions(BracketMentions(response, tagMode, stripMode, gate, current, agents, teams, already), current, agents, already)
  {
    BracketMentionsDistinct(response, tagMode, stripMode, gate, current, agents, teams, already);
    forall r <- BracketMentions(response, tagMode, stripMode, gate, current, agents, teams, already)
      ensures r.teammateId != current && HasAgent(agents, r.teammateId) && r.teammateId !in already
    {
      BracketMentionsSound(response, tagMode, stripMode, gate, current, agents, teams, already, r);
    }
  }

  lemma NaturalGood(response: string, current: string, agents: Agents, already: set<string>)
    ensures GoodMentions(NaturalHandoffs(response, current, agents, already), current, agents, already)
  {
    NaturalHandoffsProperties(response, current, agents, already);
  }

  /** A team member's reply hands off to each agent at most once, never to itself, and only to known agents. */
  lemma TeamForwardsTargets(conv: Conversation, response: string, agentId: string, agents: Agents, teams: Teams)
    ensures var fs := TeamForwards(conv, response, agentId, agents, teams);
      DistinctTargets(fs) && forall f <- fs :: f.target != agentId && HasAgent(agents, f.target)
  {
    var teamId := if conv.teamContext.Some? then conv.teamContext.value.teamId else "";
    var teammate := if teamId != "" then BracketMentions(response, Plain, Plain, Teammate(teamId), agentId, agents, teams, {}) else [];
    if teamId != "" {
      BracketGood(response, Plain, Plain, Teammate(teamId), agentId, agents, teams, {});
    }
    var t := MentionIds(teammate);
    var cross := BracketMentions(response, Bang, OptionalBang, CrossTeam, agentId, agents, [], t);
    BracketGood(response, Bang, OptionalBang, CrossTeam, agentId, agents, [], t);
    var c := MentionIds(cross);
    var natural := NaturalHandoffs(response, agentId, agents, t + c);
    NaturalGood(response, agentId, agents, t + c);
    var f1 := Addressed(TeammatePrefix, agentId, teammate);
    var f2 := Addressed(CrossTeamPrefix, agentId, cross);
    var f3 := Addressed(PeerPrefix, agentId, natural);
    AddressedGood(TeammatePrefix, agentId, teammate, agents, {});
    AddressedGood(CrossTeamPrefix, agentId, cross, agents, t);
    AddressedGood(PeerPrefix, agentId, natural, agents, t + c);
    ConcatDistinct(f1, f2);
    assert forall f: Forward | f in f1 + f2 :: f.target in t + c;
    ConcatDistinct(f1 + f2, f3);
  }

  /** So does a reply outside a team. */
  lemma AdHocForwardsTargets(response: string, agentId: string, agents: Agents)
    ensures var fs := AdHocForwards(response, agentId, agents);
      DistinctTargets(fs) && forall f <- fs :: f.target != agentId && HasAgent(agents, f.target)
  {
    var bracket := BracketMentions(response, OptionalBang, OptionalBang, AnyAgent, agentId, agents, [], {});
    BracketGood(response, OptionalBang, OptionalBang, AnyAgent, agentId, agents, [], {});
    var natural := NaturalHandoffs(response, agentId, agents, MentionIds(bracket));
    NaturalGood(response, agentId, agents, MentionIds(bracket));
    var ms := bracket + natural;
    forall i, j | 0 <= i < j < |ms| ensures ms[i].teammateId != ms[j].teammateId {
      if i < |bracket| && j >= |bracket| {
        assert ms[i] in bracket && ms[j] in natural;
      }
    }
    assert forall m <- ms :: m in bracket || m in natural;
    AddressedGood(PeerPrefix, agentId, ms, agents, {});
  }

  // ----- the conversation table -----

  /** Every open conversation waits for at least one branch and is stored under its own id. */
  ghost predicate ValidTable(m: map<string, Conversation>) {
    forall id <- m :: m[id].pending >= 1 && m[id].id == id
  }

  /** A finished branch's handoffs become new branches only if there are some and the conversation is under its cap. */
  predicate FansOut(c: Conversation, handoffs: nat) {
    handoffs > 0 && c.totalMessages + 1 < c.maxMessages
  }

  /**
   * One finished branch (lines 586-649 and 803-965): the reply is recorded and counted,
   * the files it references are collected, its handoffs become pending branches when it
   * fans out, and the branch itself is no longer pending.
   */
  function Stepped(c: Conversation, agentId: string, response: string, handoffs: nat, onDisk: string -> bool): Conversation {
    var fans := FansOut(c, handoffs);
    c.(responses := c.responses + [ChainStep(agentId, response)],
       totalMessages := c.totalMessages + 1,
       files := c.files + ExistingPaths(SendFilesFrom(response, 0), onDisk),
       pending := c.pending + (if fans then handoffs else 0) - 1,
       outgoingMentions := if fans then c.outgoingMentions[agentId := handoffs] else c.outgoingMentions)
  }

  /** The internal messages a fanning-out branch enqueues, one per handoff, in order. */
  function Forwarded(convId: string, agentId: string, forwards: seq<Forward>, original: MessageData, now: nat): seq<MessageData> {
    seq(|forwards|, i requires 0 <= i < |forwards| =>
      InternalMessage(convId, agentId, forwards[i].target, forwards[i].text, original, now))
  }

  /** The conversation a reply belongs to: the one its internal message names if still open, else a new one. */
  function Opened(m: map<string, Conversation>, original: MessageData, teamContext: Option<TeamContext>, now: nat)
    : (r: (string, map<string, Conversation>))
    ensures r.0 in r.1
  {
    var convId := original.conversationId.UnwrapOr("");
    if original.conversationId.Some? && convId in m then (convId, m)
    else
      var c := CreateConversation(original.messageId, original.channel, original.sender, original.message, teamContext, now);
      (c.id, m[c.id := c])
  }

  /**
   * The table after recording a branch in an open conversation, the conversation if that
   * completed it, and the internal messages enqueued.
   */
  function Recorded(m: map<string, Conversation>, activeId: string, agentId: string, response: string,
                    forwards: seq<Forward>, original: MessageData, onDisk: string -> bool, now: nat)
    : (map<string, Conversation>, Option<Conversation>, seq<MessageData>)
    requires activeId in m
  {
    var d := Stepped(m[activeId], agentId, response, |forwards|, onDisk);
    var outbox := if FansOut(m[activeId], |forwards|) then Forwarded(activeId, agentId, forwards, original, now) else [];
    if d.pending == 0 then (m - {activeId}, Some(d), outbox) else (m[activeId := d], None, outbox)
  }

  /**
   * Lines 539-676 and 756-993: a reply from a team member, an internal message, or a
   * reply with handoffs goes through a conversation; any other reply goes straight back
   * and leaves the table alone.
   */
  function ReplyOutcome(m: map<string, Conversation>, original: MessageData, agentId: string, response: string,
                        teamContext: Option<TeamContext>, agents: Agents, teams: Teams, onDisk: string -> bool, now: nat)
    : (map<string, Conversation>, Option<Conversation>, seq<MessageData>)
  {
    if teamContext.None? && original.conversationId.None? && AdHocForwards(response, agentId, agents) == [] then (m, None, [])
    else
      var (activeId, table) := Opened(m, original, teamContext, now);
      var forwards := if teamContext.Some? then TeamForwards(table[activeId], response, agentId, agents, teams)
                      else AdHocForwards(response, agentId, agents);
      Recorded(table, activeId, agentId, response, forwards, original, onDisk, now)
  }

  /** The timeout sweep's test: more than thirty minutes since the conversation started. */
  predicate Expired(c: Conversation, now: nat) {
    (if now >= c.startTime then now - c.startTime else 0) > ConversationTimeoutMs
  }

  function ExpiredIds(m: map<string, Conversation>, now: nat): set<string> {
    set id | id in m && Expired(m[id], now)
  }

  function Unexpired(m: map<string, Conversation>, now: nat): map<string, Conversation> {
    map id | id in m && !Expired(m[id], now) :: m[id]
  }

  /** The open conversations, shared by all agent workers; each method is one step taken under the table's lock. */
  class ConversationTable {
    var conversations: map<string, Conversation>

    ghost predicate Valid()
      reads this
    {
      ValidTable(conversations)
    }

    constructor()
      ensures conversations == map[] && Valid()
    {
      conversations := map[];
    }

    /**
     * Lines 238-261: a conversation waiting for every listed agent, and one internal
     * message from "dispatch" to each of them.
     */
    method MultiDispatch(original: MessageData, message: string, targets: seq<string>, now: nat)
      returns (convId: string, outbox: seq<MessageData>)
      requires Valid() && |targets| > 1
      modifies this
      ensures Valid()
      ensures var c := CreateConversation(original.messageId, original.channel, original.sender, original.message, None, now);
        convId == c.id && conversations == old(conversations)[convId := c.(pending := |targets|)]
      ensures |outbox| == |targets|
      ensures forall i :: 0 <= i < |targets| ==> outbox[i] == InternalMessage(convId, "dispatch", targets[i], message, original, now)
    {
      var conv := CreateConversation(original.messageId, original.channel, original.sender, original.message, None, now);
      conv := conv.(pending := |targets|);
      convId := conv.id;
      conversations := conversations[convId := conv];
      outbox := [];
      for i := 0 to |targets|
        invariant |outbox| == i
        invariant forall j :: 0 <= j < i ==> outbox[j] == InternalMessage(convId, "dispatch", targets[j], message, original, now)
      {
        outbox := outbox + [InternalMessage(convId, "dispatch", targets[i], message, original, now)];
      }
    }

    /** Lines 561-583 and 761-801: continue the conversation an internal message names, or start one. */
    method Open(original: MessageData, teamContext: Option<TeamContext>, now: nat) returns (activeId: string)
      requires Valid()
      modifies this
      ensures Valid()
      ensures (activeId, conversations) == Opened(old(conversations), original, teamContext, now)
    {
      var convId := original.conversationId.UnwrapOr("");
      var isExisting := original.conversationId.Some? && convId in conversations;
      if isExisting {
        activeId := convId;
      } else {
        var conv := CreateConversation(original.messageId, original.channel, original.sender, original.message, teamContext, now);
        activeId := conv.id;
        conversations := conversations[activeId := conv];
      }
    }

    /**
     * Record one finished branch; when that leaves nothing pending the conversation is
     * removed from the table and returned for completion.
     */
    method Record(activeId: string, agentId: string, response: string, forwards: seq<Forward>,
                  original: MessageData, onDisk: string -> bool, now: nat)
      returns (completed: Option<Conversation>, outbox: seq<MessageData>)
      requires Valid() && activeId in conversations
      modifies this
      ensures Valid()
      ensures (conversations, completed, outbox)
              == Recorded(old(conversations), activeId, agentId, response, forwards, original, onDisk, now)
    {
      ghost var before := conversations[activeId];
      var conv := conversations[activeId];
      conv := conv.(responses := conv.responses + [ChainStep(agentId, response)]);
      conv := conv.(totalMessages := conv.totalMessages + 1);
      var files := CollectFiles(response, conv.files, onDisk);
      conv := conv.(files := files);
      outbox := [];
      if |forwards| > 0 && conv.totalMessages < conv.maxMessages {
        conv := conv.(pending := conv.pending + |forwards|, outgoingMentions := conv.outgoingMentions[agentId := |forwards|]);
        outbox := ForwardAll(activeId, agentId, forwards, original, now);
      }
      assert outbox == if FansOut(before, |forwards|) then Forwarded(activeId, agentId, forwards, original, now) else [];
      conv := conv.(pending := conv.pending - 1);
      assert conv == Stepped(before, agentId, response, |forwards|, onDisk);
      RecordedProperties(conversations, activeId, agentId, response, forwards, original, onDisk, now);
      if conv.pending == 0 {
        conversations := conversations - {activeId};
        completed := Some(conv);
      } else {
        conversations := conversations[activeId := conv];
        completed := None;
      }
    }

    /** The internal messages a fanning-out branch enqueues, built one handoff at a time. */
    static method ForwardAll(activeId: string, agentId: string, forwards: seq<Forward>, original: MessageData, now: nat)
      returns (outbox: seq<MessageData>)
      ensures outbox == Forwarded(activeId, agentId, forwards, original, now)
    {
      outbox := [];
      for i := 0 to |forwards|
        invariant |outbox| == i
        invariant forall j :: 0 <= j < i ==>
          outbox[j] == InternalMessage(activeId, agentId, forwards[j].target, forwards[j].text, original, now)
      {
        outbox := outbox + [InternalMessage(activeId, agentId, forwards[i].target, forwards[i].text, original, now)];
      }
    }

    /** One agent's reply, routed through the table as `process_message_inner` does after invoking the agent. */
    method Reply(original: MessageData, agentId: string, response: string, teamContext: Option<TeamContext>,
                 agents: Agents, teams: Teams, onDisk: string -> bool, now: nat)
      returns (completed: Option<Conversation>, outbox: seq<MessageData>)
      requires Valid()
      modifies this
      ensures Valid()
      ensures (conversations, completed, outbox)
              == ReplyOutcome(old(conversations), original, agentId, response, teamContext, agents, teams, onDisk, now)
    {
      if teamContext.None? {
        var forwards := CollectAdHocForwards(response, agentId, agents);
        if forwards == [] && original.conversationId.None? {
          return None, [];
        }
        var activeId := Open(original, None, now);
        completed, outbox := Record(activeId, agentId, response, forwards, original, onDisk, now);
      } else {
        var activeId := Open(original, teamContext, now);
        var forwards := CollectTeamForwards(conversations[activeId], response, agentId, agents, teams);
        completed, outbox := Record(activeId, agentId, response, forwards, original, onDisk, now);
      }
    }

    /**
     * The timeout sweep of each poll tick (lines 1134-1171): every conversation older than
     * thirty minutes is removed and handed back, once, with nothing pending, to be
     * completed with the replies it has.
     */
    method Sweep(now: nat) returns (expired: seq<Conversation>)
      requires Valid()
      modifies this
      ensures Valid()
      ensures conversations == Unexpired(old(conversations), now)
      ensures (set c <- expired :: c.id) == ExpiredIds(old(conversations), now)
      ensures forall i, j :: 0 <= i < j < |expired| ==> expired[i].id != expired[j].id
      ensures forall c <- expired :: c.id in old(conversations) && c == old(conversations)[c.id].(pending := 0)
    {
      var ids := set id | id in conversations && Expired(conversations[id], now);
      ghost var done: set<string> := {};
      expired := [];
      while ids != {}
        invariant SweepInvariant(old(conversations), now, conversations, ids, done, expired)
        decreases ids
      {
        var id :| id in ids;
        var conv := conversations[id];
        SweepStep(old(conversations), now, conversations, ids, done, expired, id);
        conversations := conversations - {id};
        expired := expired + [conv.(pending := 0)];
        ids := ids - {id};
        done := done + {id};
      }
      assert conversations.Keys == Unexpired(old(conversations), now).Keys;
    }
  }

  /** Part way through the sweep: `done` are the expired ids handed back so far, `ids` those still to go. */
  ghost predicate SweepInvariant(m: map<string, Conversation>, now: nat, cur: map<string, Conversation>,
                                 ids: set<string>, done: set<string>, expired: seq<Conversation>) {
    && ValidTable(m)
    && ids + done == ExpiredIds(m, now) && ids !! done
    && cur == m - done
    && (set c <- expired :: c.id) == done
    && (forall i, j :: 0 <= i < j < |expired| ==> expired[i].id != expired[j].id)
    && (forall c <- expired :: c.id in m && c == m[c.id].(pending := 0))
  }

  /** One step of the sweep keeps its invariant. */
  lemma SweepStep(m: map<string, Conversation>, now: nat, cur: map<string, Conversation>,
                  ids: set<string>, done: set<string>, expired: seq<Conversation>, id: string)
    requires SweepInvariant(m, now, cur, ids, done, expired) && id in ids
    ensures id in cur && cur[id].id == id
    ensures SweepInvariant(m, now, cur - {id}, ids - {id}, done + {id}, expired + [cur[id].(pending := 0)])
  {
    var e := expired + [cur[id].(pending := 0)];
    SweepExpiredStep(m, done, expired, id);
    assert (set c <- e :: c.id) == done + {id};
    assert cur - {id} == m - (done + {id});
  }

  /** Handing back a conversation not yet handed back keeps the handed-back list free of repeats. */
  lemma SweepExpiredStep(m: map<string, Conversation>, done: set<string>, expired: seq<Conversation>, id: string)
    requires ValidTable(m) && (set c <- expired :: c.id) == done && id !in done && id in m
    requires forall i, j :: 0 <= i < j < |expired| ==> expired[i].id != expired[j].id
    requires forall c <- expired :: c.id in m && c == m[c.id].(pending := 0)
    ensures var e := expired + [m[id].(pending := 0)];
      && (forall i, j :: 0 <= i < j < |e| ==> e[i].id != e[j].id)
      && (forall c <- e :: c.id in m && c == m[c.id].(pending := 0))
  {
    var e := expired + [m[id].(pending := 0)];
    forall i | 0 <= i < |expired|
      ensures e[i].id != id
    {
      assert expired[i] in expired;
    }
    assert forall c <- e :: c in expired || c == e[|expired|];
  }

  // ----- what the table steps guarantee -----

  /**
   * A branch step counts the branch off and its enqueued handoffs on: the new `pending`
   * is the old one minus one plus the internal messages sent, never below zero. The
   * conversation is removed, and handed back for completion, exactly when nothing is
   * left pending; otherwise it stays with the reply recorded. Nothing else changes.
   */
  lemma RecordedProperties(m: map<string, Conversation>, activeId: string, agentId: string, response: string,
                           forwards: seq<Forward>, original: MessageData, onDisk: string -> bool, now: nat)
    requires ValidTable(m) && activeId in m
    ensures var (m', completed, outbox) := Recorded(m, activeId, agentId, response, forwards, original, onDisk, now);
      var c := m[activeId];
      var d := Stepped(c, agentId, response, |forwards|, onDisk);
      && ValidTable(m')
      && d.pending >= 0 && d.pending == c.pending - 1 + |outbox|
      && d.responses == c.responses + [ChainStep(agentId, response)] && d.totalMessages == c.totalMessages + 1
      && (completed.Some? <==> d.pending == 0)
      && (completed.Some? ==> completed.value == d && activeId !in m' && m'.Keys == m.Keys - {activeId})
      && (completed.None? ==> m' == m[activeId := d])
      && |outbox| == (if FansOut(c, |forwards|) then |forwards| else 0)
      && (forall i :: 0 <= i < |outbox| ==> outbox[i].conversationId == Some(activeId) && outbox[i].agent == Some(forwards[i].target)
                                            && outbox[i].fromAgent == Some(agentId) && outbox[i].message == forwards[i].text)
  {
  }

  /** At the message cap a conversation stops fanning out: each further reply only counts one branch off. */
  lemma CappedStep(c: Conversation, agentId: string, response: string, handoffs: nat, onDisk: string -> bool)
    requires c.totalMessages + 1 >= c.maxMessages
    ensures Stepped(c, agentId, response, handoffs, onDisk).pending == c.pending - 1
    ensures Stepped(c, agentId, response, handoffs, onDisk).outgoingMentions == c.outgoingMentions
    ensures Stepped(c, agentId, response, handoffs, onDisk).maxMessages == c.maxMessages
    ensures Stepped(c, agentId, response, handoffs, onDisk).totalMessages == c.totalMessages + 1
    ensures Stepped(c, agentId, response, handoffs, onDisk).responses == c.responses + [ChainStep(agentId, response)]
  {
  }

  /** A finished branch: who replied, what, and how many handoffs the reply made. */
  datatype BranchReply = BranchReply(agentId: string, response: string, handoffs: nat)

  /** A conversation after a series of branch steps. */
  function Replay(c: Conversation, replies: seq<BranchReply>, onDisk: string -> bool): Conversation
    decreases |replies|
  {
    if replies == [] then c
    else Replay(Stepped(c, replies[0].agentId, replies[0].response, replies[0].handoffs, onDisk), replies[1..], onDisk)
  }

  /** The reply steps a series of branch replies appends to a conversation, in order. */
  function ReplySteps(replies: seq<BranchReply>): seq<ChainStep>
    ensures |ReplySteps(replies)| == |replies|
  {
    if replies == [] then [] else [ChainStep(replies[0].agentId, replies[0].response)] + ReplySteps(replies[1..])
  }

  /**
   * Once a conversation has reached its message cap, whatever the replies say it
   * completes after exactly as many replies as it has pending branches, having recorded
   * every reply in order.
   */
  lemma {:induction false} CappedConversationDrains(c: Conversation, replies: seq<BranchReply>, onDisk: string -> bool)
    requires c.totalMessages + 1 >= c.maxMessages
    ensures Replay(c, replies, onDisk).pending == c.pending - |replies|
    ensures Replay(c, replies, onDisk).totalMessages == c.totalMessages + |replies|
    ensures Replay(c, replies, onDisk).responses == c.responses + ReplySteps(replies)
  {
    CappedCounts(c, replies, onDisk);
    CappedResponses(c, replies, onDisk);
  }

  /** The counters of a capped conversation under a series of replies. */
  lemma {:induction false} CappedCounts(c: Conversation, replies: seq<BranchReply>, onDisk: string -> bool)
    requires c.totalMessages + 1 >= c.maxMessages
    ensures Replay(c, replies, onDisk).maxMessages == c.maxMessages
    ensures Replay(c, replies, onDisk).pending == c.pending - |replies|
    ensures Replay(c, replies, onDisk).totalMessages == c.totalMessages + |replies|
    decreases |replies|
  {
    if replies != [] {
      var r := replies[0];
      CappedStep(c, r.agentId, r.response, r.handoffs, onDisk);
      CappedCounts(Stepped(c, r.agentId, r.response, r.handoffs, onDisk), replies[1..], onDisk);
    }
  }

  /** Recording one step and then a series is recording the step followed by the series. */
  lemma AppendStep(before: seq<ChainStep>, step: ChainStep, after: seq<ChainStep>)
    ensures (before + [step]) + after == before + ([step] + after)
  {
  }

  /** The replies a series of steps records, in order. */
  lemma {:induction false} CappedResponses(c: Conversation, replies: seq<BranchReply>, onDisk: string -> bool)
    ensures Replay(c, replies, onDisk).responses == c.responses + ReplySteps(replies)
    decreases |replies|
  {
    if replies != [] {
      var r := replies[0];
      var d := Stepped(c, r.agentId, r.response, r.handoffs, onDisk);
      CappedResponses(d, replies[1..], onDisk);
      var step := ChainStep(r.agentId, r.response);
      assert Replay(c, replies, onDisk) == Replay(d, replies[1..], onDisk);
      assert d.responses == c.responses + [step];
      AppendStep(c.responses, step, ReplySteps(replies[1..]));
    }
  }

  /**
   * One reply through the table keeps every open conversation waiting on at least one
   * branch, hands back a conversation only once it has nothing pending and is gone from
   * the table, and a reply that goes straight back changes nothing.
   */
  lemma ReplyOutcomeProperties(m: map<string, Conversation>, original: MessageData, agentId: string, response: string,
                               teamContext: Option<TeamContext>, agents: Agents, teams: Teams, onDisk: string -> bool, now: nat)
    requires ValidTable(m)
    ensures var (m', completed, outbox) := ReplyOutcome(m, original, agentId, response, teamContext, agents, teams, onDisk, now);
      && ValidTable(m')
      && (completed.Some? ==> completed.value.pending == 0 && completed.value.id !in m')
      && ((teamContext.None? && original.conversationId.None? && AdHocForwards(response, agentId, agents) == [])
            ==> (m' == m && completed.None? && outbox == []))
      && (forall i, j :: 0 <= i < j < |outbox| ==> outbox[i].agent != outbox[j].agent)
      && (forall o <- outbox :: o.agent != Some(agentId))
  {
    if !(teamContext.None? && original.conversationId.None? && AdHocForwards(response, agentId, agents) == []) {
      var (activeId, table) := Opened(m, original, teamContext, now);
      assert ValidTable(table);
      var forwards := if teamContext.Some? then TeamForwards(table[activeId], response, agentId, agents, teams)
                      else AdHocForwards(response, agentId, agents);
      if teamContext.Some? {
        TeamForwardsTargets(table[activeId], response, agentId, agents, teams);
      } else {
        AdHocForwardsTargets(response, agentId, agents);
      }
      RecordedReply(table, activeId, agentId, response, forwards, original, onDisk, now);
      assert ReplyOutcome(m, original, agentId, response, teamContext, agents, teams, onDisk, now)
        == Recorded(table, activeId, agentId, response, forwards, original, onDisk, now);
    }
  }

  /** Recording a reply whose forwards go to distinct agents other than the sender. */
  lemma RecordedReply(table: map<string, Conversation>, activeId: string, agentId: string, response: string,
                      forwards: seq<Forward>, original: MessageData, onDisk: string -> bool, now: nat)
    requires ValidTable(table) && activeId in table
    requires DistinctTargets(forwards) && forall f <- forwards :: f.target != agentId
    ensures var (m', completed, outbox) := Recorded(table, activeId, agentId, response, forwards, original, onDisk, now);
      && ValidTable(m')
      && (completed.Some? ==> completed.value.pending == 0 && completed.value.id !in m')
      && (forall i, j :: 0 <= i < j < |outbox| ==> outbox[i].agent != outbox[j].agent)
      && (forall o <- outbox :: o.agent != Some(agentId))
  {
    RecordedProperties(table, activeId, agentId, response, forwards, original, onDisk, now);
    var (m', completed, outbox) := Recorded(table, activeId, agentId, response, forwards, original, onDisk, now);
    if completed.Some? {
      assert completed.value.id == activeId;
    }
    forall i, j | 0 <= i < j < |outbox| ensures outbox[i].agent != outbox[j].agent {
      assert forwards[i].target != forwards[j].target;
    }
    forall o <- outbox ensures o.agent != Some(agentId) {
      var i :| 0 <= i < |outbox| && outbox[i] == o;
      assert forwards[i] in forwards;
    }
  }

  /**
   * An internal reply whose conversation is no longer open (the timeout sweep removed it)
   * starts a new conversation for the same message; when it hands off nowhere, that
   * conversation completes at once with this reply alone, so the sender gets a second
   * reply to the message.
   */
  lemma LateReplyStartsOver(m: map<string, Conversation>, original: MessageData, agentId: string, response: string,
                            agents: Agents, teams: Teams, onDisk: string -> bool, now: nat)
    requires original.conversationId.Some? && original.conversationId.value !in m
    requires AdHocForwards(response, agentId, agents) == []
    ensures TeamContextFor(original, m, false, agentId, teams).None?
    ensures var (m', completed, outbox) := ReplyOutcome(m, original, agentId, response, None, agents, teams, onDisk, now);
      && completed.Some?
      && completed.value.messageId == original.messageId && completed.value.channel == original.channel
      && completed.value.responses == [ChainStep(agentId, response)]
      && completed.value.teamContext.None?
      && outbox == []
      && (completed.value.id !in m ==> m' == m)
  {
    var c := CreateConversation(original.messageId, original.channel, original.sender, original.message, None, now);
    assert Opened(m, original, None, now) == (c.id, m[c.id := c]);
    assert ReplyOutcome(m, original, agentId, response, None, agents, teams, onDisk, now)
        == Recorded(m[c.id := c], c.id, agentId, response, [], original, onDisk, now);
    FreshReplyCompletes(m, c, agentId, response, original, onDisk, now);
  }

  /** A new conversation whose first reply hands off nowhere completes with that reply alone. */
  lemma FreshReplyCompletes(m: map<string, Conversation>, c: Conversation, agentId: string, response: string,
                            original: MessageData, onDisk: string -> bool, now: nat)
    requires c.pending == 1 && c.responses == []
    ensures var (m', completed, outbox) := Recorded(m[c.id := c], c.id, agentId, response, [], original, onDisk, now);
      && completed.Some? && outbox == []
      && completed.value.responses == [ChainStep(agentId, response)]
      && completed.value.messageId == c.messageId && completed.value.channel == c.channel
      && completed.value.teamContext == c.teamContext && completed.value.id == c.id
      && (c.id !in m ==> m' == m)
  {
    var table := m[c.id := c];
    assert Recorded(table, c.id, agentId, response, [], original, onDisk, now).0 == table - {c.id};
    if c.id !in m {
      assert table - {c.id} == m;
    }
  }

  /**
   * After the sweep no open conversation is older than thirty minutes, every younger one
   * is still there unchanged, and the table stays valid.
   */
  lemma UnexpiredProperties(m: map<string, Conversation>, now: nat)
    requires ValidTable(m)
    ensures var u := Unexpired(m, now);
      && ValidTable(u)
      && u.Keys == m.Keys - ExpiredIds(m, now)
      && (forall id <- u :: !Expired(u[id], now) && u[id] == m[id])
      && (forall id <- m :: m[id].startTime <= now <= m[id].startTime + ConversationTimeoutMs ==> id in u)
  {
  }

  // ----- the session after a turn -----

  const SummaryUnavailablePrefix := "[Compaction summary unavailable. "
  const SummaryUnavailableSuffix := " chars of context were accumulated.]"

  /** The agent's summary, or a placeholder naming the accumulated characters when summarising failed. */
  function CompactionSummary(summarised: Result<string, string>, totalChars: nat): string {
    match summarised
    case Ok(s) => s
    case Err(_) => SummaryUnavailablePrefix + NatToString(totalChars) + SummaryUnavailableSuffix
  }

  /** Lines 445-514: the sessions after a turn, and whether the turn compacted the session. */
  function SessionsAfterTurn(sessions: map<string, SessionEntry>, agentId: string, channel: string, sender: string,
                             messageChars: nat, responseChars: nat, wasReset: bool, now: nat, newId: string,
                             contextWindow: Option<nat>, summarised: Result<string, string>)
    : (map<string, SessionEntry>, bool)
  {
    var key := SessionKey(agentId, channel, sender);
    var updated := Updated(sessions, agentId, channel, sender, messageChars, responseChars, wasReset, now, newId);
    var total := updated[key].totalChars;
    if ShouldCompact(total, ResolveContextWindow(contextWindow), DefaultReserveTokens)
    then (Compacted(updated, key, |CompactionSummary(summarised, total)|), true)
    else (updated, false)
  }

  /**
   * `update_session`, then compaction when the session has outgrown the agent's context
   * window less the default reserve. `summarised` is what asking the agent for a summary
   * returns; it is asked only when compacting.
   */
  method CompactAfterTurn(store: SessionStore, agentId: string, channel: string, sender: string,
                          messageChars: nat, responseChars: nat, wasReset: bool, now: nat, newId: string,
                          contextWindow: Option<nat>, summarised: Result<string, string>)
    returns (compacted: bool)
    modifies store
    ensures (store.sessions, compacted) == SessionsAfterTurn(old(store.sessions), agentId, channel, sender, messageChars,
                                                             responseChars, wasReset, now, newId, contextWindow, summarised)
  {
    var entry := store.UpdateSession(agentId, channel, sender, messageChars, responseChars, wasReset, now, newId);
    var window := ResolveContextWindow(contextWindow);
    compacted := ShouldCompact(entry.totalChars, window, DefaultReserveTokens);
    if compacted {
      var summary := CompactionSummary(summarised, entry.totalChars);
      store.RecordCompaction(SessionKey(agentId, channel, sender), |summary|);
    }
  }

  /**
   * A turn compacts exactly when the updated session holds more characters than the
   * threshold; a compacted session then counts only its summary's characters and one more
   * compaction, whether the summary came from the agent or is the placeholder, whose count
   * reads back. No other session changes beyond the update.
   */
  lemma SessionsAfterTurnProperties(sessions: map<string, SessionEntry>, agentId: string, channel: string, sender: string,
                                    messageChars: nat, responseChars: nat, wasReset: bool, now: nat, newId: string,
                                    contextWindow: Option<nat>, summarised: Result<string, string>)
    ensures var key := SessionKey(agentId, channel, sender);
      var updated := Updated(sessions, agentId, channel, sender, messageChars, responseChars, wasReset, now, newId);
      var (after, compacted) := SessionsAfterTurn(sessions, agentId, channel, sender, messageChars, responseChars,
                                                  wasReset, now, newId, contextWindow, summarised);
      var summary := CompactionSummary(summarised, updated[key].totalChars);
      && (compacted <==> updated[key].totalChars > ThresholdChars(ResolveContextWindow(contextWindow), DefaultReserveTokens))
      && (!compacted ==> after == updated)
      && (compacted ==> after[key].totalChars == |summary|
                        && after[key].compactionCount == updated[key].compactionCount + 1
                        && after[key].sessionId == updated[key].sessionId)
      && after.Keys == sessions.Keys + {key}
      && (forall k <- sessions :: k != key ==> after[k] == sessions[k])
      && (summarised.Ok? ==> summary == summarised.value)
      && (summarised.Err? ==> StartsWith(summary, SummaryUnavailablePrefix) && EndsWith(summary, SummaryUnavailableSuffix)
                              && ParseDigits(summary[|SummaryUnavailablePrefix|..|summary| - |SummaryUnavailableSuffix|])
                                 == updated[key].totalChars)
  {
    var key := SessionKey(agentId, channel, sender);
    var updated := Updated(sessions, agentId, channel, sender, messageChars, responseChars, wasReset, now, newId);
    UpdatedProperties(sessions, agentId, channel, sender, messageChars, responseChars, wasReset, now, newId);
    CompactedProperties(updated, key, |CompactionSummary(summarised, updated[key].totalChars)|);
    if summarised.Err? {
      var n := updated[key].totalChars;
      var summary := CompactionSummary(summarised, n);
      assert summary[|SummaryUnavailablePrefix|..|summary| - |SummaryUnavailableSuffix|] == NatToString(n);
      NatToStringRoundTrip(n);
    }
  }

  // ----- a reply that goes straight back -----

  /**
   * Lines 678-722: a reply outside any conversation goes back trimmed, with `[send_file]`
   * tags removed when a referenced file exists, cut when long, from the agent that wrote it.
   */
  ghost function DirectReply(original: MessageData, agentId: string, response: string, onDisk: string -> bool,
                             filesDir: string, now: nat): ResponseData
  {
    var trimmed := Trim(response);
    var outbound := ExistingPaths(SendFilesFrom(trimmed, 0), onDisk);
    var text := if outbound != {} then Trim(StripSendFilesFrom(trimmed, 0)) else trimmed;
    var (message, files) := HandleLongResponse(text, SetToSeq(outbound), filesDir, now);
    ResponseData(original.channel, original.sender, message, original.message, now, original.messageId, Some(agentId),
                 if files == [] then None else Some(files))
  }

  /**
   * The direct reply answers the original message on its channel, names its agent, and
   * carries the trimmed reply unchanged and no files when it references no existing file
   * and is at most 4000 characters; bracket directives are not removed on this path.
   */
  lemma DirectReplyProperties(original: MessageData, agentId: string, response: string, onDisk: string -> bool,
                              filesDir: string, now: nat)
    ensures var r := DirectReply(original, agentId, response, onDisk, filesDir, now);
      && r.channel == original.channel && r.sender == original.sender && r.messageId == original.messageId
      && r.originalMessage == original.message && r.agent == Some(agentId)
      && ((ExistingPaths(SendFilesFrom(Trim(response), 0), onDisk) == {} && |Trim(response)| <= LongResponseThreshold)
            ==> (r.message == Trim(response) && r.files.None?))
  {
  }
}
