/**
 * Message routing and handoff parsing: which agent an inbound message goes to,
 * and which agents a reply hands work on to, through `[@id: msg]` tags,
 * `[@!id: msg]` cross-team tags and line-start `@id:` addressing.
 */
module Routing {
  import opened Wrappers
  import opened Text
  import opened Types
  import opened Tags
  import SmartRouting

  /** Placed between the shared context and the directed text of a bracket mention. */
  const DirectedHeader := "\n\n------\n\nDirected to you:\n"

  /** The first team, in iteration order, whose member list holds the agent. */
  function FindTeamForAgent(agentId: string, teams: Teams): (r: Option<TeamContext>)
    ensures r.Some? ==> exists i :: (0 <= i < |teams| && teams[i] == (r.value.teamId, r.value.team)
                                     && agentId in r.value.team.agents && forall j :: 0 <= j < i ==> agentId !in teams[j].1.agents)
    ensures r.None? <==> forall i :: 0 <= i < |teams| ==> agentId !in teams[i].1.agents
  {
    if |teams| == 0 then None
    else if agentId in teams[0].1.agents then Some(TeamContext(teams[0].0, teams[0].1))
    else
      var r := FindTeamForAgent(agentId, teams[1..]);
      assert forall i :: 1 <= i < |teams| ==> teams[i] == teams[1..][i - 1];
      if r.Some? then
        var i' :| 0 <= i' < |teams[1..]| && teams[1..][i'] == (r.value.teamId, r.value.team)
          && agentId in r.value.team.agents && forall j :: 0 <= j < i' ==> agentId !in teams[1..][j].1.agents;
        assert teams[i' + 1] == (r.value.teamId, r.value.team);
        r
      else r
  }

  /** A teammate: a known agent, other than the current one, listed in the given team. */
  predicate IsTeammate(mentioned: string, current: string, teamId: string, teams: Teams, agents: Agents) {
    GetTeam(teams, teamId).Some? && mentioned != current
    && mentioned in GetTeam(teams, teamId).value.agents && HasAgent(agents, mentioned)
  }

  /** The text a bracket mention delivers: the shared context (if any) ahead of the directed part. */
  function FullMessage(shared: string, direct: string): string {
    if |shared| > 0 then shared + DirectedHeader + direct else direct
  }

  /** The response with all tags of the given grammar removed, trimmed. */
  function SharedContext(response: string, stripMode: TagMode): string {
    Trim(StripTags(response, stripMode))
  }

  /** The per-candidate check that distinguishes the three bracket extractors. */
  datatype Gate = Teammate(teamId: string) | CrossTeam | AnyAgent

  predicate Admits(gate: Gate, c: string, current: string, agents: Agents, teams: Teams) {
    match gate
    case Teammate(teamId) => IsTeammate(c, current, teamId, teams, agents)
    case CrossTeam =>
      c != current && HasAgent(agents, c)
      && (GetAgent(agents, current).Some? ==> GetAgent(agents, current).value.crossTeamHandoffs)
    case AnyAgent => c != current && HasAgent(agents, c)
  }

  /** One candidate mention per id listed in a tag, all carrying that tag's message. */
  function MentionsOf(t: Tag, shared: string): (ms: seq<TeammateMention>)
    ensures |ms| == |CandidateIds(t.ids)|
    ensures forall k :: 0 <= k < |ms| ==> ms[k] == TeammateMention(CandidateIds(t.ids)[k], FullMessage(shared, Trim(t.body)))
  {
    var ids := CandidateIds(t.ids);
    seq(|ids|, k requires 0 <= k < |ids| => TeammateMention(ids[k], FullMessage(shared, Trim(t.body))))
  }

  /** All candidate mentions, tag by tag, id by id. */
  function Candidates(tags: seq<Tag>, shared: string): seq<TeammateMention>
    decreases |tags|
  {
    if |tags| == 0 then [] else MentionsOf(tags[0], shared) + Candidates(tags[1..], shared)
  }

  /** Keep each candidate the gate admits whose id was not seen before, and mark it seen. */
  function Admit(cands: seq<TeammateMention>, seen: set<string>, gate: Gate, current: string, agents: Agents, teams: Teams): seq<TeammateMention>
    decreases |cands|
  {
    if |cands| == 0 then []
    else
      var c := cands[0];
      if c.teammateId !in seen && Admits(gate, c.teammateId, current, agents, teams) then
        [c] + Admit(cands[1..], seen + {c.teammateId}, gate, current, agents, teams)
      else Admit(cands[1..], seen, gate, current, agents, teams)
  }

  /** The mentions a bracket extractor returns, as a function of its inputs. */
  function BracketMentions(response: string, tagMode: TagMode, stripMode: TagMode, gate: Gate,
                           current: string, agents: Agents, teams: Teams, already: set<string>): seq<TeammateMention> {
    Admit(Candidates(AllTags(response, tagMode), SharedContext(response, stripMode)), already, gate, current, agents, teams)
  }

  predicate DistinctIds(ms: seq<TeammateMention>) {
    forall i, j :: 0 <= i < j < |ms| ==> ms[i].teammateId != ms[j].teammateId
  }

  /** The loop shared by the three bracket extractors. */
  method CollectMentions(response: string, tagMode: TagMode, stripMode: TagMode, gate: Gate,
                         current: string, agents: Agents, teams: Teams, already: set<string>)
    returns (results: seq<TeammateMention>)
    ensures results == BracketMentions(response, tagMode, stripMode, gate, current, agents, teams, already)
  {
    var tags := AllTags(response, tagMode);
    ghost var sh := SharedContext(response, stripMode);
    ghost var spec := Admit(Candidates(tags, sh), already, gate, current, agents, teams);
    results := [];
    var seen := already;
    var i := 0;
    while i < |tags|
      invariant 0 <= i <= |tags|
      invariant results + Admit(Candidates(tags[i..], sh), seen, gate, current, agents, teams) == spec
    {
      var shared := Trim(StripTags(response, stripMode));
      var direct := Trim(tags[i].body);
      var full := FullMessage(shared, direct);
      var ids := CandidateIds(tags[i].ids);
      ghost var ms := MentionsOf(tags[i], sh);
      ghost var later := Candidates(tags[i + 1..], sh);
      CandidatesAt(tags, i, sh);
      var k := 0;
      while k < |ids|
        invariant 0 <= k <= |ids|
        invariant results + Admit(ms[k..] + later, seen, gate, current, agents, teams) == spec
      {
        var c := ids[k];
        assert ms[k] == TeammateMention(c, full);
        SplitFirst(ms, k, later);
        var admitted := c !in seen && Admits(gate, c, current, agents, teams);
        AdmitStep(results, TeammateMention(c, full), ms[k + 1..] + later, seen, gate, current, agents, teams);
        if admitted {
          results := results + [TeammateMention(c, full)];
          seen := seen + {c};
        }
        k := k + 1;
      }
      assert |ms| == |ids| && k == |ms|;
      assert ms[k..] + later == later;
      assert results + Admit(Candidates(tags[i + 1..], sh), seen, gate, current, agents, teams) == spec;
      i := i + 1;
    }
    assert tags[i..] == [];
  }

  lemma CandidatesAt(tags: seq<Tag>, i: nat, shared: string)
    requires i < |tags|
    ensures Candidates(tags[i..], shared) == MentionsOf(tags[i], shared)[0..] + Candidates(tags[i + 1..], shared)
  {
    assert tags[i..][1..] == tags[i + 1..];
  }

  lemma SplitFirst<T>(xs: seq<T>, k: nat, ys: seq<T>)
    requires k < |xs|
    ensures xs[k..] + ys == [xs[k]] + (xs[k + 1..] + ys)
  {
  }

  lemma AdmitStep(results: seq<TeammateMention>, m: TeammateMention, rest: seq<TeammateMention>, seen: set<string>,
                  gate: Gate, current: string, agents: Agents, teams: Teams)
    ensures m.teammateId !in seen && Admits(gate, m.teammateId, current, agents, teams) ==>
      (results + [m]) + Admit(rest, seen + {m.teammateId}, gate, current, agents, teams)
        == results + Admit([m] + rest, seen, gate, current, agents, teams)
    ensures !(m.teammateId !in seen && Admits(gate, m.teammateId, current, agents, teams)) ==>
      results + Admit(rest, seen, gate, current, agents, teams)
        == results + Admit([m] + rest, seen, gate, current, agents, teams)
  {
    AdmitCons(m, rest, seen, gate, current, agents, teams);
  }

  lemma AdmitCons(m: TeammateMention, rest: seq<TeammateMention>, seen: set<string>, gate: Gate, current: string, agents: Agents, teams: Teams)
    ensures Admit([m] + rest, seen, gate, current, agents, teams)
      == if m.teammateId !in seen && Admits(gate, m.teammateId, current, agents, teams)
         then [m] + Admit(rest, seen + {m.teammateId}, gate, current, agents, teams)
         else Admit(rest, seen, gate, current, agents, teams)
  {
    assert ([m] + rest)[0] == m;
    assert ([m] + rest)[1..] == rest;
  }

  /** What `Admit` keeps: admitted, previously unseen candidates, each id once. */
  lemma {:induction false} AdmitSound(cands: seq<TeammateMention>, seen: set<string>, gate: Gate, current: string, agents: Agents, teams: Teams)
    ensures forall r <- Admit(cands, seen, gate, current, agents, teams) ::
      r in cands && r.teammateId !in seen && Admits(gate, r.teammateId, current, agents, teams)
    ensures DistinctIds(Admit(cands, seen, gate, current, agents, teams))
    decreases |cands|
  {
    if |cands| > 0 {
      var c := cands[0];
      if c.teammateId !in seen && Admits(gate, c.teammateId, current, agents, teams) {
        AdmitSound(cands[1..], seen + {c.teammateId}, gate, current, agents, teams);
        var rest := Admit(cands[1..], seen + {c.teammateId}, gate, current, agents, teams);
        var all := [c] + rest;
        forall i, j | 0 <= i < j < |all| ensures all[i].teammateId != all[j].teammateId {
          if i == 0 { assert all[j] in rest; }
          else { assert all[i] == rest[i - 1] && all[j] == rest[j - 1]; }
        }
      } else {
        AdmitSound(cands[1..], seen, gate, current, agents, teams);
      }
    }
  }

  /** A gate that admits nobody yields nothing. */
  lemma {:induction false} AdmitNothing(cands: seq<TeammateMention>, seen: set<string>, gate: Gate, current: string, agents: Agents, teams: Teams)
    requires forall c :: !Admits(gate, c, current, agents, teams)
    ensures Admit(cands, seen, gate, current, agents, teams) == []
    decreases |cands|
  {
    if |cands| > 0 {
      AdmitNothing(cands[1..], seen, gate, current, agents, teams);
    }
  }

  /** What `Admit` does not drop: every admitted id not seen before is reported. */
  lemma {:induction false} AdmitComplete(cands: seq<TeammateMention>, seen: set<string>, gate: Gate, current: string, agents: Agents, teams: Teams, m: TeammateMention)
    requires m in cands && m.teammateId !in seen && Admits(gate, m.teammateId, current, agents, teams)
    ensures exists r <- Admit(cands, seen, gate, current, agents, teams) :: r.teammateId == m.teammateId
    decreases |cands|
  {
    var c := cands[0];
    if c == m {
    } else {
      assert m in cands[1..];
      if c.teammateId !in seen && Admits(gate, c.teammateId, current, agents, teams) {
        if c.teammateId != m.teammateId {
          AdmitComplete(cands[1..], seen + {c.teammateId}, gate, current, agents, teams, m);
        }
      } else {
        AdmitComplete(cands[1..], seen, gate, current, agents, teams, m);
      }
    }
  }

  /** Every candidate carries a lower-case id listed in some tag, and that tag's message. */
  lemma {:induction false} CandidatesFromTags(tags: seq<Tag>, shared: string)
    ensures forall m <- Candidates(tags, shared) :: IsLower(m.teammateId) && exists t <- tags ::
      m.teammateId in CandidateIds(t.ids) && m.message == FullMessage(shared, Trim(t.body))
    decreases |tags|
  {
    if |tags| > 0 {
      CandidatesFromTags(tags[1..], shared);
      MentionsOfSound(tags[0], shared);
      forall m <- Candidates(tags, shared) ensures IsLower(m.teammateId) && exists t <- tags ::
        m.teammateId in CandidateIds(t.ids) && m.message == FullMessage(shared, Trim(t.body)) {
        if m in MentionsOf(tags[0], shared) {
          assert tags[0] in tags;
        } else {
          assert m in Candidates(tags[1..], shared);
          var t :| t in tags[1..] && m.teammateId in CandidateIds(t.ids) && m.message == FullMessage(shared, Trim(t.body));
          assert t in tags;
        }
      }
    }
  }

  /** Each of one tag's mentions carries a lower-case id the tag lists, and the tag's message. */
  lemma MentionsOfSound(t: Tag, shared: string)
    ensures forall m <- MentionsOf(t, shared) ::
      IsLower(m.teammateId) && m.teammateId in CandidateIds(t.ids) && m.message == FullMessage(shared, Trim(t.body))
  {
    CandidateIdsAreLower(t.ids);
    var ms := MentionsOf(t, shared);
    forall m <- ms
      ensures IsLower(m.teammateId) && m.teammateId in CandidateIds(t.ids) && m.message == FullMessage(shared, Trim(t.body))
    {
      var k :| 0 <= k < |ms| && ms[k] == m;
      assert m.teammateId == CandidateIds(t.ids)[k];
    }
  }

  /** Every id a tag lists is among the candidates. */
  lemma {:induction false} TagIdsAreCandidates(tags: seq<Tag>, shared: string, t: Tag, c: string)
    requires t in tags && c in CandidateIds(t.ids)
    ensures TeammateMention(c, FullMessage(shared, Trim(t.body))) in Candidates(tags, shared)
    decreases |tags|
  {
    if tags[0] == t {
      var k :| 0 <= k < |CandidateIds(t.ids)| && CandidateIds(t.ids)[k] == c;
      assert MentionsOf(t, shared)[k] == TeammateMention(c, FullMessage(shared, Trim(t.body)));
    } else {
      TagIdsAreCandidates(tags[1..], shared, t, c);
    }
  }

  /** No id is reported twice. */
  lemma BracketMentionsDistinct(response: string, tagMode: TagMode, stripMode: TagMode, gate: Gate,
                                current: string, agents: Agents, teams: Teams, already: set<string>)
    ensures DistinctIds(BracketMentions(response, tagMode, stripMode, gate, current, agents, teams, already))
  {
    AdmitSound(Candidates(AllTags(response, tagMode), SharedContext(response, stripMode)), already, gate, current, agents, teams);
  }

  /** Every reported mention is admitted, new, lower-case, and carries the message of a tag listing it. */
  lemma BracketMentionsSound(response: string, tagMode: TagMode, stripMode: TagMode, gate: Gate,
                             current: string, agents: Agents, teams: Teams, already: set<string>, r: TeammateMention)
    requires r in BracketMentions(response, tagMode, stripMode, gate, current, agents, teams, already)
    ensures r.teammateId !in already && Admits(gate, r.teammateId, current, agents, teams) && IsLower(r.teammateId)
    ensures exists t <- AllTags(response, tagMode) :: (r.teammateId in CandidateIds(t.ids)
              && r.message == FullMessage(SharedContext(response, stripMode), Trim(t.body)))
  {
    var tags := AllTags(response, tagMode);
    var sh := SharedContext(response, stripMode);
    AdmitSound(Candidates(tags, sh), already, gate, current, agents, teams);
    CandidatesFromTags(tags, sh);
  }

  /** Every admitted, new id listed in some tag is reported. */
  lemma BracketMentionsComplete(response: string, tagMode: TagMode, stripMode: TagMode, gate: Gate,
                                current: string, agents: Agents, teams: Teams, already: set<string>, t: Tag, c: string)
    requires t in AllTags(response, tagMode) && c in CandidateIds(t.ids)
    requires c !in already && Admits(gate, c, current, agents, teams)
    ensures exists r <- BracketMentions(response, tagMode, stripMode, gate, current, agents, teams, already) :: r.teammateId == c
  {
    var tags := AllTags(response, tagMode);
    var sh := SharedContext(response, stripMode);
    TagIdsAreCandidates(tags, sh, t, c);
    AdmitComplete(Candidates(tags, sh), already, gate, current, agents, teams, TeammateMention(c, FullMessage(sh, Trim(t.body))));
  }

  /**
   * `extract_teammate_mentions`: `[@id: msg]` and `[@a,b: msg]` tags addressed to
   * teammates of the current agent in the given team, each teammate once.
   */
  method ExtractTeammateMentions(response: string, current: string, teamId: string, teams: Teams, agents: Agents)
    returns (results: seq<TeammateMention>)
    ensures results == BracketMentions(response, Plain, Plain, Teammate(teamId), current, agents, teams, {})
    ensures DistinctIds(results)
    ensures forall r <- results :: IsTeammate(r.teammateId, current, teamId, teams, agents) && IsLower(r.teammateId)
    ensures forall r <- results :: exists t <- AllTags(response, Plain) :: (r.teammateId in CandidateIds(t.ids)
      && r.message == FullMessage(SharedContext(response, Plain), Trim(t.body)))
    ensures forall t <- AllTags(response, Plain), c <- CandidateIds(t.ids) ::
      IsTeammate(c, current, teamId, teams, agents) ==> exists r <- results :: r.teammateId == c
  {
    results := CollectMentions(response, Plain, Plain, Teammate(teamId), current, agents, teams, {});
    BracketMentionsDistinct(response, Plain, Plain, Teammate(teamId), current, agents, teams, {});
    forall r <- results ensures IsTeammate(r.teammateId, current, teamId, teams, agents) && IsLower(r.teammateId)
      && exists t <- AllTags(response, Plain) :: (r.teammateId in CandidateIds(t.ids)
           && r.message == FullMessage(SharedContext(response, Plain), Trim(t.body)))
    {
      BracketMentionsSound(response, Plain, Plain, Teammate(teamId), current, agents, teams, {}, r);
    }
    forall t <- AllTags(response, Plain), c <- CandidateIds(t.ids) | IsTeammate(c, current, teamId, teams, agents)
      ensures exists r <- results :: r.teammateId == c
    {
      BracketMentionsComplete(response, Plain, Plain, Teammate(teamId), current, agents, teams, {}, t, c);
    }
  }

  /**
   * `extract_cross_team_mentions`: `[@!id: msg]` tags to any known agent other than
   * the sender and the ids already mentioned; nothing when the sender may not hand off
   * across teams.
   */
  method ExtractCrossTeamMentions(response: string, current: string, agents: Agents, already: set<string>)
    returns (results: seq<TeammateMention>)
    ensures results == BracketMentions(response, Bang, OptionalBang, CrossTeam, current, agents, [], already)
    ensures DistinctIds(results)
    ensures forall r <- results :: (r.teammateId != current && HasAgent(agents, r.teammateId)
      && r.teammateId !in already && IsLower(r.teammateId))
    ensures GetAgent(agents, current).Some? && !GetAgent(agents, current).value.crossTeamHandoffs ==> results == []
    ensures forall r <- results :: exists t <- AllTags(response, Bang) :: (r.teammateId in CandidateIds(t.ids)
      && r.message == FullMessage(SharedContext(response, OptionalBang), Trim(t.body)))
    ensures (GetAgent(agents, current).Some? ==> GetAgent(agents, current).value.crossTeamHandoffs) ==>
      forall t <- AllTags(response, Bang), c <- CandidateIds(t.ids) ::
        c != current && HasAgent(agents, c) && c !in already ==> exists r <- results :: r.teammateId == c
  {
    results := CollectMentions(response, Bang, OptionalBang, CrossTeam, current, agents, [], already);
    BracketMentionsDistinct(response, Bang, OptionalBang, CrossTeam, current, agents, [], already);
    forall r <- results ensures r.teammateId != current && HasAgent(agents, r.teammateId)
      && r.teammateId !in already && IsLower(r.teammateId)
      && (GetAgent(agents, current).Some? ==> GetAgent(agents, current).value.crossTeamHandoffs)
      && exists t <- AllTags(response, Bang) :: (r.teammateId in CandidateIds(t.ids)
           && r.message == FullMessage(SharedContext(response, OptionalBang), Trim(t.body)))
    {
      BracketMentionsSound(response, Bang, OptionalBang, CrossTeam, current, agents, [], already, r);
    }
    if GetAgent(agents, current).Some? && !GetAgent(agents, current).value.crossTeamHandoffs {
      AdmitNothing(Candidates(AllTags(response, Bang), SharedContext(response, OptionalBang)), already, CrossTeam, current, agents, []);
    }
    if GetAgent(agents, current).Some? ==> GetAgent(agents, current).value.crossTeamHandoffs {
      forall t <- AllTags(response, Bang), c <- CandidateIds(t.ids) | c != current && HasAgent(agents, c) && c !in already
        ensures exists r <- results :: r.teammateId == c
      {
        BracketMentionsComplete(response, Bang, OptionalBang, CrossTeam, current, agents, [], already, t, c);
      }
    }
  }

  /** `extract_all_agent_mentions`: `[@id: msg]` and `[@!id: msg]` tags to any known agent. */
  method ExtractAllAgentMentions(response: string, current: string, agents: Agents, already: set<string>)
    returns (results: seq<TeammateMention>)
    ensures results == BracketMentions(response, OptionalBang, OptionalBang, AnyAgent, current, agents, [], already)
    ensures DistinctIds(results)
    ensures forall r <- results :: (r.teammateId != current && HasAgent(agents, r.teammateId)
      && r.teammateId !in already && IsLower(r.teammateId))
    ensures forall r <- results :: exists t <- AllTags(response, OptionalBang) :: (r.teammateId in CandidateIds(t.ids)
      && r.message == FullMessage(SharedContext(response, OptionalBang), Trim(t.body)))
    ensures forall t <- AllTags(response, OptionalBang), c <- CandidateIds(t.ids) ::
      c != current && HasAgent(agents, c) && c !in already ==> exists r <- results :: r.teammateId == c
  {
    results := CollectMentions(response, OptionalBang, OptionalBang, AnyAgent, current, agents, [], already);
    BracketMentionsDistinct(response, OptionalBang, OptionalBang, AnyAgent, current, agents, [], already);
    forall r <- results ensures r.teammateId != current && HasAgent(agents, r.teammateId)
      && r.teammateId !in already && IsLower(r.teammateId)
      && exists t <- AllTags(response, OptionalBang) :: (r.teammateId in CandidateIds(t.ids)
           && r.message == FullMessage(SharedContext(response, OptionalBang), Trim(t.body)))
    {
      BracketMentionsSound(response, OptionalBang, OptionalBang, AnyAgent, current, agents, [], already, r);
    }
    forall t <- AllTags(response, OptionalBang), c <- CandidateIds(t.ids) | c != current && HasAgent(agents, c) && c !in already
      ensures exists r <- results :: r.teammateId == c
    {
      BracketMentionsComplete(response, OptionalBang, OptionalBang, AnyAgent, current, agents, [], already, t, c);
    }
  }

  // ----- line-start handoffs -----

  predicate IsIdPunctuation(c: char) {
    c == ',' || c == ';' || c == '.'
  }

  /** `trim_end_matches` of ',', ';' and '.': the longest prefix not ending in one of them. */
  function TrimIdPunctuation(id: string): (r: string)
    ensures |r| <= |id| && r == id[..|r|]
    ensures |r| > 0 ==> !IsIdPunctuation(r[|r| - 1])
    ensures forall k :: |r| <= k < |id| ==> IsIdPunctuation(id[k])
    decreases |id|
  {
    if |id| > 0 && IsIdPunctuation(id[|id| - 1]) then TrimIdPunctuation(id[..|id| - 1]) else id
  }

  /** Handoffs that lie inside the response, in order, without overlapping. */
  predicate HandoffsOrdered(s: string, hs: seq<Handoff>) {
    (forall k :: 0 <= k < |hs| ==> hs[k].start < hs[k].end <= |s|)
    && (forall k :: 0 <= k < |hs| - 1 ==> hs[k].end <= hs[k + 1].start)
  }

  /** Where the text of handoff `i` stops: at the next handoff, or at the end of the response. */
  function SegmentEnd(s: string, hs: seq<Handoff>, i: nat): (e: nat)
    requires i < |hs| && HandoffsOrdered(s, hs)
    ensures hs[i].end <= e <= |s|
  {
    if i + 1 < |hs| then hs[i + 1].start else |s|
  }

  /** The text handoff `i` addresses, trimmed. */
  function SegmentText(s: string, hs: seq<Handoff>, i: nat): string
    requires i < |hs| && HandoffsOrdered(s, hs)
  {
    Trim(s[hs[i].end..SegmentEnd(s, hs, i)])
  }

  /** The id a handoff names: the captured id without trailing punctuation, lower-cased. */
  function HandoffId(h: Handoff): string {
    ToLower(TrimIdPunctuation(h.rawId))
  }

  /**
   * The (id, text) pairs the first `n` handoffs contribute: a handoff to the sender
   * itself or to an unknown agent is skipped, and so is one whose text is blank.
   */
  function Segments(s: string, hs: seq<Handoff>, n: nat, current: string, agents: Agents): (pairs: seq<(string, string)>)
    requires n <= |hs| && HandoffsOrdered(s, hs)
    ensures forall p <- pairs :: p.0 != current && HasAgent(agents, p.0) && |p.1| > 0
  {
    if n == 0 then []
    else
      var pairs := Segments(s, hs, n - 1, current, agents);
      var id := HandoffId(hs[n - 1]);
      var text := SegmentText(s, hs, n - 1);
      if id == current || !HasAgent(agents, id) || |text| == 0 then pairs else pairs + [(id, text)]
  }

  /** The ids of the pairs, each once, in order of first appearance. */
  function FirstSeen(pairs: seq<(string, string)>): (ids: seq<string>)
  {
    if |pairs| == 0 then []
    else
      var ids := FirstSeen(pairs[..|pairs| - 1]);
      var id := pairs[|pairs| - 1].0;
      if id in ids then ids else ids + [id]
  }

  /** The texts addressed to `id`, in order. */
  function TextsFor(pairs: seq<(string, string)>, id: string): seq<string> {
    if |pairs| == 0 then []
    else
      var last := pairs[|pairs| - 1];
      TextsFor(pairs[..|pairs| - 1], id) + (if last.0 == id then [last.1] else [])
  }

  /** One mention per id not already mentioned, carrying all its texts joined by a blank line. */
  function Emit(ids: seq<string>, pairs: seq<(string, string)>, already: set<string>): seq<TeammateMention> {
    if |ids| == 0 then []
    else
      var id := ids[|ids| - 1];
      Emit(ids[..|ids| - 1], pairs, already)
        + (if id in already then [] else [TeammateMention(id, Join(TextsFor(pairs, id), "\n\n"))])
  }

  /** The pairs all handoffs of a response contribute. */
  function ResponseSegments(response: string, current: string, agents: Agents): seq<(string, string)> {
    var hs := AllHandoffs(response);
    Segments(response, hs, |hs|, current, agents)
  }

  lemma SegmentsNext(s: string, hs: seq<Handoff>, n: nat, current: string, agents: Agents)
    requires n < |hs| && HandoffsOrdered(s, hs)
    ensures var id := HandoffId(hs[n]);
      var text := SegmentText(s, hs, n);
      Segments(s, hs, n + 1, current, agents)
        == if id == current || !HasAgent(agents, id) || |text| == 0 then Segments(s, hs, n, current, agents)
           else Segments(s, hs, n, current, agents) + [(id, text)]
  {
  }

  /** `order` lists the ids of `pairs` by first appearance and `texts` holds each one's texts. */
  ghost predicate Grouped(pairs: seq<(string, string)>, order: seq<string>, texts: map<string, seq<string>>) {
    && order == FirstSeen(pairs)
    && (forall id :: id in texts <==> id in order)
    && (forall id <- order :: texts[id] == TextsFor(pairs, id))
  }

  lemma GroupStep(pairs: seq<(string, string)>, order: seq<string>, texts: map<string, seq<string>>, p: (string, string))
    requires Grouped(pairs, order, texts)
    ensures Grouped(pairs + [p], if p.0 in texts then order else order + [p.0],
                    texts[p.0 := if p.0 in texts then texts[p.0] + [p.1] else [p.1]])
  {
    FirstSeenAppend(pairs, p);
    var order' := if p.0 in texts then order else order + [p.0];
    var texts' := texts[p.0 := if p.0 in texts then texts[p.0] + [p.1] else [p.1]];
    forall x <- order' ensures texts'[x] == TextsFor(pairs + [p], x) {
      TextsForAppend(pairs, p, x);
      if x != p.0 {
        assert x in order;
        assert TextsFor(pairs, x) + [] == TextsFor(pairs, x);
      } else if p.0 !in texts {
        TextsForUnseen(pairs, x);
      }
    }
  }

  /** An id that no pair carries has no texts. */
  lemma {:induction false} TextsForUnseen(pairs: seq<(string, string)>, id: string)
    requires id !in FirstSeen(pairs)
    ensures TextsFor(pairs, id) == []
  {
    if |pairs| > 0 {
      TextsForUnseen(pairs[..|pairs| - 1], id);
    }
  }

  lemma FirstSeenAppend(pairs: seq<(string, string)>, p: (string, string))
    ensures FirstSeen(pairs + [p]) == if p.0 in FirstSeen(pairs) then FirstSeen(pairs) else FirstSeen(pairs) + [p.0]
  {
    assert (pairs + [p])[..|pairs|] == pairs;
  }

  lemma TextsForAppend(pairs: seq<(string, string)>, p: (string, string), id: string)
    ensures TextsFor(pairs + [p], id) == TextsFor(pairs, id) + (if p.0 == id then [p.1] else [])
  {
    assert (pairs + [p])[..|pairs|] == pairs;
  }

  /** What `extract_natural_handoffs` returns, listing the agents in order of first handoff. */
  function NaturalHandoffs(response: string, current: string, agents: Agents, already: set<string>): seq<TeammateMention> {
    var pairs := ResponseSegments(response, current, agents);
    Emit(FirstSeen(pairs), pairs, already)
  }

  /** The first loop of `extract_natural_handoffs`: the texts of the handoffs, grouped by agent. */
  method GroupHandoffs(response: string, hs: seq<Handoff>, current: string, agents: Agents)
    returns (order: seq<string>, texts: map<string, seq<string>>)
    requires HandoffsOrdered(response, hs)
    ensures Grouped(Segments(response, hs, |hs|, current, agents), order, texts)
  {
    order := [];
    texts := map[];
    for i := 0 to |hs|
      invariant Grouped(Segments(response, hs, i, current, agents), order, texts)
    {
      var id := HandoffId(hs[i]);
      var known := HasAgent(agents, id);
      if id != current && known {
        var text := SegmentText(response, hs, i);
        if |text| > 0 {
          GroupStep(Segments(response, hs, i, current, agents), order, texts, (id, text));
          if id in texts {
            texts := texts[id := texts[id] + [text]];
          } else {
            order := order + [id];
            texts := texts[id := [text]];
          }
        }
      }
      SegmentsNext(response, hs, i, current, agents);
    }
  }

  /**
   * `extract_natural_handoffs`: group the text after each line-start `@id:` handoff by
   * agent, then report each agent not already mentioned once.
   */
  method ExtractNaturalHandoffs(response: string, current: string, agents: Agents, already: set<string>)
    returns (results: seq<TeammateMention>)
    ensures results == NaturalHandoffs(response, current, agents, already)
  {
    var hs := AllHandoffs(response);
    var order, texts := GroupHandoffs(response, hs, current, agents);
    ghost var pairs := Segments(response, hs, |hs|, current, agents);
    results := [];
    var j := 0;
    while j < |order|
      invariant 0 <= j <= |order|
      invariant results == Emit(order[..j], pairs, already)
    {
      var id := order[j];
      assert order[..j + 1][..j] == order[..j];
      assert id in order;
      if id !in already {
        results := results + [TeammateMention(id, Join(texts[id], "\n\n"))];
      }
      j := j + 1;
    }
    assert order[..j] == order;
  }

  /** `FirstSeen` lists exactly the ids the pairs carry, each once. */
  lemma {:induction false} FirstSeenIds(pairs: seq<(string, string)>)
    ensures forall id :: id in FirstSeen(pairs) <==> exists p <- pairs :: p.0 == id
    ensures forall i, j :: 0 <= i < j < |FirstSeen(pairs)| ==> FirstSeen(pairs)[i] != FirstSeen(pairs)[j]
  {
    if |pairs| > 0 {
      var init := pairs[..|pairs| - 1];
      FirstSeenIds(init);
      assert pairs == init + [pairs[|pairs| - 1]];
      forall id ensures id in FirstSeen(pairs) <==> exists p <- pairs :: p.0 == id {
        if id in FirstSeen(pairs) && id != pairs[|pairs| - 1].0 {
          var p :| p in init && p.0 == id;
          assert p in pairs;
        }
        if (exists p <- pairs :: p.0 == id) && id != pairs[|pairs| - 1].0 {
          var p :| p in pairs && p.0 == id;
          assert p in init;
        }
      }
    }
  }

  /** The texts gathered for an id are the texts of its pairs, and there is one for each listed id. */
  lemma {:induction false} TextsForOwn(pairs: seq<(string, string)>, id: string)
    ensures forall t <- TextsFor(pairs, id) :: (id, t) in pairs
    ensures id in FirstSeen(pairs) ==> |TextsFor(pairs, id)| > 0
  {
    if |pairs| > 0 {
      var init := pairs[..|pairs| - 1];
      TextsForOwn(init, id);
      assert pairs == init + [pairs[|pairs| - 1]];
      forall t <- TextsFor(pairs, id) ensures (id, t) in pairs {
        if t in TextsFor(init, id) {
          assert (id, t) in init;
        }
      }
    }
  }

  /** What `Emit` reports: one mention per listed id not already mentioned, carrying its joined texts. */
  lemma {:induction false} EmitProperties(ids: seq<string>, pairs: seq<(string, string)>, already: set<string>)
    ensures forall r <- Emit(ids, pairs, already) ::
      r.teammateId in ids && r.teammateId !in already && r.message == Join(TextsFor(pairs, r.teammateId), "\n\n")
    ensures forall id <- ids :: id !in already ==> exists r <- Emit(ids, pairs, already) :: r.teammateId == id
    ensures (forall i, j :: 0 <= i < j < |ids| ==> ids[i] != ids[j]) ==> DistinctIds(Emit(ids, pairs, already))
  {
    if |ids| > 0 {
      var init := ids[..|ids| - 1];
      var id := ids[|ids| - 1];
      EmitProperties(init, pairs, already);
      assert ids == init + [id];
      var prev := Emit(init, pairs, already);
      var all := Emit(ids, pairs, already);
      forall r <- all ensures r.teammateId in ids {
        if r in prev { assert r.teammateId in init; }
      }
      forall x <- ids | x !in already ensures exists r <- all :: r.teammateId == x {
        if x != id {
          assert x in init;
          var r :| r in prev && r.teammateId == x;
          assert r in all;
        } else {
          assert all[|all| - 1].teammateId == x;
        }
      }
      if forall i, j :: 0 <= i < j < |ids| ==> ids[i] != ids[j] {
        assert forall i, j :: 0 <= i < j < |init| ==> init[i] != init[j] by {
          forall i, j | 0 <= i < j < |init| ensures init[i] != init[j] {
            assert init[i] == ids[i] && init[j] == ids[j];
          }
        }
        assert id !in init by {
          forall k | 0 <= k < |init| ensures init[k] != id {
            assert init[k] == ids[k];
          }
        }
        forall i, j | 0 <= i < j < |all| ensures all[i].teammateId != all[j].teammateId {
          if j >= |prev| {
            assert all[i] in prev;
            assert all[i].teammateId in init;
          }
        }
      }
    }
  }

  /**
   * The natural handoffs of a response: each names a known agent other than the sender
   * and not already mentioned, no agent twice, and carries all the non-blank texts
   * addressed to that agent, in order, joined by a blank line; and every agent with such
   * a text that was not already mentioned is reported.
   */
  lemma NaturalHandoffsProperties(response: string, current: string, agents: Agents, already: set<string>)
    ensures var rs := NaturalHandoffs(response, current, agents, already);
      var pairs := ResponseSegments(response, current, agents);
      && DistinctIds(rs)
      && (forall r <- rs :: (r.teammateId != current && HasAgent(agents, r.teammateId) && r.teammateId !in already
            && r.message == Join(TextsFor(pairs, r.teammateId), "\n\n") && |TextsFor(pairs, r.teammateId)| > 0
            && forall t <- TextsFor(pairs, r.teammateId) :: (r.teammateId, t) in pairs && |t| > 0))
      && (forall p <- pairs :: p.0 !in already ==> exists r <- rs :: r.teammateId == p.0)
  {
    var pairs := ResponseSegments(response, current, agents);
    var ids := FirstSeen(pairs);
    FirstSeenIds(pairs);
    EmitProperties(ids, pairs, already);
    var rs := NaturalHandoffs(response, current, agents, already);
    forall r <- rs ensures r.teammateId != current && HasAgent(agents, r.teammateId) && |TextsFor(pairs, r.teammateId)| > 0
      && forall t <- TextsFor(pairs, r.teammateId) :: (r.teammateId, t) in pairs && |t| > 0
    {
      TextsForOwn(pairs, r.teammateId);
      var p :| p in pairs && p.0 == r.teammateId;
    }
    forall p <- pairs | p.0 !in already ensures exists r <- rs :: r.teammateId == p.0 {
      assert p.0 in ids;
    }
  }

  // ----- multi-agent prefix dispatch -----

  predicate IsAtToken(t: string) {
    |t| > 0 && t[0] == '@'
  }

  /** How many tokens, from the front, start with '@'. */
  function AtPrefixLen(tokens: seq<string>): (n: nat)
    ensures n <= |tokens|
    ensures forall k :: 0 <= k < n ==> IsAtToken(tokens[k])
    ensures n < |tokens| ==> !IsAtToken(tokens[n])
  {
    if |tokens| == 0 || !IsAtToken(tokens[0]) then 0
    else
      var n := AtPrefixLen(tokens[1..]);
      assert forall k :: 1 <= k < n + 1 ==> tokens[k] == tokens[1..][k - 1];
      n + 1
  }

  /** The agent an `@` token names: what follows the '@', lower-cased. */
  function TokenId(t: string): string
    requires IsAtToken(t)
  {
    ToLower(t[1..])
  }

  /** The known agents the `@` tokens name, each once, in order of first mention. */
  function KnownIds(tokens: seq<string>, agents: Agents): seq<string>
    requires forall t <- tokens :: IsAtToken(t)
  {
    if |tokens| == 0 then []
    else
      var ids := KnownIds(tokens[..|tokens| - 1], agents);
      var id := TokenId(tokens[|tokens| - 1]);
      if HasAgent(agents, id) && id !in ids then ids + [id] else ids
  }

  /** Some team lists every one of the ids. */
  predicate SameTeam(ids: seq<string>, teams: Teams) {
    exists k :: 0 <= k < |teams| && forall a <- ids :: a in teams[k].1.agents
  }

  lemma KnownIdsStep(tokens: seq<string>, i: nat, agents: Agents)
    requires i < |tokens| && forall k :: 0 <= k <= i ==> IsAtToken(tokens[k])
    ensures forall t <- tokens[..i] :: IsAtToken(t)
    ensures forall t <- tokens[..i + 1] :: IsAtToken(t)
    ensures KnownIds(tokens[..i + 1], agents) ==
      var ids := KnownIds(tokens[..i], agents);
      var id := TokenId(tokens[i]);
      if HasAgent(agents, id) && id !in ids then ids + [id] else ids
  {
    assert tokens[..i + 1][..i] == tokens[..i];
  }

  /** The leading `@` tokens of a message. */
  function AtPrefix(message: string): (ts: seq<string>)
    ensures forall t <- ts :: IsAtToken(t)
  {
    var tokens := SplitWhitespace(message);
    tokens[..AtPrefixLen(tokens)]
  }

  /** What `detect_multiple_agents` returns. */
  function MultipleAgents(message: string, agents: Agents, teams: Teams): seq<string> {
    var ids := KnownIds(AtPrefix(message), agents);
    if |ids| > 1 && SameTeam(ids, teams) then [] else ids
  }

  /**
   * `detect_multiple_agents`: the known agents named by the leading `@` tokens, unless
   * there are several and one team holds them all.
   */
  method DetectMultipleAgents(message: string, agents: Agents, teams: Teams) returns (valid: seq<string>)
    ensures valid == MultipleAgents(message, agents, teams)
  {
    var tokens := SplitWhitespace(message);
    valid := [];
    var i := 0;
    while i < |tokens|
      invariant i <= |tokens|
      invariant forall k :: 0 <= k < i ==> IsAtToken(tokens[k])
      invariant valid == KnownIds(tokens[..i], agents)
    {
      if !IsAtToken(tokens[i]) {
        break;
      }
      var id := TokenId(tokens[i]);
      KnownIdsStep(tokens, i, agents);
      var known := HasAgent(agents, id);
      if known && id !in valid {
        valid := valid + [id];
      }
      i := i + 1;
    }
    assert i == AtPrefixLen(tokens);
    assert tokens[..i] == AtPrefix(message);
    assert valid == KnownIds(AtPrefix(message), agents);
    if |valid| > 1 {
      var together := HeldByOneTeam(valid, teams);
      if together {
        valid := [];
      }
    }
  }

  /** The team loop of `detect_multiple_agents`: whether some team lists all the ids. */
  method HeldByOneTeam(ids: seq<string>, teams: Teams) returns (b: bool)
    ensures b == SameTeam(ids, teams)
  {
    var k := 0;
    while k < |teams|
      invariant k <= |teams|
      invariant !SameTeam(ids, teams[..k])
    {
      if forall a <- ids :: a in teams[k].1.agents {
        return true;
      }
      assert teams[..k + 1] == teams[..k] + [teams[k]];
      k := k + 1;
    }
    assert teams[..k] == teams;
    return false;
  }

  /**
   * The ids `detect_multiple_agents` reports are distinct known agents, each named by a
   * leading `@` token; every known agent such a token names is reported unless one team
   * holds them all; and several ids are never all in one team.
   */
  lemma {:induction false} KnownIdsProperties(tokens: seq<string>, agents: Agents)
    requires forall t <- tokens :: IsAtToken(t)
    ensures var ids := KnownIds(tokens, agents);
      && (forall i, j :: 0 <= i < j < |ids| ==> ids[i] != ids[j])
      && (forall id <- ids :: HasAgent(agents, id) && exists t <- tokens :: TokenId(t) == id)
      && (forall t <- tokens :: HasAgent(agents, TokenId(t)) ==> TokenId(t) in ids)
  {
    if |tokens| > 0 {
      var init := tokens[..|tokens| - 1];
      var last := tokens[|tokens| - 1];
      KnownIdsProperties(init, agents);
      assert tokens == init + [last];
      var ids := KnownIds(tokens, agents);
      forall id <- ids ensures exists t <- tokens :: TokenId(t) == id {
        if id in KnownIds(init, agents) {
          var t :| t in init && TokenId(t) == id;
          assert t in tokens;
        } else {
          assert TokenId(last) == id;
        }
      }
      forall t <- tokens | HasAgent(agents, TokenId(t)) ensures TokenId(t) in ids {
        if t != last {
          assert t in init;
        }
      }
    }
  }

  lemma MultipleAgentsProperties(message: string, agents: Agents, teams: Teams)
    ensures var ms := MultipleAgents(message, agents, teams);
      && (forall i, j :: 0 <= i < j < |ms| ==> ms[i] != ms[j])
      && (forall id <- ms :: HasAgent(agents, id) && IsLower(id) && exists t <- AtPrefix(message) :: TokenId(t) == id)
      && (|ms| > 1 ==> !SameTeam(ms, teams))
      && (ms == [] || forall t <- AtPrefix(message) :: HasAgent(agents, TokenId(t)) ==> TokenId(t) in ms)
  {
    KnownIdsProperties(AtPrefix(message), agents);
    forall t <- AtPrefix(message) ensures IsLower(TokenId(t)) {
      ToLowerIsLower(t[1..]);
    }
  }

  // ----- inbound routing -----

  /** The first agent, in iteration order, whose lower-cased name is `name`. */
  function AgentByName(agents: Agents, name: string): (r: Option<string>)
    ensures r.Some? ==> exists i :: (0 <= i < |agents| && agents[i].0 == r.value && ToLower(agents[i].1.name) == name
                                     && forall j :: 0 <= j < i ==> ToLower(agents[j].1.name) != name)
    ensures r.None? ==> forall i :: 0 <= i < |agents| ==> ToLower(agents[i].1.name) != name
  {
    if |agents| == 0 then None
    else if ToLower(agents[0].1.name) == name then Some(agents[0].0)
    else
      var r := AgentByName(agents[1..], name);
      assert forall i :: 1 <= i < |agents| ==> agents[i] == agents[1..][i - 1];
      if r.Some? then
        var i :| 0 <= i < |agents[1..]| && agents[1..][i].0 == r.value && ToLower(agents[1..][i].1.name) == name
          && forall j :: 0 <= j < i ==> ToLower(agents[1..][j].1.name) != name;
        assert agents[i + 1].0 == r.value;
        r
      else r
  }

  /** The leader of the first team, in iteration order, whose lower-cased name is `name`. */
  function TeamLeaderByName(teams: Teams, name: string): (r: Option<string>)
    ensures r.Some? ==> exists i :: (0 <= i < |teams| && teams[i].1.leaderAgent == r.value && ToLower(teams[i].1.name) == name
                                     && forall j :: 0 <= j < i ==> ToLower(teams[j].1.name) != name)
    ensures r.None? ==> forall i :: 0 <= i < |teams| ==> ToLower(teams[i].1.name) != name
  {
    if |teams| == 0 then None
    else if ToLower(teams[0].1.name) == name then Some(teams[0].1.leaderAgent)
    else
      var r := TeamLeaderByName(teams[1..], name);
      assert forall i :: 1 <= i < |teams| ==> teams[i] == teams[1..][i - 1];
      if r.Some? then
        var i :| 0 <= i < |teams[1..]| && teams[1..][i].1.leaderAgent == r.value && ToLower(teams[1..][i].1.name) == name
          && forall j :: 0 <= j < i ==> ToLower(teams[1..][j].1.name) != name;
        assert teams[i + 1].1.leaderAgent == r.value;
        r
      else r
  }

  /** Resolution of the `@x` of an `@x rest` message: agent id, team id, agent name, team name. */
  function ResolvePrefix(candidate: string, message: string, agents: Agents, teams: Teams): Option<RoutingResult> {
    if HasAgent(agents, candidate) then Some(RoutingResult(candidate, message, false, []))
    else if HasTeam(teams, candidate) then Some(RoutingResult(GetTeam(teams, candidate).value.leaderAgent, message, true, []))
    else match AgentByName(agents, candidate)
      case Some(id) => Some(RoutingResult(id, message, false, []))
      case None =>
        match TeamLeaderByName(teams, candidate)
        case Some(leader) => Some(RoutingResult(leader, message, true, []))
        case None => None
  }

  /** The message a multi-agent dispatch delivers: the tokens after the `@` prefix, or the raw text. */
  function DispatchMessage(raw: string): string {
    var tokens := SplitWhitespace(raw);
    var rest := Join(tokens[AtPrefixLen(tokens)..], " ");
    if |rest| == 0 then raw else rest
  }

  /** The route an `@x rest` prefix resolves to, if the message has one and it resolves. */
  function PrefixRoute(raw: string, agents: Agents, teams: Teams): Option<RoutingResult> {
    match RoutingPrefix(raw)
    case Some((x, message)) => ResolvePrefix(ToLower(x), message, agents, teams)
    case None => None
  }

  /** Keyword routing on the whole message, else the "default" agent. */
  function FallbackRoute(raw: string, agents: Agents): RoutingResult {
    match SmartRouting.Select(agents, raw)
    case Some(id) => RoutingResult(id, raw, false, [])
    case None => RoutingResult("default", raw, false, [])
  }

  /** A multi-agent dispatch drops the leading `@` tokens: what it delivers does not start with one. */
  lemma DispatchMessageStripsPrefix(raw: string)
    ensures var m := DispatchMessage(raw);
      m == raw || (|m| > 0 && m[0] != '@')
  {
    var tokens := SplitWhitespace(raw);
    var n := AtPrefixLen(tokens);
    var rest := tokens[n..];
    if |Join(rest, " ")| > 0 {
      assert |rest| > 0;
      assert rest[0] == tokens[n];
      JoinHead(rest, " ");
    }
  }

  lemma JoinHead(parts: seq<string>, sep: string)
    requires |parts| > 0 && |parts[0]| > 0
    ensures |Join(parts, sep)| > 0 && Join(parts, sep)[0] == parts[0][0]
  {
  }

  /** `parse_agent_routing`. */
  function ParseAgentRouting(raw: string, agents: Agents, teams: Teams): RoutingResult {
    var multi := MultipleAgents(raw, agents, teams);
    if |multi| > 1 then RoutingResult(multi[0], DispatchMessage(raw), false, multi)
    else if PrefixRoute(raw, agents, teams).Some? then PrefixRoute(raw, agents, teams).value
    else FallbackRoute(raw, agents)
  }

  /**
   * Where `parse_agent_routing` sends a message: a multi-agent dispatch goes to the first
   * listed agent; otherwise to a known agent, a team's leader (flagged as a team route),
   * or "default". Only a multi-agent dispatch lists agents, and then at least two.
   */
  lemma ParseAgentRoutingTargets(raw: string, agents: Agents, teams: Teams)
    ensures var r := ParseAgentRouting(raw, agents, teams);
      && (|r.multiAgents| > 0 ==> (|r.multiAgents| > 1 && r.agentId == r.multiAgents[0]
            && r.multiAgents == MultipleAgents(raw, agents, teams) && !r.isTeam))
      && (r.isTeam ==> LeadsATeam(teams, r.agentId))
      && (!r.isTeam ==> r.agentId == "default" || HasAgent(agents, r.agentId))
  {
    MultipleAgentsProperties(raw, agents, teams);
    var multi := MultipleAgents(raw, agents, teams);
    var r := ParseAgentRouting(raw, agents, teams);
    if |multi| > 1 {
      assert r == RoutingResult(multi[0], DispatchMessage(raw), false, multi);
    } else if PrefixRoute(raw, agents, teams).Some? {
      assert r == PrefixRoute(raw, agents, teams).value;
      var x, rest := RoutingPrefix(raw).value.0, RoutingPrefix(raw).value.1;
      ResolvePrefixTargets(ToLower(x), rest, agents, teams);
    } else {
      assert r == FallbackRoute(raw, agents);
      SmartTarget(agents, raw);
    }
  }

  /** Some team has `id` as its leader. */
  predicate LeadsATeam(teams: Teams, id: string) {
    exists k :: 0 <= k < |teams| && teams[k].1.leaderAgent == id
  }

  lemma ResolvePrefixTargets(c: string, message: string, agents: Agents, teams: Teams)
    requires ResolvePrefix(c, message, agents, teams).Some?
    ensures var r := ResolvePrefix(c, message, agents, teams).value;
      && r.message == message && r.multiAgents == []
      && (r.isTeam ==> LeadsATeam(teams, r.agentId))
      && (!r.isTeam ==> HasAgent(agents, r.agentId))
  {
    if !HasAgent(agents, c) && HasTeam(teams, c) {
      var k :| 0 <= k < |teams| && teams[k] == (c, GetTeam(teams, c).value);
    }
  }

  lemma SmartTarget(agents: Agents, raw: string)
    ensures SmartRouting.Select(agents, raw).Some? ==> HasAgent(agents, SmartRouting.Select(agents, raw).value)
  {
    if SmartRouting.Select(agents, raw).Some? {
      SmartRouting.WinnerStrictlyBeatsOthers(agents, raw, SmartRouting.Select(agents, raw).value);
    }
  }

  /**
   * An `@x rest` message that is not a multi-agent dispatch: a prefix that resolves
   * decides the route and delivers `rest`; one that does not leaves the message whole
   * for keyword routing and, failing that, the "default" agent.
   */
  lemma ParseAgentRoutingOrder(raw: string, x: string, rest: string, agents: Agents, teams: Teams)
    requires |MultipleAgents(raw, agents, teams)| <= 1 && RoutingPrefix(raw) == Some((x, rest))
    ensures var r := ParseAgentRouting(raw, agents, teams);
      var p := ResolvePrefix(ToLower(x), rest, agents, teams);
      && (p.Some? ==> r == p.value && r.message == rest && r.multiAgents == [])
      && (p.None? ==>
            r.message == raw && !r.isTeam && r.multiAgents == []
            && r.agentId == (if SmartRouting.Select(agents, raw).Some? then SmartRouting.Select(agents, raw).value else "default"))
  {
    PrefixRouting(raw, x, rest, agents, teams);
    if ResolvePrefix(ToLower(x), rest, agents, teams).Some? {
      ResolvePrefixTargets(ToLower(x), rest, agents, teams);
    }
  }

  /** Without a multi-agent dispatch, a resolving prefix decides the route and keyword routing takes the rest. */
  lemma PrefixRouting(raw: string, x: string, rest: string, agents: Agents, teams: Teams)
    requires |MultipleAgents(raw, agents, teams)| <= 1 && RoutingPrefix(raw) == Some((x, rest))
    ensures var p := ResolvePrefix(ToLower(x), rest, agents, teams);
      ParseAgentRouting(raw, agents, teams) == if p.Some? then p.value else FallbackRoute(raw, agents)
  {
    assert PrefixRoute(raw, agents, teams) == ResolvePrefix(ToLower(x), rest, agents, teams);
  }

  /**
   * The resolution order of the lower-cased `x`: as an agent id first, then as a team id
   * (its leader, flagged as a team route), then as an agent name, then as a team name.
   */
  lemma ResolvePrefixOrder(c: string, rest: string, agents: Agents, teams: Teams)
    ensures var p := ResolvePrefix(c, rest, agents, teams);
      && (HasAgent(agents, c) ==> p == Some(RoutingResult(c, rest, false, [])))
      && (!HasAgent(agents, c) && HasTeam(teams, c) ==>
            p == Some(RoutingResult(GetTeam(teams, c).value.leaderAgent, rest, true, [])))
      && (!HasAgent(agents, c) && !HasTeam(teams, c) && AgentByName(agents, c).Some? ==>
            p == Some(RoutingResult(AgentByName(agents, c).value, rest, false, [])))
      && (!HasAgent(agents, c) && !HasTeam(teams, c) && AgentByName(agents, c).None? && TeamLeaderByName(teams, c).Some? ==>
            p == Some(RoutingResult(TeamLeaderByName(teams, c).value, rest, true, [])))
      && (!HasAgent(agents, c) && !HasTeam(teams, c) && AgentByName(agents, c).None? && TeamLeaderByName(teams, c).None? ==>
            p.None?)
  {
  }
}
