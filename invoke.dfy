/**
 * Invoking an agent's command-line backend: reading the backends' JSON-lines output,
 * resolving the working directory, and trying the primary model and then the fallback
 * models while honouring cooldowns.
 *
 * The subprocess is an oracle: `backend(attempt, agent)` is what the command returns
 * for the attempt with that number (0 for the primary model, i + 1 for fallback i),
 * run for the given agent configuration. JSON decoding is an oracle too: `decode`
 * maps an output line to the few fields the parsers read.
 */
module Invoke {
  import opened Wrappers
  import opened Text
  import opened Types
  import opened Failover

  /** A nested JSON object as far as the parsers look into it: its "type" and "text" strings. */
  datatype Inner = Inner(kind: Option<string>, text: Option<string>)

  /**
   * One output line after `serde_json::from_str`: not JSON at all, or an object with its
   * "type" string and its "item" and "part" objects. A field that is missing or not a
   * string is `None`.
   */
  datatype JsonLine = NotJson | Object(kind: Option<string>, item: Option<Inner>, part: Option<Inner>)

  const CodexApology := "Sorry, I could not generate a response from Codex."
  const OpenCodeApology := "Sorry, I could not generate a response from OpenCode."

  /** The text a Codex line contributes: a completed item of type agent_message that has a text. */
  function CodexText(line: JsonLine): Option<string> {
    if line.Object? && line.kind == Some("item.completed") && line.item.Some?
       && line.item.value.kind == Some("agent_message")
    then line.item.value.text
    else None
  }

  /** The text an OpenCode line contributes: a "text" event whose part has a text. */
  function OpenCodeText(line: JsonLine): Option<string> {
    if line.Object? && line.kind == Some("text") && line.part.Some? then line.part.value.text else None
  }

  /** The text of the last line that contributes one, or "" when none does. */
  function LastText(lines: seq<string>, decode: string -> JsonLine, pick: JsonLine -> Option<string>): string
    decreases |lines|
  {
    if |lines| == 0 then ""
    else match pick(decode(lines[|lines| - 1]))
      case Some(t) => t
      case None => LastText(lines[..|lines| - 1], decode, pick)
  }

  /** What `parse_codex_output` returns for the raw output. */
  function CodexReply(raw: string, decode: string -> JsonLine): string {
    var r := LastText(Lines(Trim(raw)), decode, CodexText);
    if r == "" then CodexApology else r
  }

  /** What `parse_opencode_output` returns for the raw output. */
  function OpenCodeReply(raw: string, decode: string -> JsonLine): string {
    var r := LastText(Lines(Trim(raw)), decode, OpenCodeText);
    if r == "" then OpenCodeApology else r
  }

  /** Line `i` contributes a text and no later line does. */
  predicate LastHit(lines: seq<string>, decode: string -> JsonLine, pick: JsonLine -> Option<string>, i: int) {
    0 <= i < |lines| && pick(decode(lines[i])).Some?
    && forall j :: i < j < |lines| ==> pick(decode(lines[j])).None?
  }

  /** The last contributing line wins: its text is the result, whatever the earlier lines held. */
  lemma {:induction false} LastTextIsLastHit(lines: seq<string>, decode: string -> JsonLine, pick: JsonLine -> Option<string>)
    ensures forall i :: LastHit(lines, decode, pick, i) ==> LastText(lines, decode, pick) == pick(decode(lines[i])).value
    decreases |lines|
  {
    if |lines| > 0 {
      var n := |lines|;
      var init := lines[..n - 1];
      var last := lines[n - 1];
      match pick(decode(last))
      case Some(t) =>
        assert LastText(lines, decode, pick) == t;
        forall i | LastHit(lines, decode, pick, i) ensures LastText(lines, decode, pick) == pick(decode(lines[i])).value {
          assert i == n - 1 || pick(decode(last)).None?;
        }
      case None =>
        LastTextIsLastHit(init, decode, pick);
        assert LastText(lines, decode, pick) == LastText(init, decode, pick);
        forall i | LastHit(lines, decode, pick, i) ensures LastText(lines, decode, pick) == pick(decode(lines[i])).value {
          assert i != n - 1;
          assert init[i] == lines[i];
          forall j | i < j < |init| ensures pick(decode(init[j])).None? {
            assert init[j] == lines[j];
          }
          assert LastHit(init, decode, pick, i);
        }
    }
  }

  /** When no line contributes, the result is empty. */
  lemma {:induction false} LastTextNone(lines: seq<string>, decode: string -> JsonLine, pick: JsonLine -> Option<string>)
    requires forall i :: 0 <= i < |lines| ==> pick(decode(lines[i])).None?
    ensures LastText(lines, decode, pick) == ""
    decreases |lines|
  {
    if |lines| > 0 {
      var init := lines[..|lines| - 1];
      assert forall i :: 0 <= i < |init| ==> init[i] == lines[i];
      LastTextNone(init, decode, pick);
    }
  }

  lemma LastTextStep(lines: seq<string>, i: nat, decode: string -> JsonLine, pick: JsonLine -> Option<string>)
    requires i < |lines|
    ensures LastText(lines[..i + 1], decode, pick)
            == (match pick(decode(lines[i])) case Some(t) => t case None => LastText(lines[..i], decode, pick))
  {
    assert lines[..i + 1][..i] == lines[..i];
  }

  /** `parse_codex_output`: the text of the last completed agent message, or an apology. */
  method ParseCodexOutput(raw: string, decode: string -> JsonLine) returns (r: string)
    ensures r == CodexReply(raw, decode)
  {
    var response := ScanCodexLines(Lines(Trim(raw)), decode);
    r := if response == "" then CodexApology else response;
  }

  /** The loop of `parse_codex_output` over the output's lines: the last text seen wins. */
  method ScanCodexLines(lines: seq<string>, decode: string -> JsonLine) returns (response: string)
    ensures response == LastText(lines, decode, CodexText)
  {
    response := "";
    for i := 0 to |lines|
      invariant response == LastText(lines[..i], decode, CodexText)
    {
      ghost var before := response;
      LastTextStep(lines, i, decode, CodexText);
      var json := decode(lines[i]);
      if json.Object? && json.kind == Some("item.completed") {
        if json.item.Some? {
          var item := json.item.value;
          if item.kind == Some("agent_message") {
            if item.text.Some? {
              response := item.text.value;
            }
          }
        }
      }
      assert response == (match CodexText(json) case Some(t) => t case None => before);
    }
    assert lines[..|lines|] == lines;
  }

  /** `parse_opencode_output`: the text of the last text event, or an apology. */
  method ParseOpenCodeOutput(raw: string, decode: string -> JsonLine) returns (r: string)
    ensures r == OpenCodeReply(raw, decode)
  {
    var response := ScanOpenCodeLines(Lines(Trim(raw)), decode);
    r := if response == "" then OpenCodeApology else response;
  }

  /** The loop of `parse_opencode_output` over the output's lines: the last text seen wins. */
  method ScanOpenCodeLines(lines: seq<string>, decode: string -> JsonLine) returns (response: string)
    ensures response == LastText(lines, decode, OpenCodeText)
  {
    response := "";
    for i := 0 to |lines|
      invariant response == LastText(lines[..i], decode, OpenCodeText)
    {
      ghost var before := response;
      LastTextStep(lines, i, decode, OpenCodeText);
      var json := decode(lines[i]);
      if json.Object? && json.kind == Some("text") {
        if json.part.Some? {
          var part := json.part.value;
          if part.text.Some? {
            response := part.text.value;
          }
        }
      }
      assert response == (match OpenCodeText(json) case Some(t) => t case None => before);
    }
    assert lines[..|lines|] == lines;
  }

  /**
   * The reply is the last completed agent message of the trimmed output's lines when
   * that text is non-empty, and the apology otherwise; lines that are not JSON or are
   * other events never contribute.
   */
  lemma CodexReplyProperties(raw: string, decode: string -> JsonLine)
    ensures var lines := Lines(Trim(raw));
      && (forall i :: LastHit(lines, decode, CodexText, i) && CodexText(decode(lines[i])).value != ""
                      ==> CodexReply(raw, decode) == CodexText(decode(lines[i])).value)
      && ((forall i :: 0 <= i < |lines| ==> CodexText(decode(lines[i])).None?) ==> CodexReply(raw, decode) == CodexApology)
  {
    LastTextIsLastHit(Lines(Trim(raw)), decode, CodexText);
    if forall i :: 0 <= i < |Lines(Trim(raw))| ==> CodexText(decode(Lines(Trim(raw))[i])).None? {
      LastTextNone(Lines(Trim(raw)), decode, CodexText);
    }
  }

  /** The same for OpenCode's text events. */
  lemma OpenCodeReplyProperties(raw: string, decode: string -> JsonLine)
    ensures var lines := Lines(Trim(raw));
      && (forall i :: LastHit(lines, decode, OpenCodeText, i) && OpenCodeText(decode(lines[i])).value != ""
                      ==> OpenCodeReply(raw, decode) == OpenCodeText(decode(lines[i])).value)
      && ((forall i :: 0 <= i < |lines| ==> OpenCodeText(decode(lines[i])).None?) ==> OpenCodeReply(raw, decode) == OpenCodeApology)
  {
    LastTextIsLastHit(Lines(Trim(raw)), decode, OpenCodeText);
    if forall i :: 0 <= i < |Lines(Trim(raw))| ==> OpenCodeText(decode(Lines(Trim(raw))[i])).None? {
      LastTextNone(Lines(Trim(raw)), decode, OpenCodeText);
    }
  }

  // ----- working directory -----

  /**
   * The directory the backend runs in: the agent's own directory under the workspace when
   * none is configured, the configured path when it is absolute, and the configured path
   * under the workspace otherwise.
   */
  function WorkingDirectory(agent: AgentConfig, agentId: string, workspace: string): (dir: string)
  {
    if agent.workingDirectory == "" then JoinPath(workspace, agentId)
    else if IsAbsolute(agent.workingDirectory) then agent.workingDirectory
    else JoinPath(workspace, agent.workingDirectory)
  }

  /** Every relative choice lands inside the workspace, so an absolute workspace gives an absolute directory. */
  lemma WorkingDirectoryProperties(agent: AgentConfig, agentId: string, workspace: string)
    ensures var dir := WorkingDirectory(agent, agentId, workspace);
      && (IsAbsolute(agent.workingDirectory) ==> dir == agent.workingDirectory)
      && (agent.workingDirectory == "" && !IsAbsolute(agentId) ==> StartsWith(dir, workspace) && EndsWith(dir, agentId))
      && (agent.workingDirectory != "" && !IsAbsolute(agent.workingDirectory)
          ==> StartsWith(dir, workspace) && EndsWith(dir, agent.workingDirectory))
      && (IsAbsolute(workspace) && !IsAbsolute(agentId) ==> IsAbsolute(dir))
  {
  }

  // ----- failover -----

  function NoFallbacksMessage(agentId: string): string {
    "Primary model failed and no fallbacks configured for agent " + agentId
  }

  function AllFailedMessage(agentId: string, count: nat): string {
    "All models failed for agent " + agentId + " (primary + " + NatToString(count) + " fallbacks)"
  }

  /** The fallbacks from position `from` on: the first success and the cooldowns it leaves. */
  function TryFallbacks(m: CooldownMap, agent: AgentConfig, fallbacks: seq<string>, from: nat,
                        backend: (nat, AgentConfig) -> Result<string, string>, now: nat): (Option<string>, CooldownMap)
    requires from <= |fallbacks|
    decreases |fallbacks| - from
  {
    if from == |fallbacks| then (None, m)
    else
      var key := CooldownKey(agent.provider, fallbacks[from]);
      if InCooldown(m, key, now) then TryFallbacks(m, agent, fallbacks, from + 1, backend, now)
      else match backend(from + 1, agent.(model := fallbacks[from]))
        case Ok(t) => (Some(t), m - {key})
        case Err(_) => TryFallbacks(Recorded(m, key, now), agent, fallbacks, from + 1, backend, now)
  }

  /** The result of `invoke_agent_with_failover` and the cooldowns it leaves behind. */
  function FailoverOutcome(m: CooldownMap, agent: AgentConfig, agentId: string,
                           backend: (nat, AgentConfig) -> Result<string, string>, now: nat): (Result<string, string>, CooldownMap)
  {
    var primaryKey := CooldownKey(agent.provider, agent.model);
    if !InCooldown(m, primaryKey, now) && backend(0, agent).Ok? then (Ok(backend(0, agent).value), m - {primaryKey})
    else
      var afterPrimary := if InCooldown(m, primaryKey, now) then m else Recorded(m, primaryKey, now);
      var fallbacks := agent.fallbacks.UnwrapOr([]);
      if |fallbacks| == 0 then (Err(NoFallbacksMessage(agentId)), afterPrimary)
      else match TryFallbacks(afterPrimary, agent, fallbacks, 0, backend, now)
        case (Some(t), after) => (Ok(t), after)
        case (None, after) => (Err(AllFailedMessage(agentId, |fallbacks|)), after)
  }

  /**
   * `invoke_agent_with_failover` on the loaded cooldown store: the primary model unless it
   * is cooling down, then each fallback in order with only the model replaced, skipping
   * those cooling down; a success clears its key, a failure records one against it.
   */
  method InvokeWithFailover(store: Cooldowns, agent: AgentConfig, agentId: string,
                            backend: (nat, AgentConfig) -> Result<string, string>, now: nat)
    returns (r: Result<string, string>)
    modifies store
    ensures (r, store.entries) == FailoverOutcome(old(store.entries), agent, agentId, backend, now)
  {
    var primaryKey := CooldownKey(agent.provider, agent.model);
    if !store.IsInCooldown(primaryKey, now) {
      var outcome := backend(0, agent);
      match outcome {
        case Ok(response) =>
          store.ClearCooldown(primaryKey);
          return Ok(response);
        case Err(e) =>
          var reason := ClassifyError(e);
          store.RecordFailure(primaryKey, reason, now);
      }
    }
    var fallbacks := agent.fallbacks.UnwrapOr([]);
    if |fallbacks| == 0 {
      return Err(NoFallbacksMessage(agentId));
    }
    ghost var afterPrimary := store.entries;
    for i := 0 to |fallbacks|
      invariant TryFallbacks(store.entries, agent, fallbacks, i, backend, now)
                == TryFallbacks(afterPrimary, agent, fallbacks, 0, backend, now)
    {
      var key := CooldownKey(agent.provider, fallbacks[i]);
      if store.IsInCooldown(key, now) {
        continue;
      }
      var outcome := backend(i + 1, agent.(model := fallbacks[i]));
      match outcome {
        case Ok(response) =>
          store.ClearCooldown(key);
          return Ok(response);
        case Err(e) =>
          var reason := ClassifyError(e);
          store.RecordFailure(key, reason, now);
      }
    }
    return Err(AllFailedMessage(agentId, |fallbacks|));
  }

  /** The cooldown key of every model the failover may try, primary first. */
  function CandidateKeys(agent: AgentConfig): set<string> {
    {CooldownKey(agent.provider, agent.model)}
    + set f | f in agent.fallbacks.UnwrapOr([]) :: CooldownKey(agent.provider, f)
  }

  lemma {:induction false} TryFallbacksFailure(m: CooldownMap, agent: AgentConfig, fallbacks: seq<string>, from: nat,
                                               backend: (nat, AgentConfig) -> Result<string, string>, now: nat)
    requires from <= |fallbacks|
    requires TryFallbacks(m, agent, fallbacks, from, backend, now).0.None?
    ensures var after := TryFallbacks(m, agent, fallbacks, from, backend, now).1;
      && (forall j :: from <= j < |fallbacks| ==> InCooldown(after, CooldownKey(agent.provider, fallbacks[j]), now))
      && (forall k :: InCooldown(m, k, now) ==> InCooldown(after, k, now))
    decreases |fallbacks| - from
  {
    if from < |fallbacks| {
      var key := CooldownKey(agent.provider, fallbacks[from]);
      if InCooldown(m, key, now) {
        TryFallbacksFailure(m, agent, fallbacks, from + 1, backend, now);
      } else {
        RecordedProperties(m, key, now);
        TryFallbacksFailure(Recorded(m, key, now), agent, fallbacks, from + 1, backend, now);
      }
    }
  }

  lemma {:induction false} TryFallbacksSuccess(m: CooldownMap, agent: AgentConfig, fallbacks: seq<string>, from: nat,
                                               backend: (nat, AgentConfig) -> Result<string, string>, now: nat)
    requires from <= |fallbacks|
    requires TryFallbacks(m, agent, fallbacks, from, backend, now).0.Some?
    ensures var (t, after) := TryFallbacks(m, agent, fallbacks, from, backend, now);
      exists j :: from <= j < |fallbacks| && !InCooldown(m, CooldownKey(agent.provider, fallbacks[j]), now)
                  && backend(j + 1, agent.(model := fallbacks[j])) == Ok(t.value)
                  && CooldownKey(agent.provider, fallbacks[j]) !in after
    decreases |fallbacks| - from
  {
    var key := CooldownKey(agent.provider, fallbacks[from]);
    if InCooldown(m, key, now) {
      TryFallbacksSuccess(m, agent, fallbacks, from + 1, backend, now);
    } else if backend(from + 1, agent.(model := fallbacks[from])).Err? {
      RecordedProperties(m, key, now);
      TryFallbacksSuccess(Recorded(m, key, now), agent, fallbacks, from + 1, backend, now);
    }
  }

  lemma {:induction false} TryFallbacksFrame(m: CooldownMap, agent: AgentConfig, fallbacks: seq<string>, from: nat,
                                             backend: (nat, AgentConfig) -> Result<string, string>, now: nat, k: string)
    requires from <= |fallbacks|
    requires forall j :: from <= j < |fallbacks| ==> k != CooldownKey(agent.provider, fallbacks[j])
    ensures var after := TryFallbacks(m, agent, fallbacks, from, backend, now).1;
      (k in after <==> k in m) && (k in m ==> after[k] == m[k])
    decreases |fallbacks| - from
  {
    if from < |fallbacks| {
      var key := CooldownKey(agent.provider, fallbacks[from]);
      if InCooldown(m, key, now) {
        TryFallbacksFrame(m, agent, fallbacks, from + 1, backend, now, k);
      } else if backend(from + 1, agent.(model := fallbacks[from])).Err? {
        TryFallbacksFrame(Recorded(m, key, now), agent, fallbacks, from + 1, backend, now, k);
      }
    }
  }

  /** A primary model that is not cooling down and answers is the answer, and only its key is cleared. */
  lemma FailoverPrimaryFirst(m: CooldownMap, agent: AgentConfig, agentId: string,
                             backend: (nat, AgentConfig) -> Result<string, string>, now: nat)
    requires !InCooldown(m, CooldownKey(agent.provider, agent.model), now) && backend(0, agent).Ok?
    ensures FailoverOutcome(m, agent, agentId, backend, now).0 == Ok(backend(0, agent).value)
    ensures var after := FailoverOutcome(m, agent, agentId, backend, now).1;
      forall k :: k != CooldownKey(agent.provider, agent.model) ==> (k in after <==> k in m) && (k in m ==> after[k] == m[k])
  {
  }

  /** A primary model cooling down is never asked: the outcome does not depend on attempt 0. */
  lemma FailoverSkipsCoolingPrimary(m: CooldownMap, agent: AgentConfig, agentId: string,
                                    b1: (nat, AgentConfig) -> Result<string, string>,
                                    b2: (nat, AgentConfig) -> Result<string, string>, now: nat)
    requires InCooldown(m, CooldownKey(agent.provider, agent.model), now)
    requires forall i: nat, a: AgentConfig :: i > 0 ==> b1(i, a) == b2(i, a)
    ensures FailoverOutcome(m, agent, agentId, b1, now) == FailoverOutcome(m, agent, agentId, b2, now)
  {
    var fallbacks := agent.fallbacks.UnwrapOr([]);
    if |fallbacks| > 0 {
      SameLaterAttempts(m, agent, fallbacks, 0, b1, b2, now);
    }
  }

  lemma {:induction false} SameLaterAttempts(m: CooldownMap, agent: AgentConfig, fallbacks: seq<string>, from: nat,
                                             b1: (nat, AgentConfig) -> Result<string, string>,
                                             b2: (nat, AgentConfig) -> Result<string, string>, now: nat)
    requires from <= |fallbacks|
    requires forall i: nat, a: AgentConfig :: i > 0 ==> b1(i, a) == b2(i, a)
    ensures TryFallbacks(m, agent, fallbacks, from, b1, now) == TryFallbacks(m, agent, fallbacks, from, b2, now)
    decreases |fallbacks| - from
  {
    if from < |fallbacks| {
      var key := CooldownKey(agent.provider, fallbacks[from]);
      assert b1(from + 1, agent.(model := fallbacks[from])) == b2(from + 1, agent.(model := fallbacks[from]));
      SameLaterAttempts(m, agent, fallbacks, from + 1, b1, b2, now);
      SameLaterAttempts(Recorded(m, key, now), agent, fallbacks, from + 1, b1, b2, now);
    }
  }

  /** Without fallbacks the call fails as soon as the primary model did not answer, including when it was skipped. */
  lemma FailoverWithoutFallbacks(m: CooldownMap, agent: AgentConfig, agentId: string,
                                 backend: (nat, AgentConfig) -> Result<string, string>, now: nat)
    requires agent.fallbacks.UnwrapOr([]) == []
    ensures var r := FailoverOutcome(m, agent, agentId, backend, now).0;
      (r.Ok? <==> !InCooldown(m, CooldownKey(agent.provider, agent.model), now) && backend(0, agent).Ok?)
      && (r.Err? ==> r == Err(NoFallbacksMessage(agentId)))
  {
  }

  /** Every answer comes from a model that was not cooling down, and that model's key is cleared. */
  lemma FailoverAnswerSource(m: CooldownMap, agent: AgentConfig, agentId: string,
                             backend: (nat, AgentConfig) -> Result<string, string>, now: nat)
    requires FailoverOutcome(m, agent, agentId, backend, now).0.Ok?
    ensures var (r, after) := FailoverOutcome(m, agent, agentId, backend, now);
      || (!InCooldown(m, CooldownKey(agent.provider, agent.model), now) && backend(0, agent) == Ok(r.value)
          && CooldownKey(agent.provider, agent.model) !in after)
      || (exists j :: 0 <= j < |agent.fallbacks.UnwrapOr([])|
            && var f := agent.fallbacks.UnwrapOr([])[j];
               !InCooldown(m, CooldownKey(agent.provider, f), now)
               && backend(j + 1, agent.(model := f)) == Ok(r.value)
               && CooldownKey(agent.provider, f) !in after)
  {
    var primaryKey := CooldownKey(agent.provider, agent.model);
    if InCooldown(m, primaryKey, now) || backend(0, agent).Err? {
      var afterPrimary := if InCooldown(m, primaryKey, now) then m else Recorded(m, primaryKey, now);
      var fallbacks := agent.fallbacks.UnwrapOr([]);
      TryFallbacksSuccess(afterPrimary, agent, fallbacks, 0, backend, now);
      var j :| 0 <= j < |fallbacks| && !InCooldown(afterPrimary, CooldownKey(agent.provider, fallbacks[j]), now)
               && backend(j + 1, agent.(model := fallbacks[j])) == Ok(FailoverOutcome(m, agent, agentId, backend, now).0.value)
               && CooldownKey(agent.provider, fallbacks[j]) !in FailoverOutcome(m, agent, agentId, backend, now).1;
      if !InCooldown(m, primaryKey, now) {
        RecordedProperties(m, primaryKey, now);
      }
    }
  }

  /** When the call fails, the primary model and every fallback are cooling down afterwards. */
  lemma FailoverErrorCoolsEveryCandidate(m: CooldownMap, agent: AgentConfig, agentId: string,
                                         backend: (nat, AgentConfig) -> Result<string, string>, now: nat)
    requires FailoverOutcome(m, agent, agentId, backend, now).0.Err?
    ensures forall k <- CandidateKeys(agent) :: InCooldown(FailoverOutcome(m, agent, agentId, backend, now).1, k, now)
  {
    var primaryKey := CooldownKey(agent.provider, agent.model);
    var afterPrimary := if InCooldown(m, primaryKey, now) then m else Recorded(m, primaryKey, now);
    RecordedProperties(m, primaryKey, now);
    assert InCooldown(afterPrimary, primaryKey, now);
    var fallbacks := agent.fallbacks.UnwrapOr([]);
    if |fallbacks| > 0 {
      TryFallbacksFailure(afterPrimary, agent, fallbacks, 0, backend, now);
      forall k <- CandidateKeys(agent) ensures InCooldown(FailoverOutcome(m, agent, agentId, backend, now).1, k, now) {
        if k != primaryKey {
          var f :| f in fallbacks && k == CooldownKey(agent.provider, f);
          var j :| 0 <= j < |fallbacks| && fallbacks[j] == f;
        }
      }
    }
  }

  /** The failover changes no cooldown entry other than those of the models it may try. */
  lemma FailoverTouchesOnlyCandidates(m: CooldownMap, agent: AgentConfig, agentId: string,
                                      backend: (nat, AgentConfig) -> Result<string, string>, now: nat, k: string)
    requires k !in CandidateKeys(agent)
    ensures var after := FailoverOutcome(m, agent, agentId, backend, now).1;
      (k in after <==> k in m) && (k in m ==> after[k] == m[k])
  {
    var primaryKey := CooldownKey(agent.provider, agent.model);
    var afterPrimary := if InCooldown(m, primaryKey, now) then m else Recorded(m, primaryKey, now);
    var fallbacks := agent.fallbacks.UnwrapOr([]);
    if |fallbacks| > 0 {
      forall j | 0 <= j < |fallbacks| ensures k != CooldownKey(agent.provider, fallbacks[j]) {
        assert fallbacks[j] in fallbacks;
      }
      TryFallbacksFrame(afterPrimary, agent, fallbacks, 0, backend, now, k);
    }
  }
}
