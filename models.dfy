/**
 * The model-id tables: each backend maps the names an agent's config may use to
 * the id its command line expects, and passes any other name through unchanged.
 * The tables are only looked up, never iterated, so they are maps.
 */
module Models {

  const ClaudeModelIds: map<string, string> := map[
    "sonnet" := "claude-sonnet-4-5",
    "opus" := "claude-opus-4-6",
    "claude-sonnet-4-5" := "claude-sonnet-4-5",
    "claude-opus-4-6" := "claude-opus-4-6"]

  const CodexModelIds: map<string, string> := map[
    "gpt-5.2" := "gpt-5.2",
    "gpt-5.3-codex" := "gpt-5.3-codex"]

  /** The full OpenCode ids, each of which the table maps to itself. */
  const OpenCodeFullIds: set<string> := {
    "opencode/claude-opus-4-6",
    "opencode/claude-sonnet-4-5",
    "opencode/gemini-3-flash",
    "opencode/gemini-3-pro",
    "opencode/glm-5",
    "opencode/kimi-k2.5",
    "opencode/kimi-k2.5-free",
    "opencode/minimax-m2.5",
    "opencode/minimax-m2.5-free",
    "anthropic/claude-opus-4-6",
    "anthropic/claude-sonnet-4-5",
    "openai/gpt-5.2",
    "openai/gpt-5.3-codex",
    "openai/gpt-5.3-codex-spark"}

  /** The full ids, then the two shorthand aliases. */
  const OpenCodeModelIds: map<string, string> :=
    (map id | id in OpenCodeFullIds :: id)["sonnet" := "opencode/claude-sonnet-4-5"]["opus" := "opencode/claude-opus-4-6"]

  /** A table lookup that falls back to the name itself. */
  function Lookup(table: map<string, string>, model: string): (r: string)
    ensures model in table ==> r == table[model]
    ensures model !in table ==> r == model
  {
    if model in table then table[model] else model
  }

  /** Every id a table maps to is itself a key that maps to itself. */
  predicate Closed(table: map<string, string>) {
    forall k <- table :: table[k] in table && table[table[k]] == table[k]
  }

  /** Over a closed table, resolving twice is resolving once. */
  lemma LookupIdempotent(table: map<string, string>, model: string)
    requires Closed(table)
    ensures Lookup(table, Lookup(table, model)) == Lookup(table, model)
  {
    if model in table {
      assert table[model] in table && table[table[model]] == table[model];
    }
  }

  /** `resolve_claude_model`. */
  function ResolveClaudeModel(model: string): string {
    Lookup(ClaudeModelIds, model)
  }

  /** `resolve_codex_model`. */
  function ResolveCodexModel(model: string): string {
    Lookup(CodexModelIds, model)
  }

  /** `resolve_opencode_model`. */
  function ResolveOpenCodeModel(model: string): string {
    Lookup(OpenCodeModelIds, model)
  }

  /** For Claude the shorthands name the current Sonnet and Opus ids, the full ids stay, anything else passes through. */
  lemma ClaudeModels(model: string)
    ensures ResolveClaudeModel("sonnet") == "claude-sonnet-4-5"
    ensures ResolveClaudeModel("opus") == "claude-opus-4-6"
    ensures ResolveClaudeModel("claude-sonnet-4-5") == "claude-sonnet-4-5"
    ensures ResolveClaudeModel("claude-opus-4-6") == "claude-opus-4-6"
    ensures model !in {"sonnet", "opus", "claude-sonnet-4-5", "claude-opus-4-6"} ==> ResolveClaudeModel(model) == model
  {
  }

  /** The Codex table is the identity on its two ids, and every name passes through unchanged. */
  lemma CodexModels(model: string)
    ensures ResolveCodexModel(model) == model
  {
  }

  /** For OpenCode the shorthands name the `opencode/` ids; full ids and unknown names pass through. */
  lemma OpenCodeModels(model: string)
    ensures ResolveOpenCodeModel("sonnet") == "opencode/claude-sonnet-4-5"
    ensures ResolveOpenCodeModel("opus") == "opencode/claude-opus-4-6"
    ensures model != "sonnet" && model != "opus" ==> ResolveOpenCodeModel(model) == model
  {
  }

  /** Both Claude shorthands name full ids that the table keeps as they are. */
  lemma ClaudeClosed()
    ensures Closed(ClaudeModelIds)
  {
  }

  /** Every id the OpenCode table gives is a full id, which the table keeps as it is. */
  lemma OpenCodeClosed()
    ensures Closed(OpenCodeModelIds)
  {
    assert "sonnet" !in OpenCodeFullIds && "opus" !in OpenCodeFullIds;
    forall k <- OpenCodeModelIds ensures OpenCodeModelIds[k] in OpenCodeFullIds {
    }
  }

  /** All three tables are closed, so resolving an already resolved name changes nothing. */
  lemma ResolveIdempotent(model: string)
    ensures ResolveClaudeModel(ResolveClaudeModel(model)) == ResolveClaudeModel(model)
    ensures ResolveCodexModel(ResolveCodexModel(model)) == ResolveCodexModel(model)
    ensures ResolveOpenCodeModel(ResolveOpenCodeModel(model)) == ResolveOpenCodeModel(model)
  {
    ClaudeClosed();
    OpenCodeClosed();
    LookupIdempotent(ClaudeModelIds, model);
    LookupIdempotent(OpenCodeModelIds, model);
  }
}
