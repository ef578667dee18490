/**
 * When a session has accumulated enough characters to be summarised and restarted.
 * Token counts are estimated at four characters per token.
 */
module Compaction {
  import opened Wrappers

  const CharsPerToken: nat := 4
  const DefaultContextWindow: nat := 200000
  const DefaultReserveTokens: nat := 40000

  /** `compaction_threshold_chars`: the usable tokens (window minus reserve, never below 0) in characters. */
  function ThresholdChars(contextWindow: nat, reserveTokens: nat): (t: nat)
    ensures reserveTokens >= contextWindow ==> t == 0
    ensures reserveTokens < contextWindow ==> t == (contextWindow - reserveTokens) * CharsPerToken
  {
    (if contextWindow >= reserveTokens then contextWindow - reserveTokens else 0) * CharsPerToken
  }

  /** `should_compact`: strictly more characters than the threshold. */
  predicate ShouldCompact(totalChars: nat, contextWindow: nat, reserveTokens: nat) {
    totalChars > ThresholdChars(contextWindow, reserveTokens)
  }

  /** `resolve_context_window`: the agent's window, or 200000 tokens. */
  function ResolveContextWindow(agentContextWindow: Option<nat>): (w: nat)
    ensures agentContextWindow.Some? ==> w == agentContextWindow.value
    ensures agentContextWindow.None? ==> w == DefaultContextWindow
  {
    agentContextWindow.UnwrapOr(DefaultContextWindow)
  }

  /** The default window and reserve give 640000 characters; exactly that many does not compact, one more does. */
  lemma DefaultThreshold()
    ensures ThresholdChars(DefaultContextWindow, DefaultReserveTokens) == 640000
    ensures !ShouldCompact(640000, DefaultContextWindow, DefaultReserveTokens)
    ensures ShouldCompact(640001, DefaultContextWindow, DefaultReserveTokens)
  {
  }

  /** A reserve at least as large as the window compacts every non-empty session. */
  lemma ReserveSwallowsWindow(totalChars: nat, contextWindow: nat, reserveTokens: nat)
    requires reserveTokens >= contextWindow
    ensures ShouldCompact(totalChars, contextWindow, reserveTokens) <==> totalChars > 0
  {
  }

  /** More characters never turn compaction off. */
  lemma ShouldCompactMonotone(t: nat, u: nat, contextWindow: nat, reserveTokens: nat)
    requires t <= u && ShouldCompact(t, contextWindow, reserveTokens)
    ensures ShouldCompact(u, contextWindow, reserveTokens)
  {
  }

  /** A larger window or a smaller reserve never lowers the threshold. */
  lemma ThresholdMonotone(w1: nat, w2: nat, r1: nat, r2: nat)
    requires w1 <= w2 && r2 <= r1
    ensures ThresholdChars(w1, r1) <= ThresholdChars(w2, r2)
  {
  }
}
