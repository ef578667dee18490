/**
 * Content-based routing: each agent may list keyword patterns and a priority;
 * the message is matched against every pattern as a whole word, ignoring case,
 * and the best (priority, match count) wins. An exact tie with the best seen so
 * far ends the search with no winner.
 */
module SmartRouting {
  import opened Wrappers
  import opened Text
  import opened Types

  /** The regex class `\w`, restricted to ASCII. */
  predicate IsWordChar(c: char) {
    ('a' <= c <= 'z') || ('A' <= c <= 'Z') || ('0' <= c <= '9') || c == '_'
  }

  predicate WordAt(s: string, i: int) {
    0 <= i < |s| && IsWordChar(s[i])
  }

  /** The regex assertion `\b` at position `i`. */
  predicate IsBoundary(s: string, i: int) {
    WordAt(s, i - 1) != WordAt(s, i)
  }

  predicate OccursAt(s: string, p: string, i: int) {
    0 <= i && i + |p| <= |s| && s[i..i + |p|] == p
  }

  /** `p` occurs at `i` with a word boundary on both sides. */
  predicate WordMatchAt(s: string, p: string, i: int) {
    OccursAt(s, p, i) && IsBoundary(s, i) && IsBoundary(s, i + |p|)
  }

  /** Whether the regex `\b<p>\b` matches somewhere at or after position `i`. */
  function WordMatchFrom(s: string, p: string, i: nat): (b: bool)
    requires i <= |s|
    ensures b <==> exists j :: i <= j <= |s| && WordMatchAt(s, p, j)
    decreases |s| - i
  {
    if WordMatchAt(s, p, i) then true
    else if i == |s| then false
    else
      WordMatchFrom(s, p, i + 1)
  }

  /** `Regex::new(&format!(r"(?i)\b{}\b", escape(pattern))).is_match(message)` on lower-cased text. */
  predicate WordMatch(message: string, pattern: string) {
    WordMatchFrom(ToLower(message), ToLower(pattern), 0)
  }

  /** The number of patterns that match the message as whole words. */
  function CountMatches(patterns: seq<string>, message: string): (n: nat)
    ensures n <= |patterns|
  {
    if |patterns| == 0 then 0
    else CountMatches(patterns[..|patterns| - 1], message) + (if WordMatch(message, patterns[|patterns| - 1]) then 1 else 0)
  }

  /** The match count of an agent; agents without patterns score 0 and are skipped. */
  function Score(config: AgentConfig, message: string): nat {
    match config.routePatterns
    case None => 0
    case Some(ps) => CountMatches(ps, message)
  }

  datatype Best = Best(id: string, priority: nat, count: nat)

  /** Lexicographic (priority, count) comparison: `a` strictly beats `b`. */
  predicate Beats(p1: nat, c1: nat, p2: nat, c2: nat) {
    p1 > p2 || (p1 == p2 && c1 > c2)
  }

  /** The selection loop over the remaining agents, given the best so far. */
  function SelectFrom(agents: Agents, message: string, best: Option<Best>): Option<string>
    decreases |agents|
  {
    if |agents| == 0 then (if best.Some? then Some(best.value.id) else None)
    else
      var id := agents[0].0;
      var cfg := agents[0].1;
      var n := Score(cfg, message);
      if n == 0 then SelectFrom(agents[1..], message, best)
      else match best
        case None => SelectFrom(agents[1..], message, Some(Best(id, cfg.routePriority, n)))
        case Some(b) =>
          if Beats(cfg.routePriority, n, b.priority, b.count) then
            SelectFrom(agents[1..], message, Some(Best(id, cfg.routePriority, n)))
          else if cfg.routePriority == b.priority && n == b.count then None
          else SelectFrom(agents[1..], message, best)
  }

  /** The agent chosen for `message`, or None. */
  function Select(agents: Agents, message: string): Option<string> {
    SelectFrom(agents, message, None)
  }

  /** `match_agent_by_content`, as the loop over agents and patterns the source runs. */
  method MatchAgentByContent(message: string, agents: Agents) returns (r: Option<string>)
    ensures r == Select(agents, message)
  {
    var best: Option<Best> := None;
    var i := 0;
    while i < |agents|
      invariant 0 <= i <= |agents|
      invariant SelectFrom(agents[i..], message, best) == Select(agents, message)
    {
      var id := agents[i].0;
      var cfg := agents[i].1;
      assert agents[i..][1..] == agents[i + 1..];
      if cfg.routePatterns.None? || |cfg.routePatterns.value| == 0 {
        i := i + 1;
        continue;
      }
      var patterns := cfg.routePatterns.value;
      var matchCount := 0;
      var k := 0;
      while k < |patterns|
        invariant 0 <= k <= |patterns|
        invariant matchCount == CountMatches(patterns[..k], message)
      {
        assert patterns[..k + 1][..k] == patterns[..k];
        if WordMatch(message, patterns[k]) {
          matchCount := matchCount + 1;
        }
        k := k + 1;
      }
      assert patterns[..k] == patterns;
      if matchCount == 0 {
        i := i + 1;
        continue;
      }
      var priority := cfg.routePriority;
      match best {
        case None =>
          best := Some(Best(id, priority, matchCount));
        case Some(b) =>
          if priority > b.priority || (priority == b.priority && matchCount > b.count) {
            best := Some(Best(id, priority, matchCount));
          } else if priority == b.priority && matchCount == b.count {
            return None;
          }
      }
      i := i + 1;
    }
    r := if best.Some? then Some(best.value.id) else None;
  }

  /** The best so far wins: `id` is its agent and it beats every later agent that matches. */
  predicate BestStands(agents: Agents, message: string, best: Option<Best>, id: string) {
    best.Some? && id == best.value.id
    && forall j :: 0 <= j < |agents| && Score(agents[j].1, message) > 0 ==>
         Beats(best.value.priority, best.value.count, agents[j].1.routePriority, Score(agents[j].1, message))
  }

  /** Agent `w` is `id`, matches, and beats the best so far and every other agent that matches. */
  predicate WinsAt(agents: Agents, message: string, best: Option<Best>, id: string, w: int) {
    && 0 <= w < |agents| && agents[w].0 == id && Score(agents[w].1, message) > 0
    && (best.Some? ==> Beats(agents[w].1.routePriority, Score(agents[w].1, message), best.value.priority, best.value.count))
    && forall j :: 0 <= j < |agents| && j != w && Score(agents[j].1, message) > 0 ==>
         Beats(agents[w].1.routePriority, Score(agents[w].1, message), agents[j].1.routePriority, Score(agents[j].1, message))
  }

  /** The outcome of the loop from a given best: either the best is kept, or a later agent beats it and everyone else. */
  lemma {:induction false} SelectFromOutcome(agents: Agents, message: string, best: Option<Best>)
    ensures SelectFrom(agents, message, best).Some? ==>
      var id := SelectFrom(agents, message, best).value;
      BestStands(agents, message, best, id) || exists w :: WinsAt(agents, message, best, id, w)
    decreases |agents|
  {
    if |agents| > 0 {
      var rest := agents[1..];
      var cfg := agents[0].1;
      var n := Score(cfg, message);
      assert forall j :: 1 <= j < |agents| ==> agents[j] == rest[j - 1];
      var next: Option<Best> :=
        if n == 0 then best
        else if best.None? then Some(Best(agents[0].0, cfg.routePriority, n))
        else if Beats(cfg.routePriority, n, best.value.priority, best.value.count) then Some(Best(agents[0].0, cfg.routePriority, n))
        else best;
      if n > 0 && best.Some? && !Beats(cfg.routePriority, n, best.value.priority, best.value.count)
         && cfg.routePriority == best.value.priority && n == best.value.count {
        assert SelectFrom(agents, message, best) == None;
      } else {
        assert SelectFrom(agents, message, best) == SelectFrom(rest, message, next);
        SelectFromOutcome(rest, message, next);
        if SelectFrom(rest, message, next).Some? {
          var id := SelectFrom(rest, message, next).value;
          if BestStands(rest, message, next, id) {
            if next == best {
              assert BestStands(agents, message, best, id);
            } else {
              // The first agent became the best and nobody later beat or tied it.
              assert WinsAt(agents, message, best, id, 0);
            }
          } else {
            var w' :| WinsAt(rest, message, next, id, w');
            assert agents[w' + 1] == rest[w'];
            assert WinsAt(agents, message, best, id, w' + 1);
          }
        }
      }
    }
  }

  /**
   * A chosen agent is a key of the map with at least one matching pattern, and its
   * (priority, count) strictly beats that of every other matching agent.
   */
  lemma WinnerStrictlyBeatsOthers(agents: Agents, message: string, id: string)
    requires Select(agents, message) == Some(id)
    ensures exists w :: (0 <= w < |agents| && agents[w].0 == id && Score(agents[w].1, message) > 0
                         && forall j :: 0 <= j < |agents| && j != w && Score(agents[j].1, message) > 0 ==>
                              Beats(agents[w].1.routePriority, Score(agents[w].1, message),
                                    agents[j].1.routePriority, Score(agents[j].1, message)))
  {
    SelectFromOutcome(agents, message, None);
    var w :| WinsAt(agents, message, None, id, w);
    assert 0 <= w < |agents| && agents[w].0 == id;
  }

  /** Agents without patterns, or whose patterns never match, cannot be chosen; if none match, nobody is. */
  lemma {:induction false} NoMatchNoWinner(agents: Agents, message: string, best: Option<Best>)
    requires forall j :: 0 <= j < |agents| ==> Score(agents[j].1, message) == 0
    ensures SelectFrom(agents, message, best) == (if best.Some? then Some(best.value.id) else None)
    decreases |agents|
  {
    if |agents| > 0 {
      assert forall j :: 1 <= j < |agents| ==> agents[j] == agents[1..][j - 1];
      NoMatchNoWinner(agents[1..], message, best);
    }
  }

  lemma NotAt(s: string, p: string)
    requires forall j :: 0 <= j <= |s| ==> !OccursAt(s, p, j)
    ensures !WordMatchFrom(s, p, 0)
  {
  }

  lemma NotWordMatch(s: string, p: string)
    requires forall j :: 0 <= j <= |s| ==> !WordMatchAt(s, p, j)
    ensures !WordMatchFrom(s, p, 0)
  {
  }

  /** A pattern only counts as a whole word: "code" does not match inside "encode", but matches "code". */
  lemma WholeWordsOnly()
    ensures !WordMatch("encode", "code")
    ensures WordMatch("to code it", "code")
  {
    var s := "encode";
    ToLowerNoCapitals(s);
    ToLowerNoCapitals("code");
    forall j | 0 <= j <= |s| ensures !WordMatchAt(s, "code", j) {
      if OccursAt(s, "code", j) {
        assert s[j] == 'c';
        assert j == 2;
        assert WordAt(s, 1) && WordAt(s, 2);
      }
    }
    NotWordMatch(s, "code");
    var t := "to code it";
    ToLowerNoCapitals(t);
    assert WordMatchAt(t, "code", 3);
  }

  function Agent(patterns: seq<string>, priority: nat): AgentConfig {
    AgentConfig("", "anthropic", "sonnet", "", "", None, None, None, None, true, Some(patterns), priority)
  }

  lemma DeployNowMatches()
    ensures WordMatch("deploy now", "deploy") && WordMatch("deploy now", "now")
    ensures !WordMatch("deploy now", "build")
  {
    var m := "deploy now";
    ToLowerNoCapitals(m);
    ToLowerNoCapitals("deploy");
    ToLowerNoCapitals("now");
    ToLowerNoCapitals("build");
    assert WordMatchAt(m, "deploy", 0);
    assert WordMatchAt(m, "now", 7);
    assert forall j :: 0 <= j <= |m| ==> !OccursAt(m, "build", j);
    NotAt(m, "build");
  }

  lemma DeployCounts()
    ensures CountMatches(["deploy"], "deploy now") == 1
    ensures CountMatches(["deploy", "build"], "deploy now") == 1
    ensures CountMatches(["deploy", "now"], "deploy now") == 2
  {
    DeployNowMatches();
    assert ["deploy"][..0] == [];
    assert ["deploy", "build"][..1] == ["deploy"];
    assert ["deploy", "now"][..1] == ["deploy"];
  }

  /**
   * Order dependence: two agents that tie at priority 0 end the search with no winner,
   * even though the third agent would have won at priority 5.
   */
  lemma EarlyTieHidesLaterWinner()
    ensures Select([("a", Agent(["deploy"], 0)), ("b", Agent(["deploy"], 0)), ("c", Agent(["deploy"], 5))], "deploy now") == None
    ensures Select([("c", Agent(["deploy"], 5)), ("a", Agent(["deploy"], 0)), ("b", Agent(["deploy"], 0))], "deploy now") == Some("c")
  {
    DeployCounts();
  }

  /** A strictly higher priority wins regardless of order; at equal priority more matches win. */
  lemma HigherPriorityOrMoreMatchesWin()
    ensures Select([("low", Agent(["deploy"], 1)), ("high", Agent(["deploy"], 2))], "deploy now") == Some("high")
    ensures Select([("high", Agent(["deploy"], 2)), ("low", Agent(["deploy"], 1))], "deploy now") == Some("high")
    ensures Select([("one", Agent(["deploy", "build"], 1)), ("two", Agent(["deploy", "now"], 1))], "deploy now") == Some("two")
  {
    DeployCounts();
  }
}
