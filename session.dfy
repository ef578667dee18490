/**
 * Per-(agent, channel, sender) sessions: whether the next invocation continues the
 * backend's conversation or starts a new one, and the running character count that
 * triggers compaction. The clock is the parameter `now` (milliseconds since the Unix
 * epoch, UTC) and a freshly generated session id is the parameter `newId`.
 */
module Session {
  import opened Wrappers
  import opened Types

  const DefaultResetHour: nat := 4
  const DefaultIdleTimeoutMinutes: nat := 120

  datatype SessionEntry = SessionEntry(
    sessionId: string,
    updatedAt: nat,
    channel: string,
    sender: string,
    totalChars: nat,
    compactionCount: nat)

  /** `resolve_session_key`: "agent:channel:sender". */
  function SessionKey(agentId: string, channel: string, sender: string): string {
    agentId + ":" + channel + ":" + sender
  }

  /** Keys of agents and channels without a colon tell the three parts apart. */
  lemma {:induction false} SessionKeyInjective(a1: string, c1: string, s1: string, a2: string, c2: string, s2: string)
    requires ':' !in a1 && ':' !in a2 && ':' !in c1 && ':' !in c2
    requires SessionKey(a1, c1, s1) == SessionKey(a2, c2, s2)
    ensures a1 == a2 && c1 == c2 && s1 == s2
  {
    var k := SessionKey(a1, c1, s1);
    assert k == a1 + ":" + (c1 + ":" + s1) == a2 + ":" + (c2 + ":" + s2);
    ColonSplit(a1, c1 + ":" + s1);
    ColonSplit(a2, c2 + ":" + s2);
    assert c1 + ":" + s1 == c2 + ":" + s2;
    ColonSplit(c1, s1);
    ColonSplit(c2, s2);
  }

  /** The first colon of `a + ":" + rest` sits right after `a` when `a` has none. */
  lemma ColonSplit(a: string, rest: string)
    requires ':' !in a
    ensures var k := a + ":" + rest;
      |a| < |k| && k[|a|] == ':' && k[..|a|] == a && k[|a| + 1..] == rest
      && forall i :: 0 <= i < |a| ==> k[i] != ':'
  {
    var k := a + ":" + rest;
    assert forall i :: 0 <= i < |a| ==> k[i] == a[i];
  }

  /** `resolve_reset_policy`: an empty policy means "both". */
  function ResetPolicy(agent: AgentConfig): (p: string)
    ensures p != ""
  {
    if agent.resetPolicy == "" then "both" else agent.resetPolicy
  }

  const DayMs: nat := 86400000
  const HourMs: nat := 3600000

  /** The instant `hour` o'clock UTC on day `k` after the epoch (negative days before it). */
  function ResetInstant(k: int, hour: nat): int {
    k * 86400000 + hour * 3600000
  }

  /**
   * `is_stale_daily`: the session was last updated before the latest daily reset: today's
   * reset hour once now has passed it, otherwise the one 24 hours earlier (never below
   * the epoch). An hour past 23 has no reset instant and is never stale.
   */
  predicate IsStaleDaily(updatedAt: nat, now: nat, resetHour: nat) {
    resetHour <= 23
    && var resetAt := now - now % DayMs + resetHour * HourMs;
       var effective := if now < resetAt then (if resetAt >= DayMs then resetAt - DayMs else 0) else resetAt;
       updatedAt < effective
  }

  /** Daily staleness means exactly that a reset instant came after the last update and no later than now. */
  lemma DailyStaleIffResetPassed(updatedAt: nat, now: nat, resetHour: nat)
    requires resetHour <= 23
    ensures IsStaleDaily(updatedAt, now, resetHour)
            <==> exists k: int :: updatedAt < ResetInstant(k, resetHour) <= now
  {
    var d := now / DayMs;
    assert now - now % DayMs == d * 86400000;
    var resetAt := ResetInstant(d, resetHour);
    if IsStaleDaily(updatedAt, now, resetHour) {
      if now < resetAt {
        assert updatedAt < ResetInstant(d - 1, resetHour) <= now;
      } else {
        assert updatedAt < ResetInstant(d, resetHour) <= now;
      }
    }
    if exists k: int :: updatedAt < ResetInstant(k, resetHour) <= now {
      var k: int :| updatedAt < ResetInstant(k, resetHour) <= now;
      assert now < (d + 1) * 86400000;
      if now < resetAt {
        assert k <= d - 1;
        assert ResetInstant(k, resetHour) <= ResetInstant(d - 1, resetHour);
      } else {
        assert k <= d;
        assert ResetInstant(k, resetHour) <= ResetInstant(d, resetHour);
      }
    }
  }

  /** A reset hour past 23 never makes a session stale. */
  lemma NoDailyResetPastHour23(updatedAt: nat, now: nat, resetHour: nat)
    requires resetHour > 23
    ensures !IsStaleDaily(updatedAt, now, resetHour)
  {
  }

  /** `is_stale_idle`: more than the timeout has passed since the last update (none if it lies ahead). */
  predicate IsStaleIdle(updatedAt: nat, now: nat, timeoutMinutes: nat) {
    var idle := if now >= updatedAt then now - updatedAt else 0;
    idle > timeoutMinutes * 60 * 1000
  }

  /** Idle staleness means now lies beyond the last update plus the timeout. */
  lemma IdleStaleIffTimeoutPassed(updatedAt: nat, now: nat, timeoutMinutes: nat)
    ensures IsStaleIdle(updatedAt, now, timeoutMinutes) <==> now > updatedAt + timeoutMinutes * 60000
  {
  }

  /** `evaluate_session_freshness`: whether the session continues under the agent's reset policy. */
  predicate IsFresh(entry: SessionEntry, agent: AgentConfig, now: nat) {
    var daily := IsStaleDaily(entry.updatedAt, now, agent.resetHour.UnwrapOr(DefaultResetHour));
    var idle := IsStaleIdle(entry.updatedAt, now, agent.idleTimeoutMinutes.UnwrapOr(DefaultIdleTimeoutMinutes));
    match ResetPolicy(agent)
    case "manual" => true
    case "daily" => !daily
    case "idle" => !idle
    case _ => !daily && !idle
  }

  /**
   * "manual" never resets; "daily" and "idle" reset on their own condition only; every
   * other policy, the empty default included, resets on either, with reset hour 4 and a
   * two-hour idle timeout when unset.
   */
  lemma FreshnessByPolicy(entry: SessionEntry, agent: AgentConfig, now: nat)
    ensures agent.resetPolicy == "manual" ==> IsFresh(entry, agent, now)
    ensures agent.resetPolicy == "daily"
            ==> (IsFresh(entry, agent, now) <==> !IsStaleDaily(entry.updatedAt, now, agent.resetHour.UnwrapOr(4)))
    ensures agent.resetPolicy == "idle"
            ==> (IsFresh(entry, agent, now) <==> now <= entry.updatedAt + agent.idleTimeoutMinutes.UnwrapOr(120) * 60000)
    ensures agent.resetPolicy !in {"manual", "daily", "idle"}
            ==> (IsFresh(entry, agent, now)
                 <==> !IsStaleDaily(entry.updatedAt, now, agent.resetHour.UnwrapOr(4))
                      && now <= entry.updatedAt + agent.idleTimeoutMinutes.UnwrapOr(120) * 60000)
  {
    IdleStaleIffTimeoutPassed(entry.updatedAt, now, agent.idleTimeoutMinutes.UnwrapOr(DefaultIdleTimeoutMinutes));
  }

  /**
   * `resolve_should_reset`: a session with no entry starts afresh under a new id; an
   * existing one keeps its id and resets when the legacy reset flag existed or it is no
   * longer fresh. (The flag file is deleted whenever it existed.)
   */
  function ResolveShouldReset(flagExists: bool, sessions: map<string, SessionEntry>, agentId: string, agent: AgentConfig,
                              channel: string, sender: string, now: nat, newId: string): (r: (bool, string))
  {
    var key := SessionKey(agentId, channel, sender);
    if key in sessions then (flagExists || !IsFresh(sessions[key], agent, now), sessions[key].sessionId)
    else (true, newId)
  }

  lemma ResolveShouldResetProperties(flagExists: bool, sessions: map<string, SessionEntry>, agentId: string, agent: AgentConfig,
                                     channel: string, sender: string, now: nat, newId: string)
    ensures var key := SessionKey(agentId, channel, sender);
      var (reset, id) := ResolveShouldReset(flagExists, sessions, agentId, agent, channel, sender, now, newId);
      && (reset <==> key !in sessions || flagExists || !IsFresh(sessions[key], agent, now))
      && (key in sessions ==> id == sessions[key].sessionId)
      && (key !in sessions ==> id == newId)
      && (key in sessions && agent.resetPolicy == "manual" ==> (reset <==> flagExists))
  {
    var key := SessionKey(agentId, channel, sender);
    if key in sessions {
      FreshnessByPolicy(sessions[key], agent, now);
    }
  }

  /** The store after `update_session`. */
  function Updated(sessions: map<string, SessionEntry>, agentId: string, channel: string, sender: string,
                   messageChars: nat, responseChars: nat, wasReset: bool, now: nat, newId: string): map<string, SessionEntry>
  {
    var key := SessionKey(agentId, channel, sender);
    var base := if key in sessions then sessions[key] else SessionEntry(newId, now, channel, sender, 0, 0);
    var restarted := if wasReset then base.(sessionId := newId, totalChars := 0) else base;
    sessions[key := restarted.(updatedAt := now, totalChars := restarted.totalChars + messageChars + responseChars)]
  }

  /**
   * After an exchange, the session's entry exists, is stamped now, and counts the
   * exchange's characters on top of what it had, or on top of nothing when it is new or
   * was reset; no other session changes.
   */
  lemma UpdatedProperties(sessions: map<string, SessionEntry>, agentId: string, channel: string, sender: string,
                          messageChars: nat, responseChars: nat, wasReset: bool, now: nat, newId: string)
    ensures var key := SessionKey(agentId, channel, sender);
      var m := Updated(sessions, agentId, channel, sender, messageChars, responseChars, wasReset, now, newId);
      && m.Keys == sessions.Keys + {key}
      && m[key].updatedAt == now
      && m[key].totalChars
         == (if key in sessions && !wasReset then sessions[key].totalChars else 0) + messageChars + responseChars
      && m[key].sessionId == (if key in sessions && !wasReset then sessions[key].sessionId else newId)
      && m[key].compactionCount == (if key in sessions then sessions[key].compactionCount else 0)
      && (key !in sessions ==> m[key].channel == channel && m[key].sender == sender)
      && (forall k <- sessions :: k != key ==> m[k] == sessions[k])
  {
  }

  /** The store after a compaction: the session restarts its count at the summary's length and counts one more compaction. */
  function Compacted(sessions: map<string, SessionEntry>, key: string, summaryChars: nat): map<string, SessionEntry> {
    if key in sessions
    then sessions[key := sessions[key].(totalChars := summaryChars, compactionCount := sessions[key].compactionCount + 1)]
    else sessions
  }

  lemma CompactedProperties(sessions: map<string, SessionEntry>, key: string, summaryChars: nat)
    ensures var m := Compacted(sessions, key, summaryChars);
      && m.Keys == sessions.Keys
      && (key in sessions ==> m[key].totalChars == summaryChars
                              && m[key].compactionCount == sessions[key].compactionCount + 1
                              && m[key].sessionId == sessions[key].sessionId
                              && m[key].updatedAt == sessions[key].updatedAt)
      && (forall k <- sessions :: k != key ==> m[k] == sessions[k])
  {
  }

  /** The session store of one agent, updated in place. */
  class SessionStore {
    var sessions: map<string, SessionEntry>

    constructor(initial: map<string, SessionEntry>)
      ensures sessions == initial
    {
      sessions := initial;
    }

    /** `update_session`: returns the entry as stored. */
    method UpdateSession(agentId: string, channel: string, sender: string, messageChars: nat, responseChars: nat,
                         wasReset: bool, now: nat, newId: string) returns (entry: SessionEntry)
      modifies this
      ensures sessions == Updated(old(sessions), agentId, channel, sender, messageChars, responseChars, wasReset, now, newId)
      ensures SessionKey(agentId, channel, sender) in sessions && entry == sessions[SessionKey(agentId, channel, sender)]
    {
      var key := SessionKey(agentId, channel, sender);
      entry := if key in sessions then sessions[key] else SessionEntry(newId, now, channel, sender, 0, 0);
      if wasReset {
        entry := entry.(sessionId := newId, totalChars := 0);
      }
      entry := entry.(updatedAt := now);
      entry := entry.(totalChars := entry.totalChars + messageChars + responseChars);
      sessions := sessions[key := entry];
    }

    /** The session reset after compaction: the summary's length becomes the count. */
    method RecordCompaction(key: string, summaryChars: nat)
      modifies this
      ensures sessions == Compacted(old(sessions), key, summaryChars)
    {
      if key in sessions {
        var entry := sessions[key];
        sessions := sessions[key := entry.(totalChars := summaryChars, compactionCount := entry.compactionCount + 1)];
      }
    }
  }
}
