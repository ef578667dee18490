/**
 * Per-model cooldowns after failed invocations: keys are "provider:model", each entry
 * remembers how many consecutive failures the model had and until when it is skipped.
 * The wall clock is the parameter `now` (milliseconds since the epoch).
 */
module Failover {
  import opened Text

  datatype FailoverReason = RateLimit | Auth | Timeout | Unknown

  /** `until` is a millisecond timestamp, `errorCount` the consecutive failures. */
  datatype CooldownEntry = CooldownEntry(until: nat, errorCount: nat)

  type CooldownMap = map<string, CooldownEntry>

  /** `cooldown_key`: provider and model joined by a colon. */
  function CooldownKey(provider: string, model: string): string {
    provider + ":" + model
  }

  /** The key splits back into its parts at the provider's length. */
  lemma CooldownKeyParts(provider: string, model: string)
    ensures var k := CooldownKey(provider, model);
      && |k| == |provider| + 1 + |model|
      && k[..|provider|] == provider && k[|provider|] == ':' && k[|provider| + 1..] == model
  {
  }

  /** Keys of providers without a colon determine provider and model. */
  lemma CooldownKeyInjective(p1: string, m1: string, p2: string, m2: string)
    requires ':' !in p1 && ':' !in p2
    requires CooldownKey(p1, m1) == CooldownKey(p2, m2)
    ensures p1 == p2 && m1 == m2
  {
    CooldownKeyParts(p1, m1);
    CooldownKeyParts(p2, m2);
  }

  function Pow5(e: nat): (r: nat)
    ensures r >= 1
  {
    if e == 0 then 1 else 5 * Pow5(e - 1)
  }

  /** `calculate_cooldown_ms`: 60 s times 5 to the (failures - 1), at most 3, capped at one hour. */
  function CooldownMs(errorCount: nat): (ms: nat)
    ensures 60000 <= ms <= 3600000
  {
    var count := if errorCount < 1 then 1 else errorCount;
    var exponent := if count - 1 < 3 then count - 1 else 3;
    var seconds := 60 * Pow5(exponent);
    (if seconds < 3600 then seconds else 3600) * 1000
  }

  /** The progression of the back-off: 1 min, 5 min, 25 min, then one hour from the fourth failure on. */
  lemma CooldownProgression(n: nat)
    ensures CooldownMs(0) == CooldownMs(1) == 60000
    ensures CooldownMs(2) == 300000
    ensures CooldownMs(3) == 1500000
    ensures n >= 4 ==> CooldownMs(n) == 3600000
  {
    assert Pow5(1) == 5 && Pow5(2) == 25 && Pow5(3) == 125;
  }

  /** More failures never shorten the cooldown. */
  lemma CooldownMonotone(a: nat, b: nat)
    requires a <= b
    ensures CooldownMs(a) <= CooldownMs(b)
  {
    CooldownProgression(a);
    CooldownProgression(b);
  }

  /** `is_in_cooldown`: the key has an entry whose `until` lies in the future. */
  predicate InCooldown(cooldowns: CooldownMap, key: string, now: nat) {
    key in cooldowns && now < cooldowns[key].until
  }

  /** The map after `record_failure`: the key's count goes up by one and its cooldown restarts now. */
  function Recorded(cooldowns: CooldownMap, key: string, now: nat): CooldownMap {
    var count := (if key in cooldowns then cooldowns[key].errorCount else 0) + 1;
    cooldowns[key := CooldownEntry(now + CooldownMs(count), count)]
  }

  /**
   * A recorded failure puts exactly that key into cooldown, counts one more failure for
   * it, and leaves every other entry as it was.
   */
  lemma RecordedProperties(cooldowns: CooldownMap, key: string, now: nat)
    ensures var m := Recorded(cooldowns, key, now);
      && m.Keys == cooldowns.Keys + {key}
      && InCooldown(m, key, now)
      && m[key].errorCount == (if key in cooldowns then cooldowns[key].errorCount + 1 else 1)
      && m[key].until == now + CooldownMs(m[key].errorCount)
      && (forall k <- cooldowns :: k != key ==> m[k] == cooldowns[k])
  {
  }

  /** After `clear_cooldown` the key is out of cooldown at every time, and no other entry changed. */
  lemma ClearedProperties(cooldowns: CooldownMap, key: string, now: nat)
    ensures !InCooldown(cooldowns - {key}, key, now)
    ensures forall k <- cooldowns :: k != key ==> k in cooldowns - {key} && (cooldowns - {key})[k] == cooldowns[k]
  {
  }

  /** The cooldown store, updated in place by the failover loop. */
  class Cooldowns {
    var entries: CooldownMap

    constructor(initial: CooldownMap)
      ensures entries == initial
    {
      entries := initial;
    }

    /** `record_failure`; the failure reason is accepted and ignored, as in the source. */
    method RecordFailure(key: string, reason: FailoverReason, now: nat)
      modifies this
      ensures entries == Recorded(old(entries), key, now)
      ensures InCooldown(entries, key, now)
    {
      var count := if key in entries then entries[key].errorCount else 0;
      count := count + 1;
      entries := entries[key := CooldownEntry(now + CooldownMs(count), count)];
    }

    /** `clear_cooldown`. */
    method ClearCooldown(key: string)
      modifies this
      ensures entries == old(entries) - {key}
      ensures forall now: nat :: !InCooldown(entries, key, now)
    {
      entries := entries - {key};
    }

    predicate IsInCooldown(key: string, now: nat)
      reads this
    {
      InCooldown(entries, key, now)
    }
  }

  /** What the cooldown file holds, as far as loading is concerned. */
  datatype CooldownFile = Missing | Unparseable | Stored(contents: CooldownMap)

  /** `load_cooldowns`: a missing or unparseable file loads as no cooldowns. */
  function LoadCooldowns(file: CooldownFile): (m: CooldownMap)
    ensures file.Stored? ==> m == file.contents
    ensures !file.Stored? ==> m == map[]
  {
    if file.Stored? then file.contents else map[]
  }

  /** `save_cooldowns`. */
  function SaveCooldowns(m: CooldownMap): CooldownFile {
    Stored(m)
  }

  lemma LoadAfterSave(m: CooldownMap)
    ensures LoadCooldowns(SaveCooldowns(m)) == m
  {
  }

  // ----- error classification -----

  const RateLimitMarkers: seq<string> := ["rate limit", "rate_limit", "429", "too many requests"]
  const AuthMarkers: seq<string> :=
    ["401", "403", "402", "unauthorized", "forbidden", "authentication", "invalid api key", "billing", "credit"]
  const TimeoutMarkers: seq<string> := ["timeout", "408", "timed out", "etimedout", "econnreset"]

  predicate ContainsAny(s: string, markers: seq<string>) {
    exists m <- markers :: Contains(s, m)
  }

  /** `classify_error`: the first group with a marker in the lower-cased message decides. */
  function ClassifyError(message: string): FailoverReason {
    var lower := ToLower(message);
    if ContainsAny(lower, RateLimitMarkers) then RateLimit
    else if ContainsAny(lower, AuthMarkers) then Auth
    else if ContainsAny(lower, TimeoutMarkers) then Timeout
    else Unknown
  }

  /** Classification ignores case. */
  lemma ClassifyIgnoresCase(message: string)
    ensures ClassifyError(ToLower(message)) == ClassifyError(message)
    ensures ClassifyError(ToUpper(message)) == ClassifyError(message)
  {
    ToLowerIsLower(message);
    assert ToLower(ToUpper(message)) == ToLower(message);
  }

  /** Each reason holds exactly when its group matches and no earlier group does. */
  lemma ClassifyPrecedence(message: string)
    ensures var lower := ToLower(message);
      && (ClassifyError(message) == RateLimit <==> ContainsAny(lower, RateLimitMarkers))
      && (ClassifyError(message) == Auth <==> !ContainsAny(lower, RateLimitMarkers) && ContainsAny(lower, AuthMarkers))
      && (ClassifyError(message) == Timeout <==>
            !ContainsAny(lower, RateLimitMarkers) && !ContainsAny(lower, AuthMarkers) && ContainsAny(lower, TimeoutMarkers))
      && (ClassifyError(message) == Unknown <==>
            !ContainsAny(lower, RateLimitMarkers) && !ContainsAny(lower, AuthMarkers) && !ContainsAny(lower, TimeoutMarkers))
  {
  }

  /** A status code is classified before a later auth word. */
  lemma ClassifyRateLimitFirst()
    ensures ClassifyError("429 forbidden") == RateLimit
  {
    var lower := ToLower("429 forbidden");
    ToLowerNoCapitals("429 forbidden");
    var m := RateLimitMarkers[2];
    assert m in RateLimitMarkers;
    assert StartsWith(lower, m);
    assert Contains(lower, m);
  }

  /** The upper-case errno spelling is a timeout. */
  lemma ClassifyErrnoTimeout()
    ensures ClassifyError("ETIMEDOUT") == Timeout
  {
    var lower := ToLower("ETIMEDOUT");
    assert lower == "etimedout";
    forall m <- RateLimitMarkers + AuthMarkers ensures !Contains(lower, m) {
      NotContains(lower, m);
    }
    assert !ContainsAny(lower, RateLimitMarkers);
    assert !ContainsAny(lower, AuthMarkers);
    var m := TimeoutMarkers[3];
    assert m in TimeoutMarkers;
    assert StartsWith(lower, m);
    assert Contains(lower, m);
  }
}
