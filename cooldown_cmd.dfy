/**
 * The `cooldown` command of the CLI (crates/rustyclaw-cli/src/cooldown_cmd.rs): showing
 * which models are in cooldown and resetting cooldowns, all of them or by model key. The
 * cooldown file is the `Failover.Cooldowns` object; the clock is the parameter `now`.
 */
module CooldownCmd {
  import opened Wrappers
  import opened Text
  import opened Failover

  // ----- reset -----

  /** What `reset_cooldowns` reports; every outcome but the last two saves the file. */
  datatype ResetOutcome =
    | ClearedAll(count: nat)
    | ResetKey(key: string)
    | ResetMatching(keys: set<string>)
    | NoMatch
    | NothingToReset

  /** The keys that contain `part`, for a model argument that is not itself a key. */
  function MatchingKeys(m: CooldownMap, part: string): set<string> {
    set k <- m.Keys | Contains(k, part)
  }

  /** The cooldowns and report after `reset_cooldowns`. */
  function Reset(m: CooldownMap, model: Option<string>): (CooldownMap, ResetOutcome) {
    if m == map[] then (m, NothingToReset)
    else match model
      case None => (map[], ClearedAll(|m|))
      case Some(key) =>
        if key in m then (m - {key}, ResetKey(key))
        else
          var matching := MatchingKeys(m, key);
          if matching == {} then (m, NoMatch) else (m - matching, ResetMatching(matching))
  }

  /** `reset_cooldowns`: clear everything, remove the exact key, or remove each key containing the argument. */
  method ResetCooldowns(store: Cooldowns, model: Option<string>) returns (outcome: ResetOutcome)
    modifies store
    ensures (store.entries, outcome) == Reset(old(store.entries), model)
  {
    if store.entries == map[] {
      return NothingToReset;
    }
    match model {
      case None =>
        var count := |store.entries|;
        store.entries := map[];
        return ClearedAll(count);
      case Some(key) =>
        if key in store.entries {
          store.entries := store.entries - {key};
          return ResetKey(key);
        }
        var matching := MatchingKeys(store.entries, key);
        if matching == {} {
          return NoMatch;
        }
        ghost var before := store.entries;
        var todo := matching;
        while todo != {}
          invariant todo <= matching
          invariant store.entries == before - (matching - todo)
          decreases |todo|
        {
          var k :| k in todo;
          store.entries := store.entries - {k};
          todo := todo - {k};
        }
        assert matching - todo == matching;
        return ResetMatching(matching);
    }
  }

  /**
   * An empty map stays empty and nothing is saved. Without an argument every entry goes.
   * An exact key removes only that entry. Otherwise every key containing the argument
   * goes and no other; when no key contains it nothing changes.
   */
  lemma ResetProperties(m: CooldownMap, model: Option<string>)
    ensures var (m', outcome) := Reset(m, model);
      && (m == map[] ==> m' == m && outcome == NothingToReset)
      && (m != map[] && model.None? ==> m' == map[] && outcome == ClearedAll(|m|))
      && (model.Some? && model.value in m ==>
            m'.Keys == m.Keys - {model.value} && forall k <- m' :: m'[k] == m[k])
      && (model.Some? && model.value !in m ==>
            (forall k <- m :: k in m' <==> !Contains(k, model.value))
            && (forall k <- m' :: m'[k] == m[k])
            && ((forall k <- m :: !Contains(k, model.value)) ==> m' == m))
      && (m' == m <==> outcome in {NothingToReset, NoMatch})
  {
    var (m', outcome) := Reset(m, model);
    if model.Some? && model.value !in m && m != map[] {
      var matching := MatchingKeys(m, model.value);
      forall k <- m ensures k in m' <==> !Contains(k, model.value) {
        assert k in matching <==> Contains(k, model.value);
      }
      if matching != {} {
        var k :| k in matching;
        assert k !in m';
      }
    }
    if model.Some? && model.value in m {
      assert model.value !in m';
    }
    if m != map[] && model.None? {
      var k :| k in m;
      assert k !in m';
    }
  }

  // ----- show -----

  /** How `show_cooldowns` lists one entry. */
  datatype CooldownStatus =
    | Active(errors: nat, minutes: nat, seconds: nat)
    | Expired(errors: nat)

  /** An entry is active while `now < until`; the remaining whole seconds split into minutes and seconds. */
  function Status(entry: CooldownEntry, now: nat): CooldownStatus {
    if now < entry.until then
      var remaining := (entry.until - now) / 1000;
      Active(entry.errorCount, remaining / 60, remaining % 60)
    else Expired(entry.errorCount)
  }

  /** Whether the listing ends with the reset hint: some entry is still active. */
  predicate AnyActive(m: CooldownMap, now: nat) {
    exists k <- m :: Status(m[k], now).Active?
  }

  /**
   * An entry is listed as active exactly when its key is in cooldown, with the remaining
   * time rounded down to whole seconds, in minutes and seconds under sixty; the reset hint
   * shows exactly when some key is in cooldown.
   */
  lemma StatusProperties(m: CooldownMap, key: string, now: nat)
    requires key in m
    ensures var s := Status(m[key], now);
      && (s.Active? <==> InCooldown(m, key, now))
      && s.errors == m[key].errorCount
      && (s.Active? ==> s.seconds < 60 && s.minutes * 60 + s.seconds == (m[key].until - now) / 1000)
    ensures AnyActive(m, now) <==> exists k <- m :: InCooldown(m, k, now)
  {
  }
}
