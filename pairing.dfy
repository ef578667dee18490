/**
 * Sender pairing (crates/rustyclaw-core/src/pairing.rs): an unknown sender on a chat
 * channel gets an eight-character pairing code and waits in the pending list until an
 * operator approves the code, which moves the sender to the approved list. The pairing
 * file is the object below; loading a missing file gives empty lists, and every
 * operation is a load, an update in place and a save. The clock and the random draws
 * are parameters.
 */
module Pairing {
  import opened Wrappers
  import opened Text

  datatype PendingEntry = PendingEntry(channel: string, senderId: string, sender: string, code: string,
                                       createdAt: nat, lastSeenAt: nat)

  datatype ApprovedEntry = ApprovedEntry(channel: string, senderId: string, sender: string, approvedAt: nat,
                                         approvedCode: Option<string>)

  datatype CheckResult = CheckResult(approved: bool, code: Option<string>, isNewPending: Option<bool>)

  datatype ApproveResult = ApproveResult(ok: bool, reason: Option<string>, entry: Option<ApprovedEntry>)

  /**
   * The code alphabet: capitals and digits without the look-alikes 0, O, 1 and I. The
   * source's comment also promises no L, but its alphabet has one.
   */
  const Alphabet := "ABCDEFGHJKLMNPQRSTUVWXYZ23456789"
  const CodeLength: nat := 8
  /** Random codes drawn before falling back to the clock. */
  const CodeAttempts: nat := 20

  const CodeRequired := "Pairing code is required."
  const CodeNotFound := "Pairing code not found: "

  /** The `channel::sender_id` key under which approved senders are looked up. */
  function SenderKey(channel: string, senderId: string): string {
    channel + "::" + senderId
  }

  // ----- searching a list -----

  /** `Iterator::position`: the first index whose element satisfies `p`. */
  function FirstIndex<T>(s: seq<T>, p: T -> bool): (r: Option<nat>)
    ensures r.Some? ==> r.value < |s| && p(s[r.value]) && forall j :: 0 <= j < r.value ==> !p(s[j])
    ensures r.None? ==> forall j :: 0 <= j < |s| ==> !p(s[j])
  {
    if s == [] then None
    else if p(s[0]) then Some(0)
    else match FirstIndex(s[1..], p)
      case None => None
      case Some(i) => Some(i + 1)
  }

  /** The last index whose element satisfies `p`: what collecting index pairs into a map keeps. */
  function LastIndex<T>(s: seq<T>, p: T -> bool): (r: Option<nat>)
    ensures r.Some? ==> r.value < |s| && p(s[r.value]) && forall j :: r.value < j < |s| ==> !p(s[j])
    ensures r.None? ==> forall j :: 0 <= j < |s| ==> !p(s[j])
  {
    if s == [] then None
    else if p(s[|s| - 1]) then Some(|s| - 1)
    else LastIndex(s[..|s| - 1], p)
  }

  // ----- pairing codes -----

  /** Index picks of the random generator: eight, each within the alphabet. */
  predicate ValidPicks(picks: seq<nat>) {
    |picks| == CodeLength && forall k :: 0 <= k < |picks| ==> picks[k] < |Alphabet|
  }

  /** Twenty draws of picks, one per attempt. */
  predicate ValidDraws(draws: seq<seq<nat>>) {
    |draws| == CodeAttempts && forall d :: 0 <= d < |draws| ==> ValidPicks(draws[d])
  }

  /** `random_pairing_code`: the alphabet letters at the generator's picks. */
  function RandomCode(picks: seq<nat>): string
    requires ValidPicks(picks)
  {
    seq(|picks|, k requires 0 <= k < |picks| => Alphabet[picks[k]])
  }

  predicate AlphabetChar(c: char) {
    ('A' <= c <= 'Z' && c != 'O' && c != 'I') || ('2' <= c <= '9')
  }

  lemma AlphabetChars(j: nat)
    requires j < |Alphabet|
    ensures AlphabetChar(Alphabet[j])
  {
    assert Alphabet == ['A', 'B', 'C', 'D', 'E', 'F', 'G', 'H', 'J', 'K', 'L', 'M', 'N', 'P', 'Q', 'R',
                        'S', 'T', 'U', 'V', 'W', 'X', 'Y', 'Z', '2', '3', '4', '5', '6', '7', '8', '9'];
  }

  /**
   * A random code is eight capitals and digits other than 0, O, 1 and I, already in upper
   * case; L can occur.
   */
  lemma RandomCodeShape(picks: seq<nat>)
    requires ValidPicks(picks)
    ensures |RandomCode(picks)| == CodeLength
    ensures forall k :: 0 <= k < CodeLength ==> AlphabetChar(RandomCode(picks)[k])
    ensures ToUpper(RandomCode(picks)) == RandomCode(picks)
  {
    var code := RandomCode(picks);
    forall k | 0 <= k < CodeLength
      ensures AlphabetChar(code[k]) && UpperChar(code[k]) == code[k]
    {
      AlphabetChars(picks[k]);
    }
  }

  /** The comment's promise fails: the code of eight picks of index 10 is all L. */
  lemma LookAlikeL()
    ensures ValidPicks([10, 10, 10, 10, 10, 10, 10, 10])
    ensures RandomCode([10, 10, 10, 10, 10, 10, 10, 10]) == "LLLLLLLL"
  {
  }

  function HexDigit(d: nat): (c: char)
    requires d < 16
  {
    if d < 10 then ('0' as int + d) as char else ('A' as int + d - 10) as char
  }

  /** `format!("{:X}", n)`: upper-case hexadecimal without leading zeros. */
  function Hex(n: nat): (s: string)
    ensures |s| >= 1
    ensures forall i :: 0 <= i < |s| ==> s[i] in "0123456789ABCDEF"
  {
    if n < 16 then [HexDigit(n)] else Hex(n / 16) + [HexDigit(n % 16)]
  }

  /** The clock fallback: the last eight hex digits of the time in milliseconds, left-padded with `A`. */
  function FallbackCode(ts: nat): string {
    var hex := Hex(ts);
    var tail := if |hex| > CodeLength then hex[|hex| - CodeLength..] else hex;
    seq(CodeLength - |tail|, _ => 'A') + tail
  }

  lemma FallbackCodeShape(ts: nat)
    ensures |FallbackCode(ts)| == CodeLength
    ensures forall k :: 0 <= k < CodeLength ==> FallbackCode(ts)[k] in "0123456789ABCDEF"
    ensures |Hex(ts)| <= CodeLength ==> EndsWith(FallbackCode(ts), Hex(ts))
  {
  }

  /** The codes already handed out, in upper case: every pending code and every recorded approved code. */
  function ExistingCodes(pending: seq<PendingEntry>, approved: seq<ApprovedEntry>): set<string> {
    (set e <- pending :: ToUpper(e.code)) + (set e <- approved | e.approvedCode.Some? :: ToUpper(e.approvedCode.value))
  }

  /** The first of the draws that is not taken. */
  function FirstUnused(draws: seq<seq<nat>>, existing: set<string>): Option<string>
    requires forall d :: 0 <= d < |draws| ==> ValidPicks(draws[d])
  {
    if draws == [] then None
    else if RandomCode(draws[0]) !in existing then Some(RandomCode(draws[0]))
    else FirstUnused(draws[1..], existing)
  }

  /** What `create_unique_code` returns for the given draws and clock. */
  function UniqueCode(pending: seq<PendingEntry>, approved: seq<ApprovedEntry>, draws: seq<seq<nat>>, ts: nat): string
    requires ValidDraws(draws)
  {
    match FirstUnused(draws, ExistingCodes(pending, approved))
    case Some(code) => code
    case None => FallbackCode(ts)
  }

  lemma {:induction false} FirstUnusedProperties(draws: seq<seq<nat>>, existing: set<string>)
    requires forall d :: 0 <= d < |draws| ==> ValidPicks(draws[d])
    ensures var r := FirstUnused(draws, existing);
      && (r.Some? ==> r.value !in existing && exists d :: 0 <= d < |draws| && r.value == RandomCode(draws[d]))
      && (r.None? <==> forall d :: 0 <= d < |draws| ==> RandomCode(draws[d]) in existing)
  {
    if draws != [] {
      FirstUnusedProperties(draws[1..], existing);
      var r := FirstUnused(draws, existing);
      if RandomCode(draws[0]) in existing {
        if r.Some? {
          var d :| 0 <= d < |draws[1..]| && r.value == RandomCode(draws[1..][d]);
          assert r.value == RandomCode(draws[d + 1]);
        }
        if forall d :: 0 <= d < |draws[1..]| ==> RandomCode(draws[1..][d]) in existing {
          forall d | 0 <= d < |draws| ensures RandomCode(draws[d]) in existing {
            if d > 0 {
              assert draws[d] == draws[1..][d - 1];
            }
          }
        }
      }
    }
  }

  /**
   * The code handed to a new sender is eight characters long, and is a random code not
   * already pending or approved (compared case-insensitively) unless all twenty draws
   * were taken, in which case it is the clock fallback, which is not checked.
   */
  lemma UniqueCodeProperties(pending: seq<PendingEntry>, approved: seq<ApprovedEntry>, draws: seq<seq<nat>>, ts: nat)
    requires ValidDraws(draws)
    ensures var code := UniqueCode(pending, approved, draws, ts);
      && |code| == CodeLength
      && ((exists d :: 0 <= d < |draws| && RandomCode(draws[d]) !in ExistingCodes(pending, approved))
            ==> (code !in ExistingCodes(pending, approved) && ToUpper(code) == code
                 && exists d :: 0 <= d < |draws| && code == RandomCode(draws[d])))
      && ((forall d :: 0 <= d < |draws| ==> RandomCode(draws[d]) in ExistingCodes(pending, approved))
            ==> code == FallbackCode(ts))
  {
    var existing := ExistingCodes(pending, approved);
    FirstUnusedProperties(draws, existing);
    FallbackCodeShape(ts);
    var r := FirstUnused(draws, existing);
    if r.Some? {
      var d :| 0 <= d < |draws| && r.value == RandomCode(draws[d]);
      RandomCodeShape(draws[d]);
    }
  }

  /** `create_unique_code`: up to twenty random codes, the first one not taken, else the clock fallback. */
  method CreateUniqueCode(pending: seq<PendingEntry>, approved: seq<ApprovedEntry>, draws: seq<seq<nat>>, ts: nat)
    returns (code: string)
    requires ValidDraws(draws)
    ensures code == UniqueCode(pending, approved, draws, ts)
  {
    var existing := ExistingCodes(pending, approved);
    for i := 0 to CodeAttempts
      invariant FirstUnused(draws, existing) == FirstUnused(draws[i..], existing)
    {
      assert draws[i..][1..] == draws[i + 1..];
      var candidate := RandomCode(draws[i]);
      if candidate !in existing {
        return candidate;
      }
    }
    return FallbackCode(ts);
  }

  // ----- the two operations, as functions of the pairing file -----

  /** The approved-list test of `ensure_sender_paired`: the entry's `channel::sender_id` key is `key`. */
  function HasKey(key: string): ApprovedEntry -> bool {
    (e: ApprovedEntry) => SenderKey(e.channel, e.senderId) == key
  }

  /** The pending-list test of `ensure_sender_paired`: same channel and sender id. */
  function IsPending(channel: string, senderId: string): PendingEntry -> bool {
    (e: PendingEntry) => e.channel == channel && e.senderId == senderId
  }

  /** The code test of `approve_pairing_code`: the entry's code, upper-cased, is the normalised code. */
  function HoldsCode(normalized: string): PendingEntry -> bool {
    (e: PendingEntry) => ToUpper(e.code) == normalized
  }

  /** The approved-list test of `approve_pairing_code`: same channel and sender id. */
  function IsApproved(channel: string, senderId: string): ApprovedEntry -> bool {
    (e: ApprovedEntry) => e.channel == channel && e.senderId == senderId
  }

  /** The state and answer of `ensure_sender_paired`, given the code a new sender would get. */
  function Ensured(pending: seq<PendingEntry>, approved: seq<ApprovedEntry>, channel: string, senderId: string,
                   sender: string, now: nat, newCode: string): (seq<PendingEntry>, seq<ApprovedEntry>, CheckResult)
  {
    var key := SenderKey(channel, senderId);
    match LastIndex(approved, HasKey(key))
    case Some(i) => (pending, approved[i := approved[i].(sender := sender)], CheckResult(true, None, None))
    case None =>
      match FirstIndex(pending, IsPending(channel, senderId))
      case Some(j) =>
        (pending[j := pending[j].(lastSeenAt := now, sender := sender)], approved,
         CheckResult(false, Some(pending[j].code), Some(false)))
      case None =>
        (pending + [PendingEntry(channel, senderId, sender, newCode, now, now)], approved,
         CheckResult(false, Some(newCode), Some(true)))
  }

  /** `code.trim().to_uppercase()`. */
  function Normalized(code: string): string {
    ToUpper(Trim(code))
  }

  /** The state and answer of `approve_pairing_code`. */
  function Approved(pending: seq<PendingEntry>, approved: seq<ApprovedEntry>, code: string, now: nat)
    : (seq<PendingEntry>, seq<ApprovedEntry>, ApproveResult)
  {
    var normalized := Normalized(code);
    if normalized == [] then (pending, approved, ApproveResult(false, Some(CodeRequired), None))
    else
      match FirstIndex(pending, HoldsCode(normalized))
      case None => (pending, approved, ApproveResult(false, Some(CodeNotFound + normalized), None))
      case Some(j) =>
        var p := pending[j];
        var entry := ApprovedEntry(p.channel, p.senderId, p.sender, now, Some(normalized));
        (pending[..j] + pending[j + 1..], WithApproved(approved, entry), ApproveResult(true, None, Some(entry)))
  }

  /** The approved list with `entry` replacing the sender's first entry, or appended when there is none. */
  function WithApproved(approved: seq<ApprovedEntry>, entry: ApprovedEntry): seq<ApprovedEntry> {
    match FirstIndex(approved, IsApproved(entry.channel, entry.senderId))
    case Some(k) => approved[k := entry]
    case None => approved + [entry]
  }

  // ----- the pairing file -----

  class PairingFile {
    var pending: seq<PendingEntry>
    var approved: seq<ApprovedEntry>

    /** A missing or unreadable pairing file loads as empty lists. */
    constructor ()
      ensures pending == [] && approved == []
    {
      pending := [];
      approved := [];
    }

    /**
     * `ensure_sender_paired`: an approved sender is let through (its stored name refreshed),
     * a pending one is reminded of its code, and a new one is given a fresh code.
     */
    method EnsureSenderPaired(channel: string, senderId: string, sender: string, now: nat,
                              draws: seq<seq<nat>>, ts: nat)
      returns (r: CheckResult)
      requires ValidDraws(draws)
      modifies this
      ensures (pending, approved, r)
              == Ensured(old(pending), old(approved), channel, senderId, sender, now,
                         UniqueCode(old(pending), old(approved), draws, ts))
    {
      var key := SenderKey(channel, senderId);
      var i := LastIndex(approved, HasKey(key));
      if i.Some? {
        if approved[i.value].sender != sender {
          approved := approved[i.value := approved[i.value].(sender := sender)];
        } else {
          assert approved[i.value := approved[i.value].(sender := sender)] == approved;
        }
        return CheckResult(true, None, None);
      }
      var j := FirstIndex(pending, IsPending(channel, senderId));
      if j.Some? {
        var code := pending[j.value].code;
        pending := pending[j.value := pending[j.value].(lastSeenAt := now, sender := sender)];
        return CheckResult(false, Some(code), Some(false));
      }
      var code := CreateUniqueCode(pending, approved, draws, ts);
      pending := pending + [PendingEntry(channel, senderId, sender, code, now, now)];
      r := CheckResult(false, Some(code), Some(true));
    }

    /** `approve_pairing_code`: moves the sender holding `code` from pending to approved. */
    method ApprovePairingCode(code: string, now: nat) returns (r: ApproveResult)
      modifies this
      ensures (pending, approved, r) == Approved(old(pending), old(approved), code, now)
    {
      var normalized := Normalized(code);
      if normalized == [] {
        return ApproveResult(false, Some(CodeRequired), None);
      }
      var j := FirstIndex(pending, HoldsCode(normalized));
      if j.None? {
        return ApproveResult(false, Some(CodeNotFound + normalized), None);
      }
      var p := pending[j.value];
      pending := pending[..j.value] + pending[j.value + 1..];
      var entry := ApprovedEntry(p.channel, p.senderId, p.sender, now, Some(normalized));
      var k := FirstIndex(approved, IsApproved(entry.channel, entry.senderId));
      if k.Some? {
        approved := approved[k.value := entry];
      } else {
        approved := approved + [entry];
      }
      r := ApproveResult(true, None, Some(entry));
    }
  }

  // ----- what the operations guarantee -----

  /**
   * An approved sender (found under its `channel::sender_id` key) is reported approved
   * without a code, and only that entry's display name can change. A pending sender gets
   * its existing code back, flagged as not new, with its last-seen time and name refreshed
   * and no entry added. An unknown sender gains exactly one pending entry, created and
   * last seen now, and gets its new code, flagged as new.
   */
  lemma EnsuredProperties(pending: seq<PendingEntry>, approved: seq<ApprovedEntry>, channel: string, senderId: string,
                          sender: string, now: nat, newCode: string)
    ensures var (pending', approved', r) := Ensured(pending, approved, channel, senderId, sender, now, newCode);
      var isApproved := exists i :: 0 <= i < |approved| && SenderKey(approved[i].channel, approved[i].senderId) == SenderKey(channel, senderId);
      var isPending := exists j :: 0 <= j < |pending| && pending[j].channel == channel && pending[j].senderId == senderId;
      && (r.approved <==> isApproved)
      && (isApproved ==> r.code.None? && r.isNewPending.None? && pending' == pending && |approved'| == |approved|
                         && forall i :: 0 <= i < |approved| ==> approved'[i] == approved[i] || approved'[i] == approved[i].(sender := sender))
      && (!isApproved && isPending ==>
            approved' == approved && r.isNewPending == Some(false) && |pending'| == |pending|
            && exists j :: 0 <= j < |pending| && pending[j].channel == channel && pending[j].senderId == senderId
                           && r.code == Some(pending[j].code)
                           && pending' == pending[j := pending[j].(lastSeenAt := now, sender := sender)])
      && (!isApproved && !isPending ==>
            approved' == approved && r == CheckResult(false, Some(newCode), Some(true))
            && pending' == pending + [PendingEntry(channel, senderId, sender, newCode, now, now)])
  {
  }

  /**
   * A blank code is refused as required and a code that no pending entry holds (compared
   * case-insensitively) as not found, both without changing anything. A matching code
   * removes exactly that pending entry and records the sender as approved now under the
   * normalised code, replacing its existing approved entry instead of adding a second.
   */
  lemma ApprovedProperties(pending: seq<PendingEntry>, approved: seq<ApprovedEntry>, code: string, now: nat)
    ensures var (pending', approved', r) := Approved(pending, approved, code, now);
      var normalized := Normalized(code);
      && (normalized == [] ==> pending' == pending && approved' == approved && r == ApproveResult(false, Some(CodeRequired), None))
      && (normalized != [] && (forall j :: 0 <= j < |pending| ==> ToUpper(pending[j].code) != normalized) ==>
            pending' == pending && approved' == approved && r == ApproveResult(false, Some(CodeNotFound + normalized), None))
      && (r.ok ==>
            r.entry.Some? && r.entry.value.approvedCode == Some(normalized) && r.entry.value.approvedAt == now
            && (exists j :: 0 <= j < |pending| && ToUpper(pending[j].code) == normalized
                            && pending' == pending[..j] + pending[j + 1..]
                            && r.entry.value.channel == pending[j].channel && r.entry.value.senderId == pending[j].senderId
                            && r.entry.value.sender == pending[j].sender)
            && r.entry.value in approved'
            && (forall e <- approved :: !(e.channel == r.entry.value.channel && e.senderId == r.entry.value.senderId) ==> e in approved')
            && (if exists e <- approved :: e.channel == r.entry.value.channel && e.senderId == r.entry.value.senderId
                then |approved'| == |approved| else approved' == approved + [r.entry.value]))
      && (!r.ok ==> r.entry.None? && r.reason.Some?)
  {
    ApprovedRefused(pending, approved, code, now);
    if Approved(pending, approved, code, now).2.ok {
      ApprovedPromotes(pending, approved, code, now);
    }
  }

  /** The two refusals of `approve_pairing_code`, which change nothing. */
  lemma ApprovedRefused(pending: seq<PendingEntry>, approved: seq<ApprovedEntry>, code: string, now: nat)
    ensures var normalized := Normalized(code);
      var outcome := Approved(pending, approved, code, now);
      && (normalized == [] ==> outcome == (pending, approved, ApproveResult(false, Some(CodeRequired), None)))
      && (normalized != [] && (forall j :: 0 <= j < |pending| ==> ToUpper(pending[j].code) != normalized) ==>
            outcome == (pending, approved, ApproveResult(false, Some(CodeNotFound + normalized), None)))
      && (!outcome.2.ok ==> outcome.2.entry.None? && outcome.2.reason.Some?)
  {
    var normalized := Normalized(code);
    if normalized != [] && (forall j :: 0 <= j < |pending| ==> ToUpper(pending[j].code) != normalized) {
      forall i | 0 <= i < |pending| ensures !HoldsCode(normalized)(pending[i]) {}
    }
  }

  /** A successful approval removes the matching pending entry and records its sender as approved now. */
  lemma ApprovedPromotes(pending: seq<PendingEntry>, approved: seq<ApprovedEntry>, code: string, now: nat)
    requires Approved(pending, approved, code, now).2.ok
    ensures var normalized := Normalized(code);
      var (pending', approved', r) := Approved(pending, approved, code, now);
      && r.entry.Some? && r.entry.value.approvedCode == Some(normalized) && r.entry.value.approvedAt == now
      && (exists j :: 0 <= j < |pending| && ToUpper(pending[j].code) == normalized
                      && pending' == pending[..j] + pending[j + 1..]
                      && r.entry.value.channel == pending[j].channel && r.entry.value.senderId == pending[j].senderId
                      && r.entry.value.sender == pending[j].sender)
      && r.entry.value in approved'
      && (forall e <- approved :: !(e.channel == r.entry.value.channel && e.senderId == r.entry.value.senderId) ==> e in approved')
      && (if exists e <- approved :: e.channel == r.entry.value.channel && e.senderId == r.entry.value.senderId
          then |approved'| == |approved| else approved' == approved + [r.entry.value])
  {
    var normalized := Normalized(code);
    var j := FirstIndex(pending, HoldsCode(normalized)).value;
    var p := pending[j];
    var entry := ApprovedEntry(p.channel, p.senderId, p.sender, now, Some(normalized));
    assert Approved(pending, approved, code, now) == (pending[..j] + pending[j + 1..], WithApproved(approved, entry), ApproveResult(true, None, Some(entry)));
    assert HoldsCode(normalized)(pending[j]);
    WithApprovedProperties(approved, entry);
  }

  /**
   * Replacing or appending: the new entry is in the list, every other sender's entry stays,
   * and the list grows only when the sender had no entry.
   */
  lemma WithApprovedProperties(approved: seq<ApprovedEntry>, entry: ApprovedEntry)
    ensures var w := WithApproved(approved, entry);
      && entry in w
      && (forall e <- approved :: !(e.channel == entry.channel && e.senderId == entry.senderId) ==> e in w)
      && (if exists e <- approved :: e.channel == entry.channel && e.senderId == entry.senderId
          then |w| == |approved| else w == approved + [entry])
  {
    var w := WithApproved(approved, entry);
    match FirstIndex(approved, IsApproved(entry.channel, entry.senderId))
    case Some(k) =>
      assert w == approved[k := entry] && w[k] == entry;
      forall a <- approved | !(a.channel == entry.channel && a.senderId == entry.senderId) ensures a in w {
        var i :| 0 <= i < |approved| && approved[i] == a;
        assert w[i] == a;
      }
    case None =>
      assert w == approved + [entry] && w[|approved|] == entry;
      forall a <- approved ensures !(a.channel == entry.channel && a.senderId == entry.senderId) {
        var i :| 0 <= i < |approved| && approved[i] == a;
        assert !IsApproved(entry.channel, entry.senderId)(approved[i]);
      }
  }

  /** Approving a sender's code lets that sender through on its next message, under any display name. */
  lemma ApproveThenEnsure(pending: seq<PendingEntry>, approved: seq<ApprovedEntry>, code: string, now: nat,
                          sender: string, later: nat, newCode: string)
    requires Approved(pending, approved, code, now).2.ok
    ensures var (pending', approved', r) := Approved(pending, approved, code, now);
      var e := r.entry.value;
      Ensured(pending', approved', e.channel, e.senderId, sender, later, newCode).2 == CheckResult(true, None, None)
  {
    ApprovedProperties(pending, approved, code, now);
    var (pending', approved', r) := Approved(pending, approved, code, now);
    var e := r.entry.value;
    var i :| 0 <= i < |approved'| && approved'[i] == e;
    EnsuredProperties(pending', approved', e.channel, e.senderId, sender, later, newCode);
  }

  /** A new sender that writes again before approval gets the same code back, flagged as not new. */
  lemma EnsureTwice(pending: seq<PendingEntry>, approved: seq<ApprovedEntry>, channel: string, senderId: string,
                    sender: string, now: nat, later: nat, newCode: string, otherCode: string)
    requires Ensured(pending, approved, channel, senderId, sender, now, newCode).2.isNewPending == Some(true)
    ensures var (pending', approved', _) := Ensured(pending, approved, channel, senderId, sender, now, newCode);
      Ensured(pending', approved', channel, senderId, sender, later, otherCode).2 == CheckResult(false, Some(newCode), Some(false))
  {
    EnsuredProperties(pending, approved, channel, senderId, sender, now, newCode);
    var (pending', approved', _) := Ensured(pending, approved, channel, senderId, sender, now, newCode);
    var p := IsPending(channel, senderId);
    assert FirstIndex(pending', p) == Some(|pending|) by {
      assert p(pending'[|pending|]);
      assert forall j :: 0 <= j < |pending| ==> !p(pending'[j]);
    }
  }

  /** No two approved entries for the same sender on the same channel. */
  ghost predicate OnePerSender(approved: seq<ApprovedEntry>) {
    forall i, j :: 0 <= i < j < |approved| ==>
      !(approved[i].channel == approved[j].channel && approved[i].senderId == approved[j].senderId)
  }

  /** Approval keeps the approved list free of duplicate senders, because it replaces rather than appends. */
  lemma ApproveKeepsOnePerSender(pending: seq<PendingEntry>, approved: seq<ApprovedEntry>, code: string, now: nat)
    requires OnePerSender(approved)
    ensures OnePerSender(Approved(pending, approved, code, now).1)
  {
    var normalized := Normalized(code);
    if normalized != [] && FirstIndex(pending, HoldsCode(normalized)).Some? {
      var p := pending[FirstIndex(pending, HoldsCode(normalized)).value];
      WithApprovedOnePerSender(approved, ApprovedEntry(p.channel, p.senderId, p.sender, now, Some(normalized)));
    }
  }

  /** Replacing the sender's entry, or appending one when it has none, adds no duplicate sender. */
  lemma WithApprovedOnePerSender(approved: seq<ApprovedEntry>, entry: ApprovedEntry)
    requires OnePerSender(approved)
    ensures OnePerSender(WithApproved(approved, entry))
  {
    match FirstIndex(approved, IsApproved(entry.channel, entry.senderId))
    case Some(k) =>
      assert IsApproved(entry.channel, entry.senderId)(approved[k]);
    case None =>
      forall i | 0 <= i < |approved| ensures !IsApproved(entry.channel, entry.senderId)(approved[i]) {}
  }
}
