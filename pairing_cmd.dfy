/**
 * The `pairing` command of the CLI (crates/rustyclaw-cli/src/pairing_cmd.rs): unpairing
 * an approved sender and the timestamps the listings print. Listing and approving are
 * printing around the pairing operations and are not modelled here.
 */
module PairingCmd {
  import opened Wrappers
  import opened Text
  import opened Pairing
  import opened Calendar

  // ----- unpair -----

  /**
   * The approved list after `unpair`, and whether the file is saved: entries are removed by
   * sender id, and only when none matches by their `channel::sender_id` key. Nothing
   * removed means nothing saved.
   */
  function Unpaired(approved: seq<ApprovedEntry>, arg: string): (seq<ApprovedEntry>, bool) {
    var byId := Retain(approved, (e: ApprovedEntry) => e.senderId != arg);
    var after := if |byId| == |approved| then Retain(approved, (e: ApprovedEntry) => SenderKey(e.channel, e.senderId) != arg)
                 else byId;
    (after, |after| != |approved|)
  }

  /** `unpair`: two in-place passes over the approved list; the pending list is not touched. */
  method Unpair(file: PairingFile, arg: string) returns (saved: bool)
    modifies file
    ensures (file.approved, saved) == Unpaired(old(file.approved), arg)
    ensures file.pending == old(file.pending)
  {
    var original := |file.approved|;
    ghost var before := file.approved;
    file.approved := Retain(file.approved, (e: ApprovedEntry) => e.senderId != arg);
    if |file.approved| == original {
      RetainAll(before, (e: ApprovedEntry) => e.senderId != arg);
      file.approved := Retain(file.approved, (e: ApprovedEntry) => SenderKey(e.channel, e.senderId) != arg);
    }
    saved := |file.approved| != original;
  }

  /**
   * When some approved sender has the given id, exactly the entries with that id go. Only
   * otherwise do the entries whose `channel::sender_id` key equals it go. The file is saved
   * exactly when something went, and an unsaved list is unchanged.
   */
  lemma UnpairedProperties(approved: seq<ApprovedEntry>, arg: string)
    ensures var (after, saved) := Unpaired(approved, arg);
      var idMatch := exists e <- approved :: e.senderId == arg;
      var keyMatch := exists e <- approved :: SenderKey(e.channel, e.senderId) == arg;
      && (idMatch ==> saved && forall e <- approved :: e in after <==> e.senderId != arg)
      && (!idMatch ==> forall e <- approved :: e in after <==> SenderKey(e.channel, e.senderId) != arg)
      && (saved <==> idMatch || keyMatch)
      && (!saved ==> after == approved)
  {
    var (after, saved) := Unpaired(approved, arg);
    var byId := Retain(approved, (e: ApprovedEntry) => e.senderId != arg);
    if !saved {
      assert |after| == |approved|;
      RetainAll(approved, (e: ApprovedEntry) => SenderKey(e.channel, e.senderId) != arg);
      RetainAll(approved, (e: ApprovedEntry) => e.senderId != arg);
    }
  }

  // ----- format_timestamp -----

  /** `format_timestamp`: milliseconds as `%Y-%m-%d %H:%M:%S` in UTC, or `unknown` past chrono's range. */
  function FormatTimestamp(millis: nat): string {
    var secs := millis / 1000;
    if secs > MaxSeconds then "unknown" else Render(FromTimestamp(secs))
  }

  /**
   * A timestamp chrono can represent prints as its UTC date and time of day (see
   * `FromTimestamp`), each field read back from its position. Past the range it prints
   * as `unknown`.
   */
  lemma FormatTimestampProperties(millis: nat)
    ensures millis / 1000 > MaxSeconds ==> FormatTimestamp(millis) == "unknown"
    ensures millis / 1000 <= MaxSeconds && FromTimestamp(millis / 1000).year <= 9999 ==>
      ShowsDateTime(FormatTimestamp(millis), FromTimestamp(millis / 1000))
  {
    var secs := millis / 1000;
    if secs <= MaxSeconds {
      var t := FromTimestamp(secs);
      assert FormatTimestamp(millis) == Render(t);
      if t.year <= 9999 {
        RenderFields(t);
      }
    }
  }

  /** The epoch itself. */
  lemma EpochFormat()
    ensures FormatTimestamp(999) == "1970-01-01 00:00:00"
  {
    var t := FromTimestamp(0);
    EpochDate();
    EpochRender();
    assert 999 / 1000 == 0 <= MaxSeconds;
    assert FormatTimestamp(999) == Render(t);
  }

}
