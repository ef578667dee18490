/**
 * Transcripts (crates/rustyclaw-core/src/transcript.rs): every exchange is appended as a
 * JSON line to a per-day file, and the most recent entries of yesterday's and today's
 * files are formatted back into a context block that fits a character budget. The files
 * are parameters: each is unreadable or a list of lines, each of which parsed or not.
 */
module Transcript {
  import opened Wrappers
  import opened Text
  import opened Calendar

  datatype TranscriptEntry = TranscriptEntry(
    timestamp: nat,
    agentId: string,
    role: string,
    content: string,
    messageId: Option<string>,
    channel: Option<string>,
    sender: Option<string>,
    responseLength: Option<nat>,
    entryType: Option<string>,
    charsBefore: Option<nat>)

  /** Content longer than this is cut when an entry is formatted. */
  const EntryContentCap: nat := 500

  // ----- one entry -----

  /** The entry's time as `%H:%M` in UTC, or `??:??` past chrono's range. */
  function Clock(millis: nat): string {
    var secs := millis / 1000;
    if secs > MaxSeconds then "??:??"
    else
      var t := FromTimestamp(secs);
      TwoDigits(t.hour) + ":" + TwoDigits(t.minute)
  }

  /** Within chrono's range the clock shows the hour of the day and the minute of the hour. */
  lemma ClockProperties(millis: nat)
    ensures var secs := millis / 1000;
      var c := Clock(millis);
      && (secs > MaxSeconds ==> c == "??:??")
      && (secs <= MaxSeconds ==>
            && |c| == 5 && c[2] == ':'
            && ParseDigits(c[..2]) == secs % SecondsPerDay / 3600
            && ParseDigits(c[3..]) == secs % 3600 / 60)
  {
    var secs := millis / 1000;
    if secs <= MaxSeconds {
      var t := FromTimestamp(secs);
      var c := Clock(millis);
      assert c[..2] == TwoDigits(t.hour) && c[3..] == TwoDigits(t.minute);
      MinuteOfHour(secs);
    }
  }

  lemma MinuteOfHour(secs: nat)
    ensures secs % SecondsPerDay % 3600 == secs % 3600
  {
    var q := secs / SecondsPerDay;
    assert secs == q * 86400 + secs % SecondsPerDay;
    assert q * 86400 == (q * 24) * 3600;
  }

  /** How the entry's author is named: `user`, `@` and the agent for the assistant, otherwise the role. */
  function Speaker(e: TranscriptEntry): string {
    if e.role == "user" then "user"
    else if e.role == "assistant" then "@" + e.agentId
    else e.role
  }

  /** `format_transcript_entry`. */
  function FormatEntry(e: TranscriptEntry): string {
    "[" + Clock(e.timestamp) + "] " + Speaker(e) + ": " + Capped(e.content, EntryContentCap)
  }

  /**
   * A formatted entry opens with its bracketed clock, then `user: ` for the user, `@agent: `
   * for the assistant and the role itself for any other author.
   */
  lemma FormatEntryHead(e: TranscriptEntry)
    ensures var r := FormatEntry(e);
      && StartsWith(r, "[" + Clock(e.timestamp) + "] ")
      && (e.role == "user" ==> StartsWith(r, "[" + Clock(e.timestamp) + "] user: "))
      && (e.role == "assistant" ==> StartsWith(r, "[" + Clock(e.timestamp) + "] @" + e.agentId + ": "))
      && (e.role != "user" && e.role != "assistant" ==> StartsWith(r, "[" + Clock(e.timestamp) + "] " + e.role + ": "))
  {
    var head := "[" + Clock(e.timestamp) + "] ";
    var h := head + Speaker(e) + ": ";
    var body := Capped(e.content, EntryContentCap);
    assert FormatEntry(e) == h + body;
    PrefixOfAppend(h, body, |h|);
    assert h[..|h|] == h;
    PrefixOfAppend(h, body, |head|);
    PrefixOfAppend(head + Speaker(e), ": ", |head|);
    PrefixOfAppend(head, Speaker(e), |head|);
    assert head[..|head|] == head;
    if e.role == "user" {
      Reassociate(head, "user", ": ");
    }
    if e.role == "assistant" {
      Reassociate(head, "@" + e.agentId, ": ");
      Reassociate(head, "@", e.agentId);
    }
  }

  /**
   * A formatted entry ends with its content when that is at most 500 characters; a longer
   * content is cut to 500 and followed by the length marker.
   */
  lemma FormatEntryContent(e: TranscriptEntry)
    ensures var r := FormatEntry(e);
      && (|e.content| <= EntryContentCap ==> EndsWith(r, e.content))
      && (|e.content| > EntryContentCap ==> Contains(r, e.content[..EntryContentCap] + TruncatedOpen))
  {
    var r := FormatEntry(e);
    var body := Capped(e.content, EntryContentCap);
    var front := "[" + Clock(e.timestamp) + "] " + Speaker(e) + ": ";
    assert r == front + body;
    if |e.content| <= EntryContentCap {
      assert r[|r| - |body|..] == body;
    } else {
      var cut := e.content[..EntryContentCap] + TruncatedOpen;
      assert body == cut + (NatToString(|e.content|) + TruncatedClose);
      assert r[|front|..|front| + |cut|] == cut;
      ContainsAt(r, |front|, cut);
    }
  }

  // ----- reading the files -----

  /** A day's file as read: missing or unopenable, or its lines, each one parsed or not. */
  datatype TranscriptFile = Unreadable | Readable(lines: seq<Option<TranscriptEntry>>)

  /** The entries a file contributes: the lines that parse, in order. */
  function FileEntries(f: TranscriptFile): seq<TranscriptEntry> {
    match f
    case Unreadable => []
    case Readable(lines) => Present(lines)
  }

  /** Reading one file's lines onto the end of `entries`. */
  method AppendFile(entries: seq<TranscriptEntry>, f: TranscriptFile) returns (entries': seq<TranscriptEntry>)
    ensures entries' == entries + FileEntries(f)
  {
    entries' := entries;
    if f.Unreadable? {
      return;
    }
    var lines := f.lines;
    for i := 0 to |lines|
      invariant entries' == entries + Present(lines[..i])
    {
      assert lines[..i + 1][..i] == lines[..i];
      if lines[i].Some? {
        entries' := entries' + [lines[i].value];
      }
    }
    assert lines[..|lines|] == lines;
  }

  // ----- the budget -----

  /** The total length of some lines. */
  function Chars(lines: seq<string>): nat {
    if lines == [] then 0 else |lines[0]| + Chars(lines[1..])
  }

  /** A longer suffix has at least as many characters. */
  lemma {:induction false} CharsSuffixGrows(lines: seq<string>, a: nat, b: nat)
    requires a <= b <= |lines|
    ensures Chars(lines[b..]) <= Chars(lines[a..])
    decreases b - a
  {
    if a < b {
      CharsSuffixGrows(lines, a + 1, b);
      assert lines[a..][1..] == lines[a + 1..];
    }
  }

  /** The characters of the latest `n` lines. */
  function LatestChars(fs: seq<string>, n: nat): nat
    requires n <= |fs|
  {
    Chars(fs[|fs| - n..])
  }

  /**
   * How many of the latest lines fit, counting up from `k`: the latest always counts,
   * and each earlier one while the total stays within `max`.
   */
  function KeptFrom(fs: seq<string>, max: nat, k: nat): (n: nat)
    requires 1 <= k <= |fs| && (k == 1 || LatestChars(fs, k) <= max)
    ensures k <= n <= |fs|
    ensures n == 1 || LatestChars(fs, n) <= max
    ensures n == |fs| || LatestChars(fs, n + 1) > max
    decreases |fs| - k
  {
    if k < |fs| && LatestChars(fs, k + 1) <= max then KeptFrom(fs, max, k + 1) else k
  }

  /** How many of the latest lines the budget keeps. */
  function Kept(fs: seq<string>, max: nat): (n: nat)
    requires fs != []
    ensures 1 <= n <= |fs|
    ensures n == 1 || Chars(fs[|fs| - n..]) <= max
    ensures n == |fs| || Chars(fs[|fs| - n - 1..]) > max
  {
    KeptFrom(fs, max, 1)
  }

  /** When the next older line still fits, the budget keeps more than the lines so far. */
  lemma KeptBeyond(fs: seq<string>, max: nat, m: nat)
    requires m < |fs| && m <= Kept(fs, max) && (m == 0 || Chars(fs[|fs| - m - 1..]) <= max)
    ensures m < Kept(fs, max)
  {
  }

  /** The formatted entries, in order. */
  function Formatted(entries: seq<TranscriptEntry>): (fs: seq<string>)
    ensures |fs| == |entries|
    ensures forall i {:trigger FormatEntry(entries[i])} :: 0 <= i < |entries| ==> fs[i] == FormatEntry(entries[i])
  {
    seq(|entries|, i requires 0 <= i < |entries| => FormatEntry(entries[i]))
  }

  /** The latest lines the budget keeps, oldest first, one per line. */
  function Budgeted(fs: seq<string>, max: nat): string
    requires fs != []
  {
    Join(fs[|fs| - Kept(fs, max)..], "\n")
  }

  /** The lines of the most recent entries the budget keeps, oldest first, one per line. */
  function RecentContext(entries: seq<TranscriptEntry>, max: nat): string {
    if max == 0 || entries == [] then "" else Budgeted(Formatted(entries), max)
  }

  /** What `read_recent_transcript_context` returns. */
  function ReadRecent(dirExists: bool, yesterday: TranscriptFile, today: TranscriptFile, max: nat): string {
    if max == 0 || !dirExists then "" else RecentContext(FileEntries(yesterday) + FileEntries(today), max)
  }

  /** `Vec::reverse`. */
  function Reversed<T>(s: seq<T>): (r: seq<T>)
    ensures |r| == |s|
  {
    if s == [] then [] else Reversed(s[1..]) + [s[0]]
  }

  lemma {:induction false} ReversedAppend<T>(s: seq<T>, x: T)
    ensures Reversed(s + [x]) == [x] + Reversed(s)
    decreases |s|
  {
    if s != [] {
      assert (s + [x])[1..] == s[1..] + [x];
      ReversedAppend(s[1..], x);
    }
  }

  /** Reversing twice gives back the original order. */
  lemma {:induction false} ReversedTwice<T>(s: seq<T>)
    ensures Reversed(Reversed(s)) == s
    decreases |s|
  {
    if s != [] {
      ReversedAppend(Reversed(s[1..]), s[0]);
      ReversedTwice(s[1..]);
    }
  }

  /**
   * The backward loop: walking from the newest entry, each formatted entry is taken while
   * the running total stays within the budget, the first one regardless. The taken lines
   * come out newest first.
   */
  method TakeRecent(entries: seq<TranscriptEntry>, maxChars: nat) returns (lines: seq<string>)
    requires entries != []
    ensures var fs := Formatted(entries);
      lines == Reversed(fs[|fs| - Kept(fs, maxChars)..])
  {
    lines := TakeLatest(Formatted(entries), maxChars);
  }

  /** The backward loop over the formatted lines. */
  method TakeLatest(fs: seq<string>, maxChars: nat) returns (lines: seq<string>)
    requires fs != []
    ensures lines == Reversed(fs[|fs| - Kept(fs, maxChars)..])
  {
    lines := [];
    var total: nat := 0;
    var i := |fs|;
    while i > 0
      invariant 0 <= i <= |fs| && Taken(fs, maxChars, i, lines, total)
    {
      var formatted := fs[i - 1];
      TakeStep(fs, maxChars, i, lines, total, formatted);
      if total + |formatted| > maxChars && lines != [] {
        return;
      }
      lines := lines + [formatted];
      total := total + |formatted|;
      i := i - 1;
    }
    TakeAll(fs, maxChars, lines, total);
  }

  /** The backward loop's state with `i` lines still untaken: the lines after them, newest first, and their total. */
  ghost predicate Taken(fs: seq<string>, max: nat, i: nat, lines: seq<string>, total: nat) {
    && fs != [] && i <= |fs|
    && lines == Reversed(fs[i..])
    && total == Chars(fs[i..])
    && |fs| - i <= Kept(fs, max)
  }

  /** One step of the backward loop: stopping gives the kept lines, going on keeps the state. */
  lemma TakeStep(fs: seq<string>, max: nat, i: nat, lines: seq<string>, total: nat, f: string)
    requires 0 < i <= |fs| && Taken(fs, max, i, lines, total) && f == fs[i - 1]
    ensures total + |f| > max && lines != [] ==> lines == Reversed(fs[|fs| - Kept(fs, max)..])
    ensures !(total + |f| > max && lines != []) ==> Taken(fs, max, i - 1, lines + [f], total + |f|)
  {
    var kept := Kept(fs, max);
    assert fs[i - 1..][1..] == fs[i..];
    assert Chars(fs[i - 1..]) == |f| + total;
    if total + |f| > max && lines != [] {
      if kept > |fs| - i {
        CharsSuffixGrows(fs, |fs| - kept, i - 1);
      }
      assert kept == |fs| - i;
    } else {
      KeptBeyond(fs, max, |fs| - i);
      assert Reversed(fs[i - 1..]) == Reversed(fs[i..]) + [f] by {
        assert fs[i - 1..] == [f] + fs[i..];
        assert ([f] + fs[i..])[1..] == fs[i..];
      }
    }
  }

  /** Taking every line means the budget keeps them all. */
  lemma TakeAll(fs: seq<string>, max: nat, lines: seq<string>, total: nat)
    requires Taken(fs, max, 0, lines, total)
    ensures lines == Reversed(fs[|fs| - Kept(fs, max)..])
  {
    assert fs[0..] == fs;
  }

  /** The second half of `read_recent_transcript_context`: the budgeted lines, back in chronological order, joined. */
  method JoinRecent(entries: seq<TranscriptEntry>, maxChars: nat) returns (r: string)
    requires entries != [] && maxChars > 0
    ensures r == RecentContext(entries, maxChars)
  {
    var lines := TakeRecent(entries, maxChars);
    ghost var fs := Formatted(entries);
    ghost var kept := fs[|fs| - Kept(fs, maxChars)..];
    ReversedTwice(kept);
    lines := Reversed(lines);
    r := Join(lines, "\n");
  }

  /** `read_recent_transcript_context`. */
  method ReadRecentTranscriptContext(dirExists: bool, yesterday: TranscriptFile, today: TranscriptFile, maxChars: nat)
    returns (r: string)
    ensures r == ReadRecent(dirExists, yesterday, today, maxChars)
  {
    if maxChars == 0 || !dirExists {
      return "";
    }
    var entries := AppendFile([], yesterday);
    entries := AppendFile(entries, today);
    assert entries == FileEntries(yesterday) + FileEntries(today);
    if entries == [] {
      return "";
    }
    r := JoinRecent(entries, maxChars);
  }

  /** The last of the joined lines ends the text. */
  lemma {:induction false} JoinEndsWithLast(parts: seq<string>, sep: string)
    requires parts != []
    ensures EndsWith(Join(parts, sep), parts[|parts| - 1])
    decreases |parts|
  {
    if |parts| > 1 {
      JoinEndsWithLast(parts[1..], sep);
      var rest := Join(parts[1..], sep);
      var r := Join(parts, sep);
      assert r == (parts[0] + sep) + rest;
      assert r[|r| - |rest|..] == rest;
      var last := parts[|parts| - 1];
      assert rest[|rest| - |last|..] == last;
      assert r[|r| - |last|..] == rest[|rest| - |last|..];
    }
  }

  /** The budgeted text ends with the latest line. */
  lemma BudgetedEndsWithLast(fs: seq<string>, max: nat)
    requires fs != []
    ensures EndsWith(Budgeted(fs, max), fs[|fs| - 1])
  {
    var kept := fs[|fs| - Kept(fs, max)..];
    JoinEndsWithLast(kept, "\n");
    assert kept[|kept| - 1] == fs[|fs| - 1];
  }

  /**
   * With no budget, or no entry that parsed, the context is empty. Otherwise it always
   * holds the newest entry, and ends with it (how far back it reaches is `Kept`'s contract).
   */
  lemma RecentContextProperties(entries: seq<TranscriptEntry>, max: nat)
    ensures max == 0 || entries == [] ==> RecentContext(entries, max) == ""
    ensures max > 0 && entries != [] ==> EndsWith(RecentContext(entries, max), FormatEntry(entries[|entries| - 1]))
  {
    if max > 0 && entries != [] {
      var fs := Formatted(entries);
      BudgetedEndsWithLast(fs, max);
      assert RecentContext(entries, max) == Budgeted(fs, max);
      assert fs[|fs| - 1] == FormatEntry(entries[|entries| - 1]);
    }
  }
}
