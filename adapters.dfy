/**
 * The helpers the Telegram and Discord adapters share, written identically in both:
 * cutting a reply into messages the platform accepts, making an attachment's name
 * safe to store (with `Path::file_name`), and the table of messages
 * awaiting a reply, pruned to the last ten minutes.
 */
module Adapters {
  import opened Wrappers
  import opened Text

  // ----- split_message -----

  /** `trim_start_matches('\n')`. */
  function TrimLeadingNewlines(s: string): (r: string)
    ensures |r| <= |s|
    decreases |s|
  {
    if |s| > 0 && s[0] == '\n' then TrimLeadingNewlines(s[1..]) else s
  }

  /** What is left is a suffix that does not start with a newline, and all that was dropped is newlines. */
  lemma {:induction false} TrimLeadingNewlinesSuffix(s: string)
    ensures var r := TrimLeadingNewlines(s);
      && r == s[|s| - |r|..]
      && (forall i :: 0 <= i < |s| - |r| ==> s[i] == '\n')
      && (|r| > 0 ==> r[0] != '\n')
    decreases |s|
  {
    if |s| > 0 && s[0] == '\n' {
      TrimLeadingNewlinesSuffix(s[1..]);
      var r := TrimLeadingNewlines(s);
      assert s[1..][|s| - 1 - |r|..] == s[|s| - |r|..];
      forall i | 0 <= i < |s| - |r| ensures s[i] == '\n' {
        if i > 0 { assert s[i] == s[1..][i - 1]; }
      }
    }
  }

  /** Where a text longer than `max` is cut: the last newline among its first `max` characters, else the last space, else `max`; a match at index 0 does not count. */
  function SplitPoint(r: string, max: nat): (k: nat)
    requires 0 < max < |r|
    ensures 0 < k <= max
  {
    var head := r[..max];
    var nl := LastIndexOfChar(head, '\n');
    if nl.Some? && nl.value > 0 then nl.value
    else
      var sp := LastIndexOfChar(head, ' ');
      if sp.Some? && sp.value > 0 then sp.value else max
  }

  /**
   * The chunks the loop of `split_message` produces from `r`: every chunk has between
   * one and `max` characters.
   */
  function Chunks(r: string, max: nat): (chunks: seq<string>)
    requires max > 0
    ensures forall c <- chunks :: 0 < |c| <= max
    decreases |r|
  {
    if |r| == 0 then []
    else if |r| <= max then [r]
    else
      var k := SplitPoint(r, max);
      [r[..k]] + Chunks(TrimLeadingNewlines(r[k..]), max)
  }

  /** `split_message`: the text itself when it fits, otherwise its chunks. */
  function MessageChunks(text: string, max: nat): seq<string>
    requires max > 0
  {
    if |text| <= max then [text] else Chunks(text, max)
  }

  /** `split_message`, consuming `remaining` one chunk at a time. */
  method SplitMessage(text: string, maxLength: nat) returns (chunks: seq<string>)
    requires maxLength > 0
    ensures chunks == MessageChunks(text, maxLength)
  {
    if |text| <= maxLength {
      return [text];
    }
    chunks := [];
    var remaining := text;
    while |remaining| > 0
      invariant chunks + Chunks(remaining, maxLength) == Chunks(text, maxLength)
      decreases |remaining|
    {
      if |remaining| <= maxLength {
        assert Chunks(remaining, maxLength) == [remaining];
        chunks := chunks + [remaining];
        break;
      }
      var splitIndex := CutIndex(remaining, maxLength);
      ghost var prev, before := chunks, remaining;
      var piece := remaining[..splitIndex];
      chunks := chunks + [piece];
      remaining := TrimLeadingNewlines(remaining[splitIndex..]);
      assert prev + Chunks(before, maxLength) == chunks + Chunks(remaining, maxLength) by {
        ChunksStep(before, maxLength);
        Reassociate(prev, [piece], Chunks(remaining, maxLength));
      }
    }
  }

  /** The `rfind` calls in the loop of `split_message`: where a text longer than the limit is cut. */
  method CutIndex(remaining: string, maxLength: nat) returns (splitIndex: nat)
    requires 0 < maxLength < |remaining|
    ensures splitIndex == SplitPoint(remaining, maxLength)
  {
    var head := remaining[..maxLength];
    var nl := LastIndexOfChar(head, '\n');
    splitIndex := if nl.Some? then nl.value else 0;
    if splitIndex == 0 {
      var sp := LastIndexOfChar(head, ' ');
      splitIndex := if sp.Some? then sp.value else 0;
    }
    if splitIndex == 0 {
      splitIndex := maxLength;
    }
  }

  /** One turn of the loop: the first chunk of a long text, then the chunks of what follows it. */
  lemma ChunksStep(r: string, max: nat)
    requires 0 < max < |r|
    ensures var k := SplitPoint(r, max);
      Chunks(r, max) == [r[..k]] + Chunks(TrimLeadingNewlines(r[k..]), max)
  {
  }

  /**
   * A text that fits is one message, even when empty. A longer one becomes chunks that
   * are each non-empty and within the limit.
   */
  lemma MessageChunksBounds(text: string, max: nat)
    requires max > 0
    ensures |text| <= max ==> MessageChunks(text, max) == [text]
    ensures |text| > max ==>
      var chunks := MessageChunks(text, max);
      |chunks| >= 1 && forall c <- chunks :: 0 < |c| <= max
  {
  }

  /** The cut is the last newline after index 0 within the limit; without one, the last such space; without either, the limit. */
  lemma SplitPointChoice(r: string, max: nat)
    requires 0 < max < |r|
    ensures var k := SplitPoint(r, max);
      && ((exists i :: 0 < i < max && r[i] == '\n') ==>
            k < max && r[k] == '\n' && forall i :: k < i < max ==> r[i] != '\n')
      && ((forall i :: 0 < i < max ==> r[i] != '\n') && (exists i :: 0 < i < max && r[i] == ' ') ==>
            k < max && r[k] == ' ' && forall i :: k < i < max ==> r[i] != ' ')
      && ((forall i :: 0 < i < max ==> r[i] != '\n' && r[i] != ' ') ==> k == max)
  {
    var head := r[..max];
    var nl := LastIndexOfChar(head, '\n');
    var sp := LastIndexOfChar(head, ' ');
    forall i | 0 < i < max && r[i] == '\n' ensures nl.Some? && i <= nl.value {
      assert head[i] == '\n';
    }
    forall i | 0 < i < max && r[i] == ' ' ensures sp.Some? && i <= sp.value {
      assert head[i] == ' ';
    }
    if nl.Some? {
      forall i | nl.value < i < max ensures r[i] != '\n' {
        assert head[nl.value + 1..][i - nl.value - 1] == head[i];
      }
    }
    if sp.Some? {
      forall i | sp.value < i < max ensures r[i] != ' ' {
        assert head[sp.value + 1..][i - sp.value - 1] == head[i];
      }
    }
  }

  /** `n` newlines. */
  function Newlines(n: nat): (s: string)
    ensures |s| == n && forall i :: 0 <= i < n ==> s[i] == '\n'
  {
    seq(n, _ => '\n')
  }

  /** How many newlines the loop drops after each chunk of `r`. */
  function Dropped(r: string, max: nat): (gaps: seq<nat>)
    requires max > 0
    ensures |gaps| == |Chunks(r, max)|
    decreases |r|
  {
    if |r| == 0 then []
    else if |r| <= max then [0]
    else
      var k := SplitPoint(r, max);
      var rest := r[k..];
      var t := TrimLeadingNewlines(rest);
      var n: nat := |rest| - |t|;
      ChunksStep(r, max);
      [n] + Dropped(t, max)
  }

  /** The chunks with their dropped newlines put back after each. */
  function Interleave(chunks: seq<string>, gaps: seq<nat>): string
    requires |chunks| == |gaps|
  {
    if chunks == [] then "" else chunks[0] + Newlines(gaps[0]) + Interleave(chunks[1..], gaps[1..])
  }

  /**
   * Nothing but the newlines at the cuts is lost: putting back after each chunk the
   * newlines dropped there rebuilds the text.
   */
  lemma {:induction false} ChunksReassemble(r: string, max: nat)
    requires max > 0
    ensures Interleave(Chunks(r, max), Dropped(r, max)) == r
    decreases |r|
  {
    if |r| == 0 {
    } else if |r| <= max {
      assert Interleave([r], [0]) == r + Newlines(0) + Interleave([], []);
    } else {
      var k := SplitPoint(r, max);
      var rest := r[k..];
      var t := TrimLeadingNewlines(rest);
      var n := |rest| - |t|;
      ChunksReassemble(t, max);
      ReassembleStep(r, max, k, t, n);
    }
  }

  /** When the rest after a cut reassembles, so does the whole. */
  lemma ReassembleStep(r: string, max: nat, k: nat, t: string, n: nat)
    requires 0 < max < |r| && k == SplitPoint(r, max)
    requires t == TrimLeadingNewlines(r[k..]) && n == |r[k..]| - |t|
    requires Interleave(Chunks(t, max), Dropped(t, max)) == t
    ensures Interleave(Chunks(r, max), Dropped(r, max)) == r
  {
    DroppedNewlines(r[k..]);
    CutStep(r, max, k, t, n);
    Glue(r, k, Newlines(n), t, Interleave(Chunks(r, max), Dropped(r, max)));
  }

  /** A sequence cut at `k`, whose rest is `gap + t`, is its head, then `gap`, then `t`. */
  lemma Glue<T>(r: seq<T>, k: nat, gap: seq<T>, t: seq<T>, whole: seq<T>)
    requires k <= |r| && r[k..] == gap + t && whole == r[..k] + gap + t
    ensures whole == r
  {
    assert r == r[..k] + r[k..];
    Reassociate(r[..k], gap, t);
  }

  /** What `TrimLeadingNewlines` drops is newlines only. */
  lemma DroppedNewlines(s: string)
    ensures s == Newlines(|s| - |TrimLeadingNewlines(s)|) + TrimLeadingNewlines(s)
  {
    var t := TrimLeadingNewlines(s);
    var n := |s| - |t|;
    TrimLeadingNewlinesSuffix(s);
    assert s == s[..n] + s[n..];
    assert s[..n] == Newlines(n);
  }

  /** One cut of a long text, in the terms of `Interleave`. */
  lemma CutStep(r: string, max: nat, k: nat, t: string, n: nat)
    requires 0 < max < |r| && k == SplitPoint(r, max)
    requires t == TrimLeadingNewlines(r[k..]) && n == |r[k..]| - |t|
    ensures Interleave(Chunks(r, max), Dropped(r, max))
         == r[..k] + Newlines(n) + Interleave(Chunks(t, max), Dropped(t, max))
  {
    ChunksStep(r, max);
    DroppedStep(r, max);
    InterleaveCons(r[..k], n, Chunks(t, max), Dropped(t, max));
  }

  /** A long text's first gap is the newlines trimmed after its first cut. */
  lemma DroppedStep(r: string, max: nat)
    requires 0 < max < |r|
    ensures var t := TrimLeadingNewlines(r[SplitPoint(r, max)..]);
      Dropped(r, max) == [|r[SplitPoint(r, max)..]| - |t|] + Dropped(t, max)
  {
  }

  /** Interleaving starts with the first chunk and its newlines. */
  lemma InterleaveCons(c: string, g: nat, chunks: seq<string>, gaps: seq<nat>)
    requires |chunks| == |gaps|
    ensures Interleave([c] + chunks, [g] + gaps) == c + Newlines(g) + Interleave(chunks, gaps)
  {
    assert ([c] + chunks)[1..] == chunks;
    assert ([g] + gaps)[1..] == gaps;
  }

  /** The whole of `split_message`'s output reassembles the text, dropping only newlines at the cuts. */
  lemma MessageChunksReassemble(text: string, max: nat)
    requires max > 0
    ensures var gaps := if |text| <= max then [0] else Dropped(text, max);
      |gaps| == |MessageChunks(text, max)| && Interleave(MessageChunks(text, max), gaps) == text
  {
    if |text| <= max {
      assert Interleave([text], [0]) == text + Newlines(0) + Interleave([], []);
    } else {
      ChunksReassemble(text, max);
    }
  }

  // ----- file names -----

  /** The last component of a path split at '/' that is neither empty nor ".". */
  function LastNormal(parts: seq<string>): (r: Option<string>)
    ensures r.Some? ==> r.value in parts && r.value != "" && r.value != "."
  {
    if parts == [] then None
    else
      var p := parts[|parts| - 1];
      if p != "" && p != "." then Some(p) else LastNormal(parts[..|parts| - 1])
  }

  /** `Path::file_name` on Unix, with "" for none: the last component, none when it is "..". */
  function FileName(p: string): (r: string)
    ensures '/' !in r && r != "." && r != ".."
  {
    match LastNormal(Split(p, '/'))
    case Some(x) => if x == ".." then "" else x
    case None => ""
  }

  /** A name without a separator is its own file name, except "." and "..", which have none. */
  lemma FileNameNoSlash(s: string)
    requires '/' !in s
    ensures FileName(s) == if s == "." || s == ".." then "" else s
  {
    assert IndexOfChar(s, '/') == |s|;
    assert Split(s, '/') == [s];
  }

  /** The characters `sanitize_file_name` replaces with '_'. */
  predicate Forbidden(c: char) {
    c in "<>:\"/\\|?*" || IsControl(c)
  }

  /** `char::is_control`: the C0 and C1 control characters and DEL. */
  predicate IsControl(c: char) {
    c <= '\U{1F}' || ('\U{7F}' <= c <= '\U{9F}')
  }

  function Cleaned(s: string): (r: string)
    ensures |r| == |s|
    ensures forall i :: 0 <= i < |s| ==> r[i] == if Forbidden(s[i]) then '_' else s[i]
  {
    seq(|s|, i requires 0 <= i < |s| => if Forbidden(s[i]) then '_' else s[i])
  }

  const FallbackFileName := "file.bin"

  /** `sanitize_file_name`: the base name, forbidden characters replaced, trimmed; "file.bin" when nothing is left. */
  function SanitizeFileName(name: string): string {
    var t := Trim(Cleaned(FileName(name)));
    if t == "" then FallbackFileName else t
  }

  /**
   * The sanitised name is never empty, holds no forbidden or control character (so no
   * separator) and has no whitespace at either end.
   */
  lemma SanitizeProperties(name: string)
    ensures var r := SanitizeFileName(name);
      && r != ""
      && Clean(r)
      && '/' !in r
      && !IsWhitespace(r[0]) && !IsWhitespace(r[|r| - 1])
  {
    var c := Cleaned(FileName(name));
    CleanedIsClean(FileName(name));
    TrimKeepsClean(c);
    var r := SanitizeFileName(name);
    if Trim(c) == "" {
      assert r == "file.bin";
      assert Clean(r) by {
        forall i | 0 <= i < |r| ensures !Forbidden(r[i]) {
          assert r[i] in "file.bin";
        }
      }
    }
    assert Forbidden('/');
  }

  /** No forbidden character anywhere. */
  predicate Clean(s: string) {
    forall i :: 0 <= i < |s| ==> !Forbidden(s[i])
  }

  lemma CleanedIsClean(s: string)
    ensures Clean(Cleaned(s))
  {
    assert !Forbidden('_');
  }

  lemma TrimKeepsClean(s: string)
    requires Clean(s)
    ensures Clean(Trim(s))
  {
    var t := Trim(s);
    var j := TrimIsInfix(s);
    forall i | 0 <= i < |t| ensures !Forbidden(t[i]) {
      assert t[i] == s[j + i];
    }
  }

  /**
   * A name that is already a clean file name comes back unchanged, and sanitising a
   * second time changes nothing, unless the first pass left "." or "..": those are no
   * file name, so they turn into "file.bin".
   */
  lemma SanitizeIdempotent(name: string)
    ensures var r := SanitizeFileName(name);
      (r != "." && r != ".." ==> SanitizeFileName(r) == r)
      && (r == "." || r == ".." ==> SanitizeFileName(r) == FallbackFileName)
  {
    var r := SanitizeFileName(name);
    SanitizeProperties(name);
    FileNameNoSlash(r);
    if r != "." && r != ".." {
      assert Cleaned(r) == r;
      TrimOfTrimmed(r);
    }
  }

  /** A string with no whitespace at either end is its own trim. */
  lemma TrimOfTrimmed(s: string)
    requires s != "" && !IsWhitespace(s[0]) && !IsWhitespace(s[|s| - 1])
    ensures Trim(s) == s
  {
    assert TrimStart(s) == s;
  }

  // ----- messages awaiting a reply -----

  /** Where a queued message came from (the Telegram chat or the Discord channel, and the message), and when it was queued. */
  datatype Pending = Pending(chatId: int, messageId: int, timestamp: nat)

  /** Ten minutes, in milliseconds. */
  const PendingTtlMs: nat := 10 * 60 * 1000

  /** `now.saturating_sub(ten minutes)`. */
  function Cutoff(now: nat): nat {
    if now >= PendingTtlMs then now - PendingTtlMs else 0
  }

  /** The entries `retain` keeps: those stamped at or after the cutoff. */
  function Recent(m: map<string, Pending>, now: nat): map<string, Pending> {
    map id | id in m && m[id].timestamp >= Cutoff(now) :: m[id]
  }

  /**
   * Pruning keeps exactly the entries at most ten minutes old (or stamped after `now`),
   * unchanged; pruning again at the same time removes nothing more.
   */
  lemma RecentProperties(m: map<string, Pending>, now: nat)
    ensures var r := Recent(m, now);
      && (forall id :: id in r <==> id in m && (m[id].timestamp >= now || now - m[id].timestamp <= PendingTtlMs))
      && (forall id <- r :: r[id] == m[id])
      && Recent(r, now) == r
  {
  }

  /** A later pruning keeps no more than an earlier one: the cutoff only moves forward. */
  lemma RecentMonotone(m: map<string, Pending>, earlier: nat, later: nat)
    requires earlier <= later
    ensures Recent(Recent(m, earlier), later) == Recent(m, later)
  {
  }

  /** The adapter's table of queued messages awaiting a reply, keyed by queue message id. */
  class PendingReplies {
    var entries: map<string, Pending>

    constructor()
      ensures entries == map[]
    {
      entries := map[];
    }

    /**
     * A message was queued: record where it came from, stamped `stamp`, then drop the
     * entries older than ten minutes as of `now` (the clock is read twice).
     */
    method Track(id: string, chatId: int, messageId: int, stamp: nat, now: nat)
      modifies this
      ensures entries == Recent(old(entries)[id := Pending(chatId, messageId, stamp)], now)
      ensures stamp >= Cutoff(now) ==> id in entries && entries[id] == Pending(chatId, messageId, stamp)
      ensures forall k <- entries :: entries[k].timestamp >= Cutoff(now)
    {
      entries := entries[id := Pending(chatId, messageId, stamp)];
      entries := Recent(entries, now);
    }

    /** A reply was delivered: forget the message. */
    method Done(id: string)
      modifies this
      ensures entries == old(entries) - {id}
    {
      entries := entries - {id};
    }
  }
}
