/**
 * Hand-written scanners for the three directive grammars of the routing code:
 *   - bracket tags  `\[@(\S+?):\s*([\s\S]*?)\]` and their `@!` variants,
 *   - line-start handoffs `(?m)^[*_]{0,2}@([\w-]+)[*_]{0,2}\s*[:—–-]+[*_]{0,2}\s*`,
 *   - the routing prefix `^@(\S+)\s+([\s\S]*)$`.
 * Each scanner returns the matches a leftmost-first regex engine reports, in order,
 * without overlap.
 */
module Tags {
  import opened Wrappers
  import opened Text

  /** Which bracket grammar: `[@id: …]`, `[@!id: …]`, or either. */
  datatype TagMode = Plain | Bang | OptionalBang

  /** One bracket tag: it spans `[start, end)`, `ids` is capture 1 and `body` capture 2. */
  datatype Tag = Tag(start: nat, end: nat, ids: string, body: string)

  /**
   * The lazy capture `(\S+?):` starting at `q`: the first ':' after at least one
   * character, with no whitespace before it.
   */
  function ColonAfter(s: string, q: nat, c: nat): (r: Option<nat>)
    requires q < c <= |s|
    requires NoWhitespace(s[q..c])
    ensures r.Some? ==> c <= r.value < |s| && s[r.value] == ':' && NoWhitespace(s[q..r.value])
    decreases |s| - c
  {
    if c == |s| then None
    else if s[c] == ':' then Some(c)
    else if IsWhitespace(s[c]) then None
    else
      assert s[q..c + 1] == s[q..c] + [s[c]];
      ColonAfter(s, q, c + 1)
  }

  /** The rest of a tag once its id capture starts at `q`. */
  function TagFrom(s: string, p: nat, q: nat): (r: Option<Tag>)
    requires p < q <= |s|
    ensures r.Some? ==> r.value.start == p < r.value.end <= |s| && s[r.value.end - 1] == ']'
  {
    if q == |s| || IsWhitespace(s[q]) then None
    else
      assert s[q..q + 1] == [s[q]];
      match ColonAfter(s, q, q + 1)
      case None => None
      case Some(c) =>
        var after := s[c + 1..];
        var k := IndexOfChar(after, ']');
        if k == |after| then None
        else
          assert s[c + 1 + k] == after[k];
          Some(Tag(p, c + 1 + k + 1, s[q..c], TrimStart(after[..k])))
  }

  /** The tag a regex of the given mode matches at exactly position `p`, if any. */
  function TagAt(s: string, p: nat, mode: TagMode): (r: Option<Tag>)
    requires p <= |s|
    ensures r.Some? ==> r.value.start == p < r.value.end <= |s|
  {
    if !(p + 2 <= |s| && s[p] == '[' && s[p + 1] == '@') then None
    else match mode
      case Plain => TagFrom(s, p, p + 2)
      case Bang => if p + 2 < |s| && s[p + 2] == '!' then TagFrom(s, p, p + 3) else None
      case OptionalBang =>
        if p + 2 < |s| && s[p + 2] == '!' && TagFrom(s, p, p + 3).Some? then TagFrom(s, p, p + 3)
        else TagFrom(s, p, p + 2)
  }

  /** `captures_iter` from position `i`: the non-overlapping tags, leftmost first. */
  function TagsFrom(s: string, i: nat, mode: TagMode): (tags: seq<Tag>)
    requires i <= |s|
    ensures forall t <- tags :: i <= t.start < t.end <= |s|
    decreases |s| - i
  {
    if i == |s| then []
    else match TagAt(s, i, mode)
      case Some(t) => [t] + TagsFrom(s, t.end, mode)
      case None => TagsFrom(s, i + 1, mode)
  }

  function AllTags(s: string, mode: TagMode): seq<Tag> {
    TagsFrom(s, 0, mode)
  }

  /** `replace_all(s, "")` from position `i`: the text between the tags. */
  function StripFrom(s: string, i: nat, mode: TagMode): (r: string)
    requires i <= |s|
    ensures |r| <= |s| - i
    decreases |s| - i
  {
    if i == |s| then ""
    else match TagAt(s, i, mode)
      case Some(t) => StripFrom(s, t.end, mode)
      case None => [s[i]] + StripFrom(s, i + 1, mode)
  }

  /** Text with every tag of the given mode removed. */
  function StripTags(s: string, mode: TagMode): string {
    StripFrom(s, 0, mode)
  }

  /** Stripping removes exactly the tags: without tags the text is unchanged. */
  lemma {:induction false} StripWithoutTags(s: string, i: nat, mode: TagMode)
    requires i <= |s|
    requires TagsFrom(s, i, mode) == []
    ensures StripFrom(s, i, mode) == s[i..]
    decreases |s| - i
  {
    if i < |s| {
      match TagAt(s, i, mode)
      case Some(t) =>
      case None =>
        StripWithoutTags(s, i + 1, mode);
        assert s[i..] == [s[i]] + s[i + 1..];
    }
  }

  /** The ids of a bracket tag: lower-cased, split at ',', trimmed, empty pieces dropped. */
  function CandidateIds(ids: string): (r: seq<string>)
    ensures forall c <- r :: |c| > 0 && ',' !in c
  {
    NonEmptyTrimmed(Split(ToLower(ids), ','))
  }

  function NonEmptyTrimmed(parts: seq<string>): (r: seq<string>)
    requires forall p <- parts :: ',' !in p
    ensures forall c <- r :: |c| > 0 && ',' !in c
  {
    if |parts| == 0 then []
    else
      var t := Trim(parts[0]);
      TrimKeepsAbsentChar(parts[0], ',');
      (if |t| > 0 then [t] else []) + NonEmptyTrimmed(parts[1..])
  }

  /** `c` is one of the parts, trimmed. */
  predicate TrimmedFrom(c: string, parts: seq<string>) {
    exists p <- parts :: c == Trim(p)
  }

  /** Each kept id is the trim of one of the parts. */
  lemma {:induction false} NonEmptyTrimmedFrom(parts: seq<string>)
    requires forall p <- parts :: ',' !in p
    ensures forall c <- NonEmptyTrimmed(parts) :: TrimmedFrom(c, parts)
  {
    if |parts| > 0 {
      NonEmptyTrimmedFrom(parts[1..]);
      forall c <- NonEmptyTrimmed(parts) ensures TrimmedFrom(c, parts) {
        if c != Trim(parts[0]) {
          assert c in NonEmptyTrimmed(parts[1..]);
          var p :| p in parts[1..] && c == Trim(p);
          assert p in parts;
        }
      }
    }
  }

  /** Every candidate id is in lower case. */
  lemma CandidateIdsAreLower(ids: string)
    ensures forall c <- CandidateIds(ids) :: IsLower(c)
  {
    var parts := Split(ToLower(ids), ',');
    ToLowerIsLower(ids);
    NonEmptyTrimmedFrom(parts);
    forall c <- CandidateIds(ids) ensures IsLower(c) {
      var p :| p in parts && c == Trim(p);
      SplitPartsLower(ToLower(ids), ',', p);
      TrimKeepsLower(p);
    }
  }

  lemma TrimKeepsLower(p: string)
    requires IsLower(p)
    ensures IsLower(Trim(p))
  {
    var a := TrimStart(p);
    SliceKeepsLower(p, |p| - |a|, |p|);
    assert IsLower(a);
    SliceKeepsLower(a, 0, |TrimEnd(a)|);
  }

  lemma SliceKeepsLower(p: string, i: nat, j: nat)
    requires IsLower(p) && i <= j <= |p|
    ensures IsLower(p[i..j])
  {
    assert forall k :: 0 <= k < j - i ==> p[i..j][k] == p[i + k];
  }

  lemma SplitPartsLower(s: string, sep: char, p: string)
    requires IsLower(s) && p in Split(s, sep)
    ensures IsLower(p)
    decreases |s|
  {
    var i := IndexOfChar(s, sep);
    if i < |s| {
      if p != s[..i] {
        assert p in Split(s[i + 1..], sep);
        SplitPartsLower(s[i + 1..], sep, p);
      }
    }
  }

  // ----- line-start handoffs -----

  predicate IsIdChar(c: char) {
    ('a' <= c <= 'z') || ('A' <= c <= 'Z') || ('0' <= c <= '9') || c == '_' || c == '-'
  }

  predicate IsEmphasis(c: char) {
    c == '*' || c == '_'
  }

  /** The separator class `[:—–\-]`: colon, em dash, en dash, hyphen. */
  predicate IsSeparator(c: char) {
    c == ':' || c == '\U{2014}' || c == '\U{2013}' || c == '-'
  }

  /** Greedy `[*_]{0,2}` at `i`: how many emphasis characters it takes. */
  function Emphasis(s: string, i: nat): (n: nat)
    requires i <= |s|
    ensures n <= 2 && i + n <= |s|
    ensures forall k :: i <= k < i + n ==> IsEmphasis(s[k])
  {
    if i < |s| && IsEmphasis(s[i]) then (if i + 1 < |s| && IsEmphasis(s[i + 1]) then 2 else 1) else 0
  }

  /** Greedy `\s*` at `i`: the position after the whitespace run. */
  function SkipWhitespace(s: string, i: nat): (j: nat)
    requires i <= |s|
    ensures i <= j <= |s|
    ensures forall k :: i <= k < j ==> IsWhitespace(s[k])
    ensures j < |s| ==> !IsWhitespace(s[j])
    decreases |s| - i
  {
    if i < |s| && IsWhitespace(s[i]) then SkipWhitespace(s, i + 1) else i
  }

  /** Greedy `[:—–\-]*` at `i`. */
  function SkipSeparators(s: string, i: nat): (j: nat)
    requires i <= |s|
    ensures i <= j <= |s|
    ensures forall k :: i <= k < j ==> IsSeparator(s[k])
    decreases |s| - i
  {
    if i < |s| && IsSeparator(s[i]) then SkipSeparators(s, i + 1) else i
  }

  /** Greedy `[\w-]*` at `i`: the length of the id-character run. */
  function IdRun(s: string, i: nat): (n: nat)
    requires i <= |s|
    ensures i + n <= |s|
    ensures forall k :: i <= k < i + n ==> IsIdChar(s[k])
    ensures i + n < |s| ==> !IsIdChar(s[i + n])
    decreases |s| - i
  {
    if i < |s| && IsIdChar(s[i]) then 1 + IdRun(s, i + 1) else 0
  }

  /** One line-start handoff: it spans `[start, end)` and `rawId` is capture 1. */
  datatype Handoff = Handoff(start: nat, end: nat, rawId: string)

  /** Whether an id of length `len` at `idStart` is followed by `[*_]{0,2}\s*` and a separator. */
  predicate SeparatorFollows(s: string, idStart: nat, len: nat)
    requires idStart + len <= |s|
  {
    var e := idStart + len;
    var w := SkipWhitespace(s, e + Emphasis(s, e));
    w < |s| && IsSeparator(s[w])
  }

  /**
   * Backtracking over the greedy id: the longest id length `<= len` that lets the
   * rest of the handoff pattern match.
   */
  function LongestIdThatFits(s: string, idStart: nat, len: nat): (r: Option<nat>)
    requires idStart + len <= |s|
    ensures r.Some? ==> 1 <= r.value <= len && SeparatorFollows(s, idStart, r.value)
    ensures r.Some? ==> forall l :: r.value < l <= len ==> !SeparatorFollows(s, idStart, l)
    ensures r.None? ==> forall l :: 1 <= l <= len ==> !SeparatorFollows(s, idStart, l)
    decreases len
  {
    if len == 0 then None
    else if SeparatorFollows(s, idStart, len) then Some(len)
    else LongestIdThatFits(s, idStart, len - 1)
  }

  /** The handoff the regex matches at exactly position `p`, if any. */
  function HandoffAt(s: string, p: nat): (r: Option<Handoff>)
    requires p <= |s|
    ensures r.Some? ==> r.value.start == p < r.value.end <= |s|
    ensures r.Some? ==> p == 0 || s[p - 1] == '\n'
  {
    if !(p == 0 || s[p - 1] == '\n') then None
    else
      var a := p + Emphasis(s, p);
      if !(a < |s| && s[a] == '@') then None
      else match LongestIdThatFits(s, a + 1, IdRun(s, a + 1))
        case None => None
        case Some(len) =>
          var e := a + 1 + len;
          var w := SkipWhitespace(s, e + Emphasis(s, e));
          var sepEnd := SkipSeparators(s, w);
          var end := SkipWhitespace(s, sepEnd + Emphasis(s, sepEnd));
          Some(Handoff(p, end, s[a + 1..e]))
  }

  /** `find_iter` from position `i`: the non-overlapping handoffs, leftmost first. */
  function HandoffsFrom(s: string, i: nat): (hs: seq<Handoff>)
    requires i <= |s|
    ensures forall k :: 0 <= k < |hs| ==> i <= hs[k].start < hs[k].end <= |s|
    ensures forall k :: 0 <= k < |hs| - 1 ==> hs[k].end <= hs[k + 1].start
    decreases |s| - i
  {
    if i == |s| then []
    else match HandoffAt(s, i)
      case Some(h) =>
        var rest := HandoffsFrom(s, h.end);
        assert forall k :: 1 <= k < |[h] + rest| ==> ([h] + rest)[k] == rest[k - 1];
        [h] + rest
      case None => HandoffsFrom(s, i + 1)
  }

  function AllHandoffs(s: string): seq<Handoff> {
    HandoffsFrom(s, 0)
  }

  // ----- the routing prefix -----

  /**
   * `^@(\S+)\s+([\s\S]*)$`: the id is the whole first non-whitespace run after '@',
   * which must be followed by whitespace; the message is what follows that whitespace.
   */
  function RoutingPrefix(raw: string): (r: Option<(string, string)>)
    ensures r.Some? ==> |r.value.0| > 0 && NoWhitespace(r.value.0)
    ensures r.Some? ==> exists w :: PrefixSplit(raw, r.value.0, w, r.value.1)
  {
    if |raw| < 2 || raw[0] != '@' then None
    else
      var t := TakeToken(raw[1..]);
      if |t| == 0 || |t| == |raw| - 1 then None
      else
        var rest := raw[1 + |t|..];
        var msg := TrimStart(rest);
        AtSplit(raw, t, rest);
        assert rest[0] == raw[1..][|t|];
        PrefixSplitHolds(raw, t, rest, msg);
        Some((t, msg))
  }

  /** `raw` is "@", the id, a non-empty whitespace run `w`, then the message. */
  predicate PrefixSplit(raw: string, id: string, w: string, msg: string) {
    |w| > 0 && AllWhitespace(w) && raw == "@" + id + w + msg
  }

  lemma PrefixSplitHolds(raw: string, t: string, rest: string, msg: string)
    requires raw == "@" + t + rest && |rest| > 0 && IsWhitespace(rest[0]) && msg == TrimStart(rest)
    ensures PrefixSplit(raw, t, rest[..|rest| - |msg|], msg)
  {
    var w := rest[..|rest| - |msg|];
    SplitAt(rest, |rest| - |msg|);
    Reassociate("@" + t, w, msg);
  }

  lemma AtSplit(raw: string, t: string, rest: string)
    requires 1 + |t| <= |raw| && raw[0] == '@' && t == raw[1..][..|t|] && rest == raw[1 + |t|..]
    ensures raw == "@" + t + rest
  {
    assert raw == [raw[0]] + raw[1..];
    assert rest == raw[1..][|t|..];
    assert raw[1..] == t + rest;
  }

  lemma SplitAt(s: string, k: nat)
    requires k <= |s|
    ensures s == s[..k] + s[k..]
  {
  }

  lemma Regroup(a: string, b: string, c: string)
    ensures a + (b + c) == a + b + c
  {
  }
}
