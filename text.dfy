/**
 * The handful of `str` operations the Rust code leans on: Unicode whitespace
 * trimming, ASCII case mapping, splitting, joining, searching and decimal
 * rendering. Strings are sequences of Unicode scalar values; lengths are
 * counted in characters.
 */
module Text {
  import opened Wrappers

  /** Unicode White_Space: the class behind `char::is_whitespace`, `str::trim` and the regex `\s`. */
  predicate IsWhitespace(c: char) {
    ('\t' <= c <= '\r') || c == ' ' || c == '\U{85}' || c == '\U{A0}' || c == '\U{1680}'
    || ('\U{2000}' <= c <= '\U{200A}') || c == '\U{2028}' || c == '\U{2029}'
    || c == '\U{202F}' || c == '\U{205F}' || c == '\U{3000}'
  }

  predicate AllWhitespace(s: string) {
    forall i :: 0 <= i < |s| ==> IsWhitespace(s[i])
  }

  predicate NoWhitespace(s: string) {
    forall i :: 0 <= i < |s| ==> !IsWhitespace(s[i])
  }

  /** `str::trim_start`: drops the leading whitespace run. */
  function TrimStart(s: string): (r: string)
    ensures |r| <= |s| && r == s[|s| - |r|..]
    ensures AllWhitespace(s[..|s| - |r|])
    ensures |r| > 0 ==> !IsWhitespace(r[0])
    decreases |s|
  {
    if |s| > 0 && IsWhitespace(s[0]) then TrimStart(s[1..]) else s
  }

  /** `str::trim_end`: drops the trailing whitespace run. */
  function TrimEnd(s: string): (r: string)
    ensures |r| <= |s| && r == s[..|r|]
    ensures AllWhitespace(s[|r|..])
    ensures |r| > 0 ==> !IsWhitespace(r[|r| - 1])
    decreases |s|
  {
    if |s| > 0 && IsWhitespace(s[|s| - 1]) then TrimEnd(s[..|s| - 1]) else s
  }

  /** `str::trim`. */
  function Trim(s: string): (r: string)
    ensures |r| <= |s|
    ensures |r| > 0 ==> !IsWhitespace(r[0]) && !IsWhitespace(r[|r| - 1])
  {
    TrimEnd(TrimStart(s))
  }

  /** A trimmed string sits inside the original with only whitespace around it. */
  lemma TrimIsInfix(s: string) returns (i: nat)
    ensures i <= |s| - |Trim(s)| && s[i..i + |Trim(s)|] == Trim(s)
    ensures AllWhitespace(s[..i]) && AllWhitespace(s[i + |Trim(s)|..])
  {
    var a := TrimStart(s);
    i := |s| - |a|;
    var r := TrimEnd(a);
    assert a == s[i..];
    assert r == a[..|r|];
    assert s[i..i + |r|] == r;
    assert s[i + |r|..] == a[|r|..];
  }

  /** Trimming never brings in a character the text lacks. */
  lemma TrimKeepsAbsentChar(s: string, c: char)
    requires c !in s
    ensures c !in Trim(s)
  {
    var i := TrimIsInfix(s);
    forall k | 0 <= k < |Trim(s)| ensures Trim(s)[k] != c {
      assert Trim(s)[k] == s[i + k];
    }
  }

  /** Trimming leaves nothing exactly when the text is all whitespace. */
  lemma TrimEmpty(s: string)
    ensures Trim(s) == [] <==> AllWhitespace(s)
  {
    var i := TrimIsInfix(s);
    if Trim(s) == [] {
      forall k | 0 <= k < |s| ensures IsWhitespace(s[k]) {
        if k < i { assert s[k] == s[..i][k]; } else { assert s[k] == s[i..][k - i]; }
      }
    }
  }

  /** Trimming twice is trimming once. */
  lemma {:induction false} TrimIdempotent(s: string)
    ensures Trim(Trim(s)) == Trim(s)
  {
    var r := Trim(s);
    if |r| > 0 {
      assert TrimStart(r) == r;
      assert TrimEnd(r) == r;
    }
  }

  /** ASCII lower-casing of one character. */
  function LowerChar(c: char): (d: char)
    ensures 'A' <= c <= 'Z' ==> d as int == c as int + 32
    ensures !('A' <= c <= 'Z') ==> d == c
  {
    if 'A' <= c <= 'Z' then (c as int + 32) as char else c
  }

  /** ASCII upper-casing of one character. */
  function UpperChar(c: char): (d: char)
    ensures 'a' <= c <= 'z' ==> d as int == c as int - 32
    ensures !('a' <= c <= 'z') ==> d == c
  {
    if 'a' <= c <= 'z' then (c as int - 32) as char else c
  }

  /** `str::to_lowercase`, restricted to ASCII letters. */
  function ToLower(s: string): (r: string)
    ensures |r| == |s|
    ensures forall i :: 0 <= i < |s| ==> r[i] == LowerChar(s[i])
  {
    seq(|s|, i requires 0 <= i < |s| => LowerChar(s[i]))
  }

  /** `str::to_uppercase`, restricted to ASCII letters. */
  function ToUpper(s: string): (r: string)
    ensures |r| == |s|
    ensures forall i :: 0 <= i < |s| ==> r[i] == UpperChar(s[i])
  {
    seq(|s|, i requires 0 <= i < |s| => UpperChar(s[i]))
  }

  predicate IsLower(s: string) {
    forall i :: 0 <= i < |s| ==> LowerChar(s[i]) == s[i]
  }

  /** Lower-casing is idempotent, so a lower-cased id is already in lower case. */
  lemma ToLowerIsLower(s: string)
    ensures IsLower(ToLower(s))
    ensures ToLower(ToLower(s)) == ToLower(s)
  {
  }

  /** Lower-casing leaves text without capitals unchanged. */
  lemma ToLowerNoCapitals(s: string)
    requires forall i :: 0 <= i < |s| ==> !('A' <= s[i] <= 'Z')
    ensures ToLower(s) == s
  {
  }

  predicate StartsWith(s: string, p: string) {
    |p| <= |s| && s[..|p|] == p
  }

  predicate EndsWith(s: string, p: string) {
    |p| <= |s| && s[|s| - |p|..] == p
  }

  /** `str::contains` for a string needle. */
  predicate Contains(s: string, sub: string)
    decreases |s|
  {
    StartsWith(s, sub) || (|s| > 0 && Contains(s[1..], sub))
  }

  /** A string can only contain a needle whose first character it holds. */
  lemma {:induction false} ContainsFirstChar(s: string, sub: string)
    requires |sub| > 0 && Contains(s, sub)
    ensures sub[0] in s
    decreases |s|
  {
    if !StartsWith(s, sub) {
      ContainsFirstChar(s[1..], sub);
    }
  }

  /** A needle longer than the text, or starting with a character the text lacks, does not occur in it. */
  lemma {:induction false} NotContains(s: string, sub: string)
    requires |sub| > |s| || (|sub| > 0 && sub[0] !in s)
    ensures !Contains(s, sub)
  {
    if Contains(s, sub) {
      ContainsLength(s, sub);
      ContainsFirstChar(s, sub);
    }
  }

  lemma {:induction false} ContainsLength(s: string, sub: string)
    requires Contains(s, sub)
    ensures |sub| <= |s|
    decreases |s|
  {
    if !StartsWith(s, sub) {
      ContainsLength(s[1..], sub);
    }
  }

  /** Some occurrence of the needle at a known position. */
  lemma {:induction false} ContainsAt(s: string, i: nat, sub: string)
    requires i + |sub| <= |s| && s[i..i + |sub|] == sub
    ensures Contains(s, sub)
    decreases i
  {
    if i == 0 {
      assert s[..|sub|] == sub;
    } else {
      assert s[1..][i - 1..i - 1 + |sub|] == s[i..i + |sub|];
      ContainsAt(s[1..], i - 1, sub);
    }
  }

  /** Text put in front keeps every occurrence. */
  lemma {:induction false} ContainsAfterPrefix(a: string, t: string, sub: string)
    requires Contains(t, sub)
    ensures Contains(a + t, sub)
    decreases |a|
  {
    if |a| > 0 {
      assert (a + t)[1..] == a[1..] + t;
      ContainsAfterPrefix(a[1..], t, sub);
    } else {
      assert a + t == t;
    }
  }

  /** Text put behind keeps every occurrence. */
  lemma {:induction false} ContainsBeforeSuffix(t: string, b: string, sub: string)
    requires Contains(t, sub)
    ensures Contains(t + b, sub)
    decreases |t|
  {
    if StartsWith(t, sub) {
      assert (t + b)[..|sub|] == t[..|sub|];
    } else {
      assert (t + b)[1..] == t[1..] + b;
      ContainsBeforeSuffix(t[1..], b, sub);
    }
  }

  /** A needle absent from a text is absent from the text without its trailing whitespace. */
  lemma TrimEndKeepsAbsent(s: string, sub: string)
    requires !Contains(s, sub)
    ensures !Contains(TrimEnd(s), sub)
  {
    var r := TrimEnd(s);
    if Contains(r, sub) {
      assert s == r + s[|r|..];
      ContainsBeforeSuffix(r, s[|r|..], sub);
    }
  }

  /** Every part occurs in the joined text. */
  lemma {:induction false} JoinContainsParts(parts: seq<string>, sep: string)
    ensures forall i :: 0 <= i < |parts| ==> Contains(Join(parts, sep), parts[i])
    decreases |parts|
  {
    if |parts| == 1 {
      ContainsAt(parts[0], 0, parts[0]);
    } else if |parts| > 1 {
      var rest := Join(parts[1..], sep);
      JoinContainsParts(parts[1..], sep);
      assert Join(parts, sep) == parts[0] + (sep + rest);
      ContainsAt(Join(parts, sep), 0, parts[0]);
      forall i | 1 <= i < |parts| ensures Contains(Join(parts, sep), parts[i]) {
        assert parts[i] == parts[1..][i - 1];
        ContainsAfterPrefix(sep, rest, parts[i]);
        ContainsAfterPrefix(parts[0], sep + rest, parts[i]);
      }
    }
  }


  /** A needle starts at `j` exactly when the `|sub|` characters from `j` are the needle. */
  lemma StartsWithAt(s: string, sub: string, j: nat)
    requires j <= |s|
    ensures StartsWith(s[j..], sub) <==> j + |sub| <= |s| && s[j..j + |sub|] == sub
  {
    if j + |sub| <= |s| {
      assert s[j..][..|sub|] == s[j..j + |sub|];
    }
  }

  /** The search of `str::find` from index `i` on: the first index at or after `i` where `sub` starts. */
  function FindFrom(s: string, sub: string, i: nat): (r: Option<nat>)
    requires i <= |s|
    ensures r.Some? ==> i <= r.value && r.value + |sub| <= |s| && s[r.value..r.value + |sub|] == sub
    ensures r.Some? ==> forall j {:trigger StartsWith(s[j..], sub)} :: i <= j < r.value ==> !StartsWith(s[j..], sub)
    ensures r.None? ==> forall j {:trigger StartsWith(s[j..], sub)} :: i <= j <= |s| ==> !StartsWith(s[j..], sub)
    decreases |s| - i
  {
    StartsWithAt(s, sub, i);
    if i + |sub| > |s| then
      assert forall j :: i <= j <= |s| ==> |s[j..]| < |sub|;
      None
    else if s[i..i + |sub|] == sub then Some(i)
    else FindFrom(s, sub, i + 1)
  }

  /** `str::find` for a string needle: the first index where `sub` starts. */
  function Find(s: string, sub: string): (r: Option<nat>)
    ensures r.Some? ==> r.value + |sub| <= |s| && s[r.value..r.value + |sub|] == sub
    ensures r.Some? ==> forall j {:trigger StartsWith(s[j..], sub)} :: 0 <= j < r.value ==> !StartsWith(s[j..], sub)
    ensures r.None? ==> forall j {:trigger StartsWith(s[j..], sub)} :: 0 <= j <= |s| ==> !StartsWith(s[j..], sub)
  {
    FindFrom(s, sub, 0)
  }

  /** A text holding the needle has a position where it starts. */
  lemma {:induction false} ContainsWitness(s: string, sub: string) returns (j: nat)
    requires Contains(s, sub)
    ensures j <= |s| && StartsWith(s[j..], sub)
    decreases |s|
  {
    if StartsWith(s, sub) {
      j := 0;
      assert s[0..] == s;
    } else {
      var k := ContainsWitness(s[1..], sub);
      j := k + 1;
      assert s[1..][k..] == s[j..];
    }
  }

  /** `find` finds nothing exactly when the needle does not occur. */
  lemma FindNone(s: string, sub: string)
    ensures Find(s, sub).None? <==> !Contains(s, sub)
  {
    if Contains(s, sub) {
      var j := ContainsWitness(s, sub);
    }
    if Find(s, sub).Some? {
      ContainsAt(s, Find(s, sub).value, sub);
    }
  }

  /** A needle found at `i` and at no earlier position is found at `i`. */
  lemma FindAt(s: string, sub: string, i: nat)
    requires i + |sub| <= |s| && s[i..i + |sub|] == sub
    requires forall j {:trigger StartsWith(s[j..], sub)} :: 0 <= j < i ==> !StartsWith(s[j..], sub)
    ensures Find(s, sub) == Some(i)
  {
    StartsWithAt(s, sub, i);
    var k := Find(s, sub).value;
    StartsWithAt(s, sub, k);
  }

  /** A needle that does not occur in a text starts at none of its positions. */
  lemma NotContainedAt(s: string, sub: string, j: nat)
    requires !Contains(s, sub) && j + |sub| <= |s|
    ensures !StartsWith(s[j..], sub)
  {
    assert s[j..][..|sub|] == s[j..j + |sub|];
    if s[j..j + |sub|] == sub {
      ContainsAt(s, j, sub);
    }
  }

  /** A needle does not start where one of its characters disagrees with the text. */
  lemma Mismatch(t: string, sub: string, j: nat, p: nat)
    requires j <= p < j + |sub| && p < |t| && t[p] != sub[p - j]
    ensures !StartsWith(t[j..], sub)
  {
  }

  /** Whether a needle starts at `j` depends only on the characters it would cover. */
  lemma StartsWithWithin(t: string, u: string, j: nat, sub: string)
    requires j + |sub| <= |t| && j + |sub| <= |u| && t[j..j + |sub|] == u[j..j + |sub|]
    ensures StartsWith(t[j..], sub) <==> StartsWith(u[j..], sub)
  {
    assert t[j..][..|sub|] == t[j..j + |sub|];
    assert u[j..][..|sub|] == u[j..j + |sub|];
  }

  /** A prefix of a concatenation that ends within the first part is a prefix of that part. */
  lemma PrefixOfAppend<T>(x: seq<T>, y: seq<T>, n: nat)
    requires n <= |x|
    ensures (x + y)[..n] == x[..n]
  {
  }

  /** The index of the first occurrence of `c`, or `|s|` when there is none. */
  function IndexOfChar(s: string, c: char): (i: nat)
    ensures i <= |s|
    ensures c !in s[..i]
    ensures i < |s| ==> s[i] == c
    ensures i == |s| <==> c !in s
  {
    if |s| == 0 then 0
    else if s[0] == c then 0
    else
      var k := IndexOfChar(s[1..], c);
      assert s[..k + 1] == [s[0]] + s[1..][..k];
      k + 1
  }

  /** `str::rfind` for a character: the last index holding `c`. */
  function LastIndexOfChar(s: string, c: char): (r: Option<nat>)
    ensures r.Some? ==> r.value < |s| && s[r.value] == c && c !in s[r.value + 1..]
    ensures r.None? <==> c !in s
  {
    if |s| == 0 then None
    else if s[|s| - 1] == c then Some(|s| - 1)
    else
      var r := LastIndexOfChar(s[..|s| - 1], c);
      assert s == s[..|s| - 1] + [s[|s| - 1]];
      r
  }

  /** `slice::join` on strings. */
  function Join(parts: seq<string>, sep: string): (r: string)
    ensures |parts| == 1 ==> r == parts[0]
    decreases |parts|
  {
    if |parts| == 0 then ""
    else if |parts| == 1 then parts[0]
    else parts[0] + sep + Join(parts[1..], sep)
  }

  /** `str::split` on a single character: the pieces between separators, empty ones included. */
  function Split(s: string, sep: char): (parts: seq<string>)
    ensures |parts| >= 1
    ensures forall p <- parts :: sep !in p
    ensures Join(parts, [sep]) == s
    decreases |s|
  {
    var i := IndexOfChar(s, sep);
    if i == |s| then [s]
    else
      var rest := Split(s[i + 1..], sep);
      assert s == s[..i] + [sep] + s[i + 1..];
      [s[..i]] + rest
  }

  /** The leading run of non-whitespace characters. */
  function TakeToken(s: string): (t: string)
    ensures |t| <= |s| && t == s[..|t|] && NoWhitespace(t)
    ensures |t| < |s| ==> IsWhitespace(s[|t|])
    decreases |s|
  {
    if |s| == 0 || IsWhitespace(s[0]) then "" else [s[0]] + TakeToken(s[1..])
  }

  /** `str::split_whitespace`: the maximal runs of non-whitespace characters, in order. */
  function SplitWhitespace(s: string): (tokens: seq<string>)
    ensures forall t <- tokens :: |t| > 0 && NoWhitespace(t)
    decreases |s|
  {
    var u := TrimStart(s);
    if |u| == 0 then []
    else
      var t := TakeToken(u);
      [t] + SplitWhitespace(u[|t|..])
  }

  /** `str::lines`: split at "\n" (a "\r" just before it is dropped); no empty line after a final "\n". */
  function Lines(s: string): (lines: seq<string>)
    ensures |s| == 0 <==> |lines| == 0
    ensures forall l <- lines :: '\n' !in l
    decreases |s|
  {
    if |s| == 0 then []
    else
      var i := IndexOfChar(s, '\n');
      var line := if i < |s| && i > 0 && s[i - 1] == '\r' then s[..i - 1] else s[..i];
      assert forall k :: 0 <= k < |line| ==> line[k] == s[k];
      [line] + (if i < |s| then Lines(s[i + 1..]) else [])
  }

  function DigitChar(d: nat): (c: char)
    requires d < 10
    ensures '0' <= c <= '9'
  {
    ('0' as int + d) as char
  }

  /** Decimal rendering of a natural number, as `format!("{}", n)` prints it. */
  function NatToString(n: nat): (s: string)
    ensures |s| >= 1
    ensures forall i :: 0 <= i < |s| ==> '0' <= s[i] <= '9'
    ensures |s| > 1 ==> s[0] != '0'
    decreases n
  {
    if n < 10 then [DigitChar(n)] else NatToString(n / 10) + [DigitChar(n % 10)]
  }

  /** Reading decimal digits back. */
  function ParseDigits(s: string): nat
    requires forall i :: 0 <= i < |s| ==> '0' <= s[i] <= '9'
    decreases |s|
  {
    if |s| == 0 then 0 else 10 * ParseDigits(s[..|s| - 1]) + (s[|s| - 1] as int - '0' as int)
  }

  /** Decimal rendering loses nothing. */
  lemma {:induction false} NatToStringRoundTrip(n: nat)
    ensures ParseDigits(NatToString(n)) == n
    decreases n
  {
    if n >= 10 {
      NatToStringRoundTrip(n / 10);
      var s := NatToString(n);
      assert s[..|s| - 1] == NatToString(n / 10);
    }
  }

  /** `n` rendered in exactly two digits with a leading zero, as `%H`, `%M`, `%S`, `%m` and `%d` print it. */
  function TwoDigits(n: nat): (s: string)
    requires n < 100
    ensures |s| == 2 && '0' <= s[0] <= '9' && '0' <= s[1] <= '9'
    ensures ParseDigits(s) == n
  {
    var s := [DigitChar(n / 10), DigitChar(n % 10)];
    assert s[..1] == [DigitChar(n / 10)];
    assert s[..1][..0] == [];
    assert ParseDigits(s[..1]) == n / 10;
    s
  }

  /** `Path::is_absolute` on Unix. */
  predicate IsAbsolute(p: string) {
    |p| > 0 && p[0] == '/'
  }

  /** `Path::join` on Unix: an absolute path replaces the base, a relative one is appended after a separator. */
  function JoinPath(base: string, p: string): (r: string)
    ensures IsAbsolute(p) ==> r == p
    ensures !IsAbsolute(p) ==> StartsWith(r, base) && EndsWith(r, p)
    ensures !IsAbsolute(p) && |base| > 0 ==> |r| >= |base| + |p| && r[|r| - |p| - 1] == '/'
  {
    if IsAbsolute(p) then p
    else if |base| == 0 then p
    else if base[|base| - 1] == '/' then base + p
    else base + "/" + p
  }

  // ----- ordering -----

  /** `String`'s `Ord`: lexicographic by character (for UTF-8 bytes this is code-point order), a proper prefix first. */
  predicate Less(a: string, b: string)
    decreases |a|
  {
    if |a| == 0 then |b| > 0
    else if |b| == 0 then false
    else a[0] < b[0] || (a[0] == b[0] && Less(a[1..], b[1..]))
  }

  /** `Less` is a strict total order. */
  lemma {:induction false} LessIrreflexive(a: string)
    ensures !Less(a, a)
    decreases |a|
  {
    if |a| > 0 {
      LessIrreflexive(a[1..]);
    }
  }

  lemma {:induction false} LessTransitive(a: string, b: string, c: string)
    requires Less(a, b) && Less(b, c)
    ensures Less(a, c)
    decreases |a|
  {
    if |a| > 0 && a[0] == b[0] && b[0] == c[0] {
      LessTransitive(a[1..], b[1..], c[1..]);
    }
  }

  lemma {:induction false} LessTotal(a: string, b: string)
    requires a != b
    ensures Less(a, b) != Less(b, a)
    decreases |a|
  {
    if |a| > 0 && |b| > 0 && a[0] == b[0] {
      assert a == [a[0]] + a[1..] && b == [b[0]] + b[1..];
      LessTotal(a[1..], b[1..]);
    }
  }

  // ----- truncation marker -----

  const TruncatedOpen := "... [truncated, "
  const TruncatedClose := " chars total]"

  /** Text longer than `max` characters, cut to its first `max` and followed by a marker giving the full length. */
  function Capped(s: string, max: nat): string {
    if |s| <= max then s else s[..max] + TruncatedOpen + NatToString(|s|) + TruncatedClose
  }

  /**
   * Text within the cap is unchanged. Longer text keeps exactly its first `max` characters,
   * then the marker, whose digits read back as the full length.
   */
  lemma CappedProperties(s: string, max: nat)
    ensures |s| <= max ==> Capped(s, max) == s
    ensures |s| > max ==>
      var r := Capped(s, max);
      var n := r[max + |TruncatedOpen|..|r| - |TruncatedClose|];
      && |r| > max + |TruncatedOpen| + |TruncatedClose|
      && r[..max] == s[..max]
      && r[max..max + |TruncatedOpen|] == TruncatedOpen
      && EndsWith(r, TruncatedClose)
      && (forall i :: 0 <= i < |n| ==> '0' <= n[i] <= '9')
      && ParseDigits(n) == |s|
  {
    if |s| > max {
      var r := Capped(s, max);
      var digits := NatToString(|s|);
      assert r == s[..max] + TruncatedOpen + digits + TruncatedClose;
      assert r[max + |TruncatedOpen|..|r| - |TruncatedClose|] == digits;
      NatToStringRoundTrip(|s|);
    }
  }
}
