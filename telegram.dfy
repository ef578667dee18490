/**
 * The Telegram adapter's pure helpers: the extension a media type gets, the extension
 * a downloaded file's name is given when it has none, and the name the file is stored
 * under. Splitting replies, sanitising names and the table of messages awaiting a
 * reply are shared with the Discord adapter and live in `Adapters`.
 */
module Telegram {
  import opened Wrappers
  import opened Text
  import opened Adapters

  /** Telegram's limit on the length of one message. */
  const TelegramMaxLength: nat := 4096

  /**
   * A reply within Telegram's limit goes out as one message; a longer one as several,
   * each within the limit and none empty, which put back together with the newlines
   * dropped at the cuts give the reply again.
   */
  lemma ReplyChunks(response: string)
    ensures |response| <= TelegramMaxLength ==> MessageChunks(response, TelegramMaxLength) == [response]
    ensures forall c <- MessageChunks(response, TelegramMaxLength) :: |c| <= TelegramMaxLength
    ensures |response| > TelegramMaxLength ==>
      && (forall c <- MessageChunks(response, TelegramMaxLength) :: c != "")
      && Interleave(MessageChunks(response, TelegramMaxLength), Dropped(response, TelegramMaxLength)) == response
  {
    MessageChunksBounds(response, TelegramMaxLength);
    MessageChunksReassemble(response, TelegramMaxLength);
  }

  /** The media types the adapter knows, with the extension each is saved under. */
  const MimeExtensions: map<string, string> := map[
    "image/jpeg" := ".jpg",
    "image/png" := ".png",
    "image/gif" := ".gif",
    "image/webp" := ".webp",
    "audio/ogg" := ".ogg",
    "audio/mpeg" := ".mp3",
    "video/mp4" := ".mp4",
    "application/pdf" := ".pdf"]

  /** `ext_from_mime`: the known type's extension, "" for any other type. */
  function ExtFromMime(mime: string): string {
    if mime in MimeExtensions then MimeExtensions[mime] else ""
  }

  /** The extension is empty exactly for an unknown type; a known type's is one '.' and a non-empty name. */
  lemma ExtFromMimeProperties(mime: string)
    ensures ExtFromMime(mime) == "" <==> mime !in MimeExtensions
    ensures ExtFromMime(mime) != "" ==> DotExtension(ExtFromMime(mime))
    ensures ExtFromMime("image/jpeg") == ".jpg" && ExtFromMime("audio/mpeg") == ".mp3"
  {
    if mime in MimeExtensions {
      var e := MimeExtensions[mime];
      assert e in MimeExtensions.Values;
      assert e in {".jpg", ".png", ".gif", ".webp", ".ogg", ".mp3", ".mp4", ".pdf"};
    }
  }

  /** `Path::extension`: after the file name's last '.', none when that '.' starts the name. */
  function Extension(p: string): Option<string> {
    NameExtension(FileName(p))
  }

  /** The extension of a file name: what follows its last '.', none when that '.' starts the name. */
  function NameExtension(f: string): Option<string> {
    match LastIndexOfChar(f, '.')
    case None => None
    case Some(i) => if i == 0 then None else Some(f[i + 1..])
  }

  /** `ensure_file_extension`: the name as is when it has an extension, else with the fallback appended. */
  function EnsureFileExtension(name: string, fallbackExt: string): string {
    if Extension(name).Some? then name else name + fallbackExt
  }

  /** A fallback of the form ".ext", with no further '.' or '/'. */
  predicate DotExtension(e: string) {
    |e| >= 2 && e[0] == '.' && '.' !in e[1..] && '/' !in e
  }

  /**
   * For a non-empty plain name and a fallback ".ext", the result has an extension (the
   * fallback's, when the name had none) and ensuring again changes nothing.
   */
  lemma EnsuredExtension(name: string, fallbackExt: string)
    requires name != "" && '/' !in name && DotExtension(fallbackExt)
    ensures var r := EnsureFileExtension(name, fallbackExt);
      && Extension(r).Some?
      && (Extension(name).None? ==> Extension(r) == Some(fallbackExt[1..]))
      && EnsureFileExtension(r, fallbackExt) == r
  {
    if Extension(name).None? {
      var s := name + fallbackExt;
      assert '/' !in s by {
        forall i | 0 <= i < |s| ensures s[i] != '/' {
          if i < |name| { assert s[i] == name[i]; } else { assert s[i] == fallbackExt[i - |name|]; }
        }
      }
      assert |s| >= 3;
      FileNameNoSlash(s);
      assert s[|name|] == '.';
      forall j | |name| < j < |s| ensures s[j] != '.' {
        assert s[j] == fallbackExt[1..][j - |name| - 1];
      }
      LastIndexAt(s, '.', |name|);
      assert s[|name| + 1..] == fallbackExt[1..];
    }
  }

  /** The last occurrence of `c` is at `p` when `c` is at `p` and nowhere after it. */
  lemma LastIndexAt(s: string, c: char, p: nat)
    requires p < |s| && s[p] == c && forall j :: p < j < |s| ==> s[j] != c
    ensures LastIndexOfChar(s, c) == Some(p)
  {
    var l := LastIndexOfChar(s, c);
    assert l.Some?;
    forall j | l.value < j < |s| ensures s[j] != c {
      assert s[l.value + 1..][j - l.value - 1] == s[j];
    }
  }


  /**
   * The name a downloaded file is stored under: "telegram_", the message id, "_", then the
   * original name (or the last component of Telegram's path, or "file_" and the time when
   * both are empty) given the media type's extension, or ".bin", when it has none.
   */
  function DownloadFileName(messageId: string, originalName: Option<string>, telegramPath: string,
                            ext: string, now: nat): string
  {
    "telegram_" + messageId + "_" + EnsureFileExtension(SourceName(originalName, telegramPath, ext, now), FallbackExt(ext))
  }

  /** The name before its extension is ensured: the original name, else Telegram's file name, else "file_" and the time. */
  function SourceName(originalName: Option<string>, telegramPath: string, ext: string, now: nat): string {
    var source := if originalName.Some? then originalName.value else FileName(telegramPath);
    if source == "" then "file_" + NatToString(now) + ext else source
  }

  /** The extension ensured on a download: the media type's, or ".bin" when it is unknown. */
  function FallbackExt(ext: string): string {
    if ext == "" then ".bin" else ext
  }

  /**
   * The stored name starts with "telegram_" and the message id and always has an
   * extension; when the media type is unknown and the original name has none, it is ".bin".
   */
  lemma DownloadFileNameProperties(messageId: string, originalName: Option<string>, telegramPath: string,
                                   ext: string, now: nat)
    requires ext == "" || DotExtension(ext)
    requires '/' !in messageId
    requires originalName.Some? ==> '/' !in originalName.value
    ensures var r := DownloadFileName(messageId, originalName, telegramPath, ext, now);
      && StartsWith(r, "telegram_" + messageId + "_")
      && Extension(r).Some?
      && (ext == "" && originalName.Some? && originalName.value != "" && Extension(originalName.value).None?
          ==> Extension(r) == Some("bin"))
  {
    var named := SourceName(originalName, telegramPath, ext, now);
    var fallback := FallbackExt(ext);
    assert DotExtension(fallback) by {
      if ext == "" { assert fallback == ".bin"; }
    }
    SourceNamePlain(originalName, telegramPath, ext, now);
    StoredName("telegram_" + messageId + "_", named, fallback);
  }

  /** The source name is never empty and has no '/' when the original name has none. */
  lemma SourceNamePlain(originalName: Option<string>, telegramPath: string, ext: string, now: nat)
    requires ext == "" || DotExtension(ext)
    requires originalName.Some? ==> '/' !in originalName.value
    ensures var named := SourceName(originalName, telegramPath, ext, now);
      named != "" && '/' !in named
      && (originalName.Some? && originalName.value != "" ==> named == originalName.value)
  {
    var source := if originalName.Some? then originalName.value else FileName(telegramPath);
    if source == "" {
      SlashFree("file_" + NatToString(now), ext);
    }
  }

  /** A '/'-free prefix before the ensured name: the prefix stays, the extension is there. */
  lemma StoredName(prefix: string, named: string, fallback: string)
    requires '/' !in prefix && named != "" && '/' !in named && DotExtension(fallback)
    ensures var r := prefix + EnsureFileExtension(named, fallback);
      && StartsWith(r, prefix)
      && Extension(r).Some?
      && (Extension(named).None? ==> Extension(r) == Some(fallback[1..]))
  {
    EnsuredExtension(named, fallback);
    var withExt := EnsureFileExtension(named, fallback);
    SlashFree(named, fallback);
    ExtensionAfterPrefix(prefix, withExt);
    PrefixOfAppend(prefix, withExt, |prefix|);
  }

  /** Joining two strings without '/' gives one without '/'. */
  lemma SlashFree(a: string, b: string)
    requires '/' !in a && '/' !in b
    ensures '/' !in a + b
  {
    forall i | 0 <= i < |a + b| ensures (a + b)[i] != '/' {
      if i < |a| { assert (a + b)[i] == a[i]; } else { assert (a + b)[i] == b[i - |a|]; }
    }
  }

  /** Putting a '/'-free prefix before a name that has an extension keeps that extension. */
  lemma ExtensionAfterPrefix(prefix: string, name: string)
    requires '/' !in prefix && '/' !in name && Extension(name).Some?
    ensures Extension(prefix + name) == Extension(name)
  {
    ExtensionPlain(name);
    var s := prefix + name;
    SlashFree(prefix, name);
    assert |name| >= 2 && s[|s| - |name|..] == name;
    assert s != "." && s != "..";
    ExtensionPlain(s);
    NameExtensionAfterPrefix(prefix, name);
  }

  /** A '/'-free path is its own file name, so its extension is the name's, except for "." and "..". */
  lemma ExtensionPlain(s: string)
    requires '/' !in s
    ensures Extension(s) == if s == "." || s == ".." then None else NameExtension(s)
  {
    FileNameNoSlash(s);
    assert NameExtension("") == None;
  }

  /** A name's extension survives any prefix. */
  lemma NameExtensionAfterPrefix(prefix: string, name: string)
    requires NameExtension(name).Some?
    ensures NameExtension(prefix + name) == NameExtension(name)
  {
    var i := LastIndexOfChar(name, '.').value;
    DotAfterPrefix(prefix, name, i);
    assert (prefix + name)[|prefix| + i + 1..] == name[i + 1..];
  }

  /** The last '.' of a name stays the last one behind a prefix. */
  lemma DotAfterPrefix(prefix: string, name: string, i: nat)
    requires i < |name| && name[i] == '.' && '.' !in name[i + 1..]
    ensures LastIndexOfChar(prefix + name, '.') == Some(|prefix| + i)
  {
    var s := prefix + name;
    forall j | |prefix| + i < j < |s| ensures s[j] != '.' {
      assert s[j] == name[i + 1..][j - |prefix| - i - 1];
    }
    LastIndexAt(s, '.', |prefix| + i);
  }
}
