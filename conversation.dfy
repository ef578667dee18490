/**
 * Conversations between agents: creating one, turning its collected replies into the
 * single reply the user receives, and the messages agents send each other inside it.
 * The clock is the parameter `now`; whether a path names an existing file is the
 * oracle `onDisk`.
 */
module Conversations {
  import opened Wrappers
  import opened Text
  import opened Types
  import opened Tags

  const MaxConversationMessages: nat := 50
  const LongResponseThreshold: nat := 4000
  const AttachedNote := "\n\n_(Full response attached as file)_"
  const BlockSeparator := "\n\n------\n\n"

  /** `create_conversation`: one reply pending, nothing recorded yet, identified by the message id and the time. */
  function CreateConversation(messageId: string, channel: string, sender: string, originalMessage: string,
                              teamContext: Option<TeamContext>, now: nat): (c: Conversation)
    ensures c.pending == 1 && c.responses == [] && c.files == {} && c.totalMessages == 0
    ensures c.maxMessages == MaxConversationMessages && c.outgoingMentions == map[] && c.startTime == now
    ensures c.messageId == messageId && c.channel == channel && c.sender == sender
    ensures c.originalMessage == originalMessage && c.teamContext == teamContext
  {
    Conversation(messageId + "_" + NatToString(now), channel, sender, originalMessage, messageId,
                 1, [], {}, 0, MaxConversationMessages, teamContext, now, map[])
  }

  /** The id is the message id, an underscore, and the creation time in decimal, which reads back. */
  lemma ConversationIdFormat(messageId: string, channel: string, sender: string, originalMessage: string,
                             teamContext: Option<TeamContext>, now: nat)
    ensures var id := CreateConversation(messageId, channel, sender, originalMessage, teamContext, now).id;
      && StartsWith(id, messageId + "_")
      && var digits := id[|messageId| + 1..];
         (forall i :: 0 <= i < |digits| ==> '0' <= digits[i] <= '9') && ParseDigits(digits) == now
  {
    var id := CreateConversation(messageId, channel, sender, originalMessage, teamContext, now).id;
    assert id[|messageId| + 1..] == NatToString(now);
    NatToStringRoundTrip(now);
  }

  /**
   * `handle_long_response`: a reply of at most 4000 characters goes out as it is; a longer
   * one is cut to its first 4000 characters plus a note, and the full text is attached as
   * "response_<now>.md" in the files directory (writing that file is not modelled).
   */
  function HandleLongResponse(response: string, existingFiles: seq<string>, filesDir: string, now: nat): (r: (string, seq<string>))
  {
    if |response| <= LongResponseThreshold then (response, existingFiles)
    else (response[..LongResponseThreshold] + AttachedNote,
          existingFiles + [JoinPath(filesDir, "response_" + NatToString(now) + ".md")])
  }

  /** Short replies and their files are untouched; long ones keep their first 4000 characters, add the note, and gain one file. */
  lemma HandleLongResponseProperties(response: string, existingFiles: seq<string>, filesDir: string, now: nat)
    ensures var (message, files) := HandleLongResponse(response, existingFiles, filesDir, now);
      && (|response| <= 4000 ==> message == response && files == existingFiles)
      && (|response| > 4000 ==>
            && |message| == 4000 + |AttachedNote|
            && StartsWith(response, message[..4000])
            && EndsWith(message, AttachedNote)
            && |files| == |existingFiles| + 1 && files[..|existingFiles|] == existingFiles
            && EndsWith(files[|existingFiles|], ".md"))
  {
    if |response| > 4000 {
      var (message, files) := HandleLongResponse(response, existingFiles, filesDir, now);
      assert message[..4000] == response[..4000];
      var name := "response_" + NatToString(now) + ".md";
      assert EndsWith(name, ".md");
      assert files[|existingFiles|] == JoinPath(filesDir, name);
      var p := JoinPath(filesDir, name);
      assert p[|p| - |name|..][|name| - 3..] == p[|p| - 3..];
    }
  }

  // ----- `[send_file: path]` references -----

  /** One `\[send_file:\s*([^\]]+)\]` match spanning `[start, end)`; `path` is the trimmed capture. */
  datatype SendFile = SendFile(start: nat, end: nat, path: string)

  const SendFileOpen := "[send_file:"

  /** The reference the regex matches at exactly position `p`, if any: a non-empty text up to the first ']'. */
  function SendFileAt(s: string, p: nat): (r: Option<SendFile>)
    requires p <= |s|
    ensures r.Some? ==> r.value.start == p < r.value.end <= |s| && ']' !in r.value.path
  {
    if !StartsWith(s[p..], SendFileOpen) then None
    else
      var q := p + |SendFileOpen|;
      var k := IndexOfChar(s[q..], ']');
      if k == 0 || k == |s| - q then None
      else
        var body := s[q..][..k];
        TrimKeepsAbsentChar(body, ']');
        Some(SendFile(p, q + k + 1, Trim(body)))
  }

  /** `captures_iter` from position `i`: the non-overlapping references, leftmost first. */
  function SendFilesFrom(s: string, i: nat): (refs: seq<SendFile>)
    requires i <= |s|
    ensures forall r <- refs :: i <= r.start < r.end <= |s|
    decreases |s| - i
  {
    if i == |s| then []
    else match SendFileAt(s, i)
      case Some(f) => [f] + SendFilesFrom(s, f.end)
      case None => SendFilesFrom(s, i + 1)
  }

  /** Every captured path is trimmed and holds no ']'. */
  lemma {:induction false} SendFilePathsClean(s: string, i: nat)
    requires i <= |s|
    ensures forall r <- SendFilesFrom(s, i) :: ']' !in r.path && Trim(r.path) == r.path
    decreases |s| - i
  {
    if i < |s| {
      match SendFileAt(s, i)
      case Some(f) =>
        var q := i + |SendFileOpen|;
        TrimIdempotent(s[q..][..IndexOfChar(s[q..], ']')]);
        SendFilePathsClean(s, f.end);
      case None => SendFilePathsClean(s, i + 1);
    }
  }

  /** `replace_all(s, "")` for the references from position `i`. */
  function StripSendFilesFrom(s: string, i: nat): (r: string)
    requires i <= |s|
    decreases |s| - i
  {
    if i == |s| then ""
    else match SendFileAt(s, i)
      case Some(f) => StripSendFilesFrom(s, f.end)
      case None => [s[i]] + StripSendFilesFrom(s, i + 1)
  }

  function SpanTotal(refs: seq<SendFile>): int {
    if |refs| == 0 then 0 else (refs[0].end - refs[0].start) + SpanTotal(refs[1..])
  }

  /** Stripping deletes exactly the matched references: the text shrinks by their total length, and not at all without them. */
  lemma {:induction false} StripSendFilesLength(s: string, i: nat)
    requires i <= |s|
    ensures |StripSendFilesFrom(s, i)| + SpanTotal(SendFilesFrom(s, i)) == |s| - i
    ensures SendFilesFrom(s, i) == [] ==> StripSendFilesFrom(s, i) == s[i..]
    decreases |s| - i
  {
    if i < |s| {
      match SendFileAt(s, i)
      case Some(f) =>
        StripSendFilesLength(s, f.end);
        assert StripSendFilesFrom(s, i) == StripSendFilesFrom(s, f.end);
        assert SendFilesFrom(s, i) == [f] + SendFilesFrom(s, f.end);
        assert SendFilesFrom(s, i)[1..] == SendFilesFrom(s, f.end);
      case None =>
        StripSendFilesLength(s, i + 1);
        assert StripSendFilesFrom(s, i) == [s[i]] + StripSendFilesFrom(s, i + 1);
        assert SendFilesFrom(s, i) == SendFilesFrom(s, i + 1);
        assert s[i..] == [s[i]] + s[i + 1..];
    }
  }

  /** The referenced paths that name existing files. */
  function ExistingPaths(refs: seq<SendFile>, onDisk: string -> bool): set<string> {
    set r | r in refs && onDisk(r.path) :: r.path
  }

  /** `collect_files`: adds to the set every referenced path that exists. */
  method CollectFiles(response: string, fileSet: set<string>, onDisk: string -> bool) returns (r: set<string>)
    ensures r == fileSet + ExistingPaths(SendFilesFrom(response, 0), onDisk)
  {
    r := AddExisting(SendFilesFrom(response, 0), fileSet, onDisk);
  }

  /** The loop of `collect_files` over the captured references. */
  method AddExisting(refs: seq<SendFile>, fileSet: set<string>, onDisk: string -> bool) returns (r: set<string>)
    ensures r == fileSet + ExistingPaths(refs, onDisk)
  {
    r := fileSet;
    for i := 0 to |refs|
      invariant r == fileSet + ExistingPaths(refs[..i], onDisk)
    {
      ExistingPathsStep(refs, i, onDisk);
      var path := refs[i].path;
      if onDisk(path) {
        r := r + {path};
      }
    }
    assert refs[..|refs|] == refs;
  }

  lemma ExistingPathsStep(refs: seq<SendFile>, i: nat, onDisk: string -> bool)
    requires i < |refs|
    ensures ExistingPaths(refs[..i + 1], onDisk)
            == ExistingPaths(refs[..i], onDisk) + (if onDisk(refs[i].path) then {refs[i].path} else {})
  {
    assert refs[..i + 1] == refs[..i] + [refs[i]];
  }

  /** Nothing is ever dropped from the set, and everything added is an existing, referenced, trimmed path. */
  lemma CollectedFilesProperties(response: string, fileSet: set<string>, onDisk: string -> bool)
    ensures var r := fileSet + ExistingPaths(SendFilesFrom(response, 0), onDisk);
      && fileSet <= r
      && forall p <- r - fileSet :: onDisk(p) && ']' !in p && Trim(p) == p
  {
    SendFilePathsClean(response, 0);
  }

  // ----- completing a conversation -----

  /** One reply's block in the aggregate. */
  function Block(step: ChainStep): string {
    "@" + step.agentId + ": " + step.response
  }

  function Blocks(responses: seq<ChainStep>): (r: seq<string>)
    ensures |r| == |responses| && forall i :: 0 <= i < |responses| ==> r[i] == Block(responses[i])
  {
    if |responses| == 0 then [] else [Block(responses[0])] + Blocks(responses[1..])
  }

  /** The replies of a conversation as one text: a single reply verbatim, several as labelled blocks. */
  function Aggregate(responses: seq<ChainStep>): string {
    if |responses| == 1 then responses[0].response else Join(Blocks(responses), BlockSeparator)
  }

  /** A single reply is the aggregate; with several, every reply occurs labelled with its agent, the first one leading. */
  lemma AggregateProperties(responses: seq<ChainStep>)
    ensures |responses| == 1 ==> Aggregate(responses) == responses[0].response
    ensures |responses| >= 2 ==>
      && StartsWith(Aggregate(responses), Block(responses[0]) + BlockSeparator)
      && forall i :: 0 <= i < |responses| ==> Contains(Aggregate(responses), Block(responses[i]))
  {
    if |responses| >= 2 {
      var bs := Blocks(responses);
      JoinContainsParts(bs, BlockSeparator);
      assert Join(bs, BlockSeparator) == (bs[0] + BlockSeparator) + Join(bs[1..], BlockSeparator);
    }
  }

  /** Some order of the elements of a set, as `HashSet::into_iter` produces one. */
  ghost function SetToSeq(s: set<string>): (r: seq<string>)
    ensures |r| == |s| && forall x :: x in r <==> x in s
    decreases |s|
  {
    if s == {} then [] else var x :| x in s; [x] + SetToSeq(s - {x})
  }

  /** The reply text after aggregation and trimming, `[send_file]` removal and directive removal. */
  function FinalText(conv: Conversation, outbound: set<string>): string {
    var aggregated := Trim(Aggregate(conv.responses));
    var withoutFiles := if outbound != {} then Trim(StripSendFilesFrom(aggregated, 0)) else aggregated;
    Trim(StripTags(withoutFiles, Plain))
  }

  /** The files that go out with the reply: the conversation's and those its text references. */
  function Outbound(conv: Conversation, onDisk: string -> bool): set<string> {
    conv.files + ExistingPaths(SendFilesFrom(Trim(Aggregate(conv.responses)), 0), onDisk)
  }

  /** `complete_conversation`: the reply written to the outgoing queue. */
  ghost function CompleteConversation(conv: Conversation, onDisk: string -> bool, filesDir: string, now: nat): ResponseData {
    var outbound := Outbound(conv, onDisk);
    var (message, files) := HandleLongResponse(FinalText(conv, outbound), SetToSeq(outbound), filesDir, now);
    ResponseData(conv.channel, conv.sender, message, conv.originalMessage, now, conv.messageId, None,
                 if files == [] then None else Some(files))
  }

  /** Whether completing the conversation writes a chat history: only for team conversations. */
  predicate SavesChatHistory(conv: Conversation) {
    conv.teamContext.Some?
  }

  /**
   * The reply goes back to the conversation's channel, sender and message; `[send_file]`
   * tags are removed only when some file goes out, bracket directives always; the file
   * list holds exactly the outbound files plus the long-reply attachment, and is absent
   * when that is nothing.
   */
  lemma CompleteConversationProperties(conv: Conversation, onDisk: string -> bool, filesDir: string, now: nat)
    ensures var r := CompleteConversation(conv, onDisk, filesDir, now);
      var outbound := Outbound(conv, onDisk);
      var text := FinalText(conv, outbound);
      && r.channel == conv.channel && r.sender == conv.sender && r.messageId == conv.messageId
      && r.originalMessage == conv.originalMessage && r.agent.None?
      && (outbound == {} ==> text == Trim(StripTags(Trim(Aggregate(conv.responses)), Plain)))
      && (|text| <= 4000 ==> r.message == text)
      && (r.files.None? <==> outbound == {} && |text| <= 4000)
      && (r.files.Some? ==> forall f <- outbound :: f in r.files.value)
      && (r.files.Some? && |text| <= 4000 ==> forall f <- r.files.value :: f in outbound)
  {
  }

  /** `complete_conversation`'s outgoing file name: the message id for the heartbeat channel, channel, id and time otherwise. */
  function OutgoingFileName(conv: Conversation, now: nat): (name: string)
    ensures EndsWith(name, ".json")
  {
    if conv.channel == "heartbeat" then conv.messageId + ".json"
    else conv.channel + "_" + conv.messageId + "_" + NatToString(now) + ".json"
  }

  lemma OutgoingFileNameProperties(conv: Conversation, now: nat)
    ensures conv.channel == "heartbeat" ==> OutgoingFileName(conv, now) == conv.messageId + ".json"
    ensures conv.channel != "heartbeat" ==>
      && StartsWith(OutgoingFileName(conv, now), conv.channel + "_" + conv.messageId + "_")
      && var name := OutgoingFileName(conv, now);
         var digits := name[|conv.channel| + |conv.messageId| + 2..|name| - 5];
         ParseDigits(digits) == now
  {
    if conv.channel != "heartbeat" {
      var name := OutgoingFileName(conv, now);
      assert name[|conv.channel| + |conv.messageId| + 2..|name| - 5] == NatToString(now);
      NatToStringRoundTrip(now);
    }
  }

  /**
   * `enqueue_internal_message`'s message: the original's channel, sender and message id,
   * addressed to the target agent within the conversation, from the sending agent, with
   * no files. Writing it to the incoming queue is not modelled.
   */
  function InternalMessage(conversationId: string, fromAgent: string, targetAgent: string, message: string,
                           original: MessageData, now: nat): (m: MessageData)
    ensures m.channel == original.channel && m.sender == original.sender && m.senderId == original.senderId
    ensures m.messageId == original.messageId && m.message == message && m.timestamp == now
    ensures m.agent == Some(targetAgent) && m.conversationId == Some(conversationId)
    ensures m.fromAgent == Some(fromAgent) && m.files.None?
  {
    MessageData(original.channel, original.sender, original.senderId, message, now, original.messageId,
                Some(targetAgent), None, Some(conversationId), Some(fromAgent))
  }
}
