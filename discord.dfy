/**
 * The Discord adapter: it shares splitting replies, sanitising attachment names and the
 * table of messages awaiting a reply with the Telegram adapter (module `Adapters`);
 * what is its own is Discord's shorter limit on a message.
 */
module Discord {
  import opened Adapters

  /** Discord's limit on the length of one message. */
  const DiscordMaxLength: nat := 2000

  /**
   * A reply within Discord's limit goes out as one message; a longer one as several,
   * each within the limit and none empty, which put back together with the newlines
   * dropped at the cuts give the reply again.
   */
  lemma ReplyChunks(response: string)
    ensures |response| <= DiscordMaxLength ==> MessageChunks(response, DiscordMaxLength) == [response]
    ensures forall c <- MessageChunks(response, DiscordMaxLength) :: |c| <= DiscordMaxLength
    ensures |response| > DiscordMaxLength ==>
      && (forall c <- MessageChunks(response, DiscordMaxLength) :: c != "")
      && Interleave(MessageChunks(response, DiscordMaxLength), Dropped(response, DiscordMaxLength)) == response
  {
    MessageChunksBounds(response, DiscordMaxLength);
    MessageChunksReassemble(response, DiscordMaxLength);
  }
}
