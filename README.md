# rusty-claw orchestration core, modelled in Dafny

rusty-claw connects people writing on Telegram, Discord and other channels to a pool of
command-line AI agents (Claude, Codex, OpenCode). Every incoming message becomes a JSON file
in a directory queue. The queue processor claims it and routes it to an agent or team, by an
`@id` prefix, by keywords or to `default`. It invokes the agent's backend, failing over to
fallback models while a `provider:model` pair cools down. It then reads the reply for
handoffs to teammates (`[@id: …]`, `[@!id: …]`, `@id:` at a line start). Handoffs fan a
conversation out. Once every branch has answered, it fans back in and exactly one
aggregated reply is written to the outgoing queue. Around this core sit:
- per-sender sessions with reset policies and compaction;
- sender pairing;
- SKILL.md discovery;
- transcripts and the context preamble fed to each agent;
- the teammate block kept in each agent's AGENTS.md and CLAUDE.md;
- settings and model-id tables;
- the chat adapters' reply splitter, attachment-name sanitiser and table of messages awaiting a reply.

The model follows the source module by module:

| Dafny file (module) | source |
|---|---|
| `routing.dfy` (Routing), `tags.dfy` (Tags) | `crates/rustyclaw-core/src/routing.rs` |
| `smart_routing.dfy` (SmartRouting) | `rusty-claw/crates/rustyclaw-core/src/smart_routing.rs` |
| `conversation.dfy` (Conversations) | `crates/rustyclaw-queue/src/conversation.rs` |
| `processor.dfy` (Processor) | `rusty-claw/crates/rustyclaw-queue/src/processor.rs` |
| `failover.dfy` (Failover) | `rusty-claw/crates/rustyclaw-core/src/failover.rs` |
| `invoke.dfy` (Invoke) | `crates/rustyclaw-queue/src/invoke.rs` |
| `cooldown_cmd.dfy` (CooldownCmd) | `crates/rustyclaw-cli/src/cooldown_cmd.rs` |
| `session.dfy` (Session) | `crates/rustyclaw-core/src/session.rs` |
| `calendar.dfy` (Calendar) | the UTC calendar arithmetic behind the timestamps that `crates/rustyclaw-cli/src/pairing_cmd.rs` and `crates/rustyclaw-core/src/transcript.rs` format with chrono |
| `compaction.dfy` (Compaction) | `crates/rustyclaw-core/src/compaction.rs` |
| `pairing.dfy` (Pairing) | `crates/rustyclaw-core/src/pairing.rs` |
| `pairing_cmd.dfy` (PairingCmd) | `crates/rustyclaw-cli/src/pairing_cmd.rs` |
| `skills.dfy` (Skills) | `rusty-claw/crates/rustyclaw-core/src/skills.rs` |
| `transcript.dfy` (Transcript) | `crates/rustyclaw-core/src/transcript.rs` |
| `context.dfy` (Context) | `crates/rustyclaw-core/src/context.rs` |
| `agent_setup.dfy` (AgentSetup) | `crates/rustyclaw-core/src/agent_setup.rs` |
| `config.dfy` (Config) | `rusty-claw/crates/rustyclaw-core/src/config.rs` |
| `models.dfy` (Models) | `rusty-claw/crates/rustyclaw-core/src/models.rs` |
| `adapters.dfy` (Adapters), `telegram.dfy` (Telegram), `discord.dfy` (Discord) | `crates/rustyclaw-telegram/src/lib.rs`, `crates/rustyclaw-discord/src/main.rs` |
| `types.dfy` (Types) | `rusty-claw/crates/rustyclaw-core/src/types.rs` |
| `text.dfy` (Text), `wrappers.dfy` (Wrappers) | string and `Option`/`Result` helpers standing in for the Rust standard library |

Form follows the source:
- Pure code becomes functions, with lemmas about them.
- Loops become methods proved equal to a specification function.
- State that the source mutates in place becomes a class:
  - the queue directories: `Processor.Queue`;
  - the conversation table: `Processor.ConversationTable`;
  - the cooldown map: `Failover.Cooldowns`;
  - the session store: `Session.SessionStore`;
  - the pairing file: `Pairing.PairingFile`;
  - an adapter's pending map: `Adapters.PendingReplies`.
- HashMaps that the source iterates are sequences of pairs, so the order of iteration is explicit.
- Clocks, random numbers, file contents and agent backends are parameters or oracles.

The Telegram and Discord adapters carry identical copies of `split_message`,
`sanitize_file_name` and the pending-map retention. They are modelled once, in `Adapters`:
- the Discord copies are at `crates/rustyclaw-discord/src/main.rs:78-106`, `39-55` and `386-400`;
- the table below cites the Telegram copies.

## Model

| member | source | states |
|---|---|---|
| Adapters.TrimLeadingNewlinesSuffix | crates/rustyclaw-telegram/src/lib.rs:91 | What `trim_start_matches('\n')` leaves is a suffix that does not start with a newline, and everything it drops is newlines. |
| Adapters.SplitPoint | crates/rustyclaw-telegram/src/lib.rs:83-89 | A text longer than the limit is cut after at least one and at most `max` characters. |
| Adapters.SplitPointChoice | crates/rustyclaw-telegram/src/lib.rs:83-89 | The cut is at the last newline after index 0 among the first `max` characters. Without one it is at the last such space, and without either it is at `max`. |
| Adapters.Chunks | crates/rustyclaw-telegram/src/lib.rs:78-92 | Every chunk the loop produces has between 1 and `max` characters. |
| Adapters.CutIndex | crates/rustyclaw-telegram/src/lib.rs:83-89 | The two `rfind` calls and their fallbacks compute the cut `SplitPoint` describes. |
| Adapters.SplitMessage | crates/rustyclaw-telegram/src/lib.rs:72-94 | The loop returns the text itself when it fits, and otherwise exactly the chunks `Chunks` describes. |
| Adapters.MessageChunksBounds | crates/rustyclaw-telegram/src/lib.rs:72-94 | A text within the limit is one message, even when empty. A longer one gives at least one chunk, and every chunk is non-empty and within the limit. |
| Adapters.ChunksReassemble | crates/rustyclaw-telegram/src/lib.rs:78-92 | Nothing but newlines at the cuts is lost: putting the dropped newlines back after each chunk rebuilds the text. |
| Adapters.MessageChunksReassemble | crates/rustyclaw-telegram/src/lib.rs:72-94 | The output of `split_message` reassembles to its input, whichever branch it takes. |
| Adapters.FileName | crates/rustyclaw-telegram/src/lib.rs:31-35 | `Path::file_name` never holds a '/' and is never "." or "..". |
| Adapters.FileNameNoSlash | crates/rustyclaw-telegram/src/lib.rs:31-35 | A name without '/' is its own file name. The exceptions are "." and "..", which have none. |
| Adapters.SanitizeProperties | crates/rustyclaw-telegram/src/lib.rs:30-42 | A sanitised name is never empty, holds no forbidden or control character (so no '/'), and has no whitespace at either end. |
| Adapters.SanitizeIdempotent | crates/rustyclaw-telegram/src/lib.rs:30-42 | Sanitising a sanitised name changes nothing. The exceptions are "." and "..", which become "file.bin". |
| Adapters.RecentProperties | crates/rustyclaw-telegram/src/lib.rs:509-510 | Pruning keeps exactly the entries at most ten minutes old (or stamped after now), with their values unchanged. Pruning again at the same time removes nothing. |
| Adapters.RecentMonotone | crates/rustyclaw-telegram/src/lib.rs:509-510 | Pruning at an earlier time and then at a later one is pruning at the later one. |
| Adapters.PendingReplies.constructor | crates/rustyclaw-telegram/src/lib.rs:638 | The pending table starts empty. |
| Adapters.PendingReplies.Track | crates/rustyclaw-telegram/src/lib.rs:500-510 | The insert, then the prune at the second clock reading. The new entry survives unless its stamp is before the cutoff, and every entry left is at or after the cutoff. |
| Adapters.PendingReplies.Done | crates/rustyclaw-telegram/src/lib.rs:600 | A delivered reply removes exactly its own entry. |
| Telegram.ReplyChunks | crates/rustyclaw-telegram/src/lib.rs:578 | At Telegram's limit of 4096, a short reply is one message. A longer one is several non-empty messages within the limit, which reassemble to the reply. |
| Telegram.ExtFromMimeProperties | crates/rustyclaw-telegram/src/lib.rs:96-108 | The extension is "" exactly for an unknown media type. A known type's extension is '.' and a name with no further '.' or '/' (image/jpeg gives ".jpg", audio/mpeg gives ".mp3"). |
| Telegram.EnsuredExtension | crates/rustyclaw-telegram/src/lib.rs:44-50 | Take a non-empty name without '/' and a fallback ".ext". The result has an extension, which is the fallback's when the name had none, and ensuring again changes nothing. |
| Telegram.DownloadFileNameProperties | crates/rustyclaw-telegram/src/lib.rs:188-200 | The stored name starts with "telegram_", the message id and "_", and always has an extension. For an unknown media type and an original name without one, that extension is "bin". |
| Discord.ReplyChunks | crates/rustyclaw-discord/src/main.rs:461 | At Discord's limit of 2000, a short reply is one message. A longer one is several non-empty messages within the limit, which reassemble to the reply. |
| Models.LookupIdempotent | rusty-claw/crates/rustyclaw-core/src/models.rs:53-76 | Over a table whose every target maps to itself, resolving twice is resolving once. |
| Models.ClaudeModels | rusty-claw/crates/rustyclaw-core/src/models.rs:5-12 | "sonnet" and "opus" name claude-sonnet-4-5 and claude-opus-4-6. The full ids stay as they are, and every other name passes through. |
| Models.CodexModels | rusty-claw/crates/rustyclaw-core/src/models.rs:15-20 | The Codex table is the identity on its entries, so every name passes through unchanged. |
| Models.OpenCodeModels | rusty-claw/crates/rustyclaw-core/src/models.rs:23-49 | "sonnet" and "opus" name the `opencode/` Claude ids, and every other name passes through unchanged. |
| Models.ClaudeClosed | rusty-claw/crates/rustyclaw-core/src/models.rs:5-12 | Every Claude target is a full id that the table maps to itself. |
| Models.OpenCodeClosed | rusty-claw/crates/rustyclaw-core/src/models.rs:23-49 | Every OpenCode target is one of the fourteen full ids, which the table maps to themselves. |
| Models.ResolveIdempotent | rusty-claw/crates/rustyclaw-core/src/models.rs:53-76 | For all three backends, resolving an already resolved name changes nothing. |
| Config.GetSettings | rusty-claw/crates/rustyclaw-core/src/config.rs:78-112 | The in-place provider detection computes `LoadSettings`. |
| Config.LoadSettingsProperties | rusty-claw/crates/rustyclaw-core/src/config.rs:78-112 | Loading fails exactly when the file exists but cannot be read. A missing file or invalid JSON gives the empty settings. Otherwise only the provider may change: an explicit one is kept, and a missing one becomes the first section present among openai, opencode and anthropic, or stays unset. |
| Config.WithProviderIdempotent | rusty-claw/crates/rustyclaw-core/src/config.rs:99-109 | Detecting the provider of settings that were already detected changes nothing. |
| Config.DefaultAgentProperties | rusty-claw/crates/rustyclaw-core/src/config.rs:116-173 | The default agent is "Default", on the legacy section's provider (else anthropic). Its model is that provider's configured model, else gpt-5.3-codex for openai and sonnet for the others. It works in `default` under the workspace and may hand off across teams. |
| Config.EmptySettingsAgent | rusty-claw/crates/rustyclaw-core/src/config.rs:254-260 | Empty settings give one agent, `default`, on anthropic's sonnet, and no teams. |
| Config.GetAgentsProperties | rusty-claw/crates/rustyclaw-core/src/config.rs:177-186 | There is always an agent. Configured agents are returned as they are, and without any the only agent is `default`, built from the legacy section. |
| Config.QueueDirUnderQueue | rusty-claw/crates/rustyclaw-core/src/config.rs:45-47 | `home.join("queue/x")` is `home.join("queue").join("x")`. |
| Config.PathsLayout | rusty-claw/crates/rustyclaw-core/src/config.rs:31-56 | The data directory is RUSTYCLAW_HOME, else the local `.rustyclaw` when it has settings.json, else `~/.rustyclaw`. The three queue directories are the entries of its `queue` directory, and the settings file is its settings.json. |
| Context.ReadOptionalFile | crates/rustyclaw-core/src/context.rs:15-25 | A missing, unreadable or blank file gives nothing. Otherwise the result is its trimmed text, never empty and with no whitespace at either end. |
| Context.ReadOptionalFileCappedProperties | crates/rustyclaw-core/src/context.rs:28-39 | A capped read gives something exactly when the plain read does. Content within the cap is kept whole. Longer content keeps its first `max` characters, then "... [truncated, N chars total]", where N is the full length. |
| Context.RenderProperties | crates/rustyclaw-core/src/context.rs:57-106 | A section opens with its tag on its own line, ends with the matching end tag and holds its body. |
| Context.WrappedProperties | crates/rustyclaw-core/src/context.rs:109-113 | The wrapping is empty exactly when there are no sections. Otherwise it starts with `<context>` and a newline, ends with `</context>` and a blank line, and contains every section. |
| Context.PreambleProperties | crates/rustyclaw-core/src/context.rs:109-113 | The preamble is empty exactly when there are no sections, and it holds every section rendered. |
| Context.FilterEligible | crates/rustyclaw-core/src/context.rs:99-102 | The filter keeps exactly the eligible skills, in order. |
| Context.BuildSkillsText | crates/rustyclaw-core/src/context.rs:97-107 | The skills text is discovery, then the eligibility filter, then formatting. |
| Context.PushFileSections | crates/rustyclaw-core/src/context.rs:57-82 | The pushes for IDENTITY, USER, TOOLS, MEMORY (capped) and today's notes give each file that has content one rendered section, in that order. |
| Context.BuildContextPreamble | crates/rustyclaw-core/src/context.rs:45-114 | The procedure computes the preamble of the assembled sections. |
| Context.Wrap | crates/rustyclaw-core/src/context.rs:109-113 | The preamble is empty exactly when no section was pushed. Otherwise it opens with `<context>` on its own line, ends with `</context>` and a blank line, and contains every pushed section. |
| Context.AssembleOrdered | crates/rustyclaw-core/src/context.rs:54-107 | The sections come in the fixed order identity, user, tools, memory, daily notes, recent history, skills, with each kind at most once. |
| Context.FileSlotsOrdered | crates/rustyclaw-core/src/context.rs:57-82 | The file sections come in the order identity, user, tools, memory, daily notes, and none ranks after the daily notes. |
| Context.AssembleBodies | crates/rustyclaw-core/src/context.rs:54-107 | Each kind's section holds exactly its expected content, and is missing when there is none. |
| Context.BodySlot | crates/rustyclaw-core/src/context.rs:57-107 | A pushed section has a body only for its own kind, and it is the content pushed. |
| Context.PreambleEmpty | crates/rustyclaw-core/src/context.rs:109-111 | The preamble is empty exactly when no file has content, there is no recent history and there is no skills text. |
| Context.EmptyAgentDir | crates/rustyclaw-core/src/context.rs:122-126 | An empty agent directory with no skill directories gives no preamble. |
| Context.BlankFileIsMissing | crates/rustyclaw-core/src/context.rs:144-153 | A file that holds only whitespace contributes exactly what a missing one does. |
| Context.SkillsTextProperties | crates/rustyclaw-core/src/context.rs:97-107 | The skills section has content exactly when some discovered skill is eligible. |
| AgentSetup.MyTeamIds | crates/rustyclaw-core/src/agent_setup.rs:179-183 | The agent's team ids are exactly the ids of the teams that list it. |
| AgentSetup.CoMembers | crates/rustyclaw-core/src/agent_setup.rs:179-184 | The candidate teammates are exactly the members of the teams that list the agent. |
| AgentSetup.PickTeammatesProperties | crates/rustyclaw-core/src/agent_setup.rs:184-193 | The inner loop lists each known id of the list other than the agent exactly once, with the name and model its config gives. |
| AgentSetup.TeammatesProperties | crates/rustyclaw-core/src/agent_setup.rs:177-194 | The teammates are every known agent sharing a team with the agent, other than itself, each exactly once with its own name and model. An agent in no team has none. |
| AgentSetup.Offers | crates/rustyclaw-core/src/agent_setup.rs:201-205 | The offered (member, team name) pairs are exactly those of the teams not among the agent's. |
| AgentSetup.PickOthersProperties | crates/rustyclaw-core/src/agent_setup.rs:205-218 | The pick lists each offered known agent that is not a teammate exactly once, under the name of a team offering it, with its configured name and model. |
| AgentSetup.PickOthersDistinct | crates/rustyclaw-core/src/agent_setup.rs:207 | No agent of another team is listed twice. |
| AgentSetup.PickOthersSound | crates/rustyclaw-core/src/agent_setup.rs:206-215 | Every agent listed was offered, is not a teammate, and carries its configured name and model. |
| AgentSetup.PickOthersComplete | crates/rustyclaw-core/src/agent_setup.rs:206-215 | Every offered known agent that is not a teammate is listed. |
| AgentSetup.OthersProperties | crates/rustyclaw-core/src/agent_setup.rs:197-220 | Without cross-team handoffs there are no other agents. Otherwise they are every known member of a team not listing the agent, except teammates, each once under that team's name. The agent itself is never among them. |
| AgentSetup.AddTeammates | crates/rustyclaw-core/src/agent_setup.rs:184-193 | The inner loop over one team extends the teammates exactly as `PickTeammates` does over that team's members. |
| AgentSetup.FindTeammates | crates/rustyclaw-core/src/agent_setup.rs:177-194 | The first loop computes exactly the teammates and the agent's team ids. |
| AgentSetup.AddOthers | crates/rustyclaw-core/src/agent_setup.rs:205-218 | The inner loop over another team extends the list exactly as `PickOthers` does over that team's offers. |
| AgentSetup.FindOthers | crates/rustyclaw-core/src/agent_setup.rs:197-220 | The second loop computes exactly the agents of other teams. |
| AgentSetup.AppendTeammateLines | crates/rustyclaw-core/src/agent_setup.rs:231-233 | The loop appends one line per teammate, in order. |
| AgentSetup.AppendOtherLines | crates/rustyclaw-core/src/agent_setup.rs:237-239 | The loop appends one line per agent of another team, in order, naming its team. |
| AgentSetup.BuildBlock | crates/rustyclaw-core/src/agent_setup.rs:222-240 | The block is built section by section: "You" for a known agent, then the teammates when there are any, then the other agents when there are any. |
| AgentSetup.TeammateLinesContain | crates/rustyclaw-core/src/agent_setup.rs:231-233 | Every teammate's line is in the teammates' lines. |
| AgentSetup.OtherLinesContain | crates/rustyclaw-core/src/agent_setup.rs:237-239 | Every other agent's line is in the other agents' lines. |
| AgentSetup.BlockEmpty | crates/rustyclaw-core/src/agent_setup.rs:222-240 | The block is empty exactly when the agent is unknown and there is nobody to list. |
| AgentSetup.BlockHoldsYou | crates/rustyclaw-core/src/agent_setup.rs:223-228 | A known agent's "You" heading and own line are in the block. |
| AgentSetup.BlockHoldsTeammates | crates/rustyclaw-core/src/agent_setup.rs:229-234 | With teammates, the block holds their heading and every teammate's line. |
| AgentSetup.BlockHoldsOthers | crates/rustyclaw-core/src/agent_setup.rs:235-240 | With agents of other teams, the block holds their heading and every one's line. |
| AgentSetup.SpliceAtFound | crates/rustyclaw-core/src/agent_setup.rs:242-248 | With both markers found, the new content is the text up to the end of the first start marker, the block, the end marker, then the text after the first end marker. |
| AgentSetup.TeammateMarkers | crates/rustyclaw-core/src/agent_setup.rs:164-165 | The two markers start with `<`, have no other `<` and no line break, and differ within the end marker's length. |
| AgentSetup.SpliceAtKeeps | crates/rustyclaw-core/src/agent_setup.rs:242-248 | A splice keeps everything up to the end of the first start marker and everything from the first end marker on. |
| AgentSetup.SpliceAtRoundTrip | crates/rustyclaw-core/src/agent_setup.rs:242-248 | With the markers in order and a block holding no `<`, the spliced block is read back between the markers, and splicing it in again changes nothing. |
| AgentSetup.AppendedRoundTrip | crates/rustyclaw-core/src/agent_setup.rs:274-282 | Markers around a block without `<`, appended after a blank line to a text holding neither marker, read back the block, and splicing it in again changes nothing. |
| AgentSetup.AppendedFinds | crates/rustyclaw-core/src/agent_setup.rs:274-282 | In text appended after a blank line, the first start marker is right after the blank line and the first end marker right after the block. |
| AgentSetup.SpliceKeeps | crates/rustyclaw-core/src/agent_setup.rs:242-248 | The AGENTS.md splice keeps everything up to the end of the first start marker and everything from the first end marker on. |
| AgentSetup.SpliceRoundTrip | crates/rustyclaw-core/src/agent_setup.rs:242-248 | With the teammate markers in order and a block holding no `<`, the block is read back between them, and splicing it in again changes nothing. |
| AgentSetup.ClaudeAppendKeeps | crates/rustyclaw-core/src/agent_setup.rs:273-283 | A CLAUDE.md that lacks a marker becomes its old text trimmed at the end, and it ends with the end marker and a line break. |
| AgentSetup.ClaudeAppendRoundTrip | crates/rustyclaw-core/src/agent_setup.rs:273-283 | A CLAUDE.md that has neither marker, once updated, reads back the block, and a second update changes nothing. |
| AgentSetup.UpdateClaude | crates/rustyclaw-core/src/agent_setup.rs:256-283 | The CLAUDE.md step splices at both markers when it finds them, and otherwise appends the markers around the block. |
| AgentSetup.ComposeBlock | crates/rustyclaw-core/src/agent_setup.rs:177-240 | The two loops and the block building compute the block the specification functions describe. |
| AgentSetup.UpdateAgentTeammates | crates/rustyclaw-core/src/agent_setup.rs:152-287 | The whole update writes exactly what `Update` describes, and nothing when AGENTS.md is missing or lacks a marker. |
| AgentSetup.WriteBlock | crates/rustyclaw-core/src/agent_setup.rs:242-284 | With both AGENTS.md markers found, the writes are the spliced AGENTS.md and the updated CLAUDE.md. |
| AgentSetup.UpdateMissing | crates/rustyclaw-core/src/agent_setup.rs:159-174 | A missing marker in AGENTS.md means nothing is written. |
| AgentSetup.UpdateFound | crates/rustyclaw-core/src/agent_setup.rs:242-284 | With both markers found at `s` and `e`, AGENTS.md becomes the text up to the end of the start marker, the block, the end marker, then the text after the end marker. CLAUDE.md is updated too. |
| AgentSetup.UpdateAgentsMd | crates/rustyclaw-core/src/agent_setup.rs:158-249 | Nothing is written exactly when AGENTS.md is missing or lacks a marker. A written AGENTS.md keeps everything up to its first start marker and from its first end marker on. |
| AgentSetup.UpdateClaudeMd | crates/rustyclaw-core/src/agent_setup.rs:252-284 | A CLAUDE.md with both markers is spliced the same way. Otherwise it becomes the old text, or "" when missing, trimmed at the end and followed by the markers around the block and a line break. |
| AgentSetup.ClaudeTwice | crates/rustyclaw-core/src/agent_setup.rs:252-284 | A CLAUDE.md with its markers in order, or with neither, reads back the block after the update, and splicing it in again changes nothing. |
| AgentSetup.UpdateTwice | crates/rustyclaw-core/src/agent_setup.rs:152-287 | Running the update twice with the same block (AGENTS.md markers in order, block without `<`) writes the same two files the second time. Both files read back the block. |
| Routing.FindTeamForAgent | crates/rustyclaw-core/src/routing.rs:9-22 | The result is the first team, in iteration order, whose members include the agent. There is none exactly when no team lists it. |
| Routing.CollectMentions | crates/rustyclaw-core/src/routing.rs:50-89 | The loop over tags and their ids, with its `seen` set, computes the admitted mentions `BracketMentions` describes. |
| Routing.AdmitSound | crates/rustyclaw-core/src/routing.rs:76-86 | Every mention kept is a candidate, was not seen before and passes the extractor's test. No id is kept twice. |
| Routing.AdmitNothing | crates/rustyclaw-core/src/routing.rs:76-86 | A test that nobody passes keeps nothing. |
| Routing.AdmitComplete | crates/rustyclaw-core/src/routing.rs:76-86 | Every candidate that passes the test and was not seen before is reported. |
| Routing.CandidatesFromTags | crates/rustyclaw-core/src/routing.rs:55-74 | Every candidate is a lower-case id listed in some tag and carries that tag's message. |
| Routing.MentionsOfSound | crates/rustyclaw-core/src/routing.rs:58-76 | Each mention one tag yields is a lower-case id that the tag lists, carrying the tag's message. |
| Routing.TagIdsAreCandidates | crates/rustyclaw-core/src/routing.rs:55-76 | Every id a tag lists becomes a candidate carrying that tag's message. |
| Routing.BracketMentionsDistinct | crates/rustyclaw-core/src/routing.rs:77-84 | No id is reported twice. |
| Routing.BracketMentionsSound | crates/rustyclaw-core/src/routing.rs:55-86 | Every reported mention is new, passes the test, is lower-case and carries the message of a tag that lists it. |
| Routing.BracketMentionsComplete | crates/rustyclaw-core/src/routing.rs:55-86 | Every new id listed in some tag that passes the test is reported. |
| Routing.ExtractTeammateMentions | crates/rustyclaw-core/src/routing.rs:25-90 | `[@id: msg]` and `[@a,b: msg]` tags give one mention per teammate of the sender in the given team, other than the sender. Such a teammate is a known agent. No id appears twice, each mention carries its tag's message, and every such teammate listed by a tag is reported. |
| Routing.ExtractCrossTeamMentions | crates/rustyclaw-core/src/routing.rs:96-153 | `[@!id: msg]` tags give one mention per known agent that is neither the sender nor already mentioned. There are none when the sender's config forbids cross-team handoffs, and every admissible listed id is reported. |
| Routing.ExtractAllAgentMentions | crates/rustyclaw-core/src/routing.rs:158-208 | `[@id: msg]` and `[@!id: msg]` tags give one mention per known agent that is neither the sender nor already mentioned. No id appears twice, and every admissible listed id is reported. |
| Routing.TrimIdPunctuation | crates/rustyclaw-core/src/routing.rs:244-246 | `trim_end_matches` of ',', ';' and '.' leaves the longest prefix that does not end in one of them. |
| Routing.SegmentEnd | crates/rustyclaw-core/src/routing.rs:256-261 | A handoff's text runs from the end of its match to the start of the next match, or to the end of the response. |
| Routing.Segments | crates/rustyclaw-core/src/routing.rs:241-267 | Every (id, text) pair kept names a known agent other than the sender and has a non-blank text. |
| Routing.TextsForUnseen | crates/rustyclaw-core/src/routing.rs:265 | An id that no kept pair names has no texts. |
| Routing.GroupHandoffs | crates/rustyclaw-core/src/routing.rs:239-267 | The first loop groups the kept texts by agent, as `Grouped` describes. The source emits the groups in the unspecified iteration order of its `agent_texts` HashMap (routing.rs:270); first-appearance order is this model's choice. |
| Routing.ExtractNaturalHandoffs | crates/rustyclaw-core/src/routing.rs:216-283 | The whole extraction computes `NaturalHandoffs`. |
| Routing.FirstSeenIds | crates/rustyclaw-core/src/routing.rs:239-265 | The grouping's keys are exactly the ids the pairs name, each once. |
| Routing.TextsForOwn | crates/rustyclaw-core/src/routing.rs:265 | An id's texts are texts of its own pairs, and a listed id has at least one. |
| Routing.EmitProperties | crates/rustyclaw-core/src/routing.rs:270-280 | The output loop reports one mention per grouped id not already mentioned, carrying its texts joined by a blank line. Every such id is reported, none twice. |
| Routing.NaturalHandoffsProperties | crates/rustyclaw-core/src/routing.rs:216-283 | Each line-start handoff reported names a known agent other than the sender and not already mentioned, and no agent twice. It carries all the non-blank texts addressed to that agent, joined by a blank line. Every agent with such a text that was not already mentioned is reported. |
| Routing.AtPrefixLen | crates/rustyclaw-core/src/routing.rs:303-311 | The prefix scan stops exactly at the first whitespace token that does not start with '@'. |
| Routing.AtPrefix | crates/rustyclaw-core/src/routing.rs:303-311 | Every prefix token starts with '@'. |
| Routing.DetectMultipleAgents | crates/rustyclaw-core/src/routing.rs:295-324 | The token loop and the team check compute `MultipleAgents`. |
| Routing.HeldByOneTeam | crates/rustyclaw-core/src/routing.rs:315-321 | The team loop answers whether some team lists every id. |
| Routing.KnownIdsProperties | crates/rustyclaw-core/src/routing.rs:303-312 | The collected ids are distinct known agents, each named by a prefix token, and every known agent a prefix token names is among them. |
| Routing.MultipleAgentsProperties | crates/rustyclaw-core/src/routing.rs:295-324 | The detected ids are distinct, lower-case known agents named by prefix tokens. Several of them are never all in one team, and when any are reported, every known agent a prefix token names is among them. |
| Routing.AgentByName | crates/rustyclaw-core/src/routing.rs:384-393 | The match is the first agent, in iteration order, whose lower-cased name equals the candidate, and there is none when no name does. |
| Routing.TeamLeaderByName | crates/rustyclaw-core/src/routing.rs:396-405 | The match is the leader of the first team whose lower-cased name equals the candidate, and there is none when no name does. |
| Routing.DispatchMessageStripsPrefix | crates/rustyclaw-core/src/routing.rs:338-348 | A multi-agent dispatch delivers either the raw message or text that does not start with '@'. |
| Routing.ParseAgentRoutingTargets | crates/rustyclaw-core/src/routing.rs:329-425 | A multi-agent dispatch lists at least two agents and goes to the first. Otherwise the route is a known agent, a team's leader flagged as a team route, or "default". |
| Routing.ResolvePrefixTargets | crates/rustyclaw-core/src/routing.rs:359-406 | A resolved `@x` prefix delivers the rest of the message, lists no agents, and names a known agent or, for a team route, a team's leader. |
| Routing.SmartTarget | crates/rustyclaw-core/src/routing.rs:409-416 | Keyword routing only chooses known agents. |
| Routing.ParseAgentRoutingOrder | crates/rustyclaw-core/src/routing.rs:334-425 | Without a multi-agent dispatch, an `@x` prefix that resolves decides the route and delivers the rest. One that does not leaves the whole message to keyword routing, and then to "default". |
| Routing.PrefixRouting | crates/rustyclaw-core/src/routing.rs:357-425 | Without a multi-agent dispatch, routing is prefix resolution, falling back to keyword routing and "default". |
| Routing.ResolvePrefixOrder | crates/rustyclaw-core/src/routing.rs:360-405 | The lower-cased prefix is tried as an agent id, then as a team id (its leader, as a team route), then as an agent name, then as a team name. |
| Tags.ColonAfter | crates/rustyclaw-core/src/routing.rs:53 | The lazy `(\S+?):` capture ends at the first ':' after at least one character, with no whitespace before it. |
| Tags.TagFrom | crates/rustyclaw-core/src/routing.rs:53 | A matched tag ends with ']' inside the text. |
| Tags.TagAt | crates/rustyclaw-core/src/routing.rs:53 | A tag matched at a position starts there and ends inside the text. |
| Tags.TagsFrom | crates/rustyclaw-core/src/routing.rs:55 | `captures_iter` gives non-overlapping tags inside the text, leftmost first. |
| Tags.StripFrom | crates/rustyclaw-core/src/routing.rs:57 | `replace_all(…, "")` never lengthens the text. |
| Tags.StripWithoutTags | crates/rustyclaw-core/src/routing.rs:57 | Without tags, stripping leaves the text unchanged. |
| Tags.CandidateIds | crates/rustyclaw-core/src/routing.rs:69-74 | Every id of a tag is non-empty and holds no ','. |
| Tags.NonEmptyTrimmedFrom | crates/rustyclaw-core/src/routing.rs:71-73 | Each kept id is the trim of one of the pieces. |
| Tags.CandidateIdsAreLower | crates/rustyclaw-core/src/routing.rs:69-74 | Every id is in lower case. |
| Tags.Emphasis | crates/rustyclaw-core/src/routing.rs:227 | The greedy `[*_]{0,2}` takes at most two emphasis characters. |
| Tags.SkipWhitespace | crates/rustyclaw-core/src/routing.rs:227 | The greedy `\s*` stops at the first non-whitespace character. |
| Tags.SkipSeparators | crates/rustyclaw-core/src/routing.rs:227 | The greedy separator run takes only ':', '—', '–' and '-'. |
| Tags.IdRun | crates/rustyclaw-core/src/routing.rs:227 | The greedy `[\w-]+` run stops at the first character outside it. |
| Tags.LongestIdThatFits | crates/rustyclaw-core/src/routing.rs:227 | Backtracking picks the longest id for which the rest of the handoff pattern matches, and there is none when no length fits. |
| Tags.HandoffAt | crates/rustyclaw-core/src/routing.rs:227 | A handoff matches only at the start of the text or right after a line break. |
| Tags.HandoffsFrom | crates/rustyclaw-core/src/routing.rs:231-232 | `find_iter` gives non-overlapping handoffs, in order. |
| Tags.RoutingPrefix | crates/rustyclaw-core/src/routing.rs:358-361 | `^@(\S+)\s+([\s\S]*)$` captures the whole first non-whitespace run after '@', which whitespace must follow. The message is what follows that whitespace. |
| SmartRouting.WordMatchFrom | rusty-claw/crates/rustyclaw-core/src/smart_routing.rs:30-33 | `\b<p>\b` matches exactly when the pattern occurs with a word boundary on both sides. |
| SmartRouting.CountMatches | rusty-claw/crates/rustyclaw-core/src/smart_routing.rs:26-37 | An agent's match count never exceeds its number of patterns. |
| SmartRouting.MatchAgentByContent | rusty-claw/crates/rustyclaw-core/src/smart_routing.rs:13-63 | The loop over agents and patterns computes `Select`. |
| SmartRouting.SelectFromOutcome | rusty-claw/crates/rustyclaw-core/src/smart_routing.rs:44-59 | The agent chosen is either the best so far, never beaten, or a later agent that beats everyone after it. |
| SmartRouting.WinnerStrictlyBeatsOthers | rusty-claw/crates/rustyclaw-core/src/smart_routing.rs:13-63 | A chosen agent has a matching pattern, and its (priority, count) strictly beats that of every other matching agent. |
| SmartRouting.NoMatchNoWinner | rusty-claw/crates/rustyclaw-core/src/smart_routing.rs:39-41 | Agents whose patterns never match are skipped, so when none match nobody is chosen. |
| SmartRouting.WholeWordsOnly | rusty-claw/crates/rustyclaw-core/src/smart_routing.rs:29-33 | "code" does not match inside "encode", but matches in "to code it". |
| SmartRouting.DeployNowMatches | rusty-claw/crates/rustyclaw-core/src/smart_routing.rs:29-33 | In "deploy now", "deploy" and "now" match and "build" does not. |
| SmartRouting.DeployCounts | rusty-claw/crates/rustyclaw-core/src/smart_routing.rs:26-37 | The count is the number of patterns that match. |
| SmartRouting.EarlyTieHidesLaterWinner | rusty-claw/crates/rustyclaw-core/src/smart_routing.rs:54-57 | A tie returns at once. Two agents tied at priority 0 give no winner, although a third at priority 5 would have won had it come first. |
| SmartRouting.HigherPriorityOrMoreMatchesWin | rusty-claw/crates/rustyclaw-core/src/smart_routing.rs:50-53 | A higher priority wins in either order, and at equal priority more matches win. |
| Conversations.ConversationIdFormat | crates/rustyclaw-queue/src/conversation.rs:335-366 | The id is the message id, '_', then the creation time in decimal digits, which parse back to the time. |
| Conversations.HandleLongResponseProperties | crates/rustyclaw-queue/src/conversation.rs:17-54 | A reply of at most 4000 characters and its files pass through unchanged. A longer one keeps its first 4000 characters followed by the attachment note, and gains exactly one `.md` file after the existing ones. |
| Conversations.SendFileAt | crates/rustyclaw-queue/src/conversation.rs:58 | A `[send_file: path]` reference starts where it matches and captures a path without ']'. |
| Conversations.SendFilesFrom | crates/rustyclaw-queue/src/conversation.rs:59 | `captures_iter` gives the references inside the text, leftmost first. |
| Conversations.SendFilePathsClean | crates/rustyclaw-queue/src/conversation.rs:58-60 | Every captured path is trimmed and holds no ']'. |
| Conversations.StripSendFilesLength | crates/rustyclaw-queue/src/conversation.rs:187-188 | Stripping deletes exactly the matched references, and a text without references is unchanged. |
| Conversations.CollectFiles | crates/rustyclaw-queue/src/conversation.rs:57-65 | `collect_files` adds to the set exactly the referenced paths that exist. |
| Conversations.AddExisting | crates/rustyclaw-queue/src/conversation.rs:59-64 | The loop over the references adds exactly the existing paths. |
| Conversations.CollectedFilesProperties | crates/rustyclaw-queue/src/conversation.rs:57-65 | Nothing is dropped from the set, and everything added is an existing, referenced, trimmed path. |
| Conversations.Blocks | crates/rustyclaw-queue/src/conversation.rs:167-169 | Each reply becomes "@agent: reply", in order. |
| Conversations.AggregateProperties | crates/rustyclaw-queue/src/conversation.rs:164-172 | A single reply is the aggregate itself. With several, the first labelled reply leads, and every labelled reply occurs in the aggregate. |
| Conversations.SetToSeq | crates/rustyclaw-queue/src/conversation.rs:183 | Turning the file set into a list keeps exactly its elements, each once. |
| Conversations.CompleteConversationProperties | crates/rustyclaw-queue/src/conversation.rs:137-228 | The reply goes back to the conversation's channel, sender and message, with no agent. `[send_file]` tags are removed only when some file goes out, and bracket tags always. The file list holds every outbound file (plus the long-reply attachment), and is absent exactly when there is nothing to attach. |
| Conversations.OutgoingFileName | crates/rustyclaw-queue/src/conversation.rs:219-228 | The outgoing file is a `.json` file. |
| Conversations.OutgoingFileNameProperties | crates/rustyclaw-queue/src/conversation.rs:219-228 | The heartbeat channel's file is named after the message id. Any other channel's is "channel_messageId_time", whose time digits parse back. |
| CooldownCmd.ResetCooldowns | crates/rustyclaw-cli/src/cooldown_cmd.rs:58-109 | `cooldown reset` leaves the store and reports the outcome exactly as `Reset` describes. |
| CooldownCmd.ResetProperties | crates/rustyclaw-cli/src/cooldown_cmd.rs:58-109 | An empty map stays empty. Without an argument every entry goes. An exact key removes only that entry. Otherwise exactly the keys containing the argument go, with the other values unchanged, and when none contains it nothing changes. The map is unchanged exactly when the outcome is "nothing to reset" or "no match". |
| CooldownCmd.StatusProperties | crates/rustyclaw-cli/src/cooldown_cmd.rs:8-55 | An entry is shown as active exactly when its key is still cooling down, with its error count. The remaining time is rounded down to whole seconds and shown as minutes and seconds under sixty. The reset hint shows exactly when some key is active. |
| Compaction.DefaultThreshold | crates/rustyclaw-core/src/compaction.rs:1-13 | The default window and reserve give 640000 characters. Exactly that many does not compact, and one more does. |
| Compaction.ReserveSwallowsWindow | crates/rustyclaw-core/src/compaction.rs:11-19 | A reserve at least as large as the window compacts exactly the non-empty sessions. |
| Compaction.ShouldCompactMonotone | crates/rustyclaw-core/src/compaction.rs:11-13 | More characters never turn compaction off. |
| Compaction.ThresholdMonotone | crates/rustyclaw-core/src/compaction.rs:16-19 | A larger window or a smaller reserve never lowers the threshold. |
| Calendar.YearAndDay | crates/rustyclaw-cli/src/pairing_cmd.rs:135 | Counting days from a year lands in a year at least as late, on a day inside that year. |
| Calendar.MonthAndDay | crates/rustyclaw-cli/src/pairing_cmd.rs:135 | A day of the year falls in a month from 1 to 12, on a day that month has. |
| Calendar.FromTimestamp | crates/rustyclaw-cli/src/pairing_cmd.rs:135 | `DateTime::from_timestamp` gives a valid date from 1970 on and a valid time of day. |
| Calendar.TimeOfDay | crates/rustyclaw-cli/src/pairing_cmd.rs:135 | The hour, minute and second give back the seconds since midnight. |
| Calendar.RenderFields | crates/rustyclaw-cli/src/pairing_cmd.rs:136 | In `%Y-%m-%d %H:%M:%S` with a four-digit year, every field reads back from its fixed position. |
| Calendar.FourDigitYear | crates/rustyclaw-cli/src/pairing_cmd.rs:136 | A year from 1000 to 9999 fills exactly four digits, which read back as the year. |
| Calendar.EpochDate | crates/rustyclaw-cli/src/pairing_cmd.rs:135 | Second 0 is 1970-01-01 00:00:00. |
| Calendar.EpochRender | crates/rustyclaw-cli/src/pairing_cmd.rs:136 | The epoch renders as "1970-01-01 00:00:00". |
| Pairing.FirstIndex | crates/rustyclaw-core/src/pairing.rs:215-218 | `Iterator::position` gives the first index whose element matches, and none when no element does. |
| Pairing.LastIndex | crates/rustyclaw-core/src/pairing.rs:148-155 | Collecting (key, index) pairs into a map keeps the last index for a key, and none when no element has it. |
| Pairing.RandomCodeShape | crates/rustyclaw-core/src/pairing.rs:58-74 | A random code is eight characters of the alphabet: capitals and digits other than 0, O, 1 and I. It is already upper case. |
| Pairing.LookAlikeL | crates/rustyclaw-core/src/pairing.rs:58-59 | The alphabet keeps 'L': eight picks of index 10 give "LLLLLLLL". |
| Pairing.Hex | crates/rustyclaw-core/src/pairing.rs:102 | `{:X}` gives at least one digit, all upper-case hexadecimal. |
| Pairing.FallbackCodeShape | crates/rustyclaw-core/src/pairing.rs:97-104 | The clock fallback is eight hexadecimal characters. When the time has at most eight hex digits, they end the code, left-padded with 'A'. |
| Pairing.FirstUnusedProperties | crates/rustyclaw-core/src/pairing.rs:90-95 | The attempt loop returns the first drawn code not already taken. It finds none exactly when every draw is taken. |
| Pairing.UniqueCodeProperties | crates/rustyclaw-core/src/pairing.rs:76-105 | The new code has eight characters. If some draw is free, the code is a drawn random code, upper case and not among the pending or recorded approved codes compared in upper case. If all twenty draws are taken, it is the unchecked clock fallback. |
| Pairing.CreateUniqueCode | crates/rustyclaw-core/src/pairing.rs:76-105 | The loop computes `UniqueCode`. |
| Pairing.PairingFile.constructor | crates/rustyclaw-core/src/pairing.rs:115-123 | A missing or unreadable pairing file loads as empty lists. |
| Pairing.PairingFile.EnsureSenderPaired | crates/rustyclaw-core/src/pairing.rs:138-201 | The lists and the answer after a pairing check are those `Ensured` describes, with the code `create_unique_code` would pick. |
| Pairing.PairingFile.ApprovePairingCode | crates/rustyclaw-core/src/pairing.rs:204-256 | The lists and the answer after an approval are those `Approved` describes. |
| Pairing.EnsuredProperties | crates/rustyclaw-core/src/pairing.rs:138-201 | A sender approved under its `channel::sender_id` key passes with no code, and only its display name can change. A pending sender gets its code back, flagged as not new, with its last-seen time and name refreshed. A new sender gains exactly one pending entry, created and last seen now, and its new code, flagged as new. |
| Pairing.ApprovedProperties | crates/rustyclaw-core/src/pairing.rs:204-256 | A blank code is refused as required. A code no pending entry holds, compared in upper case, is refused as not found. Neither changes anything. A matching code removes exactly that pending entry and records the sender as approved now under the normalised code, replacing an existing approved entry for the sender instead of adding one. |
| Pairing.ApprovedRefused | crates/rustyclaw-core/src/pairing.rs:205-226 | A code that trims to nothing is refused as required, and a code no pending entry holds in upper case is refused as not found with the normalised code in the reason. Both leave the lists as they were, and every refusal carries a reason and no entry. |
| Pairing.ApprovedPromotes | crates/rustyclaw-core/src/pairing.rs:214-255 | A successful approval removes the pending entry whose code matches, and approves its channel, sender id and sender now under the normalised code. The entry replaces that sender's approved entry if there is one, otherwise it is appended, and every other approved entry stays. |
| Pairing.WithApprovedProperties | crates/rustyclaw-core/src/pairing.rs:238-248 | Replacing the sender's first approved entry, or appending when there is none, puts the entry in the list and keeps every other sender's entry. The list grows by exactly that entry only when the sender had none. |
| Pairing.WithApprovedOnePerSender | crates/rustyclaw-core/src/pairing.rs:238-248 | If no sender appears twice in the approved list, none does after the replace-or-append. |
| Pairing.ApproveThenEnsure | crates/rustyclaw-core/src/pairing.rs:138-256 | Once its code is approved, the sender passes its next check under any display name. |
| Pairing.EnsureTwice | crates/rustyclaw-core/src/pairing.rs:167-200 | A new sender that writes again before approval gets the same code back, flagged as not new. |
| Pairing.ApproveKeepsOnePerSender | crates/rustyclaw-core/src/pairing.rs:238-248 | Approval never lists a sender twice in the approved list. |
| PairingCmd.Unpair | crates/rustyclaw-cli/src/pairing_cmd.rs:106-129 | The two in-place `retain` passes leave the approved list that `Unpaired` describes, and the pending list is untouched. |
| PairingCmd.UnpairedProperties | crates/rustyclaw-cli/src/pairing_cmd.rs:106-129 | When some approved sender has the given id, exactly the entries with that id go. Only otherwise do the entries whose `channel::sender_id` key equals it go. The file is saved exactly when something went, and otherwise the list is unchanged. |
| PairingCmd.FormatTimestampProperties | crates/rustyclaw-cli/src/pairing_cmd.rs:133-138 | A time chrono can represent prints as its UTC date and time, each field reading back from its position. A time past that range prints as "unknown". |
| PairingCmd.EpochFormat | crates/rustyclaw-cli/src/pairing_cmd.rs:133-138 | 999 milliseconds prints as "1970-01-01 00:00:00". |
| Processor.InsertByTime | rusty-claw/crates/rustyclaw-queue/src/processor.rs:100 | Inserting a file keeps every element and adds exactly that file. |
| Processor.SortByTime | rusty-claw/crates/rustyclaw-queue/src/processor.rs:100 | The sort is a permutation of the listing. |
| Processor.JsonFilesProperties | rusty-claw/crates/rustyclaw-queue/src/processor.rs:72-99 | The listing holds exactly the entries with a ".json" extension whose modification time can be read. |
| Processor.InsertSorted | rusty-claw/crates/rustyclaw-queue/src/processor.rs:100 | Inserting into a time-sorted list keeps it sorted. |
| Processor.SortSorted | rusty-claw/crates/rustyclaw-queue/src/processor.rs:100 | `sort_by_key(|f| f.time)` gives a list sorted by time. |
| Processor.InsertAtTime | rusty-claw/crates/rustyclaw-queue/src/processor.rs:100 | Insertion puts a file before every file of the same time that was already in place. |
| Processor.AtTimeSkip | rusty-claw/crates/rustyclaw-queue/src/processor.rs:100 | A file the insertion passes over has a different time from the inserted file, so it keeps its place among the files with its own time. |
| Processor.SortStable | rusty-claw/crates/rustyclaw-queue/src/processor.rs:100 | The sort is stable: files with the same time keep their directory order. |
| Processor.ListQueueFilesProperties | rusty-claw/crates/rustyclaw-queue/src/processor.rs:72-102 | The listing holds exactly the readable ".json" entries, oldest first, and files with the same time stay in directory order. |
| Processor.Queue.constructor | rusty-claw/crates/rustyclaw-queue/src/processor.rs:1080-1125 | The processor starts with the queue directories as they are and nothing queued. |
| Processor.Queue.RecoverOrphans | rusty-claw/crates/rustyclaw-queue/src/processor.rs:32-69 | At startup every ".json" file left in processing moves back to incoming. |
| Processor.Queue.Claim | rusty-claw/crates/rustyclaw-queue/src/processor.rs:143-144 | Claiming renames the file from incoming to processing, and fails, changing nothing, when it is no longer in incoming. |
| Processor.Queue.Complete | rusty-claw/crates/rustyclaw-queue/src/processor.rs:991-993 | A message handled to the end has its processing file removed. |
| Processor.Queue.Fail | rusty-claw/crates/rustyclaw-queue/src/processor.rs:1010-1027 | After an error, the processing file, if still there, goes back to incoming for a retry. |
| Processor.Queue.Dispatch | rusty-claw/crates/rustyclaw-queue/src/processor.rs:1184-1247 | A poll tick queues each listed name not already queued and sends it to its agent's worker, in listing order. |
| Processor.Queue.Release | rusty-claw/crates/rustyclaw-queue/src/processor.rs:1225-1226 | A finished worker, or a failed send, makes the name eligible again. |
| Processor.NewlyQueuedProperties | rusty-claw/crates/rustyclaw-queue/src/processor.rs:1184-1192 | A tick sends no name twice and none already queued, and sends every listed name that was not queued. |
| Processor.QueuedNamesNotResent | rusty-claw/crates/rustyclaw-queue/src/processor.rs:1186-1189 | While its worker has not finished, a name is not sent again, however often it is listed. |
| Processor.PeekAgentIdProperties | rusty-claw/crates/rustyclaw-queue/src/processor.rs:105-127 | A peek picks the agent that processing would route the message to: a known agent, a team's leader or "default". Anything unreadable goes to "default". |
| Processor.ResolveAgentProperties | rusty-claw/crates/rustyclaw-queue/src/processor.rs:267-280 | A known agent is kept with its routed message. Otherwise "default" takes the raw message, and failing that the first configured agent does. With no agents at all processing fails. |
| Processor.LedTeam | rusty-claw/crates/rustyclaw-queue/src/processor.rs:314-323 | A team route's context is the first team that the agent leads and belongs to, and there is none when no team qualifies. |
| Processor.PendingNoteProperties | rusty-claw/crates/rustyclaw-queue/src/processor.rs:338-352 | The note is added only while other branches of the conversation are pending. It comes after the message, and the count in it reads back as the number of other pending branches. |
| Processor.Addressed | rusty-claw/crates/rustyclaw-queue/src/processor.rs:617-636 | Each mention becomes one internal message to its teammate, in order. |
| Processor.CollectTeamForwards | rusty-claw/crates/rustyclaw-queue/src/processor.rs:813-860 | The team path's mentions (teammate tags, then cross-team tags, then natural handoffs) become the forwards `TeamForwards` describes. |
| Processor.CollectAdHocForwards | rusty-claw/crates/rustyclaw-queue/src/processor.rs:539-560 | The path without a team context collects bracket tags to any agent, then natural handoffs, as `AdHocForwards` describes. |
| Processor.AddressedGood | rusty-claw/crates/rustyclaw-queue/src/processor.rs:617-636 | Mentions to distinct known agents, none the sender and none already mentioned, give forwards with the same property. |
| Processor.BracketGood | rusty-claw/crates/rustyclaw-queue/src/processor.rs:542-551 | The bracket extractors' mentions have distinct, known targets other than the sender. |
| Processor.NaturalGood | rusty-claw/crates/rustyclaw-queue/src/processor.rs:551 | So do the natural handoffs. |
| Processor.TeamForwardsTargets | rusty-claw/crates/rustyclaw-queue/src/processor.rs:813-860 | A team member's reply hands off to each agent at most once, never to itself, and only to known agents. |
| Processor.AdHocForwardsTargets | rusty-claw/crates/rustyclaw-queue/src/processor.rs:539-560 | So does a reply outside a team. |
| Processor.Opened | rusty-claw/crates/rustyclaw-queue/src/processor.rs:761-801 | The active conversation is one the table holds afterwards: the one an internal message names, if still open, or a new one. |
| Processor.ConversationTable.constructor | rusty-claw/crates/rustyclaw-queue/src/processor.rs:1113-1118 | The conversation table starts empty. |
| Processor.ConversationTable.MultiDispatch | rusty-claw/crates/rustyclaw-queue/src/processor.rs:217-265 | A multi-agent dispatch opens a conversation waiting on every listed agent, and sends one internal message from "dispatch" to each of them. |
| Processor.ConversationTable.Open | rusty-claw/crates/rustyclaw-queue/src/processor.rs:561-583 | The table after opening the active conversation is the one `Opened` describes. |
| Processor.ConversationTable.Record | rusty-claw/crates/rustyclaw-queue/src/processor.rs:803-990 | The table, the completed conversation and the internal messages after recording one branch are as `Recorded` describes. |
| Processor.ConversationTable.ForwardAll | rusty-claw/crates/rustyclaw-queue/src/processor.rs:859-947 | The handoff loops enqueue one internal message per forward, in order, each naming the conversation, the sender and the target. |
| Processor.ConversationTable.Reply | rusty-claw/crates/rustyclaw-queue/src/processor.rs:539-990 | One agent's reply goes through the table as `ReplyOutcome` describes. |
| Processor.ConversationTable.Sweep | rusty-claw/crates/rustyclaw-queue/src/processor.rs:1133-1171 | Every conversation older than thirty minutes is removed and handed back once with nothing pending. The rest of the table stays as it was. |
| Processor.SweepStep | rusty-claw/crates/rustyclaw-queue/src/processor.rs:1143-1170 | Removing one timed-out conversation keeps the sweep's invariant. |
| Processor.SweepExpiredStep | rusty-claw/crates/rustyclaw-queue/src/processor.rs:1143-1170 | Handing back a conversation not handed back before keeps the handed-back list free of repeated ids, each a swept conversation with nothing pending. |
| Processor.RecordedProperties | rusty-claw/crates/rustyclaw-queue/src/processor.rs:803-990 | A branch step counts one branch off and each handoff it enqueues on, never going below zero. The conversation is removed and handed back exactly when nothing is left pending, and otherwise stays with the reply recorded. The internal messages carry the conversation id, the target, the sender and the text. |
| Processor.CappedStep | rusty-claw/crates/rustyclaw-queue/src/processor.rs:854-965 | At the message cap a reply enqueues nothing and only counts its branch off. |
| Processor.ReplySteps | rusty-claw/crates/rustyclaw-queue/src/processor.rs:803-811 | A series of replies appends one step per reply. |
| Processor.CappedConversationDrains | rusty-claw/crates/rustyclaw-queue/src/processor.rs:854-971 | Once at its message cap, a conversation completes after exactly as many replies as it has pending branches, whatever they say, with every reply recorded in order. |
| Processor.CappedCounts | rusty-claw/crates/rustyclaw-queue/src/processor.rs:854-965 | Past the cap, the pending count falls by one and the message count rises by one per reply, and the cap stays the same. |
| Processor.CappedResponses | rusty-claw/crates/rustyclaw-queue/src/processor.rs:803-811 | Whatever the handoffs, a series of replies appends exactly their steps, in order. |
| Processor.ReplyOutcomeProperties | rusty-claw/crates/rustyclaw-queue/src/processor.rs:539-990 | Every open conversation still waits on at least one branch. A conversation is handed back only with nothing pending and once gone from the table. A reply that goes straight back changes nothing, and no agent receives two internal messages or one from itself. |
| Processor.RecordedReply | rusty-claw/crates/rustyclaw-queue/src/processor.rs:803-990 | Recording a reply whose forwards go to distinct agents other than the sender keeps the table valid and sends each at most one message. |
| Processor.LateReplyStartsOver | rusty-claw/crates/rustyclaw-queue/src/processor.rs:561-583 | An internal reply whose conversation the sweep removed starts a new conversation for the same message. When it hands off nowhere, that conversation completes at once with this reply alone, so the sender gets a second reply to the message. |
| Processor.FreshReplyCompletes | rusty-claw/crates/rustyclaw-queue/src/processor.rs:965-983 | A new conversation whose first reply hands off nowhere completes at once with that reply alone, enqueues nothing, and leaves a table that did not hold it as it was. |
| Processor.UnexpiredProperties | rusty-claw/crates/rustyclaw-queue/src/processor.rs:1133-1171 | After the sweep no conversation is older than thirty minutes, every younger one is still there unchanged, and the table stays valid. |
| Processor.CompactAfterTurn | rusty-claw/crates/rustyclaw-queue/src/processor.rs:445-537 | The session update and the optional compaction leave the sessions as `SessionsAfterTurn` describes. |
| Processor.SessionsAfterTurnProperties | rusty-claw/crates/rustyclaw-queue/src/processor.rs:445-537 | A turn compacts exactly when the session holds more characters than the agent's window less the reserve allows. A compacted session counts only its summary's characters and one more compaction. The summary is the agent's, or a placeholder whose count reads back. No other session changes. |
| Processor.DirectReplyProperties | rusty-claw/crates/rustyclaw-queue/src/processor.rs:678-755 | The direct reply answers the original message on its channel and names its agent. It carries the trimmed reply and no files when the reply references no existing file and has at most 4000 characters. Bracket tags are not removed on this path. |
| Session.SessionKeyInjective | crates/rustyclaw-core/src/session.rs:29-31 | With agent ids and channels free of ':', the `agent:channel:sender` key determines all three parts. |
| Session.ResetPolicy | crates/rustyclaw-core/src/session.rs:143-149 | The policy is never empty: an empty one means "both". |
| Session.DailyStaleIffResetPassed | crates/rustyclaw-core/src/session.rs:160-184 | For reset hours up to 23, a session is stale by day exactly when some daily reset instant falls after its last update and no later than now. |
| Session.NoDailyResetPastHour23 | crates/rustyclaw-core/src/session.rs:166-174 | A reset hour past 23 has no reset instant, so it never makes a session stale. |
| Session.IdleStaleIffTimeoutPassed | crates/rustyclaw-core/src/session.rs:187-190 | A session is idle-stale exactly when now lies beyond its last update plus the timeout. |
| Session.FreshnessByPolicy | crates/rustyclaw-core/src/session.rs:57-71 | "manual" never resets, and "daily" and "idle" reset on their own condition only. Every other policy, the empty default included, resets on either, with reset hour 4 and a 120-minute idle timeout when unset. |
| Session.ResolveShouldResetProperties | crates/rustyclaw-core/src/session.rs:77-104 | An invocation resets exactly when there is no session yet, the reset flag exists or the session is stale. It keeps the stored session id when there is one and takes a fresh one otherwise. Under "manual" only the flag resets. |
| Session.UpdatedProperties | crates/rustyclaw-core/src/session.rs:108-141 | After an exchange the session exists, is stamped now and counts the exchange's characters on top of what it had, or on top of nothing when it is new or was reset. A reset takes a fresh id, the compaction count is kept, and no other session changes. |
| Session.CompactedProperties | rusty-claw/crates/rustyclaw-queue/src/processor.rs:507-514 | Compaction sets the session's count to the summary's length and adds one compaction, keeping its id and time. No other session changes. |
| Session.SessionStore.constructor | crates/rustyclaw-core/src/session.rs:34-43 | The store holds the sessions loaded from the file. |
| Session.SessionStore.UpdateSession | crates/rustyclaw-core/src/session.rs:108-141 | `update_session` stores `Updated` and returns the entry as stored. |
| Session.SessionStore.RecordCompaction | rusty-claw/crates/rustyclaw-queue/src/processor.rs:507-514 | Recording a compaction leaves the store as `Compacted` describes. |
| Failover.CooldownKeyInjective | rusty-claw/crates/rustyclaw-core/src/failover.rs:26-28 | For providers without ':', the key `provider:model` determines both parts. |
| Failover.CooldownMs | rusty-claw/crates/rustyclaw-core/src/failover.rs:83-88 | A cooldown lasts between one minute and one hour. |
| Failover.CooldownProgression | rusty-claw/crates/rustyclaw-core/src/failover.rs:81-88 | The back-off runs 1, 5 and 25 minutes for the first three failures (and for a count of 0), then one hour from the fourth on. |
| Failover.CooldownMonotone | rusty-claw/crates/rustyclaw-core/src/failover.rs:83-88 | More failures never give a shorter cooldown. |
| Failover.RecordedProperties | rusty-claw/crates/rustyclaw-core/src/failover.rs:62-74 | A recorded failure adds or updates only that key. Its count goes up by one from its old count, or from 0 when new. It is cooling down until now plus the back-off for the new count. Every other entry is unchanged. |
| Failover.ClearedProperties | rusty-claw/crates/rustyclaw-core/src/failover.rs:77-79 | After clearing, the key is out of cooldown at any time, and every other entry is unchanged. |
| Failover.Cooldowns.RecordFailure | rusty-claw/crates/rustyclaw-core/src/failover.rs:62-74 | `record_failure` leaves the store equal to `Recorded` of the old store, with the key cooling down. The reason is ignored, as in the source. |
| Failover.Cooldowns.ClearCooldown | rusty-claw/crates/rustyclaw-core/src/failover.rs:77-79 | `clear_cooldown` removes exactly that key, so it is out of cooldown at any time. |
| Failover.LoadAfterSave | rusty-claw/crates/rustyclaw-core/src/failover.rs:31-49 | Loading what was saved gives the same cooldowns back. |
| Failover.ClassifyIgnoresCase | rusty-claw/crates/rustyclaw-core/src/failover.rs:91-92 | Classification does not depend on the message's case. |
| Failover.ClassifyPrecedence | rusty-claw/crates/rustyclaw-core/src/failover.rs:93-124 | Each reason holds exactly when its marker group matches the lower-cased message and no earlier group does. Rate limits come first, then auth, then timeouts, else unknown. |
| Failover.ClassifyRateLimitFirst | rusty-claw/crates/rustyclaw-core/src/failover.rs:93-99 | "429 forbidden" is a rate limit, even though it also holds an auth word. |
| Failover.ClassifyErrnoTimeout | rusty-claw/crates/rustyclaw-core/src/failover.rs:114-122 | "ETIMEDOUT" is a timeout. |
| Invoke.ParseCodexOutput | crates/rustyclaw-queue/src/invoke.rs:43-63 | `parse_codex_output` equals `CodexReply`. |
| Invoke.ScanCodexLines | crates/rustyclaw-queue/src/invoke.rs:45-56 | The loop over the lines keeps the text of the last completed agent message. |
| Invoke.CodexReplyProperties | crates/rustyclaw-queue/src/invoke.rs:43-63 | The reply is the text of the last line that is a completed `agent_message` with a text, when that text is non-empty. With no such line it is the Codex apology. Lines that are not JSON, or are other events, never contribute. |
| Invoke.ParseOpenCodeOutput | crates/rustyclaw-queue/src/invoke.rs:66-84 | `parse_opencode_output` equals `OpenCodeReply`. |
| Invoke.ScanOpenCodeLines | crates/rustyclaw-queue/src/invoke.rs:68-77 | The loop over the lines keeps the text of the last `text` event whose part has a text. |
| Invoke.OpenCodeReplyProperties | crates/rustyclaw-queue/src/invoke.rs:66-84 | The reply is the last `text` event's text, when that text is non-empty. With no such line it is the OpenCode apology. |
| Invoke.LastTextIsLastHit | crates/rustyclaw-queue/src/invoke.rs:45-56 | The kept text comes from the last line that contributes one. |
| Invoke.WorkingDirectoryProperties | crates/rustyclaw-queue/src/invoke.rs:140-149 | An absolute configured directory is used as is. An empty one means the agent's directory under the workspace, and a relative one is joined under the workspace. Under an absolute workspace the result is absolute. |
| Invoke.InvokeWithFailover | crates/rustyclaw-queue/src/invoke.rs:276-391 | The answer and the cooldown store after the call equal `FailoverOutcome` of the store before it. |
| Invoke.FailoverPrimaryFirst | crates/rustyclaw-queue/src/invoke.rs:293-303 | A primary model that is not cooling down and answers is the answer. Only its key is cleared. |
| Invoke.FailoverSkipsCoolingPrimary | crates/rustyclaw-queue/src/invoke.rs:293-328 | A primary model that is cooling down is never asked, so the outcome does not depend on attempt 0. |
| Invoke.FailoverWithoutFallbacks | crates/rustyclaw-queue/src/invoke.rs:331-337 | Without fallbacks the call succeeds exactly when the primary model is free and answers. Otherwise it fails with the "no fallbacks configured" message. |
| Invoke.FailoverAnswerSource | crates/rustyclaw-queue/src/invoke.rs:293-371 | Every answer comes from a model that was not cooling down, the primary or a fallback with only the model replaced. That model's key is cleared. |
| Invoke.FailoverErrorCoolsEveryCandidate | crates/rustyclaw-queue/src/invoke.rs:305-390 | When every model fails, the primary and every fallback are cooling down at the call's clock reading `now`. |
| Invoke.FailoverTouchesOnlyCandidates | crates/rustyclaw-queue/src/invoke.rs:276-391 | The failover changes no cooldown entry other than its own candidates' keys. |
| Invoke.TryFallbacksFailure | crates/rustyclaw-queue/src/invoke.rs:339-384 | When no fallback answers, every fallback is cooling down at the call's clock reading `now`, and nothing cooling down at `now` before the fallbacks stops cooling. |
| Invoke.TryFallbacksSuccess | crates/rustyclaw-queue/src/invoke.rs:339-371 | A fallback's answer comes from the first free fallback that answered, and its key is cleared. |
| Skills.TrimStartMatches | rusty-claw/crates/rustyclaw-core/src/skills.rs:110-143 | `trim_start_matches` leaves a suffix of the line that no longer starts with the pattern. |
| Skills.TrimMatches | rusty-claw/crates/rustyclaw-core/src/skills.rs:116-119 | Trimming the description's quotes leaves no '"' at either end and never lengthens it. |
| Skills.ScanFrontmatter | rusty-claw/crates/rustyclaw-core/src/skills.rs:105-157 | The frontmatter loop over the lines equals the line-by-line scan `ScanLines`. |
| Skills.ParseSkillFrontmatter | rusty-claw/crates/rustyclaw-core/src/skills.rs:84-172 | `parse_skill_frontmatter` equals `Frontmatter`: the opening test, the closing "\n---" search, the scan and the name check. |
| Skills.ParseAfterOpening | rusty-claw/crates/rustyclaw-core/src/skills.rs:91-172 | The part after the opening delimiter equals `AfterOpening`. |
| Skills.ParseBetween | rusty-claw/crates/rustyclaw-core/src/skills.rs:93-171 | Once the closing delimiter is found, the frontmatter between the delimiters is parsed as `Between` describes. |
| Skills.ScanOpen | rusty-claw/crates/rustyclaw-core/src/skills.rs:102-156 | After any prefix of the lines, `bins` is open exactly when the last line that ends a list is `bins:`, and `env` likewise, so at most one list is open. |
| Skills.ScanLists | rusty-claw/crates/rustyclaw-core/src/skills.rs:141-150 | Each list holds, in order, the values of the `- ` items that came while its header was open; other items are dropped. |
| Skills.ScanKeys | rusty-claw/crates/rustyclaw-core/src/skills.rs:109-124 | The name and the description are the values of the last `name:` and `description:` lines, or empty when there are none. |
| Skills.FrontmatterRefused | rusty-claw/crates/rustyclaw-core/src/skills.rs:85-92 | The file is refused exactly when its trimmed text does not start with `---` or has no closing "\n---". |
| Skills.FrontmatterFields | rusty-claw/crates/rustyclaw-core/src/skills.rs:93-171 | Past the delimiters, the file is refused exactly when the last `name:` value is empty or missing. Otherwise the fields are the last key values and the items under their headers, and the instructions are the trimmed text after the closing delimiter. |
| Skills.CollectLatest | rusty-claw/crates/rustyclaw-core/src/skills.rs:23-58 | A later skill of the same name replaces an earlier one. A name is kept exactly when some skill has it, kept with the last such skill, and stored under its own name. |
| Skills.ReadEntry | rusty-claw/crates/rustyclaw-core/src/skills.rs:37-50 | One listing entry yields a skill exactly when it is a directory whose SKILL.md exists, reads and parses. |
| Skills.ReadSkillsDir | rusty-claw/crates/rustyclaw-core/src/skills.rs:37-60 | Reading one directory stores each of its skills under its name, in listing order. |
| Skills.SortedSkills | rusty-claw/crates/rustyclaw-core/src/skills.rs:63-64 | The stored skills are returned sorted strictly by name, and the list holds exactly the stored skills. |
| Skills.DiscoverSkills | rusty-claw/crates/rustyclaw-core/src/skills.rs:25-66 | `discover_skills` returns the kept skills, strictly sorted by name, holding exactly the skills `Discovered` keeps, each under its own name. |
| Skills.DiscoveredProperties | rusty-claw/crates/rustyclaw-core/src/skills.rs:23-66 | A name is discovered exactly when some directory holds a skill with that name, and it comes with the last such skill read. |
| Skills.SortedUnique | rusty-claw/crates/rustyclaw-core/src/skills.rs:63-64 | Two name-sorted lists with the same skills are equal, so the discovered list is fully determined. |
| Skills.InsertByNameSorted | rusty-claw/crates/rustyclaw-core/src/skills.rs:64 | Inserting a skill with a new name keeps the list sorted by name. |
| Skills.IsSkillEligible | rusty-claw/crates/rustyclaw-core/src/skills.rs:175-201 | The override test, the binary loop and the variable loop together equal `Eligible`. |
| Skills.EligibleProperties | rusty-claw/crates/rustyclaw-core/src/skills.rs:175-201 | A skill with no requirements is eligible unless disabled. An enabled override counts the same as none. More binaries or variables found never make a skill ineligible. |
| Skills.FormatSkillsForContext | rusty-claw/crates/rustyclaw-core/src/skills.rs:215-229 | The loop and the join equal `SkillsContext`: one block per skill, joined by horizontal rules. |
| Skills.SkillsContextEmpty | rusty-claw/crates/rustyclaw-core/src/skills.rs:215-229 | The context is empty exactly when there are no skills. For one skill it is that skill's block alone. |
| Skills.SkillsContextHeading | rusty-claw/crates/rustyclaw-core/src/skills.rs:222-225 | A non-empty context opens with "### " and the first skill's name. |
| Skills.SkillsContextBlocks | rusty-claw/crates/rustyclaw-core/src/skills.rs:220-228 | The context holds every skill's block. |
| Transcript.ClockProperties | crates/rustyclaw-core/src/transcript.rs:117-119 | Within chrono's range the clock shows the hour of the UTC day and the minute of the hour, two digits each. Past the range it is `??:??`. |
| Transcript.FormatEntryHead | crates/rustyclaw-core/src/transcript.rs:132-136 | A formatted entry opens with its bracketed clock, then `user: ` for the user, `@` and the agent for the assistant, and the role itself followed by `: ` for any other role. |
| Transcript.FormatEntryContent | crates/rustyclaw-core/src/transcript.rs:121-130 | A formatted entry ends with its content when that is at most 500 characters. A longer content is cut to its first 500 characters and followed by the marker giving its full length. |
| Transcript.AppendFile | crates/rustyclaw-core/src/transcript.rs:76-88 | Reading one file appends, in order, the lines that parse. A missing or unreadable file adds nothing. |
| Transcript.Kept | crates/rustyclaw-core/src/transcript.rs:94-108 | The budget keeps at least the newest line. Either it keeps every line, or the kept lines fit within `max_chars` and adding the next older line would not fit. |
| Transcript.KeptBeyond | crates/rustyclaw-core/src/transcript.rs:102-104 | While the next older line still fits, the budget keeps more lines than those taken so far. |
| Transcript.TakeLatest | crates/rustyclaw-core/src/transcript.rs:94-108 | The backward loop takes exactly the latest `Kept` lines, newest first. |
| Transcript.TakeRecent | crates/rustyclaw-core/src/transcript.rs:94-108 | The same over the entries, each formatted first. |
| Transcript.ReversedTwice | crates/rustyclaw-core/src/transcript.rs:110-111 | Reversing the taken lines restores chronological order. |
| Transcript.JoinRecent | crates/rustyclaw-core/src/transcript.rs:94-112 | The loop, the reverse and the join equal `RecentContext`. |
| Transcript.ReadRecentTranscriptContext | crates/rustyclaw-core/src/transcript.rs:59-113 | `read_recent_transcript_context` equals `ReadRecent`: empty with no budget or no directory, otherwise yesterday's then today's parsed entries, budgeted. |
| Transcript.RecentContextProperties | crates/rustyclaw-core/src/transcript.rs:63-112 | The context is empty with no budget or no parsed entry. Otherwise it ends with the newest entry, formatted. |
| Transcript.BudgetedEndsWithLast | crates/rustyclaw-core/src/transcript.rs:102-112 | The budgeted text ends with the newest line. |

## Where the code and its comments disagree

The model follows the code in each of these cases:
- `pairing.rs:58` says the code alphabet leaves out look-alike letters including 'L', but the alphabet at `pairing.rs:59` contains 'L' (`Pairing.LookAlikeL`).
- `smart_routing.rs` promises the agent with the most keyword matches. The loop at `smart_routing.rs:54-57` returns no winner at the first tie it meets, even when a later agent would beat both (`SmartRouting.EarlyTieHidesLaterWinner`).
- A conversation is swept after thirty minutes. A branch reply that arrives after the sweep opens a new conversation, so the sender can get a second reply (`Processor.LateReplyStartsOver`).

## Left out

Lengths in bytes. Rust's `str::len()` counts UTF-8 bytes, and `&s[..n]` counts bytes and panics when byte n falls inside a character. The model counts characters (`|s|` on `seq<char>`) and slices at character positions, so it never panics. For ASCII text the two agree. For text with multi-byte characters the model keeps whole what the source cuts or panics on: 2500 × 'é' is 5000 bytes but 2500 characters. Each affected member is named on one of these lines:
- SplitPoint (`Adapters.SplitPoint`): the cut is bounded by `max_length` characters; `lib.rs:79-89` bounds bytes and panics at a byte that is not a character boundary.
- SplitPointChoice (`Adapters.SplitPointChoice`): the cut is a character index; `rfind` on `remaining[..max_length]` gives a byte index.
- Chunks (`Adapters.Chunks`): chunks are within `max_length` characters, not bytes.
- CutIndex (`Adapters.CutIndex`): computes a character cut where the source computes a byte cut.
- SplitMessage (`Adapters.SplitMessage`): the "fits" test compares characters with `max_length`; the source compares bytes (`lib.rs:73`), so multi-byte text that the source splits, or panics on, comes back whole.
- SplitMessage (`Adapters.SplitMessage`) also requires `maxLength > 0`: with 0 the source loops forever.
- MessageChunksBounds (`Adapters.MessageChunksBounds`): "within the limit" counts characters, and the character-boundary panic is absent.
- ChunksReassemble (`Adapters.ChunksReassemble`): reassembly is proved over character cuts; the source's byte cuts can panic instead.
- MessageChunksReassemble (`Adapters.MessageChunksReassemble`): the same character-for-byte substitution.
- ReplyChunks (`Telegram.ReplyChunks`, `Discord.ReplyChunks`): 4096 and 2000 are counted in characters; `lib.rs:73-89` and `main.rs:79-95` count bytes.
- ReadOptionalFileCappedProperties (`Context.ReadOptionalFileCappedProperties`): the cap and the "N chars total" figure count characters; `context.rs:30-36` counts bytes and panics when slicing inside a character.
- PushFileSections (`Context.PushFileSections`, `Context.BuildContextPreamble`, `Context.AssembleBodies`): the MEMORY.md section is capped through `ReadOptionalFileCapped`, so its cut and its "N chars total" figure count characters where `context.rs:30-36` counts bytes.
- HandleLongResponseProperties (`Conversations.HandleLongResponseProperties`, and `Conversations.HandleLongResponse`): 4000 is counted in characters; `conversation.rs:23,48` counts bytes and panics on a cut inside a character.
- CompleteConversationProperties (`Conversations.CompleteConversationProperties`): the aggregated reply goes through `HandleLongResponse`, so its `|text| <= 4000` bound counts characters where `handle_long_response` tests 4000 bytes.
- DirectReplyProperties (`Processor.DirectReplyProperties`): "at most 4000 characters" where `handle_long_response` tests 4000 bytes.
- SessionsAfterTurnProperties (`Processor.SessionsAfterTurnProperties`, and `Processor.CompactAfterTurn`): session totals count characters of the exchange and of the summary; `processor.rs:450` and `511` store `len()` in bytes.
- FormatEntryContent (`Transcript.FormatEntryContent`, and `Transcript.FormatEntry`): the 500 cap and the reported total count characters; `transcript.rs:122-126` counts bytes and panics on a cut inside a character.
- Kept (`Transcript.Kept`, `Transcript.KeptBeyond`, `Transcript.TakeLatest`, `Transcript.TakeRecent`): the budget sums characters; `transcript.rs:100` sums bytes.
- JoinRecent (`Transcript.JoinRecent`, `Transcript.ReadRecentTranscriptContext`, `Transcript.RecentContextProperties`, `Transcript.BudgetedEndsWithLast`): these run the same character budget, so which older entries fit differs from `transcript.rs:100` for multi-byte text.

ASCII-only case mapping and word characters. The model lower- and upper-cases ASCII letters only, and its `\w` is `[A-Za-z0-9_]`. Rust's `to_lowercase` and `to_uppercase` map every Unicode letter, and the `regex` crate's `\w` and `\b` are Unicode. The affected members:
- AgentByName (`Routing.AgentByName`): an agent named "Émile" is not found for "@émile", as it is at `routing.rs:385`.
- TeamLeaderByName (`Routing.TeamLeaderByName`): the same lower-casing at `routing.rs:397`.
- ResolvePrefixOrder (`Routing.ResolvePrefixOrder`): the prefix is lower-cased in ASCII only, where `routing.rs:360` is Unicode.
- CandidateIdsAreLower (`Tags.CandidateIdsAreLower`, and `Tags.CandidateIds`): ids are lower case for ASCII letters only.
- IdRun (`Tags.IdRun`): `[\w-]+` stops at a non-ASCII letter, so "@josé:" gives no handoff where `routing.rs:227` captures "josé".
- WordMatchFrom (`SmartRouting.WordMatchFrom`, and `SmartRouting.WordMatch`): `\b` sees a non-ASCII letter as a boundary, so the pattern "caf" matches "café" in the model but not in the source.
- ClassifyError (`Failover.ClassifyError`): the markers are ASCII, but the message is lower-cased in ASCII only (`failover.rs:92`).
- Normalized (`Pairing.Normalized`, and the code comparisons of `Pairing.UniqueCode` and `Pairing.Approved`): codes are upper-cased in ASCII only (`pairing.rs:80-86`, `205`, `218`).
- The other `to_lowercase` calls of `routing.rs` (lines 70, 122, 183, 246 and 305: tag ids, handoff ids and prefix tokens) are ASCII-only in the model too.

Order:
- GroupHandoffs (`Routing.GroupHandoffs`, and `Routing.ExtractNaturalHandoffs`): the source emits natural handoffs in its `HashMap` iteration order, which Rust leaves unspecified; the model fixes first-appearance order.

Clock readings:
- InvokeWithFailover (`Invoke.InvokeWithFailover`, `Invoke.FailoverOutcome`, `Invoke.TryFallbacks`): every cooldown check and every recorded failure uses the call's one clock reading `now`. The source reads `now_millis()` afresh in each `is_in_cooldown` and `record_failure` (`failover.rs:54`, `73`), between backend calls that can take minutes. Two differences follow. A failed model's stored `until` is `now + cooldown` in the model and the failure time plus the cooldown in the source. A key met twice (the primary repeated among the fallbacks, say) is re-checked in the source after its cooldown may have lapsed and is then called again; the model sees it still cooling and skips it. `Invoke.FailoverErrorCoolsEveryCandidate` and `Invoke.TryFallbacksFailure` state cooling at `now`, not at the moment the call returns.

Effects and environment:
- File and directory I/O, JSON serialisation, logging, tokio tasks and their concurrency. Files, listings and read errors are parameters; the queue directories are sets of names in `Processor.Queue`.
- The wall clock, the local date, random numbers, environment variables and the home directory are parameters. `Adapters.PendingReplies.Track` takes its two clock readings as two parameters. Where the source reads the clock twice in `complete_conversation`, the model uses one `now`.
- The agent backends, the `which` probe for skill binaries and the environment-variable probe are oracles.
- `build_unique_file_path` (a probe of which file names exist), `get_agent_reset_flag` (a path join), `append_transcript_entry` (a file append) and `build_compaction_prompt` (a constant text) are not modelled.
- `save_chat_history` writes a file; only the condition under which it writes is modelled.
- The printing in `show_cooldowns`, `list_pending`, `list_approved`, `list_all` and `approve` is not modelled; their decisions are (`CooldownCmd.StatusProperties`, `PairingCmd.FormatTimestampProperties`).
- The heartbeat, visualiser, daemon and doctor commands, and the settings' channel and monitoring sections, are outside this model.
- `to_string_lossy` on file names is the identity here: names are already strings.

Arithmetic:
- `Compaction.ThresholdChars` computes in unbounded integers; the source's `u64` product cannot overflow for real context windows.
- `Failover.CooldownEntry.errorCount` is unbounded; the source's `u32` count would wrap after 2^32 failures.

Preconditions that narrow the source:
- DownloadFileNameProperties (`Telegram.DownloadFileNameProperties`) requires a message id and an original name without '/'. Names with '/' are still computed, but the lemma does not describe them.
- The round-trip lemmas of `AgentSetup` (`SpliceAtRoundTrip`, `SpliceRoundTrip`, `ClaudeTwice`, `UpdateTwice`) require a teammate block with no '<' and markers in order, which is what `build_teammate_block` produces for names without '<'.
