/**
 * The context preamble (crates/rustyclaw-core/src/context.rs): the bootstrap files, long-term
 * memory, today's notes, recent transcript history and eligible skills of an agent, each
 * wrapped in an XML-style tag and the whole wrapped in `<context>`. The agent's `.rustyclaw`
 * directory is the value `AgentDir`; the local date is the parameter `today`.
 */
module Context {
  import opened Wrappers
  import opened Text
  import Transcript
  import Skills

  const MaxTranscriptContextChars: nat := 8000
  const MaxMemoryFileChars: nat := 10000

  // ----- optional files -----

  /**
   * `read_optional_file`: a missing, unreadable or blank file gives nothing; otherwise its
   * trimmed text, which is never empty. `None` stands for a file that is missing or unreadable.
   */
  function ReadOptionalFile(file: Option<string>): (r: Option<string>)
    ensures r.None? <==> file.None? || AllWhitespace(file.value)
    ensures r.Some? ==> r.value != [] && !IsWhitespace(r.value[0]) && !IsWhitespace(r.value[|r.value| - 1])
    ensures r.Some? ==> r.value == Trim(file.value)
  {
    if file.None? then None
    else
      var trimmed := Trim(file.value);
      TrimEmpty(file.value);
      if trimmed == [] then None else Some(trimmed)
  }

  /** `read_optional_file_capped`: the same, cut to `max` characters with a truncation note. */
  function ReadOptionalFileCapped(file: Option<string>, max: nat): Option<string> {
    match ReadOptionalFile(file)
    case None => None
    case Some(content) => Some(Capped(content, max))
  }

  /**
   * A capped read gives something exactly when the plain read does. Content within the cap
   * is kept whole; longer content keeps its first `max` characters and then the note, whose
   * digits give the full length.
   */
  lemma ReadOptionalFileCappedProperties(file: Option<string>, max: nat)
    ensures ReadOptionalFileCapped(file, max).Some? <==> ReadOptionalFile(file).Some?
    ensures ReadOptionalFile(file).Some? ==>
      var content := ReadOptionalFile(file).value;
      var r := ReadOptionalFileCapped(file, max).value;
      && (|content| <= max ==> r == content)
      && (|content| > max ==>
            && r[..max] == content[..max]
            && r[max..max + |TruncatedOpen|] == TruncatedOpen
            && EndsWith(r, TruncatedClose)
            && ParseDigits(r[max + |TruncatedOpen|..|r| - |TruncatedClose|]) == |content|)
  {
    if ReadOptionalFile(file).Some? {
      CappedProperties(ReadOptionalFile(file).value, max);
    }
  }

  // ----- sections -----

  /** The kinds of section, in the order the preamble lists them. */
  datatype Kind = Identity | User | Tools | Memory | DailyNotes(date: string) | RecentHistory | SkillList

  function Rank(k: Kind): nat {
    match k
    case Identity => 0
    case User => 1
    case Tools => 2
    case Memory => 3
    case DailyNotes(_) => 4
    case RecentHistory => 5
    case SkillList => 6
  }

  function Tag(k: Kind): string {
    match k
    case Identity => "identity"
    case User => "user"
    case Tools => "tools"
    case Memory => "memory"
    case DailyNotes(_) => "daily_notes"
    case RecentHistory => "recent_history"
    case SkillList => "skills"
  }

  /** The opening tag; the daily notes carry their date as an attribute. */
  function OpenTag(k: Kind): string {
    match k
    case DailyNotes(date) => "<daily_notes date=\"" + date + "\">"
    case _ => "<" + Tag(k) + ">"
  }

  datatype Section = Section(kind: Kind, body: string)

  /** A section as it is pushed: the tags on their own lines around the body. */
  function Render(s: Section): string {
    OpenTag(s.kind) + "\n" + s.body + "\n</" + Tag(s.kind) + ">"
  }

  /** A rendered section opens with its tag, closes with the matching end tag and holds its body. */
  lemma RenderProperties(s: Section)
    ensures StartsWith(Render(s), OpenTag(s.kind) + "\n")
    ensures EndsWith(Render(s), "\n</" + Tag(s.kind) + ">")
    ensures Contains(Render(s), s.body)
  {
    var head := OpenTag(s.kind) + "\n";
    var r := Render(s);
    var tail := "\n</" + Tag(s.kind) + ">";
    assert r == (head + s.body) + tail;
    assert r[|head|..|head| + |s.body|] == (head + s.body)[|head|..];
    ContainsAt(r, |head|, s.body);
  }

  function Rendered(secs: seq<Section>): (r: seq<string>)
    ensures |r| == |secs| && forall i :: 0 <= i < |secs| ==> r[i] == Render(secs[i])
  {
    seq(|secs|, i requires 0 <= i < |secs| => Render(secs[i]))
  }

  lemma RenderedAppend(a: seq<Section>, b: seq<Section>)
    ensures Rendered(a + b) == Rendered(a) + Rendered(b)
  {
  }

  /** Pushed sections inside `<context>`, or nothing when there are none. */
  function Wrapped(parts: seq<string>): string {
    if parts == [] then "" else "<context>\n" + Join(parts, "\n") + "\n</context>\n\n"
  }

  /**
   * The wrapping is empty exactly when there is nothing to wrap; otherwise it opens with
   * `<context>` on its own line, ends with `</context>` and a blank line, and contains every
   * part.
   */
  lemma WrappedProperties(parts: seq<string>)
    ensures Wrapped(parts) == "" <==> parts == []
    ensures parts != [] ==>
      && StartsWith(Wrapped(parts), "<context>\n")
      && EndsWith(Wrapped(parts), "\n</context>\n\n")
      && forall i :: 0 <= i < |parts| ==> Contains(Wrapped(parts), parts[i])
  {
    if parts != [] {
      var joined := Join(parts, "\n");
      var r := Wrapped(parts);
      assert r == "<context>\n" + (joined + "\n</context>\n\n");
      JoinContainsParts(parts, "\n");
      forall i | 0 <= i < |parts| ensures Contains(r, parts[i]) {
        ContainsBeforeSuffix(joined, "\n</context>\n\n", parts[i]);
        ContainsAfterPrefix("<context>\n", joined + "\n</context>\n\n", parts[i]);
      }
    }
  }

  /** The whole preamble of a list of sections. */
  function Preamble(secs: seq<Section>): string {
    Wrapped(Rendered(secs))
  }

  /** The preamble is empty exactly when there are no sections, and holds every section rendered. */
  lemma PreambleProperties(secs: seq<Section>)
    ensures Preamble(secs) == "" <==> secs == []
    ensures forall s <- secs :: Contains(Preamble(secs), Render(s))
  {
    WrappedProperties(Rendered(secs));
    forall s <- secs ensures Contains(Preamble(secs), Render(s)) {
      var i :| 0 <= i < |secs| && secs[i] == s;
      assert Rendered(secs)[i] == Render(s);
    }
  }

  // ----- the agent directory -----

  /**
   * What the preamble reads from an agent's `.rustyclaw` directory. Each bootstrap file is
   * `None` when missing or unreadable; `notes` maps the readable files of `memory/` by name;
   * the transcript files are those of yesterday and today.
   */
  datatype AgentDir = AgentDir(
    identity: Option<string>,
    user: Option<string>,
    tools: Option<string>,
    memory: Option<string>,
    notes: map<string, string>,
    transcriptsExist: bool,
    yesterdayLog: Transcript.TranscriptFile,
    todayLog: Transcript.TranscriptFile)

  /** `memory/<today>.md`. */
  function DailyFile(dir: AgentDir, today: string): Option<string> {
    var name := today + ".md";
    if name in dir.notes then Some(dir.notes[name]) else None
  }

  /** What the files give: each bootstrap file trimmed, memory also capped, and today's notes. */
  datatype Files = Files(identity: Option<string>, user: Option<string>, tools: Option<string>,
                         memory: Option<string>, daily: Option<string>)

  function ReadFiles(dir: AgentDir, today: string): Files {
    Files(ReadOptionalFile(dir.identity), ReadOptionalFile(dir.user), ReadOptionalFile(dir.tools),
          ReadOptionalFileCapped(dir.memory, MaxMemoryFileChars), ReadOptionalFile(DailyFile(dir, today)))
  }

  /** Everything the preamble is made of; `skills` is `None` when no skill directory was given. */
  datatype Contents = Contents(files: Files, history: string, skills: Option<string>)

  /** The skills that pass `is_skill_eligible`, in their order. */
  function EligibleOnly(skills: seq<Skills.Skill>, overrides: map<string, Skills.SkillOverride>,
                        available: set<string>, envSet: set<string>): seq<Skills.Skill> {
    Retain(skills, KeepEligible(overrides, available, envSet))
  }

  /** The eligibility test as a filter. */
  function KeepEligible(overrides: map<string, Skills.SkillOverride>, available: set<string>, envSet: set<string>)
    : Skills.Skill -> bool {
    (s: Skills.Skill) => Skills.Eligible(s, overrides, available, envSet)
  }

  /** The skills text: the discovered skills in name order, only the eligible ones, formatted. */
  ghost function SkillsText(skillDirs: seq<seq<Skills.Entry>>, overrides: map<string, Skills.SkillOverride>,
                            available: set<string>, envSet: set<string>): string {
    Skills.SkillsContext(EligibleOnly(Skills.DiscoveredByName(skillDirs), overrides, available, envSet))
  }

  /** The contents read for one preamble. */
  ghost function Gather(dir: AgentDir, today: string, maxTranscriptChars: nat,
                        skillDirs: seq<seq<Skills.Entry>>, overrides: map<string, Skills.SkillOverride>,
                        available: set<string>, envSet: set<string>): Contents {
    Contents(ReadFiles(dir, today),
             Transcript.ReadRecent(dir.transcriptsExist, dir.yesterdayLog, dir.todayLog, maxTranscriptChars),
             if skillDirs == [] then None else Some(SkillsText(skillDirs, overrides, available, envSet)))
  }

  /** A section of the given kind when there is content for it. */
  function Slot(k: Kind, content: Option<string>): seq<Section> {
    if content.Some? then [Section(k, content.value)] else []
  }

  /** A section of the given kind when the text is not empty. */
  function NonEmpty(k: Kind, text: string): seq<Section> {
    if text == "" then [] else [Section(k, text)]
  }

  /** The sections from the bootstrap files, memory and today's notes. */
  function FileSlots(today: string, f: Files): seq<Section> {
    Slot(Identity, f.identity) + Slot(User, f.user) + Slot(Tools, f.tools) + Slot(Memory, f.memory)
    + Slot(DailyNotes(today), f.daily)
  }

  /** Every section `build_context_preamble` pushes, in order. */
  function Assemble(today: string, c: Contents): seq<Section> {
    FileSlots(today, c.files)
    + NonEmpty(RecentHistory, c.history)
    + (if c.skills.None? then [] else NonEmpty(SkillList, c.skills.value))
  }

  // ----- build_context_preamble -----

  /** The eligible skills of `skills`, kept in order (the `filter` over `is_skill_eligible`). */
  method FilterEligible(skills: seq<Skills.Skill>, overrides: map<string, Skills.SkillOverride>,
                        available: set<string>, envSet: set<string>) returns (eligible: seq<Skills.Skill>)
    ensures eligible == EligibleOnly(skills, overrides, available, envSet)
  {
    eligible := [];
    for i := 0 to |skills|
      invariant eligible == EligibleOnly(skills[..i], overrides, available, envSet)
    {
      var ok := Skills.IsSkillEligible(skills[i], overrides, available, envSet);
      EligibleOnlyStep(skills, i, overrides, available, envSet);
      if ok {
        eligible := eligible + [skills[i]];
      }
    }
    assert skills[..|skills|] == skills;
  }

  lemma EligibleOnlyStep(skills: seq<Skills.Skill>, i: nat, overrides: map<string, Skills.SkillOverride>,
                         available: set<string>, envSet: set<string>)
    requires i < |skills|
    ensures EligibleOnly(skills[..i + 1], overrides, available, envSet)
            == EligibleOnly(skills[..i], overrides, available, envSet)
               + (if Skills.Eligible(skills[i], overrides, available, envSet) then [skills[i]] else [])
  {
    RetainAppend(skills[..i], skills[i], KeepEligible(overrides, available, envSet));
    assert skills[..i + 1] == skills[..i] + [skills[i]];
  }

  /** The skills section's text: discover, keep the eligible ones, format. */
  method BuildSkillsText(skillDirs: seq<seq<Skills.Entry>>, overrides: map<string, Skills.SkillOverride>,
                         available: set<string>, envSet: set<string>) returns (text: string)
    ensures text == SkillsText(skillDirs, overrides, available, envSet)
  {
    var all := Skills.DiscoverSkills(skillDirs);
    var eligible := FilterEligible(all, overrides, available, envSet);
    text := Skills.FormatSkillsForContext(eligible);
  }

  /** Push the section of kind `k` when there is content for it. */
  method PushSlot(sections: seq<string>, ghost plan: seq<Section>, k: Kind, content: Option<string>)
    returns (sections': seq<string>)
    requires sections == Rendered(plan)
    ensures sections' == Rendered(plan + Slot(k, content))
  {
    RenderedAppend(plan, Slot(k, content));
    sections' := sections;
    if content.Some? {
      sections' := sections + [Render(Section(k, content.value))];
    }
  }

  /** The sections from the files, pushed in order. */
  method PushFileSections(dir: AgentDir, today: string) returns (sections: seq<string>)
    ensures sections == Rendered(FileSlots(today, ReadFiles(dir, today)))
  {
    var f := ReadFiles(dir, today);
    sections := PushSlot([], [], Identity, f.identity);
    ghost var plan := [] + Slot(Identity, f.identity);
    sections := PushSlot(sections, plan, User, f.user);
    plan := plan + Slot(User, f.user);
    sections := PushSlot(sections, plan, Tools, f.tools);
    plan := plan + Slot(Tools, f.tools);
    sections := PushSlot(sections, plan, Memory, f.memory);
    plan := plan + Slot(Memory, f.memory);
    sections := PushSlot(sections, plan, DailyNotes(today), f.daily);
    plan := plan + Slot(DailyNotes(today), f.daily);
    assert [] + Slot(Identity, f.identity) == Slot(Identity, f.identity);
  }

  /** `build_context_preamble`: push each section that has content, then wrap them, or nothing. */
  method BuildContextPreamble(dir: AgentDir, today: string, maxTranscriptChars: nat,
                              skillDirs: seq<seq<Skills.Entry>>, overrides: map<string, Skills.SkillOverride>,
                              available: set<string>, envSet: set<string>) returns (r: string)
    ensures r == Preamble(Assemble(today, Gather(dir, today, maxTranscriptChars, skillDirs, overrides, available, envSet)))
  {
    var sections := PushFileSections(dir, today);
    ghost var plan := FileSlots(today, ReadFiles(dir, today));
    var history := Transcript.ReadRecentTranscriptContext(dir.transcriptsExist, dir.yesterdayLog, dir.todayLog, maxTranscriptChars);
    sections := PushSlot(sections, plan, RecentHistory, if history == "" then None else Some(history));
    plan := plan + NonEmpty(RecentHistory, history);
    ghost var skills: Option<string> := None;
    if skillDirs != [] {
      var text := BuildSkillsText(skillDirs, overrides, available, envSet);
      sections := PushSlot(sections, plan, SkillList, if text == "" then None else Some(text));
      plan := plan + NonEmpty(SkillList, text);
      skills := Some(text);
    } else {
      assert plan + [] == plan;
    }
    ghost var c := Contents(ReadFiles(dir, today), history, skills);
    assert c == Gather(dir, today, maxTranscriptChars, skillDirs, overrides, available, envSet);
    assert plan == Assemble(today, c);
    r := Wrap(sections);
  }

  /**
   * The rendered sections inside `<context>` tags: nothing exactly when there are no
   * sections, otherwise the `<context>` frame holding every section.
   */
  method Wrap(sections: seq<string>) returns (r: string)
    ensures r == Wrapped(sections)
    ensures r == "" <==> sections == []
    ensures sections != [] ==>
      && StartsWith(r, "<context>\n")
      && EndsWith(r, "\n</context>\n\n")
      && forall i :: 0 <= i < |sections| ==> Contains(r, sections[i])
  {
    WrappedProperties(sections);
    if sections == [] {
      return "";
    }
    r := "<context>\n" + Join(sections, "\n") + "\n</context>\n\n";
  }

  // ----- properties of the sections -----

  /** Each section's kind ranks strictly above the one before it. */
  predicate Ordered(secs: seq<Section>) {
    forall i, j :: 0 <= i < j < |secs| ==> Rank(secs[i].kind) < Rank(secs[j].kind)
  }

  /** The body of the first section of kind `k`, if any. */
  function Body(secs: seq<Section>, k: Kind): Option<string> {
    if secs == [] then None
    else if secs[0].kind == k then Some(secs[0].body)
    else Body(secs[1..], k)
  }

  lemma {:induction false} BodyAppend(a: seq<Section>, b: seq<Section>, k: Kind)
    ensures Body(a + b, k) == if Body(a, k).Some? then Body(a, k) else Body(b, k)
    decreases |a|
  {
    if a != [] {
      assert (a + b)[1..] == a[1..] + b;
      BodyAppend(a[1..], b, k);
    } else {
      assert a + b == b;
    }
  }

  /** Adding at most one section of kind `k` after lower-ranked ones keeps the order. */
  lemma OrderedExtend(a: seq<Section>, k: Kind, b: seq<Section>)
    requires Ordered(a) && forall s <- a :: Rank(s.kind) < Rank(k)
    requires |b| <= 1 && forall s <- b :: s.kind == k
    ensures Ordered(a + b) && forall s <- a + b :: Rank(s.kind) <= Rank(k)
  {
    forall i, j | 0 <= i < j < |a + b| ensures Rank((a + b)[i].kind) < Rank((a + b)[j].kind) {
      if j >= |a| {
        assert (a + b)[i] in a;
        assert (a + b)[j] in b;
      }
    }
  }

  /**
   * The sections come in the fixed order identity, user, tools, memory, daily notes,
   * recent history, skills, each kind at most once.
   */
  lemma AssembleOrdered(today: string, c: Contents)
    ensures Ordered(Assemble(today, c))
  {
    var files := FileSlots(today, c.files);
    FileSlotsOrdered(today, c.files);
    var h := NonEmpty(RecentHistory, c.history);
    OrderedExtend(files, RecentHistory, h);
    var s := if c.skills.None? then [] else NonEmpty(SkillList, c.skills.value);
    OrderedExtend(files + h, SkillList, s);
  }

  /** The file sections come in the order identity, user, tools, memory, daily notes. */
  lemma FileSlotsOrdered(today: string, f: Files)
    ensures Ordered(FileSlots(today, f))
    ensures forall s <- FileSlots(today, f) :: Rank(s.kind) <= Rank(DailyNotes(today))
  {
    var a := Slot(Identity, f.identity);
    OrderedExtend([], Identity, a);
    assert [] + a == a;
    var b := Slot(User, f.user);
    OrderedExtend(a, User, b);
    var d := Slot(Tools, f.tools);
    OrderedExtend(a + b, Tools, d);
    var m := Slot(Memory, f.memory);
    OrderedExtend(a + b + d, Memory, m);
    OrderedExtend(a + b + d + m, DailyNotes(today), Slot(DailyNotes(today), f.daily));
  }

  /**
   * The content the section of kind `k` should have: what was read for it, the recent history
   * when it is not empty, the skills text when skill directories were given and it is not
   * empty, and nothing for notes of any other date.
   */
  function Expected(today: string, c: Contents, k: Kind): Option<string> {
    match k
    case Identity => c.files.identity
    case User => c.files.user
    case Tools => c.files.tools
    case Memory => c.files.memory
    case DailyNotes(date) => if date == today then c.files.daily else None
    case RecentHistory => if c.history == "" then None else Some(c.history)
    case SkillList => if c.skills.None? || c.skills.value == "" then None else c.skills
  }

  /** Every kind's section holds exactly its expected content, and is missing when there is none. */
  lemma AssembleBodies(today: string, c: Contents, k: Kind)
    ensures Body(Assemble(today, c), k) == Expected(today, c, k)
  {
    var f := c.files;
    var a := Slot(Identity, f.identity);
    var b := Slot(User, f.user);
    var d := Slot(Tools, f.tools);
    var m := Slot(Memory, f.memory);
    var e := Slot(DailyNotes(today), f.daily);
    var h := NonEmpty(RecentHistory, c.history);
    var s := if c.skills.None? then [] else NonEmpty(SkillList, c.skills.value);
    assert h == Slot(RecentHistory, if c.history == "" then None else Some(c.history));
    assert s == Slot(SkillList, if c.skills.None? || c.skills.value == "" then None else c.skills);
    assert Assemble(today, c) == a + b + d + m + e + h + s;
    BodyChain(a, b, d, m, e, h, s, k);
    BodySlot(Identity, f.identity, k);
    BodySlot(User, f.user, k);
    BodySlot(Tools, f.tools, k);
    BodySlot(Memory, f.memory, k);
    BodySlot(DailyNotes(today), f.daily, k);
    BodySlot(RecentHistory, if c.history == "" then None else Some(c.history), k);
    BodySlot(SkillList, if c.skills.None? || c.skills.value == "" then None else c.skills, k);
  }

  /** A run of at most one section has a body only for its own kind. */
  lemma BodySlot(kind: Kind, content: Option<string>, k: Kind)
    ensures Body(Slot(kind, content), k) == if kind == k then content else None
  {
  }

  /** Looking a kind up in seven runs of sections, one run after another. */
  lemma BodyChain(a: seq<Section>, b: seq<Section>, c: seq<Section>, d: seq<Section>,
                  e: seq<Section>, h: seq<Section>, s: seq<Section>, k: Kind)
    ensures Body(a + b + c + d + e + h + s, k) ==
      if Body(a, k).Some? then Body(a, k)
      else if Body(b, k).Some? then Body(b, k)
      else if Body(c, k).Some? then Body(c, k)
      else if Body(d, k).Some? then Body(d, k)
      else if Body(e, k).Some? then Body(e, k)
      else if Body(h, k).Some? then Body(h, k)
      else Body(s, k)
  {
    BodyAppend(a, b, k);
    BodyAppend(a + b, c, k);
    BodyAppend(a + b + c, d, k);
    BodyAppend(a + b + c + d, e, k);
    BodyAppend(a + b + c + d + e, h, k);
    BodyAppend(a + b + c + d + e + h, s, k);
  }

  /**
   * The preamble is empty exactly when nothing was read: no file has content, there is no
   * recent history and there is no skills text.
   */
  lemma PreambleEmpty(today: string, c: Contents)
    ensures Preamble(Assemble(today, c)) == "" <==>
      && c.files == Files(None, None, None, None, None)
      && c.history == ""
      && (c.skills.None? || c.skills.value == "")
  {
    var secs := Assemble(today, c);
    PreambleProperties(secs);
    AssembleBodies(today, c, Identity);
    AssembleBodies(today, c, User);
    AssembleBodies(today, c, Tools);
    AssembleBodies(today, c, Memory);
    AssembleBodies(today, c, DailyNotes(today));
    AssembleBodies(today, c, RecentHistory);
    AssembleBodies(today, c, SkillList);
    if secs != [] {
      AssembleBodies(today, c, secs[0].kind);
      assert Body(secs, secs[0].kind).Some?;
    }
  }

  /** An agent directory with nothing in it, and no skill directories, gives no preamble. */
  lemma EmptyAgentDir(dir: AgentDir, today: string, maxTranscriptChars: nat,
                      overrides: map<string, Skills.SkillOverride>, available: set<string>, envSet: set<string>)
    requires dir.identity.None? && dir.user.None? && dir.tools.None? && dir.memory.None?
    requires dir.notes == map[] && !dir.transcriptsExist
    ensures Preamble(Assemble(today, Gather(dir, today, maxTranscriptChars, [], overrides, available, envSet))) == ""
  {
    PreambleEmpty(today, Gather(dir, today, maxTranscriptChars, [], overrides, available, envSet));
  }

  /** A file that is only whitespace contributes exactly what a missing one does. */
  lemma BlankFileIsMissing(dir: AgentDir, today: string, blank: string)
    requires AllWhitespace(blank)
    ensures ReadFiles(dir.(identity := Some(blank)), today) == ReadFiles(dir.(identity := None), today)
    ensures ReadFiles(dir.(user := Some(blank)), today) == ReadFiles(dir.(user := None), today)
    ensures ReadFiles(dir.(tools := Some(blank)), today) == ReadFiles(dir.(tools := None), today)
    ensures ReadFiles(dir.(memory := Some(blank)), today) == ReadFiles(dir.(memory := None), today)
    ensures ReadFiles(dir.(notes := dir.notes[today + ".md" := blank]), today)
         == ReadFiles(dir.(notes := dir.notes - {today + ".md"}), today)
  {
  }

  /**
   * The skills section has content exactly when some discovered skill is eligible (the
   * latest skill under each name is the one discovered).
   */
  lemma SkillsTextProperties(skillDirs: seq<seq<Skills.Entry>>, overrides: map<string, Skills.SkillOverride>,
                             available: set<string>, envSet: set<string>)
    ensures SkillsText(skillDirs, overrides, available, envSet) != "" <==>
      exists s <- Skills.Discovered(skillDirs).Values :: Skills.Eligible(s, overrides, available, envSet)
  {
    var all := Skills.DiscoveredByName(skillDirs);
    var eligible := EligibleOnly(all, overrides, available, envSet);
    Skills.SkillsContextEmpty(eligible);
    if exists s <- Skills.Discovered(skillDirs).Values :: Skills.Eligible(s, overrides, available, envSet) {
      var s :| s in Skills.Discovered(skillDirs).Values && Skills.Eligible(s, overrides, available, envSet);
      assert s in all;
      assert s in eligible;
    } else if eligible != [] {
      assert eligible[0] in all;
    }
  }
}
