/**
 * Skills (rusty-claw/crates/rustyclaw-core/src/skills.rs): a skill is a directory holding
 * a SKILL.md whose `---`-delimited frontmatter names it, describes it and lists the
 * binaries and environment variables it needs; the text after the frontmatter is the
 * instructions given to the agent. Skill directories are read in order and a later one
 * overrides an earlier skill of the same name. Directory listings, file contents, the
 * `which` probe and the environment are parameters.
 */
module Skills {
  import opened Wrappers
  import opened Text

  datatype SkillMeta = SkillMeta(name: string, description: string, requiresBins: seq<string>, requiresEnv: seq<string>)

  datatype Skill = Skill(meta: SkillMeta, instructions: string, sourceDir: string)

  /** A per-skill setting; only `enabled` is consulted. */
  datatype SkillOverride = SkillOverride(enabled: bool)

  // ----- frontmatter lines -----

  /** `str::trim_start_matches` with a string pattern: every leading copy of `p` is removed. */
  function TrimStartMatches(s: string, p: string): (r: string)
    ensures |r| <= |s| && r == s[|s| - |r|..]
    ensures |p| > 0 ==> !StartsWith(r, p)
    decreases |s|
  {
    if |p| > 0 && StartsWith(s, p) then TrimStartMatches(s[|p|..], p) else s
  }

  /** `str::trim_matches` with a character: every leading and trailing `c` is removed. */
  function TrimMatches(s: string, c: char): (r: string)
    ensures |r| <= |s|
    ensures |r| > 0 ==> r[0] != c && r[|r| - 1] != c
    decreases |s|
  {
    if |s| > 0 && s[0] == c then TrimMatches(s[1..], c)
    else if |s| > 0 && s[|s| - 1] == c then TrimMatches(s[..|s| - 1], c)
    else s
  }

  /** How the frontmatter loop reads a line, with the value it takes from it. */
  datatype Line =
    | NameLine(value: string)
    | DescriptionLine(value: string)
    | RequiresLine
    | BinsLine
    | EnvLine
    | ItemLine(value: string)
    | OtherKeyLine
    | PlainLine

  /**
   * The loop's tests on the trimmed line, in its order: `name:` and `description:` prefixes
   * (the prefix stripped, the description's surrounding quotes too), the three headers
   * exactly, a `- ` item, any other `key:` line not starting with `-`, and anything else.
   */
  function Classify(line: string): Line {
    var t := Trim(line);
    if StartsWith(t, "name:") then NameLine(Trim(TrimStartMatches(t, "name:")))
    else if StartsWith(t, "description:") then DescriptionLine(TrimMatches(Trim(TrimStartMatches(t, "description:")), '"'))
    else if t == "requires:" then RequiresLine
    else if t == "bins:" then BinsLine
    else if t == "env:" then EnvLine
    else if StartsWith(t, "- ") then ItemLine(Trim(TrimStartMatches(t, "- ")))
    else if ':' in t && !StartsWith(t, "-") then OtherKeyLine
    else PlainLine
  }

  /** The scanner's variables between lines. */
  datatype Scan = Scan(name: string, description: string, bins: seq<string>, env: seq<string>, inBins: bool, inEnv: bool)

  /** One turn of the frontmatter loop. */
  function ScanLine(st: Scan, line: Line): Scan {
    match line
    case NameLine(v) => st.(name := v, inBins := false, inEnv := false)
    case DescriptionLine(v) => st.(description := v, inBins := false, inEnv := false)
    case RequiresLine => st.(inBins := false, inEnv := false)
    case BinsLine => st.(inBins := true, inEnv := false)
    case EnvLine => st.(inBins := false, inEnv := true)
    case ItemLine(v) =>
      if st.inBins then st.(bins := st.bins + [v])
      else if st.inEnv then st.(env := st.env + [v])
      else st
    case OtherKeyLine => st.(inBins := false, inEnv := false)
    case PlainLine => st
  }

  const EmptyScan := Scan("", "", [], [], false, false)

  /** How each line is read. */
  function ClassifyAll(lines: seq<string>): (r: seq<Line>)
    ensures |r| == |lines| && forall i :: 0 <= i < |lines| ==> r[i] == Classify(lines[i])
  {
    seq(|lines|, i requires 0 <= i < |lines| => Classify(lines[i]))
  }

  /** The scanner's variables after the given lines. */
  function ScanLines(ls: seq<Line>): Scan {
    if ls == [] then EmptyScan else ScanLine(ScanLines(ls[..|ls| - 1]), ls[|ls| - 1])
  }

  /** Where the frontmatter ends: the first "\n---" after the opening delimiter. */
  function Closing(content: string): Option<nat> {
    var trimmed := Trim(content);
    if !StartsWith(trimmed, "---") then None else Find(trimmed[3..], "\n---")
  }

  /** The lines between the delimiters, as read. */
  function FrontmatterLines(content: string): seq<Line>
    requires Closing(content).Some?
  {
    var rest := Trim(content)[3..];
    ClassifyAll(Lines(rest[..Closing(content).value]))
  }

  /** What `parse_skill_frontmatter` returns. */
  function Frontmatter(content: string): Option<(SkillMeta, string)> {
    var trimmed := Trim(content);
    if !StartsWith(trimmed, "---") then None else AfterOpening(trimmed[3..])
  }

  /** What it returns for the text after the opening `---`. */
  function AfterOpening(rest: string): Option<(SkillMeta, string)> {
    match Find(rest, "\n---")
    case None => None
    case Some(end) => Between(rest, end)
  }

  /** What it returns once the closing delimiter is found at `end`: refused without a name. */
  function Between(rest: string, end: nat): Option<(SkillMeta, string)>
    requires end + 4 <= |rest|
  {
    var st := ScanLines(ClassifyAll(Lines(rest[..end])));
    if st.name == [] then None
    else Some((SkillMeta(st.name, st.description, st.bins, st.env), Trim(rest[end + 4..])))
  }

  /** The frontmatter loop: one pass over the lines, tracking which list is open. */
  method ScanFrontmatter(lines: seq<string>) returns (st: Scan)
    ensures st == ScanLines(ClassifyAll(lines))
  {
    ghost var ls := ClassifyAll(lines);
    st := EmptyScan;
    for i := 0 to |lines|
      invariant st == ScanLines(ls[..i])
    {
      assert ls[..i + 1][..i] == ls[..i];
      st := ScanLine(st, Classify(lines[i]));
    }
    assert ls[..|lines|] == ls;
  }

  /** `parse_skill_frontmatter`. */
  method ParseSkillFrontmatter(content: string) returns (r: Option<(SkillMeta, string)>)
    ensures r == Frontmatter(content)
  {
    var trimmed := Trim(content);
    if !StartsWith(trimmed, "---") {
      return None;
    }
    r := ParseAfterOpening(trimmed[3..]);
  }

  /** The rest of `parse_skill_frontmatter`, on the text after the opening delimiter. */
  method ParseAfterOpening(rest: string) returns (r: Option<(SkillMeta, string)>)
    ensures r == AfterOpening(rest)
  {
    var found := Find(rest, "\n---");
    if found.None? {
      return None;
    }
    r := ParseBetween(rest, found.value);
  }

  /** The scan of the frontmatter and the body after the closing delimiter at `end`. */
  method ParseBetween(rest: string, end: nat) returns (r: Option<(SkillMeta, string)>)
    requires end + 4 <= |rest|
    ensures r == Between(rest, end)
  {
    var body := Trim(rest[end + 4..]);
    var st := ScanFrontmatter(Lines(rest[..end]));
    if st.name == [] {
      return None;
    }
    r := Some((SkillMeta(st.name, st.description, st.bins, st.env), body));
  }

  // ----- what the scan collects -----

  /** The scan after one more line is one more turn of the loop. */
  lemma ScanLinesStep(ls: seq<Line>, i: nat)
    requires 0 < i <= |ls|
    ensures ScanLines(ls[..i]) == ScanLine(ScanLines(ls[..i - 1]), ls[i - 1])
  {
    assert ls[..i][..i - 1] == ls[..i - 1];
  }

  /** A line after which neither list is open unless it opened one: every kind but items and plain text. */
  predicate Breaks(l: Line) {
    !l.ItemLine? && !l.PlainLine?
  }

  /** The last of the first `i` lines that ends a list, if any. */
  function LastBreak(ls: seq<Line>, i: nat): (r: Option<nat>)
    requires i <= |ls|
    ensures r.Some? ==> r.value < i && Breaks(ls[r.value]) && forall k :: r.value < k < i ==> !Breaks(ls[k])
    ensures r.None? ==> forall k :: 0 <= k < i ==> !Breaks(ls[k])
  {
    if i == 0 then None else if Breaks(ls[i - 1]) then Some(i - 1) else LastBreak(ls, i - 1)
  }

  /** The list opened by `header` is open after the first `i` lines: the last line that ends a list is that header. */
  predicate Open(ls: seq<Line>, i: nat, header: Line)
    requires i <= |ls|
  {
    var last := LastBreak(ls, i);
    last.Some? && ls[last.value] == header
  }

  /** The values of the item lines among the first `i` that fall under `header`, in order. */
  function ItemsUnder(ls: seq<Line>, i: nat, header: Line): seq<string>
    requires i <= |ls|
  {
    if i == 0 then []
    else ItemsUnder(ls, i - 1, header) + (if ls[i - 1].ItemLine? && Open(ls, i - 1, header) then [ls[i - 1].value] else [])
  }

  /**
   * After any number of frontmatter lines the `bins` list is open exactly when the last
   * line that ends a list is a `bins:` header, and likewise for `env`, so at most one is
   * open.
   */
  lemma {:induction false} ScanOpen(ls: seq<Line>, i: nat)
    requires i <= |ls|
    ensures var st := ScanLines(ls[..i]);
      && st.inBins == Open(ls, i, BinsLine) && st.inEnv == Open(ls, i, EnvLine)
      && !(st.inBins && st.inEnv)
  {
    if i > 0 {
      ScanOpen(ls, i - 1);
      ScanLinesStep(ls, i);
    }
  }

  /** Each list holds the values of the item lines that came while it was open, in order. */
  lemma {:induction false} ScanLists(ls: seq<Line>, i: nat)
    requires i <= |ls|
    ensures ScanLines(ls[..i]).bins == ItemsUnder(ls, i, BinsLine)
    ensures ScanLines(ls[..i]).env == ItemsUnder(ls, i, EnvLine)
  {
    if i > 0 {
      ScanLists(ls, i - 1);
      ScanOpen(ls, i - 1);
      ScanLinesStep(ls, i);
    }
  }

  /** The last `name:` line among the first `i`, if any. */
  function LastName(ls: seq<Line>, i: nat): (r: Option<nat>)
    requires i <= |ls|
    ensures r.Some? ==> r.value < i && ls[r.value].NameLine? && forall k :: r.value < k < i ==> !ls[k].NameLine?
    ensures r.None? ==> forall k :: 0 <= k < i ==> !ls[k].NameLine?
  {
    if i == 0 then None else if ls[i - 1].NameLine? then Some(i - 1) else LastName(ls, i - 1)
  }

  /** The last `description:` line among the first `i`, if any. */
  function LastDescription(ls: seq<Line>, i: nat): (r: Option<nat>)
    requires i <= |ls|
    ensures r.Some? ==> r.value < i && ls[r.value].DescriptionLine? && forall k :: r.value < k < i ==> !ls[k].DescriptionLine?
    ensures r.None? ==> forall k :: 0 <= k < i ==> !ls[k].DescriptionLine?
  {
    if i == 0 then None else if ls[i - 1].DescriptionLine? then Some(i - 1) else LastDescription(ls, i - 1)
  }

  /** The name is the value of the last `name:` line, empty when there is none; the same for the description. */
  lemma ScanKeys(ls: seq<Line>, i: nat)
    requires i <= |ls|
    ensures ScanLines(ls[..i]).name == (match LastName(ls, i) case Some(k) => ls[k].value case None => "")
    ensures ScanLines(ls[..i]).description == (match LastDescription(ls, i) case Some(k) => ls[k].value case None => "")
  {
    ScanName(ls, i);
    ScanDescription(ls, i);
  }

  lemma {:induction false} ScanName(ls: seq<Line>, i: nat)
    requires i <= |ls|
    ensures ScanLines(ls[..i]).name == (match LastName(ls, i) case Some(k) => ls[k].value case None => "")
  {
    if i > 0 {
      ScanName(ls, i - 1);
      ScanLinesStep(ls, i);
    }
  }

  lemma {:induction false} ScanDescription(ls: seq<Line>, i: nat)
    requires i <= |ls|
    ensures ScanLines(ls[..i]).description == (match LastDescription(ls, i) case Some(k) => ls[k].value case None => "")
  {
    if i > 0 {
      ScanDescription(ls, i - 1);
      ScanLinesStep(ls, i);
    }
  }

  /**
   * There is no frontmatter block exactly when the trimmed file does not open with `---`
   * or has no closing "\n---", and then nothing is parsed.
   */
  lemma FrontmatterRefused(content: string)
    ensures var trimmed := Trim(content);
      && (Closing(content).None? <==> !StartsWith(trimmed, "---") || !Contains(trimmed[3..], "\n---"))
      && (Closing(content).None? ==> Frontmatter(content).None?)
  {
    if StartsWith(Trim(content), "---") {
      FindNone(Trim(content)[3..], "\n---");
    }
  }

  /**
   * Past both delimiters, the frontmatter is refused exactly when there is no `name:` line
   * or the last one has an empty value. Otherwise the name and description are the last
   * such lines' values, the lists are the items under their headers, and the instructions
   * are the trimmed text after the closing delimiter.
   */
  lemma FrontmatterFields(content: string)
    requires Closing(content).Some?
    ensures var r := Frontmatter(content);
      var ls := FrontmatterLines(content);
      var end := Closing(content).value;
      && (r.Some? <==> LastName(ls, |ls|).Some? && ls[LastName(ls, |ls|).value].value != "")
      && (r.Some? ==>
            && r.value.0.name == ls[LastName(ls, |ls|).value].value
            && r.value.0.description
               == (match LastDescription(ls, |ls|) case Some(k) => ls[k].value case None => "")
            && r.value.0.requiresBins == ItemsUnder(ls, |ls|, BinsLine)
            && r.value.0.requiresEnv == ItemsUnder(ls, |ls|, EnvLine)
            && r.value.1 == Trim(Trim(content)[3..][end + 4..]))
  {
    var ls := FrontmatterLines(content);
    ScanLists(ls, |ls|);
    ScanKeys(ls, |ls|);
    assert ls[..|ls|] == ls;
  }

  // ----- discovery -----

  /**
   * One entry of a skills directory's listing: its path, whether it is a directory, and
   * the text of its SKILL.md when that file exists and reads. A directory that is missing
   * or cannot be listed has an empty listing.
   */
  datatype Entry = Entry(path: string, isDir: bool, skillFile: Option<string>)

  /** The skill an entry yields: a directory whose SKILL.md frontmatter parses. */
  function EntrySkill(e: Entry): Option<Skill> {
    if !e.isDir || e.skillFile.None? then None
    else match Frontmatter(e.skillFile.value)
      case None => None
      case Some((meta, instructions)) => Some(Skill(meta, instructions, e.path))
  }

  /** The skills of one listing, in listing order. */
  function DirSkills(entries: seq<Entry>): seq<Skill> {
    if entries == [] then []
    else DirSkills(entries[..|entries| - 1])
         + (match EntrySkill(entries[|entries| - 1]) case Some(skill) => [skill] case None => [])
  }

  /** The skills of all listings, directory by directory. */
  function AllSkills(dirs: seq<seq<Entry>>): seq<Skill> {
    if dirs == [] then [] else AllSkills(dirs[..|dirs| - 1]) + DirSkills(dirs[|dirs| - 1])
  }

  /** The map after inserting the skills in order under their names. */
  function Collect(skills: seq<Skill>): map<string, Skill> {
    if skills == [] then map[]
    else
      var last := skills[|skills| - 1];
      Collect(skills[..|skills| - 1])[last.meta.name := last]
  }

  /** The skills `discover_skills` keeps, by name. */
  function Discovered(dirs: seq<seq<Entry>>): map<string, Skill> {
    Collect(AllSkills(dirs))
  }

  lemma CollectAppend(skills: seq<Skill>, skill: Skill)
    ensures Collect(skills + [skill]) == Collect(skills)[skill.meta.name := skill]
  {
    assert (skills + [skill])[..|skills|] == skills;
  }

  /** The last skill named `name`, if any. */
  function LastNamed(skills: seq<Skill>, name: string): (r: Option<nat>)
    ensures r.Some? ==> r.value < |skills| && skills[r.value].meta.name == name
    ensures r.Some? ==> forall k :: r.value < k < |skills| ==> skills[k].meta.name != name
    ensures r.None? ==> forall k :: 0 <= k < |skills| ==> skills[k].meta.name != name
  {
    if skills == [] then None
    else if skills[|skills| - 1].meta.name == name then Some(|skills| - 1)
    else LastNamed(skills[..|skills| - 1], name)
  }

  /**
   * Later skills take precedence: a name is kept exactly when some skill has it, and it
   * is kept with the last skill that has it; every kept skill is stored under its own name.
   */
  lemma {:induction false} CollectLatest(skills: seq<Skill>, name: string)
    ensures name in Collect(skills) <==> LastNamed(skills, name).Some?
    ensures name in Collect(skills) ==> Collect(skills)[name] == skills[LastNamed(skills, name).value]
    ensures forall k <- Collect(skills) :: Collect(skills)[k].meta.name == k
    decreases |skills|
  {
    if skills != [] {
      CollectLatest(skills[..|skills| - 1], name);
    }
  }

  lemma AllSkillsStep(dirs: seq<seq<Entry>>, d: nat)
    requires d < |dirs|
    ensures AllSkills(dirs[..d + 1]) == AllSkills(dirs[..d]) + DirSkills(dirs[d])
  {
    assert dirs[..d + 1][..d] == dirs[..d];
  }

  /** Strictly increasing by name, so no name twice. */
  predicate SortedByName(skills: seq<Skill>) {
    forall i, j :: 0 <= i < j < |skills| ==> Less(skills[i].meta.name, skills[j].meta.name)
  }

  function InsertByName(sorted: seq<Skill>, skill: Skill): (r: seq<Skill>)
    ensures multiset(r) == multiset(sorted) + multiset{skill}
  {
    if sorted == [] || Less(skill.meta.name, sorted[0].meta.name) then [skill] + sorted
    else
      assert sorted == [sorted[0]] + sorted[1..];
      [sorted[0]] + InsertByName(sorted[1..], skill)
  }

  lemma {:induction false} InsertByNameSorted(sorted: seq<Skill>, skill: Skill)
    requires SortedByName(sorted)
    requires forall t <- sorted :: t.meta.name != skill.meta.name
    ensures SortedByName(InsertByName(sorted, skill))
  {
    if sorted == [] || Less(skill.meta.name, sorted[0].meta.name) {
      forall t <- sorted ensures Less(skill.meta.name, t.meta.name) {
        if t != sorted[0] {
          LessTransitive(skill.meta.name, sorted[0].meta.name, t.meta.name);
        }
      }
      ConsSorted(skill, sorted);
    } else {
      LessTotal(skill.meta.name, sorted[0].meta.name);
      assert SortedByName(sorted[1..]);
      InsertByNameSorted(sorted[1..], skill);
      var rest := InsertByName(sorted[1..], skill);
      forall t <- rest ensures Less(sorted[0].meta.name, t.meta.name) {
        assert t in multiset(rest);
        assert t == skill || t in sorted[1..];
      }
      ConsSorted(sorted[0], rest);
    }
  }

  /** A sorted run stays sorted behind a smaller head. */
  lemma ConsSorted(x: Skill, s: seq<Skill>)
    requires SortedByName(s)
    requires forall t <- s :: Less(x.meta.name, t.meta.name)
    ensures SortedByName([x] + s)
  {
    var r := [x] + s;
    forall i, j | 0 <= i < j < |r| ensures Less(r[i].meta.name, r[j].meta.name) {
      if i == 0 {
        assert r[j] in s;
      } else {
        assert r[i] == s[i - 1] && r[j] == s[j - 1];
      }
    }
  }

  /** One listing entry: a directory whose SKILL.md exists, reads and parses yields a skill. */
  method ReadEntry(entry: Entry) returns (skill: Option<Skill>)
    ensures skill == EntrySkill(entry)
  {
    if !entry.isDir || entry.skillFile.None? {
      return None;
    }
    var parsed := ParseSkillFrontmatter(entry.skillFile.value);
    if parsed.None? {
      return None;
    }
    skill := Some(Skill(parsed.value.0, parsed.value.1, entry.path));
  }

  /** Storing what one entry yields under the skill's name. */
  method StoreEntry(found: map<string, Skill>, entry: Entry, ghost prior: seq<Skill>) returns (found': map<string, Skill>)
    requires found == Collect(prior)
    ensures found' == Collect(prior + DirSkills([entry]))
  {
    var skill := ReadEntry(entry);
    assert DirSkills([entry]) == (match skill case Some(s) => [s] case None => []);
    found' := found;
    if skill.Some? {
      CollectAppend(prior, skill.value);
      found' := found'[skill.value.meta.name := skill.value];
    } else {
      assert prior + DirSkills([entry]) == prior;
    }
  }

  /** A listing's skills after one more entry. */
  lemma DirSkillsAppend(entries: seq<Entry>, e: nat)
    requires e < |entries|
    ensures DirSkills(entries[..e + 1]) == DirSkills(entries[..e]) + DirSkills([entries[e]])
  {
    assert entries[..e + 1][..e] == entries[..e];
    assert [entries[e]][..0] == [];
  }

  /** Reading one directory: each entry's skill is stored under its name. */
  method ReadSkillsDir(found: map<string, Skill>, entries: seq<Entry>, ghost before: seq<Skill>)
    returns (found': map<string, Skill>)
    requires found == Collect(before)
    ensures found' == Collect(before + DirSkills(entries))
  {
    found' := found;
    assert before + DirSkills(entries[..0]) == before;
    for e := 0 to |entries|
      invariant found' == Collect(before + DirSkills(entries[..e]))
    {
      DirSkillsAppend(entries, e);
      found' := StoreEntry(found', entries[e], before + DirSkills(entries[..e]));
      Reassociate(before, DirSkills(entries[..e]), DirSkills([entries[e]]));
    }
    assert entries[..|entries|] == entries;
  }

  /** The stored skills, sorted by name; `found` keeps each skill under its own name. */
  method SortedSkills(found: map<string, Skill>) returns (skills: seq<Skill>)
    requires forall k <- found :: found[k].meta.name == k
    ensures SortedByName(skills)
    ensures forall s :: s in skills <==> s in found.Values
  {
    var names := found.Keys;
    skills := [];
    while names != {}
      invariant names <= found.Keys
      invariant SortedByName(skills)
      invariant forall s <- skills :: s.meta.name in found.Keys - names && found[s.meta.name] == s
      invariant forall n <- found.Keys - names :: found[n] in skills
      decreases |names|
    {
      var n :| n in names;
      InsertByNameSorted(skills, found[n]);
      ghost var previous := skills;
      skills := InsertByName(skills, found[n]);
      forall s ensures s in skills <==> s in previous || s == found[n] {
        assert s in skills <==> s in multiset(skills);
        assert s in previous <==> s in multiset(previous);
      }
      names := names - {n};
    }
    forall s | s in found.Values ensures s in skills {
      var k :| k in found && found[k] == s;
    }
  }

  lemma InsertByNameMembers(sorted: seq<Skill>, skill: Skill)
    ensures forall s :: s in InsertByName(sorted, skill) <==> s in sorted || s == skill
  {
    var r := InsertByName(sorted, skill);
    forall s ensures s in r <==> s in sorted || s == skill {
      assert s in r <==> s in multiset(r);
      assert s in sorted <==> s in multiset(sorted);
    }
  }

  lemma ValuesWithout<K, V>(m: map<K, V>, k: K)
    requires k in m
    ensures forall v :: v in m.Values <==> v in (m - {k}).Values || v == m[k]
  {
    forall v ensures v in m.Values <==> v in (m - {k}).Values || v == m[k] {
      if v in m.Values {
        var j :| j in m && m[j] == v;
        if j != k {
          assert j in m - {k};
        }
      }
      if v in (m - {k}).Values {
        var j :| j in m - {k} && (m - {k})[j] == v;
        assert j in m;
      }
    }
  }

  /**
   * The stored skills in name order. The key picked first does not matter: the list is
   * sorted and holds exactly the stored skills, which determines it (`SortedUnique`).
   */
  ghost function ByName(m: map<string, Skill>): (r: seq<Skill>)
    requires forall k <- m :: m[k].meta.name == k
    ensures SortedByName(r)
    ensures forall s :: s in r <==> s in m.Values
    decreases |m|
  {
    if m == map[] then []
    else
      var k :| k in m;
      var rest := ByName(m - {k});
      InsertByNameSorted(rest, m[k]);
      InsertByNameMembers(rest, m[k]);
      ValuesWithout(m, k);
      InsertByName(rest, m[k])
  }

  /** What `discover_skills` returns: the discovered skills in name order. */
  ghost function DiscoveredByName(dirs: seq<seq<Entry>>): seq<Skill> {
    CollectLatest(AllSkills(dirs), "");
    ByName(Discovered(dirs))
  }

  /**
   * `discover_skills`: read the directories in order, keep each parsed skill under its
   * name so that a later one replaces an earlier one, and return the kept skills sorted
   * by name.
   */
  method DiscoverSkills(dirs: seq<seq<Entry>>) returns (skills: seq<Skill>)
    ensures SortedByName(skills)
    ensures forall s :: s in skills <==> s in Discovered(dirs).Values
    ensures forall k <- Discovered(dirs) :: Discovered(dirs)[k].meta.name == k
    ensures skills == DiscoveredByName(dirs)
  {
    var found: map<string, Skill> := map[];
    for d := 0 to |dirs|
      invariant found == Collect(AllSkills(dirs[..d]))
    {
      found := ReadSkillsDir(found, dirs[d], AllSkills(dirs[..d]));
      AllSkillsStep(dirs, d);
    }
    assert dirs[..|dirs|] == dirs;
    CollectLatest(AllSkills(dirs), "");
    skills := SortedSkills(found);
    SortedUnique(skills, ByName(found));
  }

  /**
   * Every discovered skill is stored under its own name, and is the last skill read
   * under that name; a name is discovered exactly when some directory holds a skill of
   * that name.
   */
  lemma DiscoveredProperties(dirs: seq<seq<Entry>>, name: string)
    ensures var all := AllSkills(dirs);
      && (name in Discovered(dirs) <==> exists s <- all :: s.meta.name == name)
      && (name in Discovered(dirs) ==>
            Discovered(dirs)[name].meta.name == name
            && exists k :: 0 <= k < |all| && all[k] == Discovered(dirs)[name]
                           && forall j :: k < j < |all| ==> all[j].meta.name != name)
  {
    var all := AllSkills(dirs);
    CollectLatest(all, name);
    if name in Discovered(dirs) {
      var k := LastNamed(all, name).value;
      assert all[k] == Discovered(dirs)[name];
    }
  }

  /** Two name-sorted lists holding the same skills are the same list: the sorted result is determined. */
  lemma {:induction false} SortedUnique(a: seq<Skill>, b: seq<Skill>)
    requires SortedByName(a) && SortedByName(b)
    requires forall s :: s in a <==> s in b
    ensures a == b
    decreases |a|
  {
    if a != [] && b != [] {
      if a[0] != b[0] {
        assert a[0] in b && b[0] in a;
        var i :| 0 <= i < |b| && b[i] == a[0];
        var j :| 0 <= j < |a| && a[j] == b[0];
        if a[0].meta.name == b[0].meta.name {
          LessIrreflexive(a[0].meta.name);
        } else {
          LessTotal(a[0].meta.name, b[0].meta.name);
        }
        assert false;
      }
      forall s ensures s in a[1..] <==> s in b[1..] {
        if s in a[1..] {
          var i :| 1 <= i < |a| && a[i] == s;
          LessIrreflexive(a[0].meta.name);
          assert s in b;
        }
        if s in b[1..] {
          var i :| 1 <= i < |b| && b[i] == s;
          LessIrreflexive(b[0].meta.name);
          assert s in a;
        }
      }
      SortedUnique(a[1..], b[1..]);
    } else if a != [] || b != [] {
      HeadIn(a);
      HeadIn(b);
      assert false;
    }
  }

  lemma HeadIn(s: seq<Skill>)
    ensures s != [] ==> s[0] in s
  {
  }

  // ----- eligibility -----

  /** An override with `enabled = false` switches the skill off. */
  predicate Disabled(name: string, overrides: map<string, SkillOverride>) {
    name in overrides && !overrides[name].enabled
  }

  /**
   * A skill is eligible when no override disables it, every binary it requires is one the
   * `which` probe finds (`available`), and every variable it requires reads from the
   * environment (`envSet`).
   */
  predicate Eligible(skill: Skill, overrides: map<string, SkillOverride>, available: set<string>, envSet: set<string>) {
    && !Disabled(skill.meta.name, overrides)
    && (forall bin <- skill.meta.requiresBins :: bin in available)
    && (forall v <- skill.meta.requiresEnv :: v in envSet)
  }

  /** `is_skill_eligible`: the override first, then each binary, then each variable. */
  method IsSkillEligible(skill: Skill, overrides: map<string, SkillOverride>, available: set<string>, envSet: set<string>)
    returns (eligible: bool)
    ensures eligible == Eligible(skill, overrides, available, envSet)
  {
    if skill.meta.name in overrides && !overrides[skill.meta.name].enabled {
      return false;
    }
    var bins := skill.meta.requiresBins;
    for i := 0 to |bins|
      invariant forall k :: 0 <= k < i ==> bins[k] in available
    {
      if bins[i] !in available {
        return false;
      }
    }
    var vars := skill.meta.requiresEnv;
    for i := 0 to |vars|
      invariant forall k :: 0 <= k < i ==> vars[k] in envSet
    {
      if vars[i] !in envSet {
        return false;
      }
    }
    return true;
  }

  /**
   * A skill without requirements is eligible unless disabled; an enabled override counts
   * the same as none; and finding more binaries or variables never makes a skill ineligible.
   */
  lemma EligibleProperties(skill: Skill, overrides: map<string, SkillOverride>, available: set<string>, envSet: set<string>,
                           moreAvailable: set<string>, moreEnv: set<string>)
    requires available <= moreAvailable && envSet <= moreEnv
    ensures skill.meta.requiresBins == [] && skill.meta.requiresEnv == [] ==>
              (Eligible(skill, overrides, available, envSet) <==> !Disabled(skill.meta.name, overrides))
    ensures Eligible(skill, overrides[skill.meta.name := SkillOverride(true)], available, envSet)
            == Eligible(skill, overrides - {skill.meta.name}, available, envSet)
    ensures Eligible(skill, overrides, available, envSet) ==> Eligible(skill, overrides, moreAvailable, moreEnv)
  {
  }

  // ----- context -----

  /**
   * The separator in each skill's heading. The source's literal holds the three
   * characters that an em dash's UTF-8 bytes read as Windows-1252, and the heading
   * carries them as written.
   */
  const HeadingDash := "\U{E2}\U{20AC}\U{201D}"

  const BlockSeparator := "\n\n---\n\n"

  /** One skill's block: a level-3 heading with name and description, a blank line, the instructions. */
  function Block(skill: Skill): string {
    "### " + skill.meta.name + " " + HeadingDash + " " + skill.meta.description + "\n\n" + skill.instructions
  }

  function Blocks(skills: seq<Skill>): (r: seq<string>)
    ensures |r| == |skills| && forall i :: 0 <= i < |skills| ==> r[i] == Block(skills[i])
  {
    seq(|skills|, i requires 0 <= i < |skills| => Block(skills[i]))
  }

  /** What `format_skills_for_context` returns. */
  function SkillsContext(skills: seq<Skill>): string {
    if skills == [] then "" else Join(Blocks(skills), BlockSeparator)
  }

  /** `format_skills_for_context`: one block per skill, in order, separated by horizontal rules. */
  method FormatSkillsForContext(skills: seq<Skill>) returns (r: string)
    ensures r == SkillsContext(skills)
  {
    if skills == [] {
      return "";
    }
    var parts: seq<string> := [];
    for i := 0 to |skills|
      invariant parts == Blocks(skills[..i])
    {
      parts := parts + [Block(skills[i])];
    }
    assert skills[..|skills|] == skills;
    r := Join(parts, BlockSeparator);
  }

  /** The joined blocks begin with the first block. */
  lemma JoinStartsWithFirst(parts: seq<string>, sep: string)
    requires parts != []
    ensures StartsWith(Join(parts, sep), parts[0])
  {
    if |parts| > 1 {
      assert Join(parts, sep) == parts[0] + (sep + Join(parts[1..], sep));
    }
  }

  /** The context is empty exactly when there are no skills; for one skill it is just that skill's block. */
  lemma SkillsContextEmpty(skills: seq<Skill>)
    ensures SkillsContext(skills) == "" <==> skills == []
    ensures |skills| == 1 ==> SkillsContext(skills) == Block(skills[0])
  {
    if skills != [] {
      JoinStartsWithFirst(Blocks(skills), BlockSeparator);
      assert |Block(skills[0])| >= 4;
    }
  }

  /** A non-empty context opens with the first skill's heading. */
  lemma SkillsContextHeading(skills: seq<Skill>)
    requires skills != []
    ensures StartsWith(SkillsContext(skills), "### " + skills[0].meta.name)
  {
    var parts := Blocks(skills);
    JoinStartsWithFirst(parts, BlockSeparator);
    var p := "### " + skills[0].meta.name;
    var tail := " " + HeadingDash + " " + skills[0].meta.description + "\n\n" + skills[0].instructions;
    assert parts[0] == p + tail;
    assert parts[0][..|p|] == p;
  }

  /** The context holds every skill's block. */
  lemma SkillsContextBlocks(skills: seq<Skill>)
    ensures forall skill <- skills :: Contains(SkillsContext(skills), Block(skill))
  {
    if skills != [] {
      var parts := Blocks(skills);
      JoinContainsParts(parts, BlockSeparator);
      forall skill <- skills ensures Contains(SkillsContext(skills), Block(skill)) {
        var i :| 0 <= i < |skills| && skills[i] == skill;
        assert parts[i] == Block(skill);
      }
    }
  }
}
