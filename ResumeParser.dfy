/** The server's heuristic resume parser (`parseResumeText`): each field is looked
    for on its own, and only the fields it finds become keys of the response. */
module ResumeParser {
  import opened Optional
  import opened JsText
  import opened JsValues
  import opened ResumePatterns

  datatype Education = Education(university: string, degree: string, duration: string, details: string)

  datatype Project = Project(title: string, description: string, technologies: string)

  datatype Experience = Experience(jobTitle: string, company: string, duration: string, responsibilities: string)

  /** What `response.experience` holds: no key, one job object, or the empty list of
      the branch taken when the section splits into no blocks. */
  datatype ExperienceEntry = NoExperience | OneJob(job: Experience) | NoJobs

  /** The heuristic result; `None` is a key the parser leaves out. */
  datatype Parsed = Parsed(
    email: Option<string>,
    fullName: Option<string>,
    headline: Option<string>,
    linkedin: Option<string>,
    github: Option<string>,
    careerObjective: Option<string>,
    skills: Option<string>,
    education: Option<Education>,
    projects: seq<Project>,
    experience: ExperienceEntry,
    achievements: Option<seq<string>>)

  const LinkedinPrefix := "https://www.linkedin.com/in/"
  const SkillsStops := ["\n\n", "CERTIFICATIONS"]
  const EducationStops := ["\n\nSKILLS", "\n\nEXPERIENCE"]
  const ProjectsStops := ["\n\nACHIEVEMENTS"]
  const ExperienceStops := ["PROJECTS"]

  // ---------------------------------------------------------------------------
  // Contact fields

  /** The e-mail the parser reports is a piece of the text holding an `@`. */
  lemma EmailShape(text: string)
    requires Find(EmailPattern, text).Some?
    ensures '@' in Find(EmailPattern, text).value
    ensures exists s: nat, e: nat :: s <= e <= |text| && text[s..e] == Find(EmailPattern, text).value
  {
    var s, e := FindSpan(EmailPattern, text);
    var a: nat, b: nat, c: nat, d: nat, f: nat :| EmailSplit(text, s, a, b, c, d, f, e);
    var w := text[s..e];
    assert w == Find(EmailPattern, text).value;
    assert w[b - s] == '@';
  }

  /** Two capitalised words of lower-case letters, one space between them, the
      space at `m`. */
  predicate TwoCapitalisedWords(w: string, m: nat) {
    2 <= m && m + 3 <= |w| && IsUpper(w[0]) && w[m] == ' ' && IsUpper(w[m + 1])
    && forall i :: 0 < i < |w| && i != m && i != m + 1 ==> IsLower(w[i])
  }

  /** The full name the parser reports is two capitalised words. */
  lemma NameShape(text: string)
    requires Find(NamePattern, text).Some?
    ensures exists m: nat :: TwoCapitalisedWords(Find(NamePattern, text).value, m)
  {
    var s, e := FindSpan(NamePattern, text);
    var m: nat :| NameSplit(text, s, m, e);
    var w := text[s..e];
    assert w == Find(NamePattern, text).value;
    assert m - s >= 2 && w[m - s] == ' ';
    forall i | 0 < i < |w| && i != m - s && i != m - s + 1 ensures IsLower(w[i]) {
      if i < m - s {
        assert InClass(Lowercase, text[s + i]);
      } else {
        assert InClass(Lowercase, text[s + i]);
      }
    }
    assert TwoCapitalisedWords(w, m - s);
  }

  /** `text.split('\n')[1]`, kept when it is a non-empty line shorter than 100
      characters without an `@`, and then trimmed. */
  function HeadlineField(text: string): (r: Option<string>)
    ensures r.Some? ==> |r.value| < 100 && '@' !in r.value && '\n' !in r.value
    ensures r.Some? <==> |Split(text, "\n")| >= 2 && Split(text, "\n")[1] != ""
                         && |Split(text, "\n")[1]| < 100 && '@' !in Split(text, "\n")[1]
  {
    var lines := Split(text, "\n");
    SplitDropsSeparator(text, '\n');
    IncludesSingle(if |lines| >= 2 then lines[1] else "", '@');
    if |lines| >= 2 && lines[1] != "" && |lines[1]| < 100 && !Includes(lines[1], "@")
    then Some(Trim(lines[1]))
    else None
  }

  /** On a text made of lines, the headline is the trimmed second line when that
      line qualifies. */
  lemma HeadlineOfLines(xs: seq<string>)
    requires |xs| >= 2 && forall k :: 0 <= k < |xs| ==> '\n' !in xs[k]
    ensures HeadlineField(Join(xs, "\n")) ==
      if xs[1] != "" && |xs[1]| < 100 && '@' !in xs[1] then Some(Trim(xs[1])) else None
  {
    SplitJoinChar(xs, '\n');
  }

  /** `text.match(/linkedin:(.*)/)`: when the rest of that line is not empty, the
      profile address built from it. */
  function LinkedinField(text: string): (r: Option<string>)
    ensures r.Some? <==> Includes(text, "linkedin:") && LabelledRest(text, "linkedin:").value.groups[1] != Some("")
    ensures r.Some? ==> StartsWith(r.value, LinkedinPrefix)
    ensures r.Some? ==> r.value == LinkedinPrefix + Trim(LabelledRest(text, "linkedin:").value.groups[1].value)
    ensures r.Some? ==>
      var handle := r.value[|LinkedinPrefix|..];
      (handle == [] || (!IsSpace(handle[0]) && !IsSpace(handle[|handle| - 1])))
      && forall c :: c in handle ==> !IsLineTerminator(c)
  {
    match LabelledRest(text, "linkedin:")
    case None => None
    case Some(m) =>
      var rest := Group(m, 1).value;
      if rest != "" then
        var handle := Trim(rest);
        assert (LinkedinPrefix + handle)[|LinkedinPrefix|..] == handle;
        Some(LinkedinPrefix + handle)
      else None
  }

  /** `githubUrlMatch || text.match(/github:(.*)/)`, then group 1 trimmed when it is
      set and not empty, else the whole match with `https://` put in front unless
      it already starts with `http`. */
  function GithubField(text: string): (r: Option<string>)
    ensures r.Some? <==> Find(GithubUrlPattern, text).Some? || Includes(text, "github:")
  {
    var found := match GithubUrlMatch(text)
      case Some(m) => Some(m)
      case None => LabelledRest(text, "github:");
    match found
    case None => None
    case Some(m) =>
      var g1 := Group(m, 1);
      if g1.Some? && g1.value != "" then Some(Trim(g1.value))
      else
        var w := Group(m, 0).value;
        Some(if StartsWith(w, "http") then w else "https://" + w)
  }

  /** A GitHub address anywhere wins over a `github:` label, and is reported with a
      scheme. */
  lemma GithubFromUrl(text: string)
    requires Find(GithubUrlPattern, text).Some?
    ensures var w := Find(GithubUrlPattern, text).value;
      GithubField(text) == Some(if StartsWith(w, "http") then w else "https://" + w)
  {
  }

  /** Without an address, a `github:` label gives the trimmed rest of its line, and a
      label with nothing after it gives the literal `https://github:`. */
  lemma GithubFromLabel(text: string)
    requires Find(GithubUrlPattern, text).None? && Includes(text, "github:")
    ensures var rest := LabelledRest(text, "github:").value.groups[1].value;
      GithubField(text) == Some(if rest != "" then Trim(rest) else "https://github:")
  {
    var m := LabelledRest(text, "github:").value;
    assert m.groups[0] == Some("github:" + m.groups[1].value);
    if m.groups[1].value == "" {
      assert "github:" + m.groups[1].value == "github:";
      assert !StartsWith("github:", "http") by { assert "github:"[0] != "http"[0]; }
      assert "https://" + "github:" == "https://github:";
    }
  }

  // ---------------------------------------------------------------------------
  // Career objective

  /** The code as written reads group 2 of a pattern with one capture group, which
      is always `undefined`: the parser never reports a career objective. */
  function CareerObjectiveAsWritten(text: string): (r: Option<string>)
    ensures r.None?
  {
    match CareerObjectiveMatch(text)
    case None => None
    case Some(m) =>
      match Group(m, 2)
      case Some(g) => if g != "" then Some(Trim(g)) else None
      case None => None
  }

  /** The evidently intended reading: group 1, the text under the heading up to the
      next blank line before a capitalised line. */
  function CareerObjectiveField(text: string): (r: Option<string>)
    ensures r.Some? <==> CareerObjectiveMatch(text).Some? && CareerObjectiveMatch(text).value.groups[1] != Some("")
    ensures r.Some? ==> r.value == [] || (!IsSpace(r.value[0]) && !IsSpace(r.value[|r.value| - 1]))
    ensures r.Some? ==> r.value == Trim(CareerObjectiveMatch(text).value.groups[1].value)
  {
    match CareerObjectiveMatch(text)
    case None => None
    case Some(m) =>
      match Group(m, 1)
      case Some(g) => if g != "" then Some(Trim(g)) else None
      case None => None
  }

  /** A short resume on which the two readings differ: the summary is found, but
      only the intended reading reports it. */
  lemma CareerObjectiveDiscrepancy()
    ensures CareerObjectiveAsWritten("SUMMARY\nx\n\nA").None?
    ensures CareerObjectiveField("SUMMARY\nx\n\nA") == Some("x")
  {
    var t := "SUMMARY\nx\n\nA";
    assert !MatchesAtCI(t, 0, "PROFILE") by { assert LowerChar(t[0]) != LowerChar("PROFILE"[0]); }
    assert MatchesAtCI(t, 0, "SUMMARY");
    assert HeadingEnd(t, 0) == Some(7);
    assert RunEnd(t, 8, Spaces) == 8;
    assert RunEnd(t, 7, Spaces) == 8;
    assert !SummaryStopAt(t, 8) by { assert t[8..10] != "\n\n"; }
    assert SummaryStopAt(t, 9) by { assert t[9..11] == "\n\n"; }
    assert FirstSummaryStop(t, 8) == Some(9);
    assert SummaryBody(t, 7, 8) == Some((8, 9));
    assert SummaryFrom(t, 0) == Some((0, 8, 9));
    assert t[8..9] == "x";
    assert CareerObjectiveMatch(t) == Some(RegexMatch([Some(t[0..9]), Some("x")]));
    assert Trim("x") == "x" by {
      assert !IsSpace('x');
      assert Trim("x") != [];
      assert Trim("x")[0] in "x";
    }
  }

  // ---------------------------------------------------------------------------
  // Sections

  /** The body of a section pattern when it matched and is not empty (a match whose
      group is `""` is treated like no match). */
  function FilledSection(text: string, head: string, stops: seq<string>): (r: Option<string>)
    ensures r.Some? <==> SectionBody(text, head, stops).Some? && SectionBody(text, head, stops).value != ""
    ensures r.Some? ==> r.value == SectionBody(text, head, stops).value
  {
    match SectionBody(text, head, stops)
    case Some(b) => if b != "" then Some(b) else None
    case None => None
  }

  /** The skills text: line feeds become `, `, `, ,` collapses to `,`, one comma at
      the very end is dropped, and the result is trimmed. */
  function CleanSkills(body: string): (r: string)
    ensures '\n' !in r
  {
    var joined := ReplaceAll(body, "\n", ", ");
    ReplaceCharRemovesIt(body, '\n', ", ");
    var merged := ReplaceAll(joined, ", ,", ",");
    ReplaceAllKeepsOut(joined, ", ,", ",", '\n');
    var cut := if |merged| > 0 && merged[|merged| - 1] == ',' then merged[..|merged| - 1] else merged;
    Trim(cut)
  }

  /** In a list of comma-free, non-empty pieces joined by `, `, every comma is followed
      by a space and a character that is not a comma. */
  lemma {:induction false} CommaListGaps(xs: seq<string>)
    requires forall k :: 0 <= k < |xs| ==> xs[k] != "" && ',' !in xs[k]
    ensures forall j :: 0 <= j < |Join(xs, ", ")| && Join(xs, ", ")[j] == ',' ==>
      j + 2 < |Join(xs, ", ")| && Join(xs, ", ")[j + 1] == ' ' && Join(xs, ", ")[j + 2] != ','
  {
    if |xs| == 1 {
      forall j | 0 <= j < |xs[0]| ensures xs[0][j] != ',' {
        assert xs[0][j] in xs[0];
      }
    } else if |xs| > 1 {
      CommaListGaps(xs[1..]);
      var rest := Join(xs[1..], ", ");
      var s := Join(xs, ", ");
      var n := |xs[0]|;
      assert s == xs[0] + ", " + rest;
      JoinStartsWithFirst(xs[1..], ", ");
      assert rest[0] == xs[1][0];
      assert xs[1][0] in xs[1];
      forall j | 0 <= j < n ensures s[j] != ',' {
        assert s[j] == xs[0][j];
        assert xs[0][j] in xs[0];
      }
      forall j | n + 2 <= j < |s| ensures s[j] == rest[j - n - 2] { }
      assert s[n] == ',' && s[n + 1] == ' ' && s[n + 2] != ',';
    }
  }

  lemma {:induction false} JoinStartsWithFirst(xs: seq<string>, sep: string)
    requires |xs| >= 1 && |xs[0]| > 0
    ensures |Join(xs, sep)| > 0 && Join(xs, sep)[0] == xs[0][0]
  {
  }

  /** Such a list holds no `, ,` and does not end in a comma. */
  lemma CommaListClean(xs: seq<string>)
    requires |xs| >= 1
    requires forall k :: 0 <= k < |xs| ==> xs[k] != "" && ',' !in xs[k]
    ensures !Includes(Join(xs, ", "), ", ,")
    ensures |Join(xs, ", ")| > 0 && Join(xs, ", ")[|Join(xs, ", ")| - 1] != ','
  {
    var joined := Join(xs, ", ");
    CommaListGaps(xs);
    forall j: nat ensures !MatchesAt(joined, j, ", ,") {
      if j + 3 <= |joined| {
        assert joined[j] != ',' || joined[j + 2] != ',';
        assert joined[j..j + 3][0] == joined[j] && joined[j..j + 3][2] == joined[j + 2];
        assert ", ,"[0] == ',' && ", ,"[2] == ',';
        assert joined[j..j + 3] != ", ,";
      }
    }
    JoinEndsWithLast(xs, ", ");
    var lastPiece := xs[|xs| - 1];
    assert lastPiece[|lastPiece| - 1] in lastPiece;
  }

  /** A skills section with one skill per line becomes the skills joined by `, `. */
  lemma SkillsOfLines(xs: seq<string>)
    requires |xs| >= 1
    requires forall k :: 0 <= k < |xs| ==> xs[k] != "" && ',' !in xs[k] && '\n' !in xs[k]
    ensures CleanSkills(Join(xs, "\n")) == Trim(Join(xs, ", "))
  {
    var body := Join(xs, "\n");
    SplitJoinChar(xs, '\n');
    ReplaceAllIsSplitJoin(body, "\n", ", ");
    var joined := Join(xs, ", ");
    assert ReplaceAll(body, "\n", ", ") == joined;
    CommaListClean(xs);
    ReplaceAllAbsent(joined, ", ,", ",");
  }

  function SkillsField(text: string): (r: Option<string>)
    ensures r.Some? <==> FilledSection(text, "SKILLS\n", SkillsStops).Some?
    ensures r.Some? ==> '\n' !in r.value
  {
    match FilledSection(text, "SKILLS\n", SkillsStops)
    case Some(b) => Some(CleanSkills(b))
    case None => None
  }

  /** The one education entry: university from the first line cut at the comma of
      its tail, degree from the second line up to `(`, duration inside the third
      line's parentheses, details the remaining lines joined by spaces. */
  function EducationOf(body: string): (r: Education)
    ensures '(' !in r.degree
    ensures '\n' !in r.university && '\n' !in r.degree && '\n' !in r.duration && '\n' !in r.details
  {
    var lines := Split(Trim(body), "\n");
    SplitDropsSeparator(Trim(body), '\n');
    var university := Trim(CutCommaTail(lines[0]));
    var degree :=
      if |lines| > 1 then
        SplitDropsSeparator(lines[1], '(');
        SplitKeepsOut(lines[1], "(", '\n');
        Trim(Split(lines[1], "(")[0])
      else "";
    var duration := if |lines| > 2 && ParenGroup(lines[2]).Some? then ParenGroup(lines[2]).value else "";
    var details :=
      if |lines| > 3 then
        JoinKeepsOut(lines[3..], " ", '\n');
        Trim(Join(lines[3..], " "))
      else "";
    Education(university, degree, duration, details)
  }

  /** The university is the first line up to its first comma, when no line break
      follows that comma. */
  lemma UniversityBeforeComma(name: string, tail: string)
    requires ',' !in name
    requires forall c :: c in tail ==> !IsLineTerminator(c)
    ensures CutCommaTail(name + "," + tail) == name
  {
    var u := name + "," + tail;
    assert CommaTailAt(u, |name|) by {
      forall m | |name| < m < |u| ensures !IsLineTerminator(u[m]) {
        assert u[m] == tail[m - |name| - 1];
      }
    }
    forall d: nat | d < |name| ensures !CommaTailAt(u, d) {
      assert u[d] == name[d];
    }
    assert u[..|name|] == name;
  }

  function EducationField(text: string): (r: Option<Education>)
    ensures r.Some? <==> FilledSection(text, "EDUCATION\n", EducationStops).Some?
  {
    match FilledSection(text, "EDUCATION\n", EducationStops)
    case Some(b) => Some(EducationOf(b))
    case None => None
  }

  // ---------------------------------------------------------------------------
  // Projects

  /** A line naming the technologies: it contains `skills used:` or `technologies:`,
      case ignored. */
  predicate TechLine(line: string) {
    Includes(ToLower(line), "skills used:") || Includes(ToLower(line), "technologies:")
  }

  /** `line.split(':')[1]?.trim() || ''`. */
  function TechValue(line: string): string {
    var parts := Split(line, ":");
    if |parts| > 1 then Trim(parts[1]) else ""
  }

  /** A technologies line `key: value` yields the trimmed value. */
  lemma TechValueOfLine(key: string, value: string)
    requires ':' !in key && ':' !in value
    ensures TechValue(key + ":" + value) == Trim(value)
  {
    assert Join([key, value], ":") == key + ":" + value;
    SplitJoinChar([key, value], ':');
  }

  /** What the loop has put into `description` after the given lines: each line that
      is not a technologies line, followed by a space. */
  function DescriptionOf(lines: seq<string>): string {
    if lines == [] then ""
    else
      var last := lines[|lines| - 1];
      DescriptionOf(lines[..|lines| - 1]) + (if TechLine(last) then "" else last + " ")
  }

  /** What the loop has put into `technologies` after the given lines. */
  function TechnologiesOf(lines: seq<string>): string {
    if lines == [] then ""
    else
      var last := lines[|lines| - 1];
      if TechLine(last) then TechValue(last) else TechnologiesOf(lines[..|lines| - 1])
  }

  /** The lines that go into the description, in order. */
  function DescriptionLines(lines: seq<string>): (r: seq<string>)
    ensures |r| <= |lines|
    ensures forall x :: x in r ==> x in lines && !TechLine(x)
    ensures forall x :: x in lines && !TechLine(x) ==> x in r
  {
    if lines == [] then []
    else
      var last := lines[|lines| - 1];
      var init := lines[..|lines| - 1];
      assert lines == init + [last];
      DescriptionLines(init) + (if TechLine(last) then [] else [last])
  }

  /** The description is the description lines joined by spaces (before the final
      trim, with one more space at the end). */
  lemma {:induction false} DescriptionIsJoin(lines: seq<string>)
    ensures DescriptionOf(lines) ==
      if DescriptionLines(lines) == [] then "" else Join(DescriptionLines(lines), " ") + " "
  {
    if lines != [] {
      var last := lines[|lines| - 1];
      var init := lines[..|lines| - 1];
      var before := DescriptionLines(init);
      DescriptionIsJoin(init);
      if TechLine(last) {
        assert DescriptionLines(lines) == before + [];
        assert before + [] == before;
      } else if before == [] {
        assert DescriptionLines(lines) == [] + [last];
        assert [] + [last] == [last];
        assert DescriptionOf(lines) == "" + (last + " ");
      } else {
        assert DescriptionLines(lines) == before + [last];
        JoinSnoc(before, " ", last);
        assert DescriptionOf(lines) == (Join(before, " ") + " ") + (last + " ");
      }
    }
  }

  /** The last technologies line decides the technologies; without one they are empty. */
  lemma {:induction false} LastTechLineWins(lines: seq<string>, k: nat)
    requires k < |lines| && TechLine(lines[k])
    requires forall j :: k < j < |lines| ==> !TechLine(lines[j])
    ensures TechnologiesOf(lines) == TechValue(lines[k])
  {
    if k < |lines| - 1 {
      LastTechLineWins(lines[..|lines| - 1], k);
    }
  }

  lemma {:induction false} NoTechLine(lines: seq<string>)
    requires forall j :: 0 <= j < |lines| ==> !TechLine(lines[j])
    ensures TechnologiesOf(lines) == ""
  {
    if lines != [] {
      NoTechLine(lines[..|lines| - 1]);
    }
  }

  /** One project block: title from the first line, the rest by `DescriptionOf` and
      `TechnologiesOf`. */
  function ProjectOf(block: string): Project {
    var lines := Split(block, "\n");
    Project(Trim(lines[0]), Trim(DescriptionOf(lines[1..])), TechnologiesOf(lines[1..]))
  }

  /** One turn of the loop over a block's lines. */
  lemma ProjectLoopStep(rest: seq<string>, i: nat)
    requires i < |rest|
    ensures DescriptionOf(rest[..i + 1]) == DescriptionOf(rest[..i]) + (if TechLine(rest[i]) then "" else rest[i] + " ")
    ensures TechnologiesOf(rest[..i + 1]) == if TechLine(rest[i]) then TechValue(rest[i]) else TechnologiesOf(rest[..i])
  {
    assert rest[..i + 1][..i] == rest[..i];
  }

  /** The loop over the lines after a block's title. */
  method ScanProjectLines(rest: seq<string>) returns (description: string, technologies: string)
    ensures description == DescriptionOf(rest)
    ensures technologies == TechnologiesOf(rest)
  {
    description := "";
    technologies := "";
    for i := 0 to |rest|
      invariant description == DescriptionOf(rest[..i])
      invariant technologies == TechnologiesOf(rest[..i])
    {
      var line := rest[i];
      ProjectLoopStep(rest, i);
      if TechLine(line) {
        technologies := TechValue(line);
      } else {
        description := description + line + " ";
      }
    }
    assert rest[..|rest|] == rest;
  }

  /** The callback of `projectBlocks.map`: the title line, then the loop over the rest. */
  method ParseProjectBlock(block: string) returns (p: Project)
    ensures p == ProjectOf(block)
    ensures '\n' !in p.title
  {
    var lines := Split(block, "\n");
    var title := Trim(lines[0]);
    var description, technologies := ScanProjectLines(lines[1..]);
    p := Project(title, Trim(description), technologies);
    ProjectTitleOneLine(block);
  }

  /** A project title never spans two lines. */
  lemma ProjectTitleOneLine(block: string)
    ensures '\n' !in ProjectOf(block).title
  {
    SplitDropsSeparator(block, '\n');
  }

  /** One project per block of the trimmed section, blocks separated by blank lines. */
  function ProjectBlocks(text: string): (r: seq<string>)
    ensures FilledSection(text, "PROJECTS\n", ProjectsStops).None? ==> r == []
    ensures FilledSection(text, "PROJECTS\n", ProjectsStops).Some? ==> |r| >= 1
    ensures forall k :: 0 <= k < |r| ==> !Includes(r[k], "\n\n")
  {
    match FilledSection(text, "PROJECTS\n", ProjectsStops)
    case Some(b) => Split(Trim(b), "\n\n")
    case None => []
  }

  function ProjectsField(text: string): (r: seq<Project>)
    ensures |r| == |ProjectBlocks(text)|
    ensures forall k :: 0 <= k < |r| ==> r[k] == ProjectOf(ProjectBlocks(text)[k])
  {
    var blocks := ProjectBlocks(text);
    seq(|blocks|, k requires 0 <= k < |blocks| => ProjectOf(blocks[k]))
  }

  // ---------------------------------------------------------------------------
  // Experience

  /** The first block of the section, when it has at least two lines: the company
      before the first two-space gap of line one, job title and duration either
      side of the gap of line two, responsibilities the lines after. */
  function ExperienceOf(body: string): (r: ExperienceEntry)
    ensures r.OneJob? ==> '\n' !in r.job.company && '\n' !in r.job.jobTitle && '\n' !in r.job.duration
    ensures |Split(Trim(body), "\n\n")| >= 1
    ensures var first := Split(Split(Trim(body), "\n\n")[0], "\n");
      (r.OneJob? <==> |first| >= 2) && (r.OneJob? ==>
        r.job == Experience(JobTitleOf(first[1]), CompanyOf(first[0]), DurationOf(first[1]), Trim(Join(first[2..], "\n"))))
  {
    var parts := Split(Trim(body), "\n\n");
    if |parts| > 0 then
      var first := Split(parts[0], "\n");
      SplitDropsSeparator(parts[0], '\n');
      if |first| >= 2 then
        var company := CompanyOf(first[0]);
        var jobTitle := JobTitleOf(first[1]);
        var duration := DurationOf(first[1]);
        var responsibilities := Trim(Join(first[2..], "\n"));
        OneJob(Experience(jobTitle, company, duration, responsibilities))
      else NoExperience
    else NoJobs
  }

  /** The company: the first line up to its first two-space gap, or the whole line
      when it has none, trimmed. */
  function CompanyOf(line: string): (r: string)
    ensures '\n' !in line ==> '\n' !in r
    ensures (forall s: nat, j: nat :: !GapAt(line, s, j)) ==> r == Trim(line)
    ensures CompanyMatch(line).Some? ==> r == Trim(line[GapFrom(line, 0).value.0..GapFrom(line, 0).value.1])
  {
    match CompanyMatch(line)
    case Some(m) => Trim(Group(m, 1).value)
    case None => Trim(line)
  }

  /** The job title: the second line up to its first two-space gap, trimmed; empty
      when the line has no gap. */
  function JobTitleOf(line: string): (r: string)
    ensures '\n' !in r
    ensures (forall s: nat, j: nat :: !GapAt(line, s, j)) ==> r == ""
    ensures TitleDurationMatch(line).Some? ==> r == Trim(line[GapFrom(line, 0).value.0..GapFrom(line, 0).value.1])
  {
    var td := TitleDurationMatch(line);
    if td.Some? then Trim(td.value.groups[1].value) else ""
  }

  /** The duration: what follows the gap of the second line, trimmed; empty when
      the line has no gap. */
  function DurationOf(line: string): (r: string)
    ensures '\n' !in r
    ensures (forall s: nat, j: nat :: !GapAt(line, s, j)) ==> r == ""
    ensures TitleDurationMatch(line).Some? ==>
      var k := RunEnd(line, GapFrom(line, 0).value.1, Spaces);
      r == Trim(line[k..LineEnd(line, k)])
  {
    var td := TitleDurationMatch(line);
    if td.Some? then Trim(td.value.groups[2].value) else ""
  }

  /** On a line whose first two-whitespace gap starts at `j`, the company is the
      trimmed text before the gap. */
  lemma CompanyAtFirstGap(line: string, j: nat)
    requires FirstGapAt(line, j)
    ensures CompanyOf(line) == Trim(line[..j])
  {
    GapFromStart(line, j);
    assert line[0..j] == line[..j];
  }

  /** On a line whose first two-whitespace gap starts at `j`, the job title is the
      trimmed text before the gap. */
  lemma JobTitleAtFirstGap(line: string, j: nat)
    requires FirstGapAt(line, j)
    ensures JobTitleOf(line) == Trim(line[..j])
  {
    GapFromStart(line, j);
    assert line[0..j] == line[..j];
  }

  /** On a line whose first two-whitespace gap starts at `j`, the duration is the
      trimmed text after the whole whitespace run. */
  lemma DurationAtFirstGap(line: string, j: nat)
    requires FirstGapAt(line, j)
    requires forall m :: 0 <= m < |line| ==> !IsLineTerminator(line[m])
    ensures DurationOf(line) == Trim(line[RunEnd(line, j, Spaces)..])
  {
    GapFromStart(line, j);
    assert TitleDurationMatch(line).Some? by { assert GapAt(line, 0, j); }
    var k := RunEnd(line, j, Spaces);
    LineEndOfLine(line, k);
    assert line[k..LineEnd(line, k)] == line[k..];
  }

  /** A line without a line terminator runs to its end. */
  lemma LineEndOfLine(line: string, k: nat)
    requires k <= |line| && forall m :: 0 <= m < |line| ==> !IsLineTerminator(line[m])
    ensures LineEnd(line, k) == |line|
  {
  }

  /** On a line without a gap, the company is the whole line trimmed and the job title
      and duration are empty. */
  lemma FieldsWithoutGap(line: string)
    requires forall j :: 0 <= j < |line| ==> !TwoSpacesAt(line, j)
    ensures CompanyOf(line) == Trim(line)
    ensures JobTitleOf(line) == "" && DurationOf(line) == ""
  {
    assert forall s: nat, j: nat :: !GapAt(line, s, j);
  }

  /** The branch that stores an empty experience list is never taken: a split always
      yields at least one block. */
  lemma ExperienceNeverEmptyList(body: string)
    ensures ExperienceOf(body) != NoJobs
  {
  }

  function ExperienceField(text: string): (r: ExperienceEntry)
    ensures FilledSection(text, "EXPERIENCE", ExperienceStops).None? ==> r == NoExperience
    ensures FilledSection(text, "EXPERIENCE", ExperienceStops).Some? ==> r == ExperienceOf(FilledSection(text, "EXPERIENCE", ExperienceStops).value)
    ensures r != NoJobs
  {
    match FilledSection(text, "EXPERIENCE", ExperienceStops)
    case Some(b) => ExperienceOf(b)
    case None => NoExperience
  }

  // ---------------------------------------------------------------------------
  // Achievements

  /** `filter(Boolean)` on strings: the non-empty ones, in order. */
  function NonEmpty(xs: seq<string>): (r: seq<string>)
    ensures |r| <= |xs|
    ensures forall x :: x in r ==> x != "" && x in xs
    ensures forall x :: x in xs && x != "" ==> x in r
  {
    if xs == [] then []
    else (if xs[0] != "" then [xs[0]] else []) + NonEmpty(xs[1..])
  }

  /** One string is kept exactly when it is not empty. */
  lemma NonEmptySingle(x: string)
    ensures NonEmpty([x]) == if x != "" then [x] else []
  {
    assert [x][1..] == [];
  }

  /** The filter keeps order and multiplicity: filtering a concatenation is
      concatenating the filtered parts. */
  lemma {:induction false} NonEmptyAppend(xs: seq<string>, ys: seq<string>)
    ensures NonEmpty(xs + ys) == NonEmpty(xs) + NonEmpty(ys)
  {
    if xs == [] {
      assert xs + ys == ys;
    } else {
      assert (xs + ys)[1..] == xs[1..] + ys;
      NonEmptyAppend(xs[1..], ys);
    }
  }

  function AchievementsField(text: string): (r: Option<seq<string>>)
    ensures r.Some? <==> RestAfter(text, "ACHIEVEMENTS\n").Some? && RestAfter(text, "ACHIEVEMENTS\n").value != ""
    ensures r.Some? ==> forall x :: x in r.value ==> x != "" && '\n' !in x
    ensures r.Some? ==> r.value == NonEmpty(Split(Trim(RestAfter(text, "ACHIEVEMENTS\n").value), "\n"))
  {
    match RestAfter(text, "ACHIEVEMENTS\n")
    case Some(rest) =>
      if rest != "" then
        SplitDropsSeparator(Trim(rest), '\n');
        Some(NonEmpty(Split(Trim(rest), "\n")))
      else None
    case None => None
  }

  // ---------------------------------------------------------------------------
  // The whole parse

  function Extract(text: string): Parsed {
    Parsed(
      Find(EmailPattern, text),
      Find(NamePattern, text),
      HeadlineField(text),
      LinkedinField(text),
      GithubField(text),
      CareerObjectiveAsWritten(text),
      SkillsField(text),
      EducationField(text),
      ProjectsField(text),
      ExperienceField(text),
      AchievementsField(text))
  }

  function EducationJson(e: Education): Val {
    Obj(map["university" := Str(e.university), "degree" := Str(e.degree),
            "duration" := Str(e.duration), "details" := Str(e.details)])
  }

  function ProjectJson(p: Project): Val {
    Obj(map["title" := Str(p.title), "description" := Str(p.description), "technologies" := Str(p.technologies)])
  }

  function ExperienceJson(x: Experience): Val {
    Obj(map["jobTitle" := Str(x.jobTitle), "company" := Str(x.company),
            "duration" := Str(x.duration), "responsibilities" := Str(x.responsibilities)])
  }

  function ProjectList(ps: seq<Project>): seq<Val> {
    seq(|ps|, k requires 0 <= k < |ps| => ProjectJson(ps[k]))
  }

  /** Adds `k` when the value is present. */
  function Put(m: map<string, Val>, k: string, v: Option<Val>): map<string, Val> {
    if v.Some? then m[k := v.value] else m
  }

  function StrOpt(o: Option<string>): Option<Val> {
    if o.Some? then Some(Str(o.value)) else None
  }

  /** The response object the parser returns for a parse result. */
  function ToJson(p: Parsed): map<string, Val> {
    var m8 := ToJsonUpTo(p);
    var m9 := Put(m8, "experience",
      match p.experience
      case NoExperience => None
      case OneJob(x) => Some(ExperienceJson(x))
      case NoJobs => Some(Arr([])));
    Put(m9, "achievements", if p.achievements.Some? then Some(Arr(Strs(p.achievements.value))) else None)
  }

  /** `projectBlocks.map(...)`: one project per block, in order. */
  method ParseProjects(blocks: seq<string>) returns (projects: seq<Project>)
    ensures |projects| == |blocks|
    ensures forall k :: 0 <= k < |blocks| ==> projects[k] == ProjectOf(blocks[k])
  {
    projects := [];
    for k := 0 to |blocks|
      invariant |projects| == k
      invariant forall j :: 0 <= j < k ==> projects[j] == ProjectOf(blocks[j])
    {
      var p := ParseProjectBlock(blocks[k]);
      assert (projects + [p])[..k] == projects;
      projects := projects + [p];
    }
  }

  /** Which keys the response holds: `projects` always, every other key exactly when
      its field was found, and the experience entry as built by the parser. */
  lemma ToJsonKeys(p: Parsed)
    ensures "projects" in ToJson(p) && ToJson(p)["projects"] == Arr(ProjectList(p.projects))
    ensures "experience" in ToJson(p) <==> !p.experience.NoExperience?
    ensures p.experience.OneJob? ==> ToJson(p)["experience"] == ExperienceJson(p.experience.job)
    ensures "careerObjective" in ToJson(p) <==> p.careerObjective.Some?
    ensures "achievements" in ToJson(p) <==> p.achievements.Some?
  {
    var m8 := ToJsonUpTo(p);
    var m9 := Put(m8, "experience",
      match p.experience
      case NoExperience => None
      case OneJob(x) => Some(ExperienceJson(x))
      case NoJobs => Some(Arr([])));
    assert ToJson(p) == Put(m9, "achievements", if p.achievements.Some? then Some(Arr(Strs(p.achievements.value))) else None);
    assert "projects" != "experience" && "projects" != "achievements" && "experience" != "achievements";
  }

  /** The response before `experience` and `achievements` are set. */
  function ToJsonUpTo(p: Parsed): (m8: map<string, Val>)
    ensures "projects" in m8 && m8["projects"] == Arr(ProjectList(p.projects))
    ensures "experience" !in m8 && "achievements" !in m8
    ensures "careerObjective" in m8 <==> p.careerObjective.Some?
  {
    var m0 := Put(map[], "email", StrOpt(p.email));
    var m1 := Put(m0, "fullName", StrOpt(p.fullName));
    var m2 := Put(m1, "headline", StrOpt(p.headline));
    var m3 := Put(m2, "linkedin", StrOpt(p.linkedin));
    var m4 := Put(m3, "github", StrOpt(p.github));
    var m5 := Put(m4, "careerObjective", StrOpt(p.careerObjective));
    var m6 := Put(m5, "skills", StrOpt(p.skills));
    var m7 := Put(m6, "education", if p.education.Some? then Some(Arr([EducationJson(p.education.value)])) else None);
    m7["projects" := Arr(ProjectList(p.projects))]
  }

  /** The parser's response always lists projects; an experience it holds is a single
      object, never a list; it never holds a career objective. */
  lemma ResponseShape(text: string)
    ensures "projects" in ToJson(Extract(text)) && ToJson(Extract(text))["projects"].Arr?
    ensures "experience" in ToJson(Extract(text)) ==> ToJson(Extract(text))["experience"].Obj?
    ensures "careerObjective" !in ToJson(Extract(text))
  {
    ToJsonKeys(Extract(text));
  }

  /** `if (found) response.key = value`. */
  method SetIfFound(response: map<string, Val>, key: string, found: Option<Val>) returns (r: map<string, Val>)
    ensures r == Put(response, key, found)
  {
    r := response;
    if found.Some? {
      r := r[key := found.value];
    }
  }

  /** `parseResumeText`: the response is filled key by key. */
  method ParseResumeText(text: string) returns (response: map<string, Val>)
    ensures response == ToJson(Extract(text))
    ensures "careerObjective" !in response
  {
    response := map[];
    var emailMatch := Find(EmailPattern, text);
    response := SetIfFound(response, "email", StrOpt(emailMatch));
    var nameMatch := Find(NamePattern, text);
    response := SetIfFound(response, "fullName", StrOpt(nameMatch));
    var headline := HeadlineField(text);
    response := SetIfFound(response, "headline", StrOpt(headline));
    var linkedin := LinkedinField(text);
    response := SetIfFound(response, "linkedin", StrOpt(linkedin));
    var github := GithubField(text);
    response := SetIfFound(response, "github", StrOpt(github));
    var careerObjective := CareerObjectiveAsWritten(text);
    response := SetIfFound(response, "careerObjective", StrOpt(careerObjective));
    var skills := SkillsField(text);
    response := SetIfFound(response, "skills", StrOpt(skills));
    var education := EducationField(text);
    response := SetIfFound(response, "education",
      if education.Some? then Some(Arr([EducationJson(education.value)])) else None);
    var projects := ParseProjects(ProjectBlocks(text));
    assert projects == ProjectsField(text);
    response := response["projects" := Arr(ProjectList(projects))];
    var experience := ExperienceField(text);
    response := SetIfFound(response, "experience",
      match experience
      case NoExperience => None
      case OneJob(x) => Some(ExperienceJson(x))
      case NoJobs => Some(Arr([])));
    var achievements := AchievementsField(text);
    response := SetIfFound(response, "achievements",
      if achievements.Some? then Some(Arr(Strs(achievements.value))) else None);
  }
}
