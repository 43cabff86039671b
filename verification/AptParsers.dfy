/**
 Two readers of `apt` output that must agree: the one for hosts reached over SSH
 (app/package_managers.py, `AptPackageManager.parse`, `_apt_applicable_names`) and the one for
 containers reached through `pct exec` (app/proxmox_client.py, the parser in `get_lxc_updates`).
 */
module AptParsers {
  import opened Options
  import opened Text

  datatype Reason = NeedsFullUpgrade | Phased

  datatype Package = Package(name: string, current: string, available: string, heldBack: bool, reason: Option<Reason>)

  /** What the simulations say will be installed; None where a section is missing. */
  datatype Plan = Plan(applicable: Option<set<string>>, full: Option<set<string>>)

  const APPLY: string := "__APPLY__"
  const FULL: string := "__FULL__"
  const REBOOT: string := "__REBOOT__"

  // ------------------------------------------------------------------
  // Simulations
  // ------------------------------------------------------------------

  function Trim(s: string): string {
    RTrim(LTrim(s))
  }

  /** The package an `Inst <name> …` line plans to install. */
  function Installed(line: string): Option<string> {
    var words := Words(Trim(line));
    if "Inst " <= Trim(line) && |words| >= 2 then Some(words[1]) else None
  }

  function InstalledIn(lines: seq<string>): set<string> {
    if lines == [] then {}
    else InstalledIn(lines[..|lines| - 1])
         + if Installed(lines[|lines| - 1]).Some? then {Installed(lines[|lines| - 1]).value} else {}
  }

  /** A name is planned exactly when some line plans its install. */
  lemma {:induction false} InstalledExactly(lines: seq<string>, name: string)
    ensures name in InstalledIn(lines) <==> exists k :: 0 <= k < |lines| && Installed(lines[k]) == Some(name)
  {
    if lines != [] {
      var n := |lines| - 1;
      var front := lines[..n];
      InstalledExactly(front, name);
      if k :| 0 <= k < n && Installed(lines[k]) == Some(name) {
        assert Installed(front[k]) == Some(name);
      }
      if name in InstalledIn(front) {
        var k :| 0 <= k < n && Installed(front[k]) == Some(name);
        assert Installed(lines[k]) == Some(name);
      }
    }
  }

  method ApplicableNames(lines: seq<string>) returns (names: set<string>)
    ensures names == InstalledIn(lines)
    ensures forall name :: name in names <==> exists k :: 0 <= k < |lines| && Installed(lines[k]) == Some(name)
  {
    names := {};
    for i := 0 to |lines|
      invariant names == InstalledIn(lines[..i])
    {
      assert lines[..i + 1][..i] == lines[..i];
      if Installed(lines[i]).Some? {
        names := names + {Installed(lines[i]).value};
      }
    }
    assert lines[..|lines|] == lines;
    forall name
      ensures name in names <==> exists k :: 0 <= k < |lines| && Installed(lines[k]) == Some(name)
    {
      InstalledExactly(lines, name);
    }
  }

  /** `text.splitlines()` for text whose lines end in newlines. */
  function Lines(text: string): seq<string>
    decreases |text|
  {
    match Cut(text, '\n')
    case None => if text == "" then [] else [text]
    case Some((line, rest)) => CutOfNone(text, '\n'); [line] + Lines(rest)
  }

  // ------------------------------------------------------------------
  // One upgradable line, read twice
  // ------------------------------------------------------------------

  function Verdict(plan: Plan, name: string): (bool, Option<Reason>) {
    var held := plan.applicable.Some? && name !in plan.applicable.value;
    (held, if !held || plan.full.None? then None
           else if name in plan.full.value then Some(NeedsFullUpgrade)
           else Some(Phased))
  }

  function Judged(plan: Plan, name: string, current: string, available: string): Package {
    Package(name, current, available, Verdict(plan, name).0, Verdict(plan, name).1)
  }

  function BeforeSlash(s: string): string {
    match Cut(s, '/') case None => s case Some((before, _)) => before
  }

  /** The host parser: a line counts when it says what it is upgradable from. */
  function HostLine(plan: Plan, line: string): Option<Package> {
    if AfterLast(line, HOST_MARKER).None? then None
    else
      var words := Words(line);
      Some(Judged(plan, BeforeSlash(line),
                  if |words| > 3 then RStrip(words[|words| - 1], ']') else "?",
                  if |words| > 1 then words[1] else "?"))
  }

  /** The container parser: a line counts unless it is blank, a heading, or a single word. */
  function LxcLine(plan: Plan, raw: string): Option<Package> {
    var line := Trim(raw);
    var words := Words(line);
    if line == "" || "Listing" <= line || |words| < 2 then None
    else
      var tail := AfterLast(line, LXC_MARKER);
      Some(Judged(plan, BeforeSlash(words[0]), if tail.Some? then RStrip(Trim(tail.value), ']') else "", words[1]))
  }

  // ------------------------------------------------------------------
  // Whole output
  // ------------------------------------------------------------------

  function HostPackages(plan: Plan, lines: seq<string>): seq<Package> {
    if lines == [] then []
    else HostPackages(plan, lines[..|lines| - 1])
         + match HostLine(plan, lines[|lines| - 1]) case None => [] case Some(p) => [p]
  }

  function LxcPackages(plan: Plan, lines: seq<string>): seq<Package> {
    if lines == [] then []
    else LxcPackages(plan, lines[..|lines| - 1])
         + match LxcLine(plan, lines[|lines| - 1]) case None => [] case Some(p) => [p]
  }

  /** The host parser's cuts: the list, and the plan of the sections that are there. */
  function HostSections(stdout: string): (string, Plan) {
    var body := match Partition(stdout, REBOOT) case None => stdout case Some((b, _)) => b;
    match Partition(body, APPLY)
    case None => (body, Plan(None, None))
    case Some((list, apply)) =>
      match Partition(apply, FULL)
      case None => (list, Plan(Some(InstalledIn(Lines(apply))), None))
      case Some((upgrade, full)) => (list, Plan(Some(InstalledIn(Lines(upgrade))), Some(InstalledIn(Lines(full)))))
  }

  /** The container parser's cuts; its command prints no reboot section. */
  function LxcSections(stdout: string): (string, Plan) {
    var (list, apply) := match Partition(stdout, APPLY) case None => (stdout, "") case Some(p) => p;
    var (upgrade, full) := match Partition(apply, FULL) case None => (apply, None) case Some((u, f)) => (u, Some(f));
    (list, Plan(if Partition(stdout, APPLY).Some? then Some(InstalledIn(Lines(upgrade))) else None,
                match full case None => None case Some(f) => Some(InstalledIn(Lines(f)))))
  }

  /** What the host parser makes of a whole output. */
  function HostResult(stdout: string): seq<Package> {
    HostPackages(HostSections(stdout).1, Lines(HostSections(stdout).0))
  }

  function LxcResult(stdout: string): seq<Package> {
    LxcPackages(LxcSections(stdout).1, Lines(LxcSections(stdout).0))
  }

  method ParseHost(stdout: string) returns (packages: seq<Package>)
    ensures packages == HostResult(stdout)
  {
    var (list, plan) := HostSections(stdout);
    var lines := Lines(list);
    packages := [];
    for i := 0 to |lines|
      invariant packages == HostPackages(plan, lines[..i])
    {
      assert lines[..i + 1][..i] == lines[..i];
      match HostLine(plan, lines[i])
      case None =>
      case Some(p) => packages := packages + [p];
    }
    assert lines[..|lines|] == lines;
  }

  method ParseLxc(stdout: string) returns (packages: seq<Package>)
    ensures packages == LxcResult(stdout)
  {
    var (list, plan) := LxcSections(stdout);
    var lines := Lines(list);
    packages := [];
    for i := 0 to |lines|
      invariant packages == LxcPackages(plan, lines[..i])
    {
      assert lines[..i + 1][..i] == lines[..i];
      match LxcLine(plan, lines[i])
      case None =>
      case Some(p) => packages := packages + [p];
    }
    assert lines[..|lines|] == lines;
  }

  // ------------------------------------------------------------------
  // Agreement
  // ------------------------------------------------------------------

  /** One row of `apt list --upgradable`. */
  datatype Row = Row(name: string, suite: string, version: string, arch: string, current: string)

  predicate Word(s: string) {
    s != "" && NoSpaces(s)
  }

  predicate WellFormed(r: Row) {
    && Word(r.name) && '/' !in r.name && NoSpaces(r.suite) && Word(r.version) && Word(r.arch)
    && Word(r.current) && r.current[|r.current| - 1] != ']'
  }

  function RowTail(r: Row): string {
    r.version + " " + (r.arch + " " + ("[upgradable" + " " + ("from:" + " " + (r.current + "]"))))
  }

  function RowText(r: Row): string {
    r.name + "/" + r.suite + " " + RowTail(r)
  }

  /** What both parsers should make of a row. */
  function Expected(plan: Plan, r: Row): Package {
    Judged(plan, r.name, r.current, r.version)
  }

  lemma MarkerWords(current: string)
    requires Word(current + "]")
    ensures Words("[upgradable" + " " + ("from:" + " " + (current + "]"))) == ["[upgradable"] + (["from:"] + [current + "]"])
  {
    WordsOfOne(current + "]");
    WordsOfMore("from:", current + "]");
    WordsOfMore("[upgradable", "from:" + " " + (current + "]"));
  }

  lemma TailWords(version: string, arch: string, marker: string)
    requires Word(version) && Word(arch)
    ensures Words(version + " " + (arch + " " + marker)) == [version] + ([arch] + Words(marker))
  {
    WordsOfMore(arch, marker);
    WordsOfMore(version, arch + " " + marker);
  }

  lemma RowWords(r: Row)
    requires WellFormed(r)
    ensures Words(RowText(r)) == [r.name + "/" + r.suite, r.version, r.arch, "[upgradable", "from:", r.current + "]"]
  {
    MarkerWords(r.current);
    TailWords(r.version, r.arch, "[upgradable" + " " + ("from:" + " " + (r.current + "]")));
    WordsOfMore(r.name + "/" + r.suite, RowTail(r));
  }

  lemma RowHead(r: Row)
    requires WellFormed(r)
    ensures BeforeSlash(RowText(r)) == r.name && BeforeSlash(r.name + "/" + r.suite) == r.name
  {
    CutOfJoin(r.name, '/', r.suite + " " + RowTail(r));
    CutOfJoin(r.name, '/', r.suite);
    assert RowText(r) == r.name + "/" + (r.suite + " " + RowTail(r));
  }

  lemma RowOld(r: Row)
    requires WellFormed(r)
    ensures RStrip(r.current + "]", ']') == r.current
  {
    assert (r.current + "]")[..|r.current|] == r.current;
  }

  /** Behind the marker there is only the old version and the closing bracket. */
  lemma MarkerFound(before: string, marker: string, r: Row)
    requires WellFormed(r) && FirstCharOnce(marker) && ' ' in marker && marker[0] != ' '
    ensures AfterLast(before + marker + (" " + (r.current + "]")), marker) == Some(" " + (r.current + "]"))
  {
    var rest := " " + (r.current + "]");
    assert rest[1..] == r.current + "]" && rest[0] == ' ';
    AfterLastMisses(r.current + "]", marker, ' ');
    AfterLastFinds(before, marker, rest);
  }

  const HOST_MARKER: string := "[upgradable from:"
  const LXC_MARKER: string := "upgradable from:"

  lemma MarkersStartOnce()
    ensures FirstCharOnce(HOST_MARKER) && ' ' in HOST_MARKER && HOST_MARKER[0] != ' '
    ensures FirstCharOnce(LXC_MARKER) && ' ' in LXC_MARKER && LXC_MARKER[0] != ' '
    ensures HOST_MARKER == "[" + LXC_MARKER
  {
    assert HOST_MARKER[11] == ' ' && LXC_MARKER[10] == ' ';
  }

  function RowStart(r: Row): string {
    r.name + "/" + r.suite + " " + (r.version + " " + (r.arch + " "))
  }

  lemma RowSplitsAtMarker(r: Row)
    ensures RowText(r) == RowStart(r) + HOST_MARKER + (" " + (r.current + "]"))
  {
    assert HOST_MARKER == "[upgradable" + " " + "from:";
  }

  lemma RowFromMarker(r: Row)
    requires WellFormed(r)
    ensures AfterLast(RowText(r), HOST_MARKER).Some?
    ensures AfterLast(RowText(r), LXC_MARKER) == Some(" " + (r.current + "]"))
  {
    var start, rest := RowStart(r), " " + (r.current + "]");
    MarkersStartOnce();
    RowSplitsAtMarker(r);
    MarkerFound(start, HOST_MARKER, r);
    MarkerFound(start + "[", LXC_MARKER, r);
    InsertBracket(start, rest);
  }

  lemma InsertBracket(start: string, rest: string)
    requires HOST_MARKER == "[" + LXC_MARKER
    ensures start + HOST_MARKER + rest == start + "[" + LXC_MARKER + rest
  {
  }

  lemma HostReadsRow(plan: Plan, r: Row)
    requires WellFormed(r)
    ensures HostLine(plan, RowText(r)) == Some(Expected(plan, r))
  {
    RowWords(r);
    RowHead(r);
    RowOld(r);
    RowFromMarker(r);
  }

  lemma RowIsTrim(r: Row)
    requires WellFormed(r)
    ensures Trim(RowText(r)) == RowText(r) && Trim(" " + (r.current + "]")) == r.current + "]"
  {
    var s, rest := RowText(r), " " + (r.current + "]");
    assert s[0] == r.name[0];
    assert s[|s| - 1] == ']';
    assert rest[1..] == r.current + "]";
    assert LTrim(rest) == LTrim(r.current + "]") == r.current + "]";
  }

  /** The container parser takes a row exactly when it does not start like apt's heading. */
  lemma LxcReadsRow(plan: Plan, r: Row)
    requires WellFormed(r)
    ensures LxcLine(plan, RowText(r)) == if "Listing" <= RowText(r) then None else Some(Expected(plan, r))
  {
    var words := FirstWords(r);
    var tail, closed := OldVersion(r);
    LxcLineFrom(plan, RowText(r), words, tail, closed, r);
  }

  /** What the container parser finds at the front of a row. */
  lemma FirstWords(r: Row) returns (words: seq<string>)
    requires WellFormed(r)
    ensures Words(RowText(r)) == words && |words| >= 2 && BeforeSlash(words[0]) == r.name && words[1] == r.version
  {
    words := Words(RowText(r));
    RowWords(r);
    RowHead(r);
  }

  /** And behind the marker. */
  lemma OldVersion(r: Row) returns (tail: string, closed: string)
    requires WellFormed(r)
    ensures Trim(RowText(r)) == RowText(r) && RowText(r) != ""
    ensures AfterLast(RowText(r), LXC_MARKER) == Some(tail) && Trim(tail) == closed && RStrip(closed, ']') == r.current
  {
    tail, closed := " " + (r.current + "]"), r.current + "]";
    RowOld(r);
    RowFromMarker(r);
    RowIsTrim(r);
  }

  lemma LxcLineFrom(plan: Plan, line: string, words: seq<string>, tail: string, closed: string, r: Row)
    requires Trim(line) == line && line != "" && Words(line) == words && |words| >= 2 && AfterLast(line, LXC_MARKER) == Some(tail)
    requires BeforeSlash(words[0]) == r.name && words[1] == r.version && Trim(tail) == closed && RStrip(closed, ']') == r.current
    ensures LxcLine(plan, line) == if "Listing" <= line then None else Some(Expected(plan, r))
  {
  }

  /** What the two make of a line that is no row: too few words, or no old version. */
  lemma IncompleteLines(plan: Plan, line: string)
    ensures AfterLast(line, "[upgradable from:").Some? && |Words(line)| <= 3 ==>
              HostLine(plan, line).Some? && HostLine(plan, line).value.current == "?"
    ensures AfterLast(line, "[upgradable from:").Some? && |Words(line)| <= 1 ==> HostLine(plan, line).value.available == "?"
    ensures AfterLast(line, "[upgradable from:").None? ==> HostLine(plan, line) == None
    ensures Trim(line) == line != "" && !("Listing" <= line) && |Words(line)| >= 2 && AfterLast(line, "upgradable from:").None? ==>
              LxcLine(plan, line).Some? && LxcLine(plan, line).value.current == ""
    ensures |Words(Trim(line))| <= 1 ==> LxcLine(plan, line) == None
  {
  }

  /** A line of the list section both parsers pass over. */
  predicate Ignorable(line: string) {
    line == "" || line == "Listing..." || line == "Listing... Done"
  }

  lemma BothIgnore(plan: Plan, line: string)
    requires Ignorable(line)
    ensures HostLine(plan, line) == None && LxcLine(plan, line) == None
  {
    assert HOST_MARKER[0] == '[';
    AfterLastMisses(line, HOST_MARKER, '[');
    if line != "" {
      assert LTrim(line) == line && RTrim(line) == line;
    }
  }

  ghost predicate ListLine(line: string) {
    Ignorable(line) || exists r :: WellFormed(r) && line == RowText(r) && !("Listing" <= line)
  }

  lemma {:induction false} ListsAgree(plan: Plan, lines: seq<string>)
    requires forall i | 0 <= i < |lines| :: ListLine(lines[i])
    ensures HostPackages(plan, lines) == LxcPackages(plan, lines)
  {
    if lines != [] {
      ListsAgree(plan, lines[..|lines| - 1]);
      var line := lines[|lines| - 1];
      if Ignorable(line) {
        BothIgnore(plan, line);
      } else {
        var r :| WellFormed(r) && line == RowText(r) && !("Listing" <= line);
        HostReadsRow(plan, r);
        LxcReadsRow(plan, r);
      }
    }
  }

  /** Without a reboot marker both parsers cut the same text the same way, whichever sections it has. */
  lemma SectionsAgree(body: string)
    requires Partition(body, REBOOT) == None
    ensures HostSections(body) == LxcSections(body)
  {
    assert Partition("", FULL) == None;
  }

  /** The host command's trailing reboot section changes nothing in front of it. */
  lemma RebootSectionIsCut(body: string, answer: string)
    requires Partition(body, REBOOT) == None && (body == "" || body[|body| - 1] == '\n')
    ensures HostSections(body + REBOOT + answer) == HostSections(body)
  {
    RebootIsOneLine();
    PartitionAtLine(body, REBOOT, answer);
    SameBody(body + REBOOT + answer, body, answer);
  }

  lemma RebootIsOneLine()
    ensures REBOOT != "" && '\n' !in REBOOT
  {
  }

  lemma SameBody(text: string, body: string, answer: string)
    requires Partition(text, REBOOT) == Some((body, answer)) && Partition(body, REBOOT) == None
    ensures HostSections(text) == HostSections(body)
  {
  }

  /**
   The two parsers agree: on every list of well-formed rows, with any simulation sections present or
   missing, they return the same names, versions, held-back flags and reasons.
   */
  lemma ParsersAgree(body: string, answer: string)
    requires Partition(body, REBOOT) == None && (body == "" || body[|body| - 1] == '\n')
    requires forall i | 0 <= i < |Lines(LxcSections(body).0)| :: ListLine(Lines(LxcSections(body).0)[i])
    ensures HostResult(body + REBOOT + answer) == LxcResult(body)
  {
    RebootSectionIsCut(body, answer);
    SectionsAgree(body);
    ListsAgree(LxcSections(body).1, Lines(LxcSections(body).0));
  }

  // ------------------------------------------------------------------
  // The simulations read back
  // ------------------------------------------------------------------

  /** A planned install, as `apt-get -s` prints it. */
  function InstText(name: string, detail: string): string {
    "Inst" + " " + (name + " " + detail)
  }

  lemma InstReadsBack(name: string, detail: string)
    requires Word(name) && detail != "" && !IsSpace(detail[|detail| - 1])
    ensures Installed(InstText(name, detail)) == Some(name)
  {
    var rest := name + " " + detail;
    assert rest[|rest| - 1] == detail[|detail| - 1];
    InstIsTrim(rest);
    WordsOfMore(name, detail);
    WordsOfMore("Inst", rest);
  }

  lemma InstIsTrim(rest: string)
    requires rest != "" && !IsSpace(rest[|rest| - 1])
    ensures var s := "Inst" + " " + rest; Trim(s) == s && "Inst " <= s
  {
    var s := "Inst" + " " + rest;
    assert s[0] == 'I' && s[|s| - 1] == rest[|rest| - 1];
    assert s[..5] == "Inst ";
  }
}
