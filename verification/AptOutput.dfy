/**
 The whole output of the apt check command, as `list_cmd` and `get_lxc_updates` ask for it, and what both
 parsers make of it (app/package_managers.py, app/proxmox_client.py).
 */
module AptOutput {
  import opened Options
  import opened Text
  import opened AptParsers

  // ------------------------------------------------------------------
  // Lines and markers
  // ------------------------------------------------------------------

  function Joined(lines: seq<string>): string {
    if lines == [] then "" else lines[0] + "\n" + Joined(lines[1..])
  }

  /** One line of output that does not show this marker. */
  predicate Clean(line: string, marker: string)
    requires marker != ""
  {
    '\n' !in line && Partition(line, marker) == None
  }

  predicate AllClean(lines: seq<string>, marker: string)
    requires marker != ""
  {
    forall k | 0 <= k < |lines| :: Clean(lines[k], marker)
  }

  lemma {:induction false} JoinedBoth(a: seq<string>, b: seq<string>)
    ensures Joined(a + b) == Joined(a) + Joined(b)
  {
    if a == [] {
      assert a + b == b;
    } else {
      assert (a + b)[1..] == a[1..] + b;
      JoinedBoth(a[1..], b);
      assert a[0] + "\n" + (Joined(a[1..]) + Joined(b)) == a[0] + "\n" + Joined(a[1..]) + Joined(b);
    }
  }

  lemma {:induction false} JoinedEnds(lines: seq<string>)
    ensures Joined(lines) == "" || Joined(lines)[|Joined(lines)| - 1] == '\n'
  {
    if lines != [] {
      JoinedEnds(lines[1..]);
    }
  }

  lemma {:induction false} LinesOfJoined(lines: seq<string>)
    requires forall k | 0 <= k < |lines| :: '\n' !in lines[k]
    ensures Lines(Joined(lines)) == lines
  {
    if lines != [] {
      LinesOfJoined(lines[1..]);
      CutOfJoin(lines[0], '\n', Joined(lines[1..]));
      assert lines == [lines[0]] + lines[1..];
    }
  }

  /** A pattern without line ends does not straddle two lines. */
  lemma {:induction false} MissesBoth(line: string, rest: string, sub: string)
    requires sub != "" && '\n' !in sub && Partition(line, sub) == None && Partition(rest, sub) == None
    ensures Partition(line + "\n" + rest, sub) == None
    decreases |line|
  {
    var text := line + "\n" + rest;
    assert !(sub <= text) by {
      if |sub| <= |line| {
        assert text[..|sub|] == line[..|sub|];
      } else {
        assert text[|line|] == '\n' && sub[|line|] in sub;
      }
    }
    if line == "" {
      assert text[1..] == rest;
    } else {
      assert text[1..] == line[1..] + "\n" + rest;
      MissesBoth(line[1..], rest, sub);
    }
  }

  lemma {:induction false} CleanLinesMiss(lines: seq<string>, marker: string)
    requires marker != "" && '\n' !in marker && AllClean(lines, marker)
    ensures Partition(Joined(lines), marker) == None
  {
    if lines != [] {
      assert Clean(lines[0], marker);
      CleanLinesMiss(lines[1..], marker);
      MissesBoth(lines[0], Joined(lines[1..]), marker);
    }
  }

  /** Output is cut at the first line that is the marker; the rest starts with the marker's line end. */
  lemma CutAtMarker(a: seq<string>, marker: string, b: seq<string>)
    requires marker != "" && '\n' !in marker && AllClean(a, marker)
    ensures Partition(Joined(a + [marker] + b), marker) == Some((Joined(a), Joined([""] + b)))
  {
    CleanLinesMiss(a, marker);
    JoinedEnds(a);
    PartitionAtLine(Joined(a), marker, Joined([""] + b));
    JoinedAtMarker(a, marker, b);
  }

  lemma JoinedAtMarker(a: seq<string>, marker: string, b: seq<string>)
    ensures Joined(a + [marker] + b) == Joined(a) + marker + Joined([""] + b)
  {
    assert a + [marker] + b == a + ([marker] + b);
    JoinedBoth(a, [marker] + b);
    assert ([marker] + b)[1..] == b && ([""] + b)[1..] == b;
    assert Joined([marker] + b) == marker + "\n" + Joined(b);
    assert Joined([""] + b) == "\n" + Joined(b);
  }

  // ------------------------------------------------------------------
  // What the commands print
  // ------------------------------------------------------------------

  /** A line of a simulation: a planned install, or anything else `apt-get -s` says. */
  datatype SimLine = Planned(name: string, detail: string) | Other(text: string)

  function SimText(l: SimLine): string {
    match l
    case Planned(name, detail) => InstText(name, detail)
    case Other(text) => text
  }

  function SimTexts(sim: seq<SimLine>): (r: seq<string>)
    ensures |r| == |sim| && forall k | 0 <= k < |sim| :: r[k] == SimText(sim[k])
  {
    seq(|sim|, k requires 0 <= k < |sim| => SimText(sim[k]))
  }

  predicate WellFormedLine(l: SimLine) {
    match l
    case Planned(name, detail) => Word(name) && detail != "" && !IsSpace(detail[|detail| - 1])
    case Other(text) => !("Inst " <= Trim(text))
  }

  predicate Plans(sim: seq<SimLine>, name: string) {
    exists k | 0 <= k < |sim| :: sim[k].Planned? && sim[k].name == name
  }

  /** The sections that follow the list: the command prints them in this order, and output may be cut short. */
  datatype Sections = ListOnly | WithUpgrade(upgrade: seq<SimLine>) | WithFull(upgrade: seq<SimLine>, full: seq<SimLine>)

  function Upgrade(s: Sections): seq<SimLine> {
    if s.ListOnly? then [] else s.upgrade
  }

  function Full(s: Sections): seq<SimLine> {
    if s.WithFull? then s.full else []
  }

  function RowTexts(rows: seq<Row>): (r: seq<string>)
    ensures |r| == |rows| && forall k | 0 <= k < |rows| :: r[k] == RowText(rows[k])
  {
    seq(|rows|, k requires 0 <= k < |rows| => RowText(rows[k]))
  }

  datatype Output = Output(heading: seq<string>, rows: seq<Row>, sections: Sections)

  function ListLines(o: Output): seq<string> {
    o.heading + RowTexts(o.rows)
  }

  function SectionLines(s: Sections): seq<string> {
    match s
    case ListOnly => []
    case WithUpgrade(upgrade) => ["__APPLY__"] + SimTexts(upgrade)
    case WithFull(upgrade, full) => ["__APPLY__"] + (SimTexts(upgrade) + ["__FULL__"] + SimTexts(full))
  }

  /** What the container command prints. */
  function LxcOutput(o: Output): string {
    Joined(ListLines(o) + SectionLines(o.sections))
  }

  /** What the host command prints: the same, and the answer about the reboot file. */
  function HostOutput(o: Output, answer: string): string {
    LxcOutput(o) + "__REBOOT__" + answer
  }

  /** apt's own lines never show a marker of the command. */
  predicate Unmarked(lines: seq<string>) {
    AllClean(lines, APPLY) && AllClean(lines, FULL) && AllClean(lines, REBOOT)
  }

  ghost predicate Valid(o: Output) {
    && (forall k | 0 <= k < |o.heading| :: Ignorable(o.heading[k]))
    && (forall k | 0 <= k < |o.rows| :: WellFormed(o.rows[k]))
    && (forall k | 0 <= k < |Upgrade(o.sections)| :: WellFormedLine(Upgrade(o.sections)[k]))
    && (forall k | 0 <= k < |Full(o.sections)| :: WellFormedLine(Full(o.sections)[k]))
    && Unmarked(ListLines(o)) && Unmarked(SimTexts(Upgrade(o.sections))) && Unmarked(SimTexts(Full(o.sections)))
  }

  // ------------------------------------------------------------------
  // The sections read back
  // ------------------------------------------------------------------

  /** The plan, read off the simulations and not off their text. */
  function PlannedNames(sim: seq<SimLine>): (names: set<string>)
    ensures forall name :: name in names <==> Plans(sim, name)
  {
    set k | 0 <= k < |sim| && sim[k].Planned? :: sim[k].name
  }

  function PlanOf(s: Sections): Plan {
    match s
    case ListOnly => Plan(None, None)
    case WithUpgrade(upgrade) => Plan(Some(PlannedNames(upgrade)), None)
    case WithFull(upgrade, full) => Plan(Some(PlannedNames(upgrade)), Some(PlannedNames(full)))
  }

  lemma SimLineReadsBack(l: SimLine)
    requires WellFormedLine(l)
    ensures Installed(SimText(l)) == if l.Planned? then Some(l.name) else None
  {
    if l.Planned? {
      InstReadsBack(l.name, l.detail);
    }
  }

  lemma BlankPlansNothing()
    ensures Installed("") == None
  {
  }

  lemma PlannedIsInstalled(sim: seq<SimLine>, lines: seq<string>, name: string)
    requires lines == [""] + SimTexts(sim) && Plans(sim, name)
    requires forall k | 0 <= k < |sim| :: WellFormedLine(sim[k])
    ensures name in InstalledIn(lines)
  {
    var k :| 0 <= k < |sim| && sim[k].Planned? && sim[k].name == name;
    var line := SimText(sim[k]);
    SimLineReadsBack(sim[k]);
    InstalledAt(lines, k + 1, line, name);
  }

  lemma InstalledAt(lines: seq<string>, k: nat, line: string, name: string)
    requires k < |lines| && lines[k] == line && Installed(line) == Some(name)
    ensures name in InstalledIn(lines)
  {
    InstalledExactly(lines, name);
  }

  lemma InstalledIsPlanned(sim: seq<SimLine>, lines: seq<string>, name: string)
    requires lines == [""] + SimTexts(sim) && name in InstalledIn(lines)
    requires forall k | 0 <= k < |sim| :: WellFormedLine(sim[k])
    ensures Plans(sim, name)
  {
    InstalledExactly(lines, name);
    BlankPlansNothing();
    var k :| 0 <= k < |lines| && Installed(lines[k]) == Some(name);
    assert lines[k] == SimText(sim[k - 1]);
    SimLineReadsBack(sim[k - 1]);
  }

  lemma SimulationReadsBack(sim: seq<SimLine>)
    requires forall k | 0 <= k < |sim| :: WellFormedLine(sim[k])
    ensures InstalledIn([""] + SimTexts(sim)) == PlannedNames(sim)
  {
    var lines := [""] + SimTexts(sim);
    forall name
      ensures name in InstalledIn(lines) <==> name in PlannedNames(sim)
    {
      if name in InstalledIn(lines) {
        InstalledIsPlanned(sim, lines, name);
      }
      if Plans(sim, name) {
        PlannedIsInstalled(sim, lines, name);
      }
    }
  }

  lemma SectionReadsBack(sim: seq<SimLine>)
    requires (forall k | 0 <= k < |sim| :: WellFormedLine(sim[k])) && Unmarked(SimTexts(sim))
    ensures InstalledIn(Lines(Joined([""] + SimTexts(sim)))) == PlannedNames(sim)
  {
    forall k | 0 <= k < |[""] + SimTexts(sim)|
      ensures '\n' !in ([""] + SimTexts(sim))[k]
    {
      assert k > 0 ==> Clean(SimTexts(sim)[k - 1], APPLY);
    }
    LinesOfJoined([""] + SimTexts(sim));
    SimulationReadsBack(sim);
  }

  lemma MarkersAreLines()
    ensures '\n' !in APPLY && '\n' !in FULL && '\n' !in REBOOT
    ensures Clean("", FULL) && Clean("", REBOOT) && Clean(APPLY, REBOOT) && Clean(FULL, REBOOT)
  {
    assert APPLY[2] == 'A' && FULL[2] == 'F' && REBOOT[2] == 'R';
    PartitionMisses(APPLY, REBOOT, 'R');
    PartitionMisses(FULL, REBOOT, 'R');
  }

  lemma {:induction false} PartitionMisses(text: string, sub: string, c: char)
    requires c in sub && c !in text
    ensures Partition(text, sub) == None
  {
    if |text| >= |sub| {
      assert !(sub <= text) by {
        var i :| 0 <= i < |sub| && sub[i] == c;
        assert text[i] in text;
      }
      PartitionMisses(text[1..], sub, c);
    }
  }

  lemma BlankBefore(lines: seq<string>, marker: string)
    requires marker != "" && AllClean(lines, marker)
    ensures AllClean([""] + lines, marker)
  {
  }

  /** Behind the upgrade marker, with no full-upgrade section. */
  lemma UpgradePart(upgrade: seq<string>)
    requires AllClean(upgrade, FULL)
    ensures Partition(Joined([""] + upgrade), FULL) == None
  {
    MarkersAreLines();
    BlankBefore(upgrade, FULL);
    CleanLinesMiss([""] + upgrade, FULL);
  }

  /** Behind the upgrade marker, with a full-upgrade section. */
  lemma BothParts(upgrade: seq<string>, full: seq<string>)
    requires AllClean(upgrade, FULL)
    ensures Partition(Joined([""] + (upgrade + [FULL] + full)), FULL) == Some((Joined([""] + upgrade), Joined([""] + full)))
  {
    MarkersAreLines();
    BlankBefore(upgrade, FULL);
    CutAtMarker([""] + upgrade, FULL, full);
    assert [""] + upgrade + [FULL] + full == [""] + (upgrade + [FULL] + full);
  }

  /** The list and the plan come back, whichever sections there are. */
  lemma SectionsReadBack(o: Output)
    requires Valid(o)
    ensures LxcSections(LxcOutput(o)) == (Joined(ListLines(o)), PlanOf(o.sections))
  {
    var list := ListLines(o);
    MarkersAreLines();
    match o.sections
    case ListOnly =>
      assert list + [] == list;
      CleanLinesMiss(list, APPLY);
    case WithUpgrade(upgrade) =>
      Behind(list, APPLY, SimTexts(upgrade));
      UpgradePart(SimTexts(upgrade));
      SectionReadsBack(upgrade);
    case WithFull(upgrade, full) =>
      Behind(list, APPLY, SimTexts(upgrade) + [FULL] + SimTexts(full));
      BothParts(SimTexts(upgrade), SimTexts(full));
      SectionReadsBack(upgrade);
      SectionReadsBack(full);
  }

  lemma Behind(a: seq<string>, marker: string, b: seq<string>)
    requires marker != "" && '\n' !in marker && AllClean(a, marker)
    ensures Partition(Joined(a + ([marker] + b)), marker) == Some((Joined(a), Joined([""] + b)))
  {
    assert a + ([marker] + b) == a + [marker] + b;
    CutAtMarker(a, marker, b);
  }

  lemma NoRebootMarker(o: Output)
    requires Valid(o)
    ensures Partition(LxcOutput(o), REBOOT) == None && (LxcOutput(o) == "" || LxcOutput(o)[|LxcOutput(o)| - 1] == '\n')
  {
    MarkersAreLines();
    assert AllClean(SectionLines(o.sections), REBOOT);
    CleanLinesMiss(ListLines(o) + SectionLines(o.sections), REBOOT);
    JoinedEnds(ListLines(o) + SectionLines(o.sections));
  }

  lemma HostSectionsReadBack(o: Output, answer: string)
    requires Valid(o)
    ensures HostSections(HostOutput(o, answer)) == (Joined(ListLines(o)), PlanOf(o.sections))
  {
    NoRebootMarker(o);
    RebootSectionIsCut(LxcOutput(o), answer);
    SectionsAgree(LxcOutput(o));
    SectionsReadBack(o);
  }

  // ------------------------------------------------------------------
  // The rows read back
  // ------------------------------------------------------------------

  function ExpectedAll(plan: Plan, rows: seq<Row>): (r: seq<Package>)
    ensures |r| == |rows| && forall k | 0 <= k < |rows| :: r[k] == Expected(plan, rows[k])
  {
    seq(|rows|, k requires 0 <= k < |rows| => Expected(plan, rows[k]))
  }

  /** The rows that are not skipped. */
  function Unskipped(rows: seq<Row>, skip: seq<bool>): seq<Row>
    requires |rows| == |skip|
  {
    if rows == [] then []
    else
      var n := |rows| - 1;
      Unskipped(rows[..n], skip[..n]) + if skip[n] then [] else [rows[n]]
  }

  predicate LikeHeading(r: Row) {
    "Listing" <= RowText(r)
  }

  function LikeHeadings(rows: seq<Row>): (r: seq<bool>)
    ensures |r| == |rows| && forall k | 0 <= k < |rows| :: r[k] == LikeHeading(rows[k])
  {
    seq(|rows|, k requires 0 <= k < |rows| => LikeHeading(rows[k]))
  }

  /** The rows the container parser does not mistake for apt's heading. */
  function Unheaded(rows: seq<Row>): seq<Row> {
    Unskipped(rows, LikeHeadings(rows))
  }

  /** The packages among what single lines yield. */
  function Somes(ps: seq<Option<Package>>): seq<Package> {
    if ps == [] then []
    else Somes(ps[..|ps| - 1]) + match ps[|ps| - 1] case None => [] case Some(p) => [p]
  }

  lemma {:induction false} HostCollects(plan: Plan, lines: seq<string>, ps: seq<Option<Package>>)
    requires |lines| == |ps| && forall k | 0 <= k < |lines| :: HostLine(plan, lines[k]) == ps[k]
    ensures HostPackages(plan, lines) == Somes(ps)
  {
    if lines != [] {
      HostCollects(plan, lines[..|lines| - 1], ps[..|ps| - 1]);
    }
  }

  lemma {:induction false} LxcCollects(plan: Plan, lines: seq<string>, ps: seq<Option<Package>>)
    requires |lines| == |ps| && forall k | 0 <= k < |lines| :: LxcLine(plan, lines[k]) == ps[k]
    ensures LxcPackages(plan, lines) == Somes(ps)
  {
    if lines != [] {
      LxcCollects(plan, lines[..|lines| - 1], ps[..|ps| - 1]);
    }
  }

  function Nones(n: nat): (r: seq<Option<Package>>)
    ensures |r| == n && forall k | 0 <= k < n :: r[k] == None
  {
    seq(n, k => None)
  }

  /** What the rows yield, line by line. */
  function Yield(plan: Plan, rows: seq<Row>, skip: seq<bool>): (r: seq<Option<Package>>)
    requires |rows| == |skip|
    ensures |r| == |rows| && forall k | 0 <= k < |rows| :: r[k] == if skip[k] then None else Some(Expected(plan, rows[k]))
  {
    seq(|rows|, k requires 0 <= k < |rows| => if skip[k] then None else Some(Expected(plan, rows[k])))
  }

  lemma {:induction false} SomesOfNones(n: nat)
    ensures Somes(Nones(n)) == []
  {
    if n > 0 {
      SomesOfNones(n - 1);
      assert Nones(n)[..n - 1] == Nones(n - 1);
    }
  }

  lemma ExpectedOneMore(plan: Plan, rows: seq<Row>, r: Row)
    ensures ExpectedAll(plan, rows + [r]) == ExpectedAll(plan, rows) + [Expected(plan, r)]
  {
  }

  /** Behind a heading that yields nothing, the rows yield their packages. */
  lemma {:induction false} SomesOfRows(plan: Plan, n: nat, rows: seq<Row>, skip: seq<bool>)
    requires |rows| == |skip|
    ensures Somes(Nones(n) + Yield(plan, rows, skip)) == ExpectedAll(plan, Unskipped(rows, skip))
  {
    var all := Nones(n) + Yield(plan, rows, skip);
    if rows == [] {
      assert all == Nones(n);
      SomesOfNones(n);
    } else {
      var m := |rows| - 1;
      SomesOfRows(plan, n, rows[..m], skip[..m]);
      assert all[..|all| - 1] == Nones(n) + Yield(plan, rows[..m], skip[..m]);
      ExpectedOneMore(plan, Unskipped(rows[..m], skip[..m]), rows[m]);
    }
  }

  lemma {:induction false} NoneSkipped(rows: seq<Row>, skip: seq<bool>)
    requires |rows| == |skip|
    ensures |Unskipped(rows, skip)| <= |rows|
    ensures |Unskipped(rows, skip)| == |rows| <==> forall k | 0 <= k < |rows| :: !skip[k]
    ensures |Unskipped(rows, skip)| == |rows| ==> Unskipped(rows, skip) == rows
  {
    if rows != [] {
      var n := |rows| - 1;
      NoneSkipped(rows[..n], skip[..n]);
      assert rows == rows[..n] + [rows[n]];
      assert skip == skip[..n] + [skip[n]];
    }
  }

  lemma HostReadsRows(plan: Plan, heading: seq<string>, rows: seq<Row>)
    requires (forall k | 0 <= k < |heading| :: Ignorable(heading[k])) && (forall k | 0 <= k < |rows| :: WellFormed(rows[k]))
    ensures HostPackages(plan, heading + RowTexts(rows)) == ExpectedAll(plan, rows)
  {
    var skip := seq(|rows|, k => false);
    var lines, ps := heading + RowTexts(rows), Nones(|heading|) + Yield(plan, rows, skip);
    forall k | 0 <= k < |lines|
      ensures HostLine(plan, lines[k]) == ps[k]
    {
      if k < |heading| {
        BothIgnore(plan, heading[k]);
      } else {
        HostReadsRow(plan, rows[k - |heading|]);
      }
    }
    HostCollects(plan, lines, ps);
    SomesOfRows(plan, |heading|, rows, skip);
    NoneSkipped(rows, skip);
  }

  lemma LxcReadsRows(plan: Plan, heading: seq<string>, rows: seq<Row>)
    requires (forall k | 0 <= k < |heading| :: Ignorable(heading[k])) && (forall k | 0 <= k < |rows| :: WellFormed(rows[k]))
    ensures LxcPackages(plan, heading + RowTexts(rows)) == ExpectedAll(plan, Unheaded(rows))
  {
    var lines, ps := heading + RowTexts(rows), Nones(|heading|) + Yield(plan, rows, LikeHeadings(rows));
    forall k | 0 <= k < |lines|
      ensures LxcLine(plan, lines[k]) == ps[k]
    {
      if k < |heading| {
        BothIgnore(plan, heading[k]);
      } else {
        LxcReadsRow(plan, rows[k - |heading|]);
      }
    }
    LxcCollects(plan, lines, ps);
    SomesOfRows(plan, |heading|, rows, LikeHeadings(rows));
  }

  // ------------------------------------------------------------------
  // Whole output
  // ------------------------------------------------------------------

  lemma ListLinesReadBack(o: Output)
    requires Valid(o)
    ensures Lines(Joined(ListLines(o))) == ListLines(o)
  {
    forall k | 0 <= k < |ListLines(o)|
      ensures '\n' !in ListLines(o)[k]
    {
      assert Clean(ListLines(o)[k], APPLY);
    }
    LinesOfJoined(ListLines(o));
  }

  /** The host parser returns one package per row, in order, judged by the simulations. */
  lemma HostReadsOutput(o: Output, answer: string)
    requires Valid(o)
    ensures HostResult(HostOutput(o, answer)) == ExpectedAll(PlanOf(o.sections), o.rows)
  {
    HostSectionsReadBack(o, answer);
    ListLinesReadBack(o);
    HostReadsRows(PlanOf(o.sections), o.heading, o.rows);
  }

  /** So does the container parser, for every row that does not start like apt's heading. */
  lemma LxcReadsOutput(o: Output)
    requires Valid(o)
    ensures LxcResult(LxcOutput(o)) == ExpectedAll(PlanOf(o.sections), Unheaded(o.rows))
  {
    SectionsReadBack(o);
    ListLinesReadBack(o);
    LxcReadsRows(PlanOf(o.sections), o.heading, o.rows);
  }

  /** The two parsers return the same packages from the same apt output exactly when no row starts like the heading. */
  lemma ParsersAgreeExactly(o: Output, answer: string)
    requires Valid(o)
    ensures HostResult(HostOutput(o, answer)) == LxcResult(LxcOutput(o))
       <==> forall k | 0 <= k < |o.rows| :: !LikeHeading(o.rows[k])
  {
    HostReadsOutput(o, answer);
    LxcReadsOutput(o);
    NoneSkipped(o.rows, LikeHeadings(o.rows));
  }

  /**
   Each package of the output has its row's name and versions. It is held back exactly when there is an
   upgrade simulation that plans no install of it; the full-upgrade simulation decides the reason.
   */
  lemma HeldBackExactly(o: Output, answer: string, k: nat)
    requires Valid(o) && k < |o.rows|
    ensures |HostResult(HostOutput(o, answer))| == |o.rows|
    ensures var p, r, s := HostResult(HostOutput(o, answer))[k], o.rows[k], o.sections;
            && (p.name, p.current, p.available) == (r.name, r.current, r.version)
            && (p.heldBack <==> !s.ListOnly? && !Plans(s.upgrade, r.name))
            && (p.reason == Some(NeedsFullUpgrade) <==> p.heldBack && s.WithFull? && Plans(s.full, r.name))
            && (p.reason == Some(Phased) <==> p.heldBack && s.WithFull? && !Plans(s.full, r.name))
  {
    HostReadsOutput(o, answer);
  }
}
