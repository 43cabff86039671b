/**
 Who checks which container: the SSH backend skips the projects it leaves to Portainer, and the
 Portainer client lists its stacks (app/backends/ssh_docker_backend.py, `_containers_for_host`,
 `_portainer_managed_projects`, `_is_listed_stack`, `_stack_index`; app/portainer_client.py,
 `get_stacks_with_update_status`).
 */
module Coverage {
  import opened Options
  import opened Text

  /** One line of `docker ps -a`, its labels already read. `id` is the short id. */
  datatype Container = Container(id: string, name: string, image: string, project: string, configFiles: string)

  /** A stack as Portainer lists it. */
  datatype Stack = Stack(id: nat, name: Option<string>, endpoint: nat)

  /** A container as Portainer's endpoint reports it. */
  datatype Remote = Remote(id: string, names: seq<string>, project: string)

  const COMPOSE_ROOT: string := "/data/compose/"

  /** `^/data/compose/(\d+)/` */
  function StackIdIn(path: string): Option<nat> {
    if COMPOSE_ROOT <= path then
      match Cut(path[|COMPOSE_ROOT|..], '/')
      case None => None
      case Some((digits, _)) => ParseNat(digits)
    else None
  }

  type Index = set<(nat, string)>

  /** The stacks Portainer has, by id and lower-cased name. */
  function StackIndex(stacks: seq<Stack>): (index: Index)
    ensures forall p | p in index :: exists k :: 0 <= k < |stacks| && p == (stacks[k].id, Lower(stacks[k].name.GetOr("")))
  {
    set k | 0 <= k < |stacks| :: (stacks[k].id, Lower(stacks[k].name.GetOr("")))
  }

  predicate Listed(c: Container, known: Index) {
    StackIdIn(c.configFiles).Some? && (StackIdIn(c.configFiles).value, Lower(c.project)) in known
  }

  /** This container's path and, when the list is known, its listing say that Portainer owns its project. */
  predicate Claims(c: Container, known: Option<Index>) {
    c.project != "" && COMPOSE_ROOT <= c.configFiles && (known.Some? ==> Listed(c, known.value))
  }

  predicate IsAgent(c: Container) {
    AfterLast(Lower(c.image), "portainer/agent").Some?
  }

  function ClaimedProjects(containers: seq<Container>, known: Option<Index>): (r: set<string>)
    ensures forall p | p in r :: exists k :: 0 <= k < |containers| && Claims(containers[k], known) && containers[k].project == p
  {
    set k | 0 <= k < |containers| && Claims(containers[k], known) :: containers[k].project
  }

  /** The projects left to Portainer on a host: none unless one of its agents runs there. */
  function ManagedProjects(containers: seq<Container>, known: Option<Index>): set<string> {
    if exists k | 0 <= k < |containers| :: IsAgent(containers[k]) then ClaimedProjects(containers, known) else {}
  }

  function SelfProjects(containers: seq<Container>, self: Option<string>): set<string> {
    set k | 0 <= k < |containers| && Some(containers[k].id) == self && containers[k].project != "" :: containers[k].project
  }

  /** What one host's scan knows before it filters. */
  datatype Scan = Scan(self: Option<string>, selfProjects: set<string>, managed: set<string>, active: bool)

  predicate IsSelf(c: Container, s: Scan) {
    Some(c.id) == s.self || (c.project != "" && c.project in s.selfProjects)
  }

  predicate Entered(c: Container, s: Scan) {
    && c.name != "" && c.image != "" && !IsSelf(c, s)
    && !(c.project != "" && c.project in s.managed && s.active)
  }

  function Entries(containers: seq<Container>, s: Scan): seq<Container> {
    if containers == [] then []
    else Entries(containers[..|containers| - 1], s)
         + if Entered(containers[|containers| - 1], s) then [containers[|containers| - 1]] else []
  }

  function ScanOf(containers: seq<Container>, known: Option<Index>, self: Option<string>, active: bool): Scan {
    Scan(self, SelfProjects(containers, self), ManagedProjects(containers, known), active)
  }

  /** The entries of a host in `all` mode, in the order of `docker ps`. */
  method ContainersForHost(containers: seq<Container>, known: Option<Index>, self: Option<string>, active: bool)
      returns (entries: seq<Container>)
    ensures entries == Entries(containers, ScanOf(containers, known, self, active))
  {
    var s := ScanOf(containers, known, self, active);
    entries := [];
    for i := 0 to |containers|
      invariant entries == Entries(containers[..i], s)
    {
      assert containers[..i + 1][..i] == containers[..i];
      var c := containers[i];
      if c.name == "" || c.image == "" {
        continue;
      }
      if Some(c.id) == s.self || (c.project != "" && c.project in s.selfProjects) {
        continue;
      }
      if c.project != "" && c.project in s.managed && s.active {
        continue;
      }
      entries := entries + [c];
    }
    assert containers[..|containers|] == containers;
  }

  // ------------------------------------------------------------------
  // Portainer's own rows
  // ------------------------------------------------------------------

  predicate Belongs(r: Remote, s: Stack) {
    Lower(r.project) == Lower(s.name.GetOr("unknown"))
  }

  /** The stack Keepup itself runs in, recognised by container id or by name. */
  predicate OwnStack(s: Stack, remotes: seq<Remote>, self: Option<string>, selfName: Option<string>) {
    exists k | 0 <= k < |remotes| ::
      && Belongs(remotes[k], s)
      && (Some(remotes[k].id) == self || (selfName.Some? && selfName.value in remotes[k].names))
  }

  function RemotesOf(endpoints: map<nat, seq<Remote>>, endpoint: nat): seq<Remote> {
    if endpoint in endpoints then endpoints[endpoint] else []
  }

  function Rows(stacks: seq<Stack>, endpoints: map<nat, seq<Remote>>, self: Option<string>, selfName: Option<string>): seq<Stack> {
    if stacks == [] then []
    else
      var last := stacks[|stacks| - 1];
      Rows(stacks[..|stacks| - 1], endpoints, self, selfName)
      + if OwnStack(last, RemotesOf(endpoints, last.endpoint), self, selfName) then [] else [last]
  }

  /** One of its containers is Keepup's own, by id or by name. */
  ghost predicate RunsKeepup(s: Stack, remotes: seq<Remote>, self: Option<string>, selfName: Option<string>) {
    exists r | r in remotes ::
      && Lower(r.project) == Lower(s.name.GetOr("unknown"))
      && ((self.Some? && r.id == self.value) || (selfName.Some? && selfName.value in r.names))
  }

  lemma OwnMeansRunsKeepup(s: Stack, remotes: seq<Remote>, self: Option<string>, selfName: Option<string>)
    ensures OwnStack(s, remotes, self, selfName) <==> RunsKeepup(s, remotes, self, selfName)
  {
    if RunsKeepup(s, remotes, self, selfName) {
      var r :| r in remotes && Lower(r.project) == Lower(s.name.GetOr("unknown"))
               && ((self.Some? && r.id == self.value) || (selfName.Some? && selfName.value in r.names));
      var k :| 0 <= k < |remotes| && remotes[k] == r;
      assert Belongs(remotes[k], s);
    }
  }

  /** A stack has a row exactly when it is listed and runs no container of Keepup's. */
  lemma RowExactly(stacks: seq<Stack>, endpoints: map<nat, seq<Remote>>, self: Option<string>, selfName: Option<string>, s: Stack)
    ensures s in Rows(stacks, endpoints, self, selfName) <==> s in stacks && !RunsKeepup(s, RemotesOf(endpoints, s.endpoint), self, selfName)
  {
    RowForStack(stacks, endpoints, self, selfName, s);
    OwnMeansRunsKeepup(s, RemotesOf(endpoints, s.endpoint), self, selfName);
  }

  /** Rows come in the order of the stacks: each is judged alone. */
  lemma {:induction false} RowsActOneByOne(a: seq<Stack>, b: seq<Stack>, endpoints: map<nat, seq<Remote>>, self: Option<string>, selfName: Option<string>)
    ensures Rows(a + b, endpoints, self, selfName) == Rows(a, endpoints, self, selfName) + Rows(b, endpoints, self, selfName)
  {
    if b == [] {
      assert a + b == a;
    } else {
      assert (a + b)[..|a + b| - 1] == a + b[..|b| - 1];
      RowsActOneByOne(a, b[..|b| - 1], endpoints, self, selfName);
    }
  }

  /** One row per stack it does not exclude as its own, reachable endpoint or not. */
  method PortainerRows(stacks: seq<Stack>, endpoints: map<nat, seq<Remote>>, self: Option<string>, selfName: Option<string>)
      returns (rows: seq<Stack>)
    ensures rows == Rows(stacks, endpoints, self, selfName)
    ensures forall s | s in stacks :: s in rows <==> !RunsKeepup(s, RemotesOf(endpoints, s.endpoint), self, selfName)
  {
    rows := [];
    for i := 0 to |stacks|
      invariant rows == Rows(stacks[..i], endpoints, self, selfName)
    {
      assert stacks[..i + 1][..i] == stacks[..i];
      if !OwnStack(stacks[i], RemotesOf(endpoints, stacks[i].endpoint), self, selfName) {
        rows := rows + [stacks[i]];
      }
    }
    assert stacks[..|stacks|] == stacks;
    forall s | s in stacks
      ensures s in rows <==> !RunsKeepup(s, RemotesOf(endpoints, s.endpoint), self, selfName)
    {
      RowExactly(stacks, endpoints, self, selfName, s);
    }
  }

  lemma {:induction false} RowForStack(stacks: seq<Stack>, endpoints: map<nat, seq<Remote>>, self: Option<string>, selfName: Option<string>, s: Stack)
    ensures s in Rows(stacks, endpoints, self, selfName) <==> s in stacks && !OwnStack(s, RemotesOf(endpoints, s.endpoint), self, selfName)
  {
    if stacks != [] {
      RowForStack(stacks[..|stacks| - 1], endpoints, self, selfName, s);
      assert stacks == stacks[..|stacks| - 1] + [stacks[|stacks| - 1]];
    }
  }

  // ------------------------------------------------------------------
  // No container is checked by nobody
  // ------------------------------------------------------------------

  lemma {:induction false} EntryExactly(containers: seq<Container>, s: Scan, c: Container)
    ensures c in Entries(containers, s) <==> c in containers && Entered(c, s)
  {
    if containers != [] {
      EntryExactly(containers[..|containers| - 1], s, c);
      assert containers == containers[..|containers| - 1] + [containers[|containers| - 1]];
    }
  }

  /** Keepup's own container, or one of the project that container belongs to. */
  ghost predicate Own(c: Container, containers: seq<Container>, self: Option<string>) {
    && self.Some?
    && (c.id == self.value
        || (c.project != "" && exists k | 0 <= k < |containers| :: containers[k].project == c.project && containers[k].id == self.value))
  }

  /** An agent runs on the host, and a container of the project was started from Portainer's directory by a listed stack. */
  ghost predicate Claimed(project: string, containers: seq<Container>, known: Option<seq<Stack>>) {
    && project != ""
    && (exists k | 0 <= k < |containers| :: AfterLast(Lower(containers[k].image), "portainer/agent").Some?)
    && (exists k | 0 <= k < |containers| :: containers[k].project == project && FromPortainer(containers[k], known))
  }

  ghost predicate FromPortainer(c: Container, known: Option<seq<Stack>>) {
    && "/data/compose/" <= c.configFiles
    && (known.Some? ==> exists j | 0 <= j < |known.value| ::
          StackIdIn(c.configFiles) == Some(known.value[j].id) && Lower(known.value[j].name.GetOr("")) == Lower(c.project))
  }

  function IndexOf(known: Option<seq<Stack>>): Option<Index> {
    match known
    case None => None
    case Some(stacks) => Some(StackIndex(stacks))
  }

  lemma ListedExactly(c: Container, stacks: seq<Stack>)
    ensures Listed(c, StackIndex(stacks)) <==> exists j | 0 <= j < |stacks| ::
              StackIdIn(c.configFiles) == Some(stacks[j].id) && Lower(stacks[j].name.GetOr("")) == Lower(c.project)
  {
    if Listed(c, StackIndex(stacks)) {
      var j :| 0 <= j < |stacks| && (StackIdIn(c.configFiles).value, Lower(c.project)) == (stacks[j].id, Lower(stacks[j].name.GetOr("")));
      assert StackIdIn(c.configFiles) == Some(stacks[j].id);
    }
  }

  lemma ClaimedExactly(project: string, containers: seq<Container>, known: Option<seq<Stack>>)
    ensures project in ManagedProjects(containers, IndexOf(known)) <==> Claimed(project, containers, known)
  {
    forall k | 0 <= k < |containers|
      ensures Claims(containers[k], IndexOf(known)) <==> containers[k].project != "" && FromPortainer(containers[k], known)
    {
      if known.Some? {
        ListedExactly(containers[k], known.value);
      }
    }
    if Claimed(project, containers, known) {
      var k :| 0 <= k < |containers| && containers[k].project == project && FromPortainer(containers[k], known);
      assert Claims(containers[k], IndexOf(known));
    }
  }

  /**
   Which containers of a host are entered, with nothing taken from the filter itself: those with a name and
   an image that are not Keepup's own and not claimed by an active Portainer.
   */
  lemma EnteredUnless(containers: seq<Container>, known: Option<seq<Stack>>, self: Option<string>, active: bool, c: Container)
    ensures c in Entries(containers, ScanOf(containers, IndexOf(known), self, active)) <==>
              c in containers && c.name != "" && c.image != "" && !Own(c, containers, self) && !(active && Claimed(c.project, containers, known))
  {
    EntryExactly(containers, ScanOf(containers, IndexOf(known), self, active), c);
    ClaimedExactly(c.project, containers, known);
    assert IsSelf(c, ScanOf(containers, IndexOf(known), self, active)) <==> Own(c, containers, self);
  }

  /** Entries come in the order of `docker ps`: the filter acts on each container alone. */
  lemma {:induction false} EntriesActOneByOne(a: seq<Container>, b: seq<Container>, s: Scan)
    ensures Entries(a + b, s) == Entries(a, s) + Entries(b, s)
  {
    if b == [] {
      assert a + b == a;
    } else {
      assert (a + b)[..|a + b| - 1] == a + b[..|b| - 1];
      EntriesActOneByOne(a, b[..|b| - 1], s);
    }
  }

  lemma EntryOfOne(c: Container, s: Scan)
    ensures Entries([c], s) == if c in Entries([c], s) then [c] else []
  {
    assert [c][..0] == [];
  }

  /** The stack that a listed project belongs to: some container of it names the stack's id and name. */
  ghost predicate StackOf(project: string, containers: seq<Container>, s: Stack) {
    && Lower(project) == Lower(s.name.GetOr(""))
    && exists k | 0 <= k < |containers| :: containers[k].project == project && StackIdIn(containers[k].configFiles) == Some(s.id)
  }

  lemma ManagedHasStack(containers: seq<Container>, stacks: seq<Stack>, project: string) returns (s: Stack)
    requires project in ManagedProjects(containers, Some(StackIndex(stacks)))
    ensures project != "" && s in stacks && StackOf(project, containers, s)
  {
    var known := Some(StackIndex(stacks));
    var k :| 0 <= k < |containers| && Claims(containers[k], known) && containers[k].project == project;
    var id := StackIdIn(containers[k].configFiles).value;
    var j :| 0 <= j < |stacks| && (id, Lower(project)) == (stacks[j].id, Lower(stacks[j].name.GetOr("")));
    s := stacks[j];
  }

  /**
   With Portainer active and its stack list in hand, every named, imaged container that is not
   Keepup's own is an SSH entry, or it belongs to a listed stack for which Portainer sends a row
   unless that stack is Keepup's own. The row carries the name the project was matched by.
   */
  lemma NobodyUnchecked(containers: seq<Container>, stacks: seq<Stack>, endpoints: map<nat, seq<Remote>>,
                        self: Option<string>, selfName: Option<string>, c: Container)
    requires c in containers && c.name != "" && c.image != ""
    requires !Own(c, containers, self)
    ensures || c in Entries(containers, ScanOf(containers, Some(StackIndex(stacks)), self, true))
            || exists s | s in stacks ::
                 && StackOf(c.project, containers, s) && s.name.Some?
                 && (s in Rows(stacks, endpoints, self, selfName) || RunsKeepup(s, RemotesOf(endpoints, s.endpoint), self, selfName))
  {
    var scan := ScanOf(containers, Some(StackIndex(stacks)), self, true);
    EntryExactly(containers, scan, c);
    EnteredUnless(containers, Some(stacks), self, true, c);
    if c !in Entries(containers, scan) {
      ClaimedExactly(c.project, containers, Some(stacks));
      var s := ManagedHasStack(containers, stacks, c.project);
      RowExactly(stacks, endpoints, self, selfName, s);
      assert |Lower(c.project)| == |c.project|;
    }
  }

  // ------------------------------------------------------------------
  // The claim forgets the endpoint
  // ------------------------------------------------------------------

  /** Some row looks at this very container, on whichever endpoint the row is about. */
  ghost predicate SeenByPortainer(c: Container, rows: seq<Stack>, endpoints: map<nat, seq<Remote>>) {
    exists s, r | s in rows && r in RemotesOf(endpoints, s.endpoint) :: r.id == c.id && Belongs(r, s)
  }

  /** Portainer reports the container on endpoint `here`, and as container ids are unique, nowhere else. */
  ghost predicate ReportedAt(c: Container, endpoints: map<nat, seq<Remote>>, here: nat) {
    && (exists r | r in RemotesOf(endpoints, here) :: r.id == c.id)
    && (forall e, r | e in endpoints && r in endpoints[e] && r.id == c.id :: e == here && r.project == c.project)
  }

  /** The stack of that name on this very endpoint, unless it is Keepup's own. */
  ghost predicate StackHere(c: Container, s: Stack, endpoints: map<nat, seq<Remote>>, self: Option<string>, selfName: Option<string>, here: nat) {
    && s.endpoint == here && Lower(c.project) == Lower(s.name.GetOr("unknown"))
    && !RunsKeepup(s, RemotesOf(endpoints, here), self, selfName)
  }

  lemma SeenExactly(stacks: seq<Stack>, endpoints: map<nat, seq<Remote>>, self: Option<string>, selfName: Option<string>, here: nat, c: Container)
    requires ReportedAt(c, endpoints, here)
    ensures SeenByPortainer(c, Rows(stacks, endpoints, self, selfName), endpoints)
       <==> exists s | s in stacks :: StackHere(c, s, endpoints, self, selfName, here)
  {
    var rows := Rows(stacks, endpoints, self, selfName);
    if SeenByPortainer(c, rows, endpoints) {
      var s, r :| s in rows && r in RemotesOf(endpoints, s.endpoint) && r.id == c.id && Belongs(r, s);
      RowExactly(stacks, endpoints, self, selfName, s);
      assert StackHere(c, s, endpoints, self, selfName, here);
    }
    if s :| s in stacks && StackHere(c, s, endpoints, self, selfName, here) {
      RowExactly(stacks, endpoints, self, selfName, s);
      var r :| r in RemotesOf(endpoints, here) && r.id == c.id;
      assert s in rows && r in RemotesOf(endpoints, s.endpoint) && Belongs(r, s);
    }
  }

  /**
   A container of a reachable endpoint is checked by somebody exactly when it is not claimed, or the list
   has a stack of its project's name on this endpoint that is not Keepup's own.
   */
  lemma CheckedExactly(containers: seq<Container>, stacks: seq<Stack>, endpoints: map<nat, seq<Remote>>,
                       self: Option<string>, selfName: Option<string>, here: nat, c: Container)
    requires c in containers && c.name != "" && c.image != "" && ReportedAt(c, endpoints, here)
    requires !Own(c, containers, self)
    ensures c in Entries(containers, ScanOf(containers, Some(StackIndex(stacks)), self, true))
            || SeenByPortainer(c, Rows(stacks, endpoints, self, selfName), endpoints)
       <==> !Claimed(c.project, containers, Some(stacks))
            || exists s | s in stacks :: StackHere(c, s, endpoints, self, selfName, here)
  {
    EnteredUnless(containers, Some(stacks), self, true, c);
    SeenExactly(stacks, endpoints, self, selfName, here, c);
  }

  const LEFTOVER: Container := Container("w", "web-1", "nginx", "web", "/data/compose/" + ("1" + "/" + "docker-compose.yml"))
  const AGENT: Container := Container("p", "agent", "portainer/agent", "", "")
  const WEB: Stack := Stack(1, Some("web"), 2)
  const ENDPOINTS: map<nat, seq<Remote>> := map[1 := [Remote("w", ["web-1"], "web")], 2 := []]

  lemma LeftoverNamesStackOne()
    ensures StackIdIn(LEFTOVER.configFiles) == Some(1) && "/data/compose/" <= LEFTOVER.configFiles
  {
    PathNamesStack(1, "docker-compose.yml");
    assert Decimal(1) == "1";
  }

  lemma StackMatches(c: Container, s: Stack)
    requires "/data/compose/" <= c.configFiles && StackIdIn(c.configFiles) == Some(s.id) && s.name == Some(c.project)
    ensures FromPortainer(c, Some([s]))
  {
    assert [s][0] == s;
  }

  lemma LeftoverIsOurs()
    ensures FromPortainer(LEFTOVER, Some([WEB]))
  {
    LeftoverNamesStackOne();
    StackMatches(LEFTOVER, WEB);
  }

  lemma LeftoverIsClaimed()
    ensures Claimed("web", [AGENT, LEFTOVER], Some([WEB]))
  {
    var containers := [AGENT, LEFTOVER];
    LeftoverIsOurs();
    AgentIsAgent();
    assert containers[0] == AGENT && containers[1] == LEFTOVER;
  }

  /**
   The index of stacks holds ids and names only. Here the one stack `web` lives on endpoint 2, and a
   leftover project of that id and name on endpoint 1 is claimed by it and checked by nobody.
   */
  lemma ClaimedFromElsewhere()
    ensures var scan := ScanOf([AGENT, LEFTOVER], Some(StackIndex([WEB])), None, true);
            && ReportedAt(LEFTOVER, ENDPOINTS, 1) && !Own(LEFTOVER, [AGENT, LEFTOVER], None)
            && LEFTOVER !in Entries([AGENT, LEFTOVER], scan)
            && !SeenByPortainer(LEFTOVER, Rows([WEB], ENDPOINTS, None, None), ENDPOINTS)
  {
    assert Remote("w", ["web-1"], "web") in ENDPOINTS[1];
    LeftoverIsClaimed();
    CheckedExactly([AGENT, LEFTOVER], [WEB], ENDPOINTS, None, None, 1, LEFTOVER);
  }

  /** A path below Portainer's directory names its stack by number. */
  lemma PathNamesStack(id: nat, file: string)
    ensures StackIdIn("/data/compose/" + (Decimal(id) + "/" + file)) == Some(id)
  {
    var below := Decimal(id) + "/" + file;
    var path := "/data/compose/" + below;
    assert path[|COMPOSE_ROOT|..] == below;
    CutOfJoin(Decimal(id), '/', file);
    ParseOfDecimal(id);
  }

  lemma AgentIsAgent()
    ensures AfterLast(Lower("portainer/agent"), "portainer/agent").Some?
  {
    assert Lower("portainer/agent") == "portainer/agent";
  }

  /** Without a Portainer integration nothing is left out, whatever the paths say. */
  lemma InactiveLeavesNothing(containers: seq<Container>, known: Option<seq<Stack>>, self: Option<string>, c: Container)
    requires c in containers && c.name != "" && c.image != "" && !Own(c, containers, self)
    ensures c in Entries(containers, ScanOf(containers, IndexOf(known), self, false))
  {
    EnteredUnless(containers, known, self, false, c);
  }

  /** A better list only moves containers towards SSH: what the path rule alone would enter stays entered. */
  lemma ListNarrowsClaims(containers: seq<Container>, known: Index, self: Option<string>, active: bool, c: Container)
    requires c in Entries(containers, ScanOf(containers, None, self, active))
    ensures c in Entries(containers, ScanOf(containers, Some(known), self, active))
  {
    EntryExactly(containers, ScanOf(containers, None, self, active), c);
    EntryExactly(containers, ScanOf(containers, Some(known), self, active), c);
    forall p | p in ManagedProjects(containers, Some(known))
      ensures p in ManagedProjects(containers, None)
    {
      var k :| 0 <= k < |containers| && Claims(containers[k], Some(known)) && containers[k].project == p;
      assert Claims(containers[k], None);
    }
  }
}
