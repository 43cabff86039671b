/**
 Several Proxmox servers in one configuration: the server and host operations, the one-shot
 migration off the single `proxmox:` block, and which server and credentials a host resolves to
 (app/config_manager.py, app/credentials.py, app/host_ops.py, app/proxmox_client.py).
 */
module ProxmoxConfig {
  import opened Options
  import opened Slugs
  import opened Text

  datatype Value = Str(s: string) | Num(n: int) | Flag(b: bool) | Null | Names(names: seq<string>)

  type Dict = map<string, Value>

  /** Truthiness, as Python decides it. */
  predicate Truthy(v: Value) {
    match v
    case Str(s) => s != ""
    case Num(n) => n != 0
    case Flag(b) => b
    case Null => false
    case Names(names) => names != []
  }

  /** `d.get(key)` */
  function Get(d: Dict, key: string): Value {
    if key in d then d[key] else Null
  }

  datatype Legacy = Legacy(url: Option<string>, verify: Option<bool>, pem: Option<string>, fingerprint: Option<string>)

  datatype Server = Server(id: string, url: string, verify: bool, pem: Option<string>, fingerprint: Option<string>)

  /** `legacy` is None when the `proxmox:` block is missing or empty; `servers` when the list is missing. */
  datatype Config = Config(hosts: seq<Dict>, legacy: Option<Legacy>, servers: Option<seq<Server>>)

  type Creds = map<string, string>

  /** The decrypted credential store: host slugs and `__integration_…__` keys side by side. */
  type Store = map<string, Creds>

  function ServerList(c: Config): seq<Server> {
    c.servers.GetOr([])
  }

  function ServerIds(servers: seq<Server>): (ids: set<string>)
    ensures forall k | 0 <= k < |servers| :: servers[k].id in ids
    ensures forall id | id in ids :: exists k :: 0 <= k < |servers| && servers[k].id == id
  {
    set k | 0 <= k < |servers| :: servers[k].id
  }

  // ------------------------------------------------------------------
  // Resolution
  // ------------------------------------------------------------------

  function IntegrationKey(key: string): string {
    "__integration_" + key + "__"
  }

  function Lookup(store: Store, key: string): Creds {
    if key in store then store[key] else map[]
  }

  /** What the callers read of a server block, with their defaults. */
  datatype View = View(url: string, verify: bool, pem: string)

  const NO_VIEW: View := View("", true, "")

  function LegacyView(l: Legacy): View {
    View(l.url.GetOr(""), l.verify.GetOr(true), l.pem.GetOr(""))
  }

  function ServerView(s: Server): View {
    View(s.url, s.verify, s.pem.GetOr(""))
  }

  /** get_proxmox_config: the legacy block, else the first server. */
  function DefaultView(c: Config): View {
    if c.legacy.Some? then LegacyView(c.legacy.value)
    else if ServerList(c) != [] then ServerView(ServerList(c)[0])
    else NO_VIEW
  }

  /** get_proxmox_server: the first server with the id. */
  function ViewOf(servers: seq<Server>, id: string): View {
    if servers == [] then NO_VIEW
    else if servers[0].id == id then ServerView(servers[0])
    else ViewOf(servers[1..], id)
  }

  /** get_integration_credentials, with its fallback for the bare `proxmox` key. */
  function CredentialsFor(c: Config, store: Store, key: string): Creds {
    if IntegrationKey(key) in store then store[IntegrationKey(key)]
    else if key == "proxmox" && ServerList(c) != [] then Lookup(store, IntegrationKey("proxmox_" + ServerList(c)[0].id))
    else map[]
  }

  datatype Target = Target(view: View, creds: Creds)

  /** What a caller without a host, or with an unstamped one, talks to. */
  function DefaultTarget(c: Config, store: Store): Target {
    Target(DefaultView(c), CredentialsFor(c, store, "proxmox"))
  }

  function Stamp(host: Dict): Option<string> {
    match Get(host, "proxmox_server")
    case Str(id) => if id == "" then None else Some(id)
    case _ => None
  }

  /** server_context: which server a host is on, and the credentials for it. */
  function Resolve(c: Config, store: Store, host: Dict): Target {
    match Stamp(host)
    case Some(id) => Target(ViewOf(ServerList(c), id), CredentialsFor(c, store, "proxmox_" + id))
    case None => DefaultTarget(c, store)
  }

  // ------------------------------------------------------------------
  // Operations
  // ------------------------------------------------------------------

  datatype Kind = Plain | Node | Lxc | Vm

  /** classify_host: a missing type on a host with a vmid means a container. */
  function Classify(host: Dict): Kind {
    if !Truthy(Get(host, "proxmox_node")) then Plain
    else if Get(host, "proxmox_vmid") == Null then Node
    else if Get(host, "proxmox_type") == Str("vm") then Vm
    else Lxc
  }

  const PROXMOX_FIELDS: set<string> := {"proxmox_node", "proxmox_vmid", "proxmox_type", "proxmox_server"}

  predicate IsVm(host: Dict) {
    Get(host, "proxmox_vmid") != Null && Get(host, "proxmox_type") == Str("vm")
  }

  function NameOf(host: Dict): string {
    match Get(host, "name")
    case Str(s) => s
    case _ => ""
  }

  function WithoutServer(servers: seq<Server>, id: string): seq<Server> {
    if servers == [] then []
    else (if servers[0].id == id then [] else [servers[0]]) + WithoutServer(servers[1..], id)
  }

  /** What deleting server `id` leaves of one host: itself, a plain host, or nothing. */
  function Survivors(host: Dict, id: string): seq<Dict> {
    if Stamp(host) != Some(id) then [host]
    else if IsVm(host) then [host - PROXMOX_FIELDS]
    else []
  }

  function SurvivingHosts(hosts: seq<Dict>, id: string): seq<Dict> {
    if hosts == [] then [] else SurvivingHosts(hosts[..|hosts| - 1], id) + Survivors(hosts[|hosts| - 1], id)
  }

  function DroppedSlugs(hosts: seq<Dict>, id: string): set<string> {
    set k | 0 <= k < |hosts| && Survivors(hosts[k], id) == [] && Slugify(NameOf(hosts[k])) != "" :: Slugify(NameOf(hosts[k]))
  }

  function Stamped(host: Dict, id: string): Dict {
    if Truthy(Get(host, "proxmox_node")) then host["proxmox_server" := Str(id)] else host
  }

  function StampAll(hosts: seq<Dict>, id: string): (r: seq<Dict>)
    ensures |r| == |hosts| && forall k | 0 <= k < |hosts| :: r[k] == Stamped(hosts[k], id)
  {
    seq(|hosts|, k requires 0 <= k < |hosts| => Stamped(hosts[k], id))
  }

  function MigratedServer(l: Legacy, id: string): Server {
    var pinned := l.pem.GetOr("") != "";
    Server(id, l.url.GetOr(""), l.verify.GetOr(true),
           if pinned then l.pem else None, if pinned then Some(l.fingerprint.GetOr("")) else None)
  }

  function Migrated(c: Config, id: string): Config {
    if c.legacy.None? then c
    else if ServerList(c) != [] then c.(legacy := None)
    else Config(StampAll(c.hosts, id), None, Some([MigratedServer(c.legacy.value, id)]))
  }

  /** rename_integration_credentials */
  function Renamed(store: Store, from: string, to: string): Store {
    if from != to && IntegrationKey(from) in store
    then (store - {IntegrationKey(from)})[IntegrationKey(to) := store[IntegrationKey(from)]]
    else store
  }

  function MigratedStore(c: Config, store: Store, id: string): Store {
    if c.legacy.None? || ServerList(c) != [] then store else Renamed(store, "proxmox", "proxmox_" + id)
  }

  /** The entry add_proxmox_server appends. */
  function NewServer(id: string, url: string, verify: bool, pem: string, fingerprint: string): Server {
    Server(id, RStrip(url, '/'), verify, if pem == "" then None else Some(pem), if pem == "" then None else Some(fingerprint))
  }

  /** A caller of update_proxmox_server leaves a field alone with None. */
  datatype Change = Change(url: Option<string>, verify: Option<bool>, pem: Option<string>, fingerprint: Option<string>)

  function Changed(s: Server, ch: Change): Server {
    s.(url := match ch.url case None => s.url case Some(url) => RStrip(url, '/'),
       verify := ch.verify.GetOr(s.verify),
       pem := if ch.pem.Some? then ch.pem else s.pem,
       fingerprint := if ch.fingerprint.Some? then ch.fingerprint else s.fingerprint)
  }

  function ChangeFirst(servers: seq<Server>, id: string, ch: Change): seq<Server> {
    if servers == [] then []
    else if servers[0].id == id then [Changed(servers[0], ch)] + servers[1..]
    else [servers[0]] + ChangeFirst(servers[1..], id, ch)
  }

  /** update_host rebuilds the first entry with the slug: only the docker settings are carried over. */
  function Rebuilt(host: Dict, fields: Dict): Dict {
    (fields - PROXMOX_FIELDS)
    + (map k | k in {"docker_mode", "docker_stacks"} && k in host :: host[k])
  }

  function RebuildFirst(hosts: seq<Dict>, slug: string, fields: Dict): seq<Dict> {
    if hosts == [] then []
    else if Slugify(NameOf(hosts[0])) == slug then [Rebuilt(hosts[0], fields)] + hosts[1..]
    else [hosts[0]] + RebuildFirst(hosts[1..], slug, fields)
  }

  function WithoutHost(hosts: seq<Dict>, slug: string): seq<Dict> {
    if hosts == [] then []
    else (if Slugify(NameOf(hosts[0])) == slug then [] else [hosts[0]]) + WithoutHost(hosts[1..], slug)
  }

  /** One configuration operation. `host` of AddServer and Migrate is the host part of the URL. */
  datatype Op =
    | AddServer(host: string, server: Server)
    | UpdateServer(id: string, change: Change)
    | DeleteServer(id: string)
    | Migrate(host: string)
    | AddHost(entry: Dict)
    | UpdateHost(slug: string, fields: Dict)
    | DeleteHost(slug: string)

  ghost predicate Step(op: Op, c: Config, c': Config) {
    match op
    case AddServer(host, server) =>
      && IsUniqueId(SlugifyServerId(host), ServerIds(ServerList(c)), server.id)
      && c' == c.(servers := Some(ServerList(c) + [server]))
    case UpdateServer(id, change) =>
      c' == if c.servers.None? then c else c.(servers := Some(ChangeFirst(ServerList(c), id, change)))
    case DeleteServer(id) =>
      c' == if id !in ServerIds(ServerList(c)) then c
            else c.(servers := Some(WithoutServer(ServerList(c), id)), hosts := SurvivingHosts(c.hosts, id))
    case Migrate(host) => c' == Migrated(c, SlugifyServerId(host))
    case AddHost(entry) =>
      && (Stamp(entry).Some? ==> Stamp(entry).value in ServerIds(ServerList(c)))
      && c' == c.(hosts := c.hosts + [entry])
    case UpdateHost(slug, fields) => c' == c.(hosts := RebuildFirst(c.hosts, slug, fields))
    case DeleteHost(slug) => c' == c.(hosts := WithoutHost(c.hosts, slug))
  }

  // ------------------------------------------------------------------
  // Over any sequence of operations
  // ------------------------------------------------------------------

  ghost predicate DistinctServers(servers: seq<Server>) {
    forall j, k | 0 <= j < k < |servers| :: servers[j].id != servers[k].id
  }

  ghost predicate StampsResolve(hosts: seq<Dict>, ids: set<string>) {
    forall k | 0 <= k < |hosts| && Stamp(hosts[k]).Some? :: Stamp(hosts[k]).value in ids
  }

  /** Server ids are pairwise distinct and every stamped host names an existing server. */
  ghost predicate Consistent(c: Config) {
    DistinctServers(ServerList(c)) && StampsResolve(c.hosts, ServerIds(ServerList(c)))
  }

  /** What a rebuilt host holds: the docker settings of the old one, no proxmox field, and else what was entered. */
  lemma RebuiltHolds(host: Dict, fields: Dict, key: string)
    ensures key in {"docker_mode", "docker_stacks"} && key in host ==> key in Rebuilt(host, fields) && Rebuilt(host, fields)[key] == host[key]
    ensures key in {"proxmox_node", "proxmox_vmid", "proxmox_type", "proxmox_server"} ==> key !in Rebuilt(host, fields)
    ensures key !in {"proxmox_node", "proxmox_vmid", "proxmox_type", "proxmox_server"} && !(key in {"docker_mode", "docker_stacks"} && key in host) ==>
              (key in Rebuilt(host, fields) <==> key in fields) && Get(Rebuilt(host, fields), key) == Get(fields, key)
  {
  }

  lemma IdsOfCons(s: Server, rest: seq<Server>)
    ensures ServerIds([s] + rest) == {s.id} + ServerIds(rest)
  {
    IdsOfConcat([s], rest);
    assert [s][0].id in ServerIds([s]);
  }

  lemma {:induction false} WithoutServerIds(servers: seq<Server>, id: string)
    ensures ServerIds(WithoutServer(servers, id)) == ServerIds(servers) - {id}
  {
    if servers != [] {
      WithoutServerIds(servers[1..], id);
      assert servers == [servers[0]] + servers[1..];
      IdsOfCons(servers[0], servers[1..]);
      IdsOfCons(servers[0], WithoutServer(servers[1..], id));
      assert servers[0].id == id ==> WithoutServer(servers, id) == WithoutServer(servers[1..], id);
    }
  }

  lemma {:induction false} WithoutServerDistinct(servers: seq<Server>, id: string)
    requires DistinctServers(servers)
    ensures DistinctServers(WithoutServer(servers, id))
  {
    if servers != [] {
      var rest := WithoutServer(servers[1..], id);
      WithoutServerDistinct(servers[1..], id);
      WithoutServerIds(servers[1..], id);
      assert servers[0].id !in ServerIds(servers[1..]);
      forall k | 0 <= k < |rest|
        ensures rest[k].id != servers[0].id
      {
        assert rest[k].id in ServerIds(rest);
      }
    }
  }

  lemma IdsOfConcat(a: seq<Server>, b: seq<Server>)
    ensures ServerIds(a + b) == ServerIds(a) + ServerIds(b)
  {
    forall id | id in ServerIds(a) + ServerIds(b)
      ensures id in ServerIds(a + b)
    {
      if id in ServerIds(a) {
        var k :| 0 <= k < |a| && a[k].id == id;
        assert (a + b)[k].id == id;
      } else {
        var k :| 0 <= k < |b| && b[k].id == id;
        assert (a + b)[|a| + k].id == id;
      }
    }
  }

  lemma {:induction false} ChangeKeepsIds(servers: seq<Server>, id: string, ch: Change)
    ensures |ChangeFirst(servers, id, ch)| == |servers|
    ensures forall k | 0 <= k < |servers| :: ChangeFirst(servers, id, ch)[k].id == servers[k].id
  {
    if servers != [] && servers[0].id != id {
      ChangeKeepsIds(servers[1..], id, ch);
    }
  }

  lemma SameIds(a: seq<Server>, b: seq<Server>)
    requires |a| == |b| && forall k | 0 <= k < |a| :: a[k].id == b[k].id
    ensures ServerIds(a) == ServerIds(b) && (DistinctServers(a) ==> DistinctServers(b))
  {
    forall id | id in ServerIds(a)
      ensures id in ServerIds(b)
    {
      var k :| 0 <= k < |a| && a[k].id == id;
      assert b[k].id in ServerIds(b);
    }
  }

  /** Deleting a server leaves no host that still names it, and no other stamp is touched. */
  lemma {:induction false} SurvivorsNameOthers(hosts: seq<Dict>, ids: set<string>, id: string)
    requires StampsResolve(hosts, ids)
    ensures StampsResolve(SurvivingHosts(hosts, id), ids - {id})
  {
    if hosts != [] {
      SurvivorsNameOthers(hosts[..|hosts| - 1], ids, id);
      assert Stamp(hosts[|hosts| - 1] - PROXMOX_FIELDS) == None;
    }
  }

  lemma {:induction false} RebuildKeepsStamps(hosts: seq<Dict>, slug: string, fields: Dict, ids: set<string>)
    requires StampsResolve(hosts, ids)
    ensures StampsResolve(RebuildFirst(hosts, slug, fields), ids)
  {
    if hosts != [] {
      if Slugify(NameOf(hosts[0])) == slug {
        assert Stamp(Rebuilt(hosts[0], fields)) == None;
      } else {
        RebuildKeepsStamps(hosts[1..], slug, fields, ids);
      }
    }
  }

  lemma {:induction false} RemovalKeepsStamps(hosts: seq<Dict>, slug: string, ids: set<string>)
    requires StampsResolve(hosts, ids)
    ensures StampsResolve(WithoutHost(hosts, slug), ids)
  {
    if hosts != [] {
      RemovalKeepsStamps(hosts[1..], slug, ids);
    }
  }

  lemma UniqueIdIsNew(base: string, taken: set<string>, id: string)
    requires IsUniqueId(base, taken, id)
    ensures id !in taken && id !in RESERVED
  {
    if base in taken || base in RESERVED {
      var n :| n >= 2 && id == Suffixed(base, n) && id !in taken && forall m | 2 <= m < n :: Suffixed(base, m) in taken;
      SuffixedNotReserved(base, n);
    }
  }

  lemma StepKeepsConsistent(op: Op, c: Config, c': Config)
    requires Consistent(c) && Step(op, c, c')
    ensures Consistent(c')
  {
    var servers, ids := ServerList(c), ServerIds(ServerList(c));
    match op
    case AddServer(host, server) =>
      UniqueIdIsNew(SlugifyServerId(host), ids, server.id);
      IdsOfConcat(servers, [server]);
    case UpdateServer(id, change) =>
      ChangeKeepsIds(servers, id, change);
      SameIds(servers, ChangeFirst(servers, id, change));
    case DeleteServer(id) =>
      WithoutServerIds(servers, id);
      WithoutServerDistinct(servers, id);
      SurvivorsNameOthers(c.hosts, ids, id);
    case Migrate(host) => MigrationKeepsConsistent(c, SlugifyServerId(host));
    case AddHost(entry) =>
    case UpdateHost(slug, fields) => RebuildKeepsStamps(c.hosts, slug, fields, ids);
    case DeleteHost(slug) => RemovalKeepsStamps(c.hosts, slug, ids);
  }

  lemma MigrationKeepsConsistent(c: Config, id: string)
    requires Consistent(c) && id != ""
    ensures Consistent(Migrated(c, id))
  {
    if c.legacy.Some? && ServerList(c) == [] {
      var c' := Migrated(c, id);
      assert ServerList(c')[0].id == id;
      forall k | 0 <= k < |c'.hosts| && Stamp(c'.hosts[k]).Some?
        ensures Stamp(c'.hosts[k]).value in ServerIds(ServerList(c'))
      {
        assert Stamp(c.hosts[k]).None?;
      }
    }
  }

  ghost predicate Run(configs: seq<Config>, ops: seq<Op>) {
    |configs| == |ops| + 1 && forall k | 0 <= k < |ops| :: Step(ops[k], configs[k], configs[k + 1])
  }

  /** Across any sequence of operations, ids stay distinct and every stamp names an existing server. */
  lemma {:induction false} EveryRunStaysConsistent(configs: seq<Config>, ops: seq<Op>)
    requires Run(configs, ops) && Consistent(configs[0])
    ensures Consistent(configs[|ops|])
    decreases |ops|
  {
    if ops != [] {
      var n := |ops| - 1;
      EveryRunStaysConsistent(configs[..n + 1], ops[..n]);
      StepKeepsConsistent(ops[n], configs[n], configs[n + 1]);
    }
  }

  // ------------------------------------------------------------------
  // What the fields of a host and of a configuration mean
  // ------------------------------------------------------------------

  /** A host is stamped by a non-empty text, and named by a text. */
  lemma HostReads(host: Dict, text: string)
    ensures Get(host, "proxmox_server") == Str(text) && text != "" ==> Stamp(host) == Some(text)
    ensures Get(host, "proxmox_server") in {Null, Str("")} ==> Stamp(host) == None
    ensures Get(host, "name") == Str(text) ==> NameOf(host) == text
  {
  }

  /** Nobody is configured: no address, certificates verified, none pinned. */
  lemma NothingConfigured(c: Config, id: string)
    requires c.legacy == None && ServerList(c) == []
    ensures DefaultView(c) == View("", true, "") && ViewOf(ServerList(c), id) == View("", true, "")
  {
  }

  /** The whole effect of deleting a server on the server list and the hosts. */
  lemma DeleteServerDoes(c: Config, c': Config, id: string, other: string)
    requires Step(Op.DeleteServer(id), c, c')
    ensures id !in ServerIds(ServerList(c)) ==> c' == c
    ensures id in ServerIds(ServerList(c)) ==>
              && ServerIds(ServerList(c')) == ServerIds(ServerList(c)) - {id}
              && ViewOf(ServerList(c'), other) == (if other == id then NO_VIEW else ViewOf(ServerList(c), other))
              && c'.hosts == SurvivingHosts(c.hosts, id) && c'.legacy == c.legacy
  {
    WithoutServerIds(ServerList(c), id);
    DeletedServerResolves(ServerList(c), id, other);
  }

  /** The other servers keep their order, so the first of them stays the default. */
  lemma {:induction false} WithoutServerActsOneByOne(a: seq<Server>, b: seq<Server>, id: string)
    ensures WithoutServer(a + b, id) == WithoutServer(a, id) + WithoutServer(b, id)
  {
    if a == [] {
      assert a + b == b;
    } else {
      assert (a + b)[0] == a[0] && (a + b)[1..] == a[1..] + b;
      WithoutServerActsOneByOne(a[1..], b, id);
    }
  }

  /** Updating a server changes what its id resolves to, and nothing else at all. */
  lemma UpdateServerDoes(c: Config, c': Config, id: string, ch: Change, other: string)
    requires Step(Op.UpdateServer(id, ch), c, c')
    ensures c'.hosts == c.hosts && c'.legacy == c.legacy && |ServerList(c')| == |ServerList(c)|
    ensures ViewOf(ServerList(c'), other)
         == if other == id && id in ServerIds(ServerList(c)) then ChangedView(ViewOf(ServerList(c), id), ch) else ViewOf(ServerList(c), other)
  {
    ChangedServerResolves(ServerList(c), id, ch, other);
    ChangeKeepsIds(ServerList(c), id, ch);
  }

  /** Field by field: what is given replaces, what is not stays; the id always stays. */
  lemma ChangedHolds(s: Server, ch: Change)
    ensures Changed(s, ch).id == s.id
    ensures ch.fingerprint == None ==> Changed(s, ch).fingerprint == s.fingerprint
    ensures ch.fingerprint.Some? ==> Changed(s, ch).fingerprint == ch.fingerprint
    ensures ch.url == None && ch.verify == None && ch.pem == None && ch.fingerprint == None ==> Changed(s, ch) == s
  {
  }

  /** Deleting a host removes exactly those with its slug; each is judged alone. */
  lemma {:induction false} WithoutHostActsOneByOne(a: seq<Dict>, b: seq<Dict>, slug: string)
    ensures WithoutHost(a + b, slug) == WithoutHost(a, slug) + WithoutHost(b, slug)
  {
    if a == [] {
      assert a + b == b;
    } else {
      assert (a + b)[0] == a[0] && (a + b)[1..] == a[1..] + b;
      WithoutHostActsOneByOne(a[1..], b, slug);
    }
  }

  lemma WithoutOneHost(host: Dict, slug: string)
    ensures WithoutHost([host], slug) == if Slugify(NameOf(host)) == slug then [] else [host]
  {
    assert [host][1..] == [];
  }

  // ------------------------------------------------------------------
  // An operation on one server leaves the others' resolution alone
  // ------------------------------------------------------------------

  /** Under its new id an added server resolves to what was entered; every other id as before. */
  lemma {:induction false} AddedServerResolves(servers: seq<Server>, server: Server, id: string)
    requires server.id !in ServerIds(servers)
    ensures ViewOf(servers + [server], id) == if id == server.id then ServerView(server) else ViewOf(servers, id)
  {
    if servers == [] {
      assert servers + [server] == [server];
    } else {
      assert servers[0].id in ServerIds(servers);
      assert servers == [servers[0]] + servers[1..];
      IdsOfCons(servers[0], servers[1..]);
      assert (servers + [server])[1..] == servers[1..] + [server];
      AddedServerResolves(servers[1..], server, id);
    }
  }

  /** What is left unset in a change keeps its value. */
  function ChangedView(v: View, ch: Change): View {
    View(match ch.url case None => v.url case Some(url) => RStrip(url, '/'),
         ch.verify.GetOr(v.verify), ch.pem.GetOr(v.pem))
  }

  lemma {:induction false} ChangedServerResolves(servers: seq<Server>, target: string, ch: Change, id: string)
    ensures ViewOf(ChangeFirst(servers, target, ch), id)
         == if id == target && target in ServerIds(servers) then ChangedView(ViewOf(servers, id), ch) else ViewOf(servers, id)
  {
    if servers != [] {
      assert servers == [servers[0]] + servers[1..];
      IdsOfCons(servers[0], servers[1..]);
      if servers[0].id != target {
        ChangedServerResolves(servers[1..], target, ch, id);
      } else {
        assert ChangeFirst(servers, target, ch)[1..] == servers[1..];
      }
    }
  }

  lemma {:induction false} DeletedServerResolves(servers: seq<Server>, target: string, id: string)
    ensures ViewOf(WithoutServer(servers, target), id) == if id == target then NO_VIEW else ViewOf(servers, id)
  {
    if servers != [] {
      DeletedServerResolves(servers[1..], target, id);
      if servers[0].id == target {
        assert WithoutServer(servers, target) == WithoutServer(servers[1..], target);
      } else {
        assert WithoutServer(servers, target)[1..] == WithoutServer(servers[1..], target);
      }
    }
  }

  // ------------------------------------------------------------------
  // The migration preserves what everyone resolves to
  // ------------------------------------------------------------------

  lemma IntegrationKeyInjective(a: string, b: string)
    requires IntegrationKey(a) == IntegrationKey(b)
    ensures a == b
  {
    var n := |"__integration_"|;
    var s := IntegrationKey(a);
    assert s[n..|s| - 2] == a && IntegrationKey(b)[n..|s| - 2] == b;
  }

  lemma ServerKeyDiffers(id: string)
    ensures IntegrationKey("proxmox_" + id) != IntegrationKey("proxmox")
  {
    assert |IntegrationKey("proxmox_" + id)| > |IntegrationKey("proxmox")|;
  }

  /** What a caller can check before migrating: no foreign credentials wait under the new key. */
  predicate NewKeyIsClear(store: Store, id: string) {
    IntegrationKey("proxmox") in store || Lookup(store, IntegrationKey("proxmox_" + id)) == map[]
  }

  /** The credentials seen under the new key afterwards are those seen under `proxmox` before. */
  lemma CredentialsFollow(c: Config, store: Store, id: string)
    requires c.legacy.Some? && ServerList(c) == []
    ensures var c', store' := Migrated(c, id), MigratedStore(c, store, id);
            && CredentialsFor(c', store', "proxmox_" + id) == CredentialsFor(c', store', "proxmox")
            && (CredentialsFor(c', store', "proxmox") == CredentialsFor(c, store, "proxmox") <==> NewKeyIsClear(store, id))
  {
    ServerKeyDiffers(id);
    assert "proxmox_" + id != "proxmox" by { assert |"proxmox_" + id| > |"proxmox"|; }
  }

  /**
   Every Proxmox host, every unstamped host and every host-less caller resolves to the same url,
   verify flag, pinned certificate and credentials before and after, exactly when the new key is clear.
   */
  lemma MigrationPreservesMeaning(c: Config, store: Store, id: string, host: Dict)
    requires c.legacy.Some? && ServerList(c) == [] && id != "" && Stamp(host) == None
    ensures var c', store' := Migrated(c, id), MigratedStore(c, store, id);
            && (Resolve(c', store', Stamped(host, id)) == Resolve(c, store, host) <==> NewKeyIsClear(store, id))
            && (DefaultTarget(c', store') == DefaultTarget(c, store) <==> NewKeyIsClear(store, id))
  {
    CredentialsFollow(c, store, id);
    var c' := Migrated(c, id);
    assert ServerList(c')[0] == MigratedServer(c.legacy.value, id);
    assert ViewOf(ServerList(c'), id) == LegacyView(c.legacy.value);
  }

  /** Python counts this as no node: missing, empty or zero. */
  predicate NoNode(host: Dict) {
    "proxmox_node" !in host || host["proxmox_node"] in {Null, Str(""), Num(0), Flag(false), Names([])}
  }

  /** These are the same hosts, in the same order; each on a node is stamped, and nothing else of any is touched. */
  ghost predicate OnlyStamped(before: seq<Dict>, after: seq<Dict>, id: string) {
    && |after| == |before|
    && (forall k, key | 0 <= k < |before| && key != "proxmox_server" ::
          (key in after[k] <==> key in before[k]) && Get(after[k], key) == Get(before[k], key))
    && (forall k | 0 <= k < |before| :: Get(after[k], "proxmox_server") == if NoNode(before[k]) then Get(before[k], "proxmox_server") else Str(id))
    && (forall k | 0 <= k < |before| && NoNode(before[k]) :: after[k] == before[k])
  }

  /** The first server takes over the block; a fingerprint without a certificate is left behind. */
  lemma MigratedServerHolds(l: Legacy, id: string)
    ensures var s := MigratedServer(l, id);
            && s.id == id && s.url == l.url.GetOr("") && s.verify == l.verify.GetOr(true)
            && (l.pem in {None, Some("")} ==> s.pem == None && s.fingerprint == None)
            && (l.pem !in {None, Some("")} ==> s.pem == l.pem && s.fingerprint == Some(l.fingerprint.GetOr("")))
  {
  }

  /** Without a block there is nothing to do; beside a server list the block just goes. */
  lemma MigrationOtherwise(c: Config, store: Store, id: string)
    ensures c.legacy == None ==> Migrated(c, id) == c && MigratedStore(c, store, id) == store
    ensures c.legacy.Some? && ServerList(c) != [] ==>
              Migrated(c, id) == Config(c.hosts, None, c.servers) && MigratedStore(c, store, id) == store
  {
  }

  /** Hence every host stays what it was: plain, node, container or virtual machine. */
  lemma StampedStaysWhatItIs(before: seq<Dict>, after: seq<Dict>, id: string, k: nat)
    requires OnlyStamped(before, after, id) && k < |before|
    ensures Classify(after[k]) == Classify(before[k]) && NameOf(after[k]) == NameOf(before[k])
  {
  }

  /** Classification, with what each kind carries. */
  lemma ClassifyExactly(host: Dict)
    ensures Classify(host) == Plain <==> NoNode(host)
    ensures Classify(host) == Node <==> !NoNode(host) && Get(host, "proxmox_vmid") == Null
    ensures Classify(host) == Vm <==> !NoNode(host) && Get(host, "proxmox_vmid") != Null && Get(host, "proxmox_type") == Str("vm")
  {
  }

  lemma StampAllOnlyStamps(hosts: seq<Dict>, id: string)
    ensures OnlyStamped(hosts, StampAll(hosts, id), id)
  {
  }

  /**
   The configuration is saved before the credentials are renamed. If that is where it ends, a stamped
   host has lost its credentials unless the two keys hold the same; the others go by the old key as before.
   */
  lemma InterruptedMigration(c: Config, store: Store, id: string, host: Dict)
    requires c.legacy.Some? && ServerList(c) == [] && id != "" && Stamp(host) == None
    ensures var c', same := Migrated(c, id), Lookup(store, IntegrationKey("proxmox")) == Lookup(store, IntegrationKey("proxmox_" + id));
            && Resolve(c', store, Stamped(host, id)).view == Resolve(c, store, host).view
            && (Resolve(c', store, Stamped(host, id)) == Resolve(c, store, host)
                <==> if Truthy(Get(host, "proxmox_node")) then same else NewKeyIsClear(store, id))
            && (DefaultTarget(c', store) == DefaultTarget(c, store) <==> NewKeyIsClear(store, id))
  {
    ServerKeyDiffers(id);
    assert "proxmox_" + id != "proxmox" by { assert |"proxmox_" + id| > |"proxmox"|; }
    var c' := Migrated(c, id);
    assert ServerList(c')[0] == MigratedServer(c.legacy.value, id);
    assert ViewOf(ServerList(c'), id) == LegacyView(c.legacy.value);
  }

  /** And no later migration brings them back. */
  lemma InterruptedForGood(c: Config, store: Store, id: string, other: string, host: Dict)
    requires c.legacy.Some? && ServerList(c) == [] && id != "" && Stamp(host) == None && Truthy(Get(host, "proxmox_node"))
    requires Lookup(store, IntegrationKey("proxmox")) != Lookup(store, IntegrationKey("proxmox_" + id))
    ensures var c' := Migrated(c, id);
            Resolve(Migrated(c', other), MigratedStore(c', store, other), Stamped(host, id)) != Resolve(c, store, host)
  {
    InterruptedMigration(c, store, id, host);
  }

  /** A second migration changes nothing. */
  lemma MigrationIsIdempotent(c: Config, store: Store, id: string, other: string)
    ensures var c', store' := Migrated(c, id), MigratedStore(c, store, id);
            Migrated(c', other) == c' && MigratedStore(c', store', other) == store'
  {
  }

  /** Other integrations keep their credentials, and so do hosts: their slugs hold no underscore. */
  lemma MigrationSparesOthers(c: Config, store: Store, id: string, key: string)
    requires key != IntegrationKey("proxmox") && key != IntegrationKey("proxmox_" + id)
    ensures var store' := MigratedStore(c, store, id);
            (key in store' <==> key in store) && (key in store ==> store'[key] == store[key])
  {
  }

  /** The server id `backup` is the one that aliases another integration's key. */
  lemma BackupServerOverwrites(c: Config, store: Store, id: string)
    requires c.legacy.Some? && ServerList(c) == []
    requires IntegrationKey("proxmox") in store && IntegrationKey("proxmox_backup") in store
    requires store[IntegrationKey("proxmox")] != store[IntegrationKey("proxmox_backup")]
    ensures Lookup(MigratedStore(c, store, id), IntegrationKey("proxmox_backup")) == store[IntegrationKey("proxmox_backup")]
       <==> id != "backup"
  {
    ServerKeyDiffers(id);
    ServerKeyDiffers("backup");
    assert "proxmox_" + "backup" == "proxmox_backup";
    if id != "backup" {
      assert ("proxmox_" + id)[8..] == id && "proxmox_backup"[8..] == "backup";
      if IntegrationKey("proxmox_" + id) == IntegrationKey("proxmox_backup") {
        IntegrationKeyInjective("proxmox_" + id, "proxmox_backup");
      }
    }
  }

  // ------------------------------------------------------------------
  // Deleting a server
  // ------------------------------------------------------------------

  /** The credential store after delete_proxmox_server. */
  function StoreAfterDelete(store: Store, hosts: seq<Dict>, id: string): Store {
    store - {IntegrationKey("proxmox_" + id)} - DroppedSlugs(hosts, id)
  }

  lemma SlugIsNoIntegrationKey(slug: string, key: string)
    requires IsSlug(slug)
    ensures slug != IntegrationKey(key)
  {
    assert IntegrationKey(key)[0] == '_';
  }

  /** Only the deleted server's own entry goes from the integrations. */
  lemma DeleteSparesIntegrations(store: Store, hosts: seq<Dict>, id: string, key: string)
    ensures IntegrationKey(key) in StoreAfterDelete(store, hosts, id) <==> IntegrationKey(key) in store && key != "proxmox_" + id
  {
    forall slug | slug in DroppedSlugs(hosts, id)
      ensures slug != IntegrationKey(key)
    {
      var k :| 0 <= k < |hosts| && Survivors(hosts[k], id) == [] && Slugify(NameOf(hosts[k])) == slug;
      SlugifyIsSlug(NameOf(hosts[k]));
      SlugIsNoIntegrationKey(slug, key);
    }
    if IntegrationKey(key) == IntegrationKey("proxmox_" + id) {
      IntegrationKeyInjective(key, "proxmox_" + id);
    }
  }

  /** A host keeps its own credentials unless a deleted host has the same slug. */
  lemma DeleteSparesHosts(store: Store, hosts: seq<Dict>, id: string, host: Dict)
    ensures var slug := Slugify(NameOf(host));
            slug in StoreAfterDelete(store, hosts, id) <==> slug in store && slug !in DroppedSlugs(hosts, id)
  {
    var slug := Slugify(NameOf(host));
    SlugifyIsSlug(NameOf(host));
    SlugIsNoIntegrationKey(slug, "proxmox_" + id);
  }

  /** Unrelated hosts keep their content and their order; deletion acts host by host. */
  lemma {:induction false} DeleteActsHostByHost(a: seq<Dict>, b: seq<Dict>, id: string)
    ensures SurvivingHosts(a + b, id) == SurvivingHosts(a, id) + SurvivingHosts(b, id)
  {
    if b == [] {
      assert a + b == a;
    } else {
      assert (a + b)[..|a + b| - 1] == a + b[..|b| - 1];
      DeleteActsHostByHost(a, b[..|b| - 1], id);
    }
  }

  /** Exactly the hosts that lived on the server go or change: a VM loses the four proxmox fields and nothing else. */
  lemma DeleteOneHost(host: Dict, id: string)
    ensures SurvivingHosts([host], id) == Survivors(host, id)
    ensures Stamp(host) != Some(id) ==> Survivors(host, id) == [host]
    ensures Stamp(host) == Some(id) && Truthy(Get(host, "proxmox_node")) ==>
              (Survivors(host, id) == [] <==> Classify(host) in {Node, Lxc})
    ensures forall h | h in Survivors(host, id) && h != host ::
              && Stamp(host) == Some(id) && Classify(h) == Plain
              && (forall k :: k in h <==> k in host && k !in {"proxmox_node", "proxmox_vmid", "proxmox_type", "proxmox_server"})
              && (forall k | k in h :: h[k] == host[k])
  {
    assert [host][..0] == [];
  }

  // ------------------------------------------------------------------
  // The operations on the stored configuration
  // ------------------------------------------------------------------

  class ConfigManager {
    var config: Config
    var store: Store

    constructor (config: Config, store: Store)
      ensures this.config == config && this.store == store
    {
      this.config, this.store := config, store;
    }

    /** Append a server under an id no other server has. */
    method AddServer(url: string, host: string, verify: bool, pem: string, fingerprint: string) returns (id: string)
      modifies this`config
      ensures Step(Op.AddServer(host, NewServer(id, url, verify, pem, fingerprint)), old(config), config)
      ensures old(Consistent(config)) ==> Consistent(config)
      ensures id !in ServerIds(ServerList(old(config))) && id != "new"
      ensures var pinned := pem != "";
              && config.hosts == old(config).hosts && config.legacy == old(config).legacy
              && ServerList(config) == ServerList(old(config))
                   + [Server(id, RStrip(url, '/'), verify, if pinned then Some(pem) else None, if pinned then Some(fingerprint) else None)]
      ensures ViewOf(ServerList(config), id) == View(RStrip(url, '/'), verify, pem)
    {
      var servers := config.servers.GetOr([]);
      id := UniqueServerId(SlugifyServerId(host), ServerIds(servers));
      var server := NewServer(id, url, verify, pem, fingerprint);
      ghost var before := config;
      config := config.(servers := Some(servers + [server]));
      assert Step(Op.AddServer(host, server), before, config);
      AddedServerResolves(servers, server, id);
      if Consistent(before) {
        StepKeepsConsistent(Op.AddServer(host, server), before, config);
      }
    }

    /** Change the first server with the id in place; its id stays, so its hosts stay resolvable. */
    method UpdateServer(id: string, change: Change)
      modifies this`config
      ensures Step(Op.UpdateServer(id, change), old(config), config)
      ensures old(Consistent(config)) ==> Consistent(config)
    {
      ghost var before := config;
      var servers := config.servers.GetOr([]);
      var k := 0;
      while k < |servers| && servers[k].id != id
        invariant k <= |servers| && forall j | 0 <= j < k :: servers[j].id != id
      {
        k := k + 1;
      }
      ChangeFirstAt(servers, id, change, k);
      if k < |servers| {
        config := config.(servers := Some(servers[k := Changed(servers[k], change)]));
      }
      if Consistent(before) {
        StepKeepsConsistent(Op.UpdateServer(id, change), before, config);
      }
    }

    /** Rebuild the first host with the slug; only its docker settings are carried over. */
    method UpdateHost(slug: string, fields: Dict)
      modifies this`config
      ensures Step(Op.UpdateHost(slug, fields), old(config), config)
      ensures old(Consistent(config)) ==> Consistent(config)
    {
      ghost var before := config;
      var hosts := config.hosts;
      var k := 0;
      while k < |hosts| && Slugify(NameOf(hosts[k])) != slug
        invariant k <= |hosts| && forall j | 0 <= j < k :: Slugify(NameOf(hosts[j])) != slug
      {
        k := k + 1;
      }
      RebuildFirstAt(hosts, slug, fields, k);
      if k < |hosts| {
        config := config.(hosts := hosts[k := Rebuilt(hosts[k], fields)]);
      }
      if Consistent(before) {
        StepKeepsConsistent(Op.UpdateHost(slug, fields), before, config);
      }
    }

    /** Drop the legacy block: into a first server and stamped hosts, or away when a list exists. */
    method Migrate(host: string) returns (id: string)
      modifies this
      ensures config == Migrated(old(config), SlugifyServerId(host))
      ensures store == MigratedStore(old(config), old(store), SlugifyServerId(host))
      ensures if old(config).legacy.Some? && ServerList(old(config)) == [] then OnlyStamped(old(config).hosts, config.hosts, SlugifyServerId(host))
              else config.hosts == old(config).hosts
      ensures id == if old(config).legacy.Some? && ServerList(old(config)) == [] then SlugifyServerId(host) else ""
    {
      id := "";
      if config.legacy.None? {
        return;
      }
      if config.servers.GetOr([]) != [] {
        config := config.(legacy := None);
        return;
      }
      id := SlugifyServerId(host);
      var hosts: seq<Dict> := [];
      for k := 0 to |config.hosts|
        invariant config == old(config) && |hosts| == k
        invariant forall j | 0 <= j < k :: hosts[j] == Stamped(config.hosts[j], id)
      {
        hosts := hosts + [Stamped(config.hosts[k], id)];
      }
      var server := MigratedServer(config.legacy.value, id);
      config := Config(hosts, None, Some([server]));
      assert hosts == StampAll(old(config).hosts, id);
      StampAllOnlyStamps(old(config).hosts, id);
      store := Renamed(store, "proxmox", "proxmox_" + id);
    }

    /** Remove a server, its credentials, and rewrite its hosts. */
    method DeleteServer(id: string)
      modifies this
      ensures Step(Op.DeleteServer(id), old(config), config)
      ensures store == if id in ServerIds(ServerList(old(config))) then StoreAfterDelete(old(store), old(config).hosts, id) else old(store)
      ensures old(Consistent(config)) ==> Consistent(config)
    {
      var servers := config.servers.GetOr([]);
      if id !in ServerIds(servers) {
        return;
      }
      var kept, dropped := SplitHosts(config.hosts, id);
      config := config.(servers := Some(WithoutServer(servers, id)), hosts := kept);
      store := store - {IntegrationKey("proxmox_" + id)} - dropped;
      if old(Consistent(config)) {
        StepKeepsConsistent(Op.DeleteServer(id), old(config), config);
      }
    }

    /** Append a host. A stamped one must name an existing server. */
    method AddHost(entry: Dict)
      requires Stamp(entry).Some? ==> Stamp(entry).value in ServerIds(ServerList(config))
      modifies this`config
      ensures Step(Op.AddHost(entry), old(config), config)
      ensures config == old(config).(hosts := old(config).hosts + [entry])
      ensures old(Consistent(config)) ==> Consistent(config)
    {
      ghost var before := config;
      config := config.(hosts := config.hosts + [entry]);
      if Consistent(before) {
        StepKeepsConsistent(Op.AddHost(entry), before, config);
      }
    }

    method DeleteHost(slug: string)
      modifies this`config
      ensures Step(Op.DeleteHost(slug), old(config), config)
      ensures old(Consistent(config)) ==> Consistent(config)
    {
      ghost var before := config;
      config := config.(hosts := WithoutHost(config.hosts, slug));
      if Consistent(before) {
        StepKeepsConsistent(Op.DeleteHost(slug), before, config);
      }
    }
  }

  lemma UpdateBehindFirst<T>(s: seq<T>, k: nat, x: T)
    requires 0 < k < |s|
    ensures s[k := x] == [s[0]] + s[1..][k - 1 := x]
  {
  }

  lemma {:induction false} ChangeFirstAt(servers: seq<Server>, id: string, ch: Change, k: nat)
    requires k <= |servers| && (forall j | 0 <= j < k :: servers[j].id != id) && (k < |servers| ==> servers[k].id == id)
    ensures ChangeFirst(servers, id, ch) == if k == |servers| then servers else servers[k := Changed(servers[k], ch)]
  {
    if k > 0 {
      ChangeFirstAt(servers[1..], id, ch, k - 1);
      if k < |servers| {
        UpdateBehindFirst(servers, k, Changed(servers[k], ch));
      } else {
        assert servers == [servers[0]] + servers[1..];
      }
    }
  }

  lemma {:induction false} RebuildFirstAt(hosts: seq<Dict>, slug: string, fields: Dict, k: nat)
    requires k <= |hosts| && (forall j | 0 <= j < k :: Slugify(NameOf(hosts[j])) != slug)
    requires k < |hosts| ==> Slugify(NameOf(hosts[k])) == slug
    ensures RebuildFirst(hosts, slug, fields) == if k == |hosts| then hosts else hosts[k := Rebuilt(hosts[k], fields)]
  {
    if k > 0 {
      RebuildFirstAt(hosts[1..], slug, fields, k - 1);
      if k < |hosts| {
        UpdateBehindFirst(hosts, k, Rebuilt(hosts[k], fields));
      } else {
        assert hosts == [hosts[0]] + hosts[1..];
      }
    }
  }

  /** The pass over the hosts: which stay, which are stripped, and whose credentials go. */
  method SplitHosts(hosts: seq<Dict>, id: string) returns (kept: seq<Dict>, dropped: set<string>)
    ensures kept == SurvivingHosts(hosts, id) && dropped == DroppedSlugs(hosts, id)
  {
    kept, dropped := [], {};
    for k := 0 to |hosts|
      invariant kept == SurvivingHosts(hosts[..k], id)
      invariant dropped == DroppedSlugs(hosts[..k], id)
    {
      assert hosts[..k + 1][..k] == hosts[..k];
      DroppedGrows(hosts, id, k);
      if Stamp(hosts[k]) != Some(id) {
        kept := kept + [hosts[k]];
      } else if IsVm(hosts[k]) {
        kept := kept + [hosts[k] - PROXMOX_FIELDS];
      } else if Slugify(NameOf(hosts[k])) != "" {
        dropped := dropped + {Slugify(NameOf(hosts[k]))};
      }
    }
    assert hosts[..|hosts|] == hosts;
  }

  lemma DroppedGrows(hosts: seq<Dict>, id: string, k: nat)
    requires k < |hosts|
    ensures DroppedSlugs(hosts[..k + 1], id)
         == DroppedSlugs(hosts[..k], id)
            + if Survivors(hosts[k], id) == [] && Slugify(NameOf(hosts[k])) != "" then {Slugify(NameOf(hosts[k]))} else {}
  {
    var a, host := hosts[..k], hosts[k];
    assert hosts[..k + 1] == a + [host];
    DroppedStay(a, host, id);
    DroppedComeFrom(a, host, id);
  }

  lemma DroppedStay(a: seq<Dict>, host: Dict, id: string)
    ensures DroppedSlugs(a, id) <= DroppedSlugs(a + [host], id)
  {
    var b := a + [host];
    forall slug | slug in DroppedSlugs(a, id)
      ensures slug in DroppedSlugs(b, id)
    {
      var j :| 0 <= j < |a| && Survivors(a[j], id) == [] && Slugify(NameOf(a[j])) == slug;
      assert b[j] == a[j];
    }
  }

  lemma DroppedComeFrom(a: seq<Dict>, host: Dict, id: string)
    ensures var slug := Slugify(NameOf(host));
            DroppedSlugs(a + [host], id) <= DroppedSlugs(a, id) + {slug}
            && (slug in DroppedSlugs(a + [host], id) <==>
                slug in DroppedSlugs(a, id) || (Survivors(host, id) == [] && slug != ""))
  {
    var b := a + [host];
    DroppedStay(a, host, id);
    assert b[|a|] == host;
    forall slug | slug in DroppedSlugs(b, id)
      ensures slug in DroppedSlugs(a, id) || (Survivors(host, id) == [] && slug == Slugify(NameOf(host)))
    {
      var j :| 0 <= j < |b| && Survivors(b[j], id) == [] && Slugify(NameOf(b[j])) == slug;
      assert j < |a| ==> a[j] == b[j];
    }
  }
}
