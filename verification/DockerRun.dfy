/**
 Reconstruction of a `docker run` command from `docker inspect` output
 (app/backends/ssh_docker_backend.py, `_build_docker_run_cmd`), and Docker's own reading of such a
 command: flags up to the first positional argument, then the image, then arguments.
 */
module DockerRun {
  import opened Options
  import opened Text
  import opened FlagNumbers
  import ShellQuoting

  // ------------------------------------------------------------------
  // Inspect output. Dictionaries keep their order, as Python's do.
  // ------------------------------------------------------------------

  datatype Health = Health(test: seq<string>, interval: Count, timeout: Count, retries: nat, startPeriod: Count)
  datatype Ulimit = Ulimit(name: string, soft: int, hard: int)
  datatype Binding = Binding(hostIp: string, hostPort: string)
  datatype Port = Port(container: string, bindings: seq<Binding>)
  datatype Device = Device(onHost: string, inContainer: string, perms: string)
  datatype Pair = Pair(key: string, value: string)
  datatype Network = Network(name: string, ipv4: string, ipv6: string)

  datatype Config = Config(
    image: string, hostname: string, user: string, workingDir: string, stopSignal: string, stopTimeout: int,
    health: Health, env: seq<string>, labels: seq<Pair>, entrypoint: seq<string>, cmd: seq<string>)

  datatype HostConfig = HostConfig(
    restartName: string, maxRetry: nat, networkMode: string, privileged: bool, memory: nat, nanoCpus: Count, cpuShares: nat,
    ulimits: seq<Ulimit>, sysctls: seq<Pair>, securityOpt: seq<string>, capAdd: seq<string>, capDrop: seq<string>,
    pidMode: string, ipcMode: string, binds: seq<string>, tmpfs: seq<string>, ports: seq<Port>, devices: seq<Device>,
    dns: seq<string>, extraHosts: seq<string>, logDriver: string, logOpts: seq<Pair>)

  datatype Inspect = Inspect(id: string, name: string, config: Config, host: HostConfig, networks: seq<Network>)

  // ------------------------------------------------------------------
  // Flags
  // ------------------------------------------------------------------

  datatype Flag =
    | Detach | Name | Restart | NetworkFlag | Ip | Ip6 | Hostname | Privileged | User | Workdir | Memory | Cpus | CpuShares
    | UlimitFlag | Sysctl | SecurityOpt | StopSignal | StopTimeout
    | NoHealthcheck | HealthCmd | HealthInterval | HealthTimeout | HealthRetries | HealthStartPeriod
    | CapAdd | CapDrop | Pid | Ipc | Env | Volume | Tmpfs | Publish | DeviceFlag | Label | Dns | AddHost
    | LogDriver | LogOpt | Entrypoint

  function Spelling(f: Flag): string {
    match f
    case Detach => "-d"
    case Name => "--name"
    case Restart => "--restart"
    case NetworkFlag => "--network"
    case Ip => "--ip"
    case Ip6 => "--ip6"
    case Hostname => "--hostname"
    case Privileged => "--privileged"
    case User => "--user"
    case Workdir => "--workdir"
    case Memory => "--memory"
    case Cpus => "--cpus"
    case CpuShares => "--cpu-shares"
    case UlimitFlag => "--ulimit"
    case Sysctl => "--sysctl"
    case SecurityOpt => "--security-opt"
    case StopSignal => "--stop-signal"
    case StopTimeout => "--stop-timeout"
    case NoHealthcheck => "--no-healthcheck"
    case HealthCmd => "--health-cmd"
    case HealthInterval => "--health-interval"
    case HealthTimeout => "--health-timeout"
    case HealthRetries => "--health-retries"
    case HealthStartPeriod => "--health-start-period"
    case CapAdd => "--cap-add"
    case CapDrop => "--cap-drop"
    case Pid => "--pid"
    case Ipc => "--ipc"
    case Env => "-e"
    case Volume => "-v"
    case Tmpfs => "--tmpfs"
    case Publish => "-p"
    case DeviceFlag => "--device"
    case Label => "-l"
    case Dns => "--dns"
    case AddHost => "--add-host"
    case LogDriver => "--log-driver"
    case LogOpt => "--log-opt"
    case Entrypoint => "--entrypoint"
  }

  /** Docker's flag table, looked up by length first. */
  function FlagOf(s: string): Option<Flag> {
    match |s|
    case 2 =>
      if s == "-d" then Some(Detach) else if s == "-e" then Some(Env) else if s == "-v" then Some(Volume)
      else if s == "-p" then Some(Publish) else if s == "-l" then Some(Label) else None
    case 4 => if s == "--ip" then Some(Ip) else None
    case 5 =>
      if s == "--ip6" then Some(Ip6) else if s == "--pid" then Some(Pid) else if s == "--ipc" then Some(Ipc)
      else if s == "--dns" then Some(Dns) else None
    case 6 =>
      if s == "--name" then Some(Name) else if s == "--user" then Some(User) else if s == "--cpus" then Some(Cpus) else None
    case 7 => if s == "--tmpfs" then Some(Tmpfs) else None
    case 8 =>
      if s == "--memory" then Some(Memory) else if s == "--ulimit" then Some(UlimitFlag) else if s == "--sysctl" then Some(Sysctl)
      else if s == "--device" then Some(DeviceFlag) else None
    case 9 =>
      if s == "--restart" then Some(Restart) else if s == "--network" then Some(NetworkFlag)
      else if s == "--workdir" then Some(Workdir) else if s == "--cap-add" then Some(CapAdd)
      else if s == "--log-opt" then Some(LogOpt) else None
    case 10 =>
      if s == "--hostname" then Some(Hostname) else if s == "--cap-drop" then Some(CapDrop)
      else if s == "--add-host" then Some(AddHost) else None
    case 12 =>
      if s == "--privileged" then Some(Privileged) else if s == "--cpu-shares" then Some(CpuShares)
      else if s == "--health-cmd" then Some(HealthCmd) else if s == "--log-driver" then Some(LogDriver)
      else if s == "--entrypoint" then Some(Entrypoint) else None
    case 13 => if s == "--stop-signal" then Some(StopSignal) else None
    case 14 => if s == "--security-opt" then Some(SecurityOpt) else if s == "--stop-timeout" then Some(StopTimeout) else None
    case 16 =>
      if s == "--no-healthcheck" then Some(NoHealthcheck) else if s == "--health-timeout" then Some(HealthTimeout)
      else if s == "--health-retries" then Some(HealthRetries) else None
    case 17 => if s == "--health-interval" then Some(HealthInterval) else None
    case 21 => if s == "--health-start-period" then Some(HealthStartPeriod) else None
    case _ => None
  }

  predicate TakesValue(f: Flag) {
    !f.Detach? && !f.Privileged? && !f.NoHealthcheck?
  }

  /** The order in which the printer emits its flags. */
  function FlagAt(n: nat): Flag
    requires n < FLAG_COUNT
  {
    match n
    case 0 => Detach case 1 => Name case 2 => Restart case 3 => NetworkFlag case 4 => Ip case 5 => Ip6 case 6 => Hostname case 7 => Privileged
    case 8 => User case 9 => Workdir case 10 => Memory case 11 => Cpus case 12 => CpuShares case 13 => UlimitFlag case 14 => Sysctl case 15 => SecurityOpt
    case 16 => StopSignal case 17 => StopTimeout case 18 => NoHealthcheck case 19 => HealthCmd case 20 => HealthInterval case 21 => HealthTimeout case 22 => HealthRetries case 23 => HealthStartPeriod
    case 24 => CapAdd case 25 => CapDrop case 26 => Pid case 27 => Ipc case 28 => Env case 29 => Volume case 30 => Tmpfs case 31 => Publish
    case 32 => DeviceFlag case 33 => Label case 34 => Dns case 35 => AddHost case 36 => LogDriver case 37 => LogOpt case _ => Entrypoint
  }

  const FLAG_COUNT: nat := 39

  function Rank(f: Flag): nat {
    match f
    case Detach => 0 case Name => 1 case Restart => 2 case NetworkFlag => 3 case Ip => 4 case Ip6 => 5 case Hostname => 6 case Privileged => 7
    case User => 8 case Workdir => 9 case Memory => 10 case Cpus => 11 case CpuShares => 12 case UlimitFlag => 13 case Sysctl => 14 case SecurityOpt => 15
    case StopSignal => 16 case StopTimeout => 17 case NoHealthcheck => 18 case HealthCmd => 19 case HealthInterval => 20 case HealthTimeout => 21 case HealthRetries => 22 case HealthStartPeriod => 23
    case CapAdd => 24 case CapDrop => 25 case Pid => 26 case Ipc => 27 case Env => 28 case Volume => 29 case Tmpfs => 30 case Publish => 31
    case DeviceFlag => 32 case Label => 33 case Dns => 34 case AddHost => 35 case LogDriver => 36 case LogOpt => 37 case Entrypoint => 38
  }

  // ------------------------------------------------------------------
  // The value of each flag
  // ------------------------------------------------------------------

  function Given(s: string): seq<string> {
    if s == "" then [] else [s]
  }

  function GivenNumber(n: nat): seq<string> {
    if n == 0 then [] else [Decimal(n)]
  }

  function GivenDuration(ns: Count): seq<string> {
    if ns == 0 then [] else [NsToDuration(ns)]
  }

  function GivenCpus(nano: Count): seq<string> {
    if nano == 0 then [] else [CpusFlag(nano)]
  }

  function IntText(n: int): string {
    if n < 0 then "-" + Decimal(-n) else Decimal(n)
  }

  /** `s.lstrip("/")` */
  function LStripSlash(s: string): string {
    if s != "" && s[0] == '/' then LStripSlash(s[1..]) else s
  }

  function ContainerName(i: Inspect): string {
    LStripSlash(i.name)
  }

  function RestartValue(h: HostConfig): seq<string> {
    if h.restartName == "" || h.restartName == "no" then []
    else if h.restartName == "on-failure" && h.maxRetry != 0 then ["on-failure:" + Decimal(h.maxRetry)]
    else [h.restartName]
  }

  predicate NamedMode(mode: string) {
    mode != "" && mode != "default" && mode != "bridge"
  }

  function FirstCustom(networks: seq<Network>): string {
    if networks == [] then ""
    else if networks[0].name !in {"bridge", "host", "none"} then networks[0].name
    else FirstCustom(networks[1..])
  }

  function NetworkValue(i: Inspect): string {
    if NamedMode(i.host.networkMode) then i.host.networkMode else FirstCustom(i.networks)
  }

  function Attached(networks: seq<Network>, name: string): Option<Network> {
    if networks == [] then None
    else if networks[0].name == name then Some(networks[0])
    else Attached(networks[1..], name)
  }

  function StaticIp(i: Inspect, six: bool): seq<string> {
    if NetworkValue(i) == "" then []
    else match Attached(i.networks, NetworkValue(i))
         case None => []
         case Some(n) => Given(if six then n.ipv6 else n.ipv4)
  }

  function HostnameValue(i: Inspect): seq<string> {
    var h, short := i.config.hostname, if |i.id| <= 12 then i.id else i.id[..12];
    if h == "" || h == short || h == ContainerName(i) then [] else [h]
  }

  function UlimitTexts(us: seq<Ulimit>): seq<string> {
    seq(|us|, k requires 0 <= k < |us| => us[k].name + "=" + IntText(us[k].soft) + ":" + IntText(us[k].hard))
  }

  function PairText(p: Pair): string {
    p.key + "=" + p.value
  }

  function PairTexts(ps: seq<Pair>): (r: seq<string>)
    ensures |r| == |ps| && forall k | 0 <= k < |ps| :: r[k] == PairText(ps[k])
  {
    seq(|ps|, k requires 0 <= k < |ps| => PairText(ps[k]))
  }

  function JoinSpaces(words: seq<string>): string {
    if words == [] then "" else if |words| == 1 then words[0] else words[0] + " " + JoinSpaces(words[1..])
  }

  predicate HasCheck(h: Health) {
    h.test != [] && (h.test[0] == "CMD" || h.test[0] == "CMD-SHELL")
  }

  function HealthCmdValue(h: Health): seq<string> {
    if !HasCheck(h) then []
    else if h.test[0] == "CMD-SHELL" then [if |h.test| > 1 then h.test[1] else ""]
    else [JoinSpaces(h.test[1..])]
  }

  function BindingText(container: string, b: Binding): string {
    if b.hostIp != "" && b.hostIp != "0.0.0.0" && b.hostIp != "::" then b.hostIp + ":" + b.hostPort + ":" + container
    else if b.hostPort != "" then b.hostPort + ":" + container
    else container
  }

  function BindingTexts(p: Port): seq<string> {
    seq(|p.bindings|, k requires 0 <= k < |p.bindings| => BindingText(p.container, p.bindings[k]))
  }

  function PortTexts(ports: seq<Port>): seq<string> {
    if ports == [] then [] else BindingTexts(ports[0]) + PortTexts(ports[1..])
  }

  function DeviceText(d: Device): string {
    d.onHost + ":" + d.inContainer + ":" + d.perms
  }

  predicate Mapped(d: Device) {
    d.onHost != "" && d.inContainer != ""
  }

  function DeviceTexts(ds: seq<Device>): seq<string> {
    if ds == [] then [] else (if Mapped(ds[0]) then [DeviceText(ds[0])] else []) + DeviceTexts(ds[1..])
  }

  predicate Internal(key: string) {
    "com.docker.compose." <= key || "org.opencontainers." <= key || "desktop.docker." <= key
  }

  function OwnLabels(ps: seq<Pair>): seq<Pair> {
    if ps == [] then [] else (if Internal(ps[0].key) then [] else [ps[0]]) + OwnLabels(ps[1..])
  }

  predicate OtherDriver(h: HostConfig) {
    h.logDriver != "" && h.logDriver != "json-file"
  }

  /** Every value the printer gives to a flag, in order. A flag without a value carries "". */
  function Values(i: Inspect, f: Flag): seq<string> {
    var c, h := i.config, i.host;
    match f
    case Detach => [""]
    case Name => Given(ContainerName(i))
    case Restart => RestartValue(h)
    case NetworkFlag => Given(NetworkValue(i))
    case Ip => StaticIp(i, false)
    case Ip6 => StaticIp(i, true)
    case Hostname => HostnameValue(i)
    case Privileged => if h.privileged then [""] else []
    case User => Given(c.user)
    case Workdir => Given(c.workingDir)
    case Memory => GivenNumber(h.memory)
    case Cpus => GivenCpus(h.nanoCpus)
    case CpuShares => GivenNumber(h.cpuShares)
    case UlimitFlag => UlimitTexts(h.ulimits)
    case Sysctl => PairTexts(h.sysctls)
    case SecurityOpt => h.securityOpt
    case StopSignal => Given(c.stopSignal)
    case StopTimeout => if c.stopTimeout == 0 then [] else [IntText(c.stopTimeout)]
    case NoHealthcheck => if c.health.test != [] && c.health.test[0] == "NONE" then [""] else []
    case HealthCmd => HealthCmdValue(c.health)
    case HealthInterval => if HasCheck(c.health) then GivenDuration(c.health.interval) else []
    case HealthTimeout => if HasCheck(c.health) then GivenDuration(c.health.timeout) else []
    case HealthRetries => if HasCheck(c.health) then GivenNumber(c.health.retries) else []
    case HealthStartPeriod => if HasCheck(c.health) then GivenDuration(c.health.startPeriod) else []
    case CapAdd => h.capAdd
    case CapDrop => h.capDrop
    case Pid => Given(h.pidMode)
    case Ipc => if h.ipcMode == "shareable" || h.ipcMode == "private" then [] else Given(h.ipcMode)
    case Env => c.env
    case Volume => h.binds
    case Tmpfs => h.tmpfs
    case Publish => PortTexts(h.ports)
    case DeviceFlag => DeviceTexts(h.devices)
    case Label => PairTexts(OwnLabels(c.labels))
    case Dns => h.dns
    case AddHost => h.extraHosts
    case LogDriver => if OtherDriver(h) then [h.logDriver] else []
    case LogOpt => if OtherDriver(h) then PairTexts(h.logOpts) else []
    case Entrypoint => if c.entrypoint == [] then [] else [c.entrypoint[0]]
  }

  // ------------------------------------------------------------------
  // Printing
  // ------------------------------------------------------------------

  datatype Item = Item(flag: Flag, value: string)

  function Repeat(f: Flag, values: seq<string>): (items: seq<Item>)
    ensures |items| == |values| && forall k | 0 <= k < |values| :: items[k] == Item(f, values[k])
  {
    seq(|values|, k requires 0 <= k < |values| => Item(f, values[k]))
  }

  /** One flag and the values it is given. */
  datatype Row = Row(flag: Flag, values: seq<string>)

  function Rows(i: Inspect): (rows: seq<Row>)
    ensures |rows| == FLAG_COUNT && forall n | 0 <= n < FLAG_COUNT :: rows[n] == Row(FlagAt(n), Values(i, FlagAt(n)))
  {
    seq(FLAG_COUNT, n requires 0 <= n < FLAG_COUNT => Row(FlagAt(n), Values(i, FlagAt(n))))
  }

  function ItemsOf(rows: seq<Row>): seq<Item> {
    if rows == [] then [] else ItemsOf(rows[..|rows| - 1]) + Repeat(rows[|rows| - 1].flag, rows[|rows| - 1].values)
  }

  function Items(i: Inspect): seq<Item> {
    ItemsOf(Rows(i))
  }

  function Render(item: Item): seq<string> {
    if TakesValue(item.flag) then [Spelling(item.flag), item.value] else [Spelling(item.flag)]
  }

  function RenderAll(items: seq<Item>): seq<string> {
    if items == [] then [] else RenderAll(items[..|items| - 1]) + Render(items[|items| - 1])
  }

  /** What follows the image: the rest of the entrypoint, then the command. */
  function ExtraArgs(c: Config): seq<string> {
    (if c.entrypoint == [] then [] else c.entrypoint[1..]) + c.cmd
  }

  function Parts(i: Inspect): seq<string> {
    ["docker", "run"] + RenderAll(Items(i)) + [i.config.image] + ExtraArgs(i.config)
  }

  /** The printer: flag by flag and value by value, then the image and its arguments, quoted and joined. */
  method BuildDockerRunCmd(i: Inspect) returns (line: string)
    ensures ShellQuoting.Command(line) == Some(Parts(i))
  {
    var flags := PrintRows(Rows(i));
    var parts := ["docker", "run"] + flags + [i.config.image];
    if i.config.entrypoint != [] {
      parts := parts + i.config.entrypoint[1..];
    }
    parts := parts + i.config.cmd;
    assert parts == Parts(i);
    line := ShellQuoting.CommandLine(parts);
    DockerArrives(parts, []);
  }

  method PrintRows(rows: seq<Row>) returns (parts: seq<string>)
    ensures parts == RenderAll(ItemsOf(rows))
  {
    parts := [];
    for n := 0 to |rows|
      invariant parts == RenderAll(ItemsOf(rows[..n]))
    {
      assert rows[..n + 1][..n] == rows[..n];
      RenderConcat(ItemsOf(rows[..n]), Repeat(rows[n].flag, rows[n].values));
      var more := PrintRow(rows[n].flag, rows[n].values);
      parts := parts + more;
    }
    assert rows[..|rows|] == rows;
  }

  /** `for v in values: parts += [flag, v]` */
  method PrintRow(f: Flag, values: seq<string>) returns (parts: seq<string>)
    ensures parts == RenderAll(Repeat(f, values))
  {
    parts := [];
    for k := 0 to |values|
      invariant parts == RenderAll(Repeat(f, values[..k]))
    {
      ghost var items := Repeat(f, values[..k + 1]);
      assert items[..k] == Repeat(f, values[..k]);
      parts := parts + Render(Item(f, values[k]));
    }
    assert values[..|values|] == values;
  }

  lemma {:induction false} RenderConcat(a: seq<Item>, b: seq<Item>)
    ensures RenderAll(a + b) == RenderAll(a) + RenderAll(b)
  {
    if b == [] {
      assert a + b == a;
    } else {
      assert (a + b)[..|a + b| - 1] == a + b[..|b| - 1];
      RenderConcat(a, b[..|b| - 1]);
    }
  }

  // ------------------------------------------------------------------
  // Docker's reading
  // ------------------------------------------------------------------

  datatype Parsed = Parsed(items: seq<Item>, image: string, args: seq<string>)

  /** An argument that is not positional: a dash and something after it. */
  predicate FlagLike(s: string) {
    |s| >= 2 && s[0] == '-'
  }

  function Prepend(item: Item, rest: Option<Parsed>): Option<Parsed> {
    match rest
    case None => None
    case Some(p) => Some(p.(items := [item] + p.items))
  }

  /** Flags up to the first positional; a flag that takes a value takes the next argument, whatever it is. */
  function ReadFlags(argv: seq<string>): Option<Parsed> {
    if argv == [] then None
    else if !FlagLike(argv[0]) then Some(Parsed([], argv[0], argv[1..]))
    else match FlagOf(argv[0])
         case None => None
         case Some(f) =>
           if !TakesValue(f) then Prepend(Item(f, ""), ReadFlags(argv[1..]))
           else if |argv| < 2 then None
           else Prepend(Item(f, argv[1]), ReadFlags(argv[2..]))
  }

  function ReadRun(argv: seq<string>): Option<Parsed> {
    if |argv| >= 2 && argv[..2] == ["docker", "run"] then ReadFlags(argv[2..]) else None
  }

  /** The values of one flag, in order. */
  function ValuesOf(items: seq<Item>, f: Flag): seq<string> {
    if items == [] then []
    else ValuesOf(items[..|items| - 1], f)
         + if items[|items| - 1].flag == f then [items[|items| - 1].value] else []
  }

  lemma EarlyFlagReadsBack(f: Flag)
    requires Rank(f) < 18
    ensures FlagOf(Spelling(f)) == Some(f) && FlagLike(Spelling(f))
  {
  }

  lemma LateFlagReadsBack(f: Flag)
    requires Rank(f) >= 18
    ensures FlagOf(Spelling(f)) == Some(f) && FlagLike(Spelling(f))
  {
  }

  lemma FlagReadsBack(f: Flag)
    ensures FlagOf(Spelling(f)) == Some(f) && FlagLike(Spelling(f))
  {
    if Rank(f) < 18 {
      EarlyFlagReadsBack(f);
    } else {
      LateFlagReadsBack(f);
    }
  }

  function Behind(items: seq<Item>, rest: Option<Parsed>): Option<Parsed> {
    match rest
    case None => None
    case Some(p) => Some(p.(items := items + p.items))
  }

  predicate Printable(items: seq<Item>) {
    forall k | 0 <= k < |items| :: TakesValue(items[k].flag) || items[k].value == ""
  }

  lemma ReadsOne(item: Item, rest: seq<string>)
    requires TakesValue(item.flag) || item.value == ""
    ensures ReadFlags(Render(item) + rest) == Prepend(item, ReadFlags(rest))
  {
    var spelled, argv := Spelling(item.flag), Render(item) + rest;
    FlagReadsBack(item.flag);
    assert argv[0] == spelled;
    if TakesValue(item.flag) {
      assert argv[1] == item.value && argv[2..] == rest;
    } else {
      assert argv[1..] == rest;
    }
  }

  lemma BehindTwo(front: seq<Item>, back: seq<Item>, rest: Option<Parsed>)
    ensures Behind(front, Behind(back, rest)) == Behind(front + back, rest)
  {
    if rest.Some? {
      assert front + (back + rest.value.items) == front + back + rest.value.items;
    }
  }

  /** Behind `argv` the reader has these items and goes on with whatever follows. */
  ghost predicate ReadsAs(argv: seq<string>, items: seq<Item>) {
    forall rest {:trigger ReadFlags(argv + rest)} :: ReadFlags(argv + rest) == Behind(items, ReadFlags(rest))
  }

  lemma ReadsBoth(a: seq<string>, b: seq<string>, front: seq<Item>, back: seq<Item>)
    requires ReadsAs(a, front) && ReadsAs(b, back)
    ensures ReadsAs(a + b, front + back)
  {
    forall rest
      ensures ReadFlags(a + b + rest) == Behind(front + back, ReadFlags(rest))
    {
      assert a + b + rest == a + (b + rest);
      assert ReadFlags(a + (b + rest)) == Behind(front, ReadFlags(b + rest));
      BehindTwo(front, back, ReadFlags(rest));
    }
  }

  lemma ReadsItem(item: Item)
    requires TakesValue(item.flag) || item.value == ""
    ensures ReadsAs(Render(item), [item])
  {
    forall rest
      ensures ReadFlags(Render(item) + rest) == Behind([item], ReadFlags(rest))
    {
      ReadsOne(item, rest);
    }
  }

  lemma ReadsNone()
    ensures ReadsAs([], [])
  {
    forall rest
      ensures ReadFlags([] + rest) == Behind([], ReadFlags(rest))
    {
      assert [] + rest == rest;
      BehindNothing(ReadFlags(rest));
    }
  }

  /** Reading printed flags yields them, and goes on with what follows. */
  lemma {:induction false} ReadsPrinted(items: seq<Item>)
    requires Printable(items)
    ensures ReadsAs(RenderAll(items), items)
  {
    if items == [] {
      ReadsNone();
    } else {
      var front, last := items[..|items| - 1], items[|items| - 1];
      ReadsPrinted(front);
      ReadsItem(last);
      ReadsBoth(RenderAll(front), Render(last), front, [last]);
      assert front + [last] == items;
    }
  }

  lemma BehindNothing(rest: Option<Parsed>)
    ensures Behind([], rest) == rest
  {
    if rest.Some? {
      assert [] + rest.value.items == rest.value.items;
    }
  }

  lemma {:induction false} ItemsArePrintable(rows: seq<Row>)
    requires forall n | 0 <= n < |rows| :: TakesValue(rows[n].flag) || forall k | 0 <= k < |rows[n].values| :: rows[n].values[k] == ""
    ensures Printable(ItemsOf(rows))
  {
    if rows != [] {
      ItemsArePrintable(rows[..|rows| - 1]);
    }
  }

  lemma RowIsPrintable(i: Inspect, f: Flag)
    ensures TakesValue(f) || forall k | 0 <= k < |Values(i, f)| :: Values(i, f)[k] == ""
  {
  }

  lemma PrintedItems(i: Inspect)
    ensures Printable(Items(i))
  {
    forall n | 0 <= n < FLAG_COUNT
      ensures TakesValue(Rows(i)[n].flag) || forall k | 0 <= k < |Rows(i)[n].values| :: Rows(i)[n].values[k] == ""
    {
      RowIsPrintable(i, FlagAt(n));
    }
    ItemsArePrintable(Rows(i));
  }

  /** Flags, then a positional: exactly when the image does not itself look like a flag. */
  lemma ReadsFlagsThenImage(items: seq<Item>, image: string, args: seq<string>)
    requires Printable(items)
    ensures ReadFlags(RenderAll(items) + ([image] + args)) == Some(Parsed(items, image, args)) <==> !FlagLike(image)
  {
    var rest := [image] + args;
    ReadsPrinted(items);
    assert rest[1..] == args && items + [] == items;
    if FlagLike(image) && ReadFlags(rest).Some? {
      FlagsGrow(rest);
      assert |items + ReadFlags(rest).value.items| > |items|;
    }
  }

  /**
   Docker reads back the flags, the image and the arguments that were printed exactly when the image
   does not itself look like a flag.
   */
  lemma DockerReadsParts(i: Inspect)
    ensures ReadRun(Parts(i)) == Some(Parsed(Items(i), i.config.image, ExtraArgs(i.config))) <==> !FlagLike(i.config.image)
  {
    PrintedItems(i);
    ReadsFlagsThenImage(Items(i), i.config.image, ExtraArgs(i.config));
    PartsSplit(RenderAll(Items(i)), i.config.image, ExtraArgs(i.config));
  }

  lemma PartsSplit(flags: seq<string>, image: string, args: seq<string>)
    ensures ReadRun(["docker", "run"] + flags + [image] + args) == ReadFlags(flags + ([image] + args))
  {
    var argv := ["docker", "run"] + flags + [image] + args;
    assert argv[..2] == ["docker", "run"] && argv[2..] == flags + ([image] + args);
  }

  lemma FlagsGrow(argv: seq<string>)
    requires argv != [] && FlagLike(argv[0])
    ensures ReadFlags(argv).Some? ==> ReadFlags(argv).value.items != []
  {
  }

  // ------------------------------------------------------------------
  // Recovery of each field
  // ------------------------------------------------------------------

  lemma {:induction false} ValuesOfConcat(a: seq<Item>, b: seq<Item>, f: Flag)
    ensures ValuesOf(a + b, f) == ValuesOf(a, f) + ValuesOf(b, f)
  {
    if b == [] {
      assert a + b == a;
    } else {
      assert (a + b)[..|a + b| - 1] == a + b[..|b| - 1];
      ValuesOfConcat(a, b[..|b| - 1], f);
    }
  }

  lemma {:induction false} ValuesOfRepeat(g: Flag, values: seq<string>, f: Flag)
    ensures ValuesOf(Repeat(g, values), f) == if f == g then values else []
  {
    if values != [] {
      var front := values[..|values| - 1];
      ValuesOfRepeat(g, front, f);
      assert Repeat(g, values)[..|values| - 1] == Repeat(g, front);
      assert values == front + [values[|values| - 1]];
    }
  }

  lemma {:induction false} NoRowNoValues(rows: seq<Row>, f: Flag)
    requires forall n | 0 <= n < |rows| :: rows[n].flag != f
    ensures ValuesOf(ItemsOf(rows), f) == []
  {
    if rows != [] {
      var front, last := rows[..|rows| - 1], rows[|rows| - 1];
      NoRowNoValues(front, f);
      ValuesOfConcat(ItemsOf(front), Repeat(last.flag, last.values), f);
      ValuesOfRepeat(last.flag, last.values, f);
    }
  }

  lemma {:induction false} ValuesOfRow(rows: seq<Row>, n: nat)
    requires n < |rows| && forall k | 0 <= k < |rows| && k != n :: rows[k].flag != rows[n].flag
    ensures ValuesOf(ItemsOf(rows), rows[n].flag) == rows[n].values
  {
    var f := rows[n].flag;
    var front, last := rows[..|rows| - 1], rows[|rows| - 1];
    ValuesOfConcat(ItemsOf(front), Repeat(last.flag, last.values), f);
    ValuesOfRepeat(last.flag, last.values, f);
    if n == |rows| - 1 {
      NoRowNoValues(front, f);
    } else {
      assert front[n] == rows[n];
      ValuesOfRow(front, n);
    }
  }

  lemma RankOfFlagAt(n: nat)
    requires n < FLAG_COUNT
    ensures Rank(FlagAt(n)) == n
  {
  }

  lemma FlagAtRank(f: Flag)
    ensures Rank(f) < FLAG_COUNT && FlagAt(Rank(f)) == f
  {
  }

  lemma ValuesOfItems(i: Inspect, f: Flag)
    ensures ValuesOf(Items(i), f) == Values(i, f)
  {
    FlagAtRank(f);
    forall k | 0 <= k < FLAG_COUNT && k != Rank(f)
      ensures Rows(i)[k].flag != f
    {
      RankOfFlagAt(k);
    }
    ValuesOfRow(Rows(i), Rank(f));
  }

  /** These flags carry every value the inspect output called for. */
  ghost predicate Carries(items: seq<Item>, i: Inspect) {
    forall f :: ValuesOf(items, f) == Values(i, f)
  }

  /** Each flag's values come back, complete and in order, for all 39 flags. */
  lemma ReadFlagsCarryInspect(i: Inspect)
    requires !FlagLike(i.config.image)
    ensures ReadRun(Parts(i)).Some? && Carries(ReadRun(Parts(i)).value.items, i)
  {
    DockerReadsParts(i);
    forall f
      ensures ValuesOf(Items(i), f) == Values(i, f)
    {
      ValuesOfItems(i, f);
    }
  }

  // ------------------------------------------------------------------
  // What the recreated container gets
  // ------------------------------------------------------------------

  /** Docker's reading of `--restart`: a name and a retry limit. */
  function ReadRestart(values: seq<string>): (string, Option<nat>) {
    if values == [] then ("no", Some(0))
    else match Cut(values[|values| - 1], ':')
         case None => (values[|values| - 1], Some(0))
         case Some((name, max)) => (name, ParseNat(max))
  }

  /** The policy the container had, with the two spellings of "none" identified. */
  function RestartPolicy(h: HostConfig): (string, Option<nat>) {
    if h.restartName == "" || h.restartName == "no" then ("no", Some(0))
    else (h.restartName, Some(if h.restartName == "on-failure" then h.maxRetry else 0))
  }

  lemma RestartReadsBack(h: HostConfig)
    ensures ReadRestart(RestartValue(h)) == RestartPolicy(h) <==> ':' !in h.restartName
  {
    CutOfNone(h.restartName, ':');
    if h.restartName == "on-failure" && h.maxRetry != 0 {
      ParseOfDecimal(h.maxRetry);
      CutOfJoin(h.restartName, ':', Decimal(h.maxRetry));
      assert "on-failure:" + Decimal(h.maxRetry) == "on-failure" + ":" + Decimal(h.maxRetry);
    }
  }

  lemma RestartRecovered(items: seq<Item>, i: Inspect)
    requires Carries(items, i)
    ensures ReadRestart(ValuesOf(items, Restart)) == RestartPolicy(i.host) <==> ':' !in i.host.restartName
  {
    RestartReadsBack(i.host);
  }

  function ReadNumber(values: seq<string>, read: string -> Option<nat>): Option<nat> {
    if values == [] then Some(0) else read(values[|values| - 1])
  }

  lemma NumberReadsBack(n: nat)
    ensures ReadNumber(GivenNumber(n), ParseNat) == Some(n)
  {
    ParseOfDecimal(n);
  }

  lemma DurationReadsBack(ns: Count)
    ensures ReadNumber(GivenDuration(ns), ReadDuration) == Some(ns) <==> DurationExact(ns)
  {
    DurationExactly(ns);
  }

  lemma CpusReadsBack(nano: Count)
    ensures ReadNumber(GivenCpus(nano), ReadCpus) == Some(nano) <==> nano == 0 || CpusExact(nano)
  {
    if nano > 0 {
      CpusExactly(nano);
    }
  }

  lemma LimitValues(i: Inspect)
    ensures Values(i, Memory) == GivenNumber(i.host.memory)
    ensures Values(i, Cpus) == GivenCpus(i.host.nanoCpus)
    ensures Values(i, CpuShares) == GivenNumber(i.host.cpuShares)
  {
  }

  /** Memory and shares denote the original integers, zero and absent being the same; CPUs exactly where a double can tell. */
  lemma LimitsRecovered(items: seq<Item>, i: Inspect)
    requires Carries(items, i)
    ensures ReadNumber(ValuesOf(items, Memory), ParseNat) == Some(i.host.memory)
    ensures ReadNumber(ValuesOf(items, CpuShares), ParseNat) == Some(i.host.cpuShares)
    ensures ReadNumber(ValuesOf(items, Cpus), ReadCpus) == Some(i.host.nanoCpus) <==> i.host.nanoCpus == 0 || CpusExact(i.host.nanoCpus)
  {
    LimitValues(i);
    NumberReadsBack(i.host.memory);
    CpusReadsBack(i.host.nanoCpus);
    NumberReadsBack(i.host.cpuShares);
  }

  lemma HealthIntervalValue(i: Inspect)
    requires HasCheck(i.config.health)
    ensures Values(i, HealthInterval) == GivenDuration(i.config.health.interval)
  {
  }

  lemma HealthTimeoutValue(i: Inspect)
    requires HasCheck(i.config.health)
    ensures Values(i, HealthTimeout) == GivenDuration(i.config.health.timeout)
  {
  }

  lemma HealthStartPeriodValue(i: Inspect)
    requires HasCheck(i.config.health)
    ensures Values(i, HealthStartPeriod) == GivenDuration(i.config.health.startPeriod)
  {
  }

  /** The timings of a health check denote the original nanoseconds exactly where a double can tell. */
  lemma HealthTimingsRecovered(items: seq<Item>, i: Inspect)
    requires Carries(items, i) && i.config.health.test != [] && i.config.health.test[0] in {"CMD", "CMD-SHELL"}
    ensures var h := i.config.health;
            && (ReadNumber(ValuesOf(items, HealthInterval), ReadDuration) == Some(h.interval) <==> DurationExact(h.interval))
            && (ReadNumber(ValuesOf(items, HealthTimeout), ReadDuration) == Some(h.timeout) <==> DurationExact(h.timeout))
            && (ReadNumber(ValuesOf(items, HealthStartPeriod), ReadDuration) == Some(h.startPeriod) <==> DurationExact(h.startPeriod))
  {
    var h := i.config.health;
    HealthIntervalValue(i);
    HealthTimeoutValue(i);
    HealthStartPeriodValue(i);
    DurationReadsBack(h.interval);
    DurationReadsBack(h.timeout);
    DurationReadsBack(h.startPeriod);
  }

  /** A single-valued flag: the last one counts, none means the empty setting. */
  function ReadText(values: seq<string>): string {
    if values == [] then "" else values[|values| - 1]
  }

  /** The settings Docker takes over as they are written. */
  datatype Settings = Settings(
    name: string, user: string, workingDir: string, stopSignal: string, pidMode: string, privileged: bool,
    binds: seq<string>, tmpfs: seq<string>, capAdd: seq<string>, capDrop: seq<string>, dns: seq<string>, extraHosts: seq<string>)

  function ReadSettings(items: seq<Item>): Settings {
    Settings(ReadText(ValuesOf(items, Name)), ReadText(ValuesOf(items, User)), ReadText(ValuesOf(items, Workdir)),
             ReadText(ValuesOf(items, StopSignal)), ReadText(ValuesOf(items, Pid)), ValuesOf(items, Privileged) != [],
             ValuesOf(items, Volume), ValuesOf(items, Tmpfs), ValuesOf(items, CapAdd), ValuesOf(items, CapDrop),
             ValuesOf(items, Dns), ValuesOf(items, AddHost))
  }

  /** The same settings where `docker inspect` shows them. */
  function SettingsOf(i: Inspect): Settings {
    var c, h := i.config, i.host;
    Settings(ContainerName(i), c.user, c.workingDir, c.stopSignal, h.pidMode, h.privileged,
             h.binds, h.tmpfs, h.capAdd, h.capDrop, h.dns, h.extraHosts)
  }

  lemma TextValues(i: Inspect)
    ensures ReadText(Values(i, Name)) == ContainerName(i)
    ensures ReadText(Values(i, User)) == i.config.user && ReadText(Values(i, Workdir)) == i.config.workingDir
  {
  }

  lemma ModeValues(i: Inspect)
    ensures ReadText(Values(i, StopSignal)) == i.config.stopSignal && ReadText(Values(i, Pid)) == i.host.pidMode
    ensures Values(i, Privileged) != [] <==> i.host.privileged
  {
  }

  lemma MountValues(i: Inspect)
    ensures Values(i, Env) == i.config.env && Values(i, Volume) == i.host.binds && Values(i, Tmpfs) == i.host.tmpfs
  {
  }

  lemma RightValues(i: Inspect)
    ensures Values(i, CapAdd) == i.host.capAdd && Values(i, CapDrop) == i.host.capDrop && Values(i, SecurityOpt) == i.host.securityOpt
  {
  }

  lemma NameServiceValues(i: Inspect)
    ensures Values(i, Dns) == i.host.dns && Values(i, AddHost) == i.host.extraHosts
  {
  }

  /** Name, user, binds, capabilities and the other plain settings come back, lists in order. */
  lemma SettingsRecovered(items: seq<Item>, i: Inspect)
    requires Carries(items, i)
    ensures ReadSettings(items) == SettingsOf(i)
  {
    TextValues(i);
    ModeValues(i);
    MountValues(i);
    RightValues(i);
    NameServiceValues(i);
  }

  /** Inspect shows the name behind a slash; the container gets it back without. */
  lemma NameRecovered(items: seq<Item>, i: Inspect, name: string)
    requires Carries(items, i) && i.name == "/" + name && (name == "" || name[0] != '/')
    ensures ReadText(ValuesOf(items, Name)) == name
  {
    TextValues(i);
    assert i.name[0] == '/' && i.name[1..] == name;
    assert LStripSlash(i.name) == LStripSlash(name) == name;
  }

  // ------------------------------------------------------------------
  // The settings with a form of their own
  // ------------------------------------------------------------------

  /** A check is taken over as one shell command, with its retries; `NONE` switches the image's own off. */
  lemma HealthCheckRecovered(items: seq<Item>, i: Inspect)
    requires Carries(items, i)
    ensures var test := i.config.health.test;
            && (ValuesOf(items, NoHealthcheck) != [] <==> test != [] && test[0] == "NONE")
            && (|test| >= 2 && test[0] == "CMD-SHELL" ==> ReadText(ValuesOf(items, HealthCmd)) == test[1])
            && (test != [] && test[0] == "CMD" ==> ReadText(ValuesOf(items, HealthCmd)) == JoinSpaces(test[1..]))
            && (test == [] || test[0] == "NONE" ==> ValuesOf(items, HealthCmd) == [])
            && (test != [] && test[0] in {"CMD", "CMD-SHELL"} ==> ReadNumber(ValuesOf(items, HealthRetries), ParseNat) == Some(i.config.health.retries))
            && (test == [] || test[0] !in {"CMD", "CMD-SHELL"} ==>
                  ValuesOf(items, HealthInterval) == ValuesOf(items, HealthTimeout) == ValuesOf(items, HealthRetries) == ValuesOf(items, HealthStartPeriod) == [])
  {
    HealthCheckValues(i);
    if i.config.health.test == [] || i.config.health.test[0] !in {"CMD", "CMD-SHELL"} {
      NoTimingsWithoutCheck(i);
    }
    NumberReadsBack(i.config.health.retries);
  }

  lemma HealthCheckValues(i: Inspect)
    ensures var test := i.config.health.test;
            && (Values(i, NoHealthcheck) != [] <==> test != [] && test[0] == "NONE")
            && Values(i, HealthCmd) == HealthCmdValue(i.config.health)
            && (test != [] && test[0] in {"CMD", "CMD-SHELL"} ==> Values(i, HealthRetries) == GivenNumber(i.config.health.retries))
  {
  }

  lemma NoTimingsWithoutCheck(i: Inspect)
    requires i.config.health.test == [] || i.config.health.test[0] !in {"CMD", "CMD-SHELL"}
    ensures Values(i, HealthInterval) == Values(i, HealthTimeout) == Values(i, HealthRetries) == Values(i, HealthStartPeriod) == []
  {
  }

  /** Words joined by spaces: each word stands behind those before it. */
  lemma {:induction false} SpacesJoin(front: seq<string>, last: string)
    requires front != []
    ensures JoinSpaces(front + [last]) == JoinSpaces(front) + " " + last
    ensures JoinSpaces([]) == "" && JoinSpaces([last]) == last
  {
    var all := front + [last];
    if |front| == 1 {
      assert all[1..] == [last];
    } else {
      assert all[1..] == front[1..] + [last];
      SpacesJoin(front[1..], last);
    }
  }

  /** A stop timeout of zero is left to Docker. */
  lemma StopTimeoutRecovered(items: seq<Item>, i: Inspect)
    requires Carries(items, i)
    ensures if i.config.stopTimeout == 0 then ValuesOf(items, StopTimeout) == []
            else ReadInt(ReadText(ValuesOf(items, StopTimeout))) == Some(i.config.stopTimeout)
  {
    OtherValues(i);
    IntReadsBack(i.config.stopTimeout);
  }

  /** A host name is set unless it is the old short id or the name; two IPC modes are Docker's own choice. */
  lemma HostnameRecovered(items: seq<Item>, i: Inspect)
    requires Carries(items, i)
    ensures ValuesOf(items, Hostname)
         == if i.config.hostname in {"", ShortId(i.id), ContainerName(i)} then [] else [i.config.hostname]
    ensures ReadText(ValuesOf(items, Ipc)) == if i.host.ipcMode in {"shareable", "private"} then "" else i.host.ipcMode
    ensures ValuesOf(items, Detach) != []
  {
    OtherValues(i);
  }

  lemma OtherValues(i: Inspect)
    ensures Values(i, Hostname) == if i.config.hostname in {"", ShortId(i.id), ContainerName(i)} then [] else [i.config.hostname]
    ensures Values(i, StopTimeout) == if i.config.stopTimeout == 0 then [] else [IntText(i.config.stopTimeout)]
    ensures Values(i, Ipc) == if i.host.ipcMode in {"", "shareable", "private"} then [] else [i.host.ipcMode]
    ensures Values(i, Detach) == [""]
  {
  }

  /** The first twelve characters. */
  function ShortId(id: string): (short: string)
    ensures short <= id && |short| == if |id| <= 12 then |id| else 12
  {
    if |id| <= 12 then id else id[..12]
  }

  // ------------------------------------------------------------------
  // Environment and security options
  // ------------------------------------------------------------------

  /** Docker's client gives a variable named without a value the one it has itself, or leaves it out. */
  function ReadEnv(values: seq<string>, caller: map<string, string>): seq<string> {
    if values == [] then []
    else
      var n := |values| - 1;
      ReadEnv(values[..n], caller)
      + if '=' in values[n] then [values[n]] else if values[n] in caller then [values[n] + "=" + caller[values[n]]] else []
  }

  lemma {:induction false} EnvIsComplete(values: seq<string>, caller: map<string, string>)
    ensures forall k | 0 <= k < |ReadEnv(values, caller)| :: '=' in ReadEnv(values, caller)[k]
    ensures (forall k | 0 <= k < |values| :: '=' in values[k]) ==> ReadEnv(values, caller) == values
  {
    if values != [] {
      var n := |values| - 1;
      EnvIsComplete(values[..n], caller);
      assert values == values[..n] + [values[n]];
    }
  }

  /** The environment comes back, in order, exactly when every variable in it has a value, even an empty one. */
  lemma EnvRecovered(items: seq<Item>, i: Inspect, caller: map<string, string>)
    requires Carries(items, i)
    ensures ReadEnv(ValuesOf(items, Env), caller) == i.config.env <==> forall k | 0 <= k < |i.config.env| :: '=' in i.config.env[k]
  {
    MountValues(i);
    EnvIsComplete(i.config.env, caller);
  }

  const SECCOMP: string := "seccomp="

  /** A security option whose value Docker's client reads as the name of a file. */
  predicate NamesFile(option: string) {
    SECCOMP <= option && option != "seccomp=unconfined" && option != "seccomp=builtin"
  }

  /** Docker's client puts the profile in place of its file name, and gives up without the file. */
  function ReadSecurityOption(option: string, files: map<string, string>): Option<string> {
    if !NamesFile(option) then Some(option)
    else
      var name := option[|SECCOMP|..];
      if name in files then Some(SECCOMP + files[name]) else None
  }

  function ReadSecurity(values: seq<string>, files: map<string, string>): Option<seq<string>> {
    if values == [] then Some([])
    else match (ReadSecurity(values[..|values| - 1], files), ReadSecurityOption(values[|values| - 1], files))
         case (Some(front), Some(last)) => Some(front + [last])
         case _ => None
  }

  /** The option means on this host what inspect shows: it is no profile, or a file of that name holds that very text. */
  predicate Reusable(option: string, files: map<string, string>) {
    "seccomp=" <= option && option != "seccomp=unconfined" && option != "seccomp=builtin" ==> option[8..] in files && files[option[8..]] == option[8..]
  }

  lemma OptionReadsBack(option: string, files: map<string, string>)
    ensures ReadSecurityOption(option, files) == Some(option) <==> Reusable(option, files)
  {
    if NamesFile(option) {
      assert option == SECCOMP + option[|SECCOMP|..];
      if option[|SECCOMP|..] in files {
        assert (SECCOMP + files[option[|SECCOMP|..]])[|SECCOMP|..] == files[option[|SECCOMP|..]];
      }
    }
  }

  lemma {:induction false} OptionsReadBack(values: seq<string>, files: map<string, string>)
    ensures ReadSecurity(values, files).Some? ==> |ReadSecurity(values, files).value| == |values|
    ensures ReadSecurity(values, files) == Some(values) <==> forall k | 0 <= k < |values| :: Reusable(values[k], files)
  {
    if values != [] {
      var front, last := values[..|values| - 1], values[|values| - 1];
      OptionsReadBack(front, files);
      OptionReadsBack(last, files);
      assert values == front + [last];
      assert forall k | 0 <= k < |front| :: front[k] == values[k];
    }
  }

  /**
   The security options come back, in order, exactly when none is a custom seccomp profile: inspect
   shows its text, which the client reads as a file name.
   */
  lemma SecurityRecovered(items: seq<Item>, i: Inspect, files: map<string, string>)
    requires Carries(items, i)
    ensures ReadSecurity(ValuesOf(items, SecurityOpt), files) == Some(i.host.securityOpt)
       <==> forall k | 0 <= k < |i.host.securityOpt| :: Reusable(i.host.securityOpt[k], files)
  {
    RightValues(i);
    OptionsReadBack(i.host.securityOpt, files);
  }

  lemma {:induction false} FirstCustomIsAttached(networks: seq<Network>)
    ensures FirstCustom(networks) != "" ==> exists k :: 0 <= k < |networks| && networks[k].name == FirstCustom(networks)
    ensures FirstCustom(networks) !in {"bridge", "host", "none"}
  {
    if networks != [] {
      FirstCustomIsAttached(networks[1..]);
      if networks[0].name !in {"bridge", "host", "none"} {
        assert networks[0].name == FirstCustom(networks);
      } else if FirstCustom(networks) != "" {
        var k :| 0 <= k < |networks[1..]| && networks[1..][k].name == FirstCustom(networks);
        assert networks[k + 1].name == FirstCustom(networks);
      }
    }
  }

  lemma NetworkValues(i: Inspect)
    ensures ReadText(Values(i, NetworkFlag)) == NetworkValue(i)
    ensures NetworkValue(i) != "" && Attached(i.networks, NetworkValue(i)).Some? ==>
              && ReadText(Values(i, Ip)) == Attached(i.networks, NetworkValue(i)).value.ipv4
              && ReadText(Values(i, Ip6)) == Attached(i.networks, NetworkValue(i)).value.ipv6
  {
  }

  /**
   The container joins the network its mode names; without such a mode, one it was attached to and that
   is not built in. The addresses pinned there come back.
   */
  lemma NetworkRecovered(items: seq<Item>, i: Inspect)
    requires Carries(items, i)
    ensures var network := ReadText(ValuesOf(items, NetworkFlag));
            && (i.host.networkMode !in {"", "default", "bridge"} ==> network == i.host.networkMode)
            && (i.host.networkMode in {"", "default", "bridge"} && network != "" ==>
                  network !in {"bridge", "host", "none"} && exists k :: 0 <= k < |i.networks| && i.networks[k].name == network)
            && (network != "" && Attached(i.networks, network).Some? ==>
                  && ReadText(ValuesOf(items, Ip)) == Attached(i.networks, network).value.ipv4
                  && ReadText(ValuesOf(items, Ip6)) == Attached(i.networks, network).value.ipv6)
  {
    NetworkValues(i);
    FirstCustomIsAttached(i.networks);
  }

  // ------------------------------------------------------------------
  // Published ports
  // ------------------------------------------------------------------

  /** One published port: host address, host port, container port. */
  datatype Published = Published(hostIp: string, hostPort: string, container: string)

  /** Docker's reading of `-p`, from the right: an address may itself contain colons. */
  function ReadPort(text: string): Published {
    match CutLast(text, ':')
    case None => Published("", "", text)
    case Some((front, container)) =>
      match CutLast(front, ':')
      case None => Published("", front, container)
      case Some((ip, port)) => Published(ip, port, container)
  }

  /** What a binding asks for; the two wildcard addresses mean no address. */
  function Wanted(container: string, b: Binding): Published {
    Published(if b.hostIp == "0.0.0.0" || b.hostIp == "::" then "" else b.hostIp, b.hostPort, container)
  }

  function WantedOf(p: Port): seq<Published> {
    seq(|p.bindings|, k requires 0 <= k < |p.bindings| => Wanted(p.container, p.bindings[k]))
  }

  function WantedPorts(ports: seq<Port>): seq<Published> {
    if ports == [] then [] else WantedOf(ports[0]) + WantedPorts(ports[1..])
  }

  /** Neither the host port nor the container port read from a text contains a colon. */
  lemma ReadPortIsPlain(text: string)
    ensures ':' !in ReadPort(text).container && ':' !in ReadPort(text).hostPort
  {
    CutLastIsLast(text, ':');
    if CutLast(text, ':').Some? {
      CutLastIsLast(CutLast(text, ':').value.0, ':');
    }
  }

  lemma PlainBindingReadsBack(container: string, b: Binding)
    requires ':' !in container && ':' !in b.hostPort
    ensures ReadPort(BindingText(container, b)) == Wanted(container, b)
  {
    var front := b.hostIp + ":" + b.hostPort;
    CutLastOfJoin(front, ':', container);
    CutLastOfJoin(b.hostIp, ':', b.hostPort);
    CutLastOfJoin(b.hostPort, ':', container);
    CutLastOfNone(b.hostPort, ':');
    CutLastOfNone(container, ':');
    assert b.hostIp + ":" + b.hostPort + ":" + container == front + ":" + container;
  }

  /** This text denotes the published port exactly when its two port texts hold no colon. */
  ghost predicate DenotesPort(text: string, p: Published) {
    ReadPort(text) == p <==> ':' !in p.container && ':' !in p.hostPort
  }

  lemma BindingReadsBack(container: string, b: Binding)
    ensures DenotesPort(BindingText(container, b), Wanted(container, b))
  {
    ReadPortIsPlain(BindingText(container, b));
    if ':' !in container && ':' !in b.hostPort {
      PlainBindingReadsBack(container, b);
    }
  }

  ghost predicate DenotePorts(texts: seq<string>, ps: seq<Published>) {
    |texts| == |ps| && forall k | 0 <= k < |texts| :: DenotesPort(texts[k], ps[k])
  }

  lemma DenoteBoth(a: seq<string>, b: seq<string>, x: seq<Published>, y: seq<Published>)
    requires DenotePorts(a, x) && DenotePorts(b, y)
    ensures DenotePorts(a + b, x + y)
  {
    forall k | 0 <= k < |a + b|
      ensures DenotesPort((a + b)[k], (x + y)[k])
    {
      if k >= |a| {
        assert (a + b)[k] == b[k - |a|] && (x + y)[k] == y[k - |a|];
      }
    }
  }

  lemma BindingsReadBack(p: Port)
    ensures DenotePorts(BindingTexts(p), WantedOf(p))
  {
    forall k | 0 <= k < |p.bindings|
      ensures DenotesPort(BindingTexts(p)[k], WantedOf(p)[k])
    {
      BindingReadsBack(p.container, p.bindings[k]);
    }
  }

  lemma {:induction false} PortTextsReadBack(ports: seq<Port>)
    ensures DenotePorts(PortTexts(ports), WantedPorts(ports))
  {
    if ports != [] {
      PortTextsReadBack(ports[1..]);
      BindingsReadBack(ports[0]);
      DenoteBoth(BindingTexts(ports[0]), PortTexts(ports[1..]), WantedOf(ports[0]), WantedPorts(ports[1..]));
    }
  }

  /** A published port comes back, wildcards as no address, exactly when its port texts hold no colon; addresses may. */
  lemma PortsRecovered(items: seq<Item>, i: Inspect)
    requires Carries(items, i)
    ensures DenotePorts(ValuesOf(items, Publish), WantedPorts(i.host.ports))
  {
    PortTextsReadBack(i.host.ports);
  }

  // ------------------------------------------------------------------
  // Pairs and limits
  // ------------------------------------------------------------------

  /** One text for each pair, in order, and it denotes the pair exactly when the key holds no equals sign. */
  ghost predicate Denotes(texts: seq<string>, ps: seq<Pair>) {
    && |texts| == |ps|
    && forall k | 0 <= k < |ps| :: Cut(texts[k], '=') == Some((ps[k].key, ps[k].value)) <==> '=' !in ps[k].key
  }

  lemma PairsReadBack(ps: seq<Pair>)
    ensures Denotes(PairTexts(ps), ps)
  {
    forall k | 0 <= k < |ps|
      ensures Cut(PairText(ps[k]), '=') == Some((ps[k].key, ps[k].value)) <==> '=' !in ps[k].key
    {
      CutOfNone(PairText(ps[k]), '=');
      if '=' !in ps[k].key {
        CutOfJoin(ps[k].key, '=', ps[k].value);
      }
    }
  }

  /** Every label that is not Docker's own comes back. */
  lemma LabelsRecovered(items: seq<Item>, i: Inspect)
    requires Carries(items, i)
    ensures Denotes(ValuesOf(items, Label), OwnLabels(i.config.labels))
  {
    PairsReadBack(OwnLabels(i.config.labels));
    assert ValuesOf(items, Label) == PairTexts(OwnLabels(i.config.labels));
  }

  lemma SysctlsRecovered(items: seq<Item>, i: Inspect)
    requires Carries(items, i)
    ensures Denotes(ValuesOf(items, Sysctl), i.host.sysctls)
  {
    PairsReadBack(i.host.sysctls);
    assert ValuesOf(items, Sysctl) == PairTexts(i.host.sysctls);
  }

  /** Which labels those are, without following the printer: in order, and exactly the ones not internal. */
  lemma {:induction false} OwnLabelsExactly(ps: seq<Pair>, p: Pair)
    ensures multiset(OwnLabels(ps))[p]
         == if "com.docker.compose." <= p.key || "org.opencontainers." <= p.key || "desktop.docker." <= p.key then 0 else multiset(ps)[p]
  {
    if ps != [] {
      OwnLabelsExactly(ps[1..], p);
      assert ps == [ps[0]] + ps[1..];
    }
  }

  lemma OwnLabelsFirst(p: Pair, ps: seq<Pair>)
    ensures OwnLabels([p] + ps) == OwnLabels([p]) + OwnLabels(ps)
  {
    assert ([p] + ps)[1..] == ps && [p][1..] == [];
  }

  /** And they keep their order: each label is judged alone. */
  lemma {:induction false} OwnLabelsActOneByOne(a: seq<Pair>, b: seq<Pair>)
    ensures OwnLabels(a + b) == OwnLabels(a) + OwnLabels(b)
  {
    if a == [] {
      assert a + b == b;
    } else {
      var first, rest := a[0], a[1..];
      assert a + b == [first] + (rest + b) && a == [first] + rest;
      OwnLabelsFirst(first, rest + b);
      OwnLabelsFirst(first, rest);
      OwnLabelsActOneByOne(rest, b);
    }
  }

  /** The log driver and its options come back, unless it is the default one. */
  lemma LoggingRecovered(items: seq<Item>, i: Inspect)
    requires Carries(items, i) && i.host.logDriver !in {"", "json-file"}
    ensures ReadText(ValuesOf(items, LogDriver)) == i.host.logDriver && Denotes(ValuesOf(items, LogOpt), i.host.logOpts)
  {
    PairsReadBack(i.host.logOpts);
  }

  function Signed(sign: int, n: Option<nat>): Option<int> {
    match n
    case None => None
    case Some(v) => Some(sign * v)
  }

  function ReadInt(s: string): Option<int> {
    if s != "" && s[0] == '-' then Signed(-1, ParseNat(s[1..])) else Signed(1, ParseNat(s))
  }

  lemma IntReadsBack(n: int)
    ensures ReadInt(IntText(n)) == Some(n) && ':' !in IntText(n)
  {
    if n < 0 {
      ParseOfDecimal(-n);
      assert IntText(n)[1..] == Decimal(-n);
    } else {
      ParseOfDecimal(n);
    }
  }

  /** Docker's reading of `--ulimit`: name=soft:hard. */
  function ReadUlimit(text: string): Option<Ulimit> {
    match Cut(text, '=')
    case None => None
    case Some((name, limits)) =>
      match Cut(limits, ':')
      case None => None
      case Some((soft, hard)) =>
        match (ReadInt(soft), ReadInt(hard))
        case (Some(s), Some(h)) => Some(Ulimit(name, s, h))
        case _ => None
  }

  lemma UlimitReadsBack(u: Ulimit)
    ensures ReadUlimit(u.name + "=" + IntText(u.soft) + ":" + IntText(u.hard)) == Some(u) <==> '=' !in u.name
  {
    var limits := IntText(u.soft) + ":" + IntText(u.hard);
    var text := u.name + "=" + limits;
    assert u.name + "=" + IntText(u.soft) + ":" + IntText(u.hard) == text;
    CutOfNone(text, '=');
    if '=' !in u.name {
      IntReadsBack(u.soft);
      IntReadsBack(u.hard);
      CutOfJoin(u.name, '=', limits);
      CutOfJoin(IntText(u.soft), ':', IntText(u.hard));
    }
  }

  /** Every ulimit comes back, unlimited (-1) included, exactly when its name holds no equals sign. */
  lemma UlimitsRecovered(items: seq<Item>, i: Inspect)
    requires Carries(items, i)
    ensures var us, texts := i.host.ulimits, ValuesOf(items, UlimitFlag);
            |texts| == |us| && forall k | 0 <= k < |us| :: ReadUlimit(texts[k]) == Some(us[k]) <==> '=' !in us[k].name
  {
    var us := i.host.ulimits;
    assert ValuesOf(items, UlimitFlag) == UlimitTexts(us);
    forall k | 0 <= k < |us|
      ensures ReadUlimit(UlimitTexts(us)[k]) == Some(us[k]) <==> '=' !in us[k].name
    {
      UlimitReadsBack(us[k]);
    }
  }

  function ReadDevice(text: string): Option<Device> {
    match Cut(text, ':')
    case None => None
    case Some((onHost, rest)) =>
      match Cut(rest, ':')
      case None => None
      case Some((inContainer, perms)) => Some(Device(onHost, inContainer, perms))
  }

  function MappedDevices(ds: seq<Device>): seq<Device> {
    if ds == [] then [] else (if Mapped(ds[0]) then [ds[0]] else []) + MappedDevices(ds[1..])
  }

  /** This text denotes the device exactly when neither of its paths holds a colon. */
  ghost predicate DenotesDevice(text: string, d: Device) {
    ReadDevice(text) == Some(d) <==> ':' !in d.onHost && ':' !in d.inContainer
  }

  lemma DeviceReadsBack(d: Device)
    ensures DenotesDevice(DeviceText(d), d)
  {
    var rest := d.inContainer + ":" + d.perms;
    assert DeviceText(d) == d.onHost + ":" + rest;
    CutOfNone(DeviceText(d), ':');
    CutOfNone(rest, ':');
    if ':' !in d.onHost {
      CutOfJoin(d.onHost, ':', rest);
      if ':' !in d.inContainer {
        CutOfJoin(d.inContainer, ':', d.perms);
      }
    }
  }

  ghost predicate DenoteDevices(texts: seq<string>, ds: seq<Device>) {
    |texts| == |ds| && forall k | 0 <= k < |texts| :: DenotesDevice(texts[k], ds[k])
  }

  lemma OneMoreDevice(text: string, d: Device, texts: seq<string>, ds: seq<Device>)
    requires DenotesDevice(text, d) && DenoteDevices(texts, ds)
    ensures DenoteDevices([text] + texts, [d] + ds)
  {
  }

  lemma {:induction false} DeviceTextsReadBack(ds: seq<Device>)
    ensures DenoteDevices(DeviceTexts(ds), MappedDevices(ds))
  {
    if ds != [] {
      DeviceTextsReadBack(ds[1..]);
      DeviceReadsBack(ds[0]);
      OneMoreDevice(DeviceText(ds[0]), ds[0], DeviceTexts(ds[1..]), MappedDevices(ds[1..]));
      assert [] + DeviceTexts(ds[1..]) == DeviceTexts(ds[1..]) && [] + MappedDevices(ds[1..]) == MappedDevices(ds[1..]);
    }
  }

  lemma MappedDevicesFirst(d: Device, ds: seq<Device>)
    ensures MappedDevices([d] + ds) == MappedDevices([d]) + MappedDevices(ds)
  {
    assert ([d] + ds)[1..] == ds && [d][1..] == [];
  }

  /** Which devices those are: each is judged alone, and needs both of its paths. */
  lemma {:induction false} MappedDevicesActOneByOne(a: seq<Device>, b: seq<Device>)
    ensures MappedDevices(a + b) == MappedDevices(a) + MappedDevices(b)
  {
    if a == [] {
      assert a + b == b;
    } else {
      var first, rest := a[0], a[1..];
      assert a + b == [first] + (rest + b) && a == [first] + rest;
      MappedDevicesFirst(first, rest + b);
      MappedDevicesFirst(first, rest);
      MappedDevicesActOneByOne(rest, b);
    }
  }

  lemma MappedDevice(d: Device)
    ensures MappedDevices([d]) == if d.onHost != "" && d.inContainer != "" then [d] else []
  {
    assert [d][1..] == [];
  }

  /** Every mapped device comes back exactly when neither of its paths holds a colon. */
  lemma DevicesRecovered(items: seq<Item>, i: Inspect)
    requires Carries(items, i)
    ensures var mapped, texts := MappedDevices(i.host.devices), ValuesOf(items, DeviceFlag);
            |texts| == |mapped| && forall k | 0 <= k < |texts| :: DenotesDevice(texts[k], mapped[k])
  {
    DeviceTextsReadBack(i.host.devices);
  }

  /** What the image itself would run. */
  datatype ImageDefaults = ImageDefaults(entrypoint: seq<string>, cmd: seq<string>)

  /**
   The process Docker starts: `--entrypoint` replaces the image's entrypoint and drops its command,
   and an empty one clears it; without the flag the image's own defaults fill in.
   */
  function ProcessArgv(entrypoint: seq<string>, args: seq<string>, image: ImageDefaults): seq<string> {
    if entrypoint == [] then image.entrypoint + (if args == [] then image.cmd else args)
    else Given(entrypoint[|entrypoint| - 1]) + args
  }

  function ProcessOf(p: Parsed, image: ImageDefaults): seq<string> {
    ProcessArgv(ValuesOf(p.items, Entrypoint), p.args, image)
  }

  /** A caller can tell from the inspect output and the image whether the process is reproduced. */
  predicate ProcessReproducible(c: Config, image: ImageDefaults) {
    if c.entrypoint != [] then c.entrypoint[0] != ""
    else image.entrypoint == [] && (c.cmd != [] || image.cmd == [])
  }

  lemma ArgvReproducedExactly(c: Config, image: ImageDefaults)
    ensures ProcessArgv(if c.entrypoint == [] then [] else [c.entrypoint[0]], ExtraArgs(c), image) == c.entrypoint + c.cmd
       <==> ProcessReproducible(c, image)
  {
    var argv := ProcessArgv(if c.entrypoint == [] then [] else [c.entrypoint[0]], ExtraArgs(c), image);
    if c.entrypoint == [] {
      assert argv == image.entrypoint + (if c.cmd == [] then image.cmd else c.cmd) && c.entrypoint + c.cmd == c.cmd;
      assert image.entrypoint == [] ==> argv == if c.cmd == [] then image.cmd else c.cmd;
      assert image.entrypoint != [] && c.cmd != [] ==> |argv| > |c.cmd|;
    } else if c.entrypoint[0] == "" {
      assert |argv| == |c.entrypoint| - 1 + |c.cmd|;
    } else {
      assert argv == [c.entrypoint[0]] + (c.entrypoint[1..] + c.cmd);
      assert c.entrypoint == [c.entrypoint[0]] + c.entrypoint[1..];
    }
  }

  lemma EntrypointValue(i: Inspect)
    ensures Values(i, Entrypoint) == if i.config.entrypoint == [] then [] else [i.config.entrypoint[0]]
  {
  }

  lemma ProcessOfPrinted(i: Inspect, image: ImageDefaults)
    ensures ProcessOf(Parsed(Items(i), i.config.image, ExtraArgs(i.config)), image)
         == ProcessArgv(if i.config.entrypoint == [] then [] else [i.config.entrypoint[0]], ExtraArgs(i.config), image)
  {
    ValuesOfItems(i, Entrypoint);
    EntrypointValue(i);
  }

  /**
   The recreated process is `Entrypoint ++ Cmd` exactly then. In particular an entrypoint cleared
   with `--entrypoint ""` comes back as the image's own.
   */
  lemma ProcessReproducedExactly(i: Inspect, image: ImageDefaults)
    requires !FlagLike(i.config.image)
    ensures ReadRun(Parts(i)).Some?
    ensures ProcessOf(ReadRun(Parts(i)).value, image) == i.config.entrypoint + i.config.cmd <==> ProcessReproducible(i.config, image)
  {
    DockerReadsParts(i);
    ProcessOfPrinted(i, image);
    ArgvReproducedExactly(i.config, image);
  }

  lemma DockerArrives(parts: seq<string>, layers: seq<ShellQuoting.Layer>)
    requires parts != [] && parts[0] == "docker"
    ensures ShellQuoting.Command(ShellQuoting.CommandLine(parts)) == Some(parts)
    ensures var line := ShellQuoting.CommandLine(parts) + (" " + ShellQuoting.REDIRECT);
            ShellQuoting.Arrive(ShellQuoting.WrapAll(layers, line), |layers|) == Some((layers, parts))
  {
    ShellQuoting.NoAssignment("docker");
    assert !ShellQuoting.Grammatical(parts[0]);
    ShellQuoting.ShellRunsArgv(parts);
    ShellQuoting.InnermostSeesArgv(layers, parts);
  }

  /** The whole way: through any stack of shells, Docker gets a command it reads as these flags. */
  lemma RemoteDockerReadsInspect(i: Inspect, layers: seq<ShellQuoting.Layer>)
    requires !FlagLike(i.config.image)
    ensures var line := ShellQuoting.CommandLine(Parts(i)) + (" " + ShellQuoting.REDIRECT);
            var arrived := ShellQuoting.Arrive(ShellQuoting.WrapAll(layers, line), |layers|);
            && arrived.Some? && arrived.value.0 == layers
            && ReadRun(arrived.value.1).Some? && Carries(ReadRun(arrived.value.1).value.items, i)
  {
    DockerArrives(Parts(i), layers);
    ReadFlagsCarryInspect(i);
  }
}
