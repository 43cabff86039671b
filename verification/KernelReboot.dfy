/**
 Does a Proxmox node need a reboot? The order of kernel releases, the kernel the bootloader will
 pick, the probe that reports it, and the coarser decision made over the API
 (app/proxmox_client.py, `kernel_version_tuple`, `get_node_reboot_required`;
 app/ssh_client.py, `parse_kernel_probe`, `resolve_next_boot_kernel`, `node_reboot_required`).
 */
module KernelReboot {
  import opened Options
  import opened Text

  // ------------------------------------------------------------------
  // Releases as tuples
  // ------------------------------------------------------------------

  const PVE: string := "-pve"

  /** `release.replace("-pve", "")` */
  function WithoutPve(s: string): string {
    if |s| >= 4 && PVE <= s then WithoutPve(s[4..])
    else if s == "" then ""
    else [s[0]] + WithoutPve(s[1..])
  }

  /** `tuple(int(x) for x in s.split("."))`, None where int() raises. */
  function Numbers(s: string): Option<seq<int>>
    decreases |s|
  {
    match Cut(s, '.')
    case None => (match ParseNat(s) case None => None case Some(n) => Some([n]))
    case Some((first, rest)) =>
      CutOfNone(s, '.');
      match (ParseNat(first), Numbers(rest))
      case (Some(n), Some(ns)) => Some([n] + ns)
      case _ => None
  }

  /** kernel_version_tuple: unparseable input becomes (0,). */
  function VersionTuple(release: string): seq<int> {
    var bare := WithoutPve(release);
    match Cut(bare, '-')
    case None => (match Numbers(bare) case None => [0] case Some(ns) => ns + [0])
    case Some((main, build)) =>
      match (Numbers(main), ParseNat(build))
      case (Some(ns), Some(b)) => ns + [b]
      case _ => [0]
  }

  /** Python's order on tuples: lexicographic, a proper prefix first. */
  predicate Less(a: seq<int>, b: seq<int>) {
    if b == [] then false
    else if a == [] then true
    else a[0] < b[0] || (a[0] == b[0] && Less(a[1..], b[1..]))
  }

  lemma {:induction false} LessTransitive(a: seq<int>, b: seq<int>, c: seq<int>)
    requires Less(a, b) && Less(b, c)
    ensures Less(a, c)
  {
    if a != [] && a[0] == b[0] == c[0] {
      LessTransitive(a[1..], b[1..], c[1..]);
    }
  }

  /** The order is total across lengths: exactly one of smaller, equal, greater. */
  lemma {:induction false} LessTotal(a: seq<int>, b: seq<int>)
    ensures Less(a, b) || a == b || Less(b, a)
    ensures !(Less(a, b) && Less(b, a)) && (Less(a, b) ==> a != b)
  {
    if a != [] && b != [] && a[0] == b[0] {
      LessTotal(a[1..], b[1..]);
      assert a == [a[0]] + a[1..] && b == [b[0]] + b[1..];
    }
  }

  predicate Newer(k: string, than: string) {
    Less(VersionTuple(than), VersionTuple(k))
  }

  // ------------------------------------------------------------------
  // The next kernel
  // ------------------------------------------------------------------

  datatype Facts = Facts(running: string, grubDefault: string, savedEntry: string, pin: string, kernels: seq<string>)

  function DigitRun(s: string): (n: nat)
    ensures n <= |s|
  {
    if s != "" && IsDigit(s[0]) then 1 + DigitRun(s[1..]) else 0
  }

  lemma {:induction false} DigitRunIsDigits(s: string)
    ensures forall i | 0 <= i < DigitRun(s) :: IsDigit(s[i])
  {
    if s != "" && IsDigit(s[0]) {
      DigitRunIsDigits(s[1..]);
    }
  }

  /** `\d+` and then a literal, at the start of `s`: the length matched. */
  function NumberThen(s: string, literal: string): Option<nat> {
    var n := DigitRun(s);
    if n > 0 && literal <= s[n..] then Some(n + |literal|) else None
  }

  /** A number before each of the literals, one after the other: the length matched. */
  function MatchParts(s: string, literals: seq<string>): (r: Option<nat>)
    ensures r.Some? ==> r.value <= |s| && (literals != [] ==> r.value > 0)
  {
    if literals == [] then Some(0)
    else match NumberThen(s, literals[0])
         case None => None
         case Some(a) =>
           match MatchParts(s[a..], literals[1..])
           case None => None
           case Some(m) => Some(a + m)
  }

  const RELEASE: seq<string> := [".", ".", "-", "-pve"]

  /** The length of a match of `\d+\.\d+\.\d+-\d+-pve` at the start of `s`. */
  function MatchRelease(s: string): (r: Option<nat>)
    ensures r.Some? ==> 0 < r.value <= |s|
  {
    MatchParts(s, RELEASE)
  }

  /** `re.findall(...)[-1]`: the last of the non-overlapping matches. */
  function LastRelease(s: string): Option<string> {
    if s == "" then None
    else match MatchRelease(s)
         case None => LastRelease(s[1..])
         case Some(n) => if LastRelease(s[n..]).Some? then LastRelease(s[n..]) else Some(s[..n])
  }

  function SavedKernel(f: Facts): Option<string> {
    if f.grubDefault == "saved" && f.savedEntry != "" then LastRelease(f.savedEntry) else None
  }

  /** `max(kernels, key=kernel_version_tuple)`: the first of the newest. */
  method Newest(kernels: seq<string>) returns (k: string)
    requires kernels != []
    ensures k in kernels && forall j | 0 <= j < |kernels| :: !Newer(kernels[j], k)
    ensures k == NewestOf(kernels)
  {
    k := kernels[0];
    assert kernels[..1] == [kernels[0]];
    for i := 1 to |kernels|
      invariant k == NewestOf(kernels[..i])
    {
      assert kernels[..i + 1][..i] == kernels[..i];
      if Newer(kernels[i], k) {
        k := kernels[i];
      }
    }
    assert kernels[..|kernels|] == kernels;
    NewestIsNewest(kernels);
  }

  function NewestOf(kernels: seq<string>): string
    requires kernels != []
  {
    if |kernels| == 1 then kernels[0]
    else
      var best, last := NewestOf(kernels[..|kernels| - 1]), kernels[|kernels| - 1];
      if Newer(last, best) then last else best
  }

  lemma NotNewerChain(a: string, b: string, c: string)
    requires !Newer(a, b) && Newer(c, b)
    ensures !Newer(a, c)
  {
    if Newer(a, c) {
      LessTransitive(VersionTuple(b), VersionTuple(c), VersionTuple(a));
    }
  }

  /** No other kernel is newer than this one. */
  ghost predicate IsNewest(kernels: seq<string>, best: string) {
    best in kernels && forall k | k in kernels :: !Newer(k, best)
  }

  lemma NewestOneMore(front: seq<string>, best: string, last: string)
    requires IsNewest(front, best)
    ensures IsNewest(front + [last], if Newer(last, best) then last else best)
  {
    var winner := if Newer(last, best) then last else best;
    LessTotal(VersionTuple(last), VersionTuple(last));
    forall k | k in front + [last]
      ensures !Newer(k, winner)
    {
      if k in front && Newer(last, best) {
        NotNewerChain(k, best, last);
      }
    }
  }

  lemma {:induction false} NewestIsNewest(kernels: seq<string>)
    requires kernels != []
    ensures IsNewest(kernels, NewestOf(kernels))
  {
    var n := |kernels| - 1;
    if n == 0 {
      LessTotal(VersionTuple(kernels[0]), VersionTuple(kernels[0]));
    } else {
      NewestIsNewest(kernels[..n]);
      NewestOneMore(kernels[..n], NewestOf(kernels[..n]), kernels[n]);
      assert kernels == kernels[..n] + [kernels[n]];
    }
  }

  /** resolve_next_boot_kernel: a pin, else GRUB's saved entry, else the newest installed kernel. */
  function NextBoot(f: Facts): string {
    if f.pin != "" then f.pin
    else if SavedKernel(f).Some? then SavedKernel(f).value
    else if f.kernels != [] then NewestOf(f.kernels)
    else ""
  }

  /** node_reboot_required: None when the probe reported no running kernel. */
  function RebootOverSsh(f: Facts): Option<bool> {
    if f.running == "" then None
    else Some(NextBoot(f) != "" && Newer(NextBoot(f), f.running))
  }

  /** get_node_reboot_required on the same facts: any installed kernel newer than the running one. */
  predicate RebootOverApi(running: string, kernels: seq<string>) {
    running != "" && exists k | k in kernels :: Newer(k, running)
  }

  /** Without a pin and a usable saved entry, both checks give the same answer. */
  lemma SshAgreesWithApi(f: Facts)
    requires f.running != "" && f.pin == "" && "" !in f.kernels
    requires f.grubDefault != "saved" || LastRelease(f.savedEntry) == None
    ensures RebootOverSsh(f) == Some(RebootOverApi(f.running, f.kernels))
  {
    if f.kernels != [] {
      NewestIsNewest(f.kernels);
      var best := NewestOf(f.kernels);
      forall k | k in f.kernels
        ensures Newer(k, f.running) ==> Newer(best, f.running)
      {
        LessTotal(VersionTuple(k), VersionTuple(best));
        if Newer(k, f.running) && Newer(best, k) {
          LessTransitive(VersionTuple(f.running), VersionTuple(k), VersionTuple(best));
        }
      }
    }
  }

  /** A pin decides alone: at or below the running release it never asks for a reboot. */
  lemma PinDecides(f: Facts)
    requires f.running != "" && f.pin != ""
    ensures RebootOverSsh(f) == Some(true) <==> Newer(f.pin, f.running)
    ensures VersionTuple(f.pin) == VersionTuple(f.running) || Newer(f.running, f.pin) ==> RebootOverSsh(f) == Some(false)
  {
    LessTotal(VersionTuple(f.pin), VersionTuple(f.running));
  }

  /** Without a running kernel there is no answer; without any other kernel, no reboot. */
  lemma NothingToCompare(f: Facts)
    ensures f.running == "" ==> RebootOverSsh(f) == None && !RebootOverApi(f.running, f.kernels)
    ensures f.running != "" && f.pin == "" && f.grubDefault != "saved" && f.kernels == [] ==> RebootOverSsh(f) == Some(false)
  {
  }

  /** The API check can ask for a reboot that a pin or a saved entry makes pointless. */
  lemma ApiIgnoresPins(f: Facts, newest: string)
    requires f.running != "" && f.pin == f.running && newest in f.kernels && Newer(newest, f.running)
    ensures RebootOverApi(f.running, f.kernels) && RebootOverSsh(f) == Some(false)
  {
    LessTotal(VersionTuple(f.pin), VersionTuple(f.running));
  }

  // ------------------------------------------------------------------
  // Release names
  // ------------------------------------------------------------------

  /** A Proxmox kernel release, such as 6.17.13-3-pve. */
  function ReleaseName(a: nat, b: nat, c: nat, d: nat): string {
    Decimal(a) + "." + (Decimal(b) + "." + (Decimal(c) + "-" + (Decimal(d) + PVE)))
  }

  lemma DigitsLack(n: nat, c: char)
    requires !IsDigit(c)
    ensures c !in Decimal(n)
  {
  }

  /** Text without a `p` loses only what follows it. */
  lemma {:induction false} WithoutPveOfPlain(s: string, rest: string)
    requires 'p' !in s && (rest == "" || rest == PVE)
    ensures WithoutPve(s + rest) == s
  {
    if s == "" {
      assert s + rest == rest && PVE[4..] == "";
    } else {
      var all := s + rest;
      assert !(|all| >= 4 && PVE <= all) by {
        assert |s| >= 2 ==> all[1] == s[1] && s[1] != 'p';
        assert |s| == 1 && rest == PVE ==> all[1] == '-';
        assert |s| == 1 && rest == "" ==> |all| == 1;
      }
      assert all[1..] == s[1..] + rest;
      WithoutPveOfPlain(s[1..], rest);
      assert s == [s[0]] + s[1..];
    }
  }

  lemma ThreeNumbers(a: nat, b: nat, c: nat)
    ensures Numbers(Decimal(a) + "." + (Decimal(b) + "." + Decimal(c))) == Some([a, b, c])
  {
    var bc := Decimal(b) + "." + Decimal(c);
    DigitsLack(a, '.');
    DigitsLack(b, '.');
    DigitsLack(c, '.');
    ParseOfDecimal(a);
    ParseOfDecimal(b);
    ParseOfDecimal(c);
    CutOfJoin(Decimal(a), '.', bc);
    CutOfJoin(Decimal(b), '.', Decimal(c));
    CutOfNone(Decimal(c), '.');
    assert Numbers(Decimal(c)) == Some([c]);
    assert Numbers(bc) == Some([b] + [c]);
    assert [a] + ([b] + [c]) == [a, b, c];
  }

  /** A release name is compared by its four numbers. */
  lemma ReleaseNameReadsBack(a: nat, b: nat, c: nat, d: nat)
    ensures VersionTuple(ReleaseName(a, b, c, d)) == [a, b, c, d]
  {
    var main := Decimal(a) + "." + (Decimal(b) + "." + Decimal(c));
    var bare := main + "-" + Decimal(d);
    DigitsLack(a, 'p');
    DigitsLack(b, 'p');
    DigitsLack(c, 'p');
    DigitsLack(d, 'p');
    DigitsLack(a, '-');
    DigitsLack(b, '-');
    DigitsLack(c, '-');
    assert ReleaseName(a, b, c, d) == bare + PVE;
    WithoutPveOfPlain(bare, PVE);
    CutOfJoin(main, '-', Decimal(d));
    ThreeNumbers(a, b, c);
    ParseOfDecimal(d);
    assert [a, b, c] + [d] == [a, b, c, d];
  }

  /** A release without a build number is build zero. */
  lemma NoBuildIsZero(a: nat, b: nat, c: nat)
    ensures VersionTuple(Decimal(a) + "." + (Decimal(b) + "." + Decimal(c))) == [a, b, c, 0]
  {
    var main := Decimal(a) + "." + (Decimal(b) + "." + Decimal(c));
    DigitsLack(a, 'p');
    DigitsLack(b, 'p');
    DigitsLack(c, 'p');
    DigitsLack(a, '-');
    DigitsLack(b, '-');
    DigitsLack(c, '-');
    assert main + "" == main;
    WithoutPveOfPlain(main, "");
    CutOfNone(main, '-');
    ThreeNumbers(a, b, c);
  }

  lemma {:induction false} OddNumbers(s: string, odd: char)
    requires odd in s && !IsDigit(odd) && odd != '.'
    ensures Numbers(s) == None
    decreases |s|
  {
    CutOfNone(s, '.');
    if Cut(s, '.').Some? {
      var (first, rest) := Cut(s, '.').value;
      if odd in rest {
        OddNumbers(rest, odd);
      } else {
        assert odd in first;
      }
    }
  }

  /** A release with a character of another kind is the lowest there is: (0,). */
  lemma UnparseableIsLowest(release: string, odd: char)
    requires odd in WithoutPve(release) && !IsDigit(odd) && odd != '.' && odd != '-'
    ensures VersionTuple(release) == [0]
  {
    var bare := WithoutPve(release);
    CutOfNone(bare, '-');
    if Cut(bare, '-').None? {
      OddNumbers(bare, odd);
    } else {
      var (main, build) := Cut(bare, '-').value;
      if odd in main {
        OddNumbers(main, odd);
      } else {
        assert odd in build;
      }
    }
  }

  lemma {:induction false} RunOfDigits(digits: string, rest: string)
    requires (forall i | 0 <= i < |digits| :: IsDigit(digits[i])) && (rest == "" || !IsDigit(rest[0]))
    ensures DigitRun(digits + rest) == |digits|
  {
    if digits == "" {
      assert digits + rest == rest;
    } else {
      assert (digits + rest)[1..] == digits[1..] + rest;
      RunOfDigits(digits[1..], rest);
    }
  }

  lemma NumberThenReads(digits: string, literal: string, rest: string)
    requires AllDigits(digits) && literal != "" && !IsDigit(literal[0])
    ensures NumberThen(digits + literal + rest, literal) == Some(|digits| + |literal|)
  {
    assert digits + literal + rest == digits + (literal + rest);
    RunOfDigits(digits, literal + rest);
    assert (digits + literal + rest)[|digits|..] == literal + rest;
  }

  /** One number and its literal match, and the rest goes on behind them. */
  lemma MatchesPart(s: string, digits: string, literal: string, rest: string, literals: seq<string>, m: nat)
    requires AllDigits(digits) && literal != "" && !IsDigit(literal[0]) && s == digits + literal + rest
    requires literals != [] && literals[0] == literal && MatchParts(rest, literals[1..]) == Some(m)
    ensures MatchParts(s, literals) == Some(|digits| + |literal| + m)
  {
    NumberThenReads(digits, literal, rest);
    assert s[|digits| + |literal|..] == rest;
  }

  lemma MatchesRelease(a: nat, b: nat, c: nat, d: nat, rest: string)
    ensures MatchRelease(ReleaseName(a, b, c, d) + rest) == Some(|ReleaseName(a, b, c, d)|)
  {
    var end := Decimal(d) + PVE + rest;
    var build := Decimal(c) + "-" + end;
    var minor := Decimal(b) + "." + build;
    ReleaseThen(a, b, c, d, rest);
    MatchesDigits(ReleaseName(a, b, c, d) + rest, minor, build, end, Decimal(a), Decimal(b), Decimal(c), Decimal(d), rest);
  }

  lemma MatchesEnd(s: string, d: string, rest: string)
    requires AllDigits(d) && s == d + PVE + rest
    ensures MatchParts(s, [PVE]) == Some(|d| + 4)
  {
    assert [PVE][1..] == [];
    MatchesPart(s, d, PVE, rest, [PVE], 0);
  }

  lemma MatchesBuild(s: string, c: string, end: string, m: nat)
    requires AllDigits(c) && s == c + "-" + end && MatchParts(end, [PVE]) == Some(m)
    ensures MatchParts(s, ["-", PVE]) == Some(|c| + 1 + m)
  {
    assert ["-", PVE][1..] == [PVE];
    MatchesPart(s, c, "-", end, ["-", PVE], m);
  }

  lemma MatchesMinor(s: string, b: string, rest: string, m: nat)
    requires AllDigits(b) && s == b + "." + rest && MatchParts(rest, ["-", PVE]) == Some(m)
    ensures MatchParts(s, [".", "-", PVE]) == Some(|b| + 1 + m)
  {
    assert [".", "-", PVE][1..] == ["-", PVE];
    MatchesPart(s, b, ".", rest, [".", "-", PVE], m);
  }

  lemma MatchesMajor(s: string, a: string, rest: string, m: nat)
    requires AllDigits(a) && s == a + "." + rest && MatchParts(rest, [".", "-", PVE]) == Some(m)
    ensures MatchParts(s, RELEASE) == Some(|a| + 1 + m)
  {
    assert RELEASE[1..] == [".", "-", PVE];
    MatchesPart(s, a, ".", rest, RELEASE, m);
  }

  lemma MatchesDigits(s: string, minor: string, build: string, end: string, a: string, b: string, c: string, d: string, rest: string)
    requires AllDigits(a) && AllDigits(b) && AllDigits(c) && AllDigits(d)
    requires s == a + "." + minor && minor == b + "." + build && build == c + "-" + end && end == d + PVE + rest
    ensures MatchRelease(s) == Some(|a| + |b| + |c| + |d| + 7)
  {
    MatchesEnd(end, d, rest);
    MatchesBuild(build, c, end, |d| + 4);
    MatchesMinor(minor, b, build, |c| + |d| + 5);
    MatchesMajor(s, a, minor, |b| + |c| + |d| + 6);
  }

  lemma ReleaseThen(a: nat, b: nat, c: nat, d: nat, rest: string)
    ensures ReleaseName(a, b, c, d) + rest == Decimal(a) + "." + (Decimal(b) + "." + (Decimal(c) + "-" + (Decimal(d) + PVE + rest)))
    ensures |ReleaseName(a, b, c, d)| == |Decimal(a)| + |Decimal(b)| + |Decimal(c)| + |Decimal(d)| + 7
  {
  }

  lemma {:induction false} NoDotNoRelease(s: string)
    requires '.' !in s
    ensures LastRelease(s) == None
  {
    if s != "" {
      NoMatchWithoutDot(s, "");
      assert s + "" == s;
      NoDotNoRelease(s[1..]);
    }
  }

  /** No match starts inside text that has no dot and does not end in a digit. */
  lemma NoMatchWithoutDot(s: string, rest: string)
    requires s != "" && '.' !in s && (rest == "" || !IsDigit(s[|s| - 1]))
    ensures MatchRelease(s + rest) == None
  {
    var all := s + rest;
    var n := DigitRun(all);
    DigitRunIsDigits(all);
    assert all[|s| - 1] == s[|s| - 1];
    if n < |s| {
      assert all[n..][0] == s[n] && s[n] in s;
    }
    assert NumberThen(all, ".") == None && RELEASE[0] == ".";
  }

  /**
   GRUB's saved entry names the kernel between two parts without dots, the first not ending in a
   digit: the release in the middle is the one that is found.
   */
  lemma {:induction false} SavedEntryNamesRelease(before: string, a: nat, b: nat, c: nat, d: nat, after: string)
    requires '.' !in before && '.' !in after && (before == "" || !IsDigit(before[|before| - 1]))
    ensures LastRelease(before + ReleaseName(a, b, c, d) + after) == Some(ReleaseName(a, b, c, d))
    decreases |before|
  {
    var name := ReleaseName(a, b, c, d);
    var s := before + name + after;
    if before == "" {
      assert s == name + after;
      MatchesRelease(a, b, c, d, after);
      assert s[|name|..] == after && s[..|name|] == name;
      NoDotNoRelease(after);
    } else {
      assert s == before + (name + after);
      NoMatchWithoutDot(before, name + after);
      assert s[1..] == before[1..] + name + after;
      SavedEntryNamesRelease(before[1..], a, b, c, d, after);
    }
  }

  /** Of several releases in an entry the trailing one is found. */
  lemma {:induction false} TrailingReleaseIsFound(before: string, a: nat, b: nat, c: nat, d: nat, rest: string)
    requires '.' !in before && (before == "" || !IsDigit(before[|before| - 1])) && LastRelease(rest).Some?
    ensures LastRelease(before + ReleaseName(a, b, c, d) + rest) == LastRelease(rest)
    decreases |before|
  {
    var name := ReleaseName(a, b, c, d);
    var s := before + name + rest;
    if before == "" {
      assert s == name + rest;
      MatchesRelease(a, b, c, d, rest);
      assert s[|name|..] == rest;
    } else {
      assert s == before + (name + rest);
      NoMatchWithoutDot(before, name + rest);
      assert s[1..] == before[1..] + name + rest;
      TrailingReleaseIsFound(before[1..], a, b, c, d, rest);
    }
  }

  /** Without a pin, the release GRUB saved decides, compared number by number. */
  lemma SavedEntryDecides(f: Facts, before: string, a: nat, b: nat, c: nat, d: nat, after: string)
    requires f.running != "" && f.pin == "" && f.grubDefault == "saved"
    requires f.savedEntry == before + ReleaseName(a, b, c, d) + after
    requires '.' !in before && '.' !in after && (before == "" || !IsDigit(before[|before| - 1]))
    ensures RebootOverSsh(f) == Some(Less(VersionTuple(f.running), [a, b, c, d]))
  {
    var name := ReleaseName(a, b, c, d);
    assert |name| > 0;
    SavedEntryNamesRelease(before, a, b, c, d, after);
    ReleaseNameReadsBack(a, b, c, d);
    assert |f.savedEntry| > 0;
    assert SavedKernel(f) == Some(name);
  }

  // ------------------------------------------------------------------
  // The probe
  // ------------------------------------------------------------------

  /** `line.split(None, 1)` with the second part stripped; None unless there are two parts. */
  function KeyAndValue(line: string): Option<(string, string)> {
    var body := LTrim(line);
    var n := WordLength(body);
    var value := RTrim(LTrim(body[n..]));
    if value == "" then None else Some((body[..n], value))
  }

  function Note(f: Facts, line: string): Facts {
    match KeyAndValue(line)
    case None => f
    case Some((key, value)) =>
      if key == "RUNNING" then f.(running := value)
      else if key == "GRUBDEFAULT" then f.(grubDefault := value)
      else if key == "SAVEDENTRY" then f.(savedEntry := value)
      else if key == "PIN" then f.(pin := value)
      else if key == "KERNEL" then f.(kernels := f.kernels + [value])
      else f
  }

  const NO_FACTS: Facts := Facts("", "", "", "", [])

  function NoteAll(lines: seq<string>): Facts {
    if lines == [] then NO_FACTS else Note(NoteAll(lines[..|lines| - 1]), lines[|lines| - 1])
  }

  method ParseKernelProbe(lines: seq<string>) returns (f: Facts)
    ensures f == NoteAll(lines)
    ensures "" !in f.kernels
  {
    f := NO_FACTS;
    for i := 0 to |lines|
      invariant f == NoteAll(lines[..i]) && "" !in f.kernels
    {
      assert lines[..i + 1][..i] == lines[..i];
      f := Note(f, lines[i]);
    }
    assert lines[..|lines|] == lines;
  }

  function KernelLines(kernels: seq<string>): seq<string> {
    if kernels == [] then [] else KernelLines(kernels[..|kernels| - 1]) + ["KERNEL " + kernels[|kernels| - 1]]
  }

  /** What the probe script echoes for a node. */
  function ProbeLines(f: Facts): seq<string> {
    ["RUNNING " + f.running, "GRUBDEFAULT " + f.grubDefault, "SAVEDENTRY " + f.savedEntry, "PIN " + f.pin] + KernelLines(f.kernels)
  }

  /** Text a single line of output can carry as a value. */
  predicate Trimmed(s: string) {
    s == "" || (!IsSpace(s[0]) && !IsSpace(s[|s| - 1]))
  }

  lemma KeyAndValueReads(key: string, value: string)
    requires key != "" && (forall i | 0 <= i < |key| :: !IsSpace(key[i])) && Trimmed(value)
    ensures KeyAndValue(key + " " + value) == if value == "" then None else Some((key, value))
  {
    var line := key + " " + value;
    assert line[0] == key[0];
    WordThenSpace(key, value);
    assert line[|key|..] == " " + value && line[..|key|] == key;
    assert (" " + value)[1..] == value;
    assert LTrim(" " + value) == LTrim(value) == value;
  }

  /** A line with any other key says nothing. */
  lemma OtherKeysSayNothing(f: Facts, line: string)
    requires KeyAndValue(line).Some? && KeyAndValue(line).value.0 !in {"RUNNING", "GRUBDEFAULT", "SAVEDENTRY", "PIN", "KERNEL"}
    ensures Note(f, line) == f
  {
  }

  lemma NoteKernel(f: Facts, k: string)
    requires k != "" && Trimmed(k)
    ensures Note(f, "KERNEL " + k) == f.(kernels := f.kernels + [k])
  {
    assert "KERNEL " + k == "KERNEL" + " " + k;
    KeyAndValueReads("KERNEL", k);
  }

  lemma OneMoreKernel(lines: seq<string>, base: Facts, known: seq<string>, k: string)
    requires k != "" && Trimmed(k) && NoteAll(lines) == base.(kernels := base.kernels + known)
    ensures NoteAll(lines + ["KERNEL " + k]) == base.(kernels := base.kernels + (known + [k]))
  {
    NoteAllMore(lines, "KERNEL " + k);
    NoteKernel(NoteAll(lines), k);
    assert base.kernels + known + [k] == base.kernels + (known + [k]);
  }

  function WithKernels(f: Facts, kernels: seq<string>): Facts {
    f.(kernels := f.kernels + kernels)
  }

  /** Whatever stands in front, these lines add exactly these kernels. */
  ghost predicate Adds(lines: seq<string>, kernels: seq<string>) {
    forall head {:trigger NoteAll(head + lines)} :: NoteAll(head + lines) == WithKernels(NoteAll(head), kernels)
  }

  lemma AddsOneMore(lines: seq<string>, kernels: seq<string>, k: string)
    requires Adds(lines, kernels) && k != "" && Trimmed(k)
    ensures Adds(lines + ["KERNEL " + k], kernels + [k])
  {
    var line := "KERNEL " + k;
    forall head
      ensures NoteAll(head + (lines + [line])) == WithKernels(NoteAll(head), kernels + [k])
    {
      OneMoreKernel(head + lines, NoteAll(head), kernels, k);
      LinesGrow(head, lines, line);
    }
  }

  lemma AddsNone()
    ensures Adds([], [])
  {
    forall head
      ensures NoteAll(head + []) == WithKernels(NoteAll(head), [])
    {
      assert head + [] == head && NoteAll(head).kernels + [] == NoteAll(head).kernels;
    }
  }

  lemma {:induction false} KernelLinesReadBack(kernels: seq<string>)
    requires forall i | 0 <= i < |kernels| :: kernels[i] != "" && Trimmed(kernels[i])
    ensures Adds(KernelLines(kernels), kernels)
  {
    if kernels == [] {
      AddsNone();
    } else {
      var front, last := kernels[..|kernels| - 1], kernels[|kernels| - 1];
      KernelLinesReadBack(front);
      AddsOneMore(KernelLines(front), front, last);
      assert front + [last] == kernels;
    }
  }

  lemma LinesGrow(head: seq<string>, lines: seq<string>, line: string)
    ensures head + (lines + [line]) == head + lines + [line]
  {
  }

  lemma NoteAllMore(lines: seq<string>, line: string)
    ensures NoteAll(lines + [line]) == Note(NoteAll(lines), line)
  {
    assert (lines + [line])[..|lines|] == lines;
  }

  /** The probe's text parses back to its facts, empty answers included. */
  lemma ProbeReadsBack(f: Facts)
    requires Trimmed(f.running) && Trimmed(f.grubDefault) && Trimmed(f.savedEntry) && Trimmed(f.pin)
    requires forall i | 0 <= i < |f.kernels| :: f.kernels[i] != "" && Trimmed(f.kernels[i])
    ensures NoteAll(ProbeLines(f)) == f
  {
    var head := HeadReadsBack(f);
    KernelLinesReadBack(f.kernels);
    assert NoteAll(head + KernelLines(f.kernels)) == WithKernels(NoteAll(head), f.kernels);
    assert [] + f.kernels == f.kernels;
  }

  lemma HeadReadsBack(f: Facts) returns (head: seq<string>)
    requires Trimmed(f.running) && Trimmed(f.grubDefault) && Trimmed(f.savedEntry) && Trimmed(f.pin)
    ensures ProbeLines(f) == head + KernelLines(f.kernels) && NoteAll(head) == f.(kernels := [])
  {
    KeyAndValueReads("RUNNING", f.running);
    KeyAndValueReads("GRUBDEFAULT", f.grubDefault);
    KeyAndValueReads("SAVEDENTRY", f.savedEntry);
    KeyAndValueReads("PIN", f.pin);
    var l1, l2, l3, l4 := "RUNNING" + " " + f.running, "GRUBDEFAULT" + " " + f.grubDefault, "SAVEDENTRY" + " " + f.savedEntry, "PIN" + " " + f.pin;
    ProbeHead(f, l1, l2, l3, l4);
    FourNotes(f, l1, l2, l3, l4);
    head := [l1, l2, l3, l4];
  }

  lemma ProbeHead(f: Facts, l1: string, l2: string, l3: string, l4: string)
    requires l1 == "RUNNING" + " " + f.running && l2 == "GRUBDEFAULT" + " " + f.grubDefault
    requires l3 == "SAVEDENTRY" + " " + f.savedEntry && l4 == "PIN" + " " + f.pin
    ensures ProbeLines(f) == [l1, l2, l3, l4] + KernelLines(f.kernels)
  {
    assert l1 == "RUNNING " + f.running && l2 == "GRUBDEFAULT " + f.grubDefault;
    assert l3 == "SAVEDENTRY " + f.savedEntry && l4 == "PIN " + f.pin;
  }

  lemma FourNotes(f: Facts, l1: string, l2: string, l3: string, l4: string)
    requires KeyAndValue(l1) == if f.running == "" then None else Some(("RUNNING", f.running))
    requires KeyAndValue(l2) == if f.grubDefault == "" then None else Some(("GRUBDEFAULT", f.grubDefault))
    requires KeyAndValue(l3) == if f.savedEntry == "" then None else Some(("SAVEDENTRY", f.savedEntry))
    requires KeyAndValue(l4) == if f.pin == "" then None else Some(("PIN", f.pin))
    ensures NoteAll([l1, l2, l3, l4]) == f.(kernels := [])
  {
    assert [l1][..0] == [] && [l1, l2][..1] == [l1] && [l1, l2, l3][..2] == [l1, l2] && [l1, l2, l3, l4][..3] == [l1, l2, l3];
    assert NoteAll([l1]) == NO_FACTS.(running := f.running);
    assert NoteAll([l1, l2]) == NO_FACTS.(running := f.running, grubDefault := f.grubDefault);
    assert NoteAll([l1, l2, l3]) == NO_FACTS.(running := f.running, grubDefault := f.grubDefault, savedEntry := f.savedEntry);
  }
}
