/**
 The references the dashboard uses for containers reached over SSH, and how `update_stack` routes
 them back (app/backends/ssh_docker_backend.py, `_make_compose_ref`, `_make_standalone_ref`,
 `_parse_ref`, `update_stack`). Names are their UTF-8 bytes; a reference is ASCII text, percent-encoded
 as in sections 2.1 and 2.3 of RFC 3986.
 */
module ContainerRefs {
  import opened Options
  import opened Text
  import opened Slugs

  type Byte = n: int | 0 <= n < 256

  const COLON: Byte := 58
  const TILDE: Byte := 126

  /** ALPHA / DIGIT / "-" / "." / "_" / "~" */
  predicate Unreserved(b: Byte) {
    48 <= b <= 57 || 65 <= b <= 90 || 97 <= b <= 122 || b == 45 || b == 46 || b == 95 || b == 126
  }

  /** Letters, digits and `-._~` stand for themselves; every other byte is a percent sign and two hex digits. */
  lemma QuoteByteExactly(b: Byte)
    ensures var c := b as char;
            if IsDigit(c) || IsLower(c) || IsUpper(c) || c in "-._~" then QuoteByte(b) == [c]
            else |QuoteByte(b)| == 3 && QuoteByte(b)[0] == '%' && 16 * HexValue(QuoteByte(b)[1]) + HexValue(QuoteByte(b)[2]) == b
  {
  }

  function HexDigit(n: int): (c: char)
    requires 0 <= n < 16
    ensures IsHex(c) && HexValue(c) == n
  {
    if n < 10 then '0' + n as char else 'A' + (n - 10) as char
  }

  predicate IsHex(c: char) {
    IsDigit(c) || 'A' <= c <= 'F' || 'a' <= c <= 'f'
  }

  function HexValue(c: char): (n: int)
    requires IsHex(c)
    ensures 0 <= n < 16
  {
    if IsDigit(c) then (c as int) - ('0' as int)
    else if 'A' <= c <= 'F' then (c as int) - ('A' as int) + 10
    else (c as int) - ('a' as int) + 10
  }

  function QuoteByte(b: Byte): string {
    if Unreserved(b) then [b as char] else ['%', HexDigit(b / 16), HexDigit(b % 16)]
  }

  /** `quote(name, safe="")` */
  function Quote(name: seq<Byte>): string {
    if name == [] then "" else QuoteByte(name[0]) + Quote(name[1..])
  }

  predicate IsAscii(s: string) {
    forall i | 0 <= i < |s| :: s[i] as int < 128
  }

  /** `unquote(text)`: a percent sign without two hex digits stands for itself. */
  function Unquote(text: string): seq<Byte>
    requires IsAscii(text)
  {
    if text == "" then []
    else if |text| >= 3 && text[0] == '%' && IsHex(text[1]) && IsHex(text[2])
    then [16 * HexValue(text[1]) + HexValue(text[2])] + Unquote(text[3..])
    else [text[0] as int] + Unquote(text[1..])
  }

  // ------------------------------------------------------------------
  // References
  // ------------------------------------------------------------------

  /** What one dashboard row stands for. */
  datatype Target =
    | ComposeContainer(slug: string, project: seq<Byte>, container: seq<Byte>)
    | StandaloneContainer(slug: string, container: seq<Byte>)

  function MakeRef(t: Target): string {
    match t
    case ComposeContainer(slug, project, container) => slug + "/" + (Quote(project) + ":" + Quote(container))
    case StandaloneContainer(slug, container) => slug + "/" + ("~" + Quote(container))
  }

  /** What update_stack does with a reference. */
  datatype Route = Malformed | UpdateStandalone(slug: string, container: seq<Byte>) | UpdateProject(slug: string, project: seq<Byte>)

  function Before(name: seq<Byte>, b: Byte): seq<Byte> {
    if name == [] || name[0] == b then [] else [name[0]] + Before(name[1..], b)
  }

  function RouteRest(slug: string, rest: seq<Byte>): Route {
    if rest != [] && rest[0] == TILDE then UpdateStandalone(slug, rest[1..])
    else UpdateProject(slug, Before(rest, COLON))
  }

  function RouteRef(ref: string): Route {
    match Cut(ref, '/')
    case None => Malformed
    case Some((slug, encoded)) => if IsAscii(encoded) then RouteRest(slug, Unquote(encoded)) else Malformed
  }

  // ------------------------------------------------------------------
  // Round trip
  // ------------------------------------------------------------------

  lemma QuotedByteReadsBack(b: Byte, rest: string)
    requires IsAscii(rest)
    ensures IsAscii(QuoteByte(b) + rest) && Unquote(QuoteByte(b) + rest) == [b] + Unquote(rest)
  {
    var text := QuoteByte(b) + rest;
    if Unreserved(b) {
      assert text[0] == b as char && text[1..] == rest;
    } else {
      assert text[3..] == rest && 16 * (b / 16) + b % 16 == b;
    }
  }

  lemma {:induction false} QuoteIsAscii(name: seq<Byte>)
    ensures IsAscii(Quote(name))
  {
    if name != [] {
      QuoteIsAscii(name[1..]);
    }
  }

  lemma {:induction false} QuoteReadsBack(name: seq<Byte>, rest: string)
    requires IsAscii(rest)
    ensures IsAscii(Quote(name) + rest) && Unquote(Quote(name) + rest) == name + Unquote(rest)
  {
    QuoteIsAscii(name);
    if name == [] {
      assert Quote(name) + rest == rest && name + Unquote(rest) == Unquote(rest);
    } else {
      QuoteReadsBack(name[1..], rest);
      QuotedConsReadsBack(name[0], name[1..], rest);
      assert [name[0]] + name[1..] == name;
    }
  }

  lemma QuotedConsReadsBack(b: Byte, name: seq<Byte>, rest: string)
    requires IsAscii(rest) && IsAscii(Quote(name) + rest) && Unquote(Quote(name) + rest) == name + Unquote(rest)
    ensures IsAscii(Quote([b] + name) + rest) && Unquote(Quote([b] + name) + rest) == [b] + name + Unquote(rest)
  {
    QuotedByteReadsBack(b, Quote(name) + rest);
    QuoteOfCons(b, name);
    Reassociate(QuoteByte(b), Quote(name), rest);
    Reassociate([b], name, Unquote(rest));
  }

  lemma QuoteOfCons(b: Byte, name: seq<Byte>)
    ensures Quote([b] + name) == QuoteByte(b) + Quote(name)
  {
    assert ([b] + name)[1..] == name;
  }

  lemma Reassociate<T>(a: seq<T>, b: seq<T>, c: seq<T>)
    ensures a + b + c == a + (b + c)
  {
  }

  lemma QuoteInjective(a: seq<Byte>, b: seq<Byte>)
    requires Quote(a) == Quote(b)
    ensures a == b
  {
    QuoteReadsBack(a, "");
    QuoteReadsBack(b, "");
    assert Quote(a) + "" == Quote(a) && Quote(b) + "" == Quote(b);
    assert Unquote("") == [] && a + [] == a && b + [] == b;
  }

  /** A quoted name contains neither separator. */
  lemma {:induction false} QuoteHasNoSeparators(name: seq<Byte>)
    ensures '/' !in Quote(name) && ':' !in Quote(name)
  {
    if name != [] {
      QuoteHasNoSeparators(name[1..]);
      assert '/' !in QuoteByte(name[0]) && ':' !in QuoteByte(name[0]);
    }
  }

  lemma SlugHasNoSlash(slug: string)
    requires IsSlug(slug)
    ensures '/' !in slug
  {
  }

  lemma {:induction false} BeforeColon(project: seq<Byte>, rest: seq<Byte>)
    ensures Before(project + [COLON] + rest, COLON) == project <==> COLON !in project
  {
    var all := project + [COLON] + rest;
    if project == [] {
    } else if project[0] == COLON {
      assert all[0] == COLON;
    } else {
      assert all[1..] == project[1..] + [COLON] + rest;
      BeforeColon(project[1..], rest);
      assert project == [project[0]] + project[1..];
    }
  }

  lemma ColonThenName(container: seq<Byte>)
    ensures var tail := ":" + Quote(container); IsAscii(tail) && Unquote(tail) == [COLON] + container
  {
    var tail := ":" + Quote(container);
    QuoteReadsBack(container, "");
    assert Quote(container) + "" == Quote(container) && container + [] == container;
    assert tail[1..] == Quote(container);
  }

  lemma ComposeRest(project: seq<Byte>, container: seq<Byte>)
    ensures var rest := Quote(project) + ":" + Quote(container);
            IsAscii(rest) && Unquote(rest) == project + [COLON] + container
  {
    ColonThenName(container);
    QuoteReadsBack(project, ":" + Quote(container));
    Reassociate(Quote(project), ":", Quote(container));
    Reassociate(project, [COLON], container);
  }

  lemma StandaloneRest(container: seq<Byte>)
    ensures var rest := "~" + Quote(container);
            IsAscii(rest) && Unquote(rest) == [TILDE] + container
  {
    var rest := "~" + Quote(container);
    QuoteReadsBack(container, "");
    assert Quote(container) + "" == Quote(container) && container + [] == container;
    assert rest[1..] == Quote(container) && IsAscii(rest);
  }

  /** A standalone reference routes to the same container, whatever its name. */
  lemma StandaloneRoutesBack(slug: string, container: seq<Byte>)
    requires IsSlug(slug)
    ensures RouteRef(MakeRef(StandaloneContainer(slug, container))) == UpdateStandalone(slug, container)
  {
    SlugHasNoSlash(slug);
    CutOfJoin(slug, '/', "~" + Quote(container));
    StandaloneRest(container);
    assert ([TILDE] + container)[1..] == container;
  }

  /** A compose reference routes to its project exactly when the project has no colon and no leading tilde. */
  lemma ComposeRoutesBack(slug: string, project: seq<Byte>, container: seq<Byte>)
    requires IsSlug(slug)
    ensures RouteRef(MakeRef(ComposeContainer(slug, project, container))) == UpdateProject(slug, project)
       <==> COLON !in project && (project == [] || project[0] != TILDE)
  {
    SlugHasNoSlash(slug);
    var rest := Quote(project) + ":" + Quote(container);
    CutOfJoin(slug, '/', rest);
    ComposeRest(project, container);
    BeforeColon(project, container);
    var name := project + [COLON] + container;
    assert project != [] ==> name[0] == project[0];
    assert project == [] ==> name[0] == COLON;
  }

  /** Distinct targets get distinct references, for all names without exception. */
  lemma RefsAreDistinct(a: Target, b: Target)
    requires IsSlug(a.slug) && IsSlug(b.slug) && MakeRef(a) == MakeRef(b)
    ensures a == b
  {
    SlugHasNoSlash(a.slug);
    SlugHasNoSlash(b.slug);
    CutOfJoin(a.slug, '/', Rest(a));
    CutOfJoin(b.slug, '/', Rest(b));
    assert a.slug == b.slug && Rest(a) == Rest(b);
    RestTellsTarget(a);
    RestTellsTarget(b);
    if a.ComposeContainer? {
      QuoteInjective(a.project, b.project);
      QuoteInjective(a.container, b.container);
    } else {
      assert Rest(a)[1..] == Quote(a.container) && Rest(b)[1..] == Quote(b.container);
      QuoteInjective(a.container, b.container);
    }
  }

  function Rest(t: Target): string {
    match t
    case ComposeContainer(_, project, container) => Quote(project) + ":" + Quote(container)
    case StandaloneContainer(_, container) => "~" + Quote(container)
  }

  lemma RestTellsTarget(t: Target)
    ensures t.ComposeContainer? ==> Cut(Rest(t), ':') == Some((Quote(t.project), Quote(t.container)))
    ensures t.StandaloneContainer? ==> Cut(Rest(t), ':') == None
  {
    QuoteHasNoSeparators(t.container);
    if t.ComposeContainer? {
      QuoteHasNoSeparators(t.project);
      CutOfJoin(Quote(t.project), ':', Quote(t.container));
    } else {
      CutOfNone(Rest(t), ':');
    }
  }

  // ------------------------------------------------------------------
  // Finding the host
  // ------------------------------------------------------------------

  /** `next(h for h in hosts if h["slug"] == slug)`: the first host with the slug. */
  method FindHost(names: seq<string>, slug: string) returns (k: Option<nat>)
    ensures k.Some? ==> k.value < |names| && Slugify(names[k.value]) == slug && forall j | 0 <= j < k.value :: Slugify(names[j]) != slug
    ensures k.None? ==> forall j | 0 <= j < |names| :: Slugify(names[j]) != slug
  {
    for j := 0 to |names|
      invariant forall m | 0 <= m < j :: Slugify(names[m]) != slug
    {
      if Slugify(names[j]) == slug {
        return Some(j);
      }
    }
    return None;
  }

  /** A reference made for host `n` finds that host again exactly when no earlier host has its slug. */
  method UpdateStack(names: seq<string>, ref: string) returns (host: Option<nat>, route: Route)
    ensures route == RouteRef(ref)
    ensures !route.Malformed? ==>
              forall n | 0 <= n < |names| && Slugify(names[n]) == route.slug ::
                host == Some(n) <==> forall j | 0 <= j < n :: Slugify(names[j]) != route.slug
    ensures route.Malformed? ==> host == None
  {
    route := RouteRef(ref);
    host := None;
    if !route.Malformed? {
      host := FindHost(names, route.slug);
    }
  }
}
