/**
 Identifiers derived from names: `slugify`, `slugify_server_id` and `_unique_server_id`
 (app/config_manager.py).
 */
module Slugs {
  import opened Options
  import opened Text

  predicate SlugChar(c: char) {
    IsLower(c) || IsDigit(c) || c == '-'
  }

  /** What slugify can produce: lower case, digits and single inner hyphens. */
  predicate IsSlug(s: string) {
    && (forall i | 0 <= i < |s| :: SlugChar(s[i]))
    && (s != "" ==> s[0] != '-' && s[|s| - 1] != '-')
    && (forall i | 0 <= i < |s| - 1 :: !(s[i] == '-' && s[i + 1] == '-'))
  }

  /** `name.lower().replace(" ", "-").replace("_", "-")` */
  function Hyphenated(name: string): (s: string)
    ensures |s| == |name|
    ensures forall i | 0 <= i < |name| :: s[i] == if name[i] == ' ' || name[i] == '_' then '-' else LowerChar(name[i])
  {
    seq(|name|, i requires 0 <= i < |name| => if name[i] == ' ' || name[i] == '_' then '-' else LowerChar(name[i]))
  }

  /** `re.sub(r"[^a-z0-9-]", "", s)` */
  function KeepSlugChars(s: string): string {
    if s == "" then "" else (if SlugChar(s[0]) then [s[0]] else "") + KeepSlugChars(s[1..])
  }

  /** `re.sub(r"-+", "-", s)` */
  function Collapse(s: string): string {
    if s == "" then ""
    else if s[0] == '-' && Collapse(s[1..]) != "" && Collapse(s[1..])[0] == '-' then Collapse(s[1..])
    else [s[0]] + Collapse(s[1..])
  }

  /** `s.lstrip("-")` */
  function LStripHyphens(s: string): string {
    if s != "" && s[0] == '-' then LStripHyphens(s[1..]) else s
  }

  function Slugify(name: string): string {
    RStrip(LStripHyphens(Collapse(KeepSlugChars(Hyphenated(name)))), '-')
  }

  /** `host` is the URL's host name, or the whole URL when it has none. */
  function SlugifyServerId(host: string): string {
    var s := Slugify(Separated(host));
    if s == "" then "proxmox" else s
  }

  /** Dots and colons are the separators of a host; they become hyphens first. */
  function Separated(host: string): string {
    seq(|host|, i requires 0 <= i < |host| => if host[i] == '.' || host[i] == ':' then '-' else host[i])
  }

  ghost predicate NoDoubleHyphen(s: string) {
    forall i | 0 <= i < |s| - 1 :: !(s[i] == '-' && s[i + 1] == '-')
  }

  ghost predicate AllSlugChars(s: string) {
    forall i | 0 <= i < |s| :: SlugChar(s[i])
  }

  lemma {:induction false} KeepsOnlySlugChars(s: string)
    ensures AllSlugChars(KeepSlugChars(s))
    ensures AllSlugChars(s) ==> KeepSlugChars(s) == s
  {
    if s != "" {
      KeepsOnlySlugChars(s[1..]);
      assert s == [s[0]] + s[1..];
    }
  }

  lemma TailHasNoDouble(s: string)
    requires s != ""
    ensures NoDoubleHyphen(s) ==> NoDoubleHyphen(s[1..])
  {
    var tail := s[1..];
    forall i | 0 <= i < |tail| - 1 && NoDoubleHyphen(s)
      ensures !(tail[i] == '-' && tail[i + 1] == '-')
    {
      var j := i + 1;
      assert !(s[j] == '-' && s[j + 1] == '-');
    }
  }

  lemma {:induction false} CollapseIsSingle(s: string)
    requires AllSlugChars(s)
    ensures AllSlugChars(Collapse(s)) && NoDoubleHyphen(Collapse(s))
    ensures NoDoubleHyphen(s) ==> Collapse(s) == s
  {
    if s != "" {
      CollapseIsSingle(s[1..]);
      TailHasNoDouble(s);
      assert s == [s[0]] + s[1..];
    }
  }

  lemma {:induction false} LStripKeepsShape(s: string)
    requires AllSlugChars(s) && NoDoubleHyphen(s)
    ensures var r := LStripHyphens(s);
            AllSlugChars(r) && NoDoubleHyphen(r) && (r != "" ==> r[0] != '-') && (s == "" || s[0] != '-' ==> r == s)
  {
    if s != "" && s[0] == '-' {
      TailHasNoDouble(s);
      LStripKeepsShape(s[1..]);
    }
  }

  lemma {:induction false} RStripKeepsShape(s: string)
    requires AllSlugChars(s) && NoDoubleHyphen(s) && (s != "" ==> s[0] != '-')
    ensures IsSlug(RStrip(s, '-')) && (s == "" || s[|s| - 1] != '-' ==> RStrip(s, '-') == s)
  {
    if s != "" && s[|s| - 1] == '-' {
      RStripKeepsShape(s[..|s| - 1]);
    }
  }

  /** Every slug has the promised shape, so it can hold no `/` and no `_`. */
  lemma SlugifyIsSlug(name: string)
    ensures IsSlug(Slugify(name))
  {
    var kept := KeepSlugChars(Hyphenated(name));
    KeepsOnlySlugChars(Hyphenated(name));
    CollapseIsSingle(kept);
    LStripKeepsShape(Collapse(kept));
    RStripKeepsShape(LStripHyphens(Collapse(kept)));
  }

  /** A slug is its own slug: deriving identifiers twice changes nothing. */
  lemma SlugifyFixesSlugs(s: string)
    requires IsSlug(s)
    ensures Slugify(s) == s
  {
    assert Hyphenated(s) == s;
    KeepsOnlySlugChars(s);
    CollapseIsSingle(s);
    LStripKeepsShape(s);
    RStripKeepsShape(s);
  }

  lemma HyphenJoinsSlugs(a: string, b: string)
    requires IsSlug(a) && IsSlug(b) && a != "" && b != ""
    ensures IsSlug(a + "-" + b)
  {
    var s := a + "-" + b;
    forall i | 0 <= i < |s| - 1
      ensures !(s[i] == '-' && s[i + 1] == '-')
    {
      if i < |a| - 1 {
        assert s[i] == a[i] && s[i + 1] == a[i + 1];
      } else if i > |a| {
        var j := i - |a| - 1;
        assert s[i] == b[j] && s[i + 1] == b[j + 1];
      }
    }
  }

  /** Words are kept apart: a space or an underscore between two slugs, and in a server's host a dot or a colon, becomes a hyphen. */
  lemma SeparatorsBecomeHyphens(a: string, b: string, c: char)
    requires IsSlug(a) && IsSlug(b) && a != "" && b != ""
    ensures c == ' ' || c == '_' || c == '-' ==> Slugify(a + [c] + b) == a + "-" + b
    ensures c == '.' || c == ':' || c == '-' ==> SlugifyServerId(a + [c] + b) == a + "-" + b
  {
    HyphenJoinsSlugs(a, b);
    SlugifyFixesSlugs(a + "-" + b);
    assert Hyphenated(a + "-" + b) == a + "-" + b;
    if c == ' ' || c == '_' {
      assert Hyphenated(a + [c] + b) == a + "-" + b;
    } else if c == '.' || c == ':' || c == '-' {
      assert Separated(a + [c] + b) == a + "-" + b;
    }
  }

  lemma SlugifyIdempotent(name: string)
    ensures Slugify(Slugify(name)) == Slugify(name)
  {
    SlugifyIsSlug(name);
    SlugifyFixesSlugs(Slugify(name));
  }

  lemma ServerIdIsSlug(host: string)
    ensures IsSlug(SlugifyServerId(host)) && SlugifyServerId(host) != ""
  {
    SlugifyIsSlug(Separated(host));
  }

  // ------------------------------------------------------------------
  // Unique ids
  // ------------------------------------------------------------------

  const RESERVED: set<string> := {"new"}

  function Suffixed(base: string, n: nat): string {
    base + "-" + Decimal(n)
  }

  lemma SuffixedInjective(base: string, m: nat, n: nat)
    requires Suffixed(base, m) == Suffixed(base, n)
    ensures m == n
  {
    var k := |base| + 1;
    assert Suffixed(base, m)[k..] == Decimal(m) && Suffixed(base, n)[k..] == Decimal(n);
    DecimalInjective(m, n);
  }

  /** `id` is `base` when it is free and not reserved, else `base-n` for the first free n from 2 on. */
  ghost predicate IsUniqueId(base: string, taken: set<string>, id: string) {
    if base !in taken && base !in RESERVED then id == base
    else exists n :: n >= 2 && id == Suffixed(base, n) && id !in taken && forall m | 2 <= m < n :: Suffixed(base, m) in taken
  }

  /** A free id is taken as it is; the first suffix tried is 2. */
  lemma FirstChoices(base: string, taken: set<string>, id: string)
    requires IsUniqueId(base, taken, id)
    ensures base !in taken && base != "new" ==> id == base
    ensures (base in taken || base == "new") && base + "-2" !in taken ==> id == base + "-2"
  {
    assert Decimal(2) == "2";
    assert Suffixed(base, 2) == base + "-2";
  }

  lemma SuffixedNotReserved(base: string, n: nat)
    ensures Suffixed(base, n) !in RESERVED
  {
    var s := Suffixed(base, n);
    assert IsDigit(s[|s| - 1]) by {
      assert s[|s| - 1] == Decimal(n)[|Decimal(n)| - 1];
    }
  }

  /** The search ends because every taken suffix it passes is another member of a finite set. */
  method UniqueServerId(base: string, taken: set<string>) returns (id: string)
    ensures IsUniqueId(base, taken, id)
    ensures id !in taken && id != "new"
  {
    if base !in taken && base !in RESERVED {
      return base;
    }
    var suffix := 2;
    ghost var ahead := taken;
    while Suffixed(base, suffix) in taken
      invariant suffix >= 2 && ahead <= taken
      invariant forall m | 2 <= m < suffix :: Suffixed(base, m) in taken
      invariant forall m | m >= suffix && Suffixed(base, m) in taken :: Suffixed(base, m) in ahead
      decreases ahead
    {
      forall m | m > suffix
        ensures Suffixed(base, m) != Suffixed(base, suffix)
      {
        if Suffixed(base, m) == Suffixed(base, suffix) {
          SuffixedInjective(base, m, suffix);
        }
      }
      ahead := ahead - {Suffixed(base, suffix)};
      suffix := suffix + 1;
    }
    SuffixedNotReserved(base, suffix);
    return Suffixed(base, suffix);
  }
}
