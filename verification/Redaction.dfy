/**
 Masking of stored credential values in captured output (app/activity_log.py, `_secret_values`
 and `redact`): every secret is replaced by three stars, the longest secret first.
 */
module Redaction {
  import opened Options
  import opened Text

  const REDACTED: string := "***"
  const MIN_SECRET_LEN: nat := 8
  const SECRET_KEY_HINTS: set<string> := {"password", "token", "secret", "api_key", "user_key", "passphrase"}

  /** Nothing shorter than MIN_SECRET_LEN is ever masked, so the empty string in particular is not. */
  type Secret = s: string | s != "" witness "?"

  /** `part in text` */
  ghost predicate Occurs(part: string, text: string) {
    exists k :: OccursAt(part, text, k)
  }

  predicate OccursAt(part: string, text: string, k: int) {
    0 <= k <= |text| - |part| && text[k..k + |part|] == part
  }

  /** Every stored value long enough to mask, under a field whose name hints at a secret. */
  ghost function SecretValues(store: map<string, map<string, string>>): (values: set<string>)
    ensures forall v | v in values :: |v| >= MIN_SECRET_LEN
  {
    set e, k | e in store && k in store[e] && |store[e][k]| >= MIN_SECRET_LEN && Hinted(Lower(k)) :: store[e][k]
  }

  ghost predicate Hinted(field: string) {
    exists hint | hint in SECRET_KEY_HINTS :: Occurs(hint, field)
  }

  /** `str.replace`: scan from the left, never re-reading what was put in. */
  function Replace(line: string, secret: Secret): string
    decreases |line|
  {
    if |line| < |secret| then line
    else if secret <= line then REDACTED + Replace(line[|secret|..], secret)
    else [line[0]] + Replace(line[1..], secret)
  }

  /** One line through all the secrets, in order. */
  function RedactLine(line: string, secrets: seq<Secret>): string
  {
    if secrets == [] then line
    else Replace(RedactLine(line, secrets[..|secrets| - 1]), secrets[|secrets| - 1])
  }

  predicate LongestFirst(secrets: seq<Secret>) {
    && (forall i, j | 0 <= i < j < |secrets| :: |secrets[i]| >= |secrets[j]|)
    && (forall i, j | 0 <= i < j < |secrets| :: secrets[i] != secrets[j])
  }

  /** Text no mask can be part of: no star at either end, and never three in a row. */
  ghost predicate Sturdy(text: string) {
    text != "" && text[0] != '*' && NoMaskReaches(text)
  }

  /** No mask stands inside this text or runs over its end. */
  ghost predicate NoMaskReaches(text: string) {
    (text != "" ==> text[|text| - 1] != '*') && forall k :: !OccursAt(REDACTED, text, k)
  }

  /** In particular any secret without a star. */
  lemma StarFreeIsSturdy(text: string)
    requires text != "" && '*' !in text
    ensures Sturdy(text)
  {
    forall k
      ensures !OccursAt(REDACTED, text, k)
    {
      assert 0 <= k <= |text| - 3 ==> text[k..k + 3][0] == text[k];
    }
  }

  /** `secrets` is None when the credential store could not be read: output is then kept as it is. */
  method Redact(lines: seq<string>, secrets: Option<seq<Secret>>) returns (out: seq<string>)
    ensures |out| == |lines|
    ensures secrets.None? ==> out == lines
    ensures secrets.Some? ==> forall i | 0 <= i < |lines| :: out[i] == RedactLine(lines[i], secrets.value)
    ensures secrets.Some? ==> forall i, s | 0 <= i < |lines| && s in secrets.value && Sturdy(s) :: !Occurs(s, out[i])
  {
    if secrets.None? || secrets.value == [] {
      return lines;
    }
    out := [];
    for i := 0 to |lines|
      invariant |out| == i
      invariant forall k | 0 <= k < i :: out[k] == RedactLine(lines[k], secrets.value)
    {
      var line := lines[i];
      for j := 0 to |secrets.value|
        invariant line == RedactLine(lines[i], secrets.value[..j])
      {
        assert secrets.value[..j + 1][..j] == secrets.value[..j];
        line := Replace(line, secrets.value[j]);
      }
      assert secrets.value[..|secrets.value|] == secrets.value;
      out := out + [line];
    }
    forall i, s | 0 <= i < |lines| && s in secrets.value && Sturdy(s)
      ensures !Occurs(s, out[i])
    {
      OccursInItself(s);
      NoSecretSurvives(lines[i], secrets.value, s, s);
    }
  }

  // ------------------------------------------------------------------
  // No secret survives
  // ------------------------------------------------------------------

  /** A beginning of the masked line that no mask reaches was already the beginning of the line. */
  lemma {:induction false} PrefixIsOld(line: string, secret: Secret, part: string)
    requires NoMaskReaches(part) && part <= Replace(line, secret)
    ensures part <= line
    decreases |line|
  {
    if |line| < |secret| || part == "" {
    } else if secret <= line {
      NoMaskInFront(part, Replace(line[|secret|..], secret));
    } else {
      TailNotReached(part);
      PrefixIsOld(line[1..], secret, part[1..]);
      assert part == [line[0]] + part[1..] && line == [line[0]] + line[1..];
    }
  }

  lemma TailNotReached(part: string)
    requires NoMaskReaches(part) && part != ""
    ensures NoMaskReaches(part[1..])
  {
    forall k
      ensures !OccursAt(REDACTED, part[1..], k)
    {
      if OccursAt(REDACTED, part[1..], k) {
        assert part[1..][k..k + 3] == part[k + 1..k + 4];
        assert OccursAt(REDACTED, part, k + 1);
      }
    }
  }

  lemma NoMaskInFront(part: string, rest: string)
    requires NoMaskReaches(part) && part != ""
    ensures !(part <= REDACTED + rest)
  {
    var out := REDACTED + rest;
    assert out[0] == out[1] == out[2] == '*';
    assert |part| >= 3 ==> part[0..3] == [part[0], part[1], part[2]];
    assert !OccursAt(REDACTED, part, 0);
  }

  lemma OccursInTail(part: string, line: string, n: nat)
    requires n <= |line| && Occurs(part, line[n..])
    ensures Occurs(part, line)
  {
    var k :| OccursAt(part, line[n..], k);
    assert line[n..][k..k + |part|] == line[n + k..n + k + |part|];
    assert OccursAt(part, line, n + k);
  }

  lemma OccursPast(part: string, head: string, tail: string, k: int)
    requires OccursAt(part, head + tail, k) && k >= |head|
    ensures OccursAt(part, tail, k - |head|)
  {
    assert (head + tail)[k..k + |part|] == tail[k - |head|..k - |head| + |part|];
  }

  /** Masking one secret creates no sturdy text, and leaves no sturdy copy of that secret. */
  lemma {:induction false} ReplaceCreatesNothing(line: string, secret: Secret, part: string, k: int)
    requires Sturdy(part) && OccursAt(part, Replace(line, secret), k)
    ensures part != secret && Occurs(part, line)
    decreases |line|
  {
    var out := Replace(line, secret);
    assert out[k] == part[0];
    if |line| < |secret| {
      assert OccursAt(part, line, k);
    } else if secret <= line {
      OccursPast(part, REDACTED, Replace(line[|secret|..], secret), k);
      ReplaceCreatesNothing(line[|secret|..], secret, part, k - 3);
      OccursInTail(part, line, |secret|);
    } else if k == 0 {
      assert part <= out;
      PrefixIsOld(line, secret, part);
      assert OccursAt(part, line, 0);
    } else {
      OccursPast(part, [line[0]], Replace(line[1..], secret), k);
      ReplaceCreatesNothing(line[1..], secret, part, k - 1);
      OccursInTail(part, line, 1);
    }
  }

  /** A later replacement never recreates an earlier secret. */
  lemma {:induction false} RedactCreatesNothing(line: string, secrets: seq<Secret>, part: string)
    requires Sturdy(part) && Occurs(part, RedactLine(line, secrets))
    ensures Occurs(part, line) && part !in secrets
  {
    if secrets != [] {
      var front, last := secrets[..|secrets| - 1], secrets[|secrets| - 1];
      var k :| OccursAt(part, RedactLine(line, secrets), k);
      ReplaceCreatesNothing(RedactLine(line, front), last, part, k);
      RedactCreatesNothing(line, front, part);
    }
  }

  /** Whatever the line, the order and the other secrets, a sturdy secret is gone, and all that contains it. */
  lemma NoSecretSurvives(line: string, secrets: seq<Secret>, s: string, whole: string)
    requires s in secrets && Sturdy(s) && Occurs(s, whole)
    ensures !Occurs(whole, RedactLine(line, secrets))
  {
    var out := RedactLine(line, secrets);
    if Occurs(whole, out) {
      OccursWithin(s, whole, out);
      RedactCreatesNothing(line, secrets, s);
    }
  }

  lemma OccursWithin(s: string, whole: string, text: string)
    requires Occurs(s, whole) && Occurs(whole, text)
    ensures Occurs(s, text)
  {
    var j :| OccursAt(s, whole, j);
    var k :| OccursAt(whole, text, k);
    SliceOfSlice(text, k, k + |whole|, j, j + |s|);
    assert OccursAt(s, text, k + j);
  }

  lemma SliceOfSlice(text: string, a: nat, b: nat, c: nat, d: nat)
    requires a <= b <= |text| && c <= d <= b - a
    ensures text[a..b][c..d] == text[a + c..a + d]
  {
    forall i | 0 <= i < d - c
      ensures text[a..b][c..d][i] == text[a + c..a + d][i]
    {
      assert text[a..b][c..d][i] == text[a..b][c + i];
    }
  }

  lemma OccursInItself(s: string)
    ensures Occurs(s, s)
  {
    assert s[0..|s|] == s;
    assert OccursAt(s, s, 0);
  }

  lemma RedactOne(line: string, secret: Secret)
    ensures RedactLine(line, [secret]) == Replace(line, secret)
  {
    assert [secret][..0] == [];
  }

  lemma RedactTwo(line: string, first: Secret, second: Secret)
    ensures RedactLine(line, [first, second]) == Replace(Replace(line, first), second)
  {
    assert [first, second][..1] == [first];
    RedactOne(line, first);
  }

  lemma ReplaceHead(secret: Secret, rest: string)
    requires |rest| < |secret|
    ensures Replace(secret + rest, secret) == REDACTED + rest
  {
    assert (secret + rest)[|secret|..] == rest;
  }

  /** Which values those are. */
  lemma SecretValuesExactly(store: map<string, map<string, string>>, value: string)
    ensures value in SecretValues(store) <==>
            exists entry, field | entry in store && field in store[entry] :: IsCredential(store[entry][field], field) && store[entry][field] == value
  {
    if entry, field :| entry in store && field in store[entry] && IsCredential(store[entry][field], field) && store[entry][field] == value {
      var hint :| hint in {"password", "token", "secret", "api_key", "user_key", "passphrase"} && Occurs(hint, Lower(field));
      assert Hinted(Lower(field));
    }
  }

  /** A value of at least eight characters under a field whose name, in any case, speaks of a secret. */
  ghost predicate IsCredential(value: string, field: string) {
    |value| >= 8
    && exists hint | hint in {"password", "token", "secret", "api_key", "user_key", "passphrase"} :: Occurs(hint, Lower(field))
  }

  /** So no stored credential worth masking reaches the log, from whichever entry and field it comes. */
  lemma StoredCredentialIsMasked(store: map<string, map<string, string>>, secrets: seq<Secret>, entry: string, field: string, line: string)
    requires (set s | s in secrets) == SecretValues(store)
    requires entry in store && field in store[entry] && IsCredential(store[entry][field], field) && Sturdy(store[entry][field])
    ensures !Occurs(store[entry][field], RedactLine(line, secrets))
  {
    var s := store[entry][field];
    SecretValuesExactly(store, s);
    OccursInItself(s);
    NoSecretSurvives(line, secrets, s, s);
  }

  /** Secrets that are not sturdy are not safe: here masking the second one assembles the first. */
  lemma StarredSecretCanSurvive()
    ensures LongestFirst(["***bbbbbb", "aaaaaaaa"])
    ensures RedactLine("aaaaaaaa" + "bbbbbb", ["***bbbbbb", "aaaaaaaa"]) == "***bbbbbb"
  {
    var line := "aaaaaaaa" + "bbbbbb";
    assert forall k | 0 <= k < |line| :: line[k] != '*';
    assert forall k :: OccursAt("***bbbbbb", line, k) ==> line[k..k + 9][0] == '*';
    NotThere(line, "***bbbbbb");
    ReplaceHead("aaaaaaaa", "bbbbbb");
    RedactTwo(line, "***bbbbbb", "aaaaaaaa");
  }

  // ------------------------------------------------------------------
  // Exactly which secrets are safe
  // ------------------------------------------------------------------

  /** The first match is masked, and the scan goes on behind it. */
  lemma {:induction false} FirstMatchMasked(before: string, secret: Secret, after: string)
    requires forall k | 0 <= k < |before| :: !OccursAt(secret, before + secret + after, k)
    ensures Replace(before + secret + after, secret) == before + REDACTED + Replace(after, secret)
    decreases |before|
  {
    var line := before + secret + after;
    if before == "" {
      assert line[|secret|..] == after && secret <= line;
    } else {
      assert !OccursAt(secret, line, 0);
      assert !(secret <= line);
      var rest := before[1..] + secret + after;
      assert line[1..] == rest;
      ReplaceStep(line, secret);
      forall k | 0 <= k < |before| - 1
        ensures !OccursAt(secret, rest, k)
      {
        SliceOfSlice(line, 1, |line|, k, k + |secret|);
        assert !OccursAt(secret, line, k + 1);
      }
      FirstMatchMasked(before[1..], secret, after);
      assert before == [before[0]] + before[1..];
    }
  }

  /** A line on which one stored secret is masked and yet stands in the result. */
  lemma LeadingStarSurvives(s: Secret)
    requires s[0] == '*'
    ensures Leaks(s, s + s[1..])
  {
    ReplaceHead(s, s[1..]);
    var out := REDACTED + s[1..];
    assert out[2..2 + |s|] == ['*'] + s[1..] == s;
    assert OccursAt(s, out, 2);
  }

  lemma TrailingStarSurvives(s: Secret)
    requires s[0] != '*' && s[|s| - 1] == '*'
    ensures Leaks(s, s[..|s| - 1] + s + "")
  {
    var u := s[..|s| - 1];
    var line := u + s + "";
    forall k | 0 <= k < |u|
      ensures !OccursAt(s, line, k)
    {
      assert line[k..k + |s|][0] == line[k] == s[k];
      assert line[k..k + |s|][|u|] == line[|u| + k] == s[k];
    }
    FirstMatchMasked(u, s, "");
    assert (u + REDACTED + "")[0..|s|] == s;
    assert OccursAt(s, u + REDACTED + "", 0);
  }

  lemma ThreeParts(s: string, m: nat, n: nat)
    requires m <= n <= |s|
    ensures s[..m] + s[m..n] + s[n..] == s
  {
  }

  lemma InnerMaskSurvives(s: Secret, m: nat)
    requires OccursAt(REDACTED, s, m) && forall k | 0 <= k < m :: !OccursAt(REDACTED, s, k)
    ensures Leaks(s, s[..m] + s + s[m + 3..])
  {
    var a, b := s[..m], s[m + 3..];
    var line := a + s + b;
    forall k | 0 <= k < m
      ensures !OccursAt(s, line, k)
    {
      assert s[k..k + 3] == line[m + k..m + k + 3] == line[k..k + |s|][m..m + 3];
      assert !OccursAt(REDACTED, s, k);
    }
    FirstMatchMasked(a, s, b);
    ThreeParts(s, m, m + 3);
    OccursInItself(s);
  }

  lemma {:induction false} FirstMask(s: string, k: nat) returns (m: nat)
    requires OccursAt(REDACTED, s, k)
    ensures OccursAt(REDACTED, s, m) && forall j | 0 <= j < m :: !OccursAt(REDACTED, s, j)
  {
    if j: nat :| j < k && OccursAt(REDACTED, s, j) {
      m := FirstMask(s, j);
    } else {
      m := k;
    }
  }

  /** Masking `s` out of this line leaves it there. */
  ghost predicate Leaks(s: Secret, line: string) {
    Occurs(s, Replace(line, s))
  }

  /** A stored secret is masked out of every line exactly when it is sturdy. */
  lemma AloneSafeExactly(s: Secret)
    ensures (forall line :: !Leaks(s, line)) <==> Sturdy(s)
  {
    if Sturdy(s) {
      forall line
        ensures !Leaks(s, line)
      {
        if k :| OccursAt(s, Replace(line, s), k) {
          ReplaceCreatesNothing(line, s, s, k);
        }
      }
    } else if s[0] == '*' {
      LeadingStarSurvives(s);
    } else if s[|s| - 1] == '*' {
      TrailingStarSurvives(s);
    } else {
      var k :| OccursAt(REDACTED, s, k);
      var m := FirstMask(s, k);
      InnerMaskSurvives(s, m);
    }
  }

  // ------------------------------------------------------------------
  // Nothing else is touched, and whole secrets are masked whole
  // ------------------------------------------------------------------

  lemma {:induction false} NotThere(line: string, secret: Secret)
    requires !Occurs(secret, line)
    ensures Replace(line, secret) == line
    decreases |line|
  {
    if |line| >= |secret| {
      assert !OccursAt(secret, line, 0);
      assert !Occurs(secret, line[1..]) by {
        if Occurs(secret, line[1..]) {
          OccursInTail(secret, line, 1);
        }
      }
      NotThere(line[1..], secret);
    }
  }

  /** A line containing no secret is unchanged. */
  lemma {:induction false} CleanLineUnchanged(line: string, secrets: seq<Secret>)
    requires forall s | s in secrets :: !Occurs(s, line)
    ensures RedactLine(line, secrets) == line
  {
    if secrets != [] {
      CleanLineUnchanged(line, secrets[..|secrets| - 1]);
      NotThere(line, secrets[|secrets| - 1]);
    }
  }

  lemma NoMatchAcross(left: string, c: char, right: string, secret: Secret)
    requires c !in secret
    ensures secret <= left + [c] + right <==> secret <= left
  {
    var line := left + [c] + right;
    if |left| < |secret| {
      assert |line| >= |secret| ==> line[|left|] == c && secret[|left|] in secret;
    } else {
      assert line[..|secret|] == left[..|secret|];
    }
  }

  lemma SkipOne(left: string, c: char, right: string)
    requires left != ""
    ensures (left + [c] + right)[1..] == left[1..] + [c] + right
  {
  }

  /** A line in which the first character starts no match. */
  lemma ReplaceStep(line: string, secret: Secret)
    requires line != "" && !(secret <= line)
    ensures Replace(line, secret) == [line[0]] + Replace(line[1..], secret)
  {
    if |line| < |secret| {
      assert Replace(line, secret) == line && Replace(line[1..], secret) == line[1..];
    }
  }

  /** A character no secret contains separates the line into independent parts. */
  lemma {:induction false} ReplaceSplits(left: string, c: char, right: string, secret: Secret)
    requires c !in secret
    ensures Replace(left + [c] + right, secret) == Replace(left, secret) + [c] + Replace(right, secret)
    decreases |left|
  {
    var line := left + [c] + right;
    NoMatchAcross(left, c, right, secret);
    if secret <= left {
      var rest := left[|secret|..];
      assert line[|secret|..] == rest + [c] + right;
      ReplaceSplits(rest, c, right, secret);
      RegroupFour(REDACTED, Replace(rest, secret), [c], Replace(right, secret));
    } else {
      ReplaceStep(line, secret);
      if left == "" {
        assert line[1..] == right;
      } else {
        SkipOne(left, c, right);
        ReplaceSplits(left[1..], c, right, secret);
        ReplaceStep(left, secret);
        RegroupFour([left[0]], Replace(left[1..], secret), [c], Replace(right, secret));
      }
    }
  }

  lemma RegroupFour(a: string, b: string, c: string, d: string)
    ensures a + (b + c + d) == a + b + c + d
  {
  }

  lemma {:induction false} RedactSplits(left: string, c: char, right: string, secrets: seq<Secret>)
    requires forall s | s in secrets :: c !in s
    ensures RedactLine(left + [c] + right, secrets) == RedactLine(left, secrets) + [c] + RedactLine(right, secrets)
  {
    if secrets != [] {
      var front := secrets[..|secrets| - 1];
      RedactSplits(left, c, right, front);
      ReplaceSplits(RedactLine(left, front), c, RedactLine(right, front), secrets[|secrets| - 1]);
    }
  }

  lemma {:induction false} MaskStays(secrets: seq<Secret>)
    requires forall s | s in secrets :: Sturdy(s)
    ensures RedactLine(REDACTED, secrets) == REDACTED
  {
    forall s, k | s in secrets
      ensures !OccursAt(s, REDACTED, k)
    {
      assert 0 <= k < 3 ==> REDACTED[k] != s[0];
    }
    CleanLineUnchanged(REDACTED, secrets);
  }

  /** Longest first: a secret that contains shorter ones is replaced as one piece. */
  lemma {:induction false} SecretMaskedWhole(s: string, secrets: seq<Secret>)
    requires LongestFirst(secrets) && s in secrets && forall x | x in secrets :: Sturdy(x)
    ensures RedactLine(s, secrets) == "***"
  {
    var front, last := secrets[..|secrets| - 1], secrets[|secrets| - 1];
    if last == s {
      forall x, k | x in front
        ensures !OccursAt(x, s, k)
      {
        assert |x| >= |s| && x != s && s[0..|s|] == s;
      }
      CleanLineUnchanged(s, front);
      assert s[|s|..] == "" && Replace("", s) == "";
      assert RedactLine(s, secrets) == Replace(s, s);
    } else {
      SecretMaskedWhole(s, front);
      MaskStays([last]);
      assert [last][..0] == [];
    }
  }

  /** Between two characters no secret contains, a stored secret becomes exactly the mask. */
  lemma DelimitedSecretMasked(before: string, open: char, s: string, close: char, after: string, secrets: seq<Secret>)
    requires LongestFirst(secrets) && s in secrets
    requires forall x | x in secrets :: Sturdy(x) && open !in x && close !in x
    ensures RedactLine(before + [open] + s + [close] + after, secrets)
         == RedactLine(before, secrets) + [open] + REDACTED + [close] + RedactLine(after, secrets)
  {
    var rest := s + [close] + after;
    assert before + [open] + s + [close] + after == before + [open] + rest;
    RedactSplits(before, open, rest, secrets);
    RedactSplits(s, close, after, secrets);
    SecretMaskedWhole(s, secrets);
  }

  /** The other order would leave the tail of the longer secret in the clear. */
  lemma ShortestFirstLeavesATail()
    ensures RedactLine("abcdefghi", ["abcdefgh", "abcdefghi"]) == "***i"
    ensures RedactLine("abcdefghi", ["abcdefghi", "abcdefgh"]) == "***"
  {
    var short, long := "abcdefgh", "abcdefghi";
    assert [short, long][..1] == [short] && [short][..0] == [];
    assert long[|short|..] == "i";
    assert RedactLine(long, [short]) == Replace(long, short) == "***i";
    StarFreeIsSturdy(long);
    StarFreeIsSturdy(short);
    SecretMaskedWhole(long, [long, short]);
  }
}
