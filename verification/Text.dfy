/** Character classes, decimal numbers and ASCII case, as the other modules need them. */
module Text {
  import opened Options

  predicate IsDigit(c: char) {
    '0' <= c <= '9'
  }

  predicate IsLower(c: char) {
    'a' <= c <= 'z'
  }

  predicate IsUpper(c: char) {
    'A' <= c <= 'Z'
  }

  predicate AllDigits(s: string) {
    s != "" && forall i | 0 <= i < |s| :: IsDigit(s[i])
  }

  function DigitChar(d: nat): (c: char)
    requires d < 10
    ensures IsDigit(c) && (c as int) - ('0' as int) == d
  {
    '0' + d as char
  }

  /** `str(n)` */
  function Decimal(n: nat): (s: string)
    ensures AllDigits(s)
  {
    if n < 10 then [DigitChar(n)] else Decimal(n / 10) + [DigitChar(n % 10)]
  }

  function DigitValue(c: char): nat
    requires IsDigit(c)
  {
    (c as int) - ('0' as int)
  }

  function DigitsValue(s: string): nat
    requires forall i | 0 <= i < |s| :: IsDigit(s[i])
  {
    if s == "" then 0 else 10 * DigitsValue(s[..|s| - 1]) + DigitValue(s[|s| - 1])
  }

  /** `int(s)` on plain decimal digits; None where Python raises ValueError. */
  function ParseNat(s: string): Option<nat> {
    if AllDigits(s) then Some(DigitsValue(s)) else None
  }

  lemma {:induction false} ParseOfDecimal(n: nat)
    ensures ParseNat(Decimal(n)) == Some(n)
  {
    if n < 10 {
      assert Decimal(n) == [DigitChar(n)] && [DigitChar(n)][..0] == "";
      assert DigitsValue(Decimal(n)) == 10 * DigitsValue("") + DigitValue(DigitChar(n));
    } else {
      ParseOfDecimal(n / 10);
      assert Decimal(n)[..|Decimal(n)| - 1] == Decimal(n / 10);
    }
  }

  lemma DecimalInjective(m: nat, n: nat)
    requires Decimal(m) == Decimal(n)
    ensures m == n
  {
    ParseOfDecimal(m);
    ParseOfDecimal(n);
  }

  /** `str.lower()` on ASCII letters; every other character stays. */
  function LowerChar(c: char): char {
    if IsUpper(c) then 'a' + (c - 'A') else c
  }

  function Lower(s: string): (r: string)
    ensures |r| == |s| && forall i | 0 <= i < |s| :: r[i] == LowerChar(s[i])
  {
    seq(|s|, i requires 0 <= i < |s| => LowerChar(s[i]))
  }

  /** `s.partition(c)`: the text before and after the first `c`, or None when there is none. */
  function Cut(s: string, c: char): Option<(string, string)> {
    if s == "" then None
    else if s[0] == c then Some(("", s[1..]))
    else match Cut(s[1..], c)
         case None => None
         case Some((before, after)) => Some(([s[0]] + before, after))
  }

  lemma {:induction false} CutOfJoin(before: string, c: char, after: string)
    requires c !in before
    ensures Cut(before + [c] + after, c) == Some((before, after))
  {
    var s := before + [c] + after;
    if before == "" {
      assert s[1..] == after;
    } else {
      assert s[1..] == before[1..] + [c] + after;
      CutOfJoin(before[1..], c, after);
      assert before == [before[0]] + before[1..];
    }
  }

  lemma {:induction false} CutOfNone(s: string, c: char)
    ensures Cut(s, c).None? <==> c !in s
    ensures Cut(s, c).Some? ==> var (before, after) := Cut(s, c).value; c !in before && s == before + [c] + after
  {
    if s != "" {
      CutOfNone(s[1..], c);
      assert s == [s[0]] + s[1..];
    }
  }

  /** The text before and after the last `c`. */
  function CutLast(s: string, c: char): Option<(string, string)> {
    if s == "" then None
    else
      var front, last := s[..|s| - 1], s[|s| - 1];
      if last == c then Some((front, ""))
      else match CutLast(front, c)
           case None => None
           case Some((before, after)) => Some((before, after + [last]))
  }

  lemma {:induction false} CutLastOfJoin(before: string, c: char, after: string)
    requires c !in after
    ensures CutLast(before + [c] + after, c) == Some((before, after))
  {
    var s := before + [c] + after;
    if after == "" {
      assert s[..|s| - 1] == before;
    } else {
      var front, last := after[..|after| - 1], after[|after| - 1];
      assert s[..|s| - 1] == before + [c] + front;
      CutLastOfJoin(before, c, front);
      assert front + [last] == after;
    }
  }

  lemma {:induction false} CutLastIsLast(s: string, c: char)
    ensures CutLast(s, c).None? ==> c !in s
    ensures CutLast(s, c).Some? ==> c !in CutLast(s, c).value.1
  {
    if s != "" {
      CutLastIsLast(s[..|s| - 1], c);
      assert s == s[..|s| - 1] + [s[|s| - 1]];
    }
  }

  lemma {:induction false} CutLastOfNone(s: string, c: char)
    requires c !in s
    ensures CutLast(s, c) == None
  {
    if s != "" {
      CutLastOfNone(s[..|s| - 1], c);
    }
  }

  /** `s.rstrip(c)` */
  function RStrip(s: string, c: char): string {
    if s != "" && s[|s| - 1] == c then RStrip(s[..|s| - 1], c) else s
  }

  function Pow10(n: nat): nat {
    if n == 0 then 1 else 10 * Pow10(n - 1)
  }

  // ------------------------------------------------------------------
  // Words
  // ------------------------------------------------------------------

  predicate IsSpace(c: char) {
    c == ' ' || c == '\t' || c == '\r' || c == '\n'
  }

  function LTrim(s: string): (r: string)
    ensures r == "" || !IsSpace(r[0])
  {
    if s != "" && IsSpace(s[0]) then LTrim(s[1..]) else s
  }

  function RTrim(s: string): string {
    if s != "" && IsSpace(s[|s| - 1]) then RTrim(s[..|s| - 1]) else s
  }

  function WordLength(s: string): (n: nat)
    ensures n <= |s|
  {
    if s == "" || IsSpace(s[0]) then 0 else 1 + WordLength(s[1..])
  }

  predicate NoSpaces(s: string) {
    forall i | 0 <= i < |s| :: !IsSpace(s[i])
  }

  lemma {:induction false} WordThenSpace(key: string, value: string)
    requires NoSpaces(key)
    ensures WordLength(key + " " + value) == |key|
  {
    if key != "" {
      assert (key + " " + value)[1..] == key[1..] + " " + value;
      WordThenSpace(key[1..], value);
    }
  }

  lemma {:induction false} WholeWord(word: string)
    requires NoSpaces(word)
    ensures WordLength(word) == |word|
  {
    if word != "" {
      WholeWord(word[1..]);
    }
  }

  lemma {:induction false} LTrimShortens(s: string)
    ensures |LTrim(s)| <= |s| && (LTrim(s) != "" ==> WordLength(LTrim(s)) > 0)
  {
    if s != "" && IsSpace(s[0]) {
      LTrimShortens(s[1..]);
    }
  }

  /** `s.split()` */
  function Words(s: string): seq<string>
    decreases |s|
  {
    LTrimShortens(s);
    var body := LTrim(s);
    if body == "" then [] else [body[..WordLength(body)]] + Words(body[WordLength(body)..])
  }

  lemma WordsOfOne(word: string)
    requires word != "" && NoSpaces(word)
    ensures Words(word) == [word]
  {
    WholeWord(word);
    assert word[..|word|] == word && word[|word|..] == "";
    assert Words("") == [];
  }

  lemma WordsOfMore(word: string, rest: string)
    requires word != "" && NoSpaces(word)
    ensures Words(word + " " + rest) == [word] + Words(rest)
  {
    var s := word + " " + rest;
    WordThenSpace(word, rest);
    assert LTrim(s) == s && s[..|word|] == word && s[|word|..] == " " + rest;
    WordsSkipSpace(rest);
  }

  lemma WordsSkipSpace(rest: string)
    ensures Words(" " + rest) == Words(rest)
  {
    assert (" " + rest)[1..] == rest;
    assert LTrim(" " + rest) == LTrim(rest);
  }

  // ------------------------------------------------------------------
  // Substrings
  // ------------------------------------------------------------------

  /** `text.split(sub)[-1]` when `sub` occurs, None when it does not. */
  function AfterLast(text: string, sub: string): Option<string>
    requires sub != ""
    decreases |text|
  {
    if |text| < |sub| then None
    else if sub <= text then
      var rest := text[|sub|..];
      if AfterLast(rest, sub).Some? then AfterLast(rest, sub) else Some(rest)
    else AfterLast(text[1..], sub)
  }

  /** `text.partition(sub)`, None when `sub` does not occur. */
  function Partition(text: string, sub: string): Option<(string, string)>
    requires sub != ""
    decreases |text|
  {
    if |text| < |sub| then None
    else if sub <= text then Some(("", text[|sub|..]))
    else match Partition(text[1..], sub)
         case None => None
         case Some((before, after)) => Some(([text[0]] + before, after))
  }

  predicate FirstCharOnce(sub: string) {
    sub != "" && forall i | 1 <= i < |sub| :: sub[i] != sub[0]
  }

  /** A pattern whose first character does not recur cannot overlap itself. */
  lemma {:induction false} AfterLastFinds(before: string, sub: string, rest: string)
    requires FirstCharOnce(sub) && AfterLast(rest, sub) == None
    ensures AfterLast(before + sub + rest, sub) == Some(rest)
    decreases |before|
  {
    var text := before + sub + rest;
    if before == "" {
      assert text == sub + rest && text[|sub|..] == rest;
    } else if sub <= text {
      assert |before| >= |sub| by {
        assert text[|before|] == sub[0];
      }
      assert text[|sub|..] == before[|sub|..] + sub + rest;
      AfterLastFinds(before[|sub|..], sub, rest);
    } else {
      assert text[1..] == before[1..] + sub + rest;
      AfterLastFinds(before[1..], sub, rest);
    }
  }

  /** Text that never shows one of the pattern's characters does not contain the pattern. */
  lemma {:induction false} AfterLastMisses(text: string, sub: string, c: char)
    requires c in sub && c !in text
    ensures AfterLast(text, sub) == None
  {
    if |text| >= |sub| {
      assert !(sub <= text) by {
        var i :| 0 <= i < |sub| && sub[i] == c;
        assert text[i] in text;
      }
      AfterLastMisses(text[1..], sub, c);
    }
  }

  /** Behind text that ends a line, a pattern without line ends is found where it was put. */
  lemma {:induction false} PartitionAtLine(before: string, sub: string, rest: string)
    requires sub != "" && '\n' !in sub && Partition(before, sub) == None && (before == "" || before[|before| - 1] == '\n')
    ensures Partition(before + sub + rest, sub) == Some((before, rest))
    decreases |before|
  {
    var text := before + sub + rest;
    if before == "" {
      assert text == sub + rest && text[|sub|..] == rest;
    } else {
      assert !(sub <= text) by {
        if |before| >= |sub| {
          assert text[..|sub|] == before[..|sub|];
        } else {
          assert text[|before| - 1] == '\n' && sub[|before| - 1] in sub;
        }
      }
      assert text[1..] == before[1..] + sub + rest;
      assert Partition(before[1..], sub) == None by {
        if |before| < |sub| {
        } else {
          assert !(sub <= before);
        }
      }
      PartitionAtLine(before[1..], sub, rest);
      assert before == [before[0]] + before[1..];
    }
  }
}
