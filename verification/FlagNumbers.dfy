/**
 The numbers `docker run` flags carry: nanosecond durations and fractional CPUs
 (app/backends/ssh_docker_backend.py, `_ns_to_duration` and the `--cpus` branch). Both are printed
 through a double, so what Docker reads is the original integer only where the double can tell.
 */
module FlagNumbers {
  import opened Options
  import opened Text
  import opened Doubles

  const BILLION: nat := 1_000_000_000
  const MILLION: nat := 1_000_000

  /** Docker keeps durations and CPU counts as 64-bit signed integers. */
  type Count = n: int | 0 <= n < TWO_63

  // ------------------------------------------------------------------
  // Durations
  // ------------------------------------------------------------------

  function NsToDuration(ns: nat): string {
    var seconds, millis := Quotient(ns, BILLION), Quotient(ns, MILLION);
    if Floor(seconds) >= 1 && IsWhole(seconds) then Decimal(Floor(seconds)) + "s"
    else if IsWhole(millis) then Decimal(Floor(millis)) + "ms"
    else Decimal(ns) + "ns"
  }

  /** Docker's reading of one number and one unit, in nanoseconds. */
  function ReadDuration(s: string): Option<nat> {
    if |s| > 2 && s[|s| - 2..] == "ms" then Scaled(ParseNat(s[..|s| - 2]), MILLION)
    else if |s| > 2 && s[|s| - 2..] == "ns" then Scaled(ParseNat(s[..|s| - 2]), 1)
    else if |s| > 1 && s[|s| - 1..] == "s" then Scaled(ParseNat(s[..|s| - 1]), BILLION)
    else None
  }

  function Scaled(n: Option<nat>, unit: nat): Option<nat> {
    match n
    case None => None
    case Some(v) => Some(v * unit)
  }

  lemma SecondsRead(n: nat)
    ensures ReadDuration(Decimal(n) + "s") == Some(n * BILLION)
  {
    var digits := Decimal(n);
    var s := digits + "s";
    ParseOfDecimal(n);
    assert s[..|s| - 1] == digits && s[|s| - 1..] == "s";
    assert IsDigit(digits[|digits| - 1]) && s[|s| - 2..][0] == digits[|digits| - 1];
  }

  lemma FractionsRead(n: nat)
    ensures ReadDuration(Decimal(n) + "ms") == Some(n * MILLION)
    ensures ReadDuration(Decimal(n) + "ns") == Some(n)
  {
    var ms, ns := Decimal(n) + "ms", Decimal(n) + "ns";
    ParseOfDecimal(n);
    assert ms[..|ms| - 2] == Decimal(n) && ms[|ms| - 2..] == "ms";
    assert ns[..|ns| - 2] == Decimal(n) && ns[|ns| - 2..] == "ns";
  }

  /** What the printed text denotes: the nearest second, else the nearest millisecond, wherever a double cannot tell. */
  function Denoted(ns: nat): nat {
    if ns == 0 then 0
    else if NearWhole(ns, BILLION) then Nearest(ns, BILLION) * BILLION
    else if NearWhole(ns, MILLION) then Nearest(ns, MILLION) * MILLION
    else ns
  }

  lemma DurationDenotes(ns: Count)
    ensures ReadDuration(NsToDuration(ns)) == Some(Denoted(ns))
  {
    SecondsRead(Floor(Quotient(ns, BILLION)));
    FractionsRead(Floor(Quotient(ns, MILLION)));
    FractionsRead(ns);
    if ns > 0 {
      WholeExactly(ns, BILLION);
      WholeExactly(ns, MILLION);
      if ns < BILLION {
        SmallIsTold(ns, BILLION);
      }
    }
  }

  /** A caller can tell from the count alone: a whole second, or one no double confuses with a coarser unit. */
  predicate DurationExact(ns: nat) {
    || ns % BILLION == 0
    || (!NearWhole(ns, BILLION) && (ns % MILLION == 0 || !NearWhole(ns, MILLION)))
  }

  lemma NearestIsExact(n: nat, d: nat)
    requires n > 0 && d > 0
    ensures n % d == 0 ==> NearWhole(n, d)
    ensures Nearest(n, d) * d == n <==> n % d == 0
  {
    NearestGap(n, d);
    if n % d == 0 {
      assert Off(n, d) * Pow2(Shift(n, d)) == 0;
    }
  }

  /** Docker gets the original nanoseconds exactly then. */
  lemma DurationExactly(ns: Count)
    ensures ReadDuration(NsToDuration(ns)) == Some(ns) <==> DurationExact(ns)
  {
    DurationDenotes(ns);
    if ns > 0 {
      NearestIsExact(ns, BILLION);
      NearestIsExact(ns, MILLION);
      if ns % BILLION == 0 {
        assert Denoted(ns) == ns;
      }
    }
  }

  /** In particular for every duration below 2^53 nanoseconds, about 104 days. */
  lemma DurationExactBelow(ns: nat)
    requires ns < TWO_53
    ensures DurationExact(ns)
  {
    if ns % BILLION != 0 {
      SmallIsTold(ns, BILLION);
      SmallIsTold(ns, MILLION);
    }
  }

  /** One nanosecond over a hundred million seconds is lost. */
  lemma DurationLosesANanosecond()
    ensures var ns := 100_000_000 * BILLION + 1; ReadDuration(NsToDuration(ns)) == Some(ns - 1) && !DurationExact(ns)
  {
    var ns := 100_000_000 * BILLION + 1;
    ShiftFills(ns, BILLION);
    assert Off(ns, BILLION) == 1 && Nearest(ns, BILLION) == 100_000_000;
    assert NearWhole(ns, BILLION);
    DurationDenotes(ns);
  }

  // ------------------------------------------------------------------
  // CPUs
  // ------------------------------------------------------------------

  function Padded(n: nat, width: nat): (s: string)
    ensures |s| == width && forall i | 0 <= i < |s| :: IsDigit(s[i])
  {
    if width == 0 then "" else Padded(n / 10, width - 1) + [DigitChar(n % 10)]
  }

  /** `f"{r / 1e9:.9f}".rstrip("0").rstrip(".")` for a count `r` of billionths. */
  function CpusText(r: nat): string {
    RStrip(RStrip(Decimal(r / BILLION) + "." + Padded(r % BILLION, 9), '0'), '.')
  }

  /** The value of digits after the point, in units of 10^-width. */
  function FractionValue(f: string, width: nat): nat
    requires |f| <= width && forall i | 0 <= i < |f| :: IsDigit(f[i])
  {
    DigitsValue(f) * Pow10(width - |f|)
  }

  /** Docker's reading of `--cpus`: a decimal with at most nine places, in billionths. */
  function ReadCpus(s: string): Option<nat> {
    match Cut(s, '.')
    case None => Scaled(ParseNat(s), BILLION)
    case Some((whole, frac)) =>
      if AllDigits(whole) && AllDigits(frac) && |frac| <= 9
      then Some(DigitsValue(whole) * BILLION + FractionValue(frac, 9)) else None
  }

  lemma {:induction false} PaddedValue(n: nat, width: nat)
    requires n < Pow10(width)
    ensures DigitsValue(Padded(n, width)) == n
  {
    if width > 0 {
      PaddedValue(n / 10, width - 1);
      var s := Padded(n, width);
      assert s[..|s| - 1] == Padded(n / 10, width - 1);
    }
  }

  lemma {:induction false} StripZerosKeepsValue(f: string, width: nat)
    requires |f| <= width && forall i | 0 <= i < |f| :: IsDigit(f[i])
    ensures var g := RStrip(f, '0');
            && g <= f && (g != "" ==> g[|g| - 1] != '0')
            && FractionValue(g, width) == FractionValue(f, width)
  {
    if f != "" && f[|f| - 1] == '0' {
      var front := f[..|f| - 1];
      StripZerosKeepsValue(front, width);
      assert Pow10(width - |front|) == 10 * Pow10(width - |f|);
      assert DigitsValue(f) == 10 * DigitsValue(front);
      MulShuffle(DigitsValue(front), Pow10(width - |f|));
    }
  }

  lemma MulShuffle(a: nat, b: nat)
    ensures (10 * a) * b == a * (10 * b)
  {
  }

  lemma {:induction false} StripStopsAtPoint(head: string, f: string)
    requires head != "" && head[|head| - 1] != '0'
    ensures RStrip(head + f, '0') == head + RStrip(f, '0')
  {
    if f == "" {
      assert head + f == head;
    } else if f[|f| - 1] == '0' {
      assert (head + f)[..|head + f| - 1] == head + f[..|f| - 1];
      StripStopsAtPoint(head, f[..|f| - 1]);
    }
  }

  lemma DigitsHaveNoPoint(s: string)
    requires forall i | 0 <= i < |s| :: IsDigit(s[i])
    ensures '.' !in s
  {
  }

  lemma ReadsWhole(whole: string)
    requires AllDigits(whole)
    ensures RStrip(whole + ".", '.') == whole && ReadCpus(whole) == Some(DigitsValue(whole) * BILLION)
  {
    assert (whole + ".")[..|whole + "."| - 1] == whole && IsDigit(whole[|whole| - 1]);
    DigitsHaveNoPoint(whole);
    CutOfNone(whole, '.');
  }

  lemma ReadsFraction(whole: string, kept: string)
    requires AllDigits(whole) && AllDigits(kept) && |kept| <= 9
    ensures var s := whole + "." + kept;
            RStrip(s, '.') == s && ReadCpus(s) == Some(DigitsValue(whole) * BILLION + FractionValue(kept, 9))
  {
    var s := whole + "." + kept;
    assert IsDigit(kept[|kept| - 1]) && s[|s| - 1] == kept[|kept| - 1];
    DigitsHaveNoPoint(whole);
    CutOfJoin(whole, '.', kept);
  }

  /** What is left of a decimal without its closing zeros and without a closing point. */
  function Short(whole: string, kept: string): string {
    if kept == "" then whole else whole + "." + kept
  }

  lemma StrippedText(whole: string, frac: string)
    requires AllDigits(whole) && |frac| <= 9 && forall i | 0 <= i < |frac| :: IsDigit(frac[i])
    ensures RStrip(RStrip(whole + "." + frac, '0'), '.') == Short(whole, RStrip(frac, '0'))
  {
    StripStopsAtPoint(whole + ".", frac);
    StripZerosKeepsValue(frac, 9);
    StripPoint(whole, RStrip(frac, '0'));
  }

  lemma StripPoint(whole: string, kept: string)
    requires AllDigits(whole) && |kept| <= 9 && forall i | 0 <= i < |kept| :: IsDigit(kept[i])
    ensures RStrip(whole + "." + kept, '.') == Short(whole, kept)
  {
    if kept == "" {
      ReadsWhole(whole);
      assert whole + "." + kept == whole + ".";
    } else {
      ReadsFraction(whole, kept);
    }
  }

  lemma ShortReads(whole: string, kept: string)
    requires AllDigits(whole) && |kept| <= 9 && forall i | 0 <= i < |kept| :: IsDigit(kept[i])
    ensures ReadCpus(Short(whole, kept)) == Some(DigitsValue(whole) * BILLION + FractionValue(kept, 9))
  {
    if kept == "" {
      ReadsWhole(whole);
    } else {
      ReadsFraction(whole, kept);
    }
  }

  lemma KeptDigits(frac: string, kept: string)
    requires kept <= frac && forall i | 0 <= i < |frac| :: IsDigit(frac[i])
    ensures |kept| <= |frac| && forall i | 0 <= i < |kept| :: IsDigit(kept[i])
  {
  }

  /** What is kept of the fraction, with the same value. */
  lemma KeptFraction(frac: string) returns (kept: string)
    requires |frac| <= 9 && forall i | 0 <= i < |frac| :: IsDigit(frac[i])
    ensures kept == RStrip(frac, '0') && |kept| <= 9 && forall i | 0 <= i < |kept| :: IsDigit(kept[i])
    ensures FractionValue(kept, 9) == FractionValue(frac, 9)
  {
    kept := RStrip(frac, '0');
    StripZerosKeepsValue(frac, 9);
    KeptDigits(frac, kept);
  }

  lemma StrippedReads(text: string, whole: string, frac: string)
    requires AllDigits(whole) && |frac| <= 9 && forall i | 0 <= i < |frac| :: IsDigit(frac[i])
    requires text == Short(whole, RStrip(frac, '0'))
    ensures ReadCpus(text) == Some(DigitsValue(whole) * BILLION + FractionValue(frac, 9))
  {
    var kept := KeptFraction(frac);
    ShortReads(whole, kept);
  }

  lemma NinePlaces(n: nat)
    requires n < BILLION
    ensures FractionValue(Padded(n, 9), 9) == n
  {
    assert Pow10(9) == BILLION;
    PaddedValue(n, 9);
  }

  /** The decimal denotes exactly the billionths it was printed from. */
  lemma CpusReadBack(r: nat)
    ensures ReadCpus(CpusText(r)) == Some(r)
  {
    var whole, frac := Decimal(r / BILLION), Padded(r % BILLION, 9);
    ParseOfDecimal(r / BILLION);
    NinePlaces(r % BILLION);
    StrippedText(whole, frac);
    StrippedReads(CpusText(r), whole, frac);
    assert r == (r / BILLION) * BILLION + r % BILLION;
  }

  /** The double quotient, rounded once more to nine places, in billionths. */
  function Billionths(nano: nat): nat {
    var q := Quotient(nano, BILLION);
    Nearest(q.mantissa * BILLION, Pow2(q.shift))
  }

  /** What the `--cpus` branch prints. */
  function CpusFlag(nano: nat): string {
    CpusText(Billionths(nano))
  }

  /**
   A caller can tell from the count alone: its double is less than half a billionth off, or half a
   billionth and the count is even.
   */
  predicate CpusExact(nano: nat)
    requires nano > 0
  {
    var p := Pow2(Shift(nano, BILLION));
    var off := Off(nano * p, BILLION);
    2 * off < p || (2 * off == p && nano % 2 == 0)
  }

  /** Docker gets the original nano-CPUs exactly then. */
  lemma CpusExactly(nano: Count)
    requires nano > 0
    ensures ReadCpus(CpusFlag(nano)) == Some(nano) <==> CpusExact(nano)
  {
    var p := Pow2(Shift(nano, BILLION));
    CpusReadBack(Billionths(nano));
    RoundedTwice(nano, p);
  }

  /** Rounding `nano / 10^9` to a multiple of `1 / p` and that to a billionth. */
  lemma RoundedTwice(nano: nat, p: nat)
    requires p > 0
    ensures var off := Off(nano * p, BILLION);
            Nearest(Nearest(nano * p, BILLION) * BILLION, p) == nano <==> 2 * off < p || (2 * off == p && nano % 2 == 0)
  {
    var m := Nearest(nano * p, BILLION);
    NearestGap(nano * p, BILLION);
    NearestExactly(m * BILLION, p, nano);
    assert Gap(m * BILLION, nano * p) == Gap(nano * p, m * BILLION);
  }

  /** 2^23 CPUs */
  const EXACT_CPUS: nat := 0x80_0000 * BILLION

  /** In particular for every count below 2^23 CPUs. */
  lemma CpusExactBelow(nano: nat)
    requires 0 < nano < EXACT_CPUS
    ensures CpusExact(nano)
  {
    var s := Shift(nano, BILLION);
    ShiftFills(nano, BILLION);
    if s <= 29 {
      Pow2Grows(s, 29);
      PowersHere();
      ScaleKeepsOrder(Pow2(s), 0x2000_0000, nano);
    }
    Pow2Grows(30, s);
    PowersHere();
    NearestGap(nano * Pow2(s), BILLION);
  }

  lemma PowersHere()
    ensures Pow2(28) == 0x1000_0000 && Pow2(29) == 0x2000_0000 && Pow2(30) == 0x4000_0000
  {
    assert Pow2(10) == 1024;
    assert Pow2(20) == 0x10_0000;
  }

  lemma ShiftAbove(nano: nat)
    requires EXACT_CPUS <= nano < 2 * EXACT_CPUS
    ensures Pow2(Shift(nano, BILLION)) == 0x2000_0000
  {
    var s := Shift(nano, BILLION);
    ShiftFills(nano, BILLION);
    PowersHere();
    if s <= 28 {
      Pow2Grows(s, 28);
      ScaleKeepsOrder(Pow2(s), 0x1000_0000, nano);
    } else if s >= 30 {
      Pow2Grows(30, s);
      ScaleKeepsOrder(0x4000_0000, Pow2(s), nano);
    }
  }

  /** The bound is sharp: one nano-CPU above it the decimal denotes another count. */
  lemma CpusInexactAbove()
    ensures !CpusExact(EXACT_CPUS + 1)
  {
    ShiftAbove(EXACT_CPUS + 1);
    Remainder((EXACT_CPUS + 1) * 0x2000_0000, BILLION, 0x10_0000_0000_0000, 0x2000_0000);
  }

  lemma EvenTieSurvives()
    ensures CpusExact(8_388_608_000_976_562)
  {
    ShiftAbove(8_388_608_000_976_562);
    Remainder(8_388_608_000_976_562 * 0x2000_0000, BILLION, 4_503_599_627_894_783, BILLION - 0x1000_0000);
  }

  lemma OddTieIsLost()
    ensures !CpusExact(8_388_608_000_976_563)
  {
    ShiftAbove(8_388_608_000_976_563);
    Remainder(8_388_608_000_976_563 * 0x2000_0000, BILLION, 4_503_599_627_894_784, 0x1000_0000);
  }

  /** Halves do occur, and then the parity of the count decides: of these neighbours one survives. */
  lemma CpusTieGoesToEven()
    ensures CpusExact(8_388_608_000_976_562) && !CpusExact(8_388_608_000_976_563)
  {
    EvenTieSurvives();
    OddTieIsLost();
  }
}
