/** Clock divider selection (get_clk_divs and calc_freq in src/sdmmc.rs). */
module ClockDiv {
  import opened Common
  import opened Division

  const CLK_SRC_HZ: nat := 160_000_000
  const HIGHSPEED: nat := 40000
  const DEFAULT: nat := 20000
  const PROBING: nat := 400

  /** Conversion to u8 keeps the low eight bits. */
  /** A frequency a clock can be asked for. */
  type Khz = f: nat | f >= 1 witness 1

  function AsU8(x: nat): U8 { x % 0x100 }

  /** The divider pair before it is narrowed to bytes; the host and the card divider. */
  function WideDivs(freq: nat): (nat, nat)
    requires freq >= 1
  {
    if freq >= HIGHSPEED then (4, 0)
    else if freq == DEFAULT then (8, 0)
    else if freq == PROBING then (10, 20)
    else General(freq)
  }

  function General(freq: nat): (nat, nat)
    requires freq >= 1
  {
    var host := CLK_SRC_HZ / (freq * 1000);
    if host > 15 then
      var card := (CLK_SRC_HZ / 2) / (2 * freq * 1000);
      (2, if (CLK_SRC_HZ / 2) % (2 * freq * 1000) > 0 then card + 1 else card)
    else (if CLK_SRC_HZ % (freq * 1000) > 0 then host + 1 else host, 0)
  }

  function GetClkDivs(freq: nat): (U8, U8)
    requires freq >= 1
  {
    (AsU8(WideDivs(freq).0), AsU8(WideDivs(freq).1))
  }

  /** The divisor a card divider stands for. */
  function CardRatio(card: nat): (r: nat)
    ensures r > 0
  {
    if card == 0 then 1 else card * 2
  }

  /** The factor by which a divider pair divides the source clock. */
  function Ratio(host: nat, card: nat): nat { host * CardRatio(card) }

  function CalcFreq(host: nat, card: nat): nat
    requires host > 0
  {
    Div(Div(Div(CLK_SRC_HZ, host), CardRatio(card)), 1000)
  }

  // ---- what the dividers achieve ----

  const SRC_KHZ: nat := 160000

  lemma RatioPositive(host: nat, card: nat)
    requires host > 0
    ensures Ratio(host, card) > 0
  {
    MulMonotone(1, host, CardRatio(card));
  }

  /** The nested divisions of calc_freq are one division of the source in kHz by the total ratio. */
  lemma CalcFreqIsQuotient(host: nat, card: nat)
    requires host > 0
    ensures Ratio(host, card) > 0 && CalcFreq(host, card) == SRC_KHZ / Ratio(host, card)
  {
    RatioPositive(host, card);
    var r := Ratio(host, card);
    DivDiv(CLK_SRC_HZ, host, CardRatio(card));
    DivDiv(CLK_SRC_HZ, r, 1000);
    CommonFactor(SRC_KHZ, r, 1000);
  }

  /** The total ratio the driver aims for: least for a host divider alone, least multiple of 4 up to 10 MHz. */
  function Target(freq: nat): nat
    requires freq >= 1
  {
    if freq >= HIGHSPEED then 4
    else if freq > 10000 then CeilDiv(SRC_KHZ, freq)
    else 4 * CeilDiv(40000, freq)
  }

  /** The general formula, simplified. */
  lemma GeneralShape(freq: nat)
    requires 1 <= freq < HIGHSPEED
    ensures freq <= 10000 ==> General(freq) == (2, CeilDiv(40000, freq))
    ensures freq > 10000 ==> General(freq) == (CeilDiv(SRC_KHZ, freq), 0)
  {
    CommonFactor(SRC_KHZ, freq, 1000);
    CommonFactor(40000, freq, 2000);
    DivGreatest(SRC_KHZ, freq, 16);
    assert freq * 2000 == 2 * freq * 1000;
  }

  /** The special cases for 20 MHz and 400 kHz divide the clock exactly as the general formula does. */
  lemma SpecialCases()
    ensures General(DEFAULT) == WideDivs(DEFAULT)
    ensures General(PROBING) != WideDivs(PROBING)
    ensures Ratio(General(PROBING).0, General(PROBING).1) == Ratio(WideDivs(PROBING).0, WideDivs(PROBING).1) == 400
  {}

  /** The dividers of the frequencies the driver knows by name, and of the slowest that fits. */
  lemma KnownDividers()
    ensures GetClkDivs(40000) == (4, 0) && GetClkDivs(20000) == (8, 0)
    ensures GetClkDivs(400) == (10, 20) && GetClkDivs(157) == (2, 255)
  {}

  /** For every frequency the unnarrowed dividers have the target ratio. */
  lemma WideRatio(freq: nat)
    requires freq >= 1
    ensures var d := WideDivs(freq); Ratio(d.0, d.1) == Target(freq)
  {
    if freq < HIGHSPEED {
      GeneralShape(freq);
      CeilDivLeast(40000, freq, 0);
      SpecialCases();
    }
  }

  /** The host divider is one that ll_set_clk_div accepts, and is never narrowed. */
  lemma HostDivRange(freq: nat)
    requires freq >= 1
    ensures 2 <= GetClkDivs(freq).0 <= 16 && GetClkDivs(freq).0 == WideDivs(freq).0
  {
    if freq < HIGHSPEED {
      GeneralShape(freq);
      if freq > 10000 {
        CeilDivLeast(SRC_KHZ, freq, 16);
        CeilDivLeast(SRC_KHZ, freq, 4);
      }
    }
  }

  /** The card divider survives the narrowing to a byte exactly from 157 kHz on; no product leaves 32 bits. */
  lemma NarrowingExact(freq: nat)
    requires freq >= 1
    ensures GetClkDivs(freq) == WideDivs(freq) <==> freq >= 157
    ensures freq < HIGHSPEED ==> 2 * freq * 1000 <= U32_MAX
  {
    HostDivRange(freq);
    if freq < HIGHSPEED {
      GeneralShape(freq);
      CeilDivLeast(40000, freq, 255);
    }
  }

  function Achieved(freq: nat): nat
    requires freq >= 1
  {
    HostDivRange(freq);
    CalcFreq(GetClkDivs(freq).0, GetClkDivs(freq).1)
  }

  lemma TargetReaches(freq: nat)
    requires freq >= 1
    ensures Target(freq) > 0 && Target(freq) * freq >= SRC_KHZ
  {
    if freq >= HIGHSPEED {
    } else if freq > 10000 {
      CeilDivLeast(SRC_KHZ, freq, CeilDiv(SRC_KHZ, freq));
      CeilDivLeast(SRC_KHZ, freq, 0);
    } else {
      CeilDivLeast(40000, freq, CeilDiv(40000, freq));
      CeilDivLeast(40000, freq, 0);
      Assoc(4, CeilDiv(40000, freq), freq);
    }
  }

  lemma AchievedIsQuotient(freq: nat)
    requires freq >= 157
    ensures Target(freq) > 0 && Achieved(freq) == SRC_KHZ / Target(freq)
  {
    NarrowingExact(freq);
    WideRatio(freq);
    HostDivRange(freq);
    CalcFreqIsQuotient(GetClkDivs(freq).0, GetClkDivs(freq).1);
  }

  /** Below 157 kHz the narrowed card divider makes the clock too fast. */
  lemma TooFast(freq: nat)
    requires 1 <= freq < 157
    ensures Achieved(freq) > freq
  {
    GeneralShape(freq);
    HostDivRange(freq);
    var card := GetClkDivs(freq).1;
    CalcFreqIsQuotient(2, card);
    var r := Ratio(2, card);
    if freq == 156 {
      assert CeilDiv(40000, 156) == 257;
    } else {
      assert r <= 1020;
      MulMonotone(freq + 1, 156, r);
      assert (freq + 1) * r <= SRC_KHZ;
    }
    DivGreatest(SRC_KHZ, r, freq + 1);
  }

  /** The clock never exceeds the requested frequency exactly for requests of at least 157 kHz. */
  lemma ClockBound(freq: nat)
    requires freq >= 1
    ensures Achieved(freq) <= freq <==> freq >= 157
  {
    if freq >= 157 {
      AchievedIsQuotient(freq);
      TargetReaches(freq);
      Distribute(freq, Target(freq));
      DivGreatest(SRC_KHZ, Target(freq), freq + 1);
    } else {
      TooFast(freq);
    }
  }

  /** d * c stays below n when c - 1 periods do not reach n and d is at most four fifths of f. */
  lemma FourFifths(d: nat, f: nat, c: nat, n: nat)
    requires 5 * d <= 4 * f && c >= 5 && (c - 1) * f < n
    ensures d * c < n
  {
    MulMonotone(5 * d, 4 * f, 4 * c);
    MulMonotone(4 * c, 5 * (c - 1), 4 * f);
    assert 20 * (d * c) == (5 * d) * (4 * c);
    assert 20 * ((c - 1) * f) == (4 * f) * (5 * (c - 1));
  }

  lemma HostWaste(freq: nat, d: nat)
    requires 10000 < freq < HIGHSPEED && 5 * d <= 4 * freq
    ensures d * CeilDiv(SRC_KHZ, freq) < SRC_KHZ
  {
    var c := CeilDiv(SRC_KHZ, freq);
    CeilDivLeast(SRC_KHZ, freq, 4);
    CeilDivLeast(SRC_KHZ, freq, c - 1);
    FourFifths(d, freq, c, SRC_KHZ);
  }

  lemma CardWaste(freq: nat, d: nat)
    requires 157 <= freq < 10000 && 5 * d <= 4 * freq
    ensures d * (4 * CeilDiv(40000, freq)) < SRC_KHZ
  {
    var c := CeilDiv(40000, freq);
    CeilDivLeast(40000, freq, 4);
    CeilDivLeast(40000, freq, c - 1);
    FourFifths(d, freq, c, 40000);
    assert d * (4 * c) == 4 * (d * c);
  }

  /** Up to 40 MHz the clock reaches at least four fifths of the requested frequency. */
  lemma ClockLowerBound(freq: nat)
    requires 157 <= freq <= 40000
    ensures Achieved(freq) >= 4 * freq / 5
  {
    AchievedIsQuotient(freq);
    var d := 4 * freq / 5;
    if freq == 40000 || freq == 10000 {
      assert d * Target(freq) <= SRC_KHZ;
    } else if freq > 10000 {
      HostWaste(freq, d);
    } else {
      CardWaste(freq, d);
    }
    DivGreatest(SRC_KHZ, Target(freq), d);
  }

  lemma TargetAntitone(f: nat, g: nat)
    requires 1 <= f <= g
    ensures Target(g) <= Target(f)
  {
    if f < HIGHSPEED {
      var cf, lf := CeilDiv(40000, f), CeilDiv(SRC_KHZ, f);
      CeilDivLeast(SRC_KHZ, f, 4);
      CeilDivLeast(40000, f, 3);
      CeilDivLeast(SRC_KHZ, g, 16);
      CeilDivLeast(SRC_KHZ, f, lf);
      CeilDivLeast(SRC_KHZ, g, lf);
      MulMonotone(f, g, lf);
      CeilDivLeast(40000, f, cf);
      CeilDivLeast(40000, g, cf);
      MulMonotone(f, g, cf);
    }
  }

  /** From 157 kHz on, asking for a faster clock never yields a slower one. */
  lemma ClockMonotone(f: nat, g: nat)
    requires 157 <= f <= g
    ensures Achieved(f) <= Achieved(g)
  {
    AchievedIsQuotient(f);
    AchievedIsQuotient(g);
    TargetAntitone(f, g);
    var a := Achieved(f);
    DivGreatest(SRC_KHZ, Target(f), a);
    MulMonotone(Target(g), Target(f), a);
    DivGreatest(SRC_KHZ, Target(g), a);
  }

  /** No multiple of `f`, 256 times over, falls where a card divider of 255 modulo 256 needs it: 157 is prime. */
  lemma NoSuchMultiple(f: nat, k: nat)
    requires 1 <= f < 157 && k >= 1
    ensures !(40000 + f <= 256 * (k * f) < 40000 + 2 * f)
  {
    if k >= 2 {
      MulMonotone(2, k, f);
      assert k * f >= 2 * f;
    } else {
      assert k * f == f;
    }
  }

  lemma JustBelow(f: nat, k: nat)
    requires k >= 1
    ensures (256 * k - 1) * f == 256 * (k * f) - f && (256 * k - 2) * f == 256 * (k * f) - 2 * f
  {
    Assoc(256, k, f);
  }

  /** Below 157 kHz the card divider is never narrowed to 255. */
  lemma NeverLargest(f: nat)
    requires 1 <= f < 157
    ensures CeilDiv(40000, f) % 256 != 255
  {
    var n := CeilDiv(40000, f);
    var k := n / 256 + 1;
    CeilDivLeast(40000, f, 256 * k - 1);
    CeilDivLeast(40000, f, 256 * k - 2);
    JustBelow(f, k);
    NoSuchMultiple(f, k);
  }

  /** Below 157 kHz the clock is at least as fast as that: the ratio is at most 4 * 254. */
  lemma AtLeast157(f: nat)
    requires 1 <= f < 157
    ensures Achieved(f) >= 157
  {
    GeneralShape(f);
    HostDivRange(f);
    NeverLargest(f);
    var card := GetClkDivs(f).1;
    CalcFreqIsQuotient(2, card);
    assert card <= 254 && Ratio(2, card) <= 1016;
    DivGreatest(SRC_KHZ, Ratio(2, card), 157);
  }

  /** Exactly from 157 kHz on, no faster request gets a slower clock. */
  lemma MonotoneIff(f: nat)
    requires f >= 1
    ensures (forall g: nat :: g >= f ==> Achieved(f) <= Achieved(g)) <==> f >= 157
  {
    if f >= 157 {
      forall g: nat | g >= f ensures Achieved(f) <= Achieved(g) {
        ClockMonotone(f, g);
      }
    } else {
      AtLeast157(f);
      ClockNotMonotone();
      assert Achieved(157) < Achieved(f);
    }
  }

  /** An instance: the card divider for 156 kHz is 257, narrowed to 1. */
  lemma ClockNotMonotone()
    ensures Achieved(156) == 40000 && Achieved(157) == 156
  {
    assert GetClkDivs(156) == (2, 1);
    assert GetClkDivs(157) == (2, 255);
  }

  /**
   * The dividers are the best of their kind: no smaller host divider (above 10 MHz), and no
   * smaller multiple of 4 (up to 10 MHz), keeps the clock within the requested frequency.
   */
  lemma ClockOptimal(freq: nat, d: nat)
    requires 157 <= freq < HIGHSPEED
    ensures freq > 10000 ==>
      GetClkDivs(freq).1 == 0 && (d * freq >= SRC_KHZ <==> d >= GetClkDivs(freq).0)
    ensures freq <= 10000 && freq != PROBING ==> GetClkDivs(freq).0 == 2
    ensures freq <= 10000 ==>
      ((4 * d) * freq >= SRC_KHZ <==> 4 * d >= Ratio(GetClkDivs(freq).0, GetClkDivs(freq).1))
  {
    NarrowingExact(freq);
    WideRatio(freq);
    GeneralShape(freq);
    SpecialCases();
    if freq > 10000 {
      CeilDivLeast(SRC_KHZ, freq, d);
    } else {
      CeilDivLeast(40000, freq, d);
      Assoc(4, d, freq);
    }
  }
}
