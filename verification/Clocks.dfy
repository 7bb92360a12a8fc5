/** The clock text of every display: printing hundredths of a second, reading them back,
    and the three printers of a time against its seed. */
module Clocks {
  import opened Text

  // ── Reading ──

  /** ASCII white space, as Python strips it. */
  predicate IsSpace(c: char) {
    c == ' ' || '\t' <= c <= '\r' || '\U{001c}' <= c <= '\U{001f}'
  }

  function Strip(s: string): string {
    if s == "" then ""
    else if IsSpace(s[0]) then Strip(s[1..])
    else if IsSpace(s[|s| - 1]) then Strip(s[..|s| - 1])
    else s
  }

  /** Minutes when there are any, seconds and hundredths: `1:05.23`, `59.99`, `5.23`. */
  datatype Parts = Parts(minutes: Option<string>, seconds: string, hundredths: string)

  ghost predicate Spells(s: string, p: Parts) {
    && s == (if p.minutes.Some? then p.minutes.value + ":" else "") + p.seconds + "." + p.hundredths
    && (p.minutes.Some? ==> p.minutes.value != "" && AllDigits(p.minutes.value))
    && 1 <= |p.seconds| <= 2 && AllDigits(p.seconds)
    && |p.hundredths| == 2 && AllDigits(p.hundredths)
  }

  function Head(s: string, frac: string): Option<Parts> {
    var n := |s|;
    if 1 <= n <= 2 && AllDigits(s) then Some(Parts(None, s, frac))
    else if n >= 3 && s[n - 2] == ':' && AllDigits(s[..n - 2]) && IsDigit(s[n - 1])
    then Some(Parts(Some(s[..n - 2]), s[n - 1..], frac))
    else if n >= 4 && s[n - 3] == ':' && AllDigits(s[..n - 3]) && AllDigits(s[n - 2..])
    then Some(Parts(Some(s[..n - 3]), s[n - 2..], frac))
    else None
  }

  function Match(s: string): Option<Parts> {
    var n := |s|;
    if n >= 4 && s[n - 3] == '.' && AllDigits(s[n - 2..]) then Head(s[..n - 3], s[n - 2..]) else None
  }

  function Amount(p: Parts): nat
    requires p.minutes.Some? ==> AllDigits(p.minutes.value)
    requires AllDigits(p.seconds) && AllDigits(p.hundredths)
  {
    (if p.minutes.Some? then Value(p.minutes.value) else 0) * 6000 + Value(p.seconds) * 100 + Value(p.hundredths)
  }

  lemma HeadSpells(s: string, frac: string)
    requires |frac| == 2 && AllDigits(frac)
    ensures Head(s, frac).Some? ==> Spells(s + "." + frac, Head(s, frac).value)
  {
    if Head(s, frac).Some? {
      var p := Head(s, frac).value;
      var n := |s|;
      if p.minutes.None? {
        assert s + "." + frac == "" + p.seconds + "." + p.hundredths;
      } else if |p.seconds| == 1 {
        assert s == s[..n - 2] + ":" + s[n - 1..];
      } else {
        assert s == s[..n - 3] + ":" + s[n - 2..];
      }
    }
  }

  lemma AroundThePoint(s: string)
    requires |s| >= 3 && s[|s| - 3] == '.'
    ensures s[..|s| - 3] + "." + s[|s| - 2..] == s
  {
  }

  /** What is matched is what the text spells. */
  lemma MatchSpells(s: string)
    ensures Match(s).Some? ==> Spells(s, Match(s).value)
  {
    hide Head, Spells, AllDigits;
    if |s| >= 4 && s[|s| - 3] == '.' && AllDigits(s[|s| - 2..]) {
      AroundThePoint(s);
      HeadSpells(s[..|s| - 3], s[|s| - 2..]);
    }
  }

  lemma HeadMatches(p: Parts)
    requires p.minutes.Some? ==> p.minutes.value != "" && AllDigits(p.minutes.value)
    requires 1 <= |p.seconds| <= 2 && AllDigits(p.seconds)
    ensures Head((if p.minutes.Some? then p.minutes.value + ":" else "") + p.seconds, p.hundredths) == Some(p)
  {
    if p.minutes.Some? {
      var m, s := p.minutes.value, p.minutes.value + ":" + p.seconds;
      var n := |s|;
      assert s[|m|] == ':' && !IsDigit(':');
      assert s[..|m|] == m && s[|m| + 1..] == p.seconds;
      if |p.seconds| == 2 {
        assert s[n - 2] == p.seconds[0] && IsDigit(p.seconds[0]);
        assert s[n - 2..] == p.seconds;
      }
    } else {
      assert "" + p.seconds == p.seconds;
    }
  }

  /** Every text that spells a clock is matched, as the one clock it can spell. */
  lemma SpeltIsMatched(s: string, p: Parts)
    requires Spells(s, p)
    ensures Match(s) == Some(p)
  {
    var head := (if p.minutes.Some? then p.minutes.value + ":" else "") + p.seconds;
    HeadMatches(p);
    assert s == head + "." + p.hundredths;
    assert s[..|s| - 3] == head && s[|s| - 2..] == p.hundredths;
  }

  function ParseClock(text: string): Option<nat> {
    var p := Match(Strip(text));
    if p.None? then None
    else
      MatchSpells(Strip(text));
      Some(Amount(p.value))
  }

  // ── Printing ──

  /** Minutes only when there are any, and seconds padded only behind them. */
  function ClockText(minutes: nat, seconds: nat, frac: nat): string {
    if minutes > 0 then Decimal(minutes) + ":" + Padded(seconds, 2) + "." + Padded(frac, 2)
    else Decimal(seconds) + "." + Padded(frac, 2)
  }

  function FmtClock(hundredths: int, tenths: bool): string {
    var most := if hundredths > 0 then hundredths else 0;
    var h: nat := if tenths then most - most % 10 else most;
    ClockText(h / 6000, h / 100 % 60, h % 100)
  }

  function Printed(minutes: nat, seconds: nat, frac: nat): Parts {
    if minutes > 0 then Parts(Some(Decimal(minutes)), Padded(seconds, 2), Padded(frac, 2))
    else Parts(None, Decimal(seconds), Padded(frac, 2))
  }

  lemma DecimalIsShort(n: nat)
    requires n < 100
    ensures |Decimal(n)| <= 2
  {
  }

  lemma PrintedSpells(minutes: nat, seconds: nat, frac: nat)
    requires seconds < 60 && frac < 100
    ensures Spells(ClockText(minutes, seconds, frac), Printed(minutes, seconds, frac))
    ensures Amount(Printed(minutes, seconds, frac)) == minutes * 6000 + seconds * 100 + frac
  {
    DecimalReads(minutes);
    DecimalReads(seconds);
    PaddedReads(seconds, 2);
    PaddedReads(frac, 2);
    DecimalIsShort(seconds);
    hide Decimal, Padded, Pow10, Value, AllDigits;
    if minutes == 0 { assert ClockText(minutes, seconds, frac) == "" + Decimal(seconds) + "." + Padded(frac, 2); }
  }

  lemma NoSpaceAround(minutes: nat, seconds: nat, frac: nat)
    ensures var s := ClockText(minutes, seconds, frac); Strip(s) == s
  {
    DecimalReads(minutes);
    DecimalReads(seconds);
    PaddedReads(frac, 2);
    hide Decimal, Padded, Value;
    var s := ClockText(minutes, seconds, frac);
    assert s[|s| - 1] == Padded(frac, 2)[1];
  }

  lemma ClockParts(h: nat)
    ensures h / 100 % 60 < 60 && h % 100 < 100
    ensures h / 6000 * 6000 + h / 100 % 60 * 100 + h % 100 == h
  {
  }

  lemma TenthsParts(h: nat)
    ensures (h - h % 10) / 100 == h / 100 && (h - h % 10) / 6000 == h / 6000 && 0 <= h - h % 10
  {
    var n, q, r := h - h % 10, h / 100, h % 100;
    assert h == 100 * q + r;
    assert h % 10 == r % 10;
    assert n == 100 * q + (r - r % 10);
    assert n / 100 == q;
    assert n / 6000 == n / 100 / 60 && h / 6000 == h / 100 / 60;
  }

  lemma TextReads(minutes: nat, seconds: nat, frac: nat)
    requires seconds < 60 && frac < 100
    ensures ParseClock(ClockText(minutes, seconds, frac)) == Some(minutes * 6000 + seconds * 100 + frac)
  {
    var s := ClockText(minutes, seconds, frac);
    PrintedSpells(minutes, seconds, frac);
    NoSpaceAround(minutes, seconds, frac);
    hide ClockText, Printed, Spells;
    SpeltIsMatched(s, Printed(minutes, seconds, frac));
  }

  /** A clock printed reads back as it was; negative hundredths print as none. */
  lemma ClockRoundTrip(h: int)
    ensures ParseClock(FmtClock(h, false)) == Some(if h > 0 then h else 0)
  {
    hide ClockText;
    var n: nat := if h > 0 then h else 0;
    ClockParts(n);
    TextReads(n / 6000, n / 100 % 60, n % 100);
  }

  /** In tenths it reads back with its last digit dropped, and is exactly as wide. */
  lemma TenthsRoundTrip(h: nat)
    ensures ParseClock(FmtClock(h, true)) == Some(h - h % 10)
    ensures |FmtClock(h, true)| == |FmtClock(h, false)|
  {
    var n: nat := h - h % 10;
    ClockRoundTrip(n);
    assert FmtClock(h, true) == FmtClock(n, false);
    TenthsParts(h);
    hide ClockText;
    SameWidth(h / 6000, h / 100 % 60, n % 100, h % 100);
  }

  lemma SameWidth(minutes: nat, seconds: nat, a: nat, b: nat)
    ensures |ClockText(minutes, seconds, a)| == |ClockText(minutes, seconds, b)|
  {
    hide Decimal, Padded;
  }

  /** Two clocks print alike only when they are the same. */
  lemma ClockIsInjective(a: nat, b: nat)
    requires FmtClock(a, false) == FmtClock(b, false)
    ensures a == b
  {
    ClockRoundTrip(a);
    ClockRoundTrip(b);
  }

  // ── Against the seed ──

  /** Python's `round`: to the nearest, halves to the even. */
  function Round(x: real): int {
    var below := x.Floor;
    var rest := x - below as real;
    if rest < 0.5 || (rest == 0.5 && below % 2 == 0) then below else below + 1
  }

  function Abs(d: int): nat {
    if d < 0 then -d else d
  }

  /** A delta as the displays get it: its text and whether it is better than the seed. */
  datatype Delta = Delta(text: string, better: bool)

  /** The Pi's, from hundredths. */
  function DeltaHtml(d: int): Delta {
    var a := Abs(d);
    var h, s, m := a % 100, a / 100 % 60, a / 6000;
    var sign := if d < 0 then "-" else "+";
    Delta(if m > 0 then sign + Decimal(m) + ":" + Padded(s, 2) + "." + Padded(h, 2)
          else sign + Decimal(s) + "." + Padded(h, 2),
          d < 0)
  }

  /** The TV's, from the seconds the Pi sends. */
  function FmtDelta(seconds: Option<real>): string {
    if seconds.None? then ""
    else
      var d := Round(seconds.value * 100.0);
      var a := Abs(d);
      var m, s, h := a / 6000, a / 100 % 60, a % 100;
      var sign := if d < 0 then "-" else "+";
      if m > 0 then sign + Decimal(m) + ":" + Padded(s, 2) + "." + Padded(h, 2)
      else sign + Decimal(s) + "." + Padded(h, 2)
  }

  /** The test meets' clock, from a time not yet rounded. */
  function TestClock(hundredths: real): string {
    var h: nat := if Round(hundredths) > 0 then Round(hundredths) else 0;
    var m, s, c := h / 6000, h / 100 % 60, h % 100;
    if m > 0 then Decimal(m) + ":" + Padded(s, 2) + "." + Padded(c, 2) else Decimal(s) + "." + Padded(c, 2)
  }

  function TestDelta(final: real, seed: real): Delta {
    var d := Round(final) - Round(seed);
    Delta((if d < 0 then "-" else "+") + TestClock(Abs(d) as real), d < 0)
  }

  lemma RoundWhole(d: int)
    ensures Round(d as real) == d
  {
  }

  /** Rounding is to the nearest whole, a tie to the even one, as Python's is. */
  lemma RoundIsNearest(x: real)
    ensures -0.5 <= x - Round(x) as real <= 0.5
    ensures x - Round(x) as real in {-0.5, 0.5} ==> Round(x) % 2 == 0
  {
  }

  lemma RoundSeconds(d: int)
    ensures Round(d as real / 100.0 * 100.0) == d
  {
    assert d as real / 100.0 * 100.0 == d as real;
    RoundWhole(d);
  }

  lemma SignOutside(sign: string, m: nat, s: nat, h: nat)
    ensures (if m > 0 then sign + Decimal(m) + ":" + Padded(s, 2) + "." + Padded(h, 2)
             else sign + Decimal(s) + "." + Padded(h, 2)) == sign + ClockText(m, s, h)
  {
    hide Decimal, Padded;
    if m > 0 {
      assert sign + Decimal(m) + ":" + Padded(s, 2) + "." + Padded(h, 2)
        == sign + (Decimal(m) + ":" + Padded(s, 2) + "." + Padded(h, 2));
    } else {
      assert sign + Decimal(s) + "." + Padded(h, 2) == sign + (Decimal(s) + "." + Padded(h, 2));
    }
  }

  /** The text is the sign and the clock of the gap. */
  lemma DeltaIsSignedClock(d: int)
    ensures DeltaHtml(d).text == (if d < 0 then "-" else "+") + FmtClock(Abs(d), false)
  {
    hide Decimal, Padded;
    var a := Abs(d);
    SignOutside(if d < 0 then "-" else "+", a / 6000, a / 100 % 60, a % 100);
  }

  /** The three displays never disagree about a swimmer: the web page, the TV working from
      the seconds it was sent, and a test meet print the same gap. */
  lemma DeltasAgree(final: real, seed: real)
    ensures var d := Round(final) - Round(seed);
      && FmtDelta(Some(d as real / 100.0)) == DeltaHtml(d).text
      && TestDelta(final, seed) == DeltaHtml(d)
  {
    hide Round, Decimal, Padded;
    var d := Round(final) - Round(seed);
    RoundSeconds(d);
    RoundWhole(Abs(d));
    DeltaIsSignedClock(d);
  }

  /** A delta's text says exactly what it was: its sign, which a better time has, and its
      clock read back. */
  lemma DeltaReads(d: int)
    ensures var text := DeltaHtml(d).text;
      && text != ""
      && (text[0] == '-' <==> d < 0) && (DeltaHtml(d).better <==> d < 0)
      && ParseClock(text[1..]) == Some(Abs(d))
  {
    DeltaIsSignedClock(d);
    var clock := FmtClock(Abs(d), false);
    assert DeltaHtml(d).text[1..] == clock;
    ClockRoundTrip(Abs(d));
  }
}
