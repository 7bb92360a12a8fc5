/** A test meet's heat, frame by frame, and the official results that follow the pool.
    Race times are in hundredths of a second, waits in seconds. */
module TestMeets {
  import opened Text

  const PRE_START := 10.0
  const RESULTS_HOLD := 15.0

  /** The seeds by lane, what the day makes of each, and the lengths swum. */
  datatype Heat = Heat(seeds: map<int, real>, form: map<int, real>, lengths: nat)

  predicate Valid(h: Heat) {
    && h.lengths >= 1 && h.seeds != map[] && h.form.Keys == h.seeds.Keys
    && (forall lane :: lane in h.seeds ==> h.seeds[lane] > 0.0)
    && (forall lane :: lane in h.seeds ==> 0.97 <= h.form[lane] <= 1.03)
  }

  function Final(h: Heat, lane: int): (t: real)
    requires Valid(h) && lane in h.seeds
    ensures t > 0.0
  {
    h.seeds[lane] * h.form[lane]
  }

  // ── The touches and the ticks ──

  /** What the first `k` lengths weigh: each a little slower than the first. */
  function Weight(k: nat): (w: real)
    ensures w >= 0.0 && (k > 0 ==> w > 0.0)
  {
    if k == 0 then 0.0 else Weight(k - 1) + LengthWeight(k)
  }

  function LengthWeight(k: nat): (w: real)
    ensures w > 0.0
  {
    if k == 1 then 1.0 else 1.06
  }

  /** The part of a time that goes to `weight` out of `all`. */
  function Portion(time: real, weight: real, all: real): real
    requires all > 0.0
  {
    time * weight / all
  }

  function TouchTime(final: real, n: nat, k: nat): real
    requires 1 <= k <= n
  {
    if k == n then final else Portion(final, Weight(k), Weight(n))
  }

  datatype Moment = Touch(at: real, lane: int, length: nat) | Tick(at: real)

  /** The order frames go out in: by time, a touch before a tick, then by lane. */
  predicate Before(a: Moment, b: Moment) {
    a.at < b.at
    || (a.at == b.at && a.Touch? && (b.Tick? || a.lane < b.lane || (a.lane == b.lane && a.length < b.length)))
  }

  predicate IsFinish(h: Heat, finish: real)
    requires Valid(h)
  {
    && (exists lane :: lane in h.seeds && Final(h, lane) == finish)
    && (forall lane :: lane in h.seeds ==> Final(h, lane) <= finish)
  }

  predicate IsMoment(h: Heat, finish: real, m: Moment)
    requires Valid(h)
  {
    IsTouch(h, m) || IsTick(finish, m)
  }

  predicate IsTouch(h: Heat, m: Moment)
    requires Valid(h)
  {
    m.Touch? && m.lane in h.seeds && 1 <= m.length <= h.lengths
    && m.at == TouchTime(Final(h, m.lane), h.lengths, m.length)
  }

  predicate IsTick(finish: real, m: Moment) {
    m.Tick? && exists j: nat :: 1 <= j <= (finish / 100.0).Floor && m.at == TickTime(j)
  }

  function TickTime(j: nat): real {
    100.0 * j as real
  }

  ghost predicate Ordered(ms: seq<Moment>) {
    forall i, j :: 0 <= i < j < |ms| ==> Before(ms[i], ms[j])
  }

  /** The heat's touches and clock ticks, all of them, in order. */
  ghost predicate Timeline(h: Heat, finish: real, ms: seq<Moment>)
    requires Valid(h)
  {
    Ordered(ms) && forall m :: m in ms <==> IsMoment(h, finish, m)
  }

  lemma {:induction false} WeightGrows(k: nat, j: nat)
    requires k < j
    ensures Weight(k) < Weight(j)
    decreases j
  {
    if k < j - 1 { WeightGrows(k, j - 1); }
  }

  lemma PortionsGrow(time: real, a: real, b: real, all: real)
    requires time > 0.0 && 0.0 < a < b <= all
    ensures 0.0 < Portion(time, a, all) < Portion(time, b, all) <= Portion(time, all, all) == time
  {
    assert time * a < time * b;
    if b < all { assert time * b < time * all; }
  }

  lemma PortionsAdd(time: real, a: real, b: real, all: real)
    requires all > 0.0
    ensures Portion(time, 0.0, all) == 0.0
    ensures Portion(time, a, all) + Portion(time, b, all) == Portion(time, a + b, all)
  {
  }

  /** A lane touches each wall later than the one before, and the last at its final. */
  lemma TouchesAscend(final: real, n: nat, k: nat, j: nat)
    requires final > 0.0 && 1 <= k < j <= n
    ensures 0.0 < TouchTime(final, n, k) < TouchTime(final, n, j) <= final
  {
    hide Weight, Portion;
    WeightGrows(k, j);
    if j < n { WeightGrows(j, n); }
    PortionsGrow(final, Weight(k), Weight(j), Weight(n));
  }

  /** Every length after the first takes six hundredths longer than it did. */
  lemma LengthTakes(final: real, n: nat, k: nat)
    requires final > 0.0 && 1 <= k < n
    ensures TouchTime(final, n, k + 1) - TouchTime(final, n, k) == TouchTime(final, n, 1) * 106.0 / 100.0
  {
    hide Portion;
    PortionsAdd(final, Weight(k), LengthWeight(k + 1), Weight(n));
    PortionsGrow(final, Weight(n) / 2.0, Weight(n), Weight(n));
    PortionScales(final, 1.0, Weight(n));
    assert Weight(1) == Weight(0) + LengthWeight(1) == 1.0;
  }

  lemma PortionScales(time: real, a: real, all: real)
    requires all > 0.0
    ensures Portion(time, 1.06 * a, all) == Portion(time, a, all) * 106.0 / 100.0
  {
  }

  /** The clock ticks at each whole second of the race, to the end of the slowest swim. */
  lemma TicksAreSeconds(finish: real, at: real)
    requires finish > 0.0
    ensures IsTick(finish, Tick(at)) <==> 0.0 < at <= finish && (at / 100.0).Floor as real == at / 100.0
  {
    if 0.0 < at <= finish && (at / 100.0).Floor as real == at / 100.0 {
      var j: nat := (at / 100.0).Floor;
      assert at == TickTime(j) && j <= (finish / 100.0).Floor;
    }
  }

  lemma TouchInRace(h: Heat, finish: real, lane: int, k: nat)
    requires Valid(h) && IsFinish(h, finish) && lane in h.seeds && 1 <= k <= h.lengths
    ensures 0.0 < TouchTime(Final(h, lane), h.lengths, k) <= finish
  {
    if k < h.lengths { TouchesAscend(Final(h, lane), h.lengths, k, h.lengths); }
  }

  lemma MomentInRace(h: Heat, finish: real, m: Moment)
    requires Valid(h) && IsFinish(h, finish) && IsMoment(h, finish, m)
    ensures 0.0 < m.at <= finish
  {
    if m.Touch? { TouchInRace(h, finish, m.lane, m.length); }
  }

  // ── What goes out ──

  /** A lane of the results: `place` counts the lanes home so far. */
  datatype Line = Line(lane: int, place: nat, time: real)

  datatype Frame =
    | NextHeats
    | Board
    | Start
    | Clock(time: real)
    | Touched(time: real, lane: int, length: nat, place: Option<nat>)
    | Results(lines: seq<Line>)
    | Hold

  datatype Yield = Yield(wait: real, frame: Frame)

  function Rank(l: Line, byPlace: bool): int {
    if byPlace then l.place else l.lane
  }

  function InsertLine(l: Line, lines: seq<Line>, byPlace: bool): seq<Line> {
    if lines == [] || Rank(l, byPlace) <= Rank(lines[0], byPlace) then [l] + lines
    else [lines[0]] + InsertLine(l, lines[1..], byPlace)
  }

  function SortLines(lines: seq<Line>, byPlace: bool): seq<Line> {
    if lines == [] then [] else InsertLine(lines[0], SortLines(lines[1..], byPlace), byPlace)
  }

  /** The lanes home, in the order they came. */
  function Finishers(ms: seq<Moment>, n: nat): seq<Line>
    decreases |ms|
  {
    if ms == [] then []
    else
      var before, m := Finishers(ms[..|ms| - 1], n), ms[|ms| - 1];
      if m.Touch? && m.length == n then before + [Line(m.lane, |before| + 1, m.at)] else before
  }

  function Now(ms: seq<Moment>): real {
    if ms == [] then 0.0 else ms[|ms| - 1].at
  }

  function Shown(ms: seq<Moment>, m: Moment, n: nat, byPlace: bool): seq<Yield> {
    var wait := (m.at - Now(ms)) / 100.0;
    if m.Tick? then [Yield(wait, Clock(m.at))]
    else if m.length != n then [Yield(wait, Touched(m.at, m.lane, m.length, None))]
    else
      [Yield(wait, Touched(m.at, m.lane, m.length, Some(|Finishers(ms, n)| + 1))),
       Yield(0.0, Results(SortLines(Finishers(ms + [m], n), byPlace)))]
  }

  function Race(ms: seq<Moment>, n: nat, byPlace: bool): seq<Yield>
    decreases |ms|
  {
    if ms == [] then []
    else Race(ms[..|ms| - 1], n, byPlace) + Shown(ms[..|ms| - 1], ms[|ms| - 1], n, byPlace)
  }

  function HeatOf(ms: seq<Moment>, n: nat, byPlace: bool): seq<Yield> {
    [Yield(0.0, NextHeats), Yield(0.0, Board), Yield(PRE_START, Start)]
    + Race(ms, n, byPlace) + [Yield(RESULTS_HOLD, Hold)]
  }

  // ── How long it takes ──

  function Waits(ys: seq<Yield>): real {
    if ys == [] then 0.0 else Waits(ys[..|ys| - 1]) + ys[|ys| - 1].wait
  }

  lemma {:induction false} WaitsAdd(a: seq<Yield>, b: seq<Yield>)
    ensures Waits(a + b) == Waits(a) + Waits(b)
  {
    if b == [] {
      assert a + b == a;
    } else {
      assert (a + b)[..|a + b| - 1] == a + b[..|b| - 1];
      WaitsAdd(a, b[..|b| - 1]);
    }
  }

  lemma WaitsOf(a: Yield, b: Yield, c: Yield)
    ensures Waits([a]) == a.wait && Waits([a, b]) == a.wait + b.wait && Waits([a, b, c]) == a.wait + b.wait + c.wait
  {
    assert [a][..0] == [] && [a, b][..1] == [a] && [a, b, c][..2] == [a, b];
  }

  lemma ShownTakes(ms: seq<Moment>, m: Moment, n: nat, byPlace: bool)
    requires m.at >= Now(ms)
    ensures Waits(Shown(ms, m, n, byPlace)) == (m.at - Now(ms)) / 100.0
    ensures forall y :: y in Shown(ms, m, n, byPlace) ==> y.wait >= 0.0
  {
    var out := Shown(ms, m, n, byPlace);
    WaitsOf(out[0], out[|out| - 1], out[0]);
  }

  lemma {:induction false} RaceTakes(ms: seq<Moment>, n: nat, byPlace: bool)
    requires Ordered(ms) && forall m :: m in ms ==> m.at >= 0.0
    ensures Waits(Race(ms, n, byPlace)) == Now(ms) / 100.0
    ensures forall y :: y in Race(ms, n, byPlace) ==> y.wait >= 0.0
    decreases |ms|
  {
    hide Shown;
    if ms != [] {
      var before, m := ms[..|ms| - 1], ms[|ms| - 1];
      assert forall o :: o in before ==> o in ms;
      assert m in ms;
      RaceTakes(before, n, byPlace);
      ShownTakes(before, m, n, byPlace);
      WaitsAdd(Race(before, n, byPlace), Shown(before, m, n, byPlace));
    }
  }

  lemma TimelineEnds(h: Heat, finish: real, ms: seq<Moment>)
    requires Valid(h) && IsFinish(h, finish) && Timeline(h, finish, ms)
    ensures Now(ms) == finish && forall m :: m in ms ==> m.at >= 0.0
  {
    var lane :| lane in h.seeds && Final(h, lane) == finish;
    var last := Touch(finish, lane, h.lengths);
    assert IsMoment(h, finish, last) && last in ms;
    forall m | m in ms
      ensures 0.0 < m.at <= finish
    {
      MomentInRace(h, finish, m);
    }
    var i :| 0 <= i < |ms| && ms[i] == last;
    assert i < |ms| - 1 ==> Before(ms[i], ms[|ms| - 1]);
    assert ms[|ms| - 1] in ms;
  }

  /** Every wait is forward, and they add up to the time on the blocks, the slowest swim
      and the results held. */
  lemma HeatTakes(h: Heat, finish: real, ms: seq<Moment>, byPlace: bool)
    requires Valid(h) && IsFinish(h, finish) && Timeline(h, finish, ms)
    ensures Waits(HeatOf(ms, h.lengths, byPlace)) == 10.0 + finish / 100.0 + 15.0
    ensures forall y :: y in HeatOf(ms, h.lengths, byPlace) ==> y.wait >= 0.0
  {
    hide Waits, Race;
    TimelineEnds(h, finish, ms);
    RaceTakes(ms, h.lengths, byPlace);
    var head := [Yield(0.0, NextHeats), Yield(0.0, Board), Yield(PRE_START, Start)];
    var race := Race(ms, h.lengths, byPlace);
    var tail := [Yield(RESULTS_HOLD, Hold)];
    WaitsAdd(head + race, tail);
    WaitsAdd(head, race);
    WaitsOf(head[0], head[1], head[2]);
    WaitsOf(tail[0], head[1], head[2]);
  }

  // ── The clock ──

  /** The race times the frames carry, in order. */
  function Times(ys: seq<Yield>): seq<real> {
    if ys == [] then []
    else
      var f := ys[|ys| - 1].frame;
      Times(ys[..|ys| - 1]) + (if f.Clock? || f.Touched? then [f.time] else [])
  }

  lemma TimesAdd(a: seq<Yield>, b: seq<Yield>)
    requires 1 <= |b| <= 2 && (b[0].frame.Clock? || b[0].frame.Touched?) && (|b| == 2 ==> b[1].frame.Results?)
    ensures Times(a + b) == Times(a) + [b[0].frame.time]
  {
    assert (a + b)[..|a + b| - 1] == a + b[..|b| - 1];
    if |b| == 2 { assert (a + b[..1])[..|a|] == a; } else { assert a + b[..0] == a; }
  }

  function Instants(ms: seq<Moment>): seq<real> {
    seq(|ms|, i requires 0 <= i < |ms| => ms[i].at)
  }

  lemma TimesGrow(ms: seq<Moment>, m: Moment, n: nat, byPlace: bool)
    ensures Times(Race(ms + [m], n, byPlace)) == Times(Race(ms, n, byPlace)) + [m.at]
  {
    hide SortLines, Finishers, Times;
    assert (ms + [m])[..|ms|] == ms;
    TimesAdd(Race(ms, n, byPlace), Shown(ms, m, n, byPlace));
  }

  lemma {:induction false} TimesOfRace(ms: seq<Moment>, n: nat, byPlace: bool)
    ensures Times(Race(ms, n, byPlace)) == Instants(ms)
    decreases |ms|
  {
    if ms != [] {
      hide Times, Race;
      var before, m := ms[..|ms| - 1], ms[|ms| - 1];
      assert ms == before + [m];
      TimesOfRace(before, n, byPlace);
      TimesGrow(before, m, n, byPlace);
      assert Instants(ms) == Instants(before) + [m.at];
    }
  }

  /** The clock shown is each moment's own, so it never goes back. */
  lemma ClockNeverGoesBack(ms: seq<Moment>, n: nat, byPlace: bool)
    requires Ordered(ms)
    ensures var times := Times(Race(ms, n, byPlace));
      && |times| == |ms| && (forall i :: 0 <= i < |ms| ==> times[i] == ms[i].at)
      && (forall i, j :: 0 <= i < j < |times| ==> times[i] <= times[j])
  {
    hide Times, Race;
    TimesOfRace(ms, n, byPlace);
    var times := Instants(ms);
    forall i, j | 0 <= i < j < |times|
      ensures times[i] <= times[j]
    {
      assert Before(ms[i], ms[j]);
    }
  }

  // ── The lengths of a lane ──

  /** The lengths the frames report of a lane, in order. */
  function Lengths(ys: seq<Yield>, lane: int): seq<nat> {
    if ys == [] then []
    else
      var f := ys[|ys| - 1].frame;
      Lengths(ys[..|ys| - 1], lane) + (if f.Touched? && f.lane == lane then [f.length] else [])
  }

  /** The lengths at which the frames clear a lane's running flag, giving it a place. */
  function Stops(ys: seq<Yield>, lane: int): seq<nat> {
    if ys == [] then []
    else
      var f := ys[|ys| - 1].frame;
      Stops(ys[..|ys| - 1], lane) + (if f.Touched? && f.lane == lane && f.place.Some? then [f.length] else [])
  }

  function TouchesOf(ms: seq<Moment>, lane: int): seq<nat> {
    if ms == [] then []
    else
      var m := ms[|ms| - 1];
      TouchesOf(ms[..|ms| - 1], lane) + (if m.Touch? && m.lane == lane then [m.length] else [])
  }

  function LastOf(ls: seq<nat>, n: nat): seq<nat> {
    if ls == [] then [] else LastOf(ls[..|ls| - 1], n) + (if ls[|ls| - 1] == n then [n] else [])
  }

  lemma LengthsAdd(a: seq<Yield>, b: seq<Yield>, lane: int)
    requires 1 <= |b| <= 2 && (|b| == 2 ==> b[1].frame.Results?)
    ensures var f := b[0].frame; var touched := f.Touched? && f.lane == lane;
      && Lengths(a + b, lane) == Lengths(a, lane) + (if touched then [f.length] else [])
      && Stops(a + b, lane) == Stops(a, lane) + (if touched && f.place.Some? then [f.length] else [])
  {
    assert (a + b)[..|a + b| - 1] == a + b[..|b| - 1];
    if |b| == 2 { assert (a + b[..1])[..|a|] == a; } else { assert a + b[..0] == a; }
  }

  lemma LastOfAdd(ls: seq<nat>, k: nat, n: nat)
    ensures LastOf(ls + [k], n) == LastOf(ls, n) + (if k == n then [n] else [])
  {
    assert (ls + [k])[..|ls|] == ls;
  }

  lemma {:induction false} LengthsOfRace(ms: seq<Moment>, n: nat, byPlace: bool, lane: int)
    ensures Lengths(Race(ms, n, byPlace), lane) == TouchesOf(ms, lane)
    ensures Stops(Race(ms, n, byPlace), lane) == LastOf(TouchesOf(ms, lane), n)
    decreases |ms|
  {
    hide Lengths, Stops, LastOf, SortLines, Finishers;
    if ms != [] {
      var before, m := ms[..|ms| - 1], ms[|ms| - 1];
      LengthsOfRace(before, n, byPlace, lane);
      LengthsAdd(Race(before, n, byPlace), Shown(before, m, n, byPlace), lane);
      if m.Touch? { LastOfAdd(TouchesOf(before, lane), m.length, n); }
      assert TouchesOf(before, lane) + [] == TouchesOf(before, lane);
    } else {
      NoLengths(n, lane);
    }
  }

  lemma NoLengths(n: nat, lane: int)
    ensures Lengths([], lane) == Stops([], lane) == LastOf([], n) == []
  {
  }

  ghost predicate Rising(s: seq<nat>) {
    forall i, j :: 0 <= i < j < |s| ==> s[i] < s[j]
  }

  lemma {:induction false} TouchesAre(h: Heat, ms: seq<Moment>, lane: int)
    requires Valid(h) && lane in h.seeds && forall m :: m in ms && m.Touch? ==> IsTouch(h, m)
    ensures forall k :: k in TouchesOf(ms, lane) <==>
      1 <= k <= h.lengths && Touch(TouchTime(Final(h, lane), h.lengths, k), lane, k) in ms
    decreases |ms|
  {
    hide Final, TouchTime;
    if ms != [] {
      var before, m := ms[..|ms| - 1], ms[|ms| - 1];
      assert forall o :: o in before ==> o in ms;
      assert m in ms && ms == before + [m];
      TouchesAre(h, before, lane);
    }
  }

  lemma TouchFollows(h: Heat, a: Moment, b: Moment)
    requires Valid(h) && IsTouch(h, a) && IsTouch(h, b) && a.lane == b.lane && Before(a, b)
    ensures a.length < b.length
  {
    if a.length > b.length { TouchesAscend(Final(h, a.lane), h.lengths, b.length, a.length); }
  }

  lemma {:induction false} TouchesRise(h: Heat, ms: seq<Moment>, lane: int)
    requires Valid(h) && lane in h.seeds && Ordered(ms) && forall m :: m in ms && m.Touch? ==> IsTouch(h, m)
    ensures Rising(TouchesOf(ms, lane))
    decreases |ms|
  {
    hide Final, TouchTime, Before;
    if ms != [] {
      var before, m := ms[..|ms| - 1], ms[|ms| - 1];
      assert forall o :: o in before ==> o in ms;
      assert m in ms;
      TouchesRise(h, before, lane);
      if m.Touch? && m.lane == lane {
        var past := TouchesOf(before, lane);
        TouchesAre(h, before, lane);
        forall i | 0 <= i < |past|
          ensures past[i] < m.length
        {
          assert past[i] in past;
          var o := Touch(TouchTime(Final(h, lane), h.lengths, past[i]), lane, past[i]);
          var j :| 0 <= j < |before| && before[j] == o;
          assert Before(ms[j], m);
          TouchFollows(h, o, m);
        }
      }
    }
  }

  lemma {:induction false} RisingAtLeast(s: seq<nat>, i: nat)
    requires Rising(s) && i < |s| && forall k :: k in s ==> k >= 1
    ensures s[i] >= i + 1
  {
    assert s[i] in s;
    if i > 0 { RisingAtLeast(s, i - 1); }
  }

  lemma {:induction false} RisingAtMost(s: seq<nat>, i: nat, n: nat)
    requires Rising(s) && i < |s| && forall k :: k in s ==> k <= n
    ensures s[i] + (|s| - 1 - i) <= n
    decreases |s| - i
  {
    assert s[i] in s;
    if i < |s| - 1 { RisingAtMost(s, i + 1, n); }
  }

  lemma {:induction false} AtLeastSoMany(s: seq<nat>, k: nat)
    requires Rising(s) && k >= 1 && forall j :: 1 <= j <= k ==> j in s
    ensures exists i :: k - 1 <= i < |s| && s[i] == k
    decreases k
  {
    assert k in s;
    var i :| 0 <= i < |s| && s[i] == k;
    if k > 1 { AtLeastSoMany(s, k - 1); }
  }

  /** A rising sequence of exactly the numbers 1 to n is 1, 2, … n. */
  lemma RisingToN(s: seq<nat>, n: nat)
    requires Rising(s) && forall k :: k in s <==> 1 <= k <= n
    ensures |s| == n && forall i :: 0 <= i < n ==> s[i] == i + 1
  {
    if n > 0 { AtLeastSoMany(s, n); }
    if s != [] { RisingAtMost(s, 0, n); }
    forall i | 0 <= i < |s|
      ensures s[i] == i + 1
    {
      RisingAtLeast(s, i);
      RisingAtMost(s, i, n);
    }
  }

  lemma {:induction false} LastOfRange(s: seq<nat>, n: nat, k: nat)
    requires 1 <= n && k <= |s| <= n && forall i :: 0 <= i < |s| ==> s[i] == i + 1
    ensures LastOf(s[..k], n) == if k == n then [n] else []
    decreases k
  {
    if k > 0 {
      assert s[..k][..k - 1] == s[..k - 1];
      LastOfRange(s, n, k - 1);
    }
  }

  /** Each lane touches its lengths from the first to the last in order, and stops exactly
      once, at the last. */
  lemma LaneSwimsItsLengths(h: Heat, finish: real, ms: seq<Moment>, byPlace: bool, lane: int)
    requires Valid(h) && IsFinish(h, finish) && Timeline(h, finish, ms) && lane in h.seeds
    ensures var ls := Lengths(Race(ms, h.lengths, byPlace), lane);
      |ls| == h.lengths && forall i :: 0 <= i < h.lengths ==> ls[i] == i + 1
    ensures Stops(Race(ms, h.lengths, byPlace), lane) == [h.lengths]
  {
    hide Final, TouchTime, Lengths, Stops, Race, TouchesOf, LastOf, Before;
    var ls := TouchesOf(ms, lane);
    LengthsOfRace(ms, h.lengths, byPlace, lane);
    TouchesRise(h, ms, lane);
    TouchesAre(h, ms, lane);
    forall k | 1 <= k <= h.lengths
      ensures k in ls
    {
      assert IsMoment(h, finish, Touch(TouchTime(Final(h, lane), h.lengths, k), lane, k));
    }
    RisingToN(ls, h.lengths);
    LastOfRange(ls, h.lengths, |ls|);
    assert ls[..|ls|] == ls;
  }

  // ── The places ──

  function AsTouch(l: Line, n: nat): Moment {
    Touch(l.time, l.lane, n)
  }

  lemma {:induction false} FinishersPlaced(ms: seq<Moment>, n: nat)
    ensures var f := Finishers(ms, n);
      && (forall i :: 0 <= i < |f| ==> f[i].place == i + 1)
      && (forall l :: l in f ==> AsTouch(l, n) in ms)
    decreases |ms|
  {
    if ms != [] {
      var before, m := ms[..|ms| - 1], ms[|ms| - 1];
      assert m in ms && forall o :: o in before ==> o in ms;
      FinishersPlaced(before, n);
      var past, f := Finishers(before, n), Finishers(ms, n);
      forall i | 0 <= i < |f|
        ensures f[i].place == i + 1
      {
        if i < |past| { assert f[i] == past[i]; }
      }
    }
  }

  lemma {:induction false} FinishersInOrder(ms: seq<Moment>, n: nat)
    requires Ordered(ms)
    ensures InFinishOrder(Finishers(ms, n), n)
    decreases |ms|
  {
    hide Before;
    if ms != [] {
      var before, m := ms[..|ms| - 1], ms[|ms| - 1];
      FinishersInOrder(before, n);
      FinishersPlaced(before, n);
      var past := Finishers(before, n);
      forall i | 0 <= i < |past|
        ensures Before(AsTouch(past[i], n), m)
      {
        assert past[i] in past;
        var j :| 0 <= j < |before| && before[j] == AsTouch(past[i], n);
        assert Before(ms[j], m);
      }
    }
  }

  ghost predicate InFinishOrder(f: seq<Line>, n: nat) {
    forall i, j :: 0 <= i < j < |f| ==> Before(AsTouch(f[i], n), AsTouch(f[j], n))
  }

  lemma OrderIsByTime(f: seq<Line>, n: nat)
    requires InFinishOrder(f, n)
    ensures forall i, j :: 0 <= i < j < |f| ==> f[i].time < f[j].time || (f[i].time == f[j].time && f[i].lane < f[j].lane)
  {
    forall i, j | 0 <= i < j < |f|
      ensures f[i].time < f[j].time || (f[i].time == f[j].time && f[i].lane < f[j].lane)
    {
      assert Before(AsTouch(f[i], n), AsTouch(f[j], n));
    }
  }

  lemma {:induction false} FinishersComplete(ms: seq<Moment>, n: nat, m: Moment)
    requires m in ms && m.Touch? && m.length == n
    ensures exists i :: 0 <= i < |Finishers(ms, n)| && AsTouch(Finishers(ms, n)[i], n) == m
    decreases |ms|
  {
    var before := ms[..|ms| - 1];
    var past, f := Finishers(before, n), Finishers(ms, n);
    if ms[|ms| - 1] == m {
      assert AsTouch(f[|past|], n) == m;
    } else {
      assert ms == before + [ms[|ms| - 1]];
      FinishersComplete(before, n, m);
      var i :| 0 <= i < |past| && AsTouch(past[i], n) == m;
      assert f[i] == past[i];
    }
  }

  /** The places are 1, 2, … in the order of the final times, a tie going to the lower
      lane, and every lane has one, with its final. */
  lemma PlacesFollowFinals(h: Heat, finish: real, ms: seq<Moment>)
    requires Valid(h) && IsFinish(h, finish) && Timeline(h, finish, ms)
    ensures var f := Finishers(ms, h.lengths);
      && (forall i :: 0 <= i < |f| ==> f[i].place == i + 1 && f[i].lane in h.seeds && f[i].time == Final(h, f[i].lane))
      && (forall i, j :: 0 <= i < j < |f| ==>
        f[i].time < f[j].time || (f[i].time == f[j].time && f[i].lane < f[j].lane))
      && (forall lane :: lane in h.seeds ==> exists i :: 0 <= i < |f| && f[i].lane == lane)
  {
    hide Final, Weight, Portion, Before, InFinishOrder;
    FinishersPlaced(ms, h.lengths);
    FinishersInOrder(ms, h.lengths);
    var f := Finishers(ms, h.lengths);
    OrderIsByTime(f, h.lengths);
    forall i | 0 <= i < |f|
      ensures f[i].lane in h.seeds && f[i].time == Final(h, f[i].lane)
    {
      assert f[i] in f;
      assert IsMoment(h, finish, AsTouch(f[i], h.lengths));
    }
    forall lane | lane in h.seeds
      ensures exists i :: 0 <= i < |f| && f[i].lane == lane
    {
      var m := Touch(Final(h, lane), lane, h.lengths);
      assert IsMoment(h, finish, m);
      FinishersComplete(ms, h.lengths, m);
    }
  }

  /** The places the touch frames carry, each with its lane and time, in order. */
  function PlacesSent(ys: seq<Yield>): seq<Line> {
    if ys == [] then []
    else
      var f := ys[|ys| - 1].frame;
      PlacesSent(ys[..|ys| - 1])
      + (if f.Touched? && f.place.Some? then [Line(f.lane, f.place.value, f.time)] else [])
  }

  lemma PlacesAdd(a: seq<Yield>, b: seq<Yield>)
    requires 1 <= |b| <= 2 && (|b| == 2 ==> b[1].frame.Results?)
    ensures var f := b[0].frame;
      PlacesSent(a + b) == PlacesSent(a)
      + (if f.Touched? && f.place.Some? then [Line(f.lane, f.place.value, f.time)] else [])
  {
    assert (a + b)[..|a + b| - 1] == a + b[..|b| - 1];
    if |b| == 2 { assert (a + b[..1])[..|a|] == a; } else { assert a + b[..0] == a; }
  }

  /** A lane's last touch carries its place among the lanes home, and no other touch
      carries one. */
  lemma {:induction false} PlacesSentAreFinishers(ms: seq<Moment>, n: nat, byPlace: bool)
    ensures PlacesSent(Race(ms, n, byPlace)) == Finishers(ms, n)
    decreases |ms|
  {
    if ms != [] {
      hide PlacesSent, SortLines;
      var before, m := ms[..|ms| - 1], ms[|ms| - 1];
      PlacesSentAreFinishers(before, n, byPlace);
      PlacesAdd(Race(before, n, byPlace), Shown(before, m, n, byPlace));
    }
  }

  // ── The results ──

  function ResultsOf(ys: seq<Yield>): seq<seq<Line>> {
    if ys == [] then []
    else
      var f := ys[|ys| - 1].frame;
      ResultsOf(ys[..|ys| - 1]) + (if f.Results? then [f.lines] else [])
  }

  lemma ResultsAdd(a: seq<Yield>, b: seq<Yield>)
    requires 1 <= |b| <= 2 && !b[0].frame.Results?
    ensures ResultsOf(a + b) == ResultsOf(a) + (if |b| == 2 && b[1].frame.Results? then [b[1].frame.lines] else [])
  {
    assert (a + b)[..|a + b| - 1] == a + b[..|b| - 1];
    if |b| == 2 { assert (a + b[..1])[..|a|] == a; } else { assert a + b[..0] == a; }
  }

  /** What a moment adds to the lanes home and to the results shown. */
  lemma ResultsGrow(ms: seq<Moment>, m: Moment, n: nat, byPlace: bool)
    ensures var past, f := Finishers(ms, n), Finishers(ms + [m], n);
      && past <= f && |f| <= |past| + 1
      && ResultsOf(Race(ms + [m], n, byPlace)) ==
        ResultsOf(Race(ms, n, byPlace)) + (if |f| > |past| then [SortLines(f, byPlace)] else [])
  {
    hide SortLines;
    assert (ms + [m])[..|ms|] == ms;
    ResultsAdd(Race(ms, n, byPlace), Shown(ms, m, n, byPlace));
  }

  lemma {:induction false} ResultsAreSorted(ms: seq<Moment>, n: nat, byPlace: bool, j: nat)
    ensures var f, results := Finishers(ms, n), ResultsOf(Race(ms, n, byPlace));
      |results| == |f| && (j < |f| ==> results[j] == SortLines(f[..j + 1], byPlace))
    decreases |ms|
  {
    if ms == [] {
      NoResults(n, byPlace);
    } else {
      hide SortLines, Finishers, Race, ResultsOf;
      var before, m := ms[..|ms| - 1], ms[|ms| - 1];
      assert ms == before + [m];
      ResultsAreSorted(before, n, byPlace, j);
      ResultsGrow(before, m, n, byPlace);
      var past, f := Finishers(before, n), Finishers(ms, n);
      if j < |past| { assert f[..j + 1] == past[..j + 1]; } else if j < |f| { assert f[..j + 1] == f; }
    }
  }

  lemma NoResults(n: nat, byPlace: bool)
    ensures Finishers([], n) == [] && ResultsOf(Race([], n, byPlace)) == []
  {
  }

  /** The lines in the order asked for. */
  ghost predicate InOrder(lines: seq<Line>, byPlace: bool) {
    forall i :: 0 <= i < |lines| - 1 ==> Rank(lines[i], byPlace) <= Rank(lines[i + 1], byPlace)
  }

  lemma {:induction false} InsertLineOrders(l: Line, lines: seq<Line>, byPlace: bool)
    requires InOrder(lines, byPlace)
    ensures var out := InsertLine(l, lines, byPlace);
      InOrder(out, byPlace) && out != [] && (out[0] == l || (lines != [] && out[0] == lines[0]))
  {
    hide Rank;
    if lines != [] && !(Rank(l, byPlace) <= Rank(lines[0], byPlace)) {
      InsertLineOrders(l, lines[1..], byPlace);
    }
  }

  lemma {:induction false} InsertLineKeeps(l: Line, lines: seq<Line>, byPlace: bool)
    ensures multiset(InsertLine(l, lines, byPlace)) == multiset(lines) + multiset{l}
  {
    hide Rank;
    if lines != [] {
      assert lines == [lines[0]] + lines[1..];
      InsertLineKeeps(l, lines[1..], byPlace);
    }
  }

  lemma {:induction false} SortLinesOrders(lines: seq<Line>, byPlace: bool)
    ensures InOrder(SortLines(lines, byPlace), byPlace)
    ensures multiset(SortLines(lines, byPlace)) == multiset(lines)
  {
    hide InsertLine;
    if lines != [] {
      assert lines == [lines[0]] + lines[1..];
      SortLinesOrders(lines[1..], byPlace);
      InsertLineOrders(lines[0], SortLines(lines[1..], byPlace), byPlace);
      InsertLineKeeps(lines[0], SortLines(lines[1..], byPlace), byPlace);
    }
  }

  lemma {:induction false} SortByPlaceIsIdentity(lines: seq<Line>)
    requires InOrder(lines, true)
    ensures SortLines(lines, true) == lines
  {
    if lines != [] {
      assert lines == [lines[0]] + lines[1..];
      SortByPlaceIsIdentity(lines[1..]);
    }
  }

  /** The same lines, each as often. */
  ghost predicate SameLines(a: seq<Line>, b: seq<Line>) {
    multiset(a) == multiset(b)
  }

  /** There is one results snapshot a finisher, and the j-th holds exactly the first j
      finishers: by place in the order they came, otherwise by lane. */
  lemma SnapshotsAreFirstFinishers(ms: seq<Moment>, n: nat, byPlace: bool, j: nat)
    requires j < |Finishers(ms, n)|
    ensures var f, results := Finishers(ms, n), ResultsOf(Race(ms, n, byPlace));
      && |results| == |f|
      && SameLines(results[j], f[..j + 1])
      && InOrder(results[j], byPlace)
      && (byPlace ==> results[j] == f[..j + 1])
  {
    ResultsAreSorted(ms, n, byPlace, j);
    var first := Finishers(ms, n)[..j + 1];
    SortLinesOrders(first, byPlace);
    FinishersPlaced(ms, n);
    if byPlace { SortByPlaceIsIdentity(first); }
  }

  /** The frames of a heat: those of its touches and ticks, in order. */
  ghost predicate IsHeat(h: Heat, byPlace: bool, ys: seq<Yield>)
    requires Valid(h)
  {
    exists finish, ms :: IsFinish(h, finish) && Timeline(h, finish, ms) && ys == HeatOf(ms, h.lengths, byPlace)
  }

  /** The first of an ordered list is before everything else in it. */
  lemma FirstOf(a: seq<Moment>, m: Moment)
    requires Ordered(a) && m in a
    ensures a[0] == m || Before(a[0], m)
  {
    var k :| 0 <= k < |a| && a[k] == m;
  }

  lemma SameFirst(a: seq<Moment>, b: seq<Moment>)
    requires Ordered(a) && Ordered(b) && a != [] && b != [] && forall m :: m in a <==> m in b
    ensures a[0] == b[0]
  {
    hide Before, Ordered;
    assert a[0] in a && b[0] in b;
    FirstOf(a, b[0]);
    FirstOf(b, a[0]);
    NotBoth(a[0], b[0]);
  }

  lemma NotBoth(a: Moment, b: Moment)
    ensures !(Before(a, b) && Before(b, a))
  {
  }

  lemma {:induction false} OrderedIsUnique(a: seq<Moment>, b: seq<Moment>)
    requires Ordered(a) && Ordered(b) && forall m :: m in a <==> m in b
    ensures a == b
    decreases |a|
  {
    hide Before;
    assert (a == [] || a[0] in a) && (b == [] || b[0] in b);
    if a != [] && b != [] {
      SameFirst(a, b);
      var x, y := a[1..], b[1..];
      forall m
        ensures m in x <==> m in y
      {
        RestHas(a, m);
        RestHas(b, m);
      }
      OrderedIsUnique(x, y);
      assert a == [a[0]] + x && b == [b[0]] + y;
    }
  }

  lemma RestHas(a: seq<Moment>, m: Moment)
    requires Ordered(a) && a != []
    ensures m in a[1..] <==> m in a && m != a[0]
  {
    BeforeIsTotal(a[0], m, a[0]);
    if m in a[1..] {
      var k :| 0 <= k < |a| - 1 && a[1..][k] == m;
      assert Before(a[0], a[k + 1]);
    }
  }

  /** A heat has only one run of frames. */
  lemma HeatIsUnique(h: Heat, byPlace: bool, ys: seq<Yield>, zs: seq<Yield>)
    requires Valid(h) && IsHeat(h, byPlace, ys) && IsHeat(h, byPlace, zs)
    ensures ys == zs
  {
    hide Final, Race, IsMoment;
    var f, a :| IsFinish(h, f) && Timeline(h, f, a) && ys == HeatOf(a, h.lengths, byPlace);
    var g, b :| IsFinish(h, g) && Timeline(h, g, b) && zs == HeatOf(b, h.lengths, byPlace);
    assert f == g;
    OrderedIsUnique(a, b);
  }

  // ── Working the heat out ──

  ghost predicate Distinct(ms: seq<Moment>) {
    forall i, j :: 0 <= i < j < |ms| ==> ms[i] != ms[j]
  }

  lemma DistinctJoin(a: seq<Moment>, b: seq<Moment>)
    requires Distinct(a) && Distinct(b) && forall m :: m in a ==> m !in b
    ensures Distinct(a + b)
  {
    forall i, j | 0 <= i < j < |a + b|
      ensures (a + b)[i] != (a + b)[j]
    {
      if i < |a| && j >= |a| { assert a[i] in a && b[j - |a|] in b; }
    }
  }

  /** One lane's touches, length by length. */
  method LaneTouches(h: Heat, lane: int) returns (ms: seq<Moment>)
    requires Valid(h) && lane in h.seeds
    ensures Distinct(ms) && forall m :: m in ms <==> IsTouch(h, m) && m.lane == lane
  {
    var n := h.lengths;
    var final := Final(h, lane);
    hide Final, Portion;
    PortionsAdd(final, 0.0, 0.0, Weight(n));
    var at := 0.0;
    ms := [];
    for k := 1 to n + 1
      invariant at == Portion(final, Weight(k - 1), Weight(n))
      invariant |ms| == k - 1
      invariant forall i :: 0 <= i < |ms| ==> ms[i] == Touch(TouchTime(final, n, i + 1), lane, i + 1)
    {
      PortionsAdd(final, Weight(k - 1), LengthWeight(k), Weight(n));
      at := at + Portion(final, LengthWeight(k), Weight(n));
      ms := ms + [Touch(if k == n then final else at, lane, k)];
    }
    forall m | IsTouch(h, m) && m.lane == lane
      ensures m in ms
    {
      assert ms[m.length - 1] == m;
    }
  }

  /** Every lane's touches, and the slowest final. */
  method Touches(h: Heat) returns (ms: seq<Moment>, finish: real)
    requires Valid(h)
    ensures Distinct(ms) && forall m :: m in ms <==> IsTouch(h, m)
    ensures IsFinish(h, finish)
  {
    hide Final, TouchTime;
    ms, finish := [], 0.0;
    var todo := h.seeds.Keys;
    while todo != {}
      invariant todo <= h.seeds.Keys
      invariant Distinct(ms) && forall m :: m in ms <==> IsTouch(h, m) && m.lane !in todo
      invariant todo == h.seeds.Keys || exists lane :: lane in h.seeds && Final(h, lane) == finish
      invariant forall lane :: lane in h.seeds && lane !in todo ==> Final(h, lane) <= finish
      decreases |todo|
    {
      ghost var one := AnyOf(todo);
      var lane :| lane in todo;
      var more := LaneTouches(h, lane);
      DistinctJoin(ms, more);
      if todo == h.seeds.Keys || Final(h, lane) > finish { finish := Final(h, lane); }
      ms, todo := ms + more, todo - {lane};
    }
  }

  /** The clock's ticks, one a second until the slowest is home. */
  method Ticks(finish: real) returns (ms: seq<Moment>)
    requires finish > 0.0
    ensures Distinct(ms) && forall m :: m in ms <==> IsTick(finish, m)
  {
    var last := (finish / 100.0).Floor;
    ms := [];
    for j := 1 to last + 1
      invariant |ms| == j - 1 && forall i :: 0 <= i < |ms| ==> ms[i] == Tick(TickTime(i + 1))
    {
      ms := ms + [Tick(TickTime(j))];
    }
    forall m | IsTick(finish, m)
      ensures m in ms
    {
      var j: nat :| 1 <= j <= last && m.at == TickTime(j);
      assert ms[j - 1] == m;
    }
  }

  function InsertMoment(m: Moment, ms: seq<Moment>): seq<Moment> {
    if ms == [] || Before(m, ms[0]) then [m] + ms else [ms[0]] + InsertMoment(m, ms[1..])
  }

  function SortMoments(ms: seq<Moment>): seq<Moment> {
    if ms == [] then [] else InsertMoment(ms[0], SortMoments(ms[1..]))
  }

  lemma BeforeIsTotal(a: Moment, b: Moment, c: Moment)
    ensures a == b || Before(a, b) || Before(b, a)
    ensures Before(a, b) && Before(b, c) ==> Before(a, c)
  {
  }

  lemma {:induction false} InsertMomentOrders(m: Moment, ms: seq<Moment>)
    requires Ordered(ms) && m !in ms
    ensures Ordered(InsertMoment(m, ms)) && forall o :: o in InsertMoment(m, ms) <==> o == m || o in ms
  {
    hide Before;
    if ms != [] {
      if Before(m, ms[0]) {
        forall i | 1 <= i < |ms|
          ensures Before(m, ms[i])
        {
          BeforeIsTotal(m, ms[0], ms[i]);
        }
      } else {
        assert ms == [ms[0]] + ms[1..] && ms[0] in ms;
        InsertMomentOrders(m, ms[1..]);
        BeforeIsTotal(m, ms[0], m);
        var rest := InsertMoment(m, ms[1..]);
        forall o | o in rest
          ensures Before(ms[0], o)
        {
          if o != m {
            var i :| 0 <= i < |ms[1..]| && ms[1..][i] == o;
            assert o == ms[i + 1];
          }
        }
      }
    }
  }

  lemma {:induction false} SortMomentsOrders(ms: seq<Moment>)
    requires Distinct(ms)
    ensures Ordered(SortMoments(ms)) && forall o :: o in SortMoments(ms) <==> o in ms
  {
    if ms != [] {
      assert ms == [ms[0]] + ms[1..];
      SortMomentsOrders(ms[1..]);
      InsertMomentOrders(ms[0], SortMoments(ms[1..]));
    }
  }

  lemma RaceStarts(n: nat, byPlace: bool)
    ensures Race([], n, byPlace) == [] && Finishers([], n) == []
  {
  }

  lemma RaceGoesOn(ms: seq<Moment>, m: Moment, n: nat, byPlace: bool)
    ensures Race(ms + [m], n, byPlace) == Race(ms, n, byPlace) + Shown(ms, m, n, byPlace)
    ensures Finishers(ms + [m], n) == Finishers(ms, n)
      + (if m.Touch? && m.length == n then [Line(m.lane, |Finishers(ms, n)| + 1, m.at)] else [])
    ensures Now(ms + [m]) == m.at
  {
    hide SortLines, Shown;
    assert (ms + [m])[..|ms|] == ms;
  }

  /** The frames of the touches and ticks, in order. */
  method RaceFrames(ms: seq<Moment>, n: nat, byPlace: bool) returns (race: seq<Yield>)
    ensures race == Race(ms, n, byPlace)
  {
    hide SortLines, Race, Finishers;
    RaceStarts(n, byPlace);
    race := [];
    var finals, now := [], 0.0;
    for i := 0 to |ms|
      invariant race == Race(ms[..i], n, byPlace) && finals == Finishers(ms[..i], n) && now == Now(ms[..i])
    {
      var m := ms[i];
      assert ms[..i + 1] == ms[..i] + [m];
      RaceGoesOn(ms[..i], m, n, byPlace);
      var wait := (m.at - now) / 100.0;
      now := m.at;
      if m.Tick? {
        race := race + [Yield(wait, Clock(m.at))];
      } else if m.length == n {
        var place := |finals| + 1;
        finals := finals + [Line(m.lane, place, m.at)];
        race := race + [Yield(wait, Touched(m.at, m.lane, m.length, Some(place))),
                        Yield(0.0, Results(SortLines(finals, byPlace)))];
      } else {
        race := race + [Yield(wait, Touched(m.at, m.lane, m.length, None))];
      }
    }
    assert ms[..|ms|] == ms;
  }

  /** A heat's frames, with the time to wait before each. */
  method HeatFrames(h: Heat, byPlace: bool) returns (ys: seq<Yield>)
    requires Valid(h)
    ensures IsHeat(h, byPlace, ys)
  {
    hide Final, TouchTime;
    var touches, end := Touches(h);
    var ticks := Ticks(end);
    DistinctJoin(touches, ticks);
    SortMomentsOrders(touches + ticks);
    var ms := SortMoments(touches + ticks);
    assert IsFinish(h, end) && Timeline(h, end, ms);
    var race := RaceFrames(ms, h.lengths, byPlace);
    ys := [Yield(0.0, NextHeats), Yield(0.0, Board), Yield(PRE_START, Start)] + race + [Yield(RESULTS_HOLD, Hold)];
  }
}
