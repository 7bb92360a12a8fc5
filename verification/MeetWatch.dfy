/** One live meet's console as its followers' notifications see it: which heat is on it,
    when it settled there, and when the heats after it should start. Times are seconds. */
module MeetWatch {
  import opened Text

  const DEFAULT_CHANGEOVER := 45.0
  const CHANGEOVER_MIN := 15.0
  const CHANGEOVER_MAX := 180.0
  const BREAK := 600.0

  datatype Lane = Lane(lane: Option<int>, name: string, club: string, swimmers: seq<string>)

  /** A heat of the meet; its index is its place in the running order. `date` is "" when
      not known, `swim` how long it should take. */
  datatype Heat = Heat(
    event: int, heat: int, date: string, scheduled: Option<real>, swim: Option<real>, lanes: seq<Lane>)

  datatype Key = Key(event: int, heat: int)

  /** A change still inside its hold. */
  datatype Pending = Pending(key: Key, at: real)

  datatype Watch = Watch(
    heats: seq<Heat>, current: Option<nat>, pending: Option<Pending>,
    selectedAt: map<nat, real>, startedAt: map<nat, real>)

  predicate Valid(w: Watch) {
    && (w.current.Some? ==> w.current.value < |w.heats|)
    && (forall i :: i in w.selectedAt ==> i < |w.heats|)
    && (forall i :: i in w.startedAt ==> i < |w.heats|)
  }

  /** A frame as far as this goes: the numbers it carries, and whether a lane runs. */
  datatype Frame = Frame(event: Option<int>, heat: Option<int>, running: bool)

  predicate Names(f: Frame) {
    f.event.Some? && f.event.value != 0 && f.heat.Some?
  }

  function KeyOf(h: Heat): Key {
    Key(h.event, h.heat)
  }

  function Named(f: Frame): Key
    requires Names(f)
  {
    Key(f.event.value, f.heat.value)
  }

  /** The last heat in running order with this event and heat number. */
  function ByKey(heats: seq<Heat>, k: Key): (r: Option<nat>)
    ensures r.Some? ==> r.value < |heats| && KeyOf(heats[r.value]) == k
    ensures r.Some? ==> forall j :: r.value < j < |heats| ==> KeyOf(heats[j]) != k
    ensures r.None? ==> forall h :: h in heats ==> KeyOf(h) != k
  {
    if heats == [] then None
    else if KeyOf(heats[|heats| - 1]) == k then Some(|heats| - 1)
    else ByKey(heats[..|heats| - 1], k)
  }

  function CurrentKey(w: Watch): Option<Key>
    requires Valid(w)
  {
    if w.current.Some? then Some(KeyOf(w.heats[w.current.value])) else None
  }

  // ── Reading frames ──

  function Framed(w: Watch, f: Frame, now: real): (u: Watch)
    requires Valid(w)
    ensures Valid(u) && u.heats == w.heats && u.current == w.current
  {
    var pending :=
      if !Names(f) then w.pending
      else if CurrentKey(w) == Some(Named(f)) then None
      else if w.pending.Some? && w.pending.value.key == Named(f) then w.pending
      else Some(Pending(Named(f), now));
    var started :=
      if w.current.Some? && w.current.value !in w.startedAt && f.running
      then w.startedAt[w.current.value := now] else w.startedAt;
    w.(pending := pending, startedAt := started)
  }

  predicate Matured(w: Watch, now: real, hold: real) {
    w.pending.Some? && now - w.pending.value.at >= hold
  }

  function Settled(w: Watch, now: real, hold: real): (u: Watch)
    requires Valid(w)
    ensures Valid(u) && u.heats == w.heats
  {
    if !Matured(w, now, hold) then w
    else
      var i := ByKey(w.heats, w.pending.value.key);
      if i.None? then w.(pending := None)
      else
        w.(pending := None, current := i,
           selectedAt := if i.value in w.selectedAt then w.selectedAt
                         else w.selectedAt[i.value := w.pending.value.at])
  }

  /** The heat a settle reports: the one it moved to, if that is further on. */
  function Reported(w: Watch, now: real, hold: real): Option<nat>
    requires Valid(w)
  {
    if !Matured(w, now, hold) then None
    else
      var i := ByKey(w.heats, w.pending.value.key);
      if i.Some? && (w.current.None? || i.value > w.current.value) then i else None
  }

  // ── Runs ──

  datatype Event = Read(frame: Frame, at: real) | Settle(at: real, hold: real)

  ghost function Next(w: Watch, e: Event): (u: Watch)
    requires Valid(w)
    ensures Valid(u) && u.heats == w.heats
  {
    match e
    case Read(f, at) => Framed(w, f, at)
    case Settle(at, hold) => Settled(w, at, hold)
  }

  ghost function Run(w: Watch, events: seq<Event>): (u: Watch)
    requires Valid(w)
    ensures Valid(u) && u.heats == w.heats
    decreases |events|
  {
    if events == [] then w else Next(Run(w, events[..|events| - 1]), events[|events| - 1])
  }

  ghost predicate InOrder(events: seq<Event>) {
    forall i, j :: 0 <= i < j < |events| ==> events[i].at <= events[j].at
  }

  /** The heat the console has named ever since, and from when. */
  ghost function Rest(events: seq<Event>): Option<Pending>
    decreases |events|
  {
    if events == [] then None
    else
      var e, before := events[|events| - 1], Rest(events[..|events| - 1]);
      if e.Settle? || !Names(e.frame) then before
      else if before.Some? && before.value.key == Named(e.frame) then before
      else Some(Pending(Named(e.frame), e.at))
  }

  /** A rest is what it says: a frame named the heat then, and every frame since that
      named one named the same. */
  lemma {:induction false} RestMeaning(events: seq<Event>) returns (i: nat)
    requires Rest(events).Some?
    ensures i < |events| && events[i].Read? && Names(events[i].frame)
    ensures Named(events[i].frame) == Rest(events).value.key && events[i].at == Rest(events).value.at
    ensures forall j :: i <= j < |events| && events[j].Read? && Names(events[j].frame) ==>
      Named(events[j].frame) == Rest(events).value.key
    decreases |events|
  {
    var n := |events| - 1;
    var e, before := events[n], events[..n];
    if e.Settle? || !Names(e.frame) || (Rest(before).Some? && Rest(before).value.key == Named(e.frame)) {
      i := RestMeaning(before);
      assert forall j :: i <= j < n ==> before[j] == events[j];
    } else {
      i := n;
    }
  }

  lemma {:induction false} RestIsPast(events: seq<Event>, now: real)
    requires InOrder(events) && Rest(events).Some?
    requires events[|events| - 1].at <= now
    ensures Rest(events).value.at <= now
  {
    var i := RestMeaning(events);
  }

  /** A change being held is the heat the console rests on, and has been held no longer. */
  lemma {:induction false} HeldIsRest(w: Watch, events: seq<Event>)
    requires Valid(w) && w.pending.None? && InOrder(events)
    ensures var u := Run(w, events);
      u.pending.Some? ==>
        Rest(events).Some? && Rest(events).value.key == u.pending.value.key && Rest(events).value.at <= u.pending.value.at
    decreases |events|
  {
    if events != [] {
      var n := |events| - 1;
      var before := events[..n];
      HeldIsRest(w, before);
      if Rest(before).Some? { RestIsPast(before, events[n].at); }
    }
  }

  /** A heat a settle reports has been on the console, alone, for at least the hold, and
      comes after the one before; a console that never rests that long reports none. */
  lemma ReportedHasRested(w: Watch, events: seq<Event>, now: real, hold: real)
    requires Valid(w) && w.pending.None? && InOrder(events)
    ensures var u := Run(w, events);
      Reported(u, now, hold).Some? ==>
        && Rest(events).Some? && now - Rest(events).value.at >= hold
        && KeyOf(w.heats[Reported(u, now, hold).value]) == Rest(events).value.key
        && (u.current.Some? ==> u.current.value < Reported(u, now, hold).value)
        && Settled(u, now, hold).current == Reported(u, now, hold)
  {
    HeldIsRest(w, events);
  }

  /** The events keep the console on `k`: frames that name it or nothing, and settles too
      early to promote it. */
  ghost predicate StaysOn(events: seq<Event>, k: Key, since: real) {
    forall e :: e in events ==>
      if e.Read? then Names(e.frame) ==> Named(e.frame) == k else e.at - since < e.hold
  }

  lemma {:induction false} RestIsHeld(w: Watch, k: Key, events: seq<Event>)
    requires Valid(w) && w.pending.Some? && w.pending.value.key == k && CurrentKey(w) != Some(k)
    requires StaysOn(events, k, w.pending.value.at)
    ensures Run(w, events).pending == w.pending && Run(w, events).current == w.current
    decreases |events|
  {
    if events != [] {
      var before := events[..|events| - 1];
      assert forall e :: e in before ==> e in events;
      RestIsHeld(w, k, before);
      assert events[|events| - 1] in events;
    }
  }

  /** Conversely a heat of the meet, further on, that the console names and stays on for
      the hold is reported by the first settle from then. */
  lemma RestedIsReported(w: Watch, f: Frame, at: real, events: seq<Event>, now: real, hold: real)
    requires Valid(w) && Names(f) && CurrentKey(w) != Some(Named(f))
    requires w.pending.Some? && w.pending.value.key == Named(f) ==> w.pending.value.at <= at
    requires StaysOn(events, Named(f), Framed(w, f, at).pending.value.at) && now - at >= hold
    ensures Reported(Run(Framed(w, f, at), events), now, hold)
      == var i := ByKey(w.heats, Named(f));
         if i.Some? && (w.current.None? || i.value > w.current.value) then i else None
  {
    RestIsHeld(Framed(w, f, at), Named(f), events);
  }

  // ── When heats were selected and started ──

  /** What was noted of a heat is never noted again. */
  lemma {:induction false} TimesStand(w: Watch, events: seq<Event>, i: nat)
    requires Valid(w)
    ensures i in w.startedAt ==> i in Run(w, events).startedAt && Run(w, events).startedAt[i] == w.startedAt[i]
    ensures i in w.selectedAt ==> i in Run(w, events).selectedAt && Run(w, events).selectedAt[i] == w.selectedAt[i]
    decreases |events|
  {
    if events != [] { TimesStand(w, events[..|events| - 1], i); }
  }

  /** Event `k` reads a frame with a lane running while heat `i` is the current one. */
  ghost predicate RunsAt(w: Watch, events: seq<Event>, i: nat, k: nat)
    requires Valid(w)
  {
    && k < |events| && events[k].Read? && events[k].frame.running
    && Run(w, events[..k]).current == Some(i)
  }

  /** A heat's start is the first frame with a lane running while it was the current one. */
  lemma {:induction false} StartIsFirstRunning(w: Watch, events: seq<Event>, i: nat) returns (k: nat)
    requires Valid(w) && i !in w.startedAt && i in Run(w, events).startedAt
    ensures RunsAt(w, events, i, k) && events[k].at == Run(w, events).startedAt[i]
    ensures forall j :: 0 <= j < k ==> !RunsAt(w, events, i, j)
    decreases |events|
  {
    hide Next;
    var n := |events| - 1;
    var before := events[..n];
    if i in Run(w, before).startedAt {
      k := StartIsFirstRunning(w, before, i);
      TimesStand(Run(w, before), [events[n]], i);
      NextIsRun(Run(w, before), events[n]);
      forall j | 0 <= j <= k ensures RunsAt(w, before, i, j) == RunsAt(w, events, i, j) {
        assert before[..j] == events[..j];
      }
    } else {
      k := n;
      StartIsNoted(Run(w, before), events[n], i);
      forall j | 0 <= j < n ensures !RunsAt(w, events, i, j) {
        assert before[..j] == events[..j];
        if RunsAt(w, before, i, j) { NotedOnceRunning(w, before, i, j); }
      }
    }
  }

  lemma NextIsRun(w: Watch, e: Event)
    requires Valid(w)
    ensures Run(w, [e]) == Next(w, e)
  {
    hide Next;
    assert [e][..0] == [];
  }

  /** A frame with a lane running notes the start of the current heat, and nothing else
      notes one. */
  lemma StartIsNoted(w: Watch, e: Event, i: nat)
    requires Valid(w) && i !in w.startedAt
    ensures i in Next(w, e).startedAt <==> (e.Read? && e.frame.running && w.current == Some(i))
    ensures i in Next(w, e).startedAt ==> Next(w, e).startedAt[i] == e.at
  {
  }

  lemma NotedOnceRunning(w: Watch, events: seq<Event>, i: nat, j: nat)
    requires Valid(w) && RunsAt(w, events, i, j)
    ensures i in Run(w, events).startedAt
  {
    var next := events[..j + 1];
    assert next[..j] == events[..j] && next + events[j + 1..] == events;
    RunOn(w, next, events[j + 1..]);
    if i !in Run(w, events[..j]).startedAt { StartIsNoted(Run(w, events[..j]), events[j], i); }
    TimesStand(Run(w, events[..j]), [events[j]], i);
    NextIsRun(Run(w, events[..j]), events[j]);
    hide Next;
    TimesStand(Run(w, next), events[j + 1..], i);
  }

  lemma {:induction false} RunOn(w: Watch, a: seq<Event>, b: seq<Event>)
    requires Valid(w)
    ensures Run(w, a + b) == Run(Run(w, a), b)
    decreases |b|
  {
    if b == [] {
      assert a + b == a;
    } else {
      assert (a + b)[..|a + b| - 1] == a + b[..|b| - 1];
      RunOn(w, a, b[..|b| - 1]);
    }
  }

  /** A heat's selection is when the console came to rest on it the first time it settled
      there. */
  lemma {:induction false} SelectionIsItsRest(w: Watch, events: seq<Event>, i: nat) returns (k: nat)
    requires Valid(w) && i !in w.selectedAt && i in Run(w, events).selectedAt
    ensures k < |events| && events[k].Settle?
    ensures var before := Run(w, events[..k]);
      before.pending.Some? && before.pending.value.at == Run(w, events).selectedAt[i]
      && before.pending.value.key == KeyOf(w.heats[i])
    decreases |events|
  {
    var n := |events| - 1;
    var before := events[..n];
    if i in Run(w, before).selectedAt {
      k := SelectionIsItsRest(w, before, i);
      assert before[..k] == events[..k];
    } else {
      k := n;
    }
  }

  // ── The estimate ──

  predicate Given(v: Option<real>) {
    v.Some? && v.value != 0.0
  }

  /** The next heat after `i` that has a swim. */
  function NextSwum(heats: seq<Heat>, i: nat): (r: Option<nat>)
    ensures r.Some? ==> i < r.value < |heats| && Given(heats[r.value].swim)
    decreases |heats| - i
  {
    if i + 1 >= |heats| then None
    else if Given(heats[i + 1].swim) then Some(i + 1)
    else NextSwum(heats, i + 1)
  }

  /** What the meet spent between heat `i` and the next, beyond its swim: None when one
      of them has not started, or a break came between. */
  function GapAfter(w: Watch, i: nat): Option<real>
    requires i < |w.heats|
  {
    var next := NextSwum(w.heats, i);
    if i !in w.startedAt || next.None? || next.value !in w.startedAt || !Given(w.heats[i].swim) then None
    else
      var gap := w.startedAt[next.value] - w.startedAt[i];
      if 0.0 < gap < BREAK then Some(gap - w.heats[i].swim.value) else None
  }

  function Gaps(w: Watch, n: nat): seq<real>
    requires n <= |w.heats|
  {
    if n == 0 then []
    else Gaps(w, n - 1) + (if GapAfter(w, n - 1).Some? then [GapAfter(w, n - 1).value] else [])
  }

  function Insert(x: real, s: seq<real>): (r: seq<real>)
    ensures |r| == |s| + 1
  {
    if s == [] || x <= s[0] then [x] + s else [s[0]] + Insert(x, s[1..])
  }

  function Ordered(s: seq<real>): (r: seq<real>)
    ensures |r| == |s|
  {
    if s == [] then [] else Insert(s[0], Ordered(s[1..]))
  }

  function Median(s: seq<real>): real
    requires s != []
  {
    var o := Ordered(s);
    if |o| % 2 == 1 then o[|o| / 2] else (o[|o| / 2 - 1] + o[|o| / 2]) / 2.0
  }

  ghost predicate Rising(s: seq<real>) {
    forall i :: 0 <= i < |s| - 1 ==> s[i] <= s[i + 1]
  }

  lemma {:induction false} InsertKeepsOrder(x: real, s: seq<real>)
    requires Rising(s)
    ensures var r := Insert(x, s);
      Rising(r) && multiset(r) == multiset(s) + multiset{x} && (r[0] == x || (s != [] && r[0] == s[0]))
  {
    if s != [] && !(x <= s[0]) {
      InsertKeepsOrder(x, s[1..]);
      assert s == [s[0]] + s[1..];
    }
  }

  lemma {:induction false} OrderedIsSorted(s: seq<real>)
    ensures Rising(Ordered(s)) && multiset(Ordered(s)) == multiset(s)
  {
    if s != [] {
      OrderedIsSorted(s[1..]);
      InsertKeepsOrder(s[0], Ordered(s[1..]));
      assert s == [s[0]] + s[1..];
    }
  }

  lemma {:induction false} RisingFar(s: seq<real>, i: nat, j: nat)
    requires Rising(s) && i <= j < |s|
    ensures s[i] <= s[j]
    decreases j
  {
    if i < j { RisingFar(s, i, j - 1); }
  }

  /** The median has the lower half of the values at or below it and the upper half at or
      above, and lies between the two middle ones. */
  lemma MedianIsMiddle(s: seq<real>)
    requires s != []
    ensures var o := Ordered(s);
      && Rising(o) && multiset(o) == multiset(s) && |o| == |s|
      && (forall i :: 0 <= i <= (|o| - 1) / 2 ==> o[i] <= Median(s))
      && (forall i :: |o| / 2 <= i < |o| ==> Median(s) <= o[i])
      && o[(|o| - 1) / 2] + o[|o| / 2] == 2.0 * Median(s)
  {
    OrderedIsSorted(s);
    hide Ordered, Rising;
    var o := Ordered(s);
    RisingFar(o, (|o| - 1) / 2, |o| / 2);
    forall i | 0 <= i <= (|o| - 1) / 2
      ensures o[i] <= Median(s)
    {
      RisingFar(o, i, (|o| - 1) / 2);
    }
    forall i | |o| / 2 <= i < |o|
      ensures Median(s) <= o[i]
    {
      RisingFar(o, |o| / 2, i);
    }
  }

  function Clamp(x: real): (r: real)
    ensures CHANGEOVER_MIN <= r <= CHANGEOVER_MAX
  {
    if x < CHANGEOVER_MIN then CHANGEOVER_MIN else if x > CHANGEOVER_MAX then CHANGEOVER_MAX else x
  }

  /** The changeover learned from the meet's last eight, or the default. */
  function Changeover(w: Watch): (c: real)
    ensures CHANGEOVER_MIN <= c <= CHANGEOVER_MAX
  {
    var gaps := Gaps(w, |w.heats|);
    if gaps == [] then DEFAULT_CHANGEOVER
    else Clamp(Median(if |gaps| > 8 then gaps[|gaps| - 8..] else gaps))
  }

  /** The time heats `from` up to `until` take, each followed by a changeover. */
  function SwimTime(heats: seq<Heat>, from: nat, until: nat, change: real): real
    requires from <= until <= |heats|
    decreases until
  {
    if from == until then 0.0
    else SwimTime(heats, from, until - 1, change)
         + (if Given(heats[until - 1].swim) then heats[until - 1].swim.value + change else 0.0)
  }

  /** When the current heat began: its start, or the moment it was selected, not past. */
  function Base(w: Watch, now: real): real
    requires w.current.Some?
  {
    var c := w.current.value;
    if c in w.startedAt then w.startedAt[c]
    else
      var selected := if c in w.selectedAt then w.selectedAt[c] else now;
      if now > selected then now else selected
  }

  function Eta(w: Watch, i: nat, now: real, today: string): Option<real>
    requires Valid(w) && i < |w.heats|
  {
    var h := w.heats[i];
    if w.current.None? || (w.heats[w.current.value].date != "" && today != "" && w.heats[w.current.value].date != today) then
      if Given(h.scheduled) && h.date == today then h.scheduled else None
    else
      var c := w.current.value;
      var cur := w.heats[c];
      if i <= c then None
      else if h.date != "" && cur.date != "" && h.date != cur.date then h.scheduled
      else if Given(h.scheduled) && Given(cur.scheduled) then
        Some(h.scheduled.value + (Base(w, now) - cur.scheduled.value))
      else
        var total := Base(w, now) + SwimTime(w.heats, c, i, Changeover(w));
        Some(if total > now then total else now)
  }

  /** Every heat is of one day, the one the console is at. */
  predicate OneDay(w: Watch, today: string)
    requires Valid(w)
  {
    w.current.Some? && (today == "" || w.heats[w.current.value].date in ["", today])
    && forall i, j :: 0 <= i < |w.heats| && 0 <= j < |w.heats| ==> w.heats[i].date == w.heats[j].date
  }

  predicate SwimsPositive(w: Watch) {
    forall h :: h in w.heats && h.swim.Some? ==> h.swim.value >= 0.0
  }

  lemma {:induction false} SwimTimeGrows(heats: seq<Heat>, from: nat, until: nat, later: nat, change: real)
    requires from <= until <= later <= |heats| && change >= 0.0
    requires forall h :: h in heats && h.swim.Some? ==> h.swim.value >= 0.0
    ensures SwimTime(heats, from, until, change) <= SwimTime(heats, from, later, change)
    decreases later
  {
    if until < later {
      SwimTimeGrows(heats, from, until, later - 1, change);
      assert heats[later - 1] in heats;
    }
  }

  /** While the current heat has no scheduled time, the estimate never goes back along
      the running order and never lies in the past. */
  lemma EtaFollowsRunningOrder(w: Watch, i: nat, j: nat, now: real, today: string)
    requires Valid(w) && OneDay(w, today) && SwimsPositive(w)
    requires !Given(w.heats[w.current.value].scheduled)
    requires w.current.value < i <= j < |w.heats|
    ensures Eta(w, i, now, today).Some? && Eta(w, j, now, today).Some?
    ensures now <= Eta(w, i, now, today).value <= Eta(w, j, now, today).value
  {
    SwimTimeGrows(w.heats, w.current.value, i, j, Changeover(w));
  }

  /** Whole sums of the swims that count and their changeovers, heat after heat. */
  ghost predicate Sums(heats: seq<Heat>, from: nat, change: real, sums: seq<real>) {
    sums != [] && from + |sums| - 1 <= |heats|
    && forall k :: 0 <= k < |sums| - 1 ==>
      sums[k + 1] == sums[k] + (match heats[from + k].swim case None => 0.0 case Some(t) => if t == 0.0 then 0.0 else t + change)
  }

  /** Running sums that start at `start` and end with the heats' swim time on top of it. */
  ghost predicate SumsTo(heats: seq<Heat>, from: nat, until: nat, change: real, start: real, sums: seq<real>)
    requires from <= until <= |heats|
  {
    && Sums(heats, from, change, sums) && |sums| == until - from + 1 && sums[0] == start
    && sums[until - from] == start + SwimTime(heats, from, until, change)
  }

  lemma {:induction false} SumsOf(heats: seq<Heat>, from: nat, until: nat, change: real, start: real)
    requires from <= until <= |heats|
    ensures exists sums :: SumsTo(heats, from, until, change, start, sums)
    decreases until
  {
    if from == until {
      assert SumsTo(heats, from, until, change, start, [start]);
    } else {
      SumsOf(heats, from, until - 1, change, start);
      var before :| SumsTo(heats, from, until - 1, change, start, before);
      assert SumsTo(heats, from, until, change, start, before + [start + SwimTime(heats, from, until, change)]);
    }
  }

  /** How late the current heat began, against its schedule: its start, or before that the
      later of now and when the console came to it. */
  predicate BeganAt(w: Watch, now: real, at: real)
    requires w.current.Some?
  {
    var c := w.current.value;
    if c in w.startedAt then at == w.startedAt[c]
    else if c in w.selectedAt && w.selectedAt[c] > now then at == w.selectedAt[c]
    else at == now
  }

  /** A scheduled heat is expected as late as the current one, when that has a time too. */
  lemma EtaKeepsLateness(w: Watch, i: nat, now: real, today: string, began: real)
    requires Valid(w) && OneDay(w, today) && w.current.value < i < |w.heats| && BeganAt(w, now, began)
    requires Given(w.heats[w.current.value].scheduled) && Given(w.heats[i].scheduled)
    ensures Eta(w, i, now, today).Some?
    ensures Eta(w, i, now, today).value - w.heats[i].scheduled.value == began - w.heats[w.current.value].scheduled.value
  {
  }

  /** Where one of them has none it is expected once every heat from the current one on has
      swum and changed over, and never before now. */
  lemma EtaSumsSwims(w: Watch, i: nat, now: real, today: string, began: real) returns (sums: seq<real>)
    requires Valid(w) && OneDay(w, today) && w.current.value < i < |w.heats| && BeganAt(w, now, began)
    requires !(Given(w.heats[w.current.value].scheduled) && Given(w.heats[i].scheduled))
    ensures Sums(w.heats, w.current.value, Changeover(w), sums) && |sums| == i - w.current.value + 1 && sums[0] == began
    ensures Eta(w, i, now, today) == Some(if sums[i - w.current.value] > now then sums[i - w.current.value] else now)
  {
    SumsOf(w.heats, w.current.value, i, Changeover(w), began);
    sums :| SumsTo(w.heats, w.current.value, i, Changeover(w), began, sums);
  }

  /** On another day no lateness carries over; before the day's first heat, and on any other
      day than today's, only what is scheduled today is expected; and nothing that the
      console has reached. */
  lemma EtaOnOtherDays(w: Watch, i: nat, now: real, today: string)
    requires Valid(w) && i < |w.heats|
    ensures var h := w.heats[i]; var eta := Eta(w, i, now, today);
      && (w.current.None? ==> eta == if Given(h.scheduled) && h.date == today then h.scheduled else None)
      && (w.current.Some? ==>
        var cur := w.heats[w.current.value];
        var today' := cur.date == "" || today == "" || cur.date == today;
        && (!today' ==> eta == if Given(h.scheduled) && h.date == today then h.scheduled else None)
        && (today' && i <= w.current.value ==> eta == None)
        && (today' && i > w.current.value && h.date != "" && cur.date != "" && h.date != cur.date ==> eta == h.scheduled))
  {
  }

  // ── The changeover ──

  /** Heat `j` is the next after `i` that has a swim. */
  ghost predicate NextIs(heats: seq<Heat>, i: nat, j: nat) {
    i < j < |heats| && Given(heats[j].swim) && forall k :: i < k < j ==> !Given(heats[k].swim)
  }

  lemma {:induction false} NextSwumIs(heats: seq<Heat>, i: nat, j: nat)
    ensures NextSwum(heats, i) == Some(j) <==> NextIs(heats, i, j)
    decreases |heats| - i
  {
    if i + 1 < |heats| && !Given(heats[i + 1].swim) {
      NextSwumIs(heats, i + 1, j);
      assert NextIs(heats, i, j) <==> NextIs(heats, i + 1, j);
    }
  }

  /** A changeover counts between a heat with a swim and the next one with a swim where both
      began, the later less than ten minutes after: it is what was left beyond the swim. A
      longer time is a break and teaches nothing. */
  lemma GapIs(w: Watch, i: nat, gap: real)
    requires i < |w.heats|
    ensures GapAfter(w, i) == Some(gap) <==>
      exists j :: NextIs(w.heats, i, j) && i in w.startedAt && j in w.startedAt && Given(w.heats[i].swim)
        && w.startedAt[i] < w.startedAt[j] < w.startedAt[i] + 600.0
        && w.startedAt[j] == w.startedAt[i] + w.heats[i].swim.value + gap
  {
    var next := NextSwum(w.heats, i);
    if next.Some? { NextSwumIs(w.heats, i, next.value); }
    if j :| NextIs(w.heats, i, j) { NextSwumIs(w.heats, i, j); }
  }

  /** Heats 0 to n have begun, each a swim and `x` after the one before. */
  ghost predicate Steady(w: Watch, n: nat, x: real) {
    && n < |w.heats|
    && (forall i :: 0 <= i < |w.heats| ==> (i in w.startedAt <==> i <= n) && w.heats[i].swim.Some? && w.heats[i].swim.value > 0.0)
    && (forall i :: 0 <= i < n ==>
      w.startedAt[i + 1] == w.startedAt[i] + w.heats[i].swim.value + x && 0.0 < w.heats[i].swim.value + x < 600.0)
  }

  ghost predicate AllAre(s: seq<real>, x: real) {
    forall i :: 0 <= i < |s| ==> s[i] == x
  }

  lemma SteadyGap(w: Watch, n: nat, x: real, i: nat)
    requires Steady(w, n, x) && i < |w.heats|
    ensures GapAfter(w, i) == if i < n then Some(x) else None
  {
    if i + 1 < |w.heats| { assert NextSwum(w.heats, i) == Some(i + 1); }
  }

  lemma {:induction false} SteadyGaps(w: Watch, n: nat, x: real, k: nat)
    requires Steady(w, n, x) && k <= |w.heats|
    ensures AllAre(Gaps(w, k), x) && |Gaps(w, k)| == if k < n then k else n
    decreases k
  {
    hide GapAfter, Steady;
    if k > 0 {
      SteadyGaps(w, n, x, k - 1);
      SteadyGap(w, n, x, k - 1);
    }
  }

  lemma {:induction false} OrderedOfAlike(s: seq<real>, x: real)
    requires AllAre(s, x)
    ensures AllAre(Ordered(s), x)
    decreases |s|
  {
    if s != [] {
      OrderedOfAlike(s[1..], x);
    }
  }

  lemma MedianOfAlike(s: seq<real>, x: real)
    requires s != [] && AllAre(s, x)
    ensures Median(s) == x
  {
    OrderedOfAlike(s, x);
  }

  /** A meet that changes over in a steady time is expected to go on so, within the range
      allowed; one that has not got to its second heat, by the default. */
  lemma SteadyMeetIsLearned(w: Watch, n: nat, x: real)
    requires Steady(w, n, x)
    ensures Changeover(w) ==
      if n == 0 then 45.0 else if x < 15.0 then 15.0 else if x > 180.0 then 180.0 else x
  {
    SteadyGaps(w, n, x, |w.heats|);
    var gaps := Gaps(w, |w.heats|);
    if gaps != [] { MedianOfAlike(if |gaps| > 8 then gaps[|gaps| - 8..] else gaps, x); }
  }

  /** Only the last eight changeovers count. */
  lemma LastEightDecide(w: Watch, v: Watch)
    requires Valid(w) && Valid(v)
    requires var a, b := Gaps(w, |w.heats|), Gaps(v, |v.heats|);
      |a| >= 8 && |b| >= 8 && a[|a| - 8..] == b[|b| - 8..]
    ensures Changeover(w) == Changeover(v)
  {
    var a, b := Gaps(w, |w.heats|), Gaps(v, |v.heats|);
    assert |a| == 8 ==> a[|a| - 8..] == a;
    assert |b| == 8 ==> b[|b| - 8..] == b;
    hide Gaps, Median;
  }

  /** Between heats with scheduled times it differs as the schedule does. */
  lemma EtaFollowsSchedule(w: Watch, i: nat, j: nat, now: real, today: string)
    requires Valid(w) && OneDay(w, today)
    requires Given(w.heats[w.current.value].scheduled)
    requires w.current.value < i < |w.heats| && w.current.value < j < |w.heats|
    requires Given(w.heats[i].scheduled) && Given(w.heats[j].scheduled)
    ensures Eta(w, i, now, today).Some? && Eta(w, j, now, today).Some?
    ensures Eta(w, j, now, today).value - Eta(w, i, now, today).value
      == w.heats[j].scheduled.value - w.heats[i].scheduled.value
  {
  }

  // ── Leads ──

  /** Heats with swimmers after the current one, up to heat `i`. */
  function CountSwum(heats: seq<Heat>, from: nat, until: nat): nat
    requires from <= until <= |heats|
    decreases until
  {
    if from == until then 0
    else CountSwum(heats, from, until - 1) + (if heats[until - 1].lanes != [] then 1 else 0)
  }

  function HeatsAhead(w: Watch, i: nat): Option<nat>
    requires Valid(w) && i < |w.heats|
  {
    if w.current.None? || i <= w.current.value then None
    else Some(CountSwum(w.heats, w.current.value + 1, i + 1))
  }

  /** The heats with swimmers from `from` on, in order. */
  function SwumFrom(heats: seq<Heat>, from: nat, until: nat): (r: seq<nat>)
    requires from <= until <= |heats|
    ensures |r| == CountSwum(heats, from, until)
    decreases until
  {
    if from == until then []
    else SwumFrom(heats, from, until - 1) + (if heats[until - 1].lanes != [] then [until - 1] else [])
  }

  lemma {:induction false} SwumFromIs(heats: seq<Heat>, from: nat, until: nat)
    requires from <= until <= |heats|
    ensures forall i :: i in SwumFrom(heats, from, until) <==> from <= i < until && heats[i].lanes != []
    decreases until
  {
    if from < until { SwumFromIs(heats, from, until - 1); }
  }

  ghost predicate Climbing(s: seq<nat>) {
    forall k, m :: 0 <= k < m < |s| ==> s[k] < s[m]
  }

  lemma ClimbsOn(s: seq<nat>, x: nat)
    requires Climbing(s) && forall i :: i in s ==> i < x
    ensures Climbing(s + [x])
  {
    assert forall k :: 0 <= k < |s| ==> s[k] in s;
  }

  lemma {:induction false} SwumFromClimbs(heats: seq<Heat>, from: nat, until: nat)
    requires from <= until <= |heats|
    ensures Climbing(SwumFrom(heats, from, until))
    decreases until
  {
    if from < until {
      hide Climbing, CountSwum;
      var before := SwumFrom(heats, from, until - 1);
      SwumFromClimbs(heats, from, until - 1);
      SwumFromIs(heats, from, until - 1);
      if heats[until - 1].lanes != [] {
        ClimbsOn(before, until - 1);
      } else {
        assert SwumFrom(heats, from, until) == before;
      }
    }
  }

  /** They are the heats with swimmers, each once and in order. */
  lemma SwumFromMembers(heats: seq<Heat>, from: nat, until: nat)
    requires from <= until <= |heats|
    ensures forall i :: i in SwumFrom(heats, from, until) <==> from <= i < until && heats[i].lanes != []
    ensures Climbing(SwumFrom(heats, from, until))
  {
    SwumFromIs(heats, from, until);
    SwumFromClimbs(heats, from, until);
  }

  lemma {:induction false} SwumFromPrefix(heats: seq<Heat>, from: nat, mid: nat, until: nat)
    requires from <= mid <= until <= |heats|
    ensures SwumFrom(heats, from, mid) <= SwumFrom(heats, from, until)
    decreases until
  {
    if mid < until { SwumFromPrefix(heats, from, mid, until - 1); }
  }

  lemma AscendingTake(s: seq<nat>, k: nat, n: nat)
    requires k < |s| && n <= |s|
    requires Climbing(s)
    ensures s[k] in s[..n] <==> k < n
  {
    if k < n { assert s[..n][k] == s[k]; }
  }

  /** The heat is in its place among the heats with swimmers. */
  lemma PlaceOfHeat(heats: seq<Heat>, from: nat, i: nat)
    requires from <= i < |heats| && heats[i].lanes != []
    ensures var next := SwumFrom(heats, from, |heats|);
      1 <= CountSwum(heats, from, i + 1) <= |next| && next[CountSwum(heats, from, i + 1) - 1] == i
  {
    var upTo := SwumFrom(heats, from, i + 1);
    SwumFromPrefix(heats, from, i + 1, |heats|);
    assert upTo == SwumFrom(heats, from, i) + [i];
    assert upTo[|upTo| - 1] == i;
  }

  /** The k-th heat with swimmers after the current one is k heats ahead, so a lead of n
      heats covers exactly the first n of them. */
  lemma LeadIsFirstHeats(w: Watch, i: nat, lead: nat)
    requires Valid(w) && w.current.Some? && w.current.value < i < |w.heats| && w.heats[i].lanes != []
    ensures HeatsAhead(w, i).Some?
    ensures var next := SwumFrom(w.heats, w.current.value + 1, |w.heats|);
      var ahead := HeatsAhead(w, i).value;
      && 1 <= ahead <= |next| && next[ahead - 1] == i
      && (ahead <= lead <==> i in next[..if lead < |next| then lead else |next|])
  {
    var c := w.current.value + 1;
    var next := SwumFrom(w.heats, c, |w.heats|);
    PlaceOfHeat(w.heats, c, i);
    SwumFromMembers(w.heats, c, |w.heats|);
    AscendingTake(next, HeatsAhead(w, i).value - 1, if lead < |next| then lead else |next|);
  }

  // ── The class ──

  class Console {
    var heats: seq<Heat>
    var current: Option<nat>
    var pending: Option<Pending>
    var selectedAt: map<nat, real>
    var startedAt: map<nat, real>

    function State(): Watch
      reads this
    {
      Watch(heats, current, pending, selectedAt, startedAt)
    }

    constructor (heats: seq<Heat>)
      ensures State() == Watch(heats, None, None, map[], map[]) && Valid(State())
    {
      this.heats, current, pending, selectedAt, startedAt := heats, None, None, map[], map[];
    }

    /** Read one frame. */
    method ReadFrame(f: Frame, now: real)
      requires Valid(State())
      modifies this`pending, this`startedAt
      ensures State() == Framed(old(State()), f, now)
    {
      if Names(f) {
        if current.Some? && KeyOf(heats[current.value]) == Named(f) {
          pending := None;
        } else if pending.None? || pending.value.key != Named(f) {
          pending := Some(Pending(Named(f), now));
        }
      }
      if current.Some? && current.value !in startedAt && f.running {
        startedAt := startedAt[current.value := now];
      }
    }

    /** Promote a held change; the heat, when the console moved forward onto it. */
    method SettleAt(now: real, hold: real) returns (r: Option<nat>)
      requires Valid(State())
      modifies this`pending, this`current, this`selectedAt
      ensures State() == Settled(old(State()), now, hold)
      ensures r == Reported(old(State()), now, hold)
    {
      if pending.None? || now - pending.value.at < hold { return None; }
      var p := pending.value;
      pending := None;
      var i := ByKey(heats, p.key);
      if i.None? { return None; }
      var previous := current;
      current := i;
      if i.value !in selectedAt { selectedAt := selectedAt[i.value := p.at]; }
      if previous.Some? && i.value <= previous.value { return None; }
      return i;
    }

    /** The changeover, gap by gap. */
    method LearnChangeover() returns (c: real)
      requires Valid(State())
      ensures c == Changeover(State())
    {
      var gaps := [];
      for i := 0 to |heats|
        invariant gaps == Gaps(State(), i)
      {
        var gap := GapAfter(State(), i);
        if gap.Some? { gaps := gaps + [gap.value]; }
      }
      if gaps == [] { return DEFAULT_CHANGEOVER; }
      c := Clamp(Median(if |gaps| > 8 then gaps[|gaps| - 8..] else gaps));
    }

    /** When heat `i` should start, summed heat by heat where no schedule says. */
    method Estimate(i: nat, now: real, today: string) returns (eta: Option<real>)
      requires Valid(State()) && i < |heats|
      ensures eta == Eta(State(), i, now, today)
    {
      var h := heats[i];
      if current.None? || (heats[current.value].date != "" && today != "" && heats[current.value].date != today) {
        return if Given(h.scheduled) && h.date == today then h.scheduled else None;
      }
      var c := current.value;
      if i <= c { return None; }
      if h.date != "" && heats[c].date != "" && h.date != heats[c].date { return h.scheduled; }
      var base := Base(State(), now);
      if Given(h.scheduled) && Given(heats[c].scheduled) {
        return Some(h.scheduled.value + (base - heats[c].scheduled.value));
      }
      var change := LearnChangeover();
      var total := base;
      for k := c to i
        invariant total == base + SwimTime(heats, c, k, change)
      {
        if Given(heats[k].swim) { total := total + (heats[k].swim.value + change); }
      }
      eta := Some(if total > now then total else now);
    }
  }
}
