/** When a meet is running, over, or off the picker: computed once on the pool's Pi
    and once in the cloud. Instants are whole seconds since 1 January of year 1, UTC;
    local times are the same count in the pool's own time. */
module Calendar {
  import opened Text
  import opened IsoDate

  const DAY := 86400
  const HOUR := 3600
  const LIVE_GRACE := 24 * HOUR
  const KEEP_LISTED := 72 * HOUR
  const RUNNING_FRAME := 2 * HOUR

  /** The day number of an instant, `offset` minutes from UTC. */
  function DayAt(t: int, offset: int): int {
    (t + offset * 60) / DAY + 1
  }

  /** The instant falls on a day a date can name. */
  predicate OnCalendar(t: int, offset: int) {
    1 <= DayAt(t, offset) <= LAST_DAY
  }

  ghost function Today(t: int, offset: int): string
    requires OnCalendar(t, offset)
  {
    Iso(OfNumber(DayAt(t, offset)))
  }

  predicate ValidOffset(offset: int) {
    -12 * 60 <= offset <= 14 * 60
  }

  // ── The cloud ──

  /** What the registry's row says of a meet's days. `offset` is None when not sent. */
  datatype Card = Card(
    date: string, live: bool, offset: Option<int>, meetEnd: Option<int>,
    keepUntil: Option<int>, sessionDates: seq<string>, lastFrame: Option<int>)

  /** Midnight after `date` at the pool. */
  function EndOfDay(date: string, offset: Option<int>): Option<int> {
    match Parse(date)
    case None => None
    case Some(c) => Some(DayNumber(c) * DAY - (if offset.Some? then offset.value else 0) * 60)
  }

  /** A time the Pi sent, held to `allowance` past the end of its last day. */
  function WithinLastDay(sent: Option<int>, date: string, offset: Option<int>, allowance: int): Option<int> {
    var limit := EndOfDay(date, offset);
    if sent.None? || limit.None? then None
    else Some(if sent.value <= limit.value + allowance then sent.value else limit.value + allowance)
  }

  /** The offset a row's days are read at: its own, else the server's. */
  function PoolOffset(c: Card, server: int): int {
    if c.offset.Some? then c.offset.value else server
  }

  /** Whether a row is off the picker at `now`, its date past or not. */
  predicate EndedGiven(c: Card, datePast: bool, now: int) {
    if !datePast then false
    else if !c.live then true
    else
      var end := if c.meetEnd.Some? then c.meetEnd else EndOfDay(c.date, c.offset);
      if end.Some? && now < end.value + LIVE_GRACE then false
      else !(c.keepUntil.Some? && now < c.keepUntil.value)
  }

  ghost predicate Ended(c: Card, now: int, server: int)
    requires OnCalendar(now, PoolOffset(c, server))
  {
    EndedGiven(c, c.date != "" && StrLess(c.date, Today(now, PoolOffset(c, server))), now)
  }

  /** Whether a live meet is running, given the pool's own date: recent board frames,
      or one of its session days. A Pi that sends none is judged by its last date. */
  predicate Running(c: Card, today: string, now: int) {
    (c.lastFrame.Some? && now - c.lastFrame.value < RUNNING_FRAME) ||
    today in (if c.sessionDates != [] then c.sessionDates else [c.date])
  }

  /** What a registration sends of the meet's days. */
  datatype Meta = Meta(
    date: string, meetEnd: Option<int>, keepUntil: Option<int>,
    sessionDates: seq<string>, offset: Option<int>)

  /** The row a registration leaves. */
  function Registered(m: Meta): Card {
    Card(m.date, true, m.offset,
         WithinLastDay(m.meetEnd, m.date, m.offset, 0),
         WithinLastDay(m.keepUntil, m.date, m.offset, KEEP_LISTED),
         m.sessionDates, None)
  }

  /** What the worker passes on of it: neither the end nor the keep. */
  function ForwardedByWorker(m: Meta): Meta {
    m.(meetEnd := None, keepUntil := None)
  }

  // ── The Pi ──

  /** `endtime` is seconds after midnight. */
  datatype Session = Session(date: string, endtime: Option<int>)

  /** The loaded meet, its uid ("" when none), and the uid the operator keeps listed. */
  datatype Pi = Pi(sessions: seq<Session>, uid: string, kept: string)

  predicate ValidPi(p: Pi) {
    forall s :: s in p.sessions && s.endtime.Some? ==> 0 <= s.endtime.value < DAY
  }

  /** The lexical maximum of the dates that are not empty, "" when there is none. */
  function LatestDate(sessions: seq<Session>): string {
    if sessions == [] then ""
    else
      var rest := LatestDate(sessions[1..]);
      if StrLess(rest, sessions[0].date) then sessions[0].date else rest
  }

  function LatestEnd(sessions: seq<Session>, date: string): (r: Option<int>)
    ensures r.Some? ==> exists s :: s in sessions && s.endtime == r
  {
    if sessions == [] then None
    else
      var rest := LatestEnd(sessions[1..], date);
      var s := sessions[0];
      if s.date == date && s.endtime.Some? && (rest.None? || rest.value < s.endtime.value)
      then s.endtime else rest
  }

  /** When the meet ends, local: its last session's latest end, else midnight after. */
  function MeetEnd(p: Pi): Option<int> {
    var last := LatestDate(p.sessions);
    match Parse(last)
    case None => None
    case Some(c) =>
      var end := LatestEnd(p.sessions, last);
      if end.Some? then Some((DayNumber(c) - 1) * DAY + end.value) else Some(DayNumber(c) * DAY)
  }

  predicate MeetOverGiven(p: Pi, datePast: bool, local: int) {
    MeetEnd(p).Some? && datePast && local >= MeetEnd(p).value + LIVE_GRACE
  }

  ghost predicate MeetOver(p: Pi, local: int)
    requires OnCalendar(local, 0)
  {
    MeetOverGiven(p, StrLess(LatestDate(p.sessions), Today(local, 0)), local)
  }

  function KeepListedUntil(p: Pi, local: int): Option<int> {
    if p.uid == "" || p.kept != p.uid || MeetEnd(p).None? then None
    else if local < MeetEnd(p).value + KEEP_LISTED then Some(MeetEnd(p).value + KEEP_LISTED)
    else None
  }

  ghost predicate CanKeepListed(p: Pi, local: int)
    requires OnCalendar(local, 0)
  {
    MeetOver(p, local) && KeepListedUntil(p, local).None?
    && local < MeetEnd(p).value + KEEP_LISTED
  }

  /** A local time as the cloud takes it. */
  function ToUtc(local: Option<int>, offset: int): Option<int> {
    if local.Some? then Some(local.value - offset * 60) else None
  }

  /** The metadata a Pi sends at `local`, `offset` minutes from UTC. */
  function Metadata(p: Pi, local: int, offset: int): Meta {
    Meta(LatestDate(p.sessions), ToUtc(MeetEnd(p), offset),
         ToUtc(KeepListedUntil(p, local), offset),
         Sorted(set s | s in p.sessions && s.date != "" :: s.date), Some(offset))
  }

  // ── They agree ──

  lemma {:induction false} LatestDateIsMaximum(sessions: seq<Session>)
    ensures LatestDate(sessions) == "" || exists s :: s in sessions && s.date == LatestDate(sessions)
    ensures forall s :: s in sessions ==> !StrLess(LatestDate(sessions), s.date)
  {
    if sessions != [] {
      LatestDateIsMaximum(sessions[1..]);
      var rest := LatestDate(sessions[1..]);
      forall s | s in sessions
        ensures !StrLess(LatestDate(sessions), s.date)
      {
        StrLessIrreflexive(sessions[0].date);
        if StrLess(rest, sessions[0].date) && s in sessions[1..] && StrLess(sessions[0].date, s.date) {
          StrLessTransitive(rest, sessions[0].date, s.date);
        }
      }
    }
  }

  /** The last session date the Pi announces is the latest day any session names. */
  lemma LastDateIsLatestDay(p: Pi, c: Date)
    requires Parse(LatestDate(p.sessions)) == Some(c)
    ensures forall s, d :: s in p.sessions && Parse(s.date) == Some(d) ==> DayNumber(d) <= DayNumber(c)
  {
    LatestDateIsMaximum(p.sessions);
    forall s, d | s in p.sessions && Parse(s.date) == Some(d)
      ensures DayNumber(d) <= DayNumber(c)
    {
      ParseIso(s.date, d);
      ParseIso(LatestDate(p.sessions), c);
      IsoOrder(c, d);
      if Earlier(d, c) { DayNumberAscends(d, c); }
    }
  }

  /** The cloud's clamps leave what a Pi computes as it is. */
  lemma ClampsChangeNothing(p: Pi, local: int, offset: int)
    requires ValidPi(p)
    ensures var m := Metadata(p, local, offset);
      && Registered(m).meetEnd == m.meetEnd
      && Registered(m).keepUntil == m.keepUntil
  {
  }

  /** A date is past at an instant exactly when its day number is. */
  lemma DatePast(date: string, c: Date, t: int, offset: int)
    requires Parse(date) == Some(c) && OnCalendar(t, offset)
    ensures StrLess(date, Today(t, offset)) <==> DayNumber(c) * DAY <= t + offset * 60
  {
    ParseIso(date, c);
    DayTextOrder(c, DayAt(t, offset));
  }

  /** The cloud takes a meet off the picker exactly when its Pi says it is over and
      the keep it was registered with has run out. */
  lemma CloudAgreesWithPi(p: Pi, registered: int, now: int, offset: int, server: int)
    requires ValidPi(p) && OnCalendar(now, offset) && OnCalendar(now + offset * 60, 0)
    requires Parse(LatestDate(p.sessions)).Some? || LatestDate(p.sessions) == ""
    ensures var local := now + offset * 60;
      var keep := KeepListedUntil(p, registered);
      Ended(Registered(Metadata(p, registered, offset)), now, server)
      == (MeetOver(p, local) && !(keep.Some? && local < keep.value))
  {
    ClampsChangeNothing(p, registered, offset);
  }

  /** When the last date is not a date, the Pi never calls the meet over, and the
      cloud does as soon as the text sorts before today's. */
  lemma UnreadableDate(p: Pi, registered: int, now: int, offset: int, server: int)
    requires OnCalendar(now, offset) && OnCalendar(now + offset * 60, 0)
    requires Parse(LatestDate(p.sessions)).None? && LatestDate(p.sessions) != ""
    ensures !MeetOver(p, now + offset * 60)
    ensures Ended(Registered(Metadata(p, registered, offset)), now, server)
      <==> StrLess(LatestDate(p.sessions), Today(now, offset))
  {
  }

  /** Keeping a meet listed does what it is offered for: a meet that may be kept, once
      its Pi registers again, is listed until exactly the keep's deadline. */
  lemma KeepListsUntilDeadline(p: Pi, at: int, now: int, offset: int, server: int)
    requires ValidPi(p) && p.uid != ""
    requires OnCalendar(at, 0) && CanKeepListed(p, at)
    requires OnCalendar(now, offset) && OnCalendar(now + offset * 60, 0) && at <= now + offset * 60
    ensures Ended(Registered(Metadata(p.(kept := p.uid), at, offset)), now, server)
      == (now + offset * 60 >= MeetEnd(p).value + KEEP_LISTED)
  {
    hide Ended, MeetOver, CanKeepListed, KeepListedUntil, Metadata, MeetEnd, Parse, LatestDate;
    var q := p.(kept := p.uid);
    KeptGivenDay(p, at, now + offset * 60);
    CloudAgreesWithPi(q, at, now, offset, server);
  }

  lemma KeptGivenDay(p: Pi, at: int, local: int)
    requires ValidPi(p) && p.uid != "" && at <= local
    requires OnCalendar(at, 0) && OnCalendar(local, 0) && CanKeepListed(p, at)
    ensures MeetOver(p.(kept := p.uid), local) && Parse(LatestDate(p.sessions)).Some?
    ensures KeepListedUntil(p.(kept := p.uid), at) == Some(MeetEnd(p).value + KEEP_LISTED)
  {
    KeepNeedsDate(p, at);
    hide CanKeepListed, MeetOver, KeepListedUntil, MeetEnd, LatestDate;
    var c := Parse(LatestDate(p.sessions)).value;
    var q := p.(kept := p.uid);
    OverADayAfter(p, at, c);
    OverADayAfter(q, at, c);
    OverADayAfter(q, local, c);
    SameEnd(p);
  }

  lemma KeepNeedsDate(p: Pi, at: int)
    requires OnCalendar(at, 0) && CanKeepListed(p, at)
    ensures Parse(LatestDate(p.sessions)).Some?
  {
  }

  lemma SameEnd(p: Pi)
    ensures MeetEnd(p.(kept := p.uid)) == MeetEnd(p)
  {
  }

  lemma WorkerGivenDay(p: Pi, registered: int, local: int, offset: int, datePast: bool, c: Date)
    requires ValidPi(p) && Parse(LatestDate(p.sessions)) == Some(c)
    requires datePast <==> DayNumber(c) * DAY <= local
    ensures var row := Registered(ForwardedByWorker(Metadata(p, registered, offset)));
      var ended := EndedGiven(row, datePast, local - offset * 60);
      && ended == (local >= DayNumber(c) * DAY + LIVE_GRACE)
      && (ended == MeetOverGiven(p, datePast, local))
         == !(MeetEnd(p).value + LIVE_GRACE <= local < DayNumber(c) * DAY + LIVE_GRACE)
  {
  }

  /** Through a worker, which drops the end and the keep, the two agree except from a
      day after the meet's own end to a day after midnight. */
  lemma AgreementThroughWorker(p: Pi, registered: int, now: int, offset: int, server: int, c: Date)
    requires ValidPi(p) && OnCalendar(now, offset) && OnCalendar(now + offset * 60, 0)
    requires Parse(LatestDate(p.sessions)) == Some(c)
    ensures var local := now + offset * 60;
      var row := Registered(ForwardedByWorker(Metadata(p, registered, offset)));
      && Ended(row, now, server) == (local >= DayNumber(c) * DAY + LIVE_GRACE)
      && (Ended(row, now, server) == MeetOver(p, local))
         == !(MeetEnd(p).value + LIVE_GRACE <= local < DayNumber(c) * DAY + LIVE_GRACE)
  {
    hide LatestDate, Today, StrLess, Sorted, EndedGiven, MeetOverGiven;
    var last := LatestDate(p.sessions);
    var local := now + offset * 60;
    DatePast(last, c, now, offset);
    DatePast(last, c, local, 0);
    WorkerGivenDay(p, registered, local, offset, StrLess(last, Today(now, offset)), c);
  }

  /** Such a moment: a one-session meet whose session has an end time, a day later. */
  lemma WorkerListsAnOverMeet(p: Pi, c: Date, end: int, now: int)
    requires IsDate(c) && !IsLastDay(c) && 0 <= end < DAY
    requires p.sessions == [Session(Iso(c), Some(end))]
    requires now == DayNumber(c) * DAY + end
    ensures ValidPi(p) && OnCalendar(now, 0)
    ensures MeetOver(p, now) && !Ended(Registered(ForwardedByWorker(Metadata(p, now, 0))), now, 0)
  {
    hide MeetOver, Ended, Metadata, LatestDate, Parse, Iso;
    OneSession(p, c, end);
    NextMidnight(c, now);
    AgreementThroughWorker(p, now, now, 0, 0, c);
  }

  lemma NextMidnight(c: Date, now: int)
    requires IsDate(c) && !IsLastDay(c) && DayNumber(c) * DAY <= now < (DayNumber(c) + 1) * DAY
    ensures OnCalendar(now, 0)
  {
    DayNumberRange(c);
    DayNumberRange(NextDay(c));
  }

  lemma OneSession(p: Pi, c: Date, end: nat)
    requires IsDate(c) && p.sessions == [Session(Iso(c), Some(end))]
    ensures LatestDate(p.sessions) == Iso(c) && Parse(Iso(c)) == Some(c)
    ensures MeetEnd(p) == Some((DayNumber(c) - 1) * DAY + end)
  {
    ParseIso(Iso(c), c);
    IsoLength(c);
    var s := p.sessions;
    assert s[1..] == [];
    assert LatestDate(s) == Iso(c);
    assert LatestEnd(s, Iso(c)) == Some(end);
  }

  /** Whatever was sent, a live meet is listed through its last day at the pool and
      off the picker from 72 hours after it. */
  lemma ListedAtMostThreeDaysPast(m: Meta, c: Date, now: int, server: int)
    requires Parse(m.date) == Some(c)
    requires m.offset.Some? ==> ValidOffset(m.offset.value)
    requires ValidOffset(server)
    requires OnCalendar(now, PoolOffset(Registered(m), server))
    ensures now + PoolOffset(Registered(m), server) * 60 < DayNumber(c) * DAY ==> !Ended(Registered(m), now, server)
    ensures now >= EndOfDay(m.date, m.offset).value + KEEP_LISTED ==> Ended(Registered(m), now, server)
  {
    DatePast(m.date, c, now, PoolOffset(Registered(m), server));
  }

  // ── What the Pi's times are ──

  /** The last end of a date's sessions: one of them, none later; none when no session of
      the date has one. */
  lemma {:induction false} LatestEndIsLatest(sessions: seq<Session>, date: string)
    ensures var end := LatestEnd(sessions, date);
      && (end.Some? ==> exists s :: s in sessions && s.date == date && s.endtime == end)
      && (forall s :: s in sessions && s.date == date && s.endtime.Some? ==> end.Some? && s.endtime.value <= end.value)
  {
    if sessions != [] { LatestEndIsLatest(sessions[1..], date); }
  }

  /** When a session with an end time ends, local. */
  function SessionEnd(s: Session): Option<int> {
    var c := Parse(s.date);
    if c.None? || s.endtime.None? then None else Some((DayNumber(c.value) - 1) * 86400 + s.endtime.value)
  }

  /** No session ends after the meet. The meet ends with a session of its last day, or, if
      none of those has an end time, at the midnight after it. */
  lemma MeetEndsLast(p: Pi, c: Date)
    requires ValidPi(p) && Parse(LatestDate(p.sessions)) == Some(c)
    ensures MeetEnd(p).Some?
    ensures forall s :: s in p.sessions && SessionEnd(s).Some? ==> SessionEnd(s).value <= MeetEnd(p).value
    ensures MeetEnd(p).value == DayNumber(c) * 86400
      || exists s :: s in p.sessions && Parse(s.date) == Some(c) && SessionEnd(s) == MeetEnd(p)
    ensures MeetEnd(p).value == DayNumber(c) * 86400 <==>
      forall s :: s in p.sessions && Parse(s.date) == Some(c) ==> s.endtime.None?
  {
    hide Parse, LatestEnd, LatestDate, DayNumber;
    var last := LatestDate(p.sessions);
    var end := LatestEnd(p.sessions, last);
    LatestEndIsLatest(p.sessions, last);
    LastDateIsLatestDay(p, c);
    forall s | s in p.sessions && Parse(s.date) == Some(c)
      ensures s.date == last
    {
      ParseIso(s.date, c);
      ParseIso(last, c);
    }
    forall s | s in p.sessions && SessionEnd(s).Some?
      ensures SessionEnd(s).value <= MeetEnd(p).value
    {
      SessionEndsBy(p, s, c);
    }
    if end.Some? {
      var s :| s in p.sessions && s.date == last && s.endtime == end;
      assert SessionEnd(s) == MeetEnd(p);
    }
  }

  lemma SessionEndsBy(p: Pi, s: Session, c: Date)
    requires ValidPi(p) && Parse(LatestDate(p.sessions)) == Some(c) && s in p.sessions && SessionEnd(s).Some?
    ensures SessionEnd(s).value <= MeetEnd(p).value
  {
    hide Parse, LatestEnd, LatestDate, DayNumber;
    var last := LatestDate(p.sessions);
    var d := Parse(s.date).value;
    LatestEndIsLatest(p.sessions, last);
    LastDateIsLatestDay(p, c);
    assert DayNumber(d) <= DayNumber(c);
    ParseIso(s.date, d);
    ParseIso(last, c);
    if DayNumber(d) == DayNumber(c) { DayNumberInjective(d, c); }
  }

  /** A meet is over a day after its end, and never on its last day. A meet kept is so for
      72 hours after its end, and the keep is offered from when it is over to then. */
  lemma OverADayAfter(p: Pi, local: int, c: Date)
    requires OnCalendar(local, 0) && Parse(LatestDate(p.sessions)) == Some(c)
    ensures MeetEnd(p).Some?
    ensures var end := MeetEnd(p).value;
      && (MeetOver(p, local) <==> local >= end + 86400 && local >= DayNumber(c) * 86400)
      && (KeepListedUntil(p, local) ==
        if p.uid != "" && p.kept == p.uid && local < end + 259200 then Some(end + 259200) else None)
      && (CanKeepListed(p, local) <==>
        MeetOver(p, local) && local < end + 259200 && (p.uid == "" || p.kept != p.uid))
  {
    hide LatestDate, Today, StrLess;
    DatePast(LatestDate(p.sessions), c, local, 0);
  }

  /** A retired meet is off the picker from the midnight after its last day at the pool. */
  lemma RetiredEndsAtMidnight(card: Card, c: Date, now: int, server: int)
    requires !card.live && Parse(card.date) == Some(c) && OnCalendar(now, PoolOffset(card, server))
    ensures Ended(card, now, server) <==>
      now + (if card.offset.Some? then card.offset.value else server) * 60 >= DayNumber(c) * 86400
  {
    hide Today, StrLess;
    DatePast(card.date, c, now, PoolOffset(card, server));
    ParseIso(card.date, c);
    IsoLength(c);
  }

  /** A meet a Pi registered runs, whatever its board does, on exactly its session days, and
      otherwise for two hours from a frame. */
  lemma RunsOnSessionDays(p: Pi, at: int, offset: int, frame: Option<int>, today: string, now: int)
    requires today != ""
    ensures var card := Registered(Metadata(p, at, offset)).(lastFrame := frame);
      Running(card, today, now) <==>
        || (exists s :: s in p.sessions && s.date == today)
        || (frame.Some? && now < frame.value + 7200)
  {
    var dates := set s | s in p.sessions && s.date != "" :: s.date;
    assert forall s :: s in p.sessions && s.date != "" ==> s.date in dates;
    LatestDateIsMaximum(p.sessions);
  }
}
