/** What the registry's operations leave behind, told in the fields of the tables: who
    vouches for a meet and what silence does, what a register, a beat and a backup write,
    and until when a retired meet is kept. */
module TableEffects {
  import opened Text
  import opened IsoDate
  import opened Calendar
  import opened MeetTables
  import opened Placement

  // ── Vouching ──

  /** The step vouches for a meet: it registers, or its holder names it. */
  predicate Vouches(t: Tables, s: Step, id: Id) {
    match s.op
    case Register(x, key, _, _) => x == id && key in t.organizers && t.organizers[key].active
    case Heartbeat(b) =>
      id in t.meets && t.meets[id].card.live && id in b.live
      && t.meets[id].node == Some(b.place.node) && t.meets[id].worker == Some(b.place.worker)
    case _ => false
  }

  /** When a run last vouched for a meet, `since` before it did. */
  ghost function LastVouched(t: Tables, steps: seq<Step>, id: Id, since: int): int
    decreases |steps|
  {
    if steps == [] then since
    else
      var before, s := steps[..|steps| - 1], steps[|steps| - 1];
      if Vouches(Run(t, before), s, id) then s.now else LastVouched(t, before, id, since)
  }

  lemma StepVouches(t: Tables, s: Step, id: Id)
    requires RowsOk(t) && IsLive(Apply(t, s).meets, id)
    ensures if Vouches(t, s, id) then Apply(t, s).meets[id].lastSeen == Some(s.now)
            else IsLive(t.meets, id) && Apply(t, s).meets[id].lastSeen == t.meets[id].lastSeen
  {
    hide RowsOk, ComputeExpiry, Calendar.Registered, Parse;
    match s.op
    case Heartbeat(b) =>
      assert Apply(t, s).meets[id] == BeatRow(t.meets[id], id, b, s.now);
    case _ =>
  }

  lemma {:induction false} SeenIsLastVouched(t: Tables, steps: seq<Step>, id: Id, since: int)
    requires RowsOk(t) && (IsLive(t.meets, id) ==> t.meets[id].lastSeen == Some(since))
    ensures IsLive(Run(t, steps).meets, id) ==>
      Run(t, steps).meets[id].lastSeen == Some(LastVouched(t, steps, id, since))
    decreases |steps|
  {
    hide Apply, Vouches, RowsOk;
    if steps != [] && IsLive(Run(t, steps).meets, id) {
      var before := steps[..|steps| - 1];
      SeenIsLastVouched(t, before, id, since);
      RunKeepsRows(t, before);
      StepVouches(Run(t, before), steps[|steps| - 1], id);
    }
  }

  /** Over every run silence retires a live meet exactly when nothing has vouched for it in
      90 seconds: one its holder names at least that often is never retired so. */
  lemma SilenceRetiresExactly(t: Tables, steps: seq<Step>, id: Id, since: int, now: int)
    requires RowsOk(t) && (IsLive(t.meets, id) ==> t.meets[id].lastSeen == Some(since))
    requires IsLive(Run(t, steps).meets, id)
    ensures IsLive(Apply(Run(t, steps), Step(RetireSilent, now)).meets, id)
      <==> LastVouched(t, steps, id, since) >= now - 90
  {
    hide Run;
    SeenIsLastVouched(t, steps, id, since);
  }

  /** A beat of its holder keeps a meet through the next 90 seconds of silence. */
  lemma BeatVouches(t: Tables, b: Beat, now: int, id: Id, later: int)
    requires IsLive(t.meets, id) && t.meets[id].At(b.place) && id in b.live && later <= now + 90
    ensures IsLive(Apply(AfterBeat(t, b, now), Step(RetireSilent, later)).meets, id)
  {
  }

  /** A beat lets a meet its worker holds go exactly when it does not name it, and no move
      brought it there in the last half minute. */
  lemma BeatDropsExactly(t: Tables, b: Beat, now: int, id: Id)
    requires IsLive(t.meets, id) && t.meets[id].At(b.place)
    ensures IsLive(AfterBeat(t, b, now).meets, id)
      <==> id in b.live || (t.meets[id].movedAt.Some? && now <= t.meets[id].movedAt.value + 30)
  {
  }

  /** A disconnect retires a live meet exactly where node and worker are its holder's: it
      stays on their card, watched by nobody and kept listed no more, and no other row
      changes. */
  lemma RetireIsHolders(t: Tables, id: Id, p: Place, now: int, other: Id)
    requires IsLive(t.meets, id) && other in t.meets
    ensures var u := Apply(t, Step(Op.Retire(id, p), now));
      && (IsLive(u.meets, id) <==> !(t.meets[id].node == Some(p.node) && t.meets[id].worker == Some(p.worker)))
      && (other != id ==> u.meets[other] == t.meets[other])
      && (!IsLive(u.meets, id) ==>
        var m := u.meets[id];
        && m.lastSeen == Some(now) && m.attendees == 0 && m.card.keepUntil.None? && m.expiresAt.Some?
        && m.node == t.meets[id].node && m.worker == t.meets[id].worker && m.key == t.meets[id].key
        && m.card.date == t.meets[id].card.date && m.card.sessionDates == t.meets[id].card.sessionDates)
  {
  }

  // ── What is written ──

  /** An accepted register leaves the meet live where it registered, with what was sent of
      its days and no expiry or move; a refused one leaves the tables alone. */
  lemma RegisterTakesEffect(t: Tables, id: Id, key: string, meta: Meta, p: Place, now: int)
    ensures var u := AfterRegister(t, id, key, meta, p, now);
      if key in t.organizers && t.organizers[key].active then
        && IsLive(u.meets, id) && u.meets[id].node == Some(p.node) && u.meets[id].worker == Some(p.worker)
        && u.meets[id].key == Some(key) && u.meets[id].lastSeen == Some(now)
        && u.meets[id].expiresAt.None? && u.meets[id].moveFrom.None? && u.meets[id].movedAt.None?
        && u.meets[id].card.date == meta.date && u.meets[id].card.offset == meta.offset
        && u.meets[id].card.sessionDates == meta.sessionDates
        && u.meets[id].card.meetEnd == WithinLastDay(meta.meetEnd, meta.date, meta.offset, 0)
        && u.meets[id].card.keepUntil == WithinLastDay(meta.keepUntil, meta.date, meta.offset, 259200)
        && (id in t.meets ==> u.meets[id].attendees == t.meets[id].attendees
                              && u.meets[id].card.lastFrame == t.meets[id].card.lastFrame)
        && u.nodes == t.nodes && (forall x :: x in t.meets && x != id ==> x in u.meets && u.meets[x] == t.meets[x])
      else u == t
  {
  }

  /** A beat writes what it says of each meet its worker holds: seen now, its attendees,
      never below none, and its last frame; what it does not mention stands. */
  lemma BeatTakesEffect(t: Tables, b: Beat, now: int, id: Id)
    requires IsLive(t.meets, id) && t.meets[id].At(b.place) && id in b.live
    ensures var m := AfterBeat(t, b, now).meets[id];
      && m.lastSeen == Some(now)
      && m.attendees == (if id !in b.attendees then t.meets[id].attendees else if b.attendees[id] < 0 then 0 else b.attendees[id])
      && m.card.lastFrame == (if id in b.frames then Some(b.frames[id]) else t.meets[id].card.lastFrame)
      && m.node == t.meets[id].node && m.worker == t.meets[id].worker && m.key == t.meets[id].key
  {
  }

  /** And of its node: the last word on its address and workers, its region and version
      when they are known, whatever the admin and a rollout had set. */
  lemma BeatWritesNode(t: Tables, b: Beat, now: int)
    ensures var u := AfterBeat(t, b, now); var name := b.place.node; var r := b.report;
      && name in u.nodes && u.nodes[name].lastSeen == now
      && u.nodes[name].host == r.host && u.nodes[name].workers == r.workers
      && (r.version != "" ==> u.nodes[name].version == r.version)
      && (r.region != "" ==> u.nodes[name].region == Some(r.region))
      && (name in t.nodes ==>
          && (r.version == "" ==> u.nodes[name].version == t.nodes[name].version)
          && (r.region == "" ==> u.nodes[name].region == t.nodes[name].region)
          && u.nodes[name].active == t.nodes[name].active
          && u.nodes[name].target == t.nodes[name].target && u.nodes[name].targetSetAt == t.nodes[name].targetSetAt)
      && (name !in t.nodes ==> u.nodes[name].active && u.nodes[name].target.None?)
      && (forall n :: n in t.nodes && n != name ==> n in u.nodes && u.nodes[n] == t.nodes[n])
  {
  }

  /** A backup's card of a meet not live leaves it retained with the card's date, its key
      where the organizer is known, and the card's node, or the one given, or the one it
      had; a live meet stands. */
  lemma RestoreTakesEffect(t: Tables, backup: map<Id, Record>, fallback: Option<string>, now: int, id: Id)
    requires id in backup
    ensures var u := AfterRestore(t, backup, fallback, now); var rec := backup[id];
      if IsLive(t.meets, id) then u.meets[id] == t.meets[id]
      else
        && id in u.meets && !u.meets[id].card.live && u.meets[id].card.date == rec.date
        && u.meets[id].key == (if rec.key.Some? && rec.key.value in t.organizers then rec.key else None)
        && u.meets[id].expiresAt == Some(if rec.expires.Some? then rec.expires.value else ComputeExpiry(rec.date, now))
        && u.meets[id].node == (if rec.node.Some? then rec.node else if fallback.Some? then fallback
                                else if id in t.meets then t.meets[id].node else None)
  {
  }

  /** A move is accepted exactly where the Pi of an organizer of no region could be sent:
      for a live meet, a worker of a node that is up and active, not the one it is on. */
  lemma MoveGoesWhereAssignCould(t: Tables, id: Id, p: Place, now: int, org: Organizer)
    requires org.region.None?
    ensures MoveAccepted(t, id, p, now)
      <==> IsLive(t.meets, id) && !t.meets[id].At(p) && Offered(t, org, p, now)
  {
  }

  /** A Pi may be sent to a worker only of a node that is active, heard from in 90 seconds
      and, when the organizer has a region, of that region. */
  lemma OfferedStaysInRegion(t: Tables, org: Organizer, p: Place, now: int)
    ensures Offered(t, org, p, now) <==>
      p.node in t.nodes && t.nodes[p.node].active && t.nodes[p.node].lastSeen + 90 >= now
      && 1 <= p.worker <= t.nodes[p.node].workers
      && (org.region.Some? ==> t.nodes[p.node].region == org.region)
  {
  }

  /** A node the admin takes out of use is offered to nobody until it is put back, and the
      meets on it stay. */
  lemma InactiveIsNotOffered(t: Tables, name: string, active: bool, org: Organizer, p: Place, now: int)
    ensures var u := AfterNodeState(t, name, active);
      && u.meets == t.meets && u.nodes.Keys == t.nodes.Keys
      && (p.node != name ==> (Offered(u, org, p, now) <==> Offered(t, org, p, now)))
      && (p.node == name && !active ==> !Offered(u, org, p, now))
      && (p.node == name && active ==>
        (Offered(u, org, p, now) <==>
          && name in t.nodes && t.nodes[name].lastSeen + 90 >= now && 1 <= p.worker <= t.nodes[name].workers
          && (org.region.Some? ==> t.nodes[name].region == org.region)))
  {
  }

  /** The last holder is the worker in the meet's row, live or retired, while the meet may
      be sent there. */
  lemma LastHolderIs(t: Tables, id: Id, org: Organizer, now: int, p: Place)
    ensures LastHolder(t, id, org, now) == Some(p)
      <==> id in t.meets && t.meets[id].node == Some(p.node) && t.meets[id].worker == Some(p.worker) && Offered(t, org, p, now)
  {
  }

  // ── How long a retired meet is kept ──

  lemma TodayAfter(c: Date, t: int)
    requires IsDate(c) && OnCalendar(t, 0)
    ensures StrLess(Iso(c), Today(t, 0)) <==> t >= DayNumber(c) * DAY
  {
    ParseIso(Iso(c), c);
    DatePast(Iso(c), c, t, 0);
  }

  /** The date is past at the server; of an unreadable one, the day it was retired is. */
  ghost predicate PastSince(date: string, retired: int, later: int)
    requires OnCalendar(later, 0)
  {
    if Parse(date).Some? then StrLess(date, Today(later, 0)) else DayAt(later, 0) > DayAt(retired, 0)
  }

  /** A meet its holder retires is swept exactly from when its date is past at the server;
      with no readable date, from the day after it was retired. */
  lemma RetiredIsKeptThroughItsDate(t: Tables, id: Id, p: Place, now: int, later: int)
    requires IsLive(t.meets, id) && t.meets[id].At(p) && OnCalendar(now, 0) && OnCalendar(later, 0)
    ensures var u := AfterSweep(Apply(t, Step(Op.Retire(id, p), now)), later);
      id !in u.meets <==> PastSince(t.meets[id].card.date, now, later)
  {
    var date := t.meets[id].card.date;
    if Parse(date).Some? {
      ParseIso(date, Parse(date).value);
      TodayAfter(Parse(date).value, later);
    }
  }

  /** An expiry set on a retained meet is when it is swept; on a live one it does nothing. */
  lemma ExpiryIsKept(t: Tables, id: Id, at: int, now: int)
    requires id in t.meets
    ensures var u := AfterSetExpiry(t, id, at);
      && (IsLive(t.meets, id) ==> u == t)
      && (!IsLive(t.meets, id) ==> (id !in AfterSweep(u, now).meets <==> at <= now))
  {
  }

  /** What is deleted is gone unless live; the test meets are exactly those of a test
      organizer; and a node is forgotten unless a live meet is on it. */
  lemma AdminSparesLiveMeets(t: Tables, id: Id, name: string)
    requires id in t.meets
    ensures AfterForgetNode(t, name).meets == t.meets
    ensures forall n :: n in AfterForgetNode(t, name).nodes <==>
      (n in t.nodes && (n == name ==> exists x :: IsLive(t.meets, x) && t.meets[x].node == Some(name)))
    ensures id in AfterDelete(t, id).meets <==> t.meets[id].card.live
    ensures id in AfterForgetTests(t).meets <==>
      !(t.meets[id].key.Some? && t.meets[id].key.value in t.organizers && t.organizers[t.meets[id].key.value].test)
    ensures t.meets[id].card.live && t.meets[id].node == Some(name) ==> AfterForgetNode(t, name) == t
  {
  }

  // ── Addresses ──

  predicate AllSlashes(s: string) {
    forall i :: 0 <= i < |s| ==> s[i] == '/'
  }

  /** A base's address is its host less every slash at its end. */
  lemma {:induction false} StrippedOfSlashes(host: string)
    ensures var r := RStripSlash(host);
      r <= host && AllSlashes(host[|r|..]) && (r != "" ==> r[|r| - 1] != '/')
  {
    if |host| > 0 && host[|host| - 1] == '/' {
      var rest := host[..|host| - 1];
      StrippedOfSlashes(rest);
      var r := RStripSlash(host);
      assert host[|r|..] == rest[|r|..] + [host[|host| - 1]];
    }
  }
}
