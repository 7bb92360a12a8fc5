/** The control plane's tables, and what each registry operation makes of them, row by
    row. `Registry.dfy` refines these; `Placement.dfy` proves what every run keeps. */
module MeetTables {
  import opened Text
  import opened IsoDate
  import opened Calendar

  const SILENT_AFTER := 90
  const MOVE_GRACE := 30
  const MOVE_NOTICE := 120

  type Id = string

  /** A worker of a node. */
  datatype Place = Place(node: string, worker: int)

  datatype Node = Node(
    region: Option<string>, host: string, active: bool, workers: int, lastSeen: int,
    version: string, target: Option<string>, targetSetAt: Option<int>)

  datatype Organizer = Organizer(name: string, active: bool, region: Option<string>, test: bool)

  /** A meet's row. `moveFrom` and `movedAt` are the move the old holder is still told of. */
  datatype Meet = Meet(
    card: Card, key: Option<string>, node: Option<string>, worker: Option<int>,
    moveFrom: Option<Place>, movedAt: Option<int>, lastSeen: Option<int>,
    expiresAt: Option<int>, attendees: int)
  {
    predicate At(p: Place) {
      node == Some(p.node) && worker == Some(p.worker)
    }

    predicate HeldAt(p: Place) {
      card.live && At(p)
    }
  }

  datatype Tables = Tables(
    meets: map<Id, Meet>, nodes: map<string, Node>, organizers: map<string, Organizer>)

  /** Midnight after the meet's date, or after today when it has none. */
  function ComputeExpiry(date: string, now: int): int {
    match Parse(date)
    case Some(c) => DayNumber(c) * DAY
    case None => (now / DAY + 1) * DAY
  }

  predicate Fresh(n: Node, now: int) {
    n.active && n.lastSeen >= now - SILENT_AFTER
  }

  function KeyAccepted(t: Tables, key: string): bool {
    key in t.organizers && t.organizers[key].active
  }

  // ── Register ──

  function RegisteredRow(prev: Option<Meet>, key: string, meta: Meta, p: Place, now: int): Meet {
    Meet(
      Calendar.Registered(meta).(lastFrame := if prev.Some? then prev.value.card.lastFrame else None),
      Some(key), Some(p.node), Some(p.worker), None, None, Some(now), None,
      if prev.Some? then prev.value.attendees else 0)
  }

  function Lookup<K, V>(m: map<K, V>, k: K): Option<V> {
    if k in m then Some(m[k]) else None
  }

  function AfterRegister(t: Tables, id: Id, key: string, meta: Meta, p: Place, now: int): Tables {
    if !KeyAccepted(t, key) then t
    else t.(meets := t.meets[id := RegisteredRow(Lookup(t.meets, id), key, meta, p, now)])
  }

  // ── Retire ──

  function RetiredRow(m: Meet, now: int): Meet {
    m.(card := m.card.(live := false, keepUntil := None), attendees := 0, lastSeen := Some(now),
       expiresAt := Some(ComputeExpiry(m.card.date, now)))
  }

  function RetireEach(meets: map<Id, Meet>, ids: set<Id>, now: int): map<Id, Meet> {
    map id | id in meets :: if id in ids then RetiredRow(meets[id], now) else meets[id]
  }

  function Held(meets: map<Id, Meet>, id: Id, p: Place): set<Id> {
    if id in meets && meets[id].HeldAt(p) then {id} else {}
  }

  function Silent(meets: map<Id, Meet>, cutoff: int): set<Id> {
    set id | id in meets && meets[id].card.live
             && meets[id].lastSeen.Some? && meets[id].lastSeen.value < cutoff
  }

  // ── Heartbeat ──

  /** What a worker reports of its node; `version` and `region` are "" when not known. */
  datatype Report = Report(region: string, host: string, workers: int, version: string)

  function BeatNode(prev: Option<Node>, r: Report, now: int): Node {
    match prev
    case None =>
      Node(if r.region == "" then None else Some(r.region), r.host, true, r.workers, now, r.version, None, None)
    case Some(n) =>
      n.(region := if r.region == "" then n.region else Some(r.region), host := r.host,
         workers := r.workers, lastSeen := now,
         version := if r.version == "" then n.version else r.version)
  }

  /** A worker's beat: the meets it holds, its attendees per meet, their last frames. */
  datatype Beat = Beat(place: Place, live: set<Id>, attendees: map<Id, int>, frames: map<Id, int>, report: Report)

  predicate Dropped(m: Meet, id: Id, b: Beat, now: int) {
    m.HeldAt(b.place) && id !in b.live
    && (m.movedAt.None? || m.movedAt.value < now - MOVE_GRACE)
  }

  function FrameNoted(m: Meet, id: Id, p: Place, frames: map<Id, int>): Meet {
    if m.HeldAt(p) && id in frames then m.(card := m.card.(lastFrame := Some(frames[id]))) else m
  }

  function AttendeesNoted(m: Meet, id: Id, p: Place, attendees: map<Id, int>): Meet {
    if m.HeldAt(p) && id in attendees then m.(attendees := if attendees[id] > 0 then attendees[id] else 0) else m
  }

  function Touched(m: Meet, id: Id, b: Beat, now: int): Meet {
    if m.HeldAt(b.place) && id in b.live then m.(lastSeen := Some(now)) else m
  }

  /** A row with everything a beat says of it written down. */
  function Noted(m: Meet, id: Id, b: Beat, now: int): (seen: Meet)
    ensures seen.HeldAt(b.place) == m.HeldAt(b.place) && seen.movedAt == m.movedAt
    ensures !m.HeldAt(b.place) ==> seen == m
  {
    AttendeesNoted(FrameNoted(Touched(m, id, b, now), id, b.place, b.frames), id, b.place, b.attendees)
  }

  /** One beat's effect on one row: nothing at all unless the row is held there. */
  function BeatRow(m: Meet, id: Id, b: Beat, now: int): Meet {
    if Dropped(m, id, b, now) then RetiredRow(Noted(m, id, b, now), now) else Noted(m, id, b, now)
  }

  function AfterBeat(t: Tables, b: Beat, now: int): Tables {
    t.(nodes := t.nodes[b.place.node := BeatNode(Lookup(t.nodes, b.place.node), b.report, now)],
       meets := map id | id in t.meets :: BeatRow(t.meets[id], id, b, now))
  }

  // ── Where a meet is reached ──

  function RStripSlash(s: string): string {
    if |s| > 0 && s[|s| - 1] == '/' then RStripSlash(s[..|s| - 1]) else s
  }

  function IntText(n: int): string {
    if n < 0 then "-" + Decimal(-n) else Decimal(n)
  }

  function WorkerUrl(host: string, worker: int): string {
    RStripSlash(host) + "/w" + IntText(worker)
  }

  function NodeUrl(m: Meet, nodes: map<string, Node>): string {
    if m.node.Some? && m.node.value in nodes then nodes[m.node.value].host else ""
  }

  function MeetBase(m: Meet, nodes: map<string, Node>, here: string): string {
    var url := NodeUrl(m, nodes);
    if url != "" && m.worker.Some? && m.worker.value != 0 && m.card.live then WorkerUrl(url, m.worker.value)
    else if url != "" then WorkerUrl(url, 1)
    else RStripSlash(here)
  }

  /** What a worker is told of a meet the admin moved off it. */
  datatype Notice = Notice(id: Id, base: string)

  predicate NoticeDue(t: Tables, id: Id, b: Beat, now: int) {
    id in t.meets && id in b.live && t.meets[id].moveFrom == Some(b.place)
    && t.meets[id].movedAt.Some? && t.meets[id].movedAt.value >= now - MOVE_NOTICE
    && t.meets[id].node.Some? && t.meets[id].node.value in t.nodes
  }

  // ── Move ──

  predicate MoveAccepted(t: Tables, id: Id, p: Place, now: int) {
    id in t.meets && t.meets[id].card.live
    && p.node in t.nodes && Fresh(t.nodes[p.node], now) && 1 <= p.worker <= t.nodes[p.node].workers
    && !t.meets[id].At(p)
  }

  function MovedRow(m: Meet, p: Place, now: int): Meet {
    m.(moveFrom := if m.node.Some? && m.worker.Some? then Some(Place(m.node.value, m.worker.value)) else None,
       node := Some(p.node), worker := Some(p.worker), movedAt := Some(now))
  }

  function AfterMove(t: Tables, id: Id, p: Place, now: int): Tables {
    if !MoveAccepted(t, id, p, now) then t
    else t.(meets := t.meets[id := MovedRow(t.meets[id], p, now)])
  }

  // ── Admin ──

  /** A backup's card. */
  datatype Record = Record(date: string, key: Option<string>, node: Option<string>, expires: Option<int>)

  function RestoredRow(prev: Option<Meet>, rec: Record, fallback: Option<string>, keys: set<string>, now: int): Meet {
    var key := if rec.key.Some? && rec.key.value in keys then rec.key else None;
    var node := if rec.node.Some? then rec.node else fallback;
    var expires := Some(if rec.expires.Some? then rec.expires.value else ComputeExpiry(rec.date, now));
    match prev
    case None => Meet(Card(rec.date, false, None, None, None, [], None), key, node, None, None, None, None, expires, 0)
    case Some(m) =>
      m.(card := m.card.(date := rec.date, live := false), key := key,
         node := if node.Some? then node else m.node, expiresAt := expires)
  }

  predicate IsLive(meets: map<Id, Meet>, id: Id) {
    id in meets && meets[id].card.live
  }

  /** A card written back from a backup; a live meet is left as it is. */
  function CardRestored(prev: Option<Meet>, rec: Record, fallback: Option<string>, keys: set<string>, now: int): Meet {
    if prev.Some? && prev.value.card.live then prev.value else RestoredRow(prev, rec, fallback, keys, now)
  }

  function RestoreEach(
    meets: map<Id, Meet>, backup: map<Id, Record>, ids: set<Id>, fallback: Option<string>,
    keys: set<string>, now: int): map<Id, Meet>
    requires ids <= backup.Keys
  {
    map id | id in meets.Keys + ids ::
      if id in ids then CardRestored(Lookup(meets, id), backup[id], fallback, keys, now) else meets[id]
  }

  function AfterRestore(t: Tables, backup: map<Id, Record>, fallback: Option<string>, now: int): Tables {
    t.(meets := RestoreEach(t.meets, backup, backup.Keys, fallback, t.organizers.Keys, now))
  }

  function AfterSetExpiry(t: Tables, id: Id, at: int): Tables {
    if id in t.meets && !t.meets[id].card.live
    then t.(meets := t.meets[id := t.meets[id].(expiresAt := Some(at))]) else t
  }

  function AfterDelete(t: Tables, id: Id): Tables {
    if IsLive(t.meets, id) then t else t.(meets := t.meets - {id})
  }

  predicate Swept(m: Meet, now: int) {
    !m.card.live && m.expiresAt.Some? && m.expiresAt.value <= now
  }

  function AfterSweep(t: Tables, now: int): Tables {
    t.(meets := map id | id in t.meets && !Swept(t.meets[id], now) :: t.meets[id])
  }

  predicate TestMeet(t: Tables, m: Meet) {
    m.key.Some? && m.key.value in t.organizers && t.organizers[m.key.value].test
  }

  function AfterForgetTests(t: Tables): Tables {
    t.(meets := map id | id in t.meets && !TestMeet(t, t.meets[id]) :: t.meets[id])
  }

  function AfterForgetNode(t: Tables, name: string): Tables {
    if exists id :: id in t.meets && t.meets[id].card.live && t.meets[id].node == Some(name) then t
    else t.(nodes := t.nodes - {name})
  }

  function AfterNodeState(t: Tables, name: string, active: bool): Tables {
    if name in t.nodes then t.(nodes := t.nodes[name := t.nodes[name].(active := active)]) else t
  }
}
