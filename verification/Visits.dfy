/** Where a worker sends a visitor asking for a meet: what it holds itself, what its node
    has stored, and the control plane's card, in that order. Times are whole seconds. */
module Visits {
  import opened Text
  import opened MeetTables
  import opened Placement
  import opened Calendar
  import RecordCache

  const FRESH := 600

  // ── The card ──

  /** The control plane's card as it was fetched, `url` being its node's. */
  datatype Fetched = Fetched(meet: Meet, url: string)

  /** The card names a worker: the meet is live on one. */
  predicate NamesWorker(m: Meet) {
    m.card.live && m.worker.Some? && m.worker.value != 0
  }

  /** The base a card names. */
  function CardBase(m: Meet, url: string): string {
    RStripSlash(url) + "/w" + IntText(if NamesWorker(m) then m.worker.value else 1)
  }

  /** The base a card sends a visitor of `here` to, or None to serve the meet here. */
  function Elsewhere(m: Meet, url: string, here: Place): Option<string> {
    if url == "" then None
    else if NamesWorker(m) then
      if m.node == Some(here.node) && m.worker == Some(here.worker) then None else Some(CardBase(m, url))
    else if m.node == Some(here.node) then None
    else Some(CardBase(m, url))
  }

  /** The worker a card's base is the address of. */
  function Destination(m: Meet): Place
    requires m.node.Some?
  {
    Place(m.node.value, if NamesWorker(m) then m.worker.value else 1)
  }

  lemma WorkerUrlSpelt(host: string, worker: int)
    ensures RStripSlash(host) + "/w" + IntText(worker) == WorkerUrl(host, worker)
  {
    assert RStripSlash(host) + ("/w" + IntText(worker)) == RStripSlash(host) + "/w" + IntText(worker);
  }

  /** A worker and the control plane, each with its own code, name the same base. */
  lemma BasesAgree(m: Meet, nodes: map<string, Node>, here: string)
    requires NodeUrl(m, nodes) != ""
    ensures CardBase(m, NodeUrl(m, nodes)) == MeetBase(m, nodes, here)
  {
    WorkerUrlSpelt(NodeUrl(m, nodes), if NamesWorker(m) then m.worker.value else 1);
  }

  // ── The whole lookup ──

  /** What a visitor gets: nothing, the meet's page from here, live or not, or the way to
      another base. */
  datatype Outcome = NotFound | Page(live: bool) | SentTo(base: string)

  function ByCard(card: Fetched, here: Place): Outcome {
    var base := Elsewhere(card.meet, card.url, here);
    if base.Some? then SentTo(base.value) else Page(false)
  }

  /** `held` is whether this worker holds the meet, `stored` whether its node has a record
      of it and that one says live, `card` what the control plane answers, if anything. */
  function Visit(id: Id, held: bool, stored: Option<bool>, card: Option<Fetched>, here: Place): Outcome {
    if !RecordCache.ValidId(id) then NotFound
    else if held then Page(true)
    else if stored == Some(true) then
      if card.Some? && card.value.meet.card.live then ByCard(card.value, here) else Page(false)
    else if stored.Some? then Page(false)
    else if card.Some? then ByCard(card.value, here)
    else NotFound
  }

  /** Nothing here comes before the card: the worker does not hold the meet, and its node
      has no record of it, or one that says live of a meet the card says live too. */
  predicate CardDecides(id: Id, held: bool, stored: Option<bool>, card: Fetched) {
    RecordCache.ValidId(id) && !held && (stored.None? || (stored == Some(true) && card.meet.card.live))
  }

  /** A visitor is sent on at most once, whatever the worker at the base a card names holds
      or has stored: it never sends the visitor on by the same card. */
  lemma SentOnAtMostOnce(
    id: Id, held: bool, stored: Option<bool>, card: Fetched, here: Place, heldThere: bool, storedThere: Option<bool>)
    requires card.meet.node.Some? && Visit(id, held, stored, Some(card), here).SentTo?
    ensures CardDecides(id, held, stored, card)
    ensures Visit(id, held, stored, Some(card), here) == SentTo(WorkerUrl(card.url, Destination(card.meet).worker))
    ensures !Visit(id, heldThere, storedThere, Some(card), Destination(card.meet)).SentTo?
  {
    WorkerUrlSpelt(card.url, Destination(card.meet).worker);
  }

  /** What a card fetched after a move says, at any later moment of a run that does not
      undo it: a live meet's visitors go from every worker but the target to the meet's
      base, a retired one's from every other node, and exactly where the card decides. */
  lemma VisitorsFollowMove(
    t: Tables, steps: seq<Step>, id: Id, target: Place, from: Place, at: int,
    held: bool, stored: Option<bool>, p: Place, here: string)
    requires RowsOk(t) && Moved(t, id, target, from, at) && target.worker != 0
    requires NoneUndoesMove(t, steps, id, target) && id in Run(t, steps).meets
    requires NodeUrl(Run(t, steps).meets[id], Run(t, steps).nodes) != ""
    ensures var u := Run(t, steps); var m := u.meets[id]; var card := Fetched(m, NodeUrl(m, u.nodes));
      && (Visit(id, held, stored, Some(card), p).SentTo?
          <==> CardDecides(id, held, stored, card) && (if m.card.live then p != target else p.node != target.node))
      && (Visit(id, held, stored, Some(card), p).SentTo? ==>
          Visit(id, held, stored, Some(card), p) == SentTo(MeetBase(m, u.nodes, here)))
  {
    MoveHolds(t, steps, id, target, from, at);
    var u := Run(t, steps);
    BasesAgree(u.meets[id], u.nodes, here);
    hide MeetBase, CardBase;
  }

  // ── The node's store ──

  /** A stored record: when it was written, and when it expires unless its meet is live. */
  datatype Row = Row(updated: int, expires: Option<int>)

  datatype StoreOp =
    | SaveLive(id: Id)
    | SaveOffline(id: Id, expires: int)
    | Update(id: Id)
    | KeepOnly(known: set<Id>)
    | Prune

  datatype StoreStep = StoreStep(op: StoreOp, now: int)

  /** A record's word on a meet: whether it is live, None past its own expiry. */
  function StoredWord(rows: map<Id, Row>, id: Id, now: int): Option<bool> {
    if id !in rows || (rows[id].expires.Some? && rows[id].expires.value <= now) then None
    else Some(rows[id].expires.None?)
  }

  function StoreApply(rows: map<Id, Row>, s: StoreStep): map<Id, Row> {
    match s.op
    case SaveLive(id) => rows[id := Row(s.now, None)]
    case SaveOffline(id, expires) => rows[id := Row(s.now, Some(expires))]
    case Update(id) => if id in rows then rows[id := rows[id].(updated := s.now)] else rows
    case KeepOnly(known) => map id | id in rows && (id in known || rows[id].updated >= s.now - FRESH) :: rows[id]
    case Prune =>
      map id | id in rows && !(rows[id].expires.Some? && rows[id].expires.value < s.now - DAY) :: rows[id]
  }

  function StoreRun(rows: map<Id, Row>, steps: seq<StoreStep>): map<Id, Row>
    decreases |steps|
  {
    if steps == [] then rows else StoreApply(StoreRun(rows, steps[..|steps| - 1]), steps[|steps| - 1])
  }

  /** The meet is not saved as live again. */
  predicate StaysOffline(steps: seq<StoreStep>, id: Id) {
    forall s :: s in steps ==> s.op != SaveLive(id) && !(s.op.SaveOffline? && s.op.id == id)
  }

  ghost predicate Timed(steps: seq<StoreStep>, since: int, until: int) {
    forall s :: s in steps ==> since <= s.now <= until
  }

  lemma {:induction false} OfflineRowStands(rows: map<Id, Row>, steps: seq<StoreStep>, id: Id, since: int, until: int, expires: int)
    requires id in rows && rows[id].updated >= since && rows[id].expires == Some(expires)
    requires StaysOffline(steps, id) && Timed(steps, since, until) && until <= since + 600 && until <= expires
    ensures id in StoreRun(rows, steps)
    ensures StoreRun(rows, steps)[id].expires == Some(expires) && StoreRun(rows, steps)[id].updated >= since
    decreases |steps|
  {
    if steps != [] {
      var before := steps[..|steps| - 1];
      assert forall s :: s in before ==> s in steps;
      OfflineRowStands(rows, before, id, since, until, expires);
      assert steps[|steps| - 1] in steps;
    }
  }

  /** Once the old holder has let a moved meet go and stored it offline, every worker of
      its node that does not hold it serves the offline record, for ten minutes at least
      and whatever the card says, while the meet is live elsewhere. */
  lemma OldNodeServesOffline(
    rows: map<Id, Row>, left: int, expires: int, steps: seq<StoreStep>, id: Id, now: int,
    card: Option<Fetched>, here: Place)
    requires RecordCache.ValidId(id) && left <= now <= left + 600 && now < expires
    requires StaysOffline(steps, id) && Timed(steps, left, now)
    ensures var kept := StoreRun(StoreApply(rows, StoreStep(SaveOffline(id, expires), left)), steps);
      Visit(id, false, StoredWord(kept, id, now), card, here) == Page(false)
  {
    OfflineRowStands(StoreApply(rows, StoreStep(SaveOffline(id, expires), left)), steps, id, left, now, expires);
  }

  /** The sweep that ends this drops the record exactly when the control plane no longer
      lists the meet for the node and it was last written longer ago than that. */
  lemma SweepFreesVisitors(rows: map<Id, Row>, known: set<Id>, id: Id, now: int)
    requires id in rows && StoredWord(rows, id, now) == Some(false)
    ensures StoredWord(StoreApply(rows, StoreStep(KeepOnly(known), now)), id, now)
      == if id !in known && rows[id].updated + 600 < now then None else Some(false)
  {
  }

  /** Pruning takes the records a day past their expiry, and no visitor sees it. */
  lemma PruneIsUnseen(rows: map<Id, Row>, id: Id, now: int, later: int)
    requires now <= later
    ensures var kept := StoreApply(rows, StoreStep(Prune, now));
      && (id in kept <==> id in rows && (rows[id].expires.Some? ==> rows[id].expires.value + 86400 >= now))
      && StoredWord(kept, id, later) == StoredWord(rows, id, later)
  {
  }

  /** The worker that holds a meet serves it live to every visitor, whatever its node's
      store and the control plane say. */
  lemma HolderServesLive(id: Id, stored: Option<bool>, card: Option<Fetched>, here: Place)
    requires RecordCache.ValidId(id)
    ensures Visit(id, true, stored, card, here) == Page(true)
    ensures Visit(id, false, stored, card, here) != Page(true)
  {
  }
}
