/** What every run of the registry keeps: the shape of its rows, and that a meet the
    admin moves stays where it was moved to. */
module Placement {
  import opened Text
  import opened IsoDate
  import opened Calendar
  import opened MeetTables

  datatype Op =
    | Register(id: Id, key: string, meta: Meta, place: Place)
    | Heartbeat(beat: Beat)
    | Retire(id: Id, place: Place)
    | RetireSilent
    | Move(id: Id, place: Place)
    | Restore(backup: map<Id, Record>, fallback: Option<string>)
    | SetExpiry(id: Id, at: int)
    | Delete(id: Id)
    | Sweep
    | ForgetTests
    | ForgetNode(name: string)
    | NodeState(name: string, active: bool)
    | Organizers(organizers: map<string, Organizer>)

  /** An operation and the time it ran at. */
  datatype Step = Step(op: Op, now: int)

  ghost function Apply(t: Tables, s: Step): Tables {
    match s.op
    case Register(id, key, meta, p) => AfterRegister(t, id, key, meta, p, s.now)
    case Heartbeat(b) => AfterBeat(t, b, s.now)
    case Retire(id, p) => t.(meets := RetireEach(t.meets, Held(t.meets, id, p), s.now))
    case RetireSilent => t.(meets := RetireEach(t.meets, Silent(t.meets, s.now - SILENT_AFTER), s.now))
    case Move(id, p) => AfterMove(t, id, p, s.now)
    case Restore(backup, fallback) => AfterRestore(t, backup, fallback, s.now)
    case SetExpiry(id, at) => AfterSetExpiry(t, id, at)
    case Delete(id) => AfterDelete(t, id)
    case Sweep => AfterSweep(t, s.now)
    case ForgetTests => AfterForgetTests(t)
    case ForgetNode(name) => AfterForgetNode(t, name)
    case NodeState(name, active) => AfterNodeState(t, name, active)
    case Organizers(organizers) => t.(organizers := organizers)
  }

  ghost function Run(t: Tables, steps: seq<Step>): Tables
    decreases |steps|
  {
    if steps == [] then t else Apply(Run(t, steps[..|steps| - 1]), steps[|steps| - 1])
  }

  // ── Rows ──

  /** A live row has a holder, no expiry, and no move from where it is; a retained one
      an expiry, nobody watching, and nothing kept listed. */
  ghost predicate RowOk(m: Meet) {
    && (m.card.live ==>
          m.expiresAt.None? && m.node.Some? && m.worker.Some? && m.lastSeen.Some?
          && (m.moveFrom.Some? ==> !m.At(m.moveFrom.value)))
    && (!m.card.live ==> m.expiresAt.Some? && m.attendees == 0 && m.card.keepUntil.None?)
    && (m.moveFrom.Some? <==> m.movedAt.Some?)
    && (m.moveFrom.Some? ==> m.node.Some? && m.worker.Some?)
    && m.attendees >= 0
  }

  ghost predicate RowsOk(t: Tables) {
    forall id :: id in t.meets ==> RowOk(t.meets[id])
  }

  lemma RegisteredRowOk(prev: Option<Meet>, key: string, meta: Meta, p: Place, now: int)
    requires prev.Some? ==> RowOk(prev.value)
    ensures RowOk(RegisteredRow(prev, key, meta, p, now))
  {
  }

  lemma RetainedRowOk(m: Meet, at: int)
    requires RowOk(m)
    ensures !m.card.live ==> RowOk(m.(expiresAt := Some(at)))
  {
  }

  lemma RetiredRowOk(m: Meet, now: int)
    requires RowOk(m)
    ensures RowOk(RetiredRow(m, now))
  {
  }

  lemma BeatRowOk(m: Meet, id: Id, b: Beat, now: int)
    requires RowOk(m)
    ensures RowOk(BeatRow(m, id, b, now))
  {
  }

  lemma MovedRowOk(m: Meet, p: Place, now: int)
    requires RowOk(m) && m.card.live && !m.At(p)
    ensures RowOk(MovedRow(m, p, now))
  {
  }

  lemma RestoredRowOk(prev: Option<Meet>, rec: Record, fallback: Option<string>, keys: set<string>, now: int)
    requires prev.Some? ==> RowOk(prev.value) && !prev.value.card.live
    ensures RowOk(RestoredRow(prev, rec, fallback, keys, now))
  {
  }

  lemma StepKeepsRow(t: Tables, s: Step, id: Id)
    requires id in t.meets ==> RowOk(t.meets[id])
    requires id in Apply(t, s).meets
    ensures RowOk(Apply(t, s).meets[id])
  {
    hide RowOk, BeatRow, RetiredRow, MovedRow, RestoredRow, RegisteredRow;
    match s.op
    case Register(x, key, meta, p) =>
      if x == id { RegisteredRowOk(Lookup(t.meets, id), key, meta, p, s.now); }
    case SetExpiry(x, at) => if id in t.meets { RetainedRowOk(t.meets[id], at); }
    case Heartbeat(b) => BeatRowOk(t.meets[id], id, b, s.now);
    case Retire(x, p) => RetiredRowOk(t.meets[id], s.now);
    case RetireSilent => RetiredRowOk(t.meets[id], s.now);
    case Move(x, p) =>
      if x == id && MoveAccepted(t, id, p, s.now) { MovedRowOk(t.meets[id], p, s.now); }
    case Restore(backup, fallback) =>
      if id in backup && !IsLive(t.meets, id) {
        RestoredRowOk(Lookup(t.meets, id), backup[id], fallback, t.organizers.Keys, s.now);
      }
    case _ =>
  }

  lemma StepKeepsRows(t: Tables, s: Step)
    requires RowsOk(t)
    ensures RowsOk(Apply(t, s))
  {
    forall id | id in Apply(t, s).meets
      ensures RowOk(Apply(t, s).meets[id])
    {
      StepKeepsRow(t, s, id);
    }
  }

  /** Every table a run can reach from empty ones has only such rows. */
  lemma {:induction false} RunKeepsRows(t: Tables, steps: seq<Step>)
    requires RowsOk(t)
    ensures RowsOk(Run(t, steps))
    decreases |steps|
  {
    if steps != [] {
      RunKeepsRows(t, steps[..|steps| - 1]);
      StepKeepsRows(Run(t, steps[..|steps| - 1]), steps[|steps| - 1]);
    }
  }

  /** What an operation may do to a live meet: leave it live, retire it in place, or
      drop a test meet. Its holder changes only by its own register or move. */
  lemma LiveMeetFate(t: Tables, s: Step, id: Id)
    requires RowsOk(t) && IsLive(t.meets, id)
    ensures id in Apply(t, s).meets || (s.op.ForgetTests? && TestMeet(t, t.meets[id]))
    ensures id in Apply(t, s).meets && (s.op.Register? || s.op.Move? ==> s.op.id != id) ==>
      var m := Apply(t, s).meets[id];
      m.node == t.meets[id].node && m.worker == t.meets[id].worker
      && m.moveFrom == t.meets[id].moveFrom && m.movedAt == t.meets[id].movedAt
  {
    hide RowsOk, RestoredRow, Calendar.Registered;
    match s.op
    case Heartbeat(b) =>
      assert Apply(t, s).meets[id] == BeatRow(t.meets[id], id, b, s.now);
    case _ =>
  }

  /** A beat touches only rows held at its own node and worker, and the retained rows
      it leaves are exactly the ones it dropped. */
  lemma BeatIsLocal(t: Tables, b: Beat, now: int, id: Id)
    requires RowsOk(t) && id in t.meets
    ensures !t.meets[id].HeldAt(b.place) ==> AfterBeat(t, b, now).meets[id] == t.meets[id]
    ensures IsLive(t.meets, id) ==>
      (!IsLive(AfterBeat(t, b, now).meets, id) <==> Dropped(t.meets[id], id, b, now))
  {
  }

  // ── Moves ──

  /** `id` is at `target`, live or not, moved there from `from` at `at`. */
  ghost predicate Moved(t: Tables, id: Id, target: Place, from: Place, at: int) {
    && id in t.meets && t.meets[id].At(target)
    && t.meets[id].moveFrom == Some(from) && t.meets[id].movedAt == Some(at)
  }

  lemma MoveTakesEffect(t: Tables, id: Id, target: Place, now: int)
    requires RowsOk(t) && MoveAccepted(t, id, target, now)
    ensures var from := Place(t.meets[id].node.value, t.meets[id].worker.value);
      && t.meets[id].HeldAt(from) && from != target
      && Moved(AfterMove(t, id, target, now), id, target, from, now)
      && IsLive(AfterMove(t, id, target, now).meets, id) && target.node in t.nodes
  {
    assert RowOk(t.meets[id]);
  }

  /** A backup's card for `id` is written: none is live under that id. */
  predicate RestoreNames(t: Tables, s: Step, id: Id) {
    s.op.Restore? && id in s.op.backup && !IsLive(t.meets, id)
  }

  /** The node a backup's card is written to. */
  function RestoredNode(t: Tables, s: Step, id: Id): Option<string>
    requires RestoreNames(t, s, id)
  {
    var rec := s.op.backup[id];
    RestoredRow(Lookup(t.meets, id), rec, s.op.fallback, t.organizers.Keys, s.now).node
  }

  /** The step undoes the move: the meet registers, or is moved again, and neither is
      refused; or a backup's card puts it on another node, or back after it was gone. */
  predicate UndoesMove(t: Tables, s: Step, id: Id, target: Place) {
    match s.op
    case Register(x, key, _, _) => x == id && KeyAccepted(t, key)
    case Move(x, p) => x == id && MoveAccepted(t, id, p, s.now)
    case Restore(_, _) => RestoreNames(t, s, id) && (id !in t.meets || RestoredNode(t, s, id) != Some(target.node))
    case _ => false
  }

  ghost predicate NoneUndoesMove(t: Tables, steps: seq<Step>, id: Id, target: Place)
    decreases |steps|
  {
    steps != [] ==>
      NoneUndoesMove(t, steps[..|steps| - 1], id, target)
      && !UndoesMove(Run(t, steps[..|steps| - 1]), steps[|steps| - 1], id, target)
  }

  /** A step undoes the move exactly where the row, if it is still there, no longer says
      so: a retire, a beat that drops the meet and all the rest leave it recorded. */
  lemma MoveUndoneOnlySo(t: Tables, s: Step, id: Id, target: Place, from: Place, at: int)
    requires RowsOk(t) && Moved(t, id, target, from, at) && id in Apply(t, s).meets
    ensures Moved(Apply(t, s), id, target, from, at) <==> !UndoesMove(t, s, id, target)
  {
    hide RowsOk, RowOk, Calendar.Registered, ComputeExpiry;
    match s.op
    case Heartbeat(b) =>
      assert Apply(t, s).meets[id] == BeatRow(t.meets[id], id, b, s.now);
    case _ =>
  }

  /** Over any run that does not undo the move, retires and all, the meet stays where it
      was moved to for as long as it has a row. */
  lemma {:induction false} MoveHolds(t: Tables, steps: seq<Step>, id: Id, target: Place, from: Place, at: int)
    requires RowsOk(t) && Moved(t, id, target, from, at)
    requires NoneUndoesMove(t, steps, id, target)
    ensures id in Run(t, steps).meets ==> Moved(Run(t, steps), id, target, from, at)
    decreases |steps|
  {
    if steps != [] {
      var before, s := steps[..|steps| - 1], steps[|steps| - 1];
      MoveHolds(t, before, id, target, from, at);
      RunKeepsRows(t, before);
      var u := Run(t, before);
      if id in Run(t, steps).meets {
        if id in u.meets { MoveUndoneOnlySo(u, s, id, target, from, at); } else { NoneComesBack(u, s, id, target); }
      }
    }
  }

  lemma NoneComesBack(t: Tables, s: Step, id: Id, target: Place)
    requires id !in t.meets && !UndoesMove(t, s, id, target)
    ensures id !in Apply(t, s).meets
  {
  }

  /** The operations that retire a moved meet where it is, or drop it: its target saying
      it left or no longer naming it once the grace is over, nobody vouching for it, or a
      test meet being forgotten. */
  predicate LetsGo(t: Tables, s: Step, id: Id, target: Place, at: int) {
    match s.op
    case Retire(x, p) => x == id && p == target
    case Heartbeat(b) => b.place == target && id !in b.live && s.now > at + 30
    case RetireSilent => id in Silent(t.meets, s.now - SILENT_AFTER)
    case ForgetTests => id in t.meets && TestMeet(t, t.meets[id])
    case _ => false
  }

  /** A meet that was moved stays live exactly through every other: its old holder's
      retires and beats, and for half a minute the target's beats that omit it. */
  lemma MovedMeetStaysLive(t: Tables, s: Step, id: Id, target: Place, from: Place, at: int)
    requires RowsOk(t) && Moved(t, id, target, from, at) && IsLive(t.meets, id)
    ensures IsLive(Apply(t, s).meets, id) <==> !LetsGo(t, s, id, target, at)
  {
    assert RowOk(t.meets[id]);
    match s.op
    case Heartbeat(b) =>
      assert Apply(t, s).meets[id] == BeatRow(t.meets[id], id, b, s.now);
    case _ =>
  }

  // ── Notices ──

  lemma {:induction false} DecimalInjective(a: nat, b: nat)
    requires Decimal(a) == Decimal(b)
    ensures a == b
  {
    DecimalReads(a);
    DecimalReads(b);
  }

  lemma IntTextSign(n: int)
    ensures IntText(n) != "" && (IntText(n)[0] == '-' <==> n < 0)
  {
    DecimalReads(if n < 0 then -n else n);
  }

  lemma IntTextInjective(a: int, b: int)
    ensures IntText(a) == IntText(b) <==> a == b
  {
    IntTextSign(a);
    IntTextSign(b);
    if IntText(a) == IntText(b) {
      if a < 0 {
        assert IntText(a)[1..] == Decimal(-a) && IntText(b)[1..] == Decimal(-b);
        DecimalInjective(-a, -b);
      } else {
        DecimalInjective(a, b);
      }
    }
  }

  lemma WorkerUrlInjective(host: string, a: int, b: int)
    ensures WorkerUrl(host, a) == WorkerUrl(host, b) <==> a == b
  {
    hide RStripSlash, IntText;
    var h := RStripSlash(host) + "/w";
    assert WorkerUrl(host, a) == h + IntText(a) && WorkerUrl(host, b) == h + IntText(b);
    assert (h + IntText(a))[|h|..] == IntText(a) && (h + IntText(b))[|h|..] == IntText(b);
    IntTextInjective(a, b);
  }

  /** The base a due notice names is where the meet is reached exactly when its node has
      told its address, and the meet is still live or on the node's first worker. With no
      address it names a path on the worker's own server. */
  lemma NoticeNamesTheMeetBase(t: Tables, b: Beat, now: int, id: Id, here: string)
    requires NoticeDue(t, id, b, now) && t.meets[id].worker.Some? && t.meets[id].worker.value != 0
    ensures var m := t.meets[id]; var host := t.nodes[m.node.value].host;
      WorkerUrl(host, m.worker.value) == MeetBase(m, t.nodes, here)
      <==> if host == "" then RStripSlash(here) == "/w" + IntText(m.worker.value)
           else m.card.live || m.worker.value == 1
  {
    var m := t.meets[id];
    var host := t.nodes[m.node.value].host;
    WorkerUrlInjective(host, m.worker.value, 1);
    assert "" + ("/w" + IntText(m.worker.value)) == "/w" + IntText(m.worker.value);
    if host == "" { assert WorkerUrl(host, m.worker.value) == "" + ("/w" + IntText(m.worker.value)); }
  }

  /** For a moved meet still in the table, live or retired, each beat of the old holder
      naming it is owed a notice for two minutes, as long as the node exists. */
  lemma NoticeIsDue(t: Tables, b: Beat, now: int, id: Id, target: Place, from: Place, at: int)
    requires RowsOk(t) && Moved(t, id, target, from, at) && from != target
    requires b.place == from && id in b.live
    ensures AfterBeat(t, b, now).meets[id] == t.meets[id]
    ensures NoticeDue(AfterBeat(t, b, now), id, b, now)
      <==> now <= at + 120 && target.node in AfterBeat(t, b, now).nodes
  {
    assert RowOk(t.meets[id]);
  }

  /** A notice that misleads: the target lets the meet go after its grace, and the old
      holder, still naming it, is sent to a worker the meet is no longer reached at. */
  lemma RetiredMeetIsMisnamed(
    t: Tables, id: Id, target: Place, from: Place, at: int, omits: Beat, late: int, names: Beat, now: int, here: string)
    requires RowsOk(t) && Moved(t, id, target, from, at) && from != target && target.worker >= 2
    requires omits.place == target && id !in omits.live && late > at + 30
    requires names.place == from && id in names.live && late <= now <= at + 120
    requires omits.report.host != "" && names.report.host != ""
    ensures var u := AfterBeat(AfterBeat(t, omits, late), names, now);
      && NoticeDue(u, id, names, now) && !u.meets[id].card.live
      && WorkerUrl(u.nodes[target.node].host, target.worker) != MeetBase(u.meets[id], u.nodes, here)
  {
    assert RowOk(t.meets[id]);
    var v := AfterBeat(t, omits, late);
    assert v.meets[id] == BeatRow(t.meets[id], id, omits, late);
    assert !v.meets[id].card.live && Moved(v, id, target, from, at);
    StepKeepsRows(t, Step(Heartbeat(omits), late));
    NoticeIsDue(v, names, now, id, target, from, at);
    NoticeNamesTheMeetBase(AfterBeat(v, names, now), names, now, id, here);
  }

  // ── Where a Pi is sent ──

  /** The node may take the organizer's meets: up, active, and in its region. */
  predicate Eligible(n: Node, org: Organizer, now: int) {
    Fresh(n, now) && (org.region.None? || n.region == org.region)
  }

  predicate Offered(t: Tables, org: Organizer, p: Place, now: int) {
    p.node in t.nodes && Eligible(t.nodes[p.node], org, now) && 1 <= p.worker <= t.nodes[p.node].workers
  }

  /** The last holder, when it may still take the meet. */
  function LastHolder(t: Tables, id: Id, org: Organizer, now: int): Option<Place> {
    if id in t.meets && t.meets[id].node.Some? && t.meets[id].worker.Some?
       && Offered(t, org, Place(t.meets[id].node.value, t.meets[id].worker.value), now)
    then Some(Place(t.meets[id].node.value, t.meets[id].worker.value))
    else None
  }

  /** A Pi asking again after a move, however long the run and whether or not the meet was
      retired meanwhile, is sent to the target while its row is kept and that worker may
      take the meet. */
  lemma PiFollowsMove(
    t: Tables, steps: seq<Step>, id: Id, target: Place, from: Place, at: int, org: Organizer, now: int)
    requires RowsOk(t) && Moved(t, id, target, from, at)
    requires NoneUndoesMove(t, steps, id, target)
    ensures var u := Run(t, steps);
      id in u.meets ==>
        LastHolder(u, id, org, now) == if Offered(u, org, target, now) then Some(target) else None
  {
    MoveHolds(t, steps, id, target, from, at);
  }
}
