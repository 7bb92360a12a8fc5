/** The registry's operations as the control plane runs them, one transaction each, over
    its tables. Each leaves exactly the tables `MeetTables` says. */
module Registry {
  import opened Text
  import opened Calendar
  import opened MeetTables
  import opened Placement

  datatype Reply = Reply(retired: set<Id>, revoked: set<Id>, moves: seq<Notice>, updateTo: Option<string>)

  datatype Assignment = Refused | NoNode | NoWorker | Assigned(place: Place)

  /** Every id of the set is named by exactly one notice, and nothing else is. */
  ghost predicate EachOnce(moves: seq<Notice>, ids: set<Id>) {
    && (forall i :: 0 <= i < |moves| ==> moves[i].id in ids)
    && (forall id :: id in ids ==> exists i :: 0 <= i < |moves| && moves[i].id == id)
    && (forall i, j :: 0 <= i < j < |moves| ==> moves[i].id != moves[j].id)
  }

  // ── Load ──

  /** A worker's load: its attendees, then how many live meets it holds. */
  datatype Load = Load(attendees: int, meets: int)

  function LoadAmong(meets: map<Id, Meet>, ids: seq<Id>, p: Place): Load
    requires forall id :: id in ids ==> id in meets
  {
    if ids == [] then Load(0, 0)
    else
      var n := |ids| - 1;
      var rest := LoadAmong(meets, ids[..n], p);
      if meets[ids[n]].HeldAt(p) then Load(rest.attendees + meets[ids[n]].attendees, rest.meets + 1) else rest
  }

  /** The load of `p` over the whole table, each meet counted once. */
  function LoadOf(meets: map<Id, Meet>, p: Place): Load {
    LoadAmong(meets, Sorted(meets.Keys), p)
  }

  ghost function HeldBy(meets: map<Id, Meet>, p: Place): set<Id> {
    set id | id in meets && meets[id].HeldAt(p)
  }

  ghost function Among(ids: seq<Id>): set<Id> {
    set id | id in ids
  }

  lemma CountOneMore(held: set<Id>, seen: set<Id>, id: Id)
    requires id !in seen
    ensures |held * (seen + {id})| == |held * seen| + (if id in held then 1 else 0)
  {
    if id in held {
      assert held * (seen + {id}) == held * seen + {id};
    } else {
      assert held * (seen + {id}) == held * seen;
    }
  }

  lemma LastIsNew(ids: seq<Id>)
    requires Ascending(ids) && ids != []
    ensures var before, last := ids[..|ids| - 1], ids[|ids| - 1];
      last !in before && Ascending(before) && Among(ids) == Among(before) + {last}
  {
    var before, last := ids[..|ids| - 1], ids[|ids| - 1];
    StrLessIrreflexive(last);
    hide StrLess;
    assert ids == before + [last];
  }

  lemma {:induction false} LoadCountsAmong(meets: map<Id, Meet>, ids: seq<Id>, p: Place)
    requires (forall id :: id in ids ==> id in meets) && Ascending(ids)
    ensures LoadAmong(meets, ids, p).meets == |HeldBy(meets, p) * Among(ids)|
  {
    if ids == [] {
      assert Among(ids) == {} && HeldBy(meets, p) * {} == {};
    } else {
      var n := |ids| - 1;
      var before, last := ids[..n], ids[n];
      LastIsNew(ids);
      hide Ascending, Among;
      assert last in ids && forall id :: id in before ==> id in ids;
      LoadCountsAmong(meets, before, p);
      CountOneMore(HeldBy(meets, p), Among(before), last);
    }
  }

  /** A worker's load counts each of the live meets it holds, once. */
  lemma LoadCountsMeets(meets: map<Id, Meet>, p: Place)
    ensures LoadOf(meets, p).meets == |HeldBy(meets, p)|
  {
    LoadCountsAmong(meets, Sorted(meets.Keys), p);
    assert HeldBy(meets, p) * Among(Sorted(meets.Keys)) == HeldBy(meets, p);
  }

  lemma {:induction false} LoadAmongChanged(meets: map<Id, Meet>, ids: seq<Id>, p: Place, id: Id, k: int)
    requires (forall x :: x in ids ==> x in meets) && Ascending(ids) && id in meets
    ensures var more := meets[id := meets[id].(attendees := meets[id].attendees + k)];
      LoadAmong(more, ids, p).attendees
        == LoadAmong(meets, ids, p).attendees + (if id in ids && meets[id].HeldAt(p) then k else 0)
  {
    if ids != [] {
      var n := |ids| - 1;
      LastIsNew(ids);
      assert ids[n] in ids && forall x :: x in ids <==> x in ids[..n] || x == ids[n];
      LoadAmongChanged(meets, ids[..n], p, id, k);
    }
  }

  /** Each attendee of a live meet counts in the load of its worker, once, and in no
      other's. */
  lemma LoadCountsAttendees(meets: map<Id, Meet>, p: Place, id: Id, k: int)
    requires id in meets
    ensures LoadOf(meets[id := meets[id].(attendees := meets[id].attendees + k)], p).attendees
      == LoadOf(meets, p).attendees + (if meets[id].HeldAt(p) then k else 0)
  {
    var more := meets[id := meets[id].(attendees := meets[id].attendees + k)];
    assert more.Keys == meets.Keys;
    LoadAmongChanged(meets, Sorted(meets.Keys), p, id, k);
  }

  lemma {:induction false} LoadAmongNone(meets: map<Id, Meet>, ids: seq<Id>, p: Place)
    requires forall id :: id in ids ==> id in meets && (meets[id].HeldAt(p) ==> meets[id].attendees == 0)
    ensures LoadAmong(meets, ids, p).attendees == 0
  {
    if ids != [] {
      assert ids[|ids| - 1] in ids && forall id :: id in ids[..|ids| - 1] ==> id in ids;
      LoadAmongNone(meets, ids[..|ids| - 1], p);
    }
  }

  /** And nothing else does: a worker none of whose meets has an attendee has none. */
  lemma LoadStartsAtNone(meets: map<Id, Meet>, p: Place)
    requires forall id :: id in meets && meets[id].HeldAt(p) ==> meets[id].attendees == 0
    ensures LoadOf(meets, p).attendees == 0
  {
    LoadAmongNone(meets, Sorted(meets.Keys), p);
  }

  /** `a` on `p` comes before `b` on `q`: fewer attendees, then fewer meets, then by name. */
  predicate Before(a: Load, p: Place, b: Load, q: Place) {
    a.attendees < b.attendees || (a.attendees == b.attendees &&
      (a.meets < b.meets || (a.meets == b.meets &&
        (StrLess(p.node, q.node) || (p.node == q.node && p.worker < q.worker)))))
  }

  lemma BeforeTransitive(a: Load, p: Place, b: Load, q: Place, c: Load, r: Place)
    requires Before(a, p, b, q) && Before(b, q, c, r)
    ensures Before(a, p, c, r)
  {
    if StrLess(p.node, q.node) && StrLess(q.node, r.node) {
      StrLessTransitive(p.node, q.node, r.node);
    }
  }

  lemma BeforeTotal(a: Load, p: Place, b: Load, q: Place)
    ensures Before(a, p, b, q) || p == q || Before(b, q, a, p)
    ensures p == q && a == b ==> !Before(a, p, b, q)
  {
    StrLessTotal(p.node, q.node);
    StrLessIrreflexive(p.node);
  }

  // ── Replies ──

  function Due(t: Tables, b: Beat, now: int): set<Id> {
    set id | id in t.meets && NoticeDue(t, id, b, now)
  }

  predicate NoticeFor(t: Tables, n: Notice, b: Beat, now: int) {
    NoticeDue(t, n.id, b, now) && t.meets[n.id].worker.Some?
    && n.base == WorkerUrl(t.nodes[t.meets[n.id].node.value].host, t.meets[n.id].worker.value)
  }

  /** The meets held by this worker under a key the admin has since withdrawn. */
  function Revoked(t: Tables, b: Beat): set<Id> {
    set id | id in b.live && id in t.meets && t.meets[id].HeldAt(b.place)
             && !(t.meets[id].key.Some? && KeyAccepted(t, t.meets[id].key.value))
  }

  lemma OneMore(moves: seq<Notice>, n: Notice, ids: set<Id>)
    requires EachOnce(moves, ids) && n.id !in ids
    ensures EachOnce(moves + [n], ids + {n.id})
  {
    var more := moves + [n];
    assert more[|moves|].id == n.id;
    forall id | id in ids
      ensures exists i :: 0 <= i < |more| && more[i].id == id
    {
      var i :| 0 <= i < |moves| && moves[i].id == id;
      assert more[i].id == id;
    }
  }

  lemma NotedInTurn(
    meets: map<Id, Meet>, b: Beat, touched: map<Id, Meet>, framed: map<Id, Meet>, noted: map<Id, Meet>, now: int)
    requires touched == map id | id in meets :: Touched(meets[id], id, b, now)
    requires framed == map id | id in touched :: FrameNoted(touched[id], id, b.place, b.frames)
    requires noted == map id | id in framed :: AttendeesNoted(framed[id], id, b.place, b.attendees)
    ensures noted == map id | id in meets :: Noted(meets[id], id, b, now)
    ensures forall id :: id in meets ==> Dropped(noted[id], id, b, now) == Dropped(meets[id], id, b, now)
  {
    forall id | id in meets
      ensures noted[id] == Noted(meets[id], id, b, now)
    {
      assert framed[id] == FrameNoted(touched[id], id, b.place, b.frames);
    }
  }

  lemma RetireNoted(meets: map<Id, Meet>, b: Beat, gone: set<Id>, now: int)
    requires gone == set id | id in meets && Dropped(meets[id], id, b, now)
    ensures RetireEach(map id | id in meets :: Noted(meets[id], id, b, now), gone, now)
      == map id | id in meets :: BeatRow(meets[id], id, b, now)
  {
  }

  lemma BeatKeepsRows(t: Tables, b: Beat, now: int)
    requires RowsOk(t)
    ensures var u := AfterBeat(t, b, now);
      forall id :: id in u.meets && u.meets[id].moveFrom.Some? ==> u.meets[id].worker.Some?
  {
    var u := AfterBeat(t, b, now);
    forall id | id in u.meets
      ensures RowOk(u.meets[id])
    {
      BeatRowOk(t.meets[id], id, b, now);
    }
  }

  function LiveIds(meets: map<Id, Meet>): set<Id> {
    set id | id in meets && meets[id].card.live
  }

  // ── One statement after another ──

  /** Retire the rows named, one at a time. */
  method RetireRows(meets: map<Id, Meet>, ids: set<Id>, now: int) returns (r: map<Id, Meet>)
    requires ids <= meets.Keys
    ensures r == RetireEach(meets, ids, now)
  {
    r := meets;
    var todo := ids;
    while todo != {}
      invariant todo <= ids
      invariant r == RetireEach(meets, ids - todo, now)
      decreases |todo|
    {
      var id :| id in todo;
      r := r[id := RetiredRow(r[id], now)];
      todo := todo - {id};
    }
  }

  /** Record when the meets held at `p` last sent a frame. */
  method NoteFrames(meets: map<Id, Meet>, p: Place, frames: map<Id, int>) returns (r: map<Id, Meet>)
    ensures r == map id | id in meets :: FrameNoted(meets[id], id, p, frames)
  {
    r := meets;
    var todo := frames.Keys;
    while todo != {}
      invariant todo <= frames.Keys && r.Keys == meets.Keys
      invariant forall id :: id in meets ==> r[id] == if id in todo then meets[id] else FrameNoted(meets[id], id, p, frames)
      decreases |todo|
    {
      var id :| id in todo;
      if id in meets && r[id].HeldAt(p) {
        r := r[id := r[id].(card := r[id].card.(lastFrame := Some(frames[id])))];
      }
      todo := todo - {id};
    }
  }

  /** Record how many attendees the meets held at `p` have, never below none. */
  method NoteAttendees(meets: map<Id, Meet>, p: Place, attendees: map<Id, int>) returns (r: map<Id, Meet>)
    ensures r == map id | id in meets :: AttendeesNoted(meets[id], id, p, attendees)
  {
    r := meets;
    var todo := attendees.Keys;
    while todo != {}
      invariant todo <= attendees.Keys && r.Keys == meets.Keys
      invariant forall id :: id in meets ==> r[id] == if id in todo then meets[id] else AttendeesNoted(meets[id], id, p, attendees)
      decreases |todo|
    {
      var id :| id in todo;
      if id in meets && r[id].HeldAt(p) {
        r := r[id := r[id].(attendees := if attendees[id] > 0 then attendees[id] else 0)];
      }
      todo := todo - {id};
    }
  }

  /** Write the cards of a backup back, one at a time, skipping the live ones. */
  method RestoreCards(
    meets: map<Id, Meet>, backup: map<Id, Record>, fallback: Option<string>, keys: set<string>, now: int)
    returns (r: map<Id, Meet>, written: set<Id>)
    ensures r == RestoreEach(meets, backup, backup.Keys, fallback, keys, now)
    ensures written == backup.Keys - LiveIds(meets)
  {
    hide RestoreEach;
    RestoreNone(meets, backup, fallback, keys, now);
    r, written := meets, {};
    var live := LiveIds(meets);
    var todo := backup.Keys;
    ghost var done: set<Id> := {};
    while todo != {}
      invariant done <= backup.Keys && forall x :: x in todo <==> x in backup.Keys && x !in done
      invariant forall x :: x in written <==> x in done && x !in live
      invariant r == RestoreEach(meets, backup, done, fallback, keys, now)
      decreases |todo|
    {
      var id :| id in todo;
      r := RestoreCard(r, meets, backup, done, id, fallback, keys, now);
      if id !in live {
        written := written + {id};
      }
      todo, done := todo - {id}, done + {id};
    }
    assert done == backup.Keys;
  }

  lemma RestoreNone(meets: map<Id, Meet>, backup: map<Id, Record>, fallback: Option<string>, keys: set<string>, now: int)
    ensures RestoreEach(meets, backup, {}, fallback, keys, now) == meets
  {
  }

  /** One card, after those of `done`. */
  method RestoreCard(
    r: map<Id, Meet>, ghost meets: map<Id, Meet>, backup: map<Id, Record>, ghost done: set<Id>, id: Id,
    fallback: Option<string>, keys: set<string>, now: int)
    returns (u: map<Id, Meet>)
    requires done <= backup.Keys && id in backup && id !in done
    requires r == RestoreEach(meets, backup, done, fallback, keys, now)
    ensures u == RestoreEach(meets, backup, done + {id}, fallback, keys, now)
  {
    u := if IsLive(r, id) then r else r[id := RestoredRow(Lookup(r, id), backup[id], fallback, keys, now)];
    assert Lookup(r, id) == Lookup(meets, id);
  }

  /** What a worker is told of one meet moved off it. */
  function NoticeOf(t: Tables, id: Id): Notice
    requires id in t.meets && t.meets[id].worker.Some? && t.meets[id].node.Some? && t.meets[id].node.value in t.nodes
  {
    Notice(id, WorkerUrl(t.nodes[t.meets[id].node.value].host, t.meets[id].worker.value))
  }

  /** The notices owed to a worker, one per meet moved off it that it still names. */
  method Notices(t: Tables, b: Beat, now: int) returns (moves: seq<Notice>)
    requires forall id :: id in t.meets && t.meets[id].moveFrom.Some? ==> t.meets[id].worker.Some?
    ensures EachOnce(moves, Due(t, b, now))
    ensures forall n :: n in moves ==> NoticeFor(t, n, b, now)
  {
    hide EachOnce, WorkerUrl;
    moves := [];
    var due := Due(t, b, now);
    var todo := due;
    ghost var done: set<Id> := {};
    NoneYet();
    while todo != {}
      invariant todo <= due && todo !! done && todo + done == due
      invariant EachOnce(moves, done)
      invariant forall n :: n in moves ==> NoticeFor(t, n, b, now)
      decreases |todo|
    {
      var id :| id in todo;
      OneMore(moves, NoticeOf(t, id), done);
      moves := moves + [NoticeOf(t, id)];
      todo, done := todo - {id}, done + {id};
    }
    assert done == due;
  }

  lemma NoneYet()
    ensures EachOnce([], {})
  {
  }

  /** A worker's load, read row by row. */
  method LoadAt(meets: map<Id, Meet>, p: Place) returns (load: Load)
    ensures load == LoadOf(meets, p)
  {
    var ids := Sorted(meets.Keys);
    load := Load(0, 0);
    for i := 0 to |ids|
      invariant load == LoadAmong(meets, ids[..i], p)
    {
      assert ids[..i + 1][..i] == ids[..i] && ids[i] in ids;
      if meets[ids[i]].HeldAt(p) {
        load := Load(load.attendees + meets[ids[i]].attendees, load.meets + 1);
      }
    }
    assert ids[..|ids|] == ids;
  }

  /** Every worker of the named nodes. */
  function Workers(nodes: map<string, Node>, names: seq<string>): seq<Place>
    requires forall n :: n in names ==> n in nodes
  {
    if names == [] then []
    else WorkersOf(names[0], nodes[names[0]].workers) + Workers(nodes, names[1..])
  }

  function WorkersOf(name: string, workers: int): (r: seq<Place>)
    ensures forall p :: p in r <==> p.node == name && 1 <= p.worker <= workers
    decreases workers
  {
    if workers < 1 then [] else WorkersOf(name, workers - 1) + [Place(name, workers)]
  }

  lemma {:induction false} WorkersAmong(nodes: map<string, Node>, names: seq<string>)
    requires forall n :: n in names ==> n in nodes
    ensures forall p :: p in Workers(nodes, names) <==>
      p.node in names && 1 <= p.worker <= nodes[p.node].workers
  {
    if names != [] { WorkersAmong(nodes, names[1..]); }
  }

  lemma WorkersAreOffered(t: Tables, org: Organizer, names: seq<string>, now: int)
    requires forall n :: n in names <==> n in t.nodes && Eligible(t.nodes[n], org, now)
    ensures forall p :: p in Workers(t.nodes, names) <==> Offered(t, org, p, now)
  {
    WorkersAmong(t.nodes, names);
  }

  /** The first of the places by load, then by name. */
  method LeastLoaded(meets: map<Id, Meet>, places: seq<Place>) returns (p: Place)
    requires places != []
    ensures p in places
    ensures forall q :: q in places && q != p ==> Before(LoadOf(meets, p), p, LoadOf(meets, q), q)
  {
    p := places[0];
    var best := LoadAt(meets, p);
    for i := 1 to |places|
      invariant p in places && best == LoadOf(meets, p)
      invariant forall q :: q in places[..i] && q != p ==> Before(best, p, LoadOf(meets, q), q)
    {
      var load := LoadAt(meets, places[i]);
      if Before(load, places[i], best, p) {
        forall q | q in places[..i] && q != p
          ensures Before(load, places[i], LoadOf(meets, q), q)
        {
          BeforeTransitive(load, places[i], best, p, LoadOf(meets, q), q);
        }
        p, best := places[i], load;
      } else {
        BeforeTotal(load, places[i], best, p);
      }
    }
    assert places[..|places|] == places;
  }

  class Registry {
    var meets: map<Id, Meet>
    var nodes: map<string, Node>
    var organizers: map<string, Organizer>

    function T(): Tables
      reads this
    {
      Tables(meets, nodes, organizers)
    }

    constructor ()
      ensures T() == Tables(map[], map[], map[]) && RowsOk(T())
    {
      meets, nodes, organizers := map[], map[], map[];
    }

    /** A Pi registered a meet on a worker. */
    method Register(id: Id, key: string, meta: Meta, p: Place, now: int) returns (ok: bool)
      modifies this`meets
      ensures T() == AfterRegister(old(T()), id, key, meta, p, now)
      ensures ok == KeyAccepted(old(T()), key)
    {
      ok := KeyAccepted(T(), key);
      if ok {
        meets := meets[id := RegisteredRow(Lookup(meets, id), key, meta, p, now)];
      }
    }

    /** The Pi disconnected: only the holder retires the meet. */
    method Retire(id: Id, p: Place, now: int)
      modifies this`meets
      ensures T() == Apply(old(T()), Step(Op.Retire(id, p), now))
    {
      meets := RetireRows(meets, Held(meets, id, p), now);
    }

    /** Retire live meets nobody has vouched for in a while. */
    method RetireSilent(now: int) returns (gone: set<Id>)
      modifies this`meets
      ensures T() == Apply(old(T()), Step(Op.RetireSilent, now))
      ensures gone == Silent(old(meets), now - SILENT_AFTER)
    {
      gone := Silent(meets, now - SILENT_AFTER);
      meets := RetireRows(meets, gone, now);
    }

    /** Move a live meet to another worker. */
    method Move(id: Id, p: Place, now: int) returns (ok: bool)
      modifies this`meets
      ensures T() == AfterMove(old(T()), id, p, now)
      ensures ok == MoveAccepted(old(T()), id, p, now)
    {
      ok := MoveAccepted(T(), id, p, now);
      if ok {
        meets := meets[id := MovedRow(meets[id], p, now)];
      }
    }

    /** Write a beat's report down, and retire what the worker has dropped. */
    method RecordBeat(b: Beat, now: int) returns (gone: set<Id>)
      modifies this`meets, this`nodes
      ensures T() == AfterBeat(old(T()), b, now)
      ensures gone == set id | id in old(meets) && Dropped(old(meets)[id], id, b, now)
    {
      nodes := nodes[b.place.node := BeatNode(Lookup(nodes, b.place.node), b.report, now)];
      var touched := map id | id in meets :: Touched(meets[id], id, b, now);
      var framed := NoteFrames(touched, b.place, b.frames);
      var noted := NoteAttendees(framed, b.place, b.attendees);
      gone := set id | id in noted && Dropped(noted[id], id, b, now);
      NotedInTurn(meets, b, touched, framed, noted, now);
      RetireNoted(meets, b, gone, now);
      meets := RetireRows(noted, gone, now);
    }

    /** A worker says which meets it holds, and learns what became of them. */
    method Heartbeat(b: Beat, now: int) returns (r: Reply)
      requires RowsOk(T())
      modifies this`meets, this`nodes
      ensures T() == AfterBeat(old(T()), b, now)
      ensures r.retired == set id | id in old(meets) && Dropped(old(meets)[id], id, b, now)
      ensures r.revoked == Revoked(T(), b)
      ensures forall id ::
        id in r.revoked <==>
          (id in b.live && IsLive(meets, id) && meets[id].At(b.place)
           && !(meets[id].key.Some? && meets[id].key.value in organizers && organizers[meets[id].key.value].active))
      ensures EachOnce(r.moves, Due(T(), b, now))
      ensures forall n :: n in r.moves ==> NoticeFor(T(), n, b, now)
      ensures r.updateTo == UpdateTo(nodes[b.place.node])
    {
      ghost var before := T();
      var gone := RecordBeat(b, now);
      BeatKeepsRows(before, b, now);
      var moves := Notices(T(), b, now);
      r := Reply(gone, Revoked(T(), b), moves, UpdateTo(nodes[b.place.node]));
    }

    /** Where a Pi should publish a meet: back to its last holder while that one may take
        it, else the least loaded worker it may be offered. */
    method Assign(key: string, id: Id, now: int) returns (a: Assignment)
      ensures a.Refused? <==> !KeyAccepted(T(), key)
      ensures a.NoNode? ==> forall name :: name in nodes ==> !Eligible(nodes[name], organizers[key], now)
      ensures a.NoWorker? ==> forall p :: !Offered(T(), organizers[key], p, now)
      ensures a.Assigned? ==> Offered(T(), organizers[key], a.place, now)
      ensures KeyAccepted(T(), key) && LastHolder(T(), id, organizers[key], now).Some? ==>
        a == Assigned(LastHolder(T(), id, organizers[key], now).value)
      ensures a.Assigned? && LastHolder(T(), id, organizers[key], now).None? ==>
        forall p :: Offered(T(), organizers[key], p, now) && p != a.place ==>
          Before(LoadOf(meets, a.place), a.place, LoadOf(meets, p), p)
      ensures a.Assigned? && LastHolder(T(), id, organizers[key], now).None? ==>
        forall p :: Offered(T(), organizers[key], p, now) ==>
          LoadOf(meets, a.place).attendees < LoadOf(meets, p).attendees
          || (LoadOf(meets, a.place).attendees == LoadOf(meets, p).attendees
              && (LoadOf(meets, a.place).meets < LoadOf(meets, p).meets
                  || (LoadOf(meets, a.place).meets == LoadOf(meets, p).meets
                      && (StrLess(a.place.node, p.node) || (a.place.node == p.node && a.place.worker <= p.worker)))))
    {
      if !KeyAccepted(T(), key) { return Refused; }
      var org := organizers[key];
      var up := set name | name in nodes && Eligible(nodes[name], org, now);
      if up == {} {
        assert forall name :: name in nodes && Eligible(nodes[name], org, now) ==> name in up;
        return NoNode;
      }
      var last := LastHolder(T(), id, org, now);
      if last.Some? { return Assigned(last.value); }
      var places := Workers(nodes, Sorted(up));
      WorkersAreOffered(T(), org, Sorted(up), now);
      if places == [] { return NoWorker; }
      var p := LeastLoaded(meets, places);
      a := Assigned(p);
    }

    /** Upsert a backup's cards, retained; a live meet is left as it is. */
    method Restore(backup: map<Id, Record>, fallback: Option<string>, now: int) returns (written: set<Id>)
      modifies this`meets
      ensures T() == AfterRestore(old(T()), backup, fallback, now)
      ensures written == backup.Keys - LiveIds(old(meets))
    {
      meets, written := RestoreCards(meets, backup, fallback, organizers.Keys, now);
    }

    method SetExpiry(id: Id, at: int)
      modifies this`meets
      ensures T() == AfterSetExpiry(old(T()), id, at)
    {
      if id in meets && !meets[id].card.live {
        meets := meets[id := meets[id].(expiresAt := Some(at))];
      }
    }

    method Delete(id: Id)
      modifies this`meets
      ensures T() == AfterDelete(old(T()), id)
    {
      if !IsLive(meets, id) {
        meets := meets - {id};
      }
    }

    method SweepExpired(now: int)
      modifies this`meets
      ensures T() == AfterSweep(old(T()), now)
    {
      meets := map id | id in meets && !Swept(meets[id], now) :: meets[id];
    }
  }

  /** The version a rollout released a node to, while it runs another. */
  function UpdateTo(n: Node): Option<string> {
    if n.target.Some? && n.target.value != "" && n.target.value != n.version then n.target else None
  }
}
