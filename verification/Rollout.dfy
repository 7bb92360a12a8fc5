/** Rolling updates: the control plane releases one node at a time to a version, and
    the nodes' own heartbeats say when each is done. */
module Rollout {
  import opened Text
  import opened Calendar
  import opened MeetTables
  import Registry

  const ROLLOUT_TIMEOUT := 15 * 60

  datatype Phase = Scheduled | Running | Waiting | Done | Failed | Stopped

  /** The rollout setting. `note` names the nodes it is about. */
  datatype Plan = Plan(version: string, phase: Phase, note: seq<string>, force: bool, notBefore: Option<int>)

  datatype Fleet = Fleet(nodes: map<string, Node>, plan: Option<Plan>)

  // ── One operation ──

  /** The node was released to a version it does not report yet. */
  predicate Updating(n: Node) {
    n.target.Some? && n.target.value != "" && n.version != n.target.value
  }

  /** The node runs another version and has been heard from. */
  predicate Pending(n: Node, version: string, now: int) {
    n.version != version && n.lastSeen >= now - SILENT_AFTER
  }

  function UpdatingNodes(nodes: map<string, Node>): set<string> {
    set name | name in nodes && Updating(nodes[name])
  }

  function PendingNodes(nodes: map<string, Node>, version: string, now: int): set<string> {
    set name | name in nodes && Pending(nodes[name], version, now)
  }

  function Started(s: Fleet, version: string, force: bool, notBefore: Option<int>): Fleet {
    Fleet(map name | name in s.nodes :: s.nodes[name].(target := None, targetSetAt := None),
          Some(Plan(version, if notBefore.Some? then Scheduled else Running, [], force, notBefore)))
  }

  function HasStopped(s: Fleet): Fleet {
    if s.plan.Some? && (s.plan.value.phase.Running? || s.plan.value.phase.Waiting? || s.plan.value.phase.Scheduled?)
    then s.(plan := Some(s.plan.value.(phase := Stopped, note := []))) else s
  }

  /** The plan has work to do at `now`. */
  predicate Active(p: Plan, now: int) {
    p.phase.Running? || p.phase.Waiting?
    || (p.phase.Scheduled? && (p.notBefore.None? || p.notBefore.value <= now))
  }

  /** One pass, `busy` being the nodes that carry a running meet. */
  function Advanced(s: Fleet, busy: set<string>, now: int): Fleet {
    if s.plan.None? || !Active(s.plan.value, now) then s
    else
      var p := s.plan.value;
      var updating := UpdatingNodes(s.nodes);
      var pending := PendingNodes(s.nodes, p.version, now);
      var free := if p.force then pending else pending - busy;
      if updating != {} then
        var name := First(updating);
        if s.nodes[name].targetSetAt.Some? && s.nodes[name].targetSetAt.value < now - ROLLOUT_TIMEOUT then
          Fleet(s.nodes[name := s.nodes[name].(target := None)], Some(p.(phase := Failed, note := [name])))
        else s.(plan := Some(p.(phase := Running, note := [name])))
      else if pending == {} then s.(plan := Some(p.(phase := Done, note := [])))
      else if free == {} then s.(plan := Some(p.(phase := Waiting, note := Sorted(pending))))
      else
        var name := First(free);
        Fleet(s.nodes[name := s.nodes[name].(target := Some(p.version), targetSetAt := Some(now))],
              Some(p.(phase := Running, note := [name])))
  }

  /** The node a pass releases. */
  function Release(s: Fleet, busy: set<string>, now: int): Option<string> {
    if s.plan.None? || !Active(s.plan.value, now) || UpdatingNodes(s.nodes) != {} then None
    else
      var pending := PendingNodes(s.nodes, s.plan.value.version, now);
      var free := if s.plan.value.force then pending else pending - busy;
      if free == {} then None else Some(First(free))
  }

  datatype Op =
    | Start(version: string, force: bool, notBefore: Option<int>)
    | Stop
    | Advance(busy: set<string>, now: int)
    | Beat(name: string, report: Report, at: int)
    | Forget(name: string)

  ghost function Apply(s: Fleet, op: Op): Fleet {
    match op
    case Start(version, force, notBefore) => Started(s, version, force, notBefore)
    case Stop => HasStopped(s)
    case Advance(busy, now) => Advanced(s, busy, now)
    case Beat(name, report, at) => s.(nodes := s.nodes[name := BeatNode(Lookup(s.nodes, name), report, at)])
    case Forget(name) => s.(nodes := s.nodes - {name})
  }

  ghost function Run(s: Fleet, ops: seq<Op>): Fleet
    decreases |ops|
  {
    if ops == [] then s else Apply(Run(s, ops[..|ops| - 1]), ops[|ops| - 1])
  }

  /** A version is never empty, and a node that reports its target goes on reporting it. */
  ghost predicate Expected(s: Fleet, op: Op) {
    match op
    case Start(version, _, _) => version != ""
    case Beat(name, report, _) =>
      name in s.nodes && s.nodes[name].target == Some(s.nodes[name].version) ==>
        report.version == "" || report.version == s.nodes[name].version
    case _ => true
  }

  ghost predicate AllExpected(s: Fleet, ops: seq<Op>)
    decreases |ops|
  {
    ops != [] ==> AllExpected(s, ops[..|ops| - 1]) && Expected(Run(s, ops[..|ops| - 1]), ops[|ops| - 1])
  }

  // ── One node at a time ──

  /** At most one node is updating, and every target is the rollout's version. */
  ghost predicate FleetOk(s: Fleet) {
    && (forall a, b :: a in UpdatingNodes(s.nodes) && b in UpdatingNodes(s.nodes) ==> a == b)
    && (forall name :: name in s.nodes && s.nodes[name].target.Some? ==>
          s.plan.Some? && s.nodes[name].target == Some(s.plan.value.version) && s.nodes[name].targetSetAt.Some?)
    && (s.plan.Some? ==> s.plan.value.version != "")
  }

  lemma StepKeepsFleet(s: Fleet, op: Op)
    requires FleetOk(s) && Expected(s, op)
    ensures FleetOk(Apply(s, op))
  {
    var u := Apply(s, op);
    forall name | name in UpdatingNodes(u.nodes)
      ensures name in UpdatingNodes(s.nodes) || (op.Advance? && Release(s, op.busy, op.now) == Some(name))
    {
    }
  }

  /** So it is in every run. */
  lemma {:induction false} RunKeepsFleet(s: Fleet, ops: seq<Op>)
    requires FleetOk(s) && AllExpected(s, ops)
    ensures FleetOk(Run(s, ops))
    decreases |ops|
  {
    if ops != [] {
      RunKeepsFleet(s, ops[..|ops| - 1]);
      StepKeepsFleet(Run(s, ops[..|ops| - 1]), ops[|ops| - 1]);
    }
  }

  // ── Once each ──

  /** The nodes released since the rollout started, less those the admin has forgotten. */
  ghost function Log(s: Fleet, ops: seq<Op>): seq<string>
    decreases |ops|
  {
    if ops == [] then []
    else
      var before := ops[..|ops| - 1];
      match ops[|ops| - 1]
      case Start(_, _, _) => []
      case Forget(name) => Without(Log(s, before), name)
      case Advance(busy, now) =>
        var r := Release(Run(s, before), busy, now);
        if r.Some? then Log(s, before) + [r.value] else Log(s, before)
      case _ => Log(s, before)
  }

  ghost function Without(names: seq<string>, name: string): (r: seq<string>)
    ensures forall n :: n in r <==> n in names && n != name
    ensures Distinct(names) ==> Distinct(r)
  {
    if names == [] then []
    else
      var last := names[|names| - 1];
      var rest := Without(names[..|names| - 1], name);
      assert Distinct(names) ==> last !in rest;
      if last == name then rest else rest + [last]
  }

  ghost predicate Distinct(names: seq<string>) {
    forall i, j :: 0 <= i < j < |names| ==> names[i] != names[j]
  }

  /** What a released node's row says until the rollout fails or starts over. */
  ghost predicate Accounted(s: Fleet, log: seq<string>) {
    forall name :: name in log ==>
      s.plan.Some? && (s.plan.value.phase.Failed?
        || (name in s.nodes && s.nodes[name].target == Some(s.plan.value.version)))
  }

  /** In any run no node is released twice, and each is released only once every node
      released before it reports the version. */
  lemma {:induction false} ReleasedOnceInTurn(s: Fleet, ops: seq<Op>)
    requires FleetOk(s) && AllExpected(s, ops)
    ensures Distinct(Log(s, ops)) && Accounted(Run(s, ops), Log(s, ops))
    ensures forall busy, now, name :: Release(Run(s, ops), busy, now) == Some(name) ==>
      name !in Log(s, ops) &&
      forall earlier :: earlier in Log(s, ops) ==>
        earlier in Run(s, ops).nodes && Run(s, ops).nodes[earlier].version == Run(s, ops).plan.value.version
    decreases |ops|
  {
    if ops != [] {
      var before := ops[..|ops| - 1];
      ReleasedOnceInTurn(s, before);
      RunKeepsFleet(s, before);
      AccountedNext(Run(s, before), ops[|ops| - 1], Log(s, before));
    }
    RunKeepsFleet(s, ops);
    forall busy, now, name | Release(Run(s, ops), busy, now) == Some(name)
      ensures name !in Log(s, ops)
      ensures forall earlier :: earlier in Log(s, ops) ==>
        earlier in Run(s, ops).nodes && Run(s, ops).nodes[earlier].version == Run(s, ops).plan.value.version
    {
      EarlierAreDone(Run(s, ops), Log(s, ops), busy, now);
    }
  }

  lemma AccountedNext(s: Fleet, op: Op, log: seq<string>)
    requires FleetOk(s) && Expected(s, op) && Accounted(s, log)
    ensures op.Stop? || op.Beat? ==> Accounted(Apply(s, op), log)
    ensures op.Forget? ==> Accounted(Apply(s, op), Without(log, op.name))
    ensures op.Advance? ==>
      var r := Release(s, op.busy, op.now);
      Accounted(Apply(s, op), if r.Some? then log + [r.value] else log)
  {
  }

  lemma EarlierAreDone(s: Fleet, log: seq<string>, busy: set<string>, now: int)
    requires FleetOk(s) && Accounted(s, log) && Release(s, busy, now).Some?
    ensures Release(s, busy, now).value !in log
    ensures forall name :: name in log ==>
      name in s.nodes && s.nodes[name].version == s.plan.value.version
  {
    forall name | name in log
      ensures name in s.nodes && s.nodes[name].version == s.plan.value.version
    {
      assert name !in UpdatingNodes(s.nodes);
    }
  }

  // ── Never during a meet, and done only when done ──

  /** The nodes carrying a live meet that is running and not one of the cloud's own
      test meets; `today` is the pool's date at a row's offset. */
  function BusyNodes(t: Tables, today: Option<int> -> string, now: int): set<string> {
    set id | id in t.meets && HoldsNode(t, t.meets[id], today, now) :: t.meets[id].node.value
  }

  predicate HoldsNode(t: Tables, m: Meet, today: Option<int> -> string, now: int) {
    m.card.live && !TestMeet(t, m) && m.node.Some? && Calendar.Running(m.card, today(m.card.offset), now)
  }

  /** An unforced pass never releases a node with a running meet; a pass says done only
      when every node heard from lately reports the version. */
  lemma ReleaseSparesMeets(s: Fleet, t: Tables, today: Option<int> -> string, now: int, name: string)
    requires Release(s, BusyNodes(t, today, now), now) == Some(name)
    ensures name in s.nodes && Pending(s.nodes[name], s.plan.value.version, now)
    ensures !s.plan.value.force ==>
      forall id :: id in t.meets && t.meets[id].node == Some(name) ==> !HoldsNode(t, t.meets[id], today, now)
    ensures forall other :: other in s.nodes && other != name && Pending(s.nodes[other], s.plan.value.version, now) ==>
      (s.plan.value.force || other !in BusyNodes(t, today, now)) ==> StrLess(name, other)
  {
    var pending := PendingNodes(s.nodes, s.plan.value.version, now);
    var free := if s.plan.value.force then pending else pending - BusyNodes(t, today, now);
    assert IsFirst(name, free);
    forall other | other in s.nodes && other != name && Pending(s.nodes[other], s.plan.value.version, now)
      && (s.plan.value.force || other !in BusyNodes(t, today, now))
      ensures StrLess(name, other)
    {
      assert other in free;
    }
  }

  lemma DoneMeansDone(s: Fleet, busy: set<string>, now: int)
    requires s.plan.Some? && !s.plan.value.phase.Done?
    requires Advanced(s, busy, now).plan.value.phase.Done?
    ensures Advanced(s, busy, now).nodes == s.nodes && UpdatingNodes(s.nodes) == {}
    ensures forall name :: name in s.nodes && s.nodes[name].lastSeen >= now - SILENT_AFTER ==>
      s.nodes[name].version == s.plan.value.version
  {
    forall name | name in s.nodes && s.nodes[name].lastSeen >= now - SILENT_AFTER
      ensures s.nodes[name].version == s.plan.value.version
    {
      assert name !in PendingNodes(s.nodes, s.plan.value.version, now);
    }
  }

  // ── When it acts ──

  /** The rollout is under way at `now`: running, waiting, or scheduled for a time come. */
  predicate UnderWay(p: Plan, now: int) {
    match p.phase
    case Running => true
    case Waiting => true
    case Scheduled => !(p.notBefore.Some? && p.notBefore.value > now)
    case _ => false
  }

  /** The node is behind, heard from in 90 seconds, and free of meets or forced. */
  predicate MayGo(n: Node, p: Plan, busy: bool, now: int) {
    n.version != p.version && n.lastSeen + 90 >= now && (p.force || !busy)
  }

  /** A pass releases a node exactly when the rollout is under way, no node is still on its
      way to its target, and one behind and heard from in 90 seconds is free of meets, or
      the rollout forced. */
  lemma ReleasesExactlyWhen(s: Fleet, busy: set<string>, now: int)
    ensures Release(s, busy, now).Some? <==>
      && s.plan.Some? && UnderWay(s.plan.value, now)
      && (forall n :: n in s.nodes && s.nodes[n].target.Some? && s.nodes[n].target.value != "" ==>
        s.nodes[n].version == s.nodes[n].target.value)
      && exists n :: n in s.nodes && MayGo(s.nodes[n], s.plan.value, n in busy, now)
  {
    if s.plan.Some? {
      var p := s.plan.value;
      forall n | n in s.nodes
        ensures n in UpdatingNodes(s.nodes)
          <==> s.nodes[n].target.Some? && s.nodes[n].target.value != "" && s.nodes[n].version != s.nodes[n].target.value
        ensures n in PendingNodes(s.nodes, p.version, now)
          <==> s.nodes[n].version != p.version && s.nodes[n].lastSeen + 90 >= now
      {
      }
      var free := if p.force then PendingNodes(s.nodes, p.version, now) else PendingNodes(s.nodes, p.version, now) - busy;
      hide UpdatingNodes, PendingNodes;
      if free != {} { var n := AnyOf(free); }
      if UpdatingNodes(s.nodes) != {} { var n := AnyOf(UpdatingNodes(s.nodes)); }
    }
  }

  /** What a release does: the node gets the version as its target, from now, and nothing
      else changes among the nodes; with none released no node gets a target. */
  lemma ReleaseTakesEffect(s: Fleet, busy: set<string>, now: int)
    ensures var u := Advanced(s, busy, now); var r := Release(s, busy, now);
      && u.nodes.Keys == s.nodes.Keys
      && (r.Some? ==>
        && r.value in s.nodes
        && u.nodes[r.value] == s.nodes[r.value].(target := Some(s.plan.value.version), targetSetAt := Some(now))
        && forall n :: n in s.nodes && n != r.value ==> u.nodes[n] == s.nodes[n])
      && (r.None? ==> forall n :: n in s.nodes ==> u.nodes[n] == s.nodes[n] || u.nodes[n] == s.nodes[n].(target := None))
  {
  }

  /** A scheduled rollout whose time has not come is left as it is, and so is one done,
      failed or stopped; once the time comes it goes as one running. */
  lemma ScheduleIsKept(s: Fleet, busy: set<string>, now: int)
    requires s.plan.Some?
    ensures s.plan.value.phase.Scheduled? && s.plan.value.notBefore.Some? && now < s.plan.value.notBefore.value ==>
      Advanced(s, busy, now) == s && Release(s, busy, now).None?
    ensures s.plan.value.phase.Done? || s.plan.value.phase.Failed? || s.plan.value.phase.Stopped? ==>
      Advanced(s, busy, now) == s && Release(s, busy, now).None?
    ensures s.plan.value.phase.Scheduled? && s.plan.value.notBefore.Some? && now >= s.plan.value.notBefore.value ==>
      Advanced(s, busy, now) == Advanced(s.(plan := Some(s.plan.value.(phase := Running))), busy, now)
  {
  }

  /** Stopped in time or not, nothing is released before a rollout's time: over any run
      whose passes come earlier the schedule waits and the log stays empty. */
  lemma {:induction false} NoneReleasedEarly(s: Fleet, ops: seq<Op>)
    requires s.plan.Some? && s.plan.value.phase.Scheduled? && s.plan.value.notBefore.Some?
    requires forall op :: op in ops ==> !op.Start? && (op.Advance? ==> op.now < s.plan.value.notBefore.value)
    ensures Log(s, ops) == [] && Run(s, ops).plan.Some?
    ensures Run(s, ops).plan == s.plan || Run(s, ops).plan.value.phase.Stopped?
    decreases |ops|
  {
    if ops != [] {
      var before, op := ops[..|ops| - 1], ops[|ops| - 1];
      assert forall o :: o in before ==> o in ops;
      assert op in ops;
      NoneReleasedEarly(s, before);
      if op.Advance? { ScheduleIsKept(Run(s, before), op.busy, op.now); }
    }
  }

  /** A pass ends done exactly when nothing is behind or under way, and waiting exactly when
      every node that is behind carries a meet and the rollout is not forced. */
  lemma EndsExactlyWhen(s: Fleet, busy: set<string>, now: int)
    requires s.plan.Some? && UnderWay(s.plan.value, now)
    requires forall n :: n in s.nodes && s.nodes[n].target.Some? && s.nodes[n].target.value != "" ==>
      s.nodes[n].version == s.nodes[n].target.value
    ensures Advanced(s, busy, now).plan.Some?
    ensures Advanced(s, busy, now).plan.value.phase.Done? <==>
      forall n :: n in s.nodes && s.nodes[n].lastSeen + 90 >= now ==> s.nodes[n].version == s.plan.value.version
    ensures Advanced(s, busy, now).plan.value.phase.Waiting? <==>
      && (exists n :: n in s.nodes && MayGo(s.nodes[n], s.plan.value.(force := true), true, now))
      && (forall n :: n in s.nodes ==> !MayGo(s.nodes[n], s.plan.value, n in busy, now))
  {
    ReleasesExactlyWhen(s, busy, now);
    var pending := PendingNodes(s.nodes, s.plan.value.version, now);
    assert forall n :: n in pending <==> n in s.nodes && MayGo(s.nodes[n], s.plan.value.(force := true), true, now);
    if pending != {} { var n := AnyOf(pending); }
  }

  /** A rollout starts as it was asked for, with no target left of an earlier one; stopping
      it takes no target back. */
  lemma StartedAsAsked(s: Fleet, version: string, force: bool, notBefore: Option<int>)
    ensures var u := Started(s, version, force, notBefore);
      && u.plan.Some? && u.plan.value.version == version && u.plan.value.force == force
      && u.plan.value.notBefore == notBefore
      && (if notBefore.Some? then u.plan.value.phase.Scheduled? else u.plan.value.phase.Running?)
      && u.nodes.Keys == s.nodes.Keys
      && (forall n :: n in s.nodes ==> u.nodes[n].target.None? && u.nodes[n].version == s.nodes[n].version)
    ensures HasStopped(s).nodes == s.nodes
    ensures s.plan.Some? ==> HasStopped(s).plan.Some?
    ensures forall now :: s.plan.Some? && UnderWay(s.plan.value, now) ==> HasStopped(s).plan.value.phase.Stopped?
  {
  }

  /** A heartbeat tells a node to update exactly while the rollout counts it as updating:
      from its release to its report. */
  lemma ReleasedIsTold(s: Fleet, busy: set<string>, now: int, name: string)
    ensures name in s.nodes ==> (Registry.UpdateTo(s.nodes[name]).Some? <==> Updating(s.nodes[name]))
    ensures FleetOk(s) && Release(s, busy, now) == Some(name) ==>
      name in Advanced(s, busy, now).nodes
      && Registry.UpdateTo(Advanced(s, busy, now).nodes[name]) == Some(s.plan.value.version)
  {
    if FleetOk(s) && Release(s, busy, now) == Some(name) { ReleaseTakesEffect(s, busy, now); }
  }

  /** A rollout fails exactly when a pass finds a node that has not reported its target for
      a quarter of an hour; that node's target is taken back, and no other's. */
  lemma FailsExactlyWhen(s: Fleet, busy: set<string>, now: int)
    requires FleetOk(s) && s.plan.Some? && !s.plan.value.phase.Failed?
    ensures Advanced(s, busy, now).plan.Some?
    ensures Advanced(s, busy, now).plan.value.phase.Failed? <==>
      UnderWay(s.plan.value, now)
      && exists n :: n in s.nodes && Updating(s.nodes[n]) && s.nodes[n].targetSetAt.value + 15 * 60 < now
    ensures Advanced(s, busy, now).plan.value.phase.Failed? ==>
      forall n :: n in s.nodes ==>
        Advanced(s, busy, now).nodes[n] == if Updating(s.nodes[n]) then s.nodes[n].(target := None) else s.nodes[n]
  {
    var updating := UpdatingNodes(s.nodes);
    assert forall n :: n in s.nodes && Updating(s.nodes[n]) <==> n in updating;
    if updating != {} {
      OnlyUpdating(s, First(updating));
      assert Updating(s.nodes[First(updating)]);
    }
  }

  /** The nodes a pass spares are those with a live meet that is no test meet and sent a
      frame in the last two hours or is on one of its days. */
  lemma BusyExactlyWhen(t: Tables, today: Option<int> -> string, now: int, name: string)
    ensures name in BusyNodes(t, today, now) <==>
      exists id :: id in t.meets && t.meets[id].card.live && t.meets[id].node == Some(name)
        && !(t.meets[id].key.Some? && t.meets[id].key.value in t.organizers && t.organizers[t.meets[id].key.value].test)
        && ((t.meets[id].card.lastFrame.Some? && now - t.meets[id].card.lastFrame.value < 7200)
            || today(t.meets[id].card.offset) in t.meets[id].card.sessionDates
            || (t.meets[id].card.sessionDates == [] && today(t.meets[id].card.offset) == t.meets[id].card.date))
  {
  }

  // ── It gets there ──

  ghost function Behind(s: Fleet): set<string>
    requires s.plan.Some?
  {
    set name | name in s.nodes && s.nodes[name].version != s.plan.value.version
  }

  /** Twice the nodes still behind, less the one updating. */
  ghost function Left(s: Fleet): int
    requires s.plan.Some?
  {
    2 * |Behind(s)| - |UpdatingNodes(s.nodes)|
  }

  /** A rollout left to itself: passes, a stop, and beats of nodes it knows, whose
      version changes only to their target. */
  ghost predicate Undisturbed(s: Fleet, op: Op) {
    match op
    case Stop => true
    case Advance(_, _) => true
    case Beat(name, r, _) =>
      name in s.nodes && (r.version == "" || r.version == s.nodes[name].version
        || (Updating(s.nodes[name]) && r.version == s.nodes[name].target.value))
    case _ => false
  }

  ghost predicate AllUndisturbed(s: Fleet, ops: seq<Op>)
    decreases |ops|
  {
    ops != [] ==> AllUndisturbed(s, ops[..|ops| - 1]) && Undisturbed(Run(s, ops[..|ops| - 1]), ops[|ops| - 1])
  }

  /** A step that counts: a release, or a node reporting the version it was released to. */
  ghost predicate Progress(s: Fleet, op: Op) {
    match op
    case Advance(busy, now) => Release(s, busy, now).Some?
    case Beat(name, r, _) => name in s.nodes && Updating(s.nodes[name]) && r.version == s.nodes[name].target.value
    case _ => false
  }

  ghost function Steps(s: Fleet, ops: seq<Op>): nat
    decreases |ops|
  {
    if ops == [] then 0
    else
      var before := ops[..|ops| - 1];
      Steps(s, before) + (if Progress(Run(s, before), ops[|ops| - 1]) then 1 else 0)
  }

  ghost predicate GivesUp(s: Fleet, op: Op)
    requires s.plan.Some?
  {
    !s.plan.value.phase.Failed? && Apply(s, op).plan.Some? && Apply(s, op).plan.value.phase.Failed?
  }

  lemma OnlyUpdating(s: Fleet, name: string)
    requires FleetOk(s) && name in UpdatingNodes(s.nodes)
    ensures UpdatingNodes(s.nodes) == {name}
  {
    forall other | other in UpdatingNodes(s.nodes)
      ensures other == name
    {
    }
  }

  lemma ReleaseLeft(s: Fleet, busy: set<string>, now: int)
    requires FleetOk(s) && Release(s, busy, now).Some?
    ensures Left(Advanced(s, busy, now)) == Left(s) - 1
  {
    var u := Advanced(s, busy, now);
    assert UpdatingNodes(u.nodes) == {Release(s, busy, now).value};
    assert Behind(u) == Behind(s);
  }

  lemma GiveUpLeft(s: Fleet, busy: set<string>, now: int)
    requires FleetOk(s) && s.plan.Some? && GivesUp(s, Advance(busy, now))
    ensures Left(Advanced(s, busy, now)) == Left(s) + 1
  {
    var u := Advanced(s, busy, now);
    var name := First(UpdatingNodes(s.nodes));
    OnlyUpdating(s, name);
    assert u.nodes == s.nodes[name := s.nodes[name].(target := None)];
    forall other
      ensures other !in UpdatingNodes(u.nodes)
    {
      assert other in UpdatingNodes(s.nodes) ==> other == name;
    }
    assert Behind(u) == Behind(s);
  }

  lemma AdvanceLeft(s: Fleet, busy: set<string>, now: int)
    requires FleetOk(s) && s.plan.Some?
    ensures var u := Advanced(s, busy, now);
      && u.plan.Some?
      && Left(u) == Left(s) - (if Release(s, busy, now).Some? then 1 else 0)
                  + (if GivesUp(s, Advance(busy, now)) then 1 else 0)
  {
    if Release(s, busy, now).Some? {
      ReleaseLeft(s, busy, now);
    } else if GivesUp(s, Advance(busy, now)) {
      GiveUpLeft(s, busy, now);
    } else {
      assert Advanced(s, busy, now).nodes == s.nodes;
    }
  }

  lemma ReportLeft(s: Fleet, name: string, r: Report, at: int)
    requires FleetOk(s) && s.plan.Some?
    requires name in s.nodes && Updating(s.nodes[name]) && r.version == s.nodes[name].target.value
    ensures Left(Apply(s, Op.Beat(name, r, at))) == Left(s) - 1
  {
    var u := Apply(s, Op.Beat(name, r, at));
    OnlyUpdating(s, name);
    forall other | other in UpdatingNodes(u.nodes)
      ensures other in UpdatingNodes(s.nodes) && other != name
    {
    }
    assert Behind(u) == Behind(s) - {name};
  }

  lemma BeatLeft(s: Fleet, op: Op)
    requires FleetOk(s) && s.plan.Some? && op.Beat? && Undisturbed(s, op)
    ensures Left(Apply(s, op)) == Left(s) - (if Progress(s, op) then 1 else 0)
  {
    if Progress(s, op) {
      ReportLeft(s, op.name, op.report, op.at);
    } else {
      var u := Apply(s, op);
      assert Behind(u) == Behind(s);
      assert UpdatingNodes(u.nodes) == UpdatingNodes(s.nodes);
    }
  }

  lemma StepLeft(s: Fleet, op: Op)
    requires FleetOk(s) && s.plan.Some? && Undisturbed(s, op)
    ensures Expected(s, op)
    ensures var u := Apply(s, op);
      && u.plan.Some?
      && Left(u) == Left(s) - (if Progress(s, op) then 1 else 0) + (if GivesUp(s, op) then 1 else 0)
      && (s.plan.value.phase.Failed? ==> u.plan.value.phase.Failed?)
  {
    match op
    case Stop =>
    case Advance(busy, now) => AdvanceLeft(s, busy, now);
    case Beat(_, _, _) => BeatLeft(s, op);
  }

  /** Left to itself a rollout makes exactly as much progress as it has less left, a
      node it gave up on counting once: it can never go on for ever. */
  lemma {:induction false} RolloutAccounts(s: Fleet, ops: seq<Op>)
    requires FleetOk(s) && s.plan.Some? && !s.plan.value.phase.Failed? && AllUndisturbed(s, ops)
    ensures var u := Run(s, ops);
      && FleetOk(u) && u.plan.Some?
      && Steps(s, ops) + Left(u) == Left(s) + (if u.plan.value.phase.Failed? then 1 else 0)
      && Left(u) >= 0
    decreases |ops|
  {
    if ops != [] {
      var before := ops[..|ops| - 1];
      RolloutAccounts(s, before);
      StepLeft(Run(s, before), ops[|ops| - 1]);
      StepKeepsFleet(Run(s, before), ops[|ops| - 1]);
    }
    LeftIsCount(Run(s, ops));
  }

  lemma LeftIsCount(s: Fleet)
    requires FleetOk(s) && s.plan.Some?
    ensures Left(s) >= 0
  {
    var updating := UpdatingNodes(s.nodes);
    if updating != {} {
      var name :| name in updating;
      assert updating == {name};
      assert name in Behind(s);
    }
  }

  // ── The control plane's own code ──

  /** The nodes carrying a running meet, found meet by meet. */
  method FindBusy(t: Tables, today: Option<int> -> string, now: int) returns (busy: set<string>)
    ensures busy == BusyNodes(t, today, now)
  {
    busy := {};
    var todo := t.meets.Keys;
    while todo != {}
      invariant todo <= t.meets.Keys
      invariant busy == set id | id in t.meets && id !in todo && HoldsNode(t, t.meets[id], today, now) :: t.meets[id].node.value
      decreases |todo|
    {
      var id :| id in todo;
      ghost var was := todo;
      todo := todo - {id};
      if HoldsNode(t, t.meets[id], today, now) {
        busy := busy + {t.meets[id].node.value};
      }
    }
  }

  /** A sorted list's first name is the first of its names. */
  lemma HeadIsFirst(names: seq<string>, all: set<string>)
    requires names != [] && Ascending(names) && forall n :: n in names <==> n in all
    ensures all != {} && names[0] == First(all)
  {
    assert names[0] in all;
    assert IsFirst(names[0], all);
    FirstIsUnique(all);
  }

  /** The names kept, in their order. */
  function Select(names: seq<string>, keep: set<string>): (r: seq<string>)
    ensures forall n :: n in r <==> n in names && n in keep
    ensures Ascending(names) ==> Ascending(r)
  {
    if names == [] then []
    else
      var last := names[|names| - 1];
      var rest := Select(names[..|names| - 1], keep);
      assert Ascending(names) ==> forall n :: n in rest ==> StrLess(n, last);
      if last in keep then rest + [last] else rest
  }

  class Control {
    var nodes: map<string, Node>
    var plan: Option<Plan>

    function State(): Fleet
      reads this
    {
      Fleet(nodes, plan)
    }

    constructor (nodes: map<string, Node>)
      ensures State() == Fleet(nodes, None)
    {
      this.nodes, plan := nodes, None;
    }

    /** Roll `version` out to every node, now or from `notBefore`. */
    method StartRollout(
      version: string, force: bool, notBefore: Option<int>, t: Tables, today: Option<int> -> string, now: int)
      modifies this
      ensures var s := Started(old(State()), version, force, notBefore);
        State() == Advanced(s, BusyNodes(t, today, now), now)
    {
      nodes := map name | name in nodes :: nodes[name].(target := None, targetSetAt := None);
      plan := Some(Plan(version, if notBefore.Some? then Scheduled else Running, [], force, notBefore));
      AdvanceRollout(t, today, now);
    }

    /** Stop releasing nodes; one already updating finishes on its own. */
    method StopRollout()
      modifies this`plan
      ensures State() == HasStopped(old(State()))
    {
      if plan.Some? && (plan.value.phase.Running? || plan.value.phase.Waiting? || plan.value.phase.Scheduled?) {
        plan := Some(plan.value.(phase := Stopped, note := []));
      }
    }

    /** One pass: start what is due, wait for the node updating, else release the next. */
    method AdvanceRollout(t: Tables, today: Option<int> -> string, now: int)
      modifies this
      ensures State() == Advanced(old(State()), BusyNodes(t, today, now), now)
    {
      if plan.None? || !Active(plan.value, now) { return; }
      var busy := {};
      if !plan.value.force { busy := FindBusy(t, today, now); }
      ForcedIsBlind(State(), busy, BusyNodes(t, today, now), now);
      var after := Pass(nodes, plan.value, busy, now);
      nodes, plan := after.nodes, after.plan;
    }
  }

  /** A forced rollout does not look at the meets. */
  lemma ForcedIsBlind(s: Fleet, busy: set<string>, others: set<string>, now: int)
    requires s.plan.Some? && (s.plan.value.force || busy == others)
    ensures Advanced(s, busy, now) == Advanced(s, others, now)
  {
  }

  /** The pass itself, over the nodes in the order of their names. */
  method Pass(nodes: map<string, Node>, was: Plan, busy: set<string>, now: int) returns (r: Fleet)
    requires Active(was, now)
    ensures r == Advanced(Fleet(nodes, Some(was)), busy, now)
  {
    hide First, Sorted, Updating, Pending, Ascending;
    var p := was.(phase := Running);
    var names := Sorted(nodes.Keys);
    var updating := Listed(names, nodes, UpdatingNodes(nodes));
    var pending := Listed(names, nodes, PendingNodes(nodes, p.version, now));
    var free := Listed(names, nodes, if p.force then PendingNodes(nodes, p.version, now)
                                    else PendingNodes(nodes, p.version, now) - busy);
    if updating != [] {
      var name := updating[0];
      if nodes[name].targetSetAt.Some? && nodes[name].targetSetAt.value < now - ROLLOUT_TIMEOUT {
        r := Fleet(nodes[name := nodes[name].(target := None)], Some(p.(phase := Failed, note := [name])));
      } else {
        r := Fleet(nodes, Some(p.(note := [name])));
      }
    } else if pending == [] {
      r := Fleet(nodes, Some(p.(phase := Done, note := [])));
    } else if free != [] {
      var name := free[0];
      r := Fleet(nodes[name := nodes[name].(target := Some(p.version), targetSetAt := Some(now))],
                 Some(p.(note := [name])));
    } else {
      r := Fleet(nodes, Some(p.(phase := Waiting, note := pending)));
    }
  }

  /** The names of a set, in order. */
  method Listed(names: seq<string>, nodes: map<string, Node>, keep: set<string>) returns (r: seq<string>)
    requires names == Sorted(nodes.Keys) && keep <= nodes.Keys
    ensures r == Sorted(keep)
    ensures r == [] <==> keep == {}
    ensures r != [] ==> keep != {} && r[0] == First(keep)
  {
    hide First, Select;
    r := Select(names, keep);
    SortedIsUnique(r, keep);
    if r == [] {
      forall n
        ensures n !in keep
      {
      }
    } else {
      HeadIsFirst(r, keep);
    }
  }
}
