/** One live meet's scoreboard relay: the cache frames are merged into, the frame on its
    way out, the attendees joining at any moment, and the throttle on the race clock.
    Monotonic times are seconds. */
module Relay {
  type Client = int
  type Frame = map<string, string>

  const CLOCK: string := "running_time"
  const CLOCK_SYNC: real := 2.0

  function Clockless(f: Frame): Frame {
    f - {CLOCK}
  }

  /** The frame moves a lane's running flag. */
  predicate MovesALane(f: Frame) {
    exists k :: k in f && "lane_running" <= k
  }

  // ── The clock ──

  /** The clock of a frame goes out: enough time has passed, or a lane moved. */
  predicate Due(clockAt: real, now: real, moved: bool) {
    now - clockAt >= CLOCK_SYNC || moved
  }

  predicate ClockGoesOut(clockAt: real, now: real, f: Frame) {
    CLOCK in f && Due(clockAt, now, MovesALane(Clockless(f)))
  }

  function Outgoing(clockAt: real, now: real, f: Frame): Frame {
    if ClockGoesOut(clockAt, now, f) then f else Clockless(f)
  }

  // ── The relay ──

  /** Nothing on its way; a frame merged, its followers being notified; a frame being sent
      to the attendees that still wait for it. */
  datatype Phase = Idle | Merged(frame: Frame) | Sending(frame: Frame, owed: set<Client>)

  /** What an attendee shows, and whether the snapshot was sent to it. */
  datatype Attendee = Attendee(view: Frame, caughtUp: bool)

  datatype Relay = Relay(cache: Frame, clockAt: real, phase: Phase, attendees: map<Client, Attendee>)

  datatype Op =
    | Receive(frame: Frame)
    | Broadcast(now: real)
    | Deliver(who: Client)
    | Join(who: Client)
    | Snapshot(who: Client)
    | Leave(who: Client)
    | Reregister

  function Shown(a: Attendee, f: Frame): Attendee {
    a.(view := a.view + f)
  }

  function Settle(p: Phase): Phase {
    if p.Sending? && p.owed == {} then Idle else p
  }

  /** One step; a step out of its turn does nothing. */
  function Apply(r: Relay, op: Op): Relay {
    match op
    case Receive(f) =>
      if r.phase.Idle? then r.(cache := r.cache + Clockless(f), phase := Merged(f)) else r
    case Broadcast(now) =>
      if r.phase.Merged? then
        r.(clockAt := if ClockGoesOut(r.clockAt, now, r.phase.frame) then now else r.clockAt,
           phase := Settle(Sending(Outgoing(r.clockAt, now, r.phase.frame), r.attendees.Keys)))
      else r
    case Deliver(c) =>
      if r.phase.Sending? && c in r.phase.owed && c in r.attendees then
        r.(attendees := r.attendees[c := Shown(r.attendees[c], r.phase.frame)],
           phase := Settle(r.phase.(owed := r.phase.owed - {c})))
      else r
    case Join(c) =>
      if c in r.attendees then r else r.(attendees := r.attendees[c := Attendee(map[], false)])
    case Snapshot(c) =>
      if c in r.attendees then
        r.(attendees := r.attendees[c := Shown(r.attendees[c], r.cache).(caughtUp := true)])
      else r
    case Leave(c) =>
      r.(attendees := r.attendees - {c},
         phase := if r.phase.Sending? then Settle(r.phase.(owed := r.phase.owed - {c})) else r.phase)
    case Reregister => if r.phase.Idle? then r.(clockAt := 0.0) else r
  }

  function Run(r: Relay, ops: seq<Op>): Relay
    decreases |ops|
  {
    if ops == [] then r else Apply(Run(r, ops[..|ops| - 1]), ops[|ops| - 1])
  }

  function Fresh(): Relay {
    Relay(map[], 0.0, Idle, map[])
  }

  /** Every frame received so far, merged in order, without the clock. */
  function Merge(r: Relay, ops: seq<Op>): Frame
    decreases |ops|
  {
    if ops == [] then map[]
    else
      var before := ops[..|ops| - 1];
      var op := ops[|ops| - 1];
      if op.Receive? && Run(r, before).phase.Idle? then Merge(r, before) + Clockless(op.frame)
      else Merge(r, before)
  }

  /** What an attendee shows once the frame on its way has reached it. */
  function Caught(r: Relay, c: Client): Frame
    requires c in r.attendees
  {
    var view := r.attendees[c].view;
    if r.phase.Merged? || (r.phase.Sending? && c in r.phase.owed) then view + r.phase.frame else view
  }

  /** The frame on its way is in the cache, no attendee shows what is not, and those sent
      the snapshot show exactly the cache, the clock aside. */
  ghost predicate Consistent(r: Relay) {
    && CLOCK !in r.cache
    && (r.phase.Sending? ==> r.phase.owed != {} && r.phase.owed <= r.attendees.Keys)
    && (!r.phase.Idle? ==> r.cache + Clockless(r.phase.frame) == r.cache)
    && (forall c :: c in r.attendees ==> Clockless(r.attendees[c].view).Keys <= r.cache.Keys)
    && (forall c :: c in r.attendees && r.attendees[c].caughtUp ==> Clockless(Caught(r, c)) == r.cache)
  }

  lemma ClocklessMerge(a: Frame, b: Frame)
    ensures Clockless(a + b) == Clockless(a) + Clockless(b)
    ensures Clockless(Clockless(b)) == Clockless(b)
  {
  }

  lemma OutgoingIsTheFrame(clockAt: real, now: real, f: Frame)
    ensures Clockless(Outgoing(clockAt, now, f)) == Clockless(f)
  {
    ClocklessMerge(map[], f);
  }

  lemma ReceiveKeeps(r: Relay, f: Frame)
    requires Consistent(r) && r.phase.Idle?
    ensures Consistent(Apply(r, Receive(f)))
  {
    var u := Apply(r, Receive(f));
    forall c | c in r.attendees && r.attendees[c].caughtUp
      ensures Clockless(Caught(u, c)) == u.cache
    {
      ClocklessMerge(r.attendees[c].view, f);
    }
  }

  lemma BroadcastKeeps(r: Relay, now: real)
    requires Consistent(r) && r.phase.Merged?
    ensures Consistent(Apply(r, Broadcast(now)))
  {
    var u := Apply(r, Broadcast(now));
    OutgoingIsTheFrame(r.clockAt, now, r.phase.frame);
    forall c | c in r.attendees && r.attendees[c].caughtUp
      ensures Clockless(Caught(u, c)) == u.cache
    {
      ClocklessMerge(r.attendees[c].view, r.phase.frame);
      ClocklessMerge(r.attendees[c].view, Outgoing(r.clockAt, now, r.phase.frame));
      assert Clockless(Caught(r, c)) == r.cache;
    }
  }

  lemma DeliverKeeps(r: Relay, who: Client)
    requires Consistent(r) && r.phase.Sending? && who in r.phase.owed
    ensures Consistent(Apply(r, Deliver(who)))
  {
    hide Clockless;
    var u := Apply(r, Deliver(who));
    ClocklessMerge(r.attendees[who].view, r.phase.frame);
    StillOwed(r.phase, who);
    forall c | c in u.attendees
      ensures u.attendees[c].caughtUp == r.attendees[c].caughtUp && Caught(u, c) == Caught(r, c)
    {
      if c == who { assert u.attendees[c].view == r.attendees[c].view + r.phase.frame; }
    }
  }

  lemma StillOwed(p: Phase, who: Client)
    requires p.Sending? && p.owed != {}
    ensures var q := Settle(p.(owed := p.owed - {who}));
      && !q.Merged? && (q.Sending? ==> q.frame == p.frame && q.owed != {} && q.owed <= p.owed)
      && forall c :: c in p.owed && c != who <==> q.Sending? && c in q.owed
  {
    var left := p.owed - {who};
    assert forall c :: c in left <==> c in p.owed && c != who;
  }

  lemma SnapshotKeeps(r: Relay, who: Client)
    requires Consistent(r) && who in r.attendees
    ensures Consistent(Apply(r, Snapshot(who)))
  {
    var u := Apply(r, Snapshot(who));
    var view := r.attendees[who].view;
    ClocklessMerge(view, r.cache);
    assert Clockless(view + r.cache) == r.cache;
    if !r.phase.Idle? { ClocklessMerge(view + r.cache, r.phase.frame); }
    forall c | c in u.attendees && u.attendees[c].caughtUp
      ensures Clockless(Caught(u, c)) == u.cache
    {
      if c != who { assert Caught(u, c) == Caught(r, c); }
    }
  }

  lemma LeaveKeeps(r: Relay, who: Client)
    requires Consistent(r)
    ensures Consistent(Apply(r, Leave(who)))
  {
    hide Clockless;
    var u := Apply(r, Leave(who));
    if r.phase.Sending? { StillOwed(r.phase, who); }
    forall c | c in u.attendees
      ensures u.attendees[c] == r.attendees[c] && Caught(u, c) == Caught(r, c)
    {
    }
  }

  lemma JoinKeeps(r: Relay, who: Client)
    requires Consistent(r) && who !in r.attendees
    ensures Consistent(Apply(r, Join(who)))
  {
    var u := Apply(r, Join(who));
    forall c | c in r.attendees
      ensures u.attendees[c] == r.attendees[c] && Caught(u, c) == Caught(r, c)
    {
    }
  }

  lemma StepKeepsConsistent(r: Relay, op: Op)
    requires Consistent(r)
    ensures Consistent(Apply(r, op))
  {
    match op
    case Receive(f) => if r.phase.Idle? { ReceiveKeeps(r, f); }
    case Broadcast(now) => if r.phase.Merged? { BroadcastKeeps(r, now); }
    case Deliver(c) => if r.phase.Sending? && c in r.phase.owed { DeliverKeeps(r, c); }
    case Join(c) => if c !in r.attendees { JoinKeeps(r, c); }
    case Snapshot(c) => if c in r.attendees { SnapshotKeeps(r, c); }
    case Leave(c) => LeaveKeeps(r, c);
    case Reregister =>
  }

  /** In every run the cache is the frames received, merged in order without the clock. */
  lemma {:induction false} CacheIsMerge(ops: seq<Op>)
    ensures Run(Fresh(), ops).cache == Merge(Fresh(), ops)
    decreases |ops|
  {
    if ops != [] { CacheIsMerge(ops[..|ops| - 1]); }
  }

  lemma {:induction false} RunIsConsistent(ops: seq<Op>)
    ensures Consistent(Run(Fresh(), ops))
    decreases |ops|
  {
    if ops != [] {
      RunIsConsistent(ops[..|ops| - 1]);
      StepKeepsConsistent(Run(Fresh(), ops[..|ops| - 1]), ops[|ops| - 1]);
    }
  }

  /** Over every interleaving an attendee that was sent its snapshot, late or early, shows
      the frames received merged in order, the clock aside, once the one frame on its way
      has reached it. */
  lemma LateJoinerConverges(ops: seq<Op>, c: Client)
    requires c in Run(Fresh(), ops).attendees && Run(Fresh(), ops).attendees[c].caughtUp
    ensures Clockless(Caught(Run(Fresh(), ops), c)) == Merge(Fresh(), ops)
  {
    RunIsConsistent(ops);
    CacheIsMerge(ops);
  }

  /** So two of them show the same. */
  lemma AttendeesAgree(ops: seq<Op>, c: Client, d: Client)
    requires var r := Run(Fresh(), ops);
      && r.phase.Idle? && c in r.attendees && d in r.attendees
      && r.attendees[c].caughtUp && r.attendees[d].caughtUp
    ensures var r := Run(Fresh(), ops);
      Clockless(r.attendees[c].view) == Clockless(r.attendees[d].view)
  {
    LateJoinerConverges(ops, c);
    LateJoinerConverges(ops, d);
  }

  /** What the frames taken so far last said of a key. */
  function LastSaid(ops: seq<Op>, k: string): (v: seq<string>)
    ensures |v| <= 1
    decreases |ops|
  {
    if ops == [] then []
    else
      var before, op := ops[..|ops| - 1], ops[|ops| - 1];
      if op.Receive? && Run(Fresh(), before).phase.Idle? && k in op.frame then [op.frame[k]] else LastSaid(before, k)
  }

  /** The frame holds of a key what was said of it, and nothing where nothing was. */
  predicate Says(f: Frame, k: string, said: seq<string>) {
    said == if k in f then [f[k]] else []
  }

  lemma {:induction false} MergeSays(ops: seq<Op>, k: string)
    requires k != CLOCK
    ensures Says(Merge(Fresh(), ops), k, LastSaid(ops, k))
    decreases |ops|
  {
    hide Run;
    if ops != [] { MergeSays(ops[..|ops| - 1], k); }
  }

  /** The frame on its way is still to reach the attendee. */
  predicate Awaits(r: Relay, c: Client) {
    r.phase.Merged? || (r.phase.Sending? && c in r.phase.owed)
  }

  /** Key by key: an attendee that was sent its snapshot shows what was last said of every
      key but the clock, unless the frame that said it is still on its way there; and the
      cache holds the same. */
  lemma ShowsLastSaid(ops: seq<Op>, c: Client, k: string)
    requires k != CLOCK && c in Run(Fresh(), ops).attendees && Run(Fresh(), ops).attendees[c].caughtUp
    ensures var r := Run(Fresh(), ops);
      && Says(r.cache, k, LastSaid(ops, k))
      && (if Awaits(r, c) && k in r.phase.frame then LastSaid(ops, k) == [r.phase.frame[k]]
          else Says(r.attendees[c].view, k, LastSaid(ops, k)))
  {
    hide Run, Merge, LastSaid;
    LateJoinerConverges(ops, c);
    CacheIsMerge(ops);
    MergeSays(ops, k);
    var r := Run(Fresh(), ops);
    assert k in Caught(r, c) <==> k in Clockless(Caught(r, c));
  }

  // ── The Pi's own cache ──

  /** The Pi merges a frame whole and then drops the clock. */
  function Recorded(board: Frame, f: Frame): Frame {
    (board + f) - {CLOCK}
  }

  function PiBoard(frames: seq<Frame>): Frame {
    if frames == [] then map[] else Recorded(PiBoard(frames[..|frames| - 1]), frames[|frames| - 1])
  }

  function CloudBoard(frames: seq<Frame>): Frame {
    if frames == [] then map[] else CloudBoard(frames[..|frames| - 1]) + Clockless(frames[|frames| - 1])
  }

  /** The Pi's replay cache and the cloud's are always the same. */
  lemma {:induction false} CachesAlike(frames: seq<Frame>)
    ensures PiBoard(frames) == CloudBoard(frames) && CLOCK !in PiBoard(frames)
  {
    if frames != [] {
      var n := |frames| - 1;
      CachesAlike(frames[..n]);
      ClocklessMerge(PiBoard(frames[..n]), frames[n]);
    }
  }

  // ── How often the clock goes out ──

  /** The last step sends a frame that carries a clock. */
  predicate SendsClockFrame(r: Relay, op: Op) {
    op.Broadcast? && r.phase.Merged? && CLOCK in r.phase.frame
  }

  predicate SendsClock(r: Relay, op: Op) {
    SendsClockFrame(r, op) && ClockGoesOut(r.clockAt, op.now, r.phase.frame)
  }

  /** Sent for the time passed alone: no lane moved. */
  predicate SendsThrottled(r: Relay, op: Op) {
    SendsClock(r, op) && !MovesALane(Clockless(r.phase.frame))
  }

  /** A frame's clock goes out with it two seconds or more after the last, or when a lane's
      running flag is in it, and otherwise the rest of the frame does. */
  lemma ClockGoesOutWhen(r: Relay, now: real)
    requires r.phase.Merged?
    ensures SendsClock(r, Broadcast(now)) <==>
      "running_time" in r.phase.frame
      && (now - r.clockAt >= 2.0 || exists k :: k in r.phase.frame && "lane_running" <= k)
    ensures var out := Apply(r, Broadcast(now)).phase;
      && (out.Sending? <==> r.attendees != map[])
      && (out.Sending? ==>
        && out.owed == r.attendees.Keys
        && out.frame == if SendsClock(r, Broadcast(now)) then r.phase.frame else r.phase.frame - {"running_time"})
  {
    var f := r.phase.frame;
    assert CLOCK[0] == 'r' && "lane_running"[0] == 'l';
    assert forall k :: k in f && "lane_running" <= k ==> k[0] == 'l' && k in Clockless(f);
    if "running_time" !in f { assert f - {"running_time"} == f; }
  }

  /** After a register the next frame with a clock sends it, whatever was sent before, unless
      the monotonic clock itself is under two seconds. */
  lemma ClockGoesOutAfterRegister(r: Relay, f: Frame, now: real)
    requires r.phase.Idle? && "running_time" in f && now >= 2.0
    ensures SendsClock(Apply(Apply(r, Reregister), Receive(f)), Broadcast(now))
    ensures Apply(r, Reregister).cache == r.cache && Apply(r, Reregister).attendees == r.attendees
  {
  }

  /** An attendee shows a frame that reaches it over what it showed, and its clock with it
      when it carries one. */
  lemma DeliverShows(r: Relay, c: Client)
    requires c in r.attendees && r.phase.Sending? && c in r.phase.owed
    ensures var a := Apply(r, Deliver(c)).attendees;
      && a.Keys == r.attendees.Keys && (forall d :: d in a && d != c ==> a[d] == r.attendees[d])
      && a[c].view == r.attendees[c].view + r.phase.frame
      && ("running_time" in r.phase.frame ==> Says(a[c].view, "running_time", [r.phase.frame["running_time"]]))
  {
  }

  /** When the clock was sent over a run. */
  function Sent(r: Relay, ops: seq<Op>): seq<real>
    decreases |ops|
  {
    if ops == [] then []
    else
      var before, op := ops[..|ops| - 1], ops[|ops| - 1];
      Sent(r, before) + (if SendsClock(Run(r, before), op) then [op.now] else [])
  }

  function Throttled(r: Relay, ops: seq<Op>): seq<real>
    decreases |ops|
  {
    if ops == [] then []
    else
      var before, op := ops[..|ops| - 1], ops[|ops| - 1];
      Throttled(r, before) + (if SendsThrottled(Run(r, before), op) then [op.now] else [])
  }

  ghost predicate InOrder(ops: seq<Op>) {
    forall i, j :: 0 <= i < j < |ops| && ops[i].Broadcast? && ops[j].Broadcast? ==> ops[i].now <= ops[j].now
  }

  predicate OneRegistration(ops: seq<Op>) {
    forall op :: op in ops ==> !op.Reregister?
  }

  lemma {:induction false} ThrottledBy(r: Relay, ops: seq<Op>, t: real)
    requires forall op :: op in ops && op.Broadcast? ==> op.now <= t
    ensures forall k :: 0 <= k < |Throttled(r, ops)| ==> Throttled(r, ops)[k] <= t
    decreases |ops|
  {
    if ops != [] {
      assert ops[|ops| - 1] in ops;
      ThrottledBy(r, ops[..|ops| - 1], t);
    }
  }

  ghost predicate Apart(times: seq<real>) {
    forall k :: 0 <= k < |times| - 1 ==> times[k + 1] - times[k] >= CLOCK_SYNC
  }

  lemma ClockAtAfter(r: Relay, op: Op)
    requires !op.Reregister?
    ensures Apply(r, op).clockAt == if SendsClock(r, op) then op.now else r.clockAt
    ensures SendsThrottled(r, op) ==> op.now - r.clockAt >= CLOCK_SYNC
  {
    hide MovesALane, Clockless;
  }

  lemma NoneApart()
    ensures Apart([])
  {
  }

  lemma ApartOneMore(times: seq<real>, t: real)
    requires Apart(times) && (times != [] ==> t - times[|times| - 1] >= CLOCK_SYNC)
    ensures Apart(times + [t])
  {
  }

  /** Between registrations two clocks sent for the time passed alone are at least two
      seconds apart, whatever lanes moved in between. */
  lemma {:induction false} ThrottledApart(r: Relay, ops: seq<Op>)
    requires InOrder(ops) && OneRegistration(ops)
    ensures Apart(Throttled(r, ops))
    ensures Throttled(r, ops) != [] ==> Throttled(r, ops)[|Throttled(r, ops)| - 1] <= Run(r, ops).clockAt
    decreases |ops|
  {
    hide Apply, ClockGoesOut, Apart, MovesALane, Clockless;
    assert Apart([]) by { NoneApart(); }
    if ops != [] {
      var n := |ops| - 1;
      var before, op := ops[..n], ops[n];
      assert forall o :: o in before ==> o in ops;
      assert op in ops;
      ThrottledApart(r, before);
      assert Throttled(r, before) + [] == Throttled(r, before);
      ClockAtAfter(Run(r, before), op);
      if op.Broadcast? { ThrottledBy(r, before, op.now); }
      if SendsThrottled(Run(r, before), op) { ApartOneMore(Throttled(r, before), op.now); }
    }
  }

  /** How many of the first `n` times fall in a window. */
  function CountWithin(times: seq<real>, n: nat, from: real, span: real): nat
    requires n <= |times|
  {
    if n == 0 then 0
    else CountWithin(times, n - 1, from, span) + (if from <= times[n - 1] <= from + span then 1 else 0)
  }

  lemma {:induction false} ApartIsSparse(times: seq<real>, n: nat, from: real, span: real)
    requires Apart(times) && n <= |times|
    ensures var c := CountWithin(times, n, from, span);
      c > 0 ==> times[n - 1] >= from + CLOCK_SYNC * (c - 1) as real && CLOCK_SYNC * (c - 1) as real <= span
  {
    if n > 0 { ApartIsSparse(times, n - 1, from, span); }
  }

  /** The throttle's rate: over any stretch of `span` seconds at most half as many clocks
      go out for the time passed alone, and one. */
  lemma ThrottleRate(r: Relay, ops: seq<Op>, from: real, span: real)
    requires InOrder(ops) && OneRegistration(ops) && span >= 0.0
    ensures CountWithin(Throttled(r, ops), |Throttled(r, ops)|, from, span) <= (span / 2.0).Floor + 1
  {
    ThrottledApart(r, ops);
    ApartIsSparse(Throttled(r, ops), |Throttled(r, ops)|, from, span);
  }

  lemma {:induction false} ClockAtIsLastSent(r: Relay, ops: seq<Op>)
    requires OneRegistration(ops)
    ensures Run(r, ops).clockAt == if Sent(r, ops) == [] then r.clockAt else Sent(r, ops)[|Sent(r, ops)| - 1]
    decreases |ops|
  {
    if ops != [] {
      assert forall o :: o in ops[..|ops| - 1] ==> o in ops;
      assert ops[|ops| - 1] in ops;
      ClockAtIsLastSent(r, ops[..|ops| - 1]);
      ClockAtAfter(Run(r, ops[..|ops| - 1]), ops[|ops| - 1]);
    }
  }

  /** After any frame with a clock the last clock sent is under two seconds old, and it is
      this frame's own when a lane moved: only in the two seconds after the register's
      zero may none have been sent. */
  lemma ClockStaysFresh(r: Relay, ops: seq<Op>, op: Op)
    requires OneRegistration(ops) && SendsClockFrame(Run(r, ops), op)
    ensures var sent := Sent(r, ops + [op]);
      && (sent == [] ==> op.now - r.clockAt < CLOCK_SYNC)
      && (sent != [] ==> op.now - sent[|sent| - 1] < CLOCK_SYNC)
      && (MovesALane(Clockless(Run(r, ops).phase.frame)) ==> sent == Sent(r, ops) + [op.now])
  {
    hide MovesALane, Clockless, Apply;
    assert (ops + [op])[..|ops|] == ops;
    ClockAtIsLastSent(r, ops);
  }

  // ── The class ──

  /** What the worker keeps of a live meet for its scoreboard. */
  class LiveMeet {
    var lastScoreboard: Frame
    var clockAt: real

    /** The meet registers, keeping what an earlier register of it had cached. */
    constructor (cached: Frame)
      ensures lastScoreboard == cached && clockAt == 0.0
    {
      lastScoreboard, clockAt := cached, 0.0;
    }

    ghost function State(phase: Phase, attendees: map<Client, Attendee>): Relay
      reads this
    {
      Relay(lastScoreboard, clockAt, phase, attendees)
    }

    /** Cache a frame without its clock. */
    method Receive(f: Frame)
      modifies this`lastScoreboard
      ensures forall a: map<Client, Attendee> :: State(Merged(f), a) == Apply(old(State(Idle, a)), Op.Receive(f))
    {
      lastScoreboard := lastScoreboard + (f - {CLOCK});
    }

    /** The frame to send, with its clock when that is due. */
    method Forward(f: Frame, now: real) returns (g: Frame)
      modifies this`clockAt
      ensures forall a: map<Client, Attendee> :: State(Settle(Sending(g, a.Keys)), a) == Apply(old(State(Merged(f), a)), Broadcast(now))
    {
      g := f - {CLOCK};
      if CLOCK in f {
        var moved := AnyLane(g);
        if now - clockAt >= CLOCK_SYNC || moved {
          clockAt := now;
          g := g[CLOCK := f[CLOCK]];
          assert g == f;
        }
      }
    }
  }

  /** Whether any key of a frame is a lane's running flag, looked at one by one. */
  method AnyLane(f: Frame) returns (moved: bool)
    ensures moved == MovesALane(f)
  {
    var todo := f.Keys;
    while todo != {}
      invariant todo <= f.Keys
      invariant forall k :: k in f && k !in todo ==> !("lane_running" <= k)
      decreases |todo|
    {
      var k :| k in todo;
      if "lane_running" <= k { return true; }
      todo := todo - {k};
    }
    moved := false;
  }
}
