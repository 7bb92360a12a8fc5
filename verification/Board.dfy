/** The heat transition of a TV's board: from the results of one heat to the names of the
    next through timers and fades, any of which a new heat, a race start or a reset may
    overtake. Only the control state and the names on the rows are here. */
module Board {
  import opened Text

  /** What a frame of the console brings: a heat, running flags and names by lane. */
  datatype Frame = Frame(heat: Option<(int, int)>, running: map<int, bool>, names: map<int, string>)

  /** A single-shot timer set by the transition that held this token. */
  datatype Timer = Collapse(token: nat) | FadeOut(token: nat)

  /** `names` is what the frames so far say and `rows` what is painted, lane by lane from 1.
      `fade` is what a running fade goes to, `done` the token of the swap to call when a
      fade ends. */
  datatype Board = Board(
    names: map<int, string>, rows: seq<string>, running: set<int>, heat: Option<(int, int)>,
    paused: bool, token: nat, timers: multiset<Timer>, fade: Option<real>, done: Option<nat>, opacity: real)

  function Name(names: map<int, string>, lane: int): string {
    if lane in names then names[lane] else ""
  }

  // ── The transition's own steps ──

  function Refreshed(b: Board): Board {
    b.(rows := seq(|b.rows|, i requires 0 <= i < |b.rows| => Name(b.names, i + 1)))
  }

  function FadeTo(b: Board, target: real, done: Option<nat>): Board {
    b.(fade := Some(target), done := done)
  }

  /** Results on screen dissolve into the next heat; an empty board just closes up. */
  function Begin(b: Board, results: bool): Board {
    if !results then b
    else
      b.(token := b.token + 1, paused := true, running := {}, timers := b.timers + multiset{Collapse(b.token + 1)})
  }

  function Cancel(b: Board): Board {
    var c := b.(token := b.token + 1, fade := None, opacity := 1.0);
    if c.paused then Refreshed(c.(paused := false)) else c
  }

  function Swap(b: Board, token: nat): Board {
    if token != b.token then b else FadeTo(Refreshed(b.(paused := false)), 1.0, None)
  }

  function Fired(b: Board, t: Timer): Board {
    if t.token != b.token then b
    else
      match t
      case Collapse(token) => b.(timers := b.timers + multiset{FadeOut(token)})
      case FadeOut(token) => FadeTo(b, 0.0, Some(token))
  }

  function Faded(b: Board): Board
    requires b.fade.Some?
  {
    var c := b.(opacity := b.fade.value, fade := None, done := None);
    if b.done.Some? then Swap(c, b.done.value) else c
  }

  // ── What happens to a board ──

  datatype Op =
    | Update(frame: Frame, results: bool)
    | Fire(timer: Timer)
    | FadeMoves(opacity: real)
    | FadeEnds
    | Reset

  function Flags(b: Board, flags: map<int, bool>): set<int> {
    set lane | 1 <= lane <= |b.rows| && (if lane in flags then flags[lane] else lane in b.running)
  }

  function Merged(b: Board, f: Frame): Board {
    b.(names := b.names + f.names, running := Flags(b, f.running))
  }

  /** A heat other than the one shown is taken over from it; the first one just shows. */
  function Headed(b: Board, heat: Option<(int, int)>, results: bool): Board {
    if heat.None? || heat == b.heat then b
    else if b.heat.None? then b.(heat := heat)
    else Begin(b.(heat := heat), results)
  }

  /** A frame merged: its flags, then a new heat's transition, then a race start, which
      outranks it, then the rows it names — unless the table is paused. */
  function Updated(b: Board, f: Frame, results: bool): Board {
    var headed := Headed(Merged(b, f), f.heat, results);
    var raced := if b.running == {} && headed.running != {} then Cancel(headed) else headed;
    if raced.paused then raced else Painted(raced, f.names)
  }

  /** The rows of the lanes touched, painted from the names so far. */
  function Painted(b: Board, touched: map<int, string>): Board {
    b.(rows := seq(|b.rows|, i requires 0 <= i < |b.rows| =>
      if i + 1 in touched then Name(b.names, i + 1) else b.rows[i]))
  }

  function Cleared(b: Board): Board {
    Cancel(b.(running := {})).(heat := None, names := map[], rows := seq(|b.rows|, i => ""))
  }

  function Apply(b: Board, op: Op): Board {
    match op
    case Update(f, results) => Updated(b, f, results)
    case Fire(t) => if t in b.timers then Fired(b.(timers := b.timers - multiset{t}), t) else b
    case FadeMoves(v) =>
      if b.fade.Some? && (b.opacity <= v <= b.fade.value || b.fade.value <= v <= b.opacity) then b.(opacity := v) else b
    case FadeEnds => if b.fade.Some? then Faded(b) else b
    case Reset => Cleared(b)
  }

  function Run(b: Board, ops: seq<Op>): Board
    decreases |ops|
  {
    if ops == [] then b else Apply(Run(b, ops[..|ops| - 1]), ops[|ops| - 1])
  }

  function Fresh(lanes: nat): Board {
    Board(map[], seq(lanes, i => ""), {}, None, false, 0, multiset{}, None, None, 1.0)
  }

  // ── The invariant ──

  /** How many callbacks still to come carry the current token. */
  function Live(b: Board): nat {
    b.timers[Collapse(b.token)] + b.timers[FadeOut(b.token)] + (if b.done == Some(b.token) then 1 else 0)
  }

  ghost predicate TokensPast(b: Board) {
    && (forall t :: t in b.timers ==> t.token <= b.token)
    && (b.done.Some? ==> b.done.value <= b.token)
  }

  /** The table is fully there, or on its way. */
  predicate Visible(b: Board) {
    b.fade == Some(1.0) || (b.fade.None? && b.opacity == 1.0)
  }

  /** The rows show the names the console last sent, but for the lanes still to paint. */
  ghost predicate CurrentBut(b: Board, touched: map<int, string>) {
    forall i :: 0 <= i < |b.rows| && i + 1 !in touched ==> b.rows[i] == Name(b.names, i + 1)
  }

  ghost predicate ConsistentBut(b: Board, touched: map<int, string>) {
    && TokensPast(b)
    && Live(b) == (if b.paused then 1 else 0)
    && (b.done == Some(b.token) ==> b.fade == Some(0.0))
    && (!b.paused ==> Visible(b) && CurrentBut(b, touched))
  }

  ghost predicate Consistent(b: Board) {
    ConsistentBut(b, map[])
  }

  lemma BeginKeeps(b: Board, results: bool, touched: map<int, string>)
    requires ConsistentBut(b, touched)
    ensures ConsistentBut(Begin(b, results), touched)
  {
  }

  lemma CancelKeeps(b: Board, touched: map<int, string>)
    requires ConsistentBut(b, touched)
    ensures ConsistentBut(Cancel(b), touched) && !Cancel(b).paused && Visible(Cancel(b))
  {
  }

  lemma PaintKeeps(b: Board, touched: map<int, string>)
    requires ConsistentBut(b, touched) && !b.paused
    ensures Consistent(Painted(b, touched))
  {
  }

  lemma MergeKeeps(b: Board, f: Frame)
    requires Consistent(b)
    ensures ConsistentBut(Merged(b, f), f.names)
  {
    hide Flags;
  }

  lemma HeadKeeps(b: Board, heat: Option<(int, int)>, results: bool, touched: map<int, string>)
    requires ConsistentBut(b, touched)
    ensures ConsistentBut(Headed(b, heat, results), touched)
  {
    hide Begin;
    assert ConsistentBut(b.(heat := heat), touched);
    BeginKeeps(b.(heat := heat), results, touched);
  }

  lemma UpdateKeeps(b: Board, f: Frame, results: bool)
    requires Consistent(b)
    ensures Consistent(Updated(b, f, results))
  {
    hide ConsistentBut, Merged, Headed, Cancel, Painted;
    MergeKeeps(b, f);
    HeadKeeps(Merged(b, f), f.heat, results, f.names);
    var headed := Headed(Merged(b, f), f.heat, results);
    CancelKeeps(headed, f.names);
    var raced := if b.running == {} && headed.running != {} then Cancel(headed) else headed;
    if raced.paused { PausedIsConsistent(raced, f.names); } else { PaintKeeps(raced, f.names); }
  }

  lemma PausedIsConsistent(b: Board, touched: map<int, string>)
    requires ConsistentBut(b, touched) && b.paused
    ensures Consistent(b)
  {
  }

  lemma FireKeeps(b: Board, t: Timer)
    requires Consistent(b) && t in b.timers
    ensures Consistent(Apply(b, Fire(t)))
  {
  }

  lemma FadeKeeps(b: Board)
    requires Consistent(b) && b.fade.Some?
    ensures Consistent(Faded(b))
  {
  }

  lemma StepKeepsConsistent(b: Board, op: Op)
    requires Consistent(b)
    ensures Consistent(Apply(b, op))
  {
    match op
    case Update(f, results) => UpdateKeeps(b, f, results);
    case Fire(t) => if t in b.timers { FireKeeps(b, t); }
    case FadeMoves(v) =>
    case FadeEnds => if b.fade.Some? { FadeKeeps(b); }
    case Reset =>
  }

  /** Over every run: the table is paused exactly while one callback carries the current
      token, and while it is not it is visible, or fading in, and shows what the console
      last sent. */
  lemma {:induction false} RunIsConsistent(lanes: nat, ops: seq<Op>)
    ensures Consistent(Run(Fresh(lanes), ops))
    decreases |ops|
  {
    if ops != [] {
      RunIsConsistent(lanes, ops[..|ops| - 1]);
      StepKeepsConsistent(Run(Fresh(lanes), ops[..|ops| - 1]), ops[|ops| - 1]);
    }
  }

  // ── What the frames said ──

  /** The name last sent for a lane since the board was last reset. */
  ghost function LastSent(ops: seq<Op>, lane: int): string
    decreases |ops|
  {
    if ops == [] then ""
    else
      match ops[|ops| - 1]
      case Update(f, _) => if lane in f.names then f.names[lane] else LastSent(ops[..|ops| - 1], lane)
      case Reset => ""
      case _ => LastSent(ops[..|ops| - 1], lane)
  }

  /** The heat last named since the board was last reset. */
  ghost function HeatSent(ops: seq<Op>): Option<(int, int)>
    decreases |ops|
  {
    if ops == [] then None
    else
      match ops[|ops| - 1]
      case Update(f, _) => if f.heat.Some? then f.heat else HeatSent(ops[..|ops| - 1])
      case Reset => None
      case _ => HeatSent(ops[..|ops| - 1])
  }

  /** The lane swims: its last flag said so, and neither a reset nor another heat over
      results came with it or since. */
  ghost predicate Swims(ops: seq<Op>, lane: int)
    decreases |ops|
  {
    if ops == [] then false
    else
      var before := ops[..|ops| - 1];
      match ops[|ops| - 1]
      case Update(f, results) =>
        !(results && f.heat.Some? && HeatSent(before).Some? && f.heat != HeatSent(before))
        && (if lane in f.running then f.running[lane] else Swims(before, lane))
      case Reset => false
      case _ => Swims(before, lane)
  }

  /** A callback leaves what the frames said. */
  lemma CallbackLeavesSent(b: Board, op: Op)
    requires !op.Update? && !op.Reset?
    ensures var u := Apply(b, op);
      u.names == b.names && u.heat == b.heat && u.running == b.running && |u.rows| == |b.rows|
  {
    hide Fired, Faded;
    match op
    case Fire(t) => FiredLeavesSent(b.(timers := b.timers - multiset{t}), t);
    case FadeEnds => if b.fade.Some? { FadedLeavesSent(b); }
    case _ =>
  }

  lemma FiredLeavesSent(b: Board, t: Timer)
    ensures var u := Fired(b, t); u.names == b.names && u.heat == b.heat && u.running == b.running && u.rows == b.rows
  {
  }

  lemma FadedLeavesSent(b: Board)
    requires b.fade.Some?
    ensures var u := Faded(b);
      u.names == b.names && u.heat == b.heat && u.running == b.running && |u.rows| == |b.rows|
  {
    hide Refreshed;
    RefreshLeavesSent(b.(opacity := b.fade.value, fade := None, done := None, paused := false));
  }

  lemma RefreshLeavesSent(b: Board)
    ensures Refreshed(b) == b.(rows := Refreshed(b).rows) && |Refreshed(b).rows| == |b.rows|
  {
  }

  lemma HeadTakesHeat(b: Board, heat: Option<(int, int)>, results: bool)
    ensures var u := Headed(b, heat, results);
      && u.names == b.names && u.rows == b.rows && u.heat == (if heat.Some? then heat else b.heat)
      && (if results && heat.Some? && b.heat.Some? && heat != b.heat
          then u.running == {} && u.paused && Collapse(u.token) in u.timers
          else u == b.(heat := u.heat))
  {
  }

  lemma CancelLeavesSent(b: Board)
    ensures var u := Cancel(b);
      u.names == b.names && u.heat == b.heat && u.running == b.running && |u.rows| == |b.rows| && !u.paused
  {
  }

  lemma PaintLeavesSent(b: Board, touched: map<int, string>)
    ensures Painted(b, touched) == b.(rows := Painted(b, touched).rows) && |Painted(b, touched).rows| == |b.rows|
  {
  }

  lemma UpdateTakesSent(b: Board, f: Frame, results: bool)
    ensures var u := Updated(b, f, results);
      && u.names == b.names + f.names && |u.rows| == |b.rows|
      && u.heat == (if f.heat.Some? then f.heat else b.heat)
      && u.running == if Begins(b, Update(f, results)) then {} else Flags(b, f.running)
  {
    hide Flags, Headed, Cancel, Painted;
    var headed := Headed(Merged(b, f), f.heat, results);
    HeadTakesHeat(Merged(b, f), f.heat, results);
    CancelLeavesSent(headed);
    PaintLeavesSent(headed, f.names);
    PaintLeavesSent(Cancel(headed), f.names);
  }

  lemma StepTakesSent(b: Board, op: Op, lane: int)
    requires forall l :: l in b.running ==> 1 <= l <= |b.rows|
    ensures var u := Apply(b, op);
      && |u.rows| == |b.rows|
      && (forall l :: l in u.running ==> 1 <= l <= |b.rows|)
      && Name(u.names, lane) == (
        if op.Reset? then ""
        else if op.Update? && lane in op.frame.names then op.frame.names[lane]
        else Name(b.names, lane))
      && u.heat == (if op.Reset? then None else if op.Update? && op.frame.heat.Some? then op.frame.heat else b.heat)
      && (lane in u.running <==>
        && 1 <= lane <= |b.rows| && !op.Reset? && !Begins(b, op)
        && (if op.Update? && lane in op.frame.running then op.frame.running[lane] else lane in b.running))
  {
    hide Updated;
    if op.Update? { UpdateTakesSent(b, op.frame, op.results); }
    else if !op.Reset? { CallbackLeavesSent(b, op); }
  }

  /** Over every run, what the board holds is what was last sent: each lane's name, the
      heat, and which lanes swim. */
  lemma {:induction false} HoldsWhatWasSent(lanes: nat, ops: seq<Op>, lane: int)
    ensures var b := Run(Fresh(lanes), ops);
      && |b.rows| == lanes
      && Name(b.names, lane) == LastSent(ops, lane)
      && b.heat == HeatSent(ops)
      && (forall l :: l in b.running ==> 1 <= l <= lanes)
      && (lane in b.running <==> 1 <= lane <= lanes && Swims(ops, lane))
    decreases |ops|
  {
    hide Apply;
    if ops != [] {
      var before, op := ops[..|ops| - 1], ops[|ops| - 1];
      HoldsWhatWasSent(lanes, before, lane);
      StepTakesSent(Run(Fresh(lanes), before), op, lane);
    }
  }

  /** Over every run, a board that is not paused shows in every lane the name last sent
      for it. */
  lemma ShowsWhatWasSent(lanes: nat, ops: seq<Op>)
    ensures |Run(Fresh(lanes), ops).rows| == lanes
    ensures !Run(Fresh(lanes), ops).paused ==>
      forall lane :: 1 <= lane <= lanes ==> Run(Fresh(lanes), ops).rows[lane - 1] == LastSent(ops, lane)
  {
    hide Run, LastSent, Name;
    RunIsConsistent(lanes, ops);
    HoldsWhatWasSent(lanes, ops, 1);
    var b := Run(Fresh(lanes), ops);
    if !b.paused {
      forall lane | 1 <= lane <= lanes ensures b.rows[lane - 1] == LastSent(ops, lane) {
        HoldsWhatWasSent(lanes, ops, lane);
        assert b.rows[lane - 1] == Name(b.names, lane - 1 + 1);
      }
    }
  }

  // ── Callbacks ──

  /** The step is a callback of the current transition. */
  predicate IsLive(b: Board, op: Op) {
    match op
    case Fire(t) => t in b.timers && t.token == b.token
    case FadeEnds => b.fade.Some? && b.done == Some(b.token)
    case _ => false
  }

  /** Paused, exactly one step can be the transition's next; otherwise none. */
  lemma OneChain(b: Board)
    requires Consistent(b)
    ensures b.paused <==> exists op :: IsLive(b, op)
    ensures forall op, other :: IsLive(b, op) && IsLive(b, other) ==> op == other
  {
    assert IsLive(b, FadeEnds) || forall op :: IsLive(b, op) ==> op.Fire?;
    assert Collapse(b.token) in b.timers ==> IsLive(b, Fire(Collapse(b.token)));
    assert FadeOut(b.token) in b.timers ==> IsLive(b, Fire(FadeOut(b.token)));
  }

  /** A timer of an overtaken transition changes nothing but being gone. */
  lemma StaleTimerChangesNothing(b: Board, t: Timer)
    requires t in b.timers && !IsLive(b, Fire(t))
    ensures Apply(b, Fire(t)) == b.(timers := b.timers - multiset{t})
  {
  }

  /** Nor does the end of its fade, which leaves the opacity where it went. */
  lemma StaleFadeChangesNothing(b: Board)
    requires b.fade.Some? && !IsLive(b, FadeEnds)
    ensures Apply(b, FadeEnds) == b.(opacity := b.fade.value, fade := None, done := None)
  {
  }

  /** A fade only ever moves the opacity on, between where it is and where it goes. */
  lemma FadeMovesOn(b: Board, v: real)
    requires b.fade.Some?
    ensures var u := Apply(b, FadeMoves(v));
      && u == b.(opacity := u.opacity)
      && (b.opacity <= u.opacity <= b.fade.value || b.fade.value <= u.opacity <= b.opacity)
  {
  }

  /** While the table is paused its picture stands: a step that leaves it paused paints
      nothing. */
  lemma PausedPictureStands(b: Board, op: Op)
    requires Apply(b, op).paused
    ensures Apply(b, op).rows == b.rows
  {
  }

  /** The next heat is painted while the table cannot be seen. */
  lemma SwapIsUnseen(b: Board, op: Op)
    requires Consistent(b) && b.paused && IsLive(b, op) && !Apply(b, op).paused
    ensures Apply(b, op).opacity == 0.0 && Apply(b, op).fade == Some(1.0)
  {
  }

  /** A new heat on top of results stops every lane, those the same frame starts too. */
  lemma NewHeatStopsLanes(b: Board, f: Frame)
    requires Begins(b, Update(f, true))
    ensures var u := Updated(b, f, true); u.paused && u.running == {} && u.rows == b.rows
  {
  }

  /** A frame that starts lanes on a still board runs them and shows the table at once,
      whatever was under way and with no callback left to touch it, exactly when it does
      not begin a transition itself. */
  lemma RaceShowsTable(b: Board, f: Frame, results: bool)
    requires Consistent(b) && b.running == {} && Flags(b, f.running) != {}
    ensures var u := Updated(b, f, results);
      (u.running == Flags(b, f.running) && !u.paused && u.opacity == 1.0 && u.fade.None? && Live(u) == 0)
      <==> !Begins(b, Update(f, results))
  {
    hide Flags;
    UpdateKeeps(b, f, results);
    if Begins(b, Update(f, results)) { NewHeatStopsLanes(b, f); }
  }

  // ── The way out of a pause ──

  /** Callbacks still to come before the table shows again. */
  function Rank(b: Board): nat {
    if !b.paused then 0
    else if Collapse(b.token) in b.timers then 3
    else if FadeOut(b.token) in b.timers then 2
    else 1
  }

  /** The step starts a transition. */
  predicate Begins(b: Board, op: Op) {
    op.Update? && op.results && op.frame.heat.Some? && b.heat.Some? && op.frame.heat != b.heat
  }

  function Progress(b: Board, ops: seq<Op>): nat
    decreases |ops|
  {
    if ops == [] then 0
    else
      var before := ops[..|ops| - 1];
      Progress(b, before) + (if IsLive(Run(b, before), ops[|ops| - 1]) then 1 else 0)
  }

  predicate BeginsNone(b: Board, ops: seq<Op>)
    decreases |ops|
  {
    ops == [] || (BeginsNone(b, ops[..|ops| - 1]) && !Begins(Run(b, ops[..|ops| - 1]), ops[|ops| - 1]))
  }

  /** Each live callback takes the pause one step nearer its end and nothing else but a
      new heat sets it back; that one sets it at its start. */
  lemma StepRank(b: Board, op: Op)
    requires Consistent(b)
    ensures IsLive(b, op) ==> Rank(Apply(b, op)) == Rank(b) - 1
    ensures !IsLive(b, op) && !Begins(b, op) ==> Rank(Apply(b, op)) in {0, Rank(b)}
    ensures Begins(b, op) ==> Rank(Apply(b, op)) == 3
    ensures op.Reset? ==> !Apply(b, op).paused
  {
    hide Updated;
    if op.Update? { UpdateRank(b, op.frame, op.results); } else if !op.Reset? { CallbackRank(b, op); }
  }

  lemma UpdateRank(b: Board, f: Frame, results: bool)
    ensures Begins(b, Update(f, results)) ==> Rank(Updated(b, f, results)) == 3
    ensures !Begins(b, Update(f, results)) ==> Rank(Updated(b, f, results)) in {0, Rank(b)}
  {
    hide Flags, Headed, Cancel, Painted;
    var headed := Headed(Merged(b, f), f.heat, results);
    HeadTakesHeat(Merged(b, f), f.heat, results);
    CancelLeavesSent(headed);
    PaintLeavesSent(headed, f.names);
    PaintLeavesSent(Cancel(headed), f.names);
  }

  lemma CallbackRank(b: Board, op: Op)
    requires Consistent(b) && !op.Update? && !op.Reset?
    ensures Rank(Apply(b, op)) == if IsLive(b, op) then Rank(b) - 1 else Rank(b)
  {
  }

  /** Until another heat comes, the board is out of its pause after at most three of its
      callbacks, whatever else happens between them. */
  lemma {:induction false} PauseEnds(b: Board, ops: seq<Op>)
    requires Consistent(b) && BeginsNone(b, ops)
    ensures Consistent(Run(b, ops))
    ensures Rank(Run(b, ops)) + Progress(b, ops) <= Rank(b) <= 3
    ensures Progress(b, ops) == 3 ==> !Run(b, ops).paused
    decreases |ops|
  {
    if ops != [] {
      var before := ops[..|ops| - 1];
      PauseEnds(b, before);
      StepKeepsConsistent(Run(b, before), ops[|ops| - 1]);
      StepRank(Run(b, before), ops[|ops| - 1]);
    }
  }

  // ── The class ──

  class BoardWindow {
    var names: map<int, string>
    var rows: seq<string>
    var running: set<int>
    var heat: Option<(int, int)>
    var paused: bool
    var token: nat
    var timers: multiset<Timer>
    var fade: Option<real>
    var done: Option<nat>
    var opacity: real

    function State(): Board
      reads this
    {
      Board(names, rows, running, heat, paused, token, timers, fade, done, opacity)
    }

    constructor (lanes: nat)
      ensures State() == Fresh(lanes)
    {
      names, rows, running, heat := map[], seq(lanes, i => ""), {}, None;
      paused, token, timers, fade, done, opacity := false, 0, multiset{}, None, None, 1.0;
    }

    method Refresh()
      modifies this`rows
      ensures State() == Refreshed(old(State()))
    {
      for i := 0 to |rows|
        invariant |rows| == |old(rows)|
        invariant forall k :: 0 <= k < |rows| ==> rows[k] == if k < i then Name(names, k + 1) else old(rows)[k]
      {
        rows := rows[i := Name(names, i + 1)];
      }
      assert State() == Refreshed(old(State()));
    }

    method FadeContent(target: real, callback: Option<nat>)
      modifies this`fade, this`done
      ensures State() == FadeTo(old(State()), target, callback)
    {
      done := callback;
      fade := Some(target);
    }

    method BeginHeatTransition(results: bool)
      modifies this`token, this`paused, this`running, this`timers
      ensures State() == Begin(old(State()), results)
    {
      if !results { return; }
      token := token + 1;
      paused := true;
      running := {};
      timers := timers + multiset{Collapse(token)};
    }

    method CancelHeatTransition()
      modifies this
      ensures State() == Cancel(old(State())) && |rows| == |old(rows)|
    {
      token := token + 1;
      fade := None;
      opacity := 1.0;
      if paused {
        paused := false;
        Refresh();
      }
    }

    method TransitionSwap(held: nat)
      modifies this
      ensures State() == Swap(old(State()), held)
    {
      if held != token { return; }
      paused := false;
      Refresh();
      FadeContent(1.0, None);
    }

    /** A timer is up: the step it was set for, if its transition is still the current. */
    method TimerFires(t: Timer)
      requires t in timers
      modifies this
      ensures State() == Apply(old(State()), Fire(t))
    {
      timers := timers - multiset{t};
      if t.token != token { return; }
      if t.Collapse? {
        timers := timers + multiset{FadeOut(t.token)};
      } else {
        FadeContent(0.0, Some(t.token));
      }
    }

    method OnContentFadeFinished()
      requires fade.Some?
      modifies this
      ensures State() == Apply(old(State()), FadeEnds)
    {
      opacity, fade := fade.value, None;
      var callback := done;
      done := None;
      if callback.Some? { TransitionSwap(callback.value); }
    }

    /** Take the running flags of a frame, key by key. */
    method SetRunning(flags: map<int, bool>)
      modifies this`running
      ensures running == old(Flags(State(), flags))
      requires forall lane :: lane in running ==> 1 <= lane <= |rows|
    {
      var todo := flags.Keys;
      while todo != {}
        invariant todo <= flags.Keys
        invariant forall lane :: lane in running <==>
          1 <= lane <= |rows| && (if lane in flags && lane !in todo then flags[lane] else lane in old(running))
        decreases |todo|
      {
        ghost var one := AnyOf(todo);
        var lane :| lane in todo;
        if 1 <= lane <= |rows| {
          running := if flags[lane] then running + {lane} else running - {lane};
        }
        todo := todo - {lane};
      }
      forall lane
        ensures lane in running <==> lane in old(Flags(State(), flags))
      {
      }
    }

    /** Redraw the rows a frame names. */
    method Redraw(touched: map<int, string>)
      modifies this`rows
      ensures State() == Painted(old(State()), touched)
    {
      for i := 0 to |rows|
        invariant |rows| == |old(rows)|
        invariant forall k :: 0 <= k < |rows| ==>
          rows[k] == if k < i && k + 1 in touched then Name(names, k + 1) else old(rows)[k]
      {
        if i + 1 in touched { rows := rows[i := Name(names, i + 1)]; }
      }
      assert State() == Painted(old(State()), touched);
    }

    /** Merge a frame's names and running flags. */
    method Merge(f: Frame)
      requires forall lane :: lane in running ==> 1 <= lane <= |rows|
      modifies this`names, this`running
      ensures State() == Merged(old(State()), f)
    {
      names := names + f.names;
      SetRunning(f.running);
    }

    /** Take the heat a frame names. */
    method TurnTo(named: Option<(int, int)>, results: bool)
      modifies this
      ensures State() == Headed(old(State()), named, results)
    {
      hide Begin;
      if named.Some? && named != heat {
        var first := heat.None?;
        heat := named;
        if !first { BeginHeatTransition(results); }
      }
    }

    method ApplyUpdate(f: Frame, results: bool)
      requires forall lane :: lane in running ==> 1 <= lane <= |rows|
      modifies this
      ensures State() == Updated(old(State()), f, results)
    {
      hide Merged, Headed, Cancel, Painted;
      var wasRacing := running != {};
      Merge(f);
      TurnTo(f.heat, results);
      if !wasRacing && State().running != {} { CancelHeatTransition(); }
      if !paused { Redraw(f.names); }
    }

    method ResetBoard()
      modifies this
      ensures State() == Cleared(old(State()))
    {
      hide Cancel;
      running := {};
      CancelHeatTransition();
      heat := None;
      names := map[];
      rows := seq(|rows|, i => "");
    }
  }
}
