/** The meets a worker serves: which socket publishes each, over any run of registers,
    frames and disconnects on any number of sockets. */
module WorkerMeets {
  import opened Text
  import Relay

  type Socket = int

  /** A live meet: the socket it is bound to and the scoreboard cached for it. */
  datatype Live = Live(socket: Socket, board: Relay.Frame)

  /** `meetOf` is the meet each socket last registered. */
  datatype Worker = Worker(meets: map<string, Live>, meetOf: map<Socket, string>)

  datatype Op =
    | Register(socket: Socket, meet: string)
    | Forward(socket: Socket, frame: Relay.Frame)
    | Disconnect(socket: Socket)

  /** The meet a socket leaves by registering another. */
  function Displaced(w: Worker, socket: Socket, meet: string): set<string> {
    if socket in w.meetOf && w.meetOf[socket] != meet then {w.meetOf[socket]} else {}
  }

  /** The meet that goes with a socket: the one it is still bound to. */
  function Retired(w: Worker, socket: Socket): set<string> {
    if socket in w.meetOf && w.meetOf[socket] in w.meets && w.meets[w.meetOf[socket]].socket == socket
    then {w.meetOf[socket]} else {}
  }

  function Apply(w: Worker, op: Op): Worker {
    match op
    case Register(socket, meet) =>
      var board := if meet in w.meets then w.meets[meet].board else map[];
      Worker((w.meets - Displaced(w, socket, meet))[meet := Live(socket, board)], w.meetOf[socket := meet])
    case Forward(socket, f) =>
      if socket in w.meetOf && w.meetOf[socket] in w.meets then
        var m := w.meetOf[socket];
        w.(meets := w.meets[m := w.meets[m].(board := w.meets[m].board + Relay.Clockless(f))])
      else w
    case Disconnect(socket) =>
      Worker(w.meets - Retired(w, socket), w.meetOf - {socket})
  }

  function Run(ops: seq<Op>): Worker
    decreases |ops|
  {
    if ops == [] then Worker(map[], map[]) else Apply(Run(ops[..|ops| - 1]), ops[|ops| - 1])
  }

  // ── What the history says ──

  /** The meet a socket last registered, while it stays connected. */
  function Bound(ops: seq<Op>, socket: Socket): Option<string>
    decreases |ops|
  {
    if ops == [] then None
    else
      var before, op := ops[..|ops| - 1], ops[|ops| - 1];
      if op.socket != socket || op.Forward? then Bound(before, socket)
      else if op.Register? then Some(op.meet) else None
  }

  /** The last socket to register a meet. */
  function Last(ops: seq<Op>, meet: string): Option<Socket>
    decreases |ops|
  {
    if ops == [] then None
    else
      var before, op := ops[..|ops| - 1], ops[|ops| - 1];
      if op.Register? && op.meet == meet then Some(op.socket) else Last(before, meet)
  }

  /** Since a meet was last registered, a socket that had registered it moved on to
      another meet. */
  predicate MovedOn(ops: seq<Op>, meet: string)
    decreases |ops|
  {
    ops != []
    && var before, op := ops[..|ops| - 1], ops[|ops| - 1];
       if op.Register? && op.meet == meet then false
       else MovedOn(before, meet) || (op.Register? && Bound(before, op.socket) == Some(meet))
  }

  /** The last socket to register a meet is still connected. */
  predicate Connected(ops: seq<Op>, meet: string) {
    Last(ops, meet).Some? && Bound(ops, Last(ops, meet).value) == Some(meet)
  }

  lemma {:induction false} MeetOfIsBound(ops: seq<Op>, socket: Socket)
    ensures socket in Run(ops).meetOf <==> Bound(ops, socket).Some?
    ensures socket in Run(ops).meetOf ==> Run(ops).meetOf[socket] == Bound(ops, socket).value
    decreases |ops|
  {
    if ops != [] { MeetOfIsBound(ops[..|ops| - 1], socket); }
  }

  /** Every live meet is bound to a socket that last registered that very meet. */
  ghost predicate Consistent(w: Worker) {
    forall m :: m in w.meets ==> w.meets[m].socket in w.meetOf && w.meetOf[w.meets[m].socket] == m
  }

  lemma StepKeepsConsistent(w: Worker, op: Op)
    requires Consistent(w)
    ensures Consistent(Apply(w, op))
  {
  }

  lemma {:induction false} RunIsConsistent(ops: seq<Op>)
    ensures Consistent(Run(ops))
    decreases |ops|
  {
    if ops != [] {
      RunIsConsistent(ops[..|ops| - 1]);
      StepKeepsConsistent(Run(ops[..|ops| - 1]), ops[|ops| - 1]);
    }
  }

  /** So over any run no socket publishes two meets. */
  lemma OneMeetPerSocket(ops: seq<Op>, m: string, n: string)
    requires m in Run(ops).meets && n in Run(ops).meets && Run(ops).meets[m].socket == Run(ops).meets[n].socket
    ensures m == n
  {
    RunIsConsistent(ops);
  }

  /** A meet is served exactly while the last socket to register it is connected and no
      socket that had registered it has moved on to another meet since; it is bound to
      that last socket. */
  lemma {:induction false} ServedExactlyWhile(ops: seq<Op>, meet: string)
    ensures meet in Run(ops).meets <==> Connected(ops, meet) && !MovedOn(ops, meet)
    ensures meet in Run(ops).meets ==> Some(Run(ops).meets[meet].socket) == Last(ops, meet)
    decreases |ops|
  {
    if ops != [] {
      var before, op := ops[..|ops| - 1], ops[|ops| - 1];
      ServedExactlyWhile(before, meet);
      RunIsConsistent(before);
      MeetOfIsBound(before, op.socket);
      if Last(before, meet).Some? { MeetOfIsBound(before, Last(before, meet).value); }
    }
  }

  /** No socket registers a second meet while it is connected. */
  predicate OneMeetEach(ops: seq<Op>)
    decreases |ops|
  {
    ops == []
    || (var before, op := ops[..|ops| - 1], ops[|ops| - 1];
        OneMeetEach(before) && (op.Register? ==> Bound(before, op.socket) in {None, Some(op.meet)}))
  }

  /** Where each socket keeps to its meet, every meet whose last socket is connected is
      served, whatever stale sockets do. */
  lemma {:induction false} ServedWhileConnected(ops: seq<Op>, meet: string)
    requires OneMeetEach(ops)
    ensures !MovedOn(ops, meet)
    ensures meet in Run(ops).meets <==> Connected(ops, meet)
    decreases |ops|
  {
    if ops != [] {
      ServedWhileConnected(ops[..|ops| - 1], meet);
    }
    ServedExactlyWhile(ops, meet);
  }

  /** Where one does not, a meet can be lost: socket 1 registers "a", socket 2 takes "a"
      over, then socket 1 registers "b" — and "a" is gone while socket 2 is connected. */
  lemma StaleSocketDropsMeet()
    ensures var ops := [Register(1, "a"), Register(2, "a"), Register(1, "b")];
      Connected(ops, "a") && "a" !in Run(ops).meets
  {
    var r1, r2, r3 := Register(1, "a"), Register(2, "a"), Register(1, "b");
    var w1 := Worker(map["a" := Live(1, map[])], map[1 := "a"]);
    var w2 := Worker(map["a" := Live(2, map[])], map[1 := "a", 2 := "a"]);
    assert [r1, r2, r3][..2] == [r1, r2] && [r1, r2][..1] == [r1] && [r1][..0] == [];
    assert Run([r1]) == w1;
    assert Run([r1, r2]) == w2;
    assert Bound([r1, r2, r3], 2) == Bound([r1, r2], 2) == Some("a");
    assert Last([r1, r2, r3], "a") == Last([r1, r2], "a") == Some(2);
  }

  /** A socket that is no longer the one bound to its meet leaves every meet as it is. */
  lemma StaleDisconnectChangesNoMeet(w: Worker, socket: Socket)
    requires socket in w.meetOf && w.meetOf[socket] in w.meets
    requires w.meets[w.meetOf[socket]].socket != socket
    ensures Apply(w, Disconnect(socket)).meets == w.meets
  {
    assert w.meets - {} == w.meets;
  }

  // ── What each meet's page shows ──

  /** What was forwarded to a meet since it was last brought back. */
  function Forwarded(ops: seq<Op>, meet: string): Relay.Frame
    decreases |ops|
  {
    if ops == [] then map[]
    else
      var before, op := ops[..|ops| - 1], ops[|ops| - 1];
      if op.Register? && op.meet == meet && !(Connected(before, meet) && !MovedOn(before, meet)) then map[]
      else if op.Forward? && Bound(before, op.socket) == Some(meet)
      then Forwarded(before, meet) + Relay.Clockless(op.frame)
      else Forwarded(before, meet)
  }

  /** A served meet caches the frames of the sockets that registered it and of no other,
      across every re-register. */
  lemma {:induction false} BoardIsForwarded(ops: seq<Op>, meet: string)
    requires meet in Run(ops).meets
    ensures Run(ops).meets[meet].board == Forwarded(ops, meet)
    decreases |ops|
  {
    var before, op := ops[..|ops| - 1], ops[|ops| - 1];
    ServedExactlyWhile(before, meet);
    MeetOfIsBound(before, op.socket);
    if meet in Run(before).meets { BoardIsForwarded(before, meet); }
  }

  // ── The class ──

  class Sockets {
    var meets: map<string, Live>
    var meetOf: map<Socket, string>

    ghost function State(): Worker
      reads this
    {
      Worker(meets, meetOf)
    }

    constructor ()
      ensures State() == Run([])
    {
      meets, meetOf := map[], map[];
    }

    /** Bind a meet to a socket; the meet the socket published before, if it was live. */
    method Register(socket: Socket, meet: string) returns (displaced: set<string>)
      modifies this
      ensures State() == Apply(old(State()), Op.Register(socket, meet))
      ensures displaced == old(Displaced(State(), socket, meet) * meets.Keys)
    {
      displaced := {};
      if socket in meetOf && meetOf[socket] != meet {
        if meetOf[socket] in meets { displaced := {meetOf[socket]}; }
        meets := meets - {meetOf[socket]};
      }
      var board := if meet in meets then meets[meet].board else map[];
      meets := meets[meet := Live(socket, board)];
      meetOf := meetOf[socket := meet];
    }

    /** A socket is gone; the meet that goes with it. */
    method Disconnect(socket: Socket) returns (retired: set<string>)
      modifies this
      ensures State() == Apply(old(State()), Op.Disconnect(socket))
      ensures retired == old(Retired(State(), socket))
    {
      retired := {};
      if socket in meetOf {
        var meet := meetOf[socket];
        meetOf := meetOf - {socket};
        if meet in meets && meets[meet].socket == socket {
          retired := {meet};
        }
        meets := meets - retired;
      } else {
        meetOf := meetOf - {socket};
      }
    }

    /** Cache a frame for the meet its socket registered, if it is live. */
    method Cache(socket: Socket, f: Relay.Frame)
      modifies this`meets
      ensures State() == Apply(old(State()), Op.Forward(socket, f))
    {
      if socket in meetOf && meetOf[socket] in meets {
        var live := meets[meetOf[socket]];
        meets := meets[meetOf[socket] := live.(board := live.board + Relay.Clockless(f))];
      }
    }
  }
}
