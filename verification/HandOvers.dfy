/** One meet's notifications over whole runs: what each node's store remembers, while
    evaluations, registers, crashes and hand-overs from node to node come block by block. */
module HandOvers {
  import opened Text
  import opened Follows

  /** An evaluation between its reading of a node's store and its marking there. */
  datatype Weighing = Weighing(node: string, marks: set<Mark>)

  /** A hand-over under way: what was read of the meet on one node for another, and
      whether the other has stored it. */
  datatype Parcel = Parcel(from: string, node: string, bundle: Bundle, stored: bool)

  /** One meet: what each node's store holds of it, the node its Pi publishes on, where
      its marks went ahead of the Pi, the evaluation and the hand-over under way, the
      notifications marked but not yet sent, and the ones sent. */
  datatype System = System(
    shelves: map<string, Bundle>, home: string, leftFor: Option<string>, weighing: Option<Weighing>,
    parcel: Option<Parcel>, leaving: multiset<Mark>, sent: multiset<Mark>)

  datatype Op =
    | Register(sub: Sub)
    | Weigh(wanted: set<Mark>)
    | MarkSent
    | Deliver(mark: Mark)
    | Crash
    | TokenDead(token: string)
    | ClearMarks
    | Export(node: string)
    | Receive
    | Fail
    | Drop
    | Go(node: string)
    | Sweep(node: string)

  function ShelfOf(s: System, node: string): Bundle {
    if node in s.shelves then s.shelves[node] else Bundle(map[], {})
  }

  function Shelf(s: System): Bundle {
    ShelfOf(s, s.home)
  }

  function OnShelf(s: System, node: string, b: Bundle): System {
    s.(shelves := s.shelves[node := b])
  }

  /** One committed block. Evaluations come one at a time, as do hand-overs; an evaluation
      may begin, and devices register, between any two blocks of a hand-over. */
  function Apply(s: System, op: Op): System {
    match op
    case Register(sub) => OnShelf(s, s.home, AfterPut(Shelf(s), sub))
    case Weigh(wanted) =>
      if s.weighing.Some? then s else s.(weighing := Some(Weighing(s.home, Untold(Shelf(s), wanted))))
    case MarkSent =>
      if s.weighing.None? then s
      else
        var w := s.weighing.value;
        var b := ShelfOf(s, w.node);
        OnShelf(s, w.node, b.(fired := b.fired + w.marks)).(weighing := None, leaving := s.leaving + multiset(w.marks))
    case Deliver(m) =>
      if m in s.leaving then s.(leaving := s.leaving - multiset{m}, sent := s.sent + multiset{m}) else s
    case Crash => s.(leaving := multiset{}, weighing := None, parcel := None)
    case TokenDead(token) => OnShelf(s, s.home, WithoutToken(Shelf(s), token))
    case ClearMarks => OnShelf(s, s.home, Shelf(s).(fired := {}))
    case Export(node) =>
      if s.parcel.Some? || node == s.home || Shelf(s).follows == map[] then s
      else s.(parcel := Some(Parcel(s.home, node, Shelf(s), false)))
    case Receive =>
      if s.parcel.None? || s.parcel.value.stored then s
      else
        var p := s.parcel.value;
        OnShelf(s, p.node, Joined(ShelfOf(s, p.node), p.bundle)).(parcel := Some(p.(stored := true)))
    case Fail => s.(parcel := None)
    case Drop =>
      if s.parcel.None? || !s.parcel.value.stored then s
      else
        var p := s.parcel.value;
        OnShelf(s, p.from, Bundle(map[], {})).(parcel := None, leftFor := if p.from == s.home then Some(p.node) else s.leftFor)
    case Go(node) => if node == s.home then s else s.(home := node, leftFor := None)
    case Sweep(node) => s.(shelves := s.shelves - {node})
  }

  function Run(s: System, ops: seq<Op>): System
    decreases |ops|
  {
    if ops == [] then s else Apply(Run(s, ops[..|ops| - 1]), ops[|ops| - 1])
  }

  /** The two blocks of an evaluation leave its node's store as the evaluation does, and
      send exactly what it had to tell. */
  lemma EvaluatesInTwoBlocks(s: System, wanted: set<Mark>)
    requires s.weighing.None?
    ensures var u := Apply(Apply(s, Weigh(wanted)), MarkSent);
      && Shelf(u) == Evaluated(Shelf(s), wanted)
      && u.leaving == s.leaving + multiset(Untold(Shelf(s), wanted)) && u.sent == s.sent
  {
  }

  /** A crash keeps what is marked and loses what was not sent: none of that goes out after
      it without an evaluation telling it again. */
  lemma CrashLosesUnsent(s: System, m: Mark)
    ensures var u := Apply(s, Crash);
      && u.shelves == s.shelves && u.sent == s.sent
      && Apply(u, MarkSent) == u && Apply(u, Deliver(m)) == u && Apply(u, Receive) == u
  {
  }

  /** A meet is carried only to another node, one at a time, and with what its node holds. */
  lemma ExportCarriesShelf(s: System, node: string)
    ensures var u := Apply(s, Export(node));
      && u.(parcel := s.parcel) == s
      && (u.parcel != s.parcel ==>
        && s.parcel.None? && node != s.home && Shelf(s).follows != map[]
        && u.parcel == Some(Parcel(s.home, node, Shelf(s), false)))
      && (s.parcel.None? && node != s.home && Shelf(s).follows != map[] ==> u.parcel.Some?)
  {
  }

  // ── What is remembered ──

  predicate Weighed(s: System, m: Mark) {
    s.weighing.Some? && m in s.weighing.value.marks
  }

  predicate WeighedAt(s: System, node: string, m: Mark) {
    Weighed(s, m) && s.weighing.value.node == node
  }

  /** The mark went ahead to the node the meet's hand-over dropped it for. */
  predicate Ahead(s: System, m: Mark) {
    s.leftFor.Some? && s.leftFor.value != s.home && m in ShelfOf(s, s.leftFor.value).fired
  }

  /** The meet's node will not tell `m` again: it is marked there or about to be, or went
      ahead and its device no longer follows here. */
  predicate Remembered(s: System, m: Mark) {
    m in Shelf(s).fired || WeighedAt(s, s.home, m) || (Ahead(s, m) && m.token !in Shelf(s).follows)
  }

  /** The block forgets that `m` was told: its device stops following, registers on a node
      already dropped or has a dead token; the marks are cleared or swept; a hand-over
      drops what it did not carry; or the Pi goes where the mark is not. */
  predicate Forgets(s: System, op: Op, m: Mark) {
    Remembered(s, m) &&
    match op
    case Register(sub) =>
      sub.token == m.token && !WeighedAt(s, s.home, m)
      && (if sub.swimmers == [] then !Ahead(s, m) else m !in Shelf(s).fired)
    case TokenDead(token) => token == m.token && !WeighedAt(s, s.home, m) && !Ahead(s, m)
    case ClearMarks => !WeighedAt(s, s.home, m) && !(Ahead(s, m) && m.token !in Shelf(s).follows)
    case Receive =>
      s.parcel.Some? && !s.parcel.value.stored && s.parcel.value.node == s.home
      && m.token in s.parcel.value.bundle.follows && m !in s.parcel.value.bundle.fired
      && m !in Shelf(s).fired && !WeighedAt(s, s.home, m)
    case Drop =>
      s.parcel.Some? && s.parcel.value.stored && !WeighedAt(s, s.home, m)
      && (if s.parcel.value.from == s.home
          then s.parcel.value.node == s.home || m !in ShelfOf(s, s.parcel.value.node).fired
          else m !in Shelf(s).fired && s.leftFor == Some(s.parcel.value.from))
    case Go(node) => node != s.home && m !in ShelfOf(s, node).fired && !WeighedAt(s, node, m)
    case Sweep(node) =>
      !WeighedAt(s, s.home, m)
      && (if node == s.home then !Ahead(s, m)
          else s.leftFor == Some(node) && m !in Shelf(s).fired)
    case _ => false
  }

  function TimesForgotten(s: System, ops: seq<Op>, m: Mark): nat
    decreases |ops|
  {
    if ops == [] then 0
    else
      var before := ops[..|ops| - 1];
      TimesForgotten(s, before, m) + (if Forgets(Run(s, before), ops[|ops| - 1], m) then 1 else 0)
  }

  /** How often `m` was or may still be sent without being forgotten again. */
  function Exposure(s: System, m: Mark): nat {
    s.sent[m] + s.leaving[m] + (if Weighed(s, m) then 1 else 0) + (if Remembered(s, m) then 0 else 1)
  }

  /** The block exposes `m` to one more sending exactly when it forgets it. */
  predicate ExposesAsForgotten(s: System, op: Op, m: Mark) {
    if Forgets(s, op, m) then Exposure(Apply(s, op), m) == Exposure(s, m) + 1
    else Exposure(Apply(s, op), m) <= Exposure(s, m)
  }

  lemma RegisterExposes(s: System, sub: Sub, m: Mark)
    ensures ExposesAsForgotten(s, Register(sub), m)
  {
  }

  lemma EvaluationExposes(s: System, wanted: set<Mark>, m: Mark)
    ensures ExposesAsForgotten(s, Weigh(wanted), m)
    ensures ExposesAsForgotten(s, MarkSent, m)
  {
  }

  lemma DeliveryExposes(s: System, d: Mark, m: Mark)
    ensures ExposesAsForgotten(s, Deliver(d), m)
  {
  }

  lemma FailureExposes(s: System, m: Mark)
    ensures ExposesAsForgotten(s, Crash, m) && ExposesAsForgotten(s, Fail, m)
  {
  }

  lemma ClearingExposes(s: System, token: string, m: Mark)
    ensures ExposesAsForgotten(s, TokenDead(token), m) && ExposesAsForgotten(s, ClearMarks, m)
  {
  }

  lemma CarryingExposes(s: System, node: string, m: Mark)
    ensures ExposesAsForgotten(s, Export(node), m) && ExposesAsForgotten(s, Receive, m)
  {
  }

  lemma DropExposes(s: System, m: Mark)
    ensures ExposesAsForgotten(s, Drop, m)
  {
  }

  lemma LeavingExposes(s: System, node: string, m: Mark)
    ensures ExposesAsForgotten(s, Go(node), m) && ExposesAsForgotten(s, Sweep(node), m)
  {
  }

  lemma StepExposure(s: System, op: Op, m: Mark)
    ensures ExposesAsForgotten(s, op, m)
  {
    hide ExposesAsForgotten;
    match op
    case Register(sub) => RegisterExposes(s, sub, m);
    case Weigh(wanted) => EvaluationExposes(s, wanted, m);
    case MarkSent => EvaluationExposes(s, {}, m);
    case Deliver(d) => DeliveryExposes(s, d, m);
    case Crash => FailureExposes(s, m);
    case TokenDead(token) => ClearingExposes(s, token, m);
    case ClearMarks => ClearingExposes(s, "", m);
    case Export(node) => CarryingExposes(s, node, m);
    case Receive => CarryingExposes(s, "", m);
    case Fail => FailureExposes(s, m);
    case Drop => DropExposes(s, m);
    case Go(node) => LeavingExposes(s, node, m);
    case Sweep(node) => LeavingExposes(s, node, m);
  }

  lemma {:induction false} ExposureOverRun(s: System, ops: seq<Op>, m: Mark)
    ensures Exposure(Run(s, ops), m) <= Exposure(s, m) + TimesForgotten(s, ops, m)
    decreases |ops|
  {
    hide Apply, Forgets, Exposure;
    if ops != [] {
      ExposureOverRun(s, ops[..|ops| - 1], m);
      StepExposure(Run(s, ops[..|ops| - 1]), ops[|ops| - 1], m);
    }
  }

  /** Over any run of single blocks, crashes and hand-overs included, a notification is
      sent at most once more than it was forgotten. */
  lemma SentAtMostOnce(s: System, ops: seq<Op>, m: Mark)
    requires s.sent[m] == 0 && s.leaving[m] == 0 && !Weighed(s, m)
    ensures Run(s, ops).sent[m] <= 1 + TimesForgotten(s, ops, m)
  {
    hide Run, TimesForgotten;
    ExposureOverRun(s, ops, m);
  }

  // ── Hand-overs ──

  /** Between a hand-over's reading and its dropping the meet's node is not asked to tell
      `m`, the Pi stays and no store is swept: devices may register, deliveries, dead
      tokens and even failed hand-overs may come. */
  predicate QuietFor(ops: seq<Op>, m: Mark) {
    forall op :: op in ops ==> !(op.Weigh? && m in op.wanted) && !op.Drop? && !op.Go? && !op.Sweep?
  }

  /** Marked here, `m` is in what is carried, and stored where that was. */
  ghost predicate Carried(s: System, m: Mark) {
    && !Weighed(s, m) && s.leftFor.None?
    && (s.parcel.Some? ==>
      && s.parcel.value.from == s.home && s.parcel.value.node != s.home
      && (m in Shelf(s).fired ==> m in s.parcel.value.bundle.fired)
      && (s.parcel.value.stored && m in s.parcel.value.bundle.fired ==> m in ShelfOf(s, s.parcel.value.node).fired))
  }

  lemma QuietKeepsCarried(s: System, op: Op, m: Mark)
    requires Carried(s, m) && QuietFor([op], m)
    ensures Carried(Apply(s, op), m)
  {
    assert op in [op];
  }

  lemma {:induction false} QuietRunKeepsCarried(s: System, ops: seq<Op>, m: Mark)
    requires Carried(s, m) && QuietFor(ops, m)
    ensures Carried(Run(s, ops), m)
    decreases |ops|
  {
    hide Carried, Apply;
    if ops != [] {
      var before, op := ops[..|ops| - 1], ops[|ops| - 1];
      assert forall o :: o in before ==> o in ops;
      assert op in ops;
      QuietRunKeepsCarried(s, before, m);
      QuietKeepsCarried(Run(s, before), op, m);
    }
  }

  /** A hand-over drops a mark it did not carry only when an evaluation told it after the
      reading: with none in between, whatever else came, the drop forgets nothing. */
  lemma DropForgetsOnlyLateMarks(s: System, ops: seq<Op>, m: Mark)
    requires s.parcel.None? && s.leftFor.None? && !Weighed(s, m) && QuietFor(ops, m)
    ensures !Forgets(Run(s, ops), Drop, m)
  {
    hide Run;
    QuietRunKeepsCarried(s, ops, m);
  }

  /** And a drop the Pi has not left before forgets exactly the marks the other node has
      not got. */
  lemma DropForgetsUncarried(s: System, m: Mark)
    requires s.parcel.Some? && s.parcel.value.stored && s.parcel.value.from == s.home && s.parcel.value.node != s.home
    requires !WeighedAt(s, s.home, m) && m in Shelf(s).fired
    ensures Forgets(s, Drop, m) <==> m !in ShelfOf(s, s.parcel.value.node).fired
  {
  }

  /** Blocks that leave a hand-over and every other node's store alone. */
  predicate Aside(ops: seq<Op>) {
    forall op :: op in ops ==> op.Deliver? || op.TokenDead? || op.ClearMarks?
  }

  lemma AsideStep(s: System, op: Op, node: string)
    requires Aside([op]) && node != s.home
    ensures var u := Apply(s, op);
      && u.parcel == s.parcel && u.home == s.home && u.weighing == s.weighing && u.leftFor == s.leftFor
      && ShelfOf(u, node) == ShelfOf(s, node)
  {
    assert op in [op];
  }

  lemma {:induction false} AsideKeeps(s: System, ops: seq<Op>, node: string)
    requires Aside(ops) && node != s.home
    ensures var u := Run(s, ops);
      && u.parcel == s.parcel && u.home == s.home && u.weighing == s.weighing && u.leftFor == s.leftFor
      && ShelfOf(u, node) == ShelfOf(s, node)
    decreases |ops|
  {
    hide Apply;
    if ops != [] {
      var before, op := ops[..|ops| - 1], ops[|ops| - 1];
      assert forall o :: o in before ==> o in ops;
      assert op in ops;
      AsideKeeps(s, before, node);
      AsideStep(Run(s, before), op, node);
    }
  }

  /** With no evaluation and no register between its reading and its dropping, an answered
      hand-over carries every follow and every mark: the Pi finds exactly what the other
      node had joined with all there was. */
  lemma AnsweredHandOverKeepsMarks(s: System, node: string, a: seq<Op>, b: seq<Op>, c: seq<Op>)
    requires s.parcel.None? && node != s.home && Shelf(s).follows != map[]
    requires Aside(a) && Aside(b) && Aside(c)
    ensures Shelf(Run(s, [Export(node)] + a + [Receive] + b + [Drop] + c + [Go(node)]))
      == Joined(ShelfOf(s, node), Shelf(s))
  {
    hide Apply, Run;
    var s1 := Apply(s, Export(node));
    var s2 := Run(s1, a);
    var s3 := Apply(s2, Receive);
    var s4 := Run(s3, b);
    var s5 := Apply(s4, Drop);
    var s6 := Run(s5, c);
    ExportReads(s, node);
    AsideKeeps(s1, a, node);
    ReceiveStores(s2);
    AsideKeeps(s3, b, node);
    DropLeaves(s4, node);
    AsideKeeps(s5, c, node);
    GoFinds(s6, node);
    RunStep(s, [], Export(node));
    NoRun(s);
    assert [] + [Export(node)] == [Export(node)];
    RunOn(s, [Export(node)], a);
    RunStep(s, [Export(node)] + a, Receive);
    RunOn(s, [Export(node)] + a + [Receive], b);
    RunStep(s, [Export(node)] + a + [Receive] + b, Drop);
    RunOn(s, [Export(node)] + a + [Receive] + b + [Drop], c);
    RunStep(s, [Export(node)] + a + [Receive] + b + [Drop] + c, Go(node));
  }

  /** A device that registers in between is dropped with the rest: the other node has what
      was read before it did. */
  lemma LateFollowIsDropped(s: System, sub: Sub)
    requires s.parcel.Some? && !s.parcel.value.stored && s.parcel.value.from == s.home && s.parcel.value.node != s.home
    ensures var p := s.parcel.value;
      Shelf(Run(s, [Register(sub)] + [Receive, Drop, Go(p.node)])) == Joined(ShelfOf(s, p.node), p.bundle)
  {
    hide Apply, Run;
    var p := s.parcel.value;
    var u := Apply(s, Register(sub));
    RegisterIsLocal(s, sub, p.node);
    ReceiveStores(u);
    DropLeaves(Apply(u, Receive), p.node);
    GoFinds(Apply(Apply(u, Receive), Drop), p.node);
    RunStep(s, [], Register(sub));
    NoRun(s);
    assert [] + [Register(sub)] == [Register(sub)];
    RunOn(s, [Register(sub)], [Receive, Drop, Go(p.node)]);
    RunOfThree(u, Receive, Drop, Go(p.node));
  }

  lemma RegisterIsLocal(s: System, sub: Sub, node: string)
    requires node != s.home
    ensures var u := Apply(s, Register(sub));
      ShelfOf(u, node) == ShelfOf(s, node) && u.parcel == s.parcel && u.home == s.home
  {
  }

  lemma NoRun(s: System)
    ensures Run(s, []) == s
  {
  }

  lemma ExportReads(s: System, node: string)
    requires s.parcel.None? && node != s.home && Shelf(s).follows != map[]
    ensures Apply(s, Export(node)) == s.(parcel := Some(Parcel(s.home, node, Shelf(s), false)))
  {
  }

  lemma ReceiveStores(s: System)
    requires s.parcel.Some? && !s.parcel.value.stored
    ensures var p := s.parcel.value; var u := Apply(s, Receive);
      && u.home == s.home && u.parcel == Some(p.(stored := true))
      && ShelfOf(u, p.node) == Joined(ShelfOf(s, p.node), p.bundle)
  {
  }

  lemma DropLeaves(s: System, node: string)
    requires s.parcel.Some? && s.parcel.value.stored && node != s.parcel.value.from
    ensures var u := Apply(s, Drop); u.home == s.home && ShelfOf(u, node) == ShelfOf(s, node)
  {
  }

  lemma GoFinds(s: System, node: string)
    ensures Shelf(Apply(s, Go(node))) == ShelfOf(s, node)
  {
  }

  // ── What is told twice ──

  lemma RunStep(s: System, ops: seq<Op>, op: Op)
    ensures Run(s, ops + [op]) == Apply(Run(s, ops), op)
  {
    hide Apply;
    assert (ops + [op])[..|ops|] == ops;
  }

  lemma {:induction false} RunOn(s: System, a: seq<Op>, b: seq<Op>)
    ensures Run(s, a + b) == Run(Run(s, a), b)
    decreases |b|
  {
    hide Apply;
    if b == [] {
      assert a + b == a;
    } else {
      assert (a + b)[..|a + b| - 1] == a + b[..|b| - 1];
      RunOn(s, a, b[..|b| - 1]);
    }
  }

  function Fresh(home: string): System {
    System(map[], home, None, None, None, multiset{}, multiset{})
  }

  function Telling(m: Mark): seq<Op> {
    [Weigh({m}), MarkSent, Deliver(m)]
  }

  /** A mark not yet on the meet's node, of a device that follows there, is told once. */
  lemma ToldOnce(s: System, m: Mark)
    requires s.weighing.None? && s.leaving == multiset{} && m.token in Shelf(s).follows && m !in Shelf(s).fired
    ensures Run(s, Telling(m)) == OnShelf(s, s.home, Shelf(s).(fired := Shelf(s).fired + {m})).(sent := s.sent + multiset{m})
  {
    var w := Apply(s, Weigh({m}));
    assert Untold(Shelf(s), {m}) == {m};
    var marked := Apply(w, MarkSent);
    assert marked.leaving == multiset{m};
    var sent := Apply(marked, Deliver(m));
    RunOfThree(s, Weigh({m}), MarkSent, Deliver(m));
  }

  lemma RunOfThree(s: System, a: Op, b: Op, c: Op)
    ensures Run(s, [a, b, c]) == Apply(Apply(Apply(s, a), b), c)
  {
    hide Apply, Run;
    NoRun(s);
    RunStep(s, [], a);
    RunStep(s, [a], b);
    RunStep(s, [a, b], c);
    assert [] + [a] == [a] && [a] + [b] == [a, b] && [a, b] + [c] == [a, b, c];
  }

  lemma RegisteredAnew(s: System, sub: Sub)
    requires s.home !in s.shelves && sub.swimmers != []
    ensures var u := Apply(s, Register(sub));
      && Shelf(u) == Bundle(map[sub.token := sub], {}) && u.shelves.Keys == s.shelves.Keys + {s.home}
      && u == s.(shelves := u.shelves)
  {
  }

  lemma RefusedLeavesAll(s: System, node: string)
    requires s.parcel.None? && node != s.home
    ensures Apply(Apply(Apply(s, Export(node)), Fail), Go(node)) == s.(home := node, leftFor := None)
  {
  }

  /** The bound is met: where a node refuses the hand-over, the device registers there
      anew, and is told of the heat a second time. */
  lemma RefusedHandOverSendsTwice(sub: Sub, m: Mark)
    requires sub.swimmers != [] && m.token == sub.token
    ensures Run(Fresh("a"), [Register(sub)] + Telling(m) + [Export("b"), Fail, Go("b")] + [Register(sub)] + Telling(m)).sent[m] == 2
  {
    hide Run, Telling, Apply;
    var s0 := Fresh("a");
    RegisteredAnew(s0, sub);
    var s1 := Apply(s0, Register(sub));
    ToldOnce(s1, m);
    var s2 := Run(s1, Telling(m));
    RunOfThree(s2, Export("b"), Fail, Go("b"));
    RefusedLeavesAll(s2, "b");
    var s3 := Run(s2, [Export("b"), Fail, Go("b")]);
    RegisteredAnew(s3, sub);
    ToldOnce(Apply(s3, Register(sub)), m);
    RunStep(s0, [], Register(sub));
    NoRun(s0);
    assert [] + [Register(sub)] == [Register(sub)];
    RunOn(s0, [Register(sub)], Telling(m));
    RunOn(s0, [Register(sub)] + Telling(m), [Export("b"), Fail, Go("b")]);
    RunStep(s0, [Register(sub)] + Telling(m) + [Export("b"), Fail, Go("b")], Register(sub));
    RunOn(s0, [Register(sub)] + Telling(m) + [Export("b"), Fail, Go("b")] + [Register(sub)], Telling(m));
  }

  lemma LateStart(s: System, sub: Sub)
    requires s == Fresh("a") && sub.swimmers != []
    ensures var b := Bundle(map[sub.token := sub], {}); var u := Apply(Apply(s, Register(sub)), Export("b"));
      && Shelf(u) == b && u.home == "a" && "b" !in u.shelves && u.parcel == Some(Parcel("a", "b", b, false))
      && u.weighing.None? && u.leaving == multiset{} && u.sent == multiset{}
  {
    var b := Bundle(map[sub.token := sub], {});
    var v := Apply(s, Register(sub));
    assert Shelf(v) == b;
    assert sub.token in Shelf(v).follows;
  }

  lemma LateEnd(s: System, b: Bundle)
    requires s.home == "a" && "b" !in s.shelves && s.parcel == Some(Parcel("a", "b", b, false))
    ensures var u := Apply(Apply(Apply(s, Receive), Drop), Go("b"));
      Shelf(u) == b && u.home == "b" && u.weighing == s.weighing && u.leaving == s.leaving && u.sent == s.sent
  {
    var u := Apply(s, Receive);
    assert Joined(Bundle(map[], {}), b) == b;
    assert ShelfOf(u, "b") == b;
  }

  /** And an answered hand-over that forgets: a heat told between its reading and its
      dropping is told again where the meet went. */
  lemma LateMarkSentTwice(sub: Sub, m: Mark)
    requires sub.swimmers != [] && m.token == sub.token
    ensures Run(Fresh("a"), [Register(sub), Export("b")] + Telling(m) + [Receive, Drop, Go("b")] + Telling(m)).sent[m] == 2
  {
    hide Run, Telling;
    var s0 := Fresh("a");
    var s1 := Apply(Apply(s0, Register(sub)), Export("b"));
    var b := Bundle(map[sub.token := sub], {});
    LateStart(s0, sub);
    ToldOnce(s1, m);
    var s2 := Run(s1, Telling(m));
    RunOfThree(s2, Receive, Drop, Go("b"));
    LateEnd(s2, b);
    var s3 := Apply(Apply(Apply(s2, Receive), Drop), Go("b"));
    hide Apply;
    ToldOnce(s3, m);
    RunStep(s0, [], Register(sub));
    NoRun(s0);
    RunStep(s0, [Register(sub)], Export("b"));
    assert [] + [Register(sub)] == [Register(sub)] && [Register(sub)] + [Export("b")] == [Register(sub), Export("b")];
    RunOn(s0, [Register(sub), Export("b")], Telling(m));
    RunOn(s0, [Register(sub), Export("b")] + Telling(m), [Receive, Drop, Go("b")]);
    RunOn(s0, [Register(sub), Export("b")] + Telling(m) + [Receive, Drop, Go("b")], Telling(m));
  }

  /** Every mark is of a device still following. */
  ghost predicate MarksFollowed(b: Bundle) {
    forall k :: k in b.fired ==> k.token in b.follows
  }

  ghost predicate AllFollowed(s: System) {
    && (forall n :: n in s.shelves ==> MarksFollowed(s.shelves[n]))
    && (s.parcel.Some? ==> MarksFollowed(s.parcel.value.bundle))
  }

  /** Stores keep marks only of devices that follow, where no device stops following
      between an evaluation's reading and its marking. */
  lemma MarksStayFollowed(s: System, op: Op)
    requires AllFollowed(s)
    requires op.MarkSent? && s.weighing.Some? ==>
      forall k :: k in s.weighing.value.marks ==> k.token in ShelfOf(s, s.weighing.value.node).follows
    ensures AllFollowed(Apply(s, op))
  {
    var u := Apply(s, op);
    assert MarksFollowed(Shelf(s));
    forall n | n in u.shelves
      ensures MarksFollowed(u.shelves[n])
    {
      if n in s.shelves { assert MarksFollowed(s.shelves[n]); }
    }
  }
}
