/** A worker's cache of the control plane's meet cards: many threads looking up at once, a
    few calls in flight, a ceiling on what is kept. Monotonic times are seconds. */
module RecordCache {
  import opened Text

  const RECORD_TTL := 15.0
  const MISSING_TTL := 5.0
  const RECORDS_MAX: nat := 2048
  const FETCHES_MAX: nat := 8

  type Thread = int

  /** What is kept of a meet: its card, or that there is none, and when it was asked for. */
  datatype Entry = Entry(card: Option<string>, at: real)
  type Records = map<string, Entry>

  /** The control plane's word: a card (or that there is none, or one already expired), no
      usable answer, or a failure the lookup does not handle. */
  datatype Reply = Told(card: Option<string>, expired: bool) | Unreachable | Broken

  datatype Answer = Given(card: Option<string>) | Raised

  /** Where a lookup is: past its look at the cache, holding a slot, or back with a card. */
  datatype Stage =
    | Looked(id: string, hit: Option<Entry>, at: real)
    | Calling(id: string, hit: Option<Entry>, at: real)
    | Back(id: string, card: Option<string>, at: real)

  datatype Cache = Cache(records: Records, slots: nat, stages: map<Thread, Stage>)

  datatype Op =
    | Look(thread: Thread, id: string, now: real)
    | Acquire(thread: Thread)
    | Hear(thread: Thread, reply: Reply)
    | Store(thread: Thread, evicted: set<string>)

  predicate IsIdChar(c: char) {
    'A' <= c <= 'Z' || 'a' <= c <= 'z' || '0' <= c <= '9' || c == '_' || c == '-'
  }

  /** One to 64 characters of the alphabet of ids; Python's `$` lets one line end follow. */
  predicate ValidId(id: string) {
    var n := if |id| > 0 && id[|id| - 1] == '\n' then |id| - 1 else |id|;
    1 <= n <= 64 && forall i :: 0 <= i < n ==> IsIdChar(id[i])
  }

  predicate IsFresh(e: Entry, now: real) {
    now - e.at < (if e.card.Some? then RECORD_TTL else MISSING_TTL)
  }

  function CardOf(hit: Option<Entry>): Option<string> {
    if hit.Some? then hit.value.card else None
  }

  function Kept(reply: Reply): Option<string>
    requires reply.Told?
  {
    if reply.expired then None else reply.card
  }

  // ── Eviction ──

  /** Past the ceiling what has aged out goes, and then the oldest as far as needed. */
  ghost predicate IsEviction(full: Records, evicted: set<string>, now: real) {
    if |full| <= RECORDS_MAX then evicted == {}
    else
      && evicted <= full.Keys
      && (forall k :: k in full && now - full[k].at > RECORD_TTL ==> k in evicted)
      && (forall k, j :: k in evicted && now - full[k].at <= RECORD_TTL && j in full && j !in evicted ==>
        full[k].at <= full[j].at)
      && |full| - |evicted| <= RECORDS_MAX
      && (|full| - |evicted| == RECORDS_MAX || forall k :: k in evicted ==> now - full[k].at > RECORD_TTL)
  }

  lemma Without(full: Records, evicted: set<string>)
    requires evicted <= full.Keys
    ensures |full - evicted| == |full| - |evicted|
  {
    var left := full.Keys - evicted;
    assert (full - evicted).Keys == left;
    assert left + evicted == full.Keys && left !! evicted;
  }

  /** What is evicted is never newer than what is kept, and the cache ends within its
      ceiling, cut no further than that once only fresh entries are left to cut. */
  lemma EvictionTakesOldest(full: Records, evicted: set<string>, now: real)
    requires IsEviction(full, evicted, now)
    ensures |full - evicted| <= RECORDS_MAX
    ensures forall k, j :: k in evicted && k in full && j in full - evicted ==> full[k].at <= full[j].at
    ensures forall k :: k in evicted && now - full[k].at <= RECORD_TTL ==> |full - evicted| == RECORDS_MAX
  {
    if |full| > RECORDS_MAX { Without(full, evicted); }
  }

  /** Something no older is kept of any eviction that reaches a fresh entry. */
  lemma KeptInstead(full: Records, evicted: set<string>, id: string, now: real)
    requires IsEviction(full, evicted, now) && id in evicted && now - full[id].at <= RECORD_TTL
    ensures exists j :: j in full && j !in evicted && full[id].at <= full[j].at
  {
    Without(full, evicted);
    var left := full - evicted;
    assert left.Keys != {};
    var j :| j in left;
    assert j in full && j !in evicted;
  }

  /** The entry just stored is itself kept while it is the newest. */
  lemma NewestIsKept(full: Records, evicted: set<string>, id: string, now: real)
    requires IsEviction(full, evicted, now) && id in full && full[id].at == now
    requires forall k :: k in full && k != id ==> full[k].at < now
    ensures id !in evicted
  {
    if id in evicted { KeptInstead(full, evicted, id, now); }
  }

  /** The records left of `full` once it is cut. */
  ghost predicate Cut(full: Records, after: Records, now: real) {
    IsEviction(full, full.Keys - after.Keys, now) && after == full - (full.Keys - after.Keys)
  }

  // ── Steps ──

  ghost function Apply(c: Cache, op: Op): Cache {
    var t := op.thread;
    match op
    case Look(_, id, now) =>
      var hit := if id in c.records then Some(c.records[id]) else None;
      if t in c.stages || !ValidId(id) || (hit.Some? && IsFresh(hit.value, now)) then c
      else c.(stages := c.stages[t := Looked(id, hit, now)])
    case Acquire(_) =>
      if t !in c.stages || !c.stages[t].Looked? then c
      else if c.slots == 0 then c.(stages := c.stages - {t})
      else c.(slots := c.slots - 1, stages := c.stages[t := Calling(c.stages[t].id, c.stages[t].hit, c.stages[t].at)])
    case Hear(_, reply) =>
      if t !in c.stages || !c.stages[t].Calling? then c
      else if reply.Told? then
        c.(slots := c.slots + 1, stages := c.stages[t := Back(c.stages[t].id, Kept(reply), c.stages[t].at)])
      else c.(slots := c.slots + 1, stages := c.stages - {t})
    case Store(_, evicted) =>
      if t !in c.stages || !c.stages[t].Back? || !IsEviction(Full(c, t), evicted, c.stages[t].at) then c
      else c.(records := Full(c, t) - evicted, stages := c.stages - {t})
  }

  /** The records with what a thread is back with. */
  function Full(c: Cache, t: Thread): Records
    requires t in c.stages && c.stages[t].Back?
  {
    c.records[c.stages[t].id := Entry(c.stages[t].card, c.stages[t].at)]
  }

  /** What a step answers its caller, when it ends the lookup. */
  ghost function Answered(c: Cache, op: Op): Option<Answer> {
    var t := op.thread;
    match op
    case Look(_, id, now) =>
      if t in c.stages then None
      else if !ValidId(id) then Some(Given(None))
      else if id in c.records && IsFresh(c.records[id], now) then Some(Given(c.records[id].card)) else None
    case Acquire(_) =>
      if t in c.stages && c.stages[t].Looked? && c.slots == 0 then Some(Given(CardOf(c.stages[t].hit))) else None
    case Hear(_, reply) =>
      if t !in c.stages || !c.stages[t].Calling? || reply.Told? then None
      else if reply.Broken? then Some(Raised) else Some(Given(CardOf(c.stages[t].hit)))
    case Store(_, evicted) =>
      if t in c.stages && c.stages[t].Back? && IsEviction(Full(c, t), evicted, c.stages[t].at)
      then Some(Given(c.stages[t].card)) else None
  }

  ghost function Run(ops: seq<Op>): Cache
    decreases |ops|
  {
    if ops == [] then Cache(map[], FETCHES_MAX, map[]) else Apply(Run(ops[..|ops| - 1]), ops[|ops| - 1])
  }

  /** The threads a slot is held for. */
  ghost function Busy(c: Cache): set<Thread> {
    set t | t in c.stages && c.stages[t].Calling?
  }

  ghost predicate Bounded(c: Cache) {
    |c.records| <= RECORDS_MAX && c.slots + |Busy(c)| == FETCHES_MAX
  }

  lemma BusyAfter(c: Cache, op: Op)
    ensures var u := Apply(c, op);
      if u.slots == c.slots then Busy(u) == Busy(c)
      else if u.slots < c.slots then op.thread !in Busy(c) && Busy(u) == Busy(c) + {op.thread}
      else op.thread in Busy(c) && Busy(u) == Busy(c) - {op.thread}
  {
  }

  lemma StepKeepsBounded(c: Cache, op: Op)
    requires Bounded(c)
    ensures Bounded(Apply(c, op))
  {
    BusyAfter(c, op);
    if op.Store? && op.thread in c.stages && c.stages[op.thread].Back? {
      var full := Full(c, op.thread);
      if IsEviction(full, op.evicted, c.stages[op.thread].at) {
        EvictionTakesOldest(full, op.evicted, c.stages[op.thread].at);
      }
    }
  }

  /** Over every run, whatever the threads do: never more than the ceiling is kept, and
      the slots not free are exactly those of the calls in flight, so that each is given
      back whichever way its call ends. */
  lemma {:induction false} RunIsBounded(ops: seq<Op>)
    ensures Bounded(Run(ops))
    ensures |Run(ops).records| <= 2048 && |Busy(Run(ops))| <= 8
    decreases |ops|
  {
    if ops == [] {
      assert Busy(Run([])) == {};
    } else {
      RunIsBounded(ops[..|ops| - 1]);
      StepKeepsBounded(Run(ops[..|ops| - 1]), ops[|ops| - 1]);
    }
  }

  // ── What is answered ──

  /** What was last cached for an id. */
  ghost function LastCached(ops: seq<Op>, id: string): Option<Entry>
    decreases |ops|
  {
    if ops == [] then None
    else
      var before, op := ops[..|ops| - 1], ops[|ops| - 1];
      var c := Run(before);
      if op.Store? && Answered(c, op).Some? && c.stages[op.thread].id == id
      then Some(Entry(c.stages[op.thread].card, c.stages[op.thread].at)) else LastCached(before, id)
  }

  /** The control plane said this of an id. */
  ghost predicate Heard(ops: seq<Op>, id: string, card: Option<string>)
    decreases |ops|
  {
    ops != []
    && var before, op := ops[..|ops| - 1], ops[|ops| - 1];
       Heard(before, id, card)
       || (op.Hear? && op.reply.Told? && Kept(op.reply) == card
           && op.thread in Run(before).stages && Run(before).stages[op.thread].Calling?
           && Run(before).stages[op.thread].id == id)
  }

  ghost predicate HonestStage(ops: seq<Op>, g: Stage) {
    if g.Back? then Heard(ops, g.id, g.card) else g.hit.Some? ==> Heard(ops, g.id, g.hit.value.card)
  }

  /** Cards are the control plane's, each of its own id. */
  ghost predicate Honest(ops: seq<Op>) {
    var c := Run(ops);
    && (forall id :: id in c.records ==> Heard(ops, id, c.records[id].card))
    && (forall t :: t in c.stages ==> HonestStage(ops, c.stages[t]))
  }

  lemma HeardStays(ops: seq<Op>, op: Op, id: string, card: Option<string>)
    ensures Heard(ops, id, card) ==> Heard(ops + [op], id, card)
  {
    assert (ops + [op])[..|ops|] == ops;
  }

  /** What a thread hears, the control plane said. */
  lemma HearingIsHeard(ops: seq<Op>, t: Thread, reply: Reply)
    requires t in Run(ops).stages && Run(ops).stages[t].Calling? && reply.Told?
    ensures Heard(ops + [Hear(t, reply)], Run(ops).stages[t].id, Kept(reply))
  {
    assert (ops + [Hear(t, reply)])[..|ops|] == ops;
  }

  lemma StageStaysHonest(ops: seq<Op>, op: Op, g: Stage)
    requires HonestStage(ops, g)
    ensures HonestStage(ops + [op], g)
  {
    hide Heard;
    if g.Back? { HeardStays(ops, op, g.id, g.card); }
    else if g.hit.Some? { HeardStays(ops, op, g.id, g.hit.value.card); }
  }

  lemma StepStaysHonest(ops: seq<Op>, op: Op)
    requires Honest(ops)
    ensures Honest(ops + [op])
  {
    hide Heard, ValidId, IsFresh, IsEviction;
    var c, u, t := Run(ops), Run(ops + [op]), op.thread;
    assert (ops + [op])[..|ops|] == ops && u == Apply(c, op);
    hide Run;
    forall id | id in u.records
      ensures Heard(ops + [op], id, u.records[id].card)
    {
      if id in c.records && u.records[id] == c.records[id] {
        HeardStays(ops, op, id, c.records[id].card);
      } else {
        assert HonestStage(ops, c.stages[t]);
        HeardStays(ops, op, id, c.stages[t].card);
      }
    }
    forall x | x in u.stages
      ensures HonestStage(ops + [op], u.stages[x])
    {
      if x in c.stages {
        StageStaysHonest(ops, op, c.stages[x]);
        if u.stages[x].Back? && !c.stages[x].Back? { HearingIsHeard(ops, x, op.reply); }
      } else if u.stages[x].hit.Some? {
        HeardStays(ops, op, u.stages[x].id, u.stages[x].hit.value.card);
      }
    }
  }

  lemma {:induction false} RunIsHonest(ops: seq<Op>)
    ensures Honest(ops)
    decreases |ops|
  {
    if ops != [] {
      var before := ops[..|ops| - 1];
      RunIsHonest(before);
      StepStaysHonest(before, ops[|ops| - 1]);
      assert before + [ops[|ops| - 1]] == ops;
    }
  }

  /** An answer from the cache is the last cached for that id, and of its time. */
  lemma {:induction false} RecordsAreLastCached(ops: seq<Op>, id: string)
    requires id in Run(ops).records
    ensures LastCached(ops, id) == Some(Run(ops).records[id])
    decreases |ops|
  {
    var before, op := ops[..|ops| - 1], ops[|ops| - 1];
    var c := Run(before);
    if !(op.Store? && Answered(c, op).Some? && c.stages[op.thread].id == id) {
      RecordsAreLastCached(before, id);
    }
  }

  // ── Each lookup from its own look ──

  function Known(records: Records, id: string): Option<Entry> {
    if id in records then Some(records[id]) else None
  }

  /** The lookup a thread is in began at step k: it looked then, found this entry or none,
      and nothing fresh. */
  ghost predicate Began(ops: seq<Op>, k: nat, g: Stage, t: Thread)
    requires k < |ops|
  {
    && ops[k] == Look(t, g.id, g.at)
    && (!g.Back? ==> g.hit == Known(Run(ops[..k]).records, g.id))
    && !(Known(Run(ops[..k]).records, g.id).Some? && IsFresh(Known(Run(ops[..k]).records, g.id).value, g.at))
  }

  /** Every lookup under way began with its own look, whose find it still answers from. */
  lemma {:induction false} LookOf(ops: seq<Op>, t: Thread) returns (k: nat)
    requires t in Run(ops).stages
    ensures k < |ops| && Began(ops, k, Run(ops).stages[t], t)
    decreases |ops|
  {
    hide IsEviction, ValidId, IsFresh;
    var n := |ops| - 1;
    var before, op := ops[..n], ops[n];
    if t in Run(before).stages {
      k := LookOf(before, t);
      assert before[..k] == ops[..k] && before[k] == ops[k];
    } else {
      k := n;
      LookFindsNothingFresh(Run(before), op);
    }
  }

  lemma LookFindsNothingFresh(c: Cache, op: Op)
    requires op.thread !in c.stages && op.thread in Apply(c, op).stages
    ensures op.Look? && Apply(c, op).stages[op.thread] == Looked(op.id, Known(c.records, op.id), op.now)
    ensures !(Known(c.records, op.id).Some? && IsFresh(Known(c.records, op.id).value, op.now))
  {
  }

  /** The answer of a lookup that did not hear from the control plane is what the cache had
      last stored for the id when it looked, or nothing. */
  lemma AnswersAreLastCached(ops: seq<Op>, op: Op) returns (k: nat)
    requires Answered(Run(ops), op).Some? && Answered(Run(ops), op).value.Given? && !op.Store?
    ensures k <= |ops| && (k < |ops| ==> ops[k].Look? && ops[k].thread == op.thread)
    ensures var card := Answered(Run(ops), op).value.card;
      var id := if op.Look? then op.id else Run(ops).stages[op.thread].id;
      card.Some? ==> LastCached(ops[..k], id).Some? && LastCached(ops[..k], id).value.card == card
    ensures op.Look? <==> k == |ops|
  {
    if op.Look? {
      k := |ops|;
      assert ops[..k] == ops;
      if op.id in Run(ops).records { RecordsAreLastCached(ops, op.id); }
    } else {
      k := LookOf(ops, op.thread);
      var id := Run(ops).stages[op.thread].id;
      if id in Run(ops[..k]).records { RecordsAreLastCached(ops[..k], id); }
    }
  }

  /** At step j the call of a thread's lookup came back with its card. */
  ghost predicate CameBack(ops: seq<Op>, j: nat, t: Thread, g: Stage)
    requires j < |ops| && g.Back?
  {
    && ops[j].Hear? && ops[j].thread == t && ops[j].reply.Told? && Kept(ops[j].reply) == g.card
    && t in Run(ops[..j]).stages && Run(ops[..j]).stages[t].Calling?
    && Run(ops[..j]).stages[t].id == g.id && Run(ops[..j]).stages[t].at == g.at
  }

  /** The lookup a thread is back from heard its card itself. */
  lemma {:induction false} HeardItself(ops: seq<Op>, t: Thread)
    requires t in Run(ops).stages && Run(ops).stages[t].Back?
    ensures exists j :: 0 <= j < |ops| && CameBack(ops, j, t, Run(ops).stages[t])
    decreases |ops|
  {
    hide IsEviction, ValidId, IsFresh;
    var n := |ops| - 1;
    var before, g := ops[..n], Run(ops).stages[t];
    if t in Run(before).stages && Run(before).stages[t].Back? {
      HeardItself(before, t);
      var j :| 0 <= j < n && CameBack(before, j, t, g);
      assert before[..j] == ops[..j] && before[j] == ops[j];
      assert CameBack(ops, j, t, g);
    } else {
      assert CameBack(ops, n, t, g);
    }
  }

  /** The answer of one that did is what the control plane told this very lookup. */
  lemma AnswersAreHeard(ops: seq<Op>, op: Op) returns (j: nat)
    requires Answered(Run(ops), op).Some? && op.Store?
    ensures j < |ops| && ops[j].Hear? && ops[j].thread == op.thread && ops[j].reply.Told?
    ensures Answered(Run(ops), op).value == Given(if ops[j].reply.expired then None else ops[j].reply.card)
    ensures op.thread in Run(ops[..j]).stages && Run(ops[..j]).stages[op.thread].id == Run(ops).stages[op.thread].id
  {
    HeardItself(ops, op.thread);
    j :| j < |ops| && CameBack(ops, j, op.thread, Run(ops).stages[op.thread]);
  }

  /** A call goes out with this step. */
  predicate Calls(c: Cache, op: Op) {
    op.Acquire? && op.thread in c.stages && c.stages[op.thread].Looked? && c.slots > 0
  }

  /** Over every run a call goes out only for an id of which, when its lookup looked, the
      cache kept nothing fresh. */
  lemma NoCallWhileFresh(ops: seq<Op>, op: Op) returns (k: nat)
    requires Calls(Run(ops), op)
    ensures k < |ops|
    ensures var g := Run(ops).stages[op.thread]; var known := Known(Run(ops[..k]).records, g.id);
      && ops[k] == Look(op.thread, g.id, g.at)
      && (known.Some? ==> g.at - known.value.at >= if known.value.card.Some? then 15.0 else 5.0)
  {
    k := LookOf(ops, op.thread);
  }

  // ── Between the look and the answer ──

  /** No lookup stores the id from step k on. */
  ghost predicate NoneStores(ops: seq<Op>, k: nat, id: string)
    requires k <= |ops|
  {
    forall i :: k <= i < |ops| && ops[i].Store? && Answered(Run(ops[..i]), ops[i]).Some? ==>
      Run(ops[..i]).stages[ops[i].thread].id != id
  }

  lemma {:induction false} LastCachedStands(ops: seq<Op>, k: nat, id: string)
    requires k <= |ops| && NoneStores(ops, k, id)
    ensures LastCached(ops, id) == LastCached(ops[..k], id)
    decreases |ops|
  {
    if k == |ops| {
      assert ops[..k] == ops;
    } else {
      var before := ops[..|ops| - 1];
      assert before[..k] == ops[..k];
      EarlierStores(ops, k, id);
      LastCachedStands(before, k, id);
      assert ops[..|ops| - 1] == before;
    }
  }

  lemma {:induction false} RecordsStand(ops: seq<Op>, k: nat, id: string)
    requires k <= |ops| && NoneStores(ops, k, id) && id in Run(ops).records
    ensures id in Run(ops[..k]).records && Run(ops[..k]).records[id] == Run(ops).records[id]
    decreases |ops|
  {
    if k == |ops| {
      assert ops[..k] == ops;
    } else {
      var n := |ops| - 1;
      var before := ops[..n];
      assert before[..k] == ops[..k];
      EarlierStores(ops, k, id);
      RecordsStand(before, k, id);
    }
  }

  lemma EarlierStores(ops: seq<Op>, k: nat, id: string)
    requires k < |ops| && NoneStores(ops, k, id)
    ensures NoneStores(ops[..|ops| - 1], k, id)
  {
    var before := ops[..|ops| - 1];
    forall i | k <= i < |before| && before[i].Store? && Answered(Run(before[..i]), before[i]).Some?
      ensures Run(before[..i]).stages[before[i].thread].id != id
    {
      assert before[..i] == ops[..i] && before[i] == ops[i];
    }
  }

  /** Where none stored the id since its look, what a lookup would answer is the last that
      was cached at all, and nothing the cache keeps of the id is fresh when it calls. */
  lemma UpToDateUnlessStored(ops: seq<Op>, t: Thread, k: nat)
    requires t in Run(ops).stages && !Run(ops).stages[t].Back?
    requires k < |ops| && Began(ops, k, Run(ops).stages[t], t)
    requires NoneStores(ops, k, Run(ops).stages[t].id)
    ensures var g := Run(ops).stages[t];
      && (g.hit.Some? ==> LastCached(ops, g.id) == g.hit)
      && (g.id in Run(ops).records ==> g.hit == Some(Run(ops).records[g.id]) && !IsFresh(Run(ops).records[g.id], g.at))
  {
    var g := Run(ops).stages[t];
    LastCachedStands(ops, k, g.id);
    if g.id in Run(ops[..k]).records { RecordsAreLastCached(ops[..k], g.id); }
    if g.id in Run(ops).records { RecordsStand(ops, k, g.id); }
  }

  /** A whole lookup of one thread, all four steps. */
  ghost function Looking(c: Cache, t: Thread, id: string, now: real, card: Option<string>): Cache {
    Apply(Apply(Apply(Apply(c, Look(t, id, now)), Acquire(t)), Hear(t, Told(card, false))), Store(t, {}))
  }

  lemma LooksAndCalls(c: Cache, t: Thread, id: string, now: real)
    requires t !in c.stages && ValidId(id) && c.slots > 0
    requires !(id in c.records && IsFresh(c.records[id], now))
    ensures Apply(Apply(c, Look(t, id, now)), Acquire(t))
      == c.(slots := c.slots - 1, stages := c.stages[t := Calling(id, Known(c.records, id), now)])
  {
    hide ValidId, IsFresh;
    var d := Apply(c, Look(t, id, now));
    assert d.stages == c.stages[t := Looked(id, Known(c.records, id), now)];
    assert d.stages[t := Calling(id, Known(c.records, id), now)] == c.stages[t := Calling(id, Known(c.records, id), now)];
  }

  lemma Hears(c: Cache, t: Thread, card: Option<string>)
    requires t in c.stages && c.stages[t].Calling?
    ensures Apply(c, Hear(t, Told(card, false)))
      == c.(slots := c.slots + 1, stages := c.stages[t := Back(c.stages[t].id, card, c.stages[t].at)])
  {
  }

  lemma StoresWithRoom(c: Cache, t: Thread)
    requires t in c.stages && c.stages[t].Back? && |c.records| < RECORDS_MAX
    ensures Apply(c, Store(t, {}))
      == c.(records := c.records[c.stages[t].id := Entry(c.stages[t].card, c.stages[t].at)], stages := c.stages - {t})
  {
    var full := Full(c, t);
    OneMoreRecord(c.records, c.stages[t].id, Entry(c.stages[t].card, c.stages[t].at));
    assert IsEviction(full, {}, c.stages[t].at) && full - {} == full;
  }

  lemma HearsAndStores(c: Cache, t: Thread, card: Option<string>)
    requires t in c.stages && c.stages[t].Calling? && |c.records| < RECORDS_MAX
    ensures Apply(Apply(c, Hear(t, Told(card, false))), Store(t, {}))
      == Cache(c.records[c.stages[t].id := Entry(card, c.stages[t].at)], c.slots + 1, c.stages - {t})
  {
    hide Apply;
    var g := c.stages[t];
    Hears(c, t, card);
    StoresWithRoom(c.(slots := c.slots + 1, stages := c.stages[t := Back(g.id, card, g.at)]), t);
    assert c.stages[t := Back(g.id, card, g.at)] - {t} == c.stages - {t};
  }

  lemma LookingStores(c: Cache, t: Thread, id: string, now: real, card: Option<string>)
    requires t !in c.stages && ValidId(id) && c.slots > 0 && |c.records| < RECORDS_MAX
    requires !(id in c.records && IsFresh(c.records[id], now))
    ensures Looking(c, t, id, now, card) == c.(records := c.records[id := Entry(card, now)])
  {
    hide ValidId, IsFresh, Apply;
    LooksAndCalls(c, t, id, now);
    HearsAndStores(Apply(Apply(c, Look(t, id, now)), Acquire(t)), t, card);
    assert c.stages[t := Calling(id, Known(c.records, id), now)] - {t} == c.stages;
  }

  lemma OneMoreRecord(records: Records, id: string, e: Entry)
    ensures |records[id := e]| <= |records| + 1
  {
    assert records[id := e].Keys == records.Keys + {id};
  }

  /** Where another stored it since, a call goes out although a fresh entry is kept: two
      threads look, one of them comes back first. */
  lemma CallDespiteFresh(c: Cache, t: Thread, u: Thread, id: string, now: real, card: Option<string>)
    requires t != u && t !in c.stages && u !in c.stages && ValidId(id) && c.slots > 0 && |c.records| < RECORDS_MAX
    requires !(id in c.records && IsFresh(c.records[id], now))
    ensures var d := Looking(Apply(c, Look(t, id, now)), u, id, now, card);
      Calls(d, Acquire(t)) && id in d.records && IsFresh(d.records[id], now)
  {
    hide ValidId, Looking;
    LookingStores(Apply(c, Look(t, id, now)), u, id, now, card);
  }

  /** And when that call fails, the older card is answered although a newer is kept. */
  lemma OlderAnswer(c: Cache, t: Thread, u: Thread, id: string, now: real, card: Option<string>)
    requires t != u && t !in c.stages && u !in c.stages && ValidId(id) && c.slots > 0 && |c.records| < RECORDS_MAX
    requires id in c.records && !IsFresh(c.records[id], now) && c.records[id].card != card
    ensures var d := Apply(Looking(Apply(c, Look(t, id, now)), u, id, now, card), Acquire(t));
      && Answered(d, Hear(t, Unreachable)) == Some(Given(c.records[id].card))
      && id in d.records && d.records[id].card == card && d.records[id].card != c.records[id].card
  {
    hide ValidId, Looking, IsFresh;
    LookingStores(Apply(c, Look(t, id, now)), u, id, now, card);
  }

  // ── The class ──

  /** A lookup asks the control plane: the id can be one, nothing fresh is known of it and
      a slot is free. */
  predicate CallsOut(records: Records, slots: nat, id: string, now: real) {
    ValidId(id) && slots > 0 && !(id in records && IsFresh(records[id], now))
  }

  function LookupAnswer(records: Records, slots: nat, id: string, now: real, reply: Reply): Answer {
    if CallsOut(records, slots, id, now) && reply.Told? then Given(Kept(reply))
    else if CallsOut(records, slots, id, now) && reply.Broken? then Raised
    else Given(if ValidId(id) && id in records then records[id].card else None)
  }

  /** An id is what the pattern describes: 1 to 64 letters, digits, underscores and dashes,
      and then a line end or not. */
  ghost predicate IsWord(core: string) {
    1 <= |core| <= 64
    && forall c :: c in core ==> 'A' <= c <= 'Z' || 'a' <= c <= 'z' || '0' <= c <= '9' || c in "_-"
  }

  lemma ValidIdMeans(id: string)
    ensures ValidId(id) <==> exists core :: IsWord(core) && (id == core || id == core + "\n")
  {
    var n := if |id| > 0 && id[|id| - 1] == '\n' then |id| - 1 else |id|;
    assert id == id[..n] || id == id[..n] + "\n";
    if ValidId(id) { assert IsWord(id[..n]); }
    if core :| IsWord(core) && (id == core || id == core + "\n") {
      assert core[|core| - 1] in core && core == id[..n];
      assert forall i :: 0 <= i < n ==> id[i] == core[i] && core[i] in core;
    }
  }

  /** No id asked for changes the request it is written into: none holds a slash, a question
      mark or a dot, and none is over 65 characters. */
  lemma IdStaysInPath(id: string)
    requires ValidId(id)
    ensures 1 <= |id| <= 65 && forall k :: 0 <= k < |id| ==> id[k] !in {'/', '?', '.', '#', '%', ' '}
  {
  }

  /** A lookup calls out exactly where the id can be one, a slot is free, and the cache has
      either no entry of it or one too old: 15 seconds with a card, 5 without. If it does
      not, or nothing usable comes back, the entry answers, however old. */
  lemma CallsOutWhen(records: Records, slots: nat, id: string, now: real, reply: Reply)
    ensures CallsOut(records, slots, id, now) <==>
      && ValidId(id) && slots > 0
      && (id in records ==> now >= records[id].at + if records[id].card.Some? then 15.0 else 5.0)
    ensures var answer := LookupAnswer(records, slots, id, now, reply);
      && (!CallsOut(records, slots, id, now) || reply.Unreachable? ==>
        answer.Given? && (answer.card.Some? <==> ValidId(id) && id in records && records[id].card.Some?)
        && (answer.card.Some? ==> records[id].card == answer.card))
      && (CallsOut(records, slots, id, now) && reply.Told? ==>
        answer.Given? && (answer.card.Some? <==> reply.card.Some? && !reply.expired)
        && (answer.card.Some? ==> reply.card == answer.card))
      && (answer.Raised? <==> CallsOut(records, slots, id, now) && reply.Broken?)
  {
  }

  class Worker {
    var records: Records
    var slots: nat

    predicate Valid()
      reads this
    {
      |records| <= RECORDS_MAX && slots <= FETCHES_MAX
    }

    constructor ()
      ensures Valid() && records == map[] && slots == FETCHES_MAX
    {
      records, slots := map[], FETCHES_MAX;
    }

    /** Keep an entry, evicting past the ceiling. */
    method Keep(id: string, e: Entry)
      requires Valid()
      modifies this`records
      ensures Valid()
      ensures Cut(old(records)[id := e], records, e.at)
    {
      var full := records[id := e];
      var evicted := {};
      if |full| > RECORDS_MAX { evicted := Victims(full, e.at); }
      records := full - evicted;
      EvictionTakesOldest(full, evicted, e.at);
      assert full.Keys - records.Keys == evicted;
    }

    /** One lookup, start to end; the reply is what the control plane would say. */
    method FetchMeet(id: string, now: real, reply: Reply) returns (answer: Answer)
      requires Valid()
      modifies this
      ensures Valid() && slots == old(slots)
      ensures answer == LookupAnswer(old(records), old(slots), id, now, reply)
      ensures if CallsOut(old(records), old(slots), id, now) && reply.Told?
        then Cut(old(records)[id := Entry(Kept(reply), now)], records, now)
        else records == old(records)
    {
      if !ValidId(id) { return Given(None); }
      var hit := if id in records then Some(records[id]) else None;
      if hit.Some? && IsFresh(hit.value, now) { return Given(hit.value.card); }
      if slots == 0 { return Given(CardOf(hit)); }
      slots := slots - 1;
      slots := slots + 1;
      if reply.Unreachable? { return Given(CardOf(hit)); }
      if reply.Broken? { return Raised; }
      Keep(id, Entry(Kept(reply), now));
      answer := Given(Kept(reply));
    }
  }

  /** The oldest entry outside a set. */
  method Oldest(full: Records, left: set<string>) returns (k: string)
    requires left != {} && left <= full.Keys
    ensures k in left && forall j :: j in left ==> full[k].at <= full[j].at
  {
    k :| k in left;
    var todo := left - {k};
    while todo != {}
      invariant todo <= left && k in left && k !in todo
      invariant forall j :: j in left && j !in todo ==> full[k].at <= full[j].at
      decreases |todo|
    {
      var j :| j in todo;
      if full[j].at < full[k].at { k := j; }
      todo := todo - {j};
    }
  }

  /** What to evict: the aged out, then the oldest one by one. */
  method Victims(full: Records, now: real) returns (evicted: set<string>)
    requires |full| > RECORDS_MAX
    ensures IsEviction(full, evicted, now)
  {
    evicted := set k | k in full && now - full[k].at > RECORD_TTL;
    ghost var aged := evicted;
    assert |full.Keys| == |full|;
    Without(full, evicted);
    while |full| - |evicted| > RECORDS_MAX
      invariant aged <= evicted <= full.Keys
      invariant forall k, j :: k in evicted && k !in aged && j in full && j !in evicted ==> full[k].at <= full[j].at
      invariant evicted == aged || |full| - |evicted| >= RECORDS_MAX
      decreases |full| - |evicted|
    {
      Without(full, evicted);
      var left := full.Keys - evicted;
      assert left == (full - evicted).Keys;
      var k := Oldest(full, left);
      evicted := evicted + {k};
    }
  }
}
