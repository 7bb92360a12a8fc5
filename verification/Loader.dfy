/** The TV's schedule loader: requests coalesced into one background fetch, and none lost.
    Every step is one locked section, or a fetch beginning or ending on a worker thread. */
module Loader {

  /** A worker thread: about to fetch, fetching since `seen` requests had been made, or
      with that fetch behind it. */
  datatype Phase = Starting | Fetching(seen: nat) | Fetched(seen: nat)

  /** `requests` is how many were made, `covered` how many of them some finished fetch
      began after; both are the history's, the loader keeps only the two flags. */
  datatype Loader = Loader(busy: bool, again: bool, workers: map<nat, Phase>, requests: nat, covered: nat)

  datatype Op = Request | Begin(worker: nat) | End(worker: nat) | Finish(worker: nat)

  function Max(a: nat, b: nat): nat {
    if a > b then a else b
  }

  function Apply(l: Loader, op: Op): Loader {
    match op
    case Request =>
      if l.busy then l.(again := true, requests := l.requests + 1)
      else l.(busy := true, workers := l.workers[l.requests := Starting], requests := l.requests + 1)
    case Begin(w) =>
      if w in l.workers && l.workers[w].Starting? then l.(workers := l.workers[w := Fetching(l.requests)]) else l
    case End(w) =>
      if w in l.workers && l.workers[w].Fetching? then
        l.(workers := l.workers[w := Fetched(l.workers[w].seen)], covered := Max(l.covered, l.workers[w].seen))
      else l
    case Finish(w) =>
      if w !in l.workers || !l.workers[w].Fetched? then l
      else if l.again then l.(again := false, workers := l.workers[w := Starting])
      else l.(busy := false, workers := l.workers - {w})
  }

  function Run(ops: seq<Op>): Loader
    decreases |ops|
  {
    if ops == [] then Loader(false, false, map[], 0, 0) else Apply(Run(ops[..|ops| - 1]), ops[|ops| - 1])
  }

  /** One worker exactly while busy, a repeat noted only then; and a fetch that began
      before the last request is one that will be repeated. */
  ghost predicate Consistent(l: Loader) {
    && (l.busy <==> l.workers != map[])
    && (forall v, w :: v in l.workers && w in l.workers ==> v == w)
    && (l.again ==> l.busy)
    && l.covered <= l.requests
    && (!l.busy ==> l.covered == l.requests)
    && (forall w :: w in l.workers && !l.workers[w].Starting? ==>
      l.workers[w].seen <= l.requests && (l.workers[w].seen == l.requests || l.again))
    && (forall w :: w in l.workers && l.workers[w].Fetched? ==> l.covered >= l.workers[w].seen)
  }

  lemma StepKeepsConsistent(l: Loader, op: Op)
    requires Consistent(l)
    ensures Consistent(Apply(l, op))
  {
    var u := Apply(l, op);
    if op.Request? && !l.busy { assert l.requests in u.workers; }
    if op.Finish? && op.worker in l.workers && l.workers[op.worker].Fetched? {
      if l.again { assert op.worker in u.workers; } else { assert u.workers == map[]; }
    }
    if (op.Begin? || op.End?) && op.worker in l.workers { assert op.worker in u.workers; }
  }

  lemma {:induction false} RunIsConsistent(ops: seq<Op>)
    ensures Consistent(Run(ops))
    decreases |ops|
  {
    if ops != [] {
      RunIsConsistent(ops[..|ops| - 1]);
      StepKeepsConsistent(Run(ops[..|ops| - 1]), ops[|ops| - 1]);
    }
  }

  // ── What the history says ──

  predicate Began(ops: seq<Op>, k: nat, w: nat)
    requires k < |ops|
  {
    ops[k] == Begin(w) && w in Run(ops[..k]).workers && Run(ops[..k]).workers[w].Starting?
  }

  /** The fetch begun at step k came to its end at step j. */
  predicate Ended(ops: seq<Op>, k: nat, j: nat, w: nat)
    requires k < j < |ops|
  {
    Began(ops, k, w) && ops[j] == End(w) && w in Run(ops[..j]).workers
    && Run(ops[..j]).workers[w] == Fetching(Run(ops[..k]).requests)
  }

  lemma {:induction false} FetchingBegan(ops: seq<Op>, w: nat)
    requires w in Run(ops).workers && Run(ops).workers[w].Fetching?
    ensures exists k :: 0 <= k < |ops| && Began(ops, k, w) && Run(ops[..k]).requests == Run(ops).workers[w].seen
    decreases |ops|
  {
    var n := |ops| - 1;
    var before := ops[..n];
    if w in Run(before).workers && Run(before).workers[w].Fetching? {
      FetchingBegan(before, w);
      var k :| 0 <= k < n && Began(before, k, w) && Run(before[..k]).requests == Run(before).workers[w].seen;
      assert before[..k] == ops[..k];
      assert Began(ops, k, w);
    } else {
      assert Began(ops, n, w);
    }
  }

  lemma {:induction false} CoveredBy(ops: seq<Op>)
    requires Run(ops).covered > 0
    ensures exists k, j, w ::
      0 <= k < j < |ops| && Ended(ops, k, j, w) && Run(ops[..k]).requests == Run(ops).covered
    decreases |ops|
  {
    var n := |ops| - 1;
    var before := ops[..n];
    if Run(before).covered == Run(ops).covered {
      CoveredBy(before);
      var k, j, w :|
        0 <= k < j < n && Ended(before, k, j, w) && Run(before[..k]).requests == Run(before).covered;
      assert before[..k] == ops[..k] && before[..j] == ops[..j];
      assert Ended(ops, k, j, w);
    } else {
      var w := ops[n].worker;
      FetchingBegan(before, w);
      var k :| 0 <= k < n && Began(before, k, w) && Run(before[..k]).requests == Run(before).workers[w].seen;
      assert before[..k] == ops[..k];
      assert Ended(ops, k, n, w);
    }
  }

  /** No request is lost: whenever the loader is idle, some fetch both began after every
      request made so far and came to its end. */
  lemma NoRequestLost(ops: seq<Op>) returns (k: nat, j: nat, w: nat)
    requires !Run(ops).busy && Run(ops).requests > 0
    ensures k < j < |ops| && Ended(ops, k, j, w)
    ensures forall i :: k <= i < |ops| ==> !ops[i].Request?
  {
    RunIsConsistent(ops);
    CoveredBy(ops);
    k, j, w :| k < j < |ops| && Ended(ops, k, j, w) && Run(ops[..k]).requests == Run(ops).covered;
    RequestsCounted(ops, k);
  }

  lemma {:induction false} RequestsCounted(ops: seq<Op>, k: nat)
    requires k <= |ops|
    ensures Run(ops[..k]).requests <= Run(ops).requests
    ensures Run(ops[..k]).requests == Run(ops).requests ==> forall i :: k <= i < |ops| ==> !ops[i].Request?
    decreases |ops|
  {
    if k == |ops| {
      assert ops[..k] == ops;
    } else {
      assert ops[..|ops| - 1][..k] == ops[..k];
      RequestsCounted(ops[..|ops| - 1], k);
    }
  }

  /** Over every run there is at most one worker, and a repeat is asked of it only. */
  lemma OneWorker(ops: seq<Op>, v: nat, w: nat)
    requires v in Run(ops).workers && w in Run(ops).workers
    ensures v == w && Run(ops).busy
  {
    RunIsConsistent(ops);
  }

  // ── The way to idle ──

  /** Steps a worker has left when no more requests come. */
  function Left(p: Phase, again: bool): nat {
    (match p case Starting => 3 case Fetching(_) => 2 case Fetched(_) => 1) + (if again then 3 else 0)
  }

  /** With no more requests each step of the worker takes it closer to idle, and busy it
      always has one to take. */
  lemma WorkEnds(l: Loader, w: nat)
    requires Consistent(l) && w in l.workers
    ensures var op := match l.workers[w] case Starting => Begin(w) case Fetching(_) => End(w) case Fetched(_) => Finish(w);
      var u := Apply(l, op);
      if w in u.workers then Left(u.workers[w], u.again) < Left(l.workers[w], l.again)
      else !u.busy && u.covered == u.requests
  {
    StepKeepsConsistent(l, Finish(w));
  }

  // ── The class ──

  class ScheduleLoader {
    var busy: bool
    var again: bool

    constructor ()
      ensures !busy && !again
    {
      busy, again := false, false;
    }

    /** Ask for a fetch; whether a worker is to be started for it. */
    method Ask(ghost l: Loader) returns (start: bool)
      requires Consistent(l) && busy == l.busy && again == l.again
      modifies this
      ensures busy == Apply(l, Request).busy && again == Apply(l, Request).again
      ensures start <==> Apply(l, Request).workers != l.workers
    {
      if busy {
        again := true;
        return false;
      }
      busy := true;
      start := true;
      assert l.requests in Apply(l, Request).workers;
    }

    /** A worker is done with a fetch; whether it is to fetch again. */
    method Done(ghost l: Loader, ghost w: nat) returns (more: bool)
      requires busy == l.busy && again == l.again && w in l.workers && l.workers[w].Fetched?
      modifies this
      ensures busy == Apply(l, Finish(w)).busy && again == Apply(l, Finish(w)).again
      ensures more <==> w in Apply(l, Finish(w)).workers
    {
      if !again {
        busy := false;
        return false;
      }
      again := false;
      more := true;
    }
  }
}
