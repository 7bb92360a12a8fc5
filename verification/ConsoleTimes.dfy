/** The console's times of a meet's finished heats: kept in memory, appended to a log one
    line a heat, and replayed from it when the meet is loaded. */
module ConsoleTimes {
  import opened Text

  type Heat = (int, int)
  type Lanes = map<int, string>
  type Times = map<Heat, Lanes>

  datatype Record = Record(heat: Heat, lanes: Lanes)

  /** How a record is written on a line and read back. */
  datatype Codec = Codec(encode: Record -> string, decode: string -> Option<Record>)

  /** What is asked of the encoding: a record reads back, and none does from a line that
      starts with all or part of another; JSON objects are such. */
  ghost predicate Sound(c: Codec) {
    && (forall r :: c.encode(r) != "" && c.decode(c.encode(r)) == Some(r))
    && (forall torn, q, r :: torn != "" && torn <= c.encode(q) ==> c.decode(torn + c.encode(r)) == None)
  }

  /** A log: its lines, and what was written after the last line end. */
  datatype File = File(lines: seq<string>, tail: string)

  const EMPTY := File([], "")

  function Appended(f: File, line: string): File {
    File(f.lines + [f.tail + line], "")
  }

  function Read(c: Codec, times: Times, line: string): Times {
    var r := c.decode(line);
    if r.Some? then times[r.value.heat := r.value.lanes] else times
  }

  function ReplayLines(c: Codec, lines: seq<string>): Times {
    if lines == [] then map[] else Read(c, ReplayLines(c, lines[..|lines| - 1]), lines[|lines| - 1])
  }

  /** The log line by line, the later of two lines for a heat counting; an unfinished last
      line is a line. */
  function Replay(c: Codec, f: File): Times {
    if f.tail == "" then ReplayLines(c, f.lines) else Read(c, ReplayLines(c, f.lines), f.tail)
  }

  // ── The meet's times over a run ──

  /** `meet` is the loaded meet's id, "" with none loaded. */
  datatype State = State(times: Times, disk: map<string, File>, meet: string, testing: bool)

  datatype Op =
    | Finish(heat: Heat, lanes: Lanes)
    | Load(meet: string)
    | Discard
    | Clear
    | Test(on: bool)
    | PowerCut(writing: Record, kept: nat)

  function Log(s: State, meet: string): File {
    if meet in s.disk then s.disk[meet] else EMPTY
  }

  /** A heat counts when its event and heat numbers are not zero. */
  predicate Counts(heat: Heat) {
    heat.0 != 0 && heat.1 != 0
  }

  predicate Saves(s: State, op: Op) {
    op.Finish? && Counts(op.heat) && s.meet != "" && !s.testing
  }

  function Apply(c: Codec, s: State, op: Op): State {
    match op
    case Finish(heat, lanes) =>
      if !Counts(heat) then s
      else
        s.(times := s.times[heat := lanes],
           disk := if Saves(s, op) then s.disk[s.meet := Appended(Log(s, s.meet), c.encode(Record(heat, lanes)))] else s.disk)
    case Load(meet) => s.(meet := meet, times := if meet == "" then map[] else Replay(c, Log(s, meet)))
    case Discard => s.(times := map[], disk := s.disk - {s.meet})
    case Clear => s.(times := map[], meet := "")
    case Test(on) => s.(testing := on)
    case PowerCut(r, kept) =>
      var line := c.encode(r);
      var torn := if kept < |line| then line[..kept] else line;
      var f := Log(s, s.meet);
      State(map[], if s.meet != "" then s.disk[s.meet := f.(tail := f.tail + torn)] else s.disk, "", false)
  }

  function Run(c: Codec, ops: seq<Op>): State
    decreases |ops|
  {
    if ops == [] then State(map[], map[], "", false) else Apply(c, Run(c, ops[..|ops| - 1]), ops[|ops| - 1])
  }

  /** What a run saved of a meet since it was last discarded. */
  function Saved(c: Codec, ops: seq<Op>, meet: string): Times
    decreases |ops|
  {
    if ops == [] then map[]
    else
      var before, op := ops[..|ops| - 1], ops[|ops| - 1];
      var s := Run(c, before);
      if s.meet != meet then Saved(c, before, meet)
      else if Saves(s, op) then Saved(c, before, meet)[op.heat := op.lanes]
      else if op.Discard? then map[] else Saved(c, before, meet)
  }

  predicate NoCut(ops: seq<Op>) {
    forall op :: op in ops ==> !op.PowerCut?
  }

  lemma AppendedReads(c: Codec, f: File, r: Record)
    requires Sound(c) && f.tail == ""
    ensures Replay(c, Appended(f, c.encode(r))) == Replay(c, f)[r.heat := r.lanes]
  {
    var line := c.encode(r);
    assert "" + line == line;
    assert (f.lines + [line])[..|f.lines|] == f.lines;
  }

  /** Over every run with no power cut each log replays to exactly what was saved of its
      meet. */
  lemma {:induction false} LogIsSaved(c: Codec, ops: seq<Op>, meet: string)
    requires Sound(c) && NoCut(ops) && meet != ""
    ensures Log(Run(c, ops), meet).tail == ""
    ensures Replay(c, Log(Run(c, ops), meet)) == Saved(c, ops, meet)
    decreases |ops|
  {
    hide Sound, Replay;
    if ops == [] {
      NothingReplays(c);
    } else {
      var before, op := ops[..|ops| - 1], ops[|ops| - 1];
      assert forall o :: o in before ==> o in ops;
      assert op in ops;
      LogIsSaved(c, before, meet);
      var s := Run(c, before);
      if op.Finish? { AppendedReads(c, Log(s, meet), Record(op.heat, op.lanes)); }
      NothingReplays(c);
    }
  }

  lemma NothingReplays(c: Codec)
    ensures Replay(c, EMPTY) == map[]
  {
  }

  /** Since the meet was loaded no heat finished outside it or in a test. */
  predicate AllSaved(c: Codec, ops: seq<Op>)
    decreases |ops|
  {
    ops == []
    || (var before, op := ops[..|ops| - 1], ops[|ops| - 1];
        op.Load? || (AllSaved(c, before) && (op.Finish? && Counts(op.heat) ==> Saves(Run(c, before), op))))
  }

  /** Outside tests what is in memory is exactly what a reload of the meet would give. */
  lemma {:induction false} MemoryIsReplay(c: Codec, ops: seq<Op>)
    requires Sound(c) && NoCut(ops) && AllSaved(c, ops)
    ensures var s := Run(c, ops);
      if s.meet == "" then s.times == map[] else s.times == Saved(c, ops, s.meet) == Replay(c, Log(s, s.meet))
    decreases |ops|
  {
    hide Sound, Replay;
    if ops != [] {
      var before, op := ops[..|ops| - 1], ops[|ops| - 1];
      assert forall o :: o in before ==> o in ops;
      assert op in ops;
      var s, u := Run(c, before), Run(c, ops);
      if !op.Load? { MemoryIsReplay(c, before); }
      if u.meet != "" {
        LogIsSaved(c, ops, u.meet);
        LogIsSaved(c, before, u.meet);
      }
    }
  }

  /** A finished heat with both numbers is remembered, any other is not; it is on the loaded
      meet's log then, unless in a test, and on no other's. */
  lemma FinishTakesEffect(c: Codec, s: State, heat: Heat, lanes: Lanes)
    requires Sound(c) && Log(s, s.meet).tail == ""
    ensures var u := Apply(c, s, Finish(heat, lanes)); var numbered := heat.0 != 0 && heat.1 != 0;
      && u.times == (if numbered then s.times[heat := lanes] else s.times)
      && (if numbered && s.meet != "" && !s.testing
          then Replay(c, Log(u, s.meet)) == Replay(c, Log(s, s.meet))[heat := lanes]
            && forall m :: m != s.meet ==> Log(u, m) == Log(s, m)
          else u.disk == s.disk)
  {
    hide Sound, Replay;
    AppendedReads(c, Log(s, s.meet), Record(heat, lanes));
  }

  /** A test leaves every log as it was, however many heats finish in it. */
  lemma {:induction false} TestsLeaveLogs(c: Codec, ops: seq<Op>, more: seq<Op>)
    requires Run(c, ops).testing && forall op :: op in more ==> op.Finish?
    ensures Run(c, ops + more).disk == Run(c, ops).disk && Run(c, ops + more).testing
    decreases |more|
  {
    if more == [] {
      assert ops + more == ops;
    } else {
      var before, op := more[..|more| - 1], more[|more| - 1];
      assert op in more && forall o :: o in before ==> o in more;
      assert (ops + more)[..|ops + more| - 1] == ops + before;
      TestsLeaveLogs(c, ops, before);
    }
  }

  // ── After a power cut ──

  /** The end of the log is a part of a line, or nothing. */
  ghost predicate TornEnd(c: Codec, f: File) {
    exists q :: f.tail <= c.encode(q)
  }

  /** A heat newly recorded survives a reload exactly when the log ended with a line end:
      behind a torn line the record is read as part of it, and both are lost. */
  lemma RecordSurvives(c: Codec, f: File, r: Record)
    requires Sound(c) && TornEnd(c, f)
    requires r.heat !in ReplayLines(c, f.lines) || ReplayLines(c, f.lines)[r.heat] != r.lanes
    ensures var after := Replay(c, Appended(f, c.encode(r)));
      (r.heat in after && after[r.heat] == r.lanes) <==> f.tail == ""
  {
    if f.tail == "" { AppendedReads(c, f, r); } else { GluedIsLost(c, f, r); }
  }

  lemma GluedIsLost(c: Codec, f: File, r: Record)
    requires Sound(c) && TornEnd(c, f) && f.tail != ""
    ensures Replay(c, Appended(f, c.encode(r))) == ReplayLines(c, f.lines)
  {
    var q :| f.tail <= c.encode(q);
    var line := c.encode(r);
    assert c.decode(f.tail + line) == None;
    assert (f.lines + [f.tail + line])[..|f.lines|] == f.lines;
  }

  function AppendAll(c: Codec, f: File, rs: seq<Record>): File {
    if rs == [] then f else Appended(AppendAll(c, f, rs[..|rs| - 1]), c.encode(rs[|rs| - 1]))
  }

  function RecordAll(times: Times, rs: seq<Record>): Times {
    if rs == [] then times else RecordAll(times, rs[..|rs| - 1])[rs[|rs| - 1].heat := rs[|rs| - 1].lanes]
  }

  lemma {:induction false} CleanLogTakesAll(c: Codec, f: File, rs: seq<Record>)
    requires Sound(c) && f.tail == ""
    ensures AppendAll(c, f, rs).tail == ""
    ensures Replay(c, AppendAll(c, f, rs)) == RecordAll(Replay(c, f), rs)
  {
    hide Sound, Replay;
    if rs != [] {
      CleanLogTakesAll(c, f, rs[..|rs| - 1]);
      AppendedReads(c, AppendAll(c, f, rs[..|rs| - 1]), rs[|rs| - 1]);
    }
  }

  /** A torn line costs itself and the one record after it, and nothing more: every later
      record is kept. */
  lemma {:induction false} TornLineCostsOneMore(c: Codec, f: File, rs: seq<Record>)
    requires Sound(c) && TornEnd(c, f) && f.tail != "" && rs != []
    ensures AppendAll(c, f, rs).tail == ""
    ensures Replay(c, AppendAll(c, f, rs)) == RecordAll(ReplayLines(c, f.lines), rs[1..])
  {
    var n := |rs| - 1;
    if n == 0 {
      GluedIsLost(c, f, rs[0]);
      assert AppendAll(c, f, rs[..0]) == f;
    } else {
      TornLineCostsOneMore(c, f, rs[..n]);
      AppendedReads(c, AppendAll(c, f, rs[..n]), rs[n]);
      assert rs[1..][..n - 1] == rs[..n][1..];
    }
  }

  // ── The class ──

  class Board {
    const codec: Codec
    var times: Times
    var disk: map<string, File>
    var meet: string
    var testing: bool

    function Current(): State
      reads this
    {
      State(times, disk, meet, testing)
    }

    constructor (codec: Codec)
      ensures this.codec == codec && Current() == Run(codec, [])
    {
      this.codec, times, disk, meet, testing := codec, map[], map[], "", false;
    }

    /** Remember a finished heat's times, on disk too outside tests. */
    method RecordConsoleHeat(heat: Heat, lanes: Lanes)
      modifies this`times, this`disk
      ensures Current() == Apply(codec, old(Current()), Finish(heat, lanes))
    {
      if heat.0 == 0 || heat.1 == 0 { return; }
      times := times[heat := lanes];
      if meet == "" || testing { return; }
      var f := if meet in disk then disk[meet] else EMPTY;
      disk := disk[meet := File(f.lines + [f.tail + codec.encode(Record(heat, lanes))], "")];
    }

    /** Load a meet, replaying its log line by line. */
    method LoadMeet(id: string)
      modifies this`times, this`meet
      ensures Current() == Apply(codec, old(Current()), Load(id))
    {
      meet := id;
      var out: Times := map[];
      if meet != "" && meet in disk {
        var f := disk[meet];
        for i := 0 to |f.lines|
          invariant out == ReplayLines(codec, f.lines[..i])
        {
          assert f.lines[..i + 1][..i] == f.lines[..i];
          out := Read(codec, out, f.lines[i]);
        }
        assert f.lines[..|f.lines|] == f.lines;
        if f.tail != "" { out := Read(codec, out, f.tail); }
      }
      times := out;
    }

    method DiscardConsoleTimes()
      modifies this`times, this`disk
      ensures Current() == Apply(codec, old(Current()), Discard)
    {
      disk := disk - {meet};
      times := map[];
    }
  }
}
