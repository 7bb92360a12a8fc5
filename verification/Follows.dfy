/** Who is notified of what: the notifications due now, the marks that keep each from
    being sent twice, and the store that carries both. */
module Follows {
  import opened Text
  import opened MeetWatch

  datatype Kind = Upcoming | Selected
  datatype Lead = LeadHeats(heats: nat) | LeadMinutes(minutes: nat)
  datatype Swimmer = Swimmer(name: string, club: string)

  /** One device's follows at one meet. */
  datatype Sub = Sub(token: string, swimmers: seq<Swimmer>, lead: Lead, selected: bool)

  /** What was sent: to whom, about which heat, of which kind. */
  datatype Mark = Mark(token: string, event: int, heat: int, kind: Kind)

  datatype Phrase = NextHeat | InHeats(heats: nat) | InMinutes(minutes: int)

  datatype Note = Note(mark: Mark, names: seq<string>, lanes: seq<Option<int>>, when: Option<Phrase>)

  // ── Who is in a heat ──

  /** The names in a lane that a followed swimmer is, `fold` being how names compare. */
  function Matches(l: Lane, s: Swimmer, fold: string -> string): seq<string> {
    if fold(s.club) != "" && fold(l.club) != fold(s.club) then []
    else (if fold(l.name) == fold(s.name) then [l.name] else []) + Folded(l.swimmers, s.name, fold)
  }

  function Folded(names: seq<string>, name: string, fold: string -> string): seq<string> {
    if names == [] then []
    else (if fold(names[0]) == fold(name) then [names[0]] else []) + Folded(names[1..], name, fold)
  }

  /** Each followed swimmer found in the heat, with the lane. */
  function Found(lanes: seq<Lane>, swimmers: seq<Swimmer>, fold: string -> string): seq<(string, Option<int>)> {
    if lanes == [] then [] else FoundIn(lanes[0], swimmers, fold) + Found(lanes[1..], swimmers, fold)
  }

  function FoundIn(l: Lane, swimmers: seq<Swimmer>, fold: string -> string): seq<(string, Option<int>)> {
    if swimmers == [] then []
    else
      var names := Matches(l, swimmers[0], fold);
      seq(|names|, i requires 0 <= i < |names| => (names[i], l.lane)) + FoundIn(l, swimmers[1..], fold)
  }

  // ── What is due ──

  function Ceiling(x: real): int {
    if (x.Floor as real) == x then x.Floor else x.Floor + 1
  }

  /** The upcoming phrase when the heat is inside the device's lead. */
  function When(s: Sub, w: Watch, i: nat, now: real, today: string): Option<Phrase>
    requires Valid(w) && i < |w.heats|
  {
    match s.lead
    case LeadHeats(lead) =>
      var ahead := HeatsAhead(w, i);
      if ahead.None? || ahead.value > lead then None
      else if ahead.value == 1 then Some(NextHeat)
      else Some(InHeats(ahead.value))
    case LeadMinutes(lead) =>
      if w.current.Some? && i <= w.current.value then None
      else
        var eta := Eta(w, i, now, today);
        if eta.None? || eta.value - now > (lead * 60) as real then None
        else
          var minutes := Ceiling((eta.value - now) / 60.0);
          Some(InMinutes(if minutes > 1 then minutes else 1))
  }

  /** Everything an evaluation reads. `selected` is the heat the console just reached. */
  datatype Scene = Scene(w: Watch, now: real, today: string, selected: Option<nat>, fold: string -> string)

  /** What a device should be told about heat `i`, whether or not it was before. */
  function Wanted(s: Sub, i: nat, c: Scene): Option<Kind>
    requires Valid(c.w) && i < |c.w.heats|
  {
    if Found(c.w.heats[i].lanes, s.swimmers, c.fold) == [] then None
    else if c.selected == Some(i) then (if s.selected then Some(Selected) else None)
    else if When(s, c.w, i, c.now, c.today).Some? then Some(Upcoming) else None
  }

  function MarkOf(s: Sub, h: Heat, k: Kind): Mark {
    Mark(s.token, h.event, h.heat, k)
  }

  /** The marks of everything wanted for a device among the first `n` heats. */
  ghost function WantedBy(s: Sub, n: nat, c: Scene): set<Mark>
    requires Valid(c.w) && n <= |c.w.heats|
  {
    if n == 0 then {}
    else
      var kind := Wanted(s, n - 1, c);
      WantedBy(s, n - 1, c) + (if kind.Some? then {MarkOf(s, c.w.heats[n - 1], kind.value)} else {})
  }

  lemma {:induction false} WantedByMeaning(s: Sub, n: nat, c: Scene, m: Mark)
    requires Valid(c.w) && n <= |c.w.heats|
    ensures m in WantedBy(s, n, c) <==>
      exists i: nat :: i < n && Wanted(s, i, c).Some? && m == MarkOf(s, c.w.heats[i], Wanted(s, i, c).value)
  {
    hide Wanted;
    if n > 0 { WantedByMeaning(s, n - 1, c, m); }
  }

  ghost function WantedByAll(subs: seq<Sub>, c: Scene): set<Mark>
    requires Valid(c.w)
  {
    if subs == [] then {} else WantedByAll(subs[..|subs| - 1], c) + WantedBy(subs[|subs| - 1], |c.w.heats|, c)
  }

  /** The notes carry these marks, each once. */
  ghost predicate CarryOnce(notes: seq<Note>, marks: set<Mark>) {
    && (forall m :: m in marks <==> exists k :: 0 <= k < |notes| && notes[k].mark == m)
    && (forall k, m :: 0 <= k < m < |notes| ==> notes[k].mark != notes[m].mark)
  }

  /** A note says what it should of one device and one heat. */
  ghost predicate Truthful(n: Note, subs: seq<Sub>, c: Scene)
    requires Valid(c.w)
  {
    exists s: Sub, i: nat :: s in subs && i < |c.w.heats| && Wanted(s, i, c).Some?
      && n == NoteFor(s, i, c)
  }

  function NoteFor(s: Sub, i: nat, c: Scene): Note
    requires Valid(c.w) && i < |c.w.heats| && Wanted(s, i, c).Some?
  {
    var h := c.w.heats[i];
    var found := Found(h.lanes, s.swimmers, c.fold);
    Note(MarkOf(s, h, Wanted(s, i, c).value),
         seq(|found|, k requires 0 <= k < |found| => found[k].0),
         seq(|found|, k requires 0 <= k < |found| => found[k].1),
         if c.selected == Some(i) then None else When(s, c.w, i, c.now, c.today))
  }

  lemma OneMoreNote(notes: seq<Note>, n: Note, marks: set<Mark>)
    requires CarryOnce(notes, marks) && n.mark !in marks
    ensures CarryOnce(notes + [n], marks + {n.mark})
  {
    var more := notes + [n];
    forall m
      ensures m in marks + {n.mark} <==> exists k :: 0 <= k < |more| && more[k].mark == m
    {
      if m in marks {
        var k :| 0 <= k < |notes| && notes[k].mark == m;
        assert more[k].mark == m;
      }
      if m == n.mark { assert more[|notes|].mark == m; }
      if exists k :: 0 <= k < |more| && more[k].mark == m {
        var k :| 0 <= k < |more| && more[k].mark == m;
        if k < |notes| { assert notes[k].mark == m; }
      }
    }
  }

  /** The notifications to send to one device. */
  method DueFor(s: Sub, c: Scene, fired: set<Mark>) returns (notes: seq<Note>)
    requires Valid(c.w)
    ensures CarryOnce(notes, WantedBy(s, |c.w.heats|, c) - fired)
    ensures forall n :: n in notes ==> Truthful(n, [s], c)
  {
    hide Wanted, Found, When;
    notes := [];
    var marked := fired;
    for i := 0 to |c.w.heats|
      invariant marked == fired + WantedBy(s, i, c)
      invariant CarryOnce(notes, WantedBy(s, i, c) - fired)
      invariant forall n :: n in notes ==> Truthful(n, [s], c)
    {
      var kind := Wanted(s, i, c);
      ghost var before := WantedBy(s, i, c);
      assert WantedBy(s, i + 1, c) == before + (if kind.Some? then {MarkOf(s, c.w.heats[i], kind.value)} else {});
      if kind.Some? {
        var n := NoteFor(s, i, c);
        if n.mark !in marked {
          OneMoreNote(notes, n, before - fired);
          assert before + {n.mark} - fired == before - fired + {n.mark};
          TruthfulNote(s, i, c);
          marked := marked + {n.mark};
          notes := notes + [n];
        } else {
          assert before + {n.mark} - fired == before - fired;
        }
      } else {
        assert before + {} == before;
      }
    }
  }

  lemma TruthfulNote(s: Sub, i: nat, c: Scene)
    requires Valid(c.w) && i < |c.w.heats| && Wanted(s, i, c).Some?
    ensures Truthful(NoteFor(s, i, c), [s], c)
  {
    assert s in [s];
  }

  lemma MoreNotes(notes: seq<Note>, a: set<Mark>, more: seq<Note>, b: set<Mark>)
    requires CarryOnce(notes, a) && CarryOnce(more, b) && a !! b
    ensures CarryOnce(notes + more, a + b)
  {
    var all := notes + more;
    forall m
      ensures m in a + b <==> exists k :: 0 <= k < |all| && all[k].mark == m
    {
      if m in a {
        var k :| 0 <= k < |notes| && notes[k].mark == m;
        assert all[k].mark == m;
      }
      if m in b {
        var k :| 0 <= k < |more| && more[k].mark == m;
        assert all[|notes| + k].mark == m;
      }
      if exists k :: 0 <= k < |all| && all[k].mark == m {
        var k :| 0 <= k < |all| && all[k].mark == m;
        if k < |notes| { assert notes[k].mark == m; } else { assert more[k - |notes|].mark == m; }
      }
    }
    forall k, m | 0 <= k < m < |all|
      ensures all[k].mark != all[m].mark
    {
      if k < |notes| && m >= |notes| {
        assert notes[k].mark in a && more[m - |notes|].mark in b;
      }
    }
  }

  /** The notifications due: of everything wanted exactly what was not sent before, each
      once, and each saying what it should. */
  method Due(subs: seq<Sub>, c: Scene, fired: set<Mark>) returns (notes: seq<Note>, marked: set<Mark>)
    requires Valid(c.w)
    ensures CarryOnce(notes, WantedByAll(subs, c) - fired)
    ensures marked == fired + WantedByAll(subs, c)
    ensures forall n :: n in notes ==> Truthful(n, subs, c)
  {
    notes, marked := [], fired;
    for j := 0 to |subs|
      invariant marked == fired + WantedByAll(subs[..j], c)
      invariant CarryOnce(notes, WantedByAll(subs[..j], c) - fired)
      invariant forall n :: n in notes ==> Truthful(n, subs, c)
    {
      ghost var before := WantedByAll(subs[..j], c);
      ghost var here := WantedBy(subs[j], |c.w.heats|, c);
      assert subs[..j + 1][..j] == subs[..j] && WantedByAll(subs[..j + 1], c) == before + here;
      var more := DueFor(subs[j], c, marked);
      MoreNotes(notes, before - fired, more, here - marked);
      assert before + here - fired == (before - fired) + (here - marked);
      forall n | n in more
        ensures Truthful(n, subs, c)
      {
        var s: Sub, i: nat :| s in [subs[j]] && i < |c.w.heats| && Wanted(s, i, c).Some? && n == NoteFor(s, i, c);
        assert s in subs;
      }
      MarksCarried(more, here - marked);
      marked := marked + Marks(more);
      notes := notes + more;
    }
    assert subs[..|subs|] == subs;
  }

  function Marks(notes: seq<Note>): set<Mark> {
    set k | 0 <= k < |notes| :: notes[k].mark
  }

  lemma MarksCarried(notes: seq<Note>, marks: set<Mark>)
    requires CarryOnce(notes, marks)
    ensures Marks(notes) == marks
  {
    forall m
      ensures m in Marks(notes) <==> m in marks
    {
    }
  }

  lemma {:induction false} WantedOfToken(s: Sub, n: nat, c: Scene)
    requires Valid(c.w) && n <= |c.w.heats|
    ensures forall m :: m in WantedBy(s, n, c) ==> m.token == s.token
  {
    hide Wanted;
    if n > 0 { WantedOfToken(s, n - 1, c); }
  }

  lemma {:induction false} WantedByAllMeaning(subs: seq<Sub>, c: Scene, m: Mark)
    requires Valid(c.w)
    ensures m in WantedByAll(subs, c) <==> exists s :: s in subs && m in WantedBy(s, |c.w.heats|, c)
  {
    hide WantedBy;
    if subs != [] {
      var before, last := subs[..|subs| - 1], subs[|subs| - 1];
      assert last in subs && forall s :: s in subs <==> s in before || s == last;
      WantedByAllMeaning(before, c, m);
    }
  }

  /** The marks of everything wanted of the devices a node's store holds for a meet. */
  ghost function WantedIn(b: Bundle, c: Scene): set<Mark>
    requires Valid(c.w)
  {
    set t, m | t in b.follows && m in WantedBy(b.follows[t], |c.w.heats|, c) :: m
  }

  /** What an evaluation has to tell: of what is wanted of the devices that follow, what is
      not marked. */
  function Untold(b: Bundle, wanted: set<Mark>): set<Mark> {
    set k | k in wanted && k.token in b.follows && k !in b.fired
  }

  /** A store's meet once an evaluation has marked what it has to tell. */
  function Evaluated(b: Bundle, wanted: set<Mark>): Bundle {
    b.(fired := b.fired + Untold(b, wanted))
  }

  lemma RowsWant(rows: seq<Sub>, b: Bundle, c: Scene)
    requires Valid(c.w) && forall s :: s in rows <==> s.token in b.follows && b.follows[s.token] == s
    requires forall t :: t in b.follows ==> b.follows[t].token == t
    ensures WantedByAll(rows, c) == WantedIn(b, c)
    ensures WantedByAll(rows, c) - b.fired == Untold(b, WantedIn(b, c))
  {
    hide WantedBy, WantedByAll;
    forall m
      ensures m in WantedByAll(rows, c) <==> m in WantedIn(b, c)
      ensures m in WantedIn(b, c) ==> m.token in b.follows
    {
      WantedByAllMeaning(rows, c, m);
      if m in WantedByAll(rows, c) {
        var s :| s in rows && m in WantedBy(s, |c.w.heats|, c);
        assert s == b.follows[s.token];
      }
      if m in WantedIn(b, c) {
        var t :| t in b.follows && m in WantedBy(b.follows[t], |c.w.heats|, c);
        WantedOfToken(b.follows[t], |c.w.heats|, c);
        assert b.follows[t] in rows;
      }
    }
  }

  lemma ToldTo(n: Note, rows: seq<Sub>, b: Bundle, c: Scene)
    requires Valid(c.w) && Truthful(n, rows, c)
    requires forall s :: s in rows <==> s.token in b.follows && b.follows[s.token] == s
    ensures exists t :: t in b.follows && Truthful(n, [b.follows[t]], c)
  {
    hide Wanted;
    var s: Sub, i: nat :| s in rows && i < |c.w.heats| && Wanted(s, i, c).Some? && n == NoteFor(s, i, c);
    TruthfulNote(s, i, c);
    assert Truthful(n, [b.follows[s.token]], c);
  }

  /** A name is found in a heat exactly where a followed swimmer is that name of a lane:
      one whose club is followed too, when one is given. */
  lemma {:induction false} FoundMeansMatch(lanes: seq<Lane>, swimmers: seq<Swimmer>, fold: string -> string, x: (string, Option<int>))
    ensures x in Found(lanes, swimmers, fold) <==>
      exists l, s :: l in lanes && s in swimmers && IsIn(s, l, x.0, fold) && x.1 == l.lane
  {
    if lanes != [] {
      FoundInMeans(lanes[0], swimmers, fold, x);
      FoundMeansMatch(lanes[1..], swimmers, fold, x);
      assert lanes == [lanes[0]] + lanes[1..];
    }
  }

  /** One of the swimmers followed is in a lane of the heat, by this name. */
  ghost predicate SwimsAs(s: Sub, h: Heat, fold: string -> string, name: string, lane: Option<int>) {
    exists l, f :: l in h.lanes && f in s.swimmers && IsIn(f, l, name, fold) && lane == l.lane
  }

  /** A device is told of a heat a followed swimmer is in: that the console reached it, if
      it asked to know, and otherwise that the heat is coming, inside its lead — never of a
      heat already passed. */
  lemma WantedMeaning(s: Sub, i: nat, c: Scene)
    requires Valid(c.w) && i < |c.w.heats|
    ensures var h, wanted := c.w.heats[i], Wanted(s, i, c);
      && (wanted == Some(Selected) <==>
        (exists name, lane :: SwimsAs(s, h, c.fold, name, lane)) && c.selected == Some(i) && s.selected)
      && (wanted == Some(Upcoming) <==>
        (exists name, lane :: SwimsAs(s, h, c.fold, name, lane)) && c.selected != Some(i)
        && When(s, c.w, i, c.now, c.today).Some?)
      && (wanted == Some(Upcoming) && c.w.current.Some? ==> c.w.current.value < i)
  {
    SwimsWhenFound(s, c.w.heats[i], c.fold);
    hide Found, Eta, SwimsAs;
  }

  lemma SwimsWhenFound(s: Sub, h: Heat, fold: string -> string)
    ensures Found(h.lanes, s.swimmers, fold) != [] <==> exists name, lane :: SwimsAs(s, h, fold, name, lane)
  {
    hide Found;
    var found := Found(h.lanes, s.swimmers, fold);
    if found != [] {
      FoundMeansMatch(h.lanes, s.swimmers, fold, found[0]);
      assert found[0] in found && SwimsAs(s, h, fold, found[0].0, found[0].1);
    }
    if name, lane :| SwimsAs(s, h, fold, name, lane) {
      FoundMeansMatch(h.lanes, s.swimmers, fold, (name, lane));
    }
  }

  /** A note names the device and the heat, every followed swimmer in it with the lane and
      nobody else, and when the heat is, unless it is the one the console just reached. */
  lemma NoteSays(s: Sub, i: nat, c: Scene, name: string, lane: Option<int>)
    requires Valid(c.w) && i < |c.w.heats| && Wanted(s, i, c).Some?
    ensures var h, n := c.w.heats[i], NoteFor(s, i, c);
      && n.mark.token == s.token && n.mark.event == h.event && n.mark.heat == h.heat
      && (n.mark.kind.Selected? <==> c.selected == Some(i))
      && n.when == (if c.selected == Some(i) then None else When(s, c.w, i, c.now, c.today))
      && (n.when.None? <==> n.mark.kind.Selected?)
      && |n.names| == |n.lanes|
      && ((exists k :: 0 <= k < |n.names| && n.names[k] == name && n.lanes[k] == lane)
        <==> SwimsAs(s, h, c.fold, name, lane))
  {
    hide Found, When;
    var n, found := NoteFor(s, i, c), Found(c.w.heats[i].lanes, s.swimmers, c.fold);
    FoundMeansMatch(c.w.heats[i].lanes, s.swimmers, c.fold, (name, lane));
    if SwimsAs(s, c.w.heats[i], c.fold, name, lane) {
      var k :| 0 <= k < |found| && found[k] == (name, lane);
      assert n.names[k] == name && n.lanes[k] == lane;
    }
    if k :| 0 <= k < |n.names| && n.names[k] == name && n.lanes[k] == lane {
      assert found[k] == (name, lane);
    }
  }

  /** The swimmer is this name of the lane. */
  predicate IsIn(s: Swimmer, l: Lane, name: string, fold: string -> string) {
    && (fold(s.club) == "" || fold(l.club) == fold(s.club))
    && fold(name) == fold(s.name)
    && (name == l.name || name in l.swimmers)
  }

  lemma {:induction false} FoldedMeans(names: seq<string>, name: string, fold: string -> string, x: string)
    ensures x in Folded(names, name, fold) <==> x in names && fold(x) == fold(name)
  {
    if names != [] {
      FoldedMeans(names[1..], name, fold, x);
      assert names == [names[0]] + names[1..];
    }
  }

  lemma {:induction false} FoundInMeans(l: Lane, swimmers: seq<Swimmer>, fold: string -> string, x: (string, Option<int>))
    ensures x in FoundIn(l, swimmers, fold) <==> x.1 == l.lane && exists s :: s in swimmers && IsIn(s, l, x.0, fold)
  {
    hide Folded;
    if swimmers != [] {
      var s, names := swimmers[0], Matches(l, swimmers[0], fold);
      FoldedMeans(l.swimmers, s.name, fold, x.0);
      FoundInMeans(l, swimmers[1..], fold, x);
      var here := seq(|names|, i requires 0 <= i < |names| => (names[i], l.lane));
      assert FoundIn(l, swimmers, fold) == here + FoundIn(l, swimmers[1..], fold);
      assert swimmers == [s] + swimmers[1..];
      assert x.0 in names <==> IsIn(s, l, x.0, fold);
      if x in here {
        var i :| 0 <= i < |here| && here[i] == x;
        assert names[i] == x.0;
      }
      if x.0 in names && x.1 == l.lane {
        var i :| 0 <= i < |names| && names[i] == x.0;
        assert here[i] == x;
      }
    }
  }

  /** With a lead in heats a heat with swimmers is due exactly when it is one of the first
      so many after the current one; the very next is announced as that. */
  lemma HeatsWindowIsFirst(s: Sub, w: Watch, i: nat, now: real, today: string)
    requires Valid(w) && s.lead.LeadHeats? && i < |w.heats| && w.heats[i].lanes != [] && w.current.Some?
    ensures var next := SwumFrom(w.heats, w.current.value + 1, |w.heats|);
      var lead := if s.lead.heats < |next| then s.lead.heats else |next|;
      && (When(s, w, i, now, today).Some? <==> i in next[..lead])
      && (When(s, w, i, now, today) == Some(NextHeat) ==> next != [] && i == next[0])
      && (next != [] && i == next[0] && lead > 0 ==> When(s, w, i, now, today) == Some(NextHeat))
  {
    var next := SwumFrom(w.heats, w.current.value + 1, |w.heats|);
    SwumFromMembers(w.heats, w.current.value + 1, |w.heats|);
    var lead := if s.lead.heats < |next| then s.lead.heats else |next|;
    hide SwumFrom, CountSwum;
    if i > w.current.value {
      LeadIsFirstHeats(w, i, s.lead.heats);
      var ahead := HeatsAhead(w, i).value;
      assert ahead > 1 ==> next[0] < next[ahead - 1];
    } else {
      forall k | 0 <= k < lead
        ensures next[..lead][k] != i
      {
        assert next[k] in next;
      }
    }
  }

  /** The other heats of that lead are announced by how many there are to go. */
  lemma HeatsPhraseCounts(s: Sub, w: Watch, i: nat, now: real, today: string)
    requires Valid(w) && s.lead.LeadHeats? && i < |w.heats| && w.heats[i].lanes != [] && w.current.Some?
    requires When(s, w, i, now, today).Some? && !When(s, w, i, now, today).value.NextHeat?
    ensures When(s, w, i, now, today).value.InHeats?
    ensures var next, n := SwumFrom(w.heats, w.current.value + 1, |w.heats|), When(s, w, i, now, today).value.heats;
      1 < n <= |next| && next[n - 1] == i
  {
    LeadIsFirstHeats(w, i, s.lead.heats);
  }

  /** `n` is the minutes from now to `eta`, a begun one counted, and at least one. */
  ghost predicate MinutesTo(eta: real, now: real, n: int) {
    n >= 1 && eta - now <= 60.0 * n as real && (n > 1 ==> 60.0 * (n - 1) as real < eta - now)
  }

  /** With a lead in minutes a heat the console has not reached is due exactly when it is
      expected within so many times sixty seconds, and it is announced by the minutes to go. */
  lemma MinutesWindow(s: Sub, w: Watch, i: nat, now: real, today: string)
    requires Valid(w) && s.lead.LeadMinutes? && i < |w.heats|
    ensures var eta, due := Eta(w, i, now, today), When(s, w, i, now, today);
      && (due.Some? <==>
        && (w.current.None? || w.current.value < i)
        && eta.Some? && eta.value <= now + 60.0 * s.lead.minutes as real)
      && (due.Some? ==> due.value.InMinutes? && MinutesTo(eta.value, now, due.value.minutes))
  {
    var eta := Eta(w, i, now, today);
    hide Eta;
    if eta.Some? {
      assert (s.lead.minutes * 60) as real == 60.0 * s.lead.minutes as real;
      CeilingIs(eta.value - now);
    }
  }

  lemma CeilingIs(x: real)
    ensures var n := Ceiling(x / 60.0); 60.0 * (n - 1) as real < x <= 60.0 * n as real
  {
    var y := x / 60.0;
    assert x == 60.0 * y && (Ceiling(y) - 1) as real < y <= Ceiling(y) as real;
  }

  /** So a scheduled heat is announced by the clock: from `lead` minutes before its time,
      put off by as much as the current heat began late. */
  lemma AnnouncedByTheClock(s: Sub, w: Watch, i: nat, now: real, today: string, began: real)
    requires Valid(w) && s.lead.LeadMinutes?
    requires OneDay(w, today) && w.current.value < i < |w.heats| && BeganAt(w, now, began)
    requires Given(w.heats[w.current.value].scheduled) && Given(w.heats[i].scheduled)
    ensures var late := began - w.heats[w.current.value].scheduled.value;
      When(s, w, i, now, today).Some? <==> w.heats[i].scheduled.value + late <= now + 60.0 * s.lead.minutes as real
  {
    MinutesWindow(s, w, i, now, today);
    EtaKeepsLateness(w, i, now, today, began);
    hide Eta, When;
  }

  /** In the minutes lead too, a heat due means every followed heat before it is due. */
  lemma MinutesWindowIsInitial(s: Sub, w: Watch, i: nat, j: nat, now: real, today: string)
    requires Valid(w) && OneDay(w, today) && SwimsPositive(w) && s.lead.LeadMinutes?
    requires !Given(w.heats[w.current.value].scheduled)
    requires w.current.value < i <= j < |w.heats|
    requires When(s, w, j, now, today).Some?
    ensures When(s, w, i, now, today).Some?
  {
    EtaFollowsRunningOrder(w, i, j, now, today);
  }

  // ── The store of one node ──

  datatype Follow = Follow(meet: string, token: string)
  datatype Fired = Fired(meet: string, mark: Mark)

  /** A meet's follows and marks, as they travel to another node. */
  datatype Bundle = Bundle(follows: map<string, Sub>, fired: set<Mark>)

  ghost function FollowsOf(follows: map<Follow, Sub>, meet: string): (r: map<string, Sub>)
    ensures forall t :: t in r <==> Follow(meet, t) in follows
    ensures forall t :: t in r ==> r[t] == follows[Follow(meet, t)]
  {
    var tokens := set f | f in follows :: f.token;
    assert forall t :: Follow(meet, t) in follows ==> Follow(meet, t).token in tokens;
    map t | t in tokens && Follow(meet, t) in follows :: follows[Follow(meet, t)]
  }

  ghost function FiredOf(fired: set<Fired>, meet: string): (r: set<Mark>)
    ensures forall k :: k in r <==> Fired(meet, k) in fired
  {
    var marks := set f | f in fired :: f.mark;
    assert forall k :: Fired(meet, k) in fired ==> Fired(meet, k).mark in marks;
    set k | k in marks && Fired(meet, k) in fired
  }

  /** Two tables that agree on a meet hold the same of it. */
  lemma SameOf(a: map<Follow, Sub>, b: map<Follow, Sub>, x: set<Fired>, y: set<Fired>, meet: string)
    requires forall t :: Follow(meet, t) in a <==> Follow(meet, t) in b
    requires forall t :: Follow(meet, t) in a ==> a[Follow(meet, t)] == b[Follow(meet, t)]
    requires forall k :: Fired(meet, k) in x <==> Fired(meet, k) in y
    ensures FollowsOf(a, meet) == FollowsOf(b, meet) && FiredOf(x, meet) == FiredOf(y, meet)
  {
    hide FollowsOf, FiredOf;
  }

  /** A meet's rows, in any order. */
  method Rows(follows: map<Follow, Sub>, meet: string) returns (rows: seq<Sub>)
    requires forall f :: f in follows ==> follows[f].token == f.token && follows[f].swimmers != []
    ensures forall t :: t in Listed(rows) <==> Follow(meet, t) in follows
    ensures forall t :: t in Listed(rows) ==> Listed(rows)[t] == follows[Follow(meet, t)]
    ensures forall s :: s in rows <==> Follow(meet, s.token) in follows && follows[Follow(meet, s.token)] == s
  {
    var todo := set f | f in follows && f.meet == meet;
    rows := [];
    while todo != {}
      invariant forall f :: f in todo ==> f in follows && f.meet == meet
      invariant forall t :: t in Listed(rows) <==> Follow(meet, t) in follows && Follow(meet, t) !in todo
      invariant forall t :: t in Listed(rows) ==> Listed(rows)[t] == follows[Follow(meet, t)]
      invariant forall s :: s in rows <==>
        Follow(meet, s.token) in follows && Follow(meet, s.token) !in todo && follows[Follow(meet, s.token)] == s
      decreases |todo|
    {
      var f :| f in todo;
      assert f == Follow(meet, f.token);
      ListedOneMore(rows, follows[f]);
      rows := rows + [follows[f]];
      todo := todo - {f};
    }
  }

  class Store {
    var follows: map<Follow, Sub>
    var fired: set<Fired>

    /** What the store holds of one meet. */
    ghost function Meet(meet: string): Bundle
      reads this
    {
      Bundle(FollowsOf(follows, meet), FiredOf(fired, meet))
    }

    /** Each row is under its own token and follows someone. */
    ghost predicate Valid()
      reads this
    {
      forall f :: f in follows ==> follows[f].token == f.token && follows[f].swimmers != []
    }

    constructor ()
      ensures Valid() && forall m :: Meet(m) == Bundle(map[], {})
    {
      follows, fired := map[], {};
    }

    /** Store one device's follows, replacing what it had; none stops following, and
        forgets what it was told. */
    method Put(meet: string, s: Sub)
      requires Valid()
      modifies this
      ensures Valid()
      ensures Meet(meet) == AfterPut(old(Meet(meet)), s)
      ensures forall m :: m != meet ==> Meet(m) == old(Meet(m))
    {
      hide FollowsOf, FiredOf;
      if s.swimmers == [] {
        follows := follows - {Follow(meet, s.token)};
        fired := set f | f in fired && !(f.meet == meet && f.mark.token == s.token);
      } else {
        follows := follows[Follow(meet, s.token) := s];
      }
      assert Meet(meet).follows == AfterPut(old(Meet(meet)), s).follows;
      assert Meet(meet).fired == AfterPut(old(Meet(meet)), s).fired;
      forall m | m != meet
        ensures Meet(m) == old(Meet(m))
      {
        SameOf(follows, old(follows), fired, old(fired), m);
      }
    }

    /** Record notifications as sent, before they are. */
    method MarkFired(meet: string, marks: set<Mark>)
      modifies this`fired
      ensures old(Valid()) ==> Valid()
      ensures Meet(meet) == old(Meet(meet)).(fired := old(Meet(meet)).fired + marks)
      ensures forall m :: m != meet ==> Meet(m) == old(Meet(m))
    {
      hide FollowsOf, FiredOf;
      fired := fired + set k | k in marks :: Fired(meet, k);
      assert Meet(meet).fired == old(Meet(meet)).fired + marks;
      forall m | m != meet
        ensures Meet(m) == old(Meet(m))
      {
        SameOf(follows, follows, fired, old(fired), m);
      }
    }

    method DropMeet(meet: string)
      requires Valid()
      modifies this
      ensures Valid()
      ensures Meet(meet) == Bundle(map[], {})
      ensures forall m :: m != meet ==> Meet(m) == old(Meet(m))
    {
      hide FollowsOf, FiredOf;
      follows := map f | f in follows && f.meet != meet :: follows[f];
      fired := set f | f in fired && f.meet != meet;
      assert Meet(meet).follows == map[] && Meet(meet).fired == {};
      forall m | m != meet
        ensures Meet(m) == old(Meet(m))
      {
        SameOf(follows, old(follows), fired, old(fired), m);
      }
    }

    method ClearFired(meet: string)
      modifies this`fired
      ensures old(Valid()) ==> Valid()
      ensures Meet(meet) == old(Meet(meet)).(fired := {})
      ensures forall m :: m != meet ==> Meet(m) == old(Meet(m))
    {
      hide FollowsOf, FiredOf;
      fired := set f | f in fired && f.meet != meet;
      assert Meet(meet).fired == {};
      forall m | m != meet
        ensures Meet(m) == old(Meet(m))
      {
        SameOf(follows, follows, fired, old(fired), m);
      }
    }

    /** The platform says the token is dead: forget it at every meet. */
    method DropToken(token: string)
      requires Valid()
      modifies this
      ensures Valid()
      ensures forall m :: Meet(m) == WithoutToken(old(Meet(m)), token)
    {
      hide FollowsOf, FiredOf;
      follows := map f | f in follows && f.token != token :: follows[f];
      fired := set f | f in fired && f.mark.token != token;
      forall m
        ensures Meet(m) == WithoutToken(old(Meet(m)), token)
      {
        assert Meet(m).follows == old(Meet(m)).follows - {token};
        assert Meet(m).fired == WithoutToken(old(Meet(m)), token).fired;
      }
    }

    /** One evaluation of a meet: read what the store holds of it, work out what is due,
        and mark it before it is sent. */
    method Evaluate(meet: string, c: Scene) returns (notes: seq<Note>)
      requires Valid() && MeetWatch.Valid(c.w)
      modifies this`fired
      ensures Valid()
      ensures CarryOnce(notes, Untold(old(Meet(meet)), WantedIn(old(Meet(meet)), c)))
      ensures Meet(meet) == Evaluated(old(Meet(meet)), WantedIn(old(Meet(meet)), c))
      ensures forall m :: m != meet ==> Meet(m) == old(Meet(m))
      ensures forall n :: n in notes ==>
        exists t :: t in old(Meet(meet)).follows && Truthful(n, [old(Meet(meet)).follows[t]], c)
    {
      hide FollowsOf, FiredOf, CarryOnce, Truthful, Listed, WantedByAll, WantedIn;
      var rows := Rows(follows, meet);
      var fired := set f | f in fired && f.meet == meet :: f.mark;
      ExportedMarks(this.fired, meet);
      ghost var b := Meet(meet);
      var marked;
      notes, marked := Due(rows, c, fired);
      assert forall s :: s in rows <==> s.token in b.follows && b.follows[s.token] == s;
      RowsWant(rows, b, c);
      forall n | n in notes
        ensures exists t :: t in b.follows && Truthful(n, [b.follows[t]], c)
      {
        ToldTo(n, rows, b, c);
      }
      MarksCarried(notes, Untold(b, WantedIn(b, c)));
      MarkFired(meet, Marks(notes));
    }

    /** A meet's follows, one row a device, and its marks, to carry to another node. */
    method Export(meet: string) returns (rows: seq<Sub>, marks: set<Mark>)
      requires Valid()
      ensures Bundle(Listed(rows), marks) == Meet(meet)
    {
      hide FollowsOf, FiredOf;
      rows := Rows(follows, meet);
      marks := set f | f in fired && f.meet == meet :: f.mark;
      assert Listed(rows) == Meet(meet).follows;
      ExportedMarks(fired, meet);
    }

    /** Store follows carried from another node, row by row. */
    method Import(meet: string, rows: seq<Sub>, marks: set<Mark>)
      requires Valid()
      modifies this
      ensures Valid()
      ensures Meet(meet) == Joined(old(Meet(meet)), Bundle(Listed(rows), marks))
      ensures forall m :: m != meet ==> Meet(m) == old(Meet(m))
    {
      hide Meet, AfterPut;
      for i := 0 to |rows|
        invariant Valid()
        invariant Meet(meet) == Joined(old(Meet(meet)), Bundle(Listed(rows[..i]), {}))
        invariant forall m :: m != meet ==> Meet(m) == old(Meet(m))
      {
        assert rows[..i + 1] == rows[..i] + [rows[i]];
        ListedOneMore(rows[..i], rows[i]);
        if rows[i].swimmers != [] {
          PutJoins(old(Meet(meet)), Listed(rows[..i]), rows[i]);
          Put(meet, rows[i]);
        }
      }
      assert rows[..|rows|] == rows;
      MarkFired(meet, marks);
    }
  }

  /** What a list of rows says, the last row of a device counting; a row with nobody to
      follow says nothing. */
  function Listed(rows: seq<Sub>): map<string, Sub> {
    if rows == [] then map[]
    else
      var n := |rows| - 1;
      if rows[n].swimmers == [] then Listed(rows[..n]) else Listed(rows[..n])[rows[n].token := rows[n]]
  }

  lemma ListedOneMore(rows: seq<Sub>, s: Sub)
    ensures Listed(rows + [s]) == if s.swimmers == [] then Listed(rows) else Listed(rows)[s.token := s]
  {
    assert (rows + [s])[..|rows|] == rows;
  }

  lemma ExportedMarks(fired: set<Fired>, meet: string)
    ensures (set f | f in fired && f.meet == meet :: f.mark) == FiredOf(fired, meet)
  {
    hide FiredOf;
    forall k
      ensures k in (set f | f in fired && f.meet == meet :: f.mark) <==> Fired(meet, k) in fired
    {
      if Fired(meet, k) in fired { assert Fired(meet, k).mark == k; }
    }
  }

  lemma PutJoins(b: Bundle, listed: map<string, Sub>, s: Sub)
    requires s.swimmers != []
    ensures AfterPut(Joined(b, Bundle(listed, {})), s) == Joined(b, Bundle(listed[s.token := s], {}))
  {
  }

  /** A device's follows and marks gone from a meet. */
  function WithoutToken(b: Bundle, token: string): Bundle {
    Bundle(b.follows - {token}, set k | k in b.fired && k.token != token)
  }

  function AfterPut(b: Bundle, s: Sub): Bundle {
    if s.swimmers == [] then
      WithoutToken(b, s.token)
    else b.(follows := b.follows[s.token := s])
  }

  function Joined(b: Bundle, more: Bundle): Bundle {
    Bundle(b.follows + more.follows, b.fired + more.fired)
  }

  /** A device that sends follows replaces its own and keeps its marks; one that sends none,
      or whose token is dead, is gone with its marks; and no other is touched. */
  lemma PutTouchesOneDevice(b: Bundle, s: Sub, token: string, m: Mark)
    ensures var u := AfterPut(b, s);
      && (token in u.follows <==> if token == s.token then s.swimmers != [] else token in b.follows)
      && (token in u.follows ==> u.follows[token] == if token == s.token then s else b.follows[token])
      && (m in u.fired <==> m in b.fired && (m.token == s.token ==> s.swimmers != []))
    ensures var d := WithoutToken(b, s.token);
      && (token in d.follows <==> token in b.follows && token != s.token)
      && (token in d.follows ==> d.follows[token] == b.follows[token])
      && (m in d.fired <==> m in b.fired && m.token != s.token)
  {
  }

  /** Of a device followed on both nodes the follows brought count, and the marks of both. */
  lemma JoinedBringsItsOwn(b: Bundle, more: Bundle, token: string, m: Mark)
    ensures var u := Joined(b, more);
      && (token in u.follows <==> token in b.follows || token in more.follows)
      && (token in u.follows ==> u.follows[token] == if token in more.follows then more.follows[token] else b.follows[token])
      && (m in u.fired <==> m in b.fired || m in more.fired)
  {
  }

  /** A meet carried to a node that has nothing of it is there as it was. */
  method CarryOver(here: Store, there: Store, meet: string)
    requires here.Valid() && there.Valid() && here != there
    requires there.Meet(meet) == Bundle(map[], {})
    modifies there
    ensures there.Meet(meet) == here.Meet(meet)
    ensures forall m :: m != meet ==> there.Meet(m) == old(there.Meet(m))
  {
    hide FollowsOf, FiredOf, Listed;
    var rows, marks := here.Export(meet);
    there.Import(meet, rows, marks);
    assert here.Meet(meet) == old(here.Meet(meet));
    assert Joined(Bundle(map[], {}), here.Meet(meet)) == here.Meet(meet);
  }

  /** Carrying a meet's follows twice is carrying them once. */
  lemma ImportIsIdempotent(b: Bundle, more: Bundle)
    ensures Joined(Joined(b, more), more) == Joined(b, more)
  {
    assert b.follows + more.follows + more.follows == b.follows + more.follows;
  }
}
