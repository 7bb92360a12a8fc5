/** The running order of the loaded meet, and stepping through it. */
module Heats {
  import opened Text

  datatype Heat = Heat(event: int, heat: int)

  predicate Before(a: Heat, b: Heat) {
    a.event < b.event || (a.event == b.event && a.heat < b.heat)
  }

  ghost predicate InOrder(order: seq<Heat>) {
    forall i, j :: 0 <= i < j < |order| ==> Before(order[i], order[j])
  }

  ghost predicate Ascending(s: seq<int>) {
    forall i, j :: 0 <= i < j < |s| ==> s[i] < s[j]
  }

  method Least(s: set<int>) returns (x: int)
    requires s != {}
    ensures x in s && forall y :: y in s ==> x <= y
  {
    ghost var one := AnyOf(s);
    x :| x in s;
    var todo := s - {x};
    while todo != {}
      invariant todo <= s && x in s
      invariant forall y :: y in s && y !in todo ==> x <= y
      decreases |todo|
    {
      ghost var other := AnyOf(todo);
      var y :| y in todo;
      if y < x { x := y; }
      todo := todo - {y};
    }
  }

  lemma AppendAscends(r: seq<int>, x: int)
    requires Ascending(r) && forall y :: y in r ==> y < x
    ensures Ascending(r + [x])
  {
    assert forall i :: 0 <= i < |r| ==> r[i] in r;
  }

  method SortNumbers(s: set<int>) returns (r: seq<int>)
    ensures Ascending(r) && forall x :: x in r <==> x in s
  {
    r := [];
    var todo := s;
    while todo != {}
      invariant todo <= s && Ascending(r)
      invariant forall x :: x in r <==> x in s && x !in todo
      invariant forall x, y :: x in r && y in todo ==> x < y
      decreases |todo|
    {
      var x := Least(todo);
      AppendAscends(r, x);
      r := r + [x];
      todo := todo - {x};
    }
  }

  method LeastHeat(s: set<Heat>) returns (x: Heat)
    requires s != {}
    ensures x in s && forall y :: y in s && y != x ==> Before(x, y)
  {
    x :| x in s;
    var todo := s - {x};
    while todo != {}
      invariant todo <= s && x in s && x !in todo
      invariant forall y :: y in s && y !in todo && y != x ==> Before(x, y)
      decreases |todo|
    {
      var y :| y in todo;
      if Before(y, x) { x := y; }
      todo := todo - {y};
    }
  }

  lemma AppendInOrder(r: seq<Heat>, x: Heat)
    requires InOrder(r) && forall y :: y in r ==> Before(y, x)
    ensures InOrder(r + [x])
  {
    assert forall i :: 0 <= i < |r| ==> r[i] in r;
  }

  /** The heats of a file that lists them, sorted. */
  method SortHeats(s: set<Heat>) returns (r: seq<Heat>)
    ensures InOrder(r) && forall x :: x in r <==> x in s
  {
    r := [];
    var todo := s;
    while todo != {}
      invariant todo <= s && InOrder(r)
      invariant forall x :: x in r <==> x in s && x !in todo
      invariant forall x, y :: x in r && y in todo ==> Before(x, y)
      decreases |todo|
    {
      var x := LeastHeat(todo);
      AppendInOrder(r, x);
      r := r + [x];
      todo := todo - {x};
    }
  }

  /** The running order of the loaded meet: of its start list when it has one, else of the
      heats a file without one lists. */
  method HeatOrder(startList: map<int, set<int>>, listed: set<Heat>) returns (order: seq<Heat>)
    ensures InOrder(order)
    ensures forall h :: h in order <==>
      if startList != map[] then h.event in startList && h.heat in startList[h.event] else h in listed
  {
    if startList == map[] {
      order := SortHeats(listed);
    } else {
      order := StartListOrder(startList);
    }
  }

  /** Every heat of a start list, by event and then by heat. */
  method StartListOrder(startList: map<int, set<int>>) returns (order: seq<Heat>)
    ensures InOrder(order)
    ensures forall h :: h in order <==> h.event in startList && h.heat in startList[h.event]
  {
    var events := SortNumbers(startList.Keys);
    order := [];
    for i := 0 to |events|
      invariant InOrder(order)
      invariant forall h :: h in order <==> h.event in startList && h.event in events[..i] && h.heat in startList[h.event]
    {
      assert events[i] in events;
      var heats := SortNumbers(startList[events[i]]);
      var more := seq(|heats|, k requires 0 <= k < |heats| => Heat(events[i], heats[k]));
      Joined(order, more, events, i, heats);
      assert events[..i + 1] == events[..i] + [events[i]];
      forall h
        ensures h in more <==> h.event == events[i] && h.heat in heats
      {
        if h.event == events[i] && h.heat in heats {
          var k :| 0 <= k < |heats| && heats[k] == h.heat;
          assert more[k] == h;
        }
      }
      forall h
        ensures h in order + more <==> h.event in startList && h.event in events[..i + 1] && h.heat in startList[h.event]
      {
        assert h in order + more <==> h in order || h in more;
        assert h.event in events[..i + 1] <==> h.event in events[..i] || h.event == events[i];
      }
      order := order + more;
    }
    assert events[..|events|] == events;
  }

  lemma Joined(order: seq<Heat>, more: seq<Heat>, events: seq<int>, i: nat, heats: seq<int>)
    requires InOrder(order) && Ascending(events) && i < |events| && Ascending(heats)
    requires forall h :: h in order ==> h.event in events[..i]
    requires |more| == |heats| && forall k :: 0 <= k < |more| ==> more[k] == Heat(events[i], heats[k])
    ensures InOrder(order + more)
  {
    forall a, b | 0 <= a < b < |order + more|
      ensures Before((order + more)[a], (order + more)[b])
    {
      if a < |order| <= b {
        assert order[a] in order;
        var e :| 0 <= e < i && events[..i][e] == order[a].event;
        assert events[e] < events[i];
      }
    }
  }

  /** Where a heat first stands in the order. */
  function Index(order: seq<Heat>, h: Heat): (i: Option<nat>)
    ensures i.Some? ==> i.value < |order| && order[i.value] == h && h !in order[..i.value]
    ensures i.None? ==> h !in order
  {
    if order == [] then None
    else if order[0] == h then Some(0)
    else
      var rest := Index(order[1..], h);
      assert order == [order[0]] + order[1..];
      if rest.Some? then
        assert order[..rest.value + 1] == [order[0]] + order[1..][..rest.value];
        Some(rest.value + 1)
      else None
  }

  /** The heat some places along, or None: do not move. */
  function Step(order: seq<Heat>, h: Heat, delta: int): Option<Heat> {
    if order == [] then None
    else
      var i := Index(order, h);
      if i.None? then Some(if delta > 0 then order[0] else order[|order| - 1])
      else if 0 <= i.value + delta < |order| then Some(order[i.value + delta]) else None
  }

  lemma InTake(order: seq<Heat>, n: nat, i: nat)
    requires i < n <= |order|
    ensures order[i] in order[..n]
  {
    assert order[..n][i] == order[i];
  }

  lemma IndexOf(order: seq<Heat>, i: nat)
    requires InOrder(order) && i < |order|
    ensures Index(order, order[i]) == Some(i)
  {
    var at := Index(order, order[i]).value;
    if at > i { InTake(order, at, i); }
  }

  /** One step back undoes one step on, and the other way about, for heats of the meet. */
  lemma StepsUndo(order: seq<Heat>, a: Heat, b: Heat)
    requires InOrder(order) && a in order && b in order
    ensures Step(order, a, 1) == Some(b) <==> Step(order, b, -1) == Some(a)
  {
    var i :| 0 <= i < |order| && order[i] == a;
    var j :| 0 <= j < |order| && order[j] == b;
    IndexOf(order, i);
    IndexOf(order, j);
  }

  /** A step on moves to the very next heat of the meet, and stays only at the last. */
  lemma StepIsNext(order: seq<Heat>, a: Heat)
    requires InOrder(order) && a in order
    ensures var b := Step(order, a, 1);
      if b.Some? then b.value in order && Before(a, b.value)
        && forall h :: h in order && Before(a, h) && h != b.value ==> Before(b.value, h)
      else forall h :: h in order ==> !Before(a, h)
  {
    var i :| 0 <= i < |order| && order[i] == a;
    IndexOf(order, i);
    forall h | h in order && Before(a, h)
      ensures i + 1 < |order| && (h == order[i + 1] || Before(order[i + 1], h))
    {
      var k :| 0 <= k < |order| && order[k] == h;
    }
  }

  /** Pressing Next from a heat the meet does not have. */
  function Walk(order: seq<Heat>, start: Heat, presses: nat): Heat {
    if presses == 0 then start
    else
      var h := Walk(order, start, presses - 1);
      var next := Step(order, h, 1);
      if next.Some? then next.value else h
  }

  /** From there Next visits every heat in running order, once each, and rests on the
      last. */
  lemma {:induction false} NextVisitsAll(order: seq<Heat>, start: Heat, n: nat)
    requires InOrder(order) && order != [] && start !in order && n > 0
    ensures Walk(order, start, n) == order[if n <= |order| then n - 1 else |order| - 1]
  {
    if n == 1 {
      assert Walk(order, start, 0) == start;
    } else {
      NextVisitsAll(order, start, n - 1);
      IndexOf(order, if n - 1 <= |order| then n - 2 else |order| - 1);
    }
  }

  /** From there Previous goes to the last heat instead, and a meet with none goes nowhere. */
  lemma PreviousStartsAtLast(order: seq<Heat>, start: Heat)
    requires InOrder(order) && start !in order
    ensures order == [] <==> Step(order, start, -1).None?
    ensures order != [] ==> var h := Step(order, start, -1).value;
      h in order && forall o :: o in order && o != h ==> Before(o, h)
  {
  }

  /** A step past either end stays. */
  lemma StepsEndAtEnds(order: seq<Heat>, h: Heat, delta: int)
    requires InOrder(order) && h in order
    ensures forall x :: Step(order, h, delta) == Some(x) ==>
      x in order && (delta > 0 ==> Before(h, x)) && (delta < 0 ==> Before(x, h)) && (delta == 0 ==> x == h)
  {
    var i :| 0 <= i < |order| && order[i] == h;
    IndexOf(order, i);
  }
}
