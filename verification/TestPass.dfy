/** A test meet's pass over its heats: the official results follow one or two heats
    behind the pool. */
module TestPass {
  type Key = (int, int)

  /** The official results so far, by event and heat. */
  type Book = map<Key, string>

  /** How many swum heats are left waiting: all but the last `lag` are validated. */
  function Ready(swum: nat, lag: nat): nat {
    if swum > lag then swum - lag else 0
  }

  /** The book with each of these heats in it, `official` drawing what it lacks. */
  function Entered(book: Book, heats: seq<Key>, official: Key -> string): Book
    decreases |heats|
  {
    if heats == [] then book
    else
      var before := Entered(book, heats[..|heats| - 1], official);
      var heat := heats[|heats| - 1];
      if heat in before then before else before[heat := official(heat)]
  }

  /** Validate every swum heat but the last `lag`; whether one was added. */
  method Validate(book: Book, swum: seq<Key>, lag: nat, official: Key -> string) returns (r: Book, added: bool)
    ensures r == Entered(book, swum[..Ready(|swum|, lag)], official)
    ensures added <==> book.Keys < r.Keys
    ensures !added ==> r == book
  {
    r, added := book, false;
    var ready := swum[..Ready(|swum|, lag)];
    for i := 0 to |ready|
      invariant r == Entered(book, ready[..i], official)
      invariant book.Keys <= r.Keys && (added <==> book.Keys < r.Keys) && (!added ==> r == book)
    {
      assert ready[..i + 1][..i] == ready[..i];
      if ready[i] !in r {
        r := r[ready[i] := official(ready[i])];
        added := true;
        assert ready[i] in r.Keys && ready[i] !in book.Keys;
      }
    }
    assert ready[..|ready|] == ready;
  }

  /** After each heat of a pass: how many heats wait, and the results drawn. */
  datatype Round = Round(lag: nat, official: Key -> string)

  ghost predicate LagsDrawn(rounds: seq<Round>) {
    forall i :: 0 <= i < |rounds| ==> rounds[i].lag in {1, 2}
  }

  /** The book once the first heats, one a round, are swum and validated as drawn. */
  function Pass(heats: seq<Key>, rounds: seq<Round>): Book
    requires |rounds| <= |heats|
    decreases |rounds|
  {
    if rounds == [] then map[]
    else
      var k := |rounds|;
      Entered(Pass(heats, rounds[..k - 1]), heats[..Ready(k, rounds[k - 1].lag)], rounds[k - 1].official)
  }

  /** How far a pass has validated: the furthest any round so far reached. */
  function Reach(rounds: seq<Round>): nat
    decreases |rounds|
  {
    if rounds == [] then 0
    else
      var k := |rounds|;
      var before, now := Reach(rounds[..k - 1]), Ready(k, rounds[k - 1].lag);
      if now > before then now else before
  }

  ghost predicate Distinct(heats: seq<Key>) {
    forall i, j :: 0 <= i < j < |heats| ==> heats[i] != heats[j]
  }

  ghost function SetOf(heats: seq<Key>): set<Key> {
    set k | k in heats
  }

  lemma {:induction false} EnteredHolds(book: Book, heats: seq<Key>, official: Key -> string)
    ensures var r := Entered(book, heats, official);
      && r.Keys == book.Keys + SetOf(heats)
      && (forall k :: k in book ==> r[k] == book[k])
      && (forall k :: k in r && k !in book ==> r[k] == official(k))
    decreases |heats|
  {
    if heats != [] {
      var before, heat := heats[..|heats| - 1], heats[|heats| - 1];
      assert heats == before + [heat];
      EnteredHolds(book, before, official);
      assert SetOf(heats) == SetOf(before) + {heat};
    }
  }

  lemma {:induction false} ReachBounds(rounds: seq<Round>)
    requires LagsDrawn(rounds)
    ensures rounds != [] ==> Ready(|rounds|, 2) <= Reach(rounds) <= |rounds| - 1
    decreases |rounds|
  {
    if rounds != [] {
      var before := rounds[..|rounds| - 1];
      assert LagsDrawn(before);
      ReachBounds(before);
      assert rounds[|rounds| - 1].lag in {1, 2};
    }
  }

  lemma TakeGrows(heats: seq<Key>, n: nat, m: nat)
    requires n <= m <= |heats|
    ensures SetOf(heats[..n]) + SetOf(heats[..m]) == SetOf(heats[..m])
  {
    forall k | k in heats[..n]
      ensures k in heats[..m]
    {
      var i :| 0 <= i < n && heats[..n][i] == k;
      assert heats[..m][i] == k;
    }
  }

  /** After k heats of a pass the validated ones are exactly the first of them, all but
      the last one or two. */
  lemma {:induction false} ValidatedIsPrefix(heats: seq<Key>, rounds: seq<Round>)
    requires |rounds| <= |heats| && LagsDrawn(rounds)
    ensures Reach(rounds) <= |rounds|
    ensures Pass(heats, rounds).Keys == SetOf(heats[..Reach(rounds)])
    ensures rounds != [] ==> Ready(|rounds|, 2) <= Reach(rounds) <= |rounds| - 1
    decreases |rounds|
  {
    ReachBounds(rounds);
    if rounds != [] {
      var k := |rounds|;
      var before, now := Reach(rounds[..k - 1]), Ready(k, rounds[k - 1].lag);
      ValidatedIsPrefix(heats, rounds[..k - 1]);
      EnteredHolds(Pass(heats, rounds[..k - 1]), heats[..now], rounds[k - 1].official);
      if before <= now { TakeGrows(heats, before, now); } else { TakeGrows(heats, now, before); }
    }
  }

  /** A heat's results never change once validated, whatever is drawn later. */
  lemma {:induction false} ResultsStand(heats: seq<Key>, rounds: seq<Round>, more: seq<Round>, heat: Key)
    requires |rounds| + |more| <= |heats| && heat in Pass(heats, rounds)
    ensures heat in Pass(heats, rounds + more)
    ensures Pass(heats, rounds + more)[heat] == Pass(heats, rounds)[heat]
    decreases |more|
  {
    hide Entered;
    if more == [] {
      assert rounds + more == rounds;
    } else {
      var all, n := rounds + more, |more| - 1;
      assert all[..|all| - 1] == rounds + more[..n];
      ResultsStand(heats, rounds, more[..n], heat);
      var k := |all|;
      EnteredHolds(Pass(heats, all[..k - 1]), heats[..Ready(k, all[k - 1].lag)], all[k - 1].official);
    }
  }

  /** A round answers that it added a heat exactly when it took the prefix further. */
  lemma AddedMeansFurther(heats: seq<Key>, rounds: seq<Round>)
    requires 0 < |rounds| <= |heats| && LagsDrawn(rounds) && Distinct(heats)
    ensures Pass(heats, rounds).Keys != Pass(heats, rounds[..|rounds| - 1]).Keys
      <==> Reach(rounds) > Reach(rounds[..|rounds| - 1])
  {
    var k := |rounds|;
    var before := rounds[..k - 1];
    assert LagsDrawn(before);
    ValidatedIsPrefix(heats, before);
    ValidatedIsPrefix(heats, rounds);
    var n := Reach(before);
    if Reach(rounds) > n {
      assert heats[..Reach(rounds)][n] == heats[n] && heats[n] in SetOf(heats[..Reach(rounds)]);
      assert heats[n] !in heats[..n];
    }
  }

  /** The last book sent, none being the empty one a pass starts from. */
  function LastBook(sent: seq<Book>): Book {
    if sent == [] then map[] else sent[|sent| - 1]
  }

  /** Each book sent has more heats in it than the one before. */
  ghost predicate EachGrows(sent: seq<Book>) {
    forall j :: 0 <= j < |sent| ==> LastBook(sent[..j]).Keys < sent[j].Keys
  }

  ghost predicate ComesTo(heats: seq<Key>, rounds: seq<Round>, book: Book)
    requires |rounds| <= |heats|
  {
    exists k :: 0 <= k <= |rounds| && book == Pass(heats, rounds[..k])
  }

  /** The books sent are those the pass comes to, but for the empty one. */
  ghost predicate AllSent(heats: seq<Key>, rounds: seq<Round>, sent: seq<Book>)
    requires |rounds| <= |heats|
  {
    forall b :: b in sent <==> b != map[] && ComesTo(heats, rounds, b)
  }

  lemma SentOnce(sent: seq<Book>, book: Book)
    requires EachGrows(sent) && LastBook(sent).Keys < book.Keys
    ensures EachGrows(sent + [book])
  {
    var more := sent + [book];
    forall j | 0 <= j < |more|
      ensures LastBook(more[..j]).Keys < more[j].Keys
    {
      assert more[..j] == sent[..j] && sent[..|sent|] == sent;
    }
  }

  lemma SentAlong(heats: seq<Key>, rounds: seq<Round>, sent: seq<Book>)
    requires 0 < |rounds| <= |heats|
    requires var before := rounds[..|rounds| - 1];
      AllSent(heats, before, sent) && LastBook(sent) == Pass(heats, before)
    ensures var book := Pass(heats, rounds);
      && (book != map[] ==> AllSent(heats, rounds, sent + [book]))
      && (book == LastBook(sent) ==> AllSent(heats, rounds, sent))
  {
    hide Pass;
    var before, book := rounds[..|rounds| - 1], Pass(heats, rounds);
    assert rounds[..|rounds|] == rounds && before[..|before|] == before;
    assert forall k :: 0 <= k < |rounds| ==> rounds[..k] == before[..k];
    forall b
      ensures ComesTo(heats, rounds, b) <==> b == book || ComesTo(heats, before, b)
    {
      if b == book { assert b == Pass(heats, rounds[..|rounds|]); }
      if ComesTo(heats, before, b) {
        var k :| 0 <= k <= |before| && b == Pass(heats, before[..k]);
        assert b == Pass(heats, rounds[..k]);
      }
    }
    assert LastBook(sent) == Pass(heats, before[..|before|]);
  }

  lemma PassGoesOn(heats: seq<Key>, rounds: seq<Round>, at: nat)
    requires at < |rounds| <= |heats|
    ensures var lag := rounds[at].lag;
      && rounds[..at + 1][..at] == rounds[..at]
      && heats[..at + 1][..Ready(at + 1, lag)] == heats[..Ready(at + 1, lag)]
      && Pass(heats, rounds[..at + 1])
        == Entered(Pass(heats, rounds[..at]), heats[..Ready(at + 1, lag)], rounds[at].official)
  {
    assert rounds[..at + 1][..at] == rounds[..at];
    assert heats[..at + 1][..Ready(at + 1, rounds[at].lag)] == heats[..Ready(at + 1, rounds[at].lag)];
  }

  /** A whole pass: a heat swum, then what is ready validated. The books sent are exactly
      those the pass comes to, each with more heats in it than the one before. */
  method Swim(heats: seq<Key>, rounds: seq<Round>) returns (book: Book, sent: seq<Book>)
    requires |rounds| == |heats|
    ensures book == Pass(heats, rounds) == LastBook(sent)
    ensures AllSent(heats, rounds, sent) && EachGrows(sent)
  {
    hide Pass, Entered, EachGrows, AllSent;
    var swum := [];
    book, sent := map[], [];
    SentAtFirst(heats);
    for at := 0 to |heats|
      invariant swum == heats[..at]
      invariant book == Pass(heats, rounds[..at]) == LastBook(sent)
      invariant AllSent(heats, rounds[..at], sent) && EachGrows(sent)
    {
      swum := swum + [heats[at]];
      PassGoesOn(heats, rounds, at);
      SentAlong(heats, rounds[..at + 1], sent);
      var added;
      book, added := Validate(book, swum, rounds[at].lag, rounds[at].official);
      if added {
        SentOnce(sent, book);
        sent := sent + [book];
      }
    }
    assert rounds[..|rounds|] == rounds;
  }

  lemma SentAtFirst(heats: seq<Key>)
    ensures Pass(heats, []) == map[] && AllSent(heats, [], []) && EachGrows([])
  {
  }
}
