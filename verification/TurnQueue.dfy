/**
 The ring as the hot loop sees it: bursts arrive, at most one tick leaves per turn. Which ticks are
 accepted, and how the feed must be paced for none to be dropped.
 */
module TurnQueues {
  import opened OrderBooks

  /** What the world does around one turn of the hot loop: ticks the feed offers, the clock, fopen. */
  datatype Turn = Turn(arrivals: seq<Tick>, now: nat, opens: bool)

  /** What the ring has accepted so far, and how much of it has been drained. */
  datatype Queue = Queue(accepted: seq<Tick>, drained: nat)

  /** Of a burst the prefix that fits is accepted, the rest is dropped. */
  function Accepted(q: Queue, capacity: nat, burst: seq<Tick>): seq<Tick> {
    var waiting := |q.accepted| - q.drained;
    q.accepted + if waiting + |burst| <= capacity then burst
                 else if waiting <= capacity then burst[..capacity - waiting] else []
  }

  lemma AcceptedOneMore(q: Queue, capacity: nat, burst: seq<Tick>, i: nat)
    requires i < |burst| && q.drained <= |q.accepted| <= q.drained + capacity
    ensures Accepted(q, capacity, burst[..i + 1])
            == Accepted(Queue(Accepted(q, capacity, burst[..i]), q.drained), capacity, [burst[i]])
  {
    var room := capacity - (|q.accepted| - q.drained);
    assert i >= room ==> burst[..i + 1][..room] == burst[..room] && burst[..i][..room] == burst[..room];
  }

  /** A turn of the hot loop: arrivals, then at most one tick is drained. */
  function AfterTurn(q: Queue, capacity: nat, burst: seq<Tick>): Queue {
    var accepted := Accepted(q, capacity, burst);
    Queue(accepted, if q.drained < |accepted| then q.drained + 1 else q.drained)
  }

  function AfterTurns(q: Queue, capacity: nat, turns: seq<Turn>): Queue {
    if turns == [] then q
    else AfterTurn(AfterTurns(q, capacity, turns[..|turns| - 1]), capacity, turns[|turns| - 1].arrivals)
  }

  lemma OneMoreTurn(q: Queue, capacity: nat, turns: seq<Turn>, i: nat)
    requires i < |turns|
    ensures AfterTurns(q, capacity, turns[..i + 1])
            == AfterTurn(AfterTurns(q, capacity, turns[..i]), capacity, turns[i].arrivals)
  {
    assert turns[..i + 1][..i] == turns[..i];
  }

  /** All ticks that arrive during the turns. */
  function Arrivals(turns: seq<Turn>): seq<Tick> {
    if turns == [] then [] else Arrivals(turns[..|turns| - 1]) + turns[|turns| - 1].arrivals
  }

  /** Ticks arriving in turns i..j-1. */
  function Inflow(turns: seq<Turn>, i: nat, j: nat): nat
    requires i <= j <= |turns|
  {
    |Arrivals(turns[i..j])|
  }

  /** Turns i..j together bring at most capacity + (j - i) ticks. */
  predicate StretchFits(capacity: nat, turns: seq<Turn>, i: nat, j: nat)
    requires i <= j < |turns|
  {
    Inflow(turns, i, j + 1) <= capacity + (j - i)
  }

  /** No stretch of turns brings more than the ring holds beyond one tick per turn before its last. */
  ghost predicate Paced(capacity: nat, turns: seq<Turn>) {
    forall i, j | 0 <= i <= j < |turns| :: StretchFits(capacity, turns, i, j)
  }

  lemma InflowOneMore(turns: seq<Turn>, i: nat, j: nat)
    requires i <= j < |turns|
    ensures Inflow(turns, i, j + 1) == Inflow(turns, i, j) + |turns[j].arrivals|
  {
    assert turns[i..j + 1][..j - i] == turns[i..j];
  }

  function Waiting(q: Queue): int { |q.accepted| - q.drained }

  ghost predicate AllAccepted(q: Queue, capacity: nat, turns: seq<Turn>, n: nat)
    requires n <= |turns|
  {
    AfterTurns(q, capacity, turns[..n]).accepted == q.accepted + Arrivals(turns[..n])
  }

  lemma AcceptedPrefix(q: Queue, capacity: nat, burst: seq<Tick>)
    ensures |Accepted(q, capacity, burst)| <= |q.accepted| + |burst|
    ensures |Accepted(q, capacity, burst)| == |q.accepted| + |burst| ==> Accepted(q, capacity, burst) == q.accepted + burst
    ensures Waiting(q) <= capacity ==>
              (Accepted(q, capacity, burst) == q.accepted + burst <==> Waiting(q) + |burst| <= capacity)
  {
  }

  lemma {:induction false} NeverMoreThanArrived(q: Queue, capacity: nat, turns: seq<Turn>, n: nat)
    requires n <= |turns|
    ensures |AfterTurns(q, capacity, turns[..n]).accepted| <= |q.accepted| + |Arrivals(turns[..n])|
  {
    if n > 0 {
      NeverMoreThanArrived(q, capacity, turns, n - 1);
      OneMoreTurn(q, capacity, turns, n - 1);
      AcceptedPrefix(AfterTurns(q, capacity, turns[..n - 1]), capacity, turns[n - 1].arrivals);
      assert turns[..n][..n - 1] == turns[..n - 1];
    }
  }

  /** What was accepted whole after n + 1 turns was accepted whole after n. */
  lemma EarlierAccepted(q: Queue, capacity: nat, turns: seq<Turn>, n: nat)
    requires n < |turns| && AllAccepted(q, capacity, turns, n + 1)
    ensures AllAccepted(q, capacity, turns, n)
    ensures var m := AfterTurns(q, capacity, turns[..n]);
            Accepted(m, capacity, turns[n].arrivals) == m.accepted + turns[n].arrivals
  {
    var m := AfterTurns(q, capacity, turns[..n]);
    OneMoreTurn(q, capacity, turns, n);
    NeverMoreThanArrived(q, capacity, turns, n);
    AcceptedPrefix(m, capacity, turns[n].arrivals);
    assert turns[..n + 1][..n] == turns[..n];
    assert m.accepted == (m.accepted + turns[n].arrivals)[..|m.accepted|];
    assert q.accepted + Arrivals(turns[..n]) == (q.accepted + Arrivals(turns[..n + 1]))[..|m.accepted|];
  }

  lemma OneMoreAccepted(q: Queue, capacity: nat, turns: seq<Turn>, n: nat)
    requires n < |turns| && AllAccepted(q, capacity, turns, n)
    requires var m := AfterTurns(q, capacity, turns[..n]);
             Accepted(m, capacity, turns[n].arrivals) == m.accepted + turns[n].arrivals
    ensures AllAccepted(q, capacity, turns, n + 1)
  {
    OneMoreTurn(q, capacity, turns, n);
    assert turns[..n + 1][..n] == turns[..n];
    assert q.accepted + Arrivals(turns[..n]) + turns[n].arrivals
           == q.accepted + (Arrivals(turns[..n]) + turns[n].arrivals);
  }

  /** While nothing is dropped, the ring holds the largest excess of any stretch ending now. */
  lemma {:induction false} WaitingIsLargestExcess(q: Queue, capacity: nat, turns: seq<Turn>, n: nat) returns (from: nat)
    requires Waiting(q) == 0 && n <= |turns| && AllAccepted(q, capacity, turns, n)
    ensures var w := Waiting(AfterTurns(q, capacity, turns[..n]));
            && 0 <= w <= capacity
            && from <= n && w == Inflow(turns, from, n) - (n - from)
            && forall i: nat | i <= n :: Inflow(turns, i, n) - (n - i) <= w
  {
    if n == 0 {
      from := 0;
      assert turns[..0] == [] && turns[0..0] == [];
    } else {
      EarlierAccepted(q, capacity, turns, n - 1);
      from := WaitingIsLargestExcess(q, capacity, turns, n - 1);
      var m := AfterTurns(q, capacity, turns[..n - 1]);
      OneMoreTurn(q, capacity, turns, n - 1);
      AcceptedPrefix(m, capacity, turns[n - 1].arrivals);
      forall i: nat | i < n ensures Inflow(turns, i, n) == Inflow(turns, i, n - 1) + |turns[n - 1].arrivals| {
        InflowOneMore(turns, i, n - 1);
      }
      assert turns[n..n] == [] && Inflow(turns, n, n) == 0;
      if Waiting(m) + |turns[n - 1].arrivals| == 0 { from := n; }
    }
  }

  lemma NextTurnAcceptedIff(q: Queue, capacity: nat, turns: seq<Turn>, n: nat)
    requires Waiting(q) == 0 && n < |turns| && AllAccepted(q, capacity, turns, n)
    ensures AllAccepted(q, capacity, turns, n + 1)
            <==> forall i: nat | i <= n :: StretchFits(capacity, turns, i, n)
  {
    var from := WaitingIsLargestExcess(q, capacity, turns, n);
    var m := AfterTurns(q, capacity, turns[..n]);
    AcceptedPrefix(m, capacity, turns[n].arrivals);
    forall i: nat | i <= n
      ensures StretchFits(capacity, turns, i, n) <==> Inflow(turns, i, n) - (n - i) + |turns[n].arrivals| <= capacity
    {
      InflowOneMore(turns, i, n);
    }
    assert StretchFits(capacity, turns, from, n) <==> Waiting(m) + |turns[n].arrivals| <= capacity;
    if AllAccepted(q, capacity, turns, n + 1) { EarlierAccepted(q, capacity, turns, n); }
    if Waiting(m) + |turns[n].arrivals| <= capacity { OneMoreAccepted(q, capacity, turns, n); }
  }

  lemma {:induction false} AcceptedIffPacedUpTo(q: Queue, capacity: nat, turns: seq<Turn>, n: nat)
    requires Waiting(q) == 0 && n <= |turns|
    ensures AllAccepted(q, capacity, turns, n)
            <==> forall i, j | 0 <= i <= j < n :: StretchFits(capacity, turns, i, j)
  {
    if n == 0 {
      assert turns[..0] == [] && q.accepted + [] == q.accepted;
    } else {
      AcceptedIffPacedUpTo(q, capacity, turns, n - 1);
      if AllAccepted(q, capacity, turns, n) { EarlierAccepted(q, capacity, turns, n - 1); }
      if AllAccepted(q, capacity, turns, n - 1) { NextTurnAcceptedIff(q, capacity, turns, n - 1); }
    }
  }

  /** From an empty ring, no tick is dropped exactly if every stretch of turns i..j brings at most
      capacity + (j - i) ticks. */
  lemma NothingDroppedIffPaced(q: Queue, capacity: nat, turns: seq<Turn>)
    requires |q.accepted| == q.drained
    ensures AfterTurns(q, capacity, turns).accepted == q.accepted + Arrivals(turns) <==> Paced(capacity, turns)
  {
    AcceptedIffPacedUpTo(q, capacity, turns, |turns|);
    assert turns[..|turns|] == turns;
  }
}
