/**
 What becomes of every item a producer is asked to send. `produce` accepts all of them; `try_produce`
 accepts exactly those it is offered while the ring is not full, and drops the others.
 */
module RingOffers {
  import opened RingProtocol
  import opened RingInvariant
  import opened RingSafety

  /** Accepted items that have not been recycled fill the ring. */
  predicate Full(c: Config, s: State) { |s.log| - Freed(s) == c.capacity }

  /** Whether the item that thread t offers with this action ought to be accepted; empty if it offers none. */
  function Outcome(c: Config, s: State, a: Action, t: nat): seq<bool> {
    if a == FetchAdd(t) then [true]
    else if a == TryTest(t) then [!Full(c, s)]
    else []
  }

  /** The same for all offers of thread t in a run, in order. */
  ghost function Outcomes(c: Config, s: State, actions: seq<Action>, t: nat): seq<bool>
    requires Shaped(c, s)
    decreases |actions|
  {
    if actions == [] || Step(c, s, actions[0]).None? then []
    else
      StepKeepsShape(c, s, actions[0]);
      Outcome(c, s, actions[0], t) + Outcomes(c, Step(c, s, actions[0]).value, actions[1..], t)
  }

  /** The items whose flag is set. */
  function Select(items: seq<Item>, flags: seq<bool>): seq<Item>
    requires |items| == |flags|
  {
    if items == [] then [] else (if flags[0] then [items[0]] else []) + Select(items[1..], flags[1..])
  }

  /** The positions of the flags that are set, each raised by `from`. */
  function Picks(flags: seq<bool>, from: nat): seq<nat> {
    if flags == [] then [] else (if flags[0] then [from] else []) + Picks(flags[1..], from + 1)
  }

  /** They are strictly increasing and are exactly the set positions. */
  lemma {:induction false} PicksAreTheSetFlags(flags: seq<bool>, from: nat)
    ensures forall j, k | 0 <= j < k < |Picks(flags, from)| :: Picks(flags, from)[j] < Picks(flags, from)[k]
    ensures forall i :: i in Picks(flags, from) <==> from <= i < from + |flags| && flags[i - from]
  {
    if flags != [] {
      var rest := Picks(flags[1..], from + 1);
      PicksAreTheSetFlags(flags[1..], from + 1);
      forall k | 0 <= k < |rest| ensures rest[k] > from { assert rest[k] in rest; }
    }
  }

  lemma {:induction false} SelectPicks(items: seq<Item>, flags: seq<bool>, all: seq<Item>, from: nat)
    requires |items| == |flags| && from + |items| <= |all| && items == all[from..from + |items|]
    ensures |Select(items, flags)| == |Picks(flags, from)|
    ensures forall j | 0 <= j < |Picks(flags, from)| ::
              0 <= Picks(flags, from)[j] < |all| && Select(items, flags)[j] == all[Picks(flags, from)[j]]
  {
    if items != [] { SelectPicks(items[1..], flags[1..], all, from + 1); }
  }

  lemma {:induction false} SelectOfSum(a: seq<Item>, b: seq<Item>, f: seq<bool>, g: seq<bool>)
    requires |a| == |f| && |b| == |g|
    ensures Select(a + b, f + g) == Select(a, f) + Select(b, g)
  {
    if a == [] {
      assert a + b == b && f + g == g;
    } else {
      SelectOfSum(a[1..], b, f[1..], g);
      assert (a + b)[1..] == a[1..] + b && (f + g)[1..] == f[1..] + g;
    }
  }

  /** The item a thread has accepted and not counted as sent yet. */
  function InHand(pc: ProducerPc): seq<Item> { if pc.Cleared? then [pc.item] else [] }

  /** Everything accepted from a thread, in order. */
  function AcceptedFrom(p: Producer): seq<Item> { p.sent + InHand(p.pc) }

  /** Between p and p' the offers at the front of p's list had these outcomes. */
  ghost predicate Settled(p: Producer, p': Producer, outcomes: seq<bool>) {
    && |outcomes| <= |p.todo| && p'.todo == p.todo[|outcomes|..]
    && AcceptedFrom(p') == AcceptedFrom(p) + Select(p.todo[..|outcomes|], outcomes)
  }

  lemma StepSettles(c: Config, s: State, a: Action, t: nat)
    requires Inv(c, s) && t < |s.producers| && Step(c, s, a).Some?
    ensures t < |Step(c, s, a).value.producers|
            && Settled(s.producers[t], Step(c, s, a).value.producers[t], Outcome(c, s, a, t))
  {
    if a == TryTest(t) { TryRefusesIffFull(c, s); }
    if a == TryTest(t) || a == FetchAdd(t) {
      var first := s.producers[t].todo[..1];
      assert |first| == 1 && first[1..] == [];
    }
  }

  lemma SettledJoin(p: Producer, m: Producer, p': Producer, first: seq<bool>, rest: seq<bool>)
    requires Settled(p, m, first) && Settled(m, p', rest)
    ensures Settled(p, p', first + rest)
  {
    var both := first + rest;
    assert p.todo[..|both|] == p.todo[..|first|] + m.todo[..|rest|];
    SelectOfSum(p.todo[..|first|], m.todo[..|rest|], first, rest);
  }

  lemma SettledFromFront(c: Config, s: State, a: Action, p': Producer, rest: seq<bool>, t: nat)
    requires Inv(c, s) && t < |s.producers| && Step(c, s, a).Some? && t < |Step(c, s, a).value.producers|
    requires Settled(Step(c, s, a).value.producers[t], p', rest)
    ensures Settled(s.producers[t], p', Outcome(c, s, a, t) + rest)
  {
    StepSettles(c, s, a, t);
    SettledJoin(s.producers[t], Step(c, s, a).value.producers[t], p', Outcome(c, s, a, t), rest);
  }

  lemma NothingSettled(p: Producer)
    ensures Settled(p, p, [])
  {
    assert p.todo[0..] == p.todo && AcceptedFrom(p) + [] == AcceptedFrom(p);
  }

  lemma {:induction false} RunSettles(c: Config, s: State, actions: seq<Action>, s': State, t: nat)
    requires Inv(c, s) && t < |s.producers| && Reaches(c, s, actions, s')
    ensures |s'.producers| == |s.producers|
    ensures Settled(s.producers[t], s'.producers[t], Outcomes(c, s, actions, t))
    decreases |actions|
  {
    if actions == [] {
      NothingSettled(s.producers[t]);
    } else {
      var m := Step(c, s, actions[0]).value;
      StepKeepsInv(c, s, actions[0]);
      StepClaimsAtMostOne(c, s, actions[0]);
      RunSettles(c, m, actions[1..], s', t);
      SettledFromFront(c, s, actions[0], s'.producers[t], Outcomes(c, m, actions[1..], t), t);
    }
  }

  /** What thread t of s has accepted, against what it was to send and what ought to have become of each offer. */
  ghost predicate AcceptsExactly(todo: seq<Item>, outcomes: seq<bool>, p: Producer) {
    && |outcomes| <= |todo| && p.todo == todo[|outcomes|..]
    && |AcceptedFrom(p)| == |Picks(outcomes, 0)|
    && forall j | 0 <= j < |Picks(outcomes, 0)| ::
         0 <= Picks(outcomes, 0)[j] < |todo| && AcceptedFrom(p)[j] == todo[Picks(outcomes, 0)[j]]
  }

  /** In every run each producer has accepted, in order and unchanged, exactly the items offered while the
      ring was not full, and with blocking `produce` all of them. */
  lemma EveryOfferIsSettled(c: Config, init: State, actions: seq<Action>, s: State, t: nat)
    requires Init(c, init) && c.Unbounded() && c.capacity >= 2 && t < |init.producers|
    requires Reaches(c, init, actions, s)
    ensures |s.producers| == |init.producers|
    ensures AcceptsExactly(init.producers[t].todo, Outcomes(c, init, actions, t), s.producers[t])
    ensures var todo, o := init.producers[t].todo, Outcomes(c, init, actions, t);
            AcceptedFrom(s.producers[t]) == Select(todo[..|o|], o)
  {
    InitEstablishesInv(c, init);
    RunSettles(c, init, actions, s, t);
    var todo, o := init.producers[t].todo, Outcomes(c, init, actions, t);
    assert AcceptedFrom(init.producers[t]) == [];
    SelectPicks(todo[..|o|], o, todo, 0);
  }
}
