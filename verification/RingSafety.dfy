/**
 What every interleaving of producers and consumer guarantees: delivery in claim order,
 each producer's items in its own order, and exclusive access to a slot's payload.
 */
module RingSafety {
  import opened Arithmetic
  import opened RingProtocol
  import opened RingInvariant

  lemma {:induction false} RunKeepsInv(c: Config, s: State, actions: seq<Action>, s': State)
    requires Inv(c, s) && Reaches(c, s, actions, s')
    ensures Inv(c, s')
    decreases |actions|
  {
    if actions != [] {
      StepKeepsInv(c, s, actions[0]);
      RunKeepsInv(c, Step(c, s, actions[0]).value, actions[1..], s');
    }
  }

  /** The log holds, for every thread, the items it was asked to send, in call order. */
  ghost predicate LogMatchesSent(s: State) {
    && (forall p | 0 <= p < |s.log| :: s.log[p].owner < |s.producers|)
    && forall t | 0 <= t < |s.producers| :: ItemsOf(s.log, t) == s.producers[t].sent
  }

  predicate IsTry(a: Action) { a.TryTest? || a.TryFetchAdd? }

  /** What every step keeps of a producer that does not use try_produce: what it sent and has yet to send. */
  ghost predicate SameProgram(s: State, s': State) {
    |s'.producers| == |s.producers| && forall t | 0 <= t < |s.producers| ::
      s'.producers[t].sent + s'.producers[t].todo == s.producers[t].sent + s.producers[t].todo
  }

  lemma StepKeepsProgram(c: Config, s: State, a: Action)
    requires Shaped(c, s) && Step(c, s, a).Some? && !IsTry(a)
    ensures SameProgram(s, Step(c, s, a).value)
  {
  }

  /** A step claims nothing, or one position for the item its thread has just sent. */
  ghost predicate ClaimsAtMostOne(s: State, s': State) {
    && |s'.producers| == |s.producers|
    && (|| (s'.log == s.log && forall t | 0 <= t < |s.producers| :: s'.producers[t].sent == s.producers[t].sent)
        || exists u: nat, item ::
             && u < |s.producers| && s'.log == s.log + [Claim(u, item)]
             && s'.producers[u].sent == s.producers[u].sent + [item]
             && forall t | 0 <= t < |s.producers| && t != u :: s'.producers[t].sent == s.producers[t].sent)
  }

  lemma StepClaimsAtMostOne(c: Config, s: State, a: Action)
    requires Shaped(c, s) && Step(c, s, a).Some?
    ensures ClaimsAtMostOne(s, Step(c, s, a).value)
  {
  }

  lemma ItemsOneMore(log: seq<Claim>, claim: Claim, t: nat)
    ensures ItemsOf(log + [claim], t) == ItemsOf(log, t) + if claim.owner == t then [claim.item] else []
  {
    assert (log + [claim])[..|log|] == log;
  }

  /** One step keeps the log in line with `sent` and only appends to it. */
  lemma StepKeepsHistory(c: Config, s: State, a: Action)
    requires Shaped(c, s) && LogMatchesSent(s) && Step(c, s, a).Some?
    ensures var s' := Step(c, s, a).value; LogMatchesSent(s') && s.log <= s'.log && |s'.producers| == |s.producers|
  {
    StepClaimsAtMostOne(c, s, a);
    ClaimKeepsHistory(s, Step(c, s, a).value);
  }

  lemma ClaimKeepsHistory(s: State, s': State)
    requires LogMatchesSent(s) && ClaimsAtMostOne(s, s')
    ensures LogMatchesSent(s') && s.log <= s'.log
  {
    if s'.log != s.log {
      var claim := s'.log[|s'.log| - 1];
      assert s'.log == s.log + [claim];
      forall t | 0 <= t < |s.producers| ensures ItemsOf(s'.log, t) == s'.producers[t].sent {
        ItemsOneMore(s.log, claim, t);
      }
    }
  }

  lemma {:induction false} RunKeepsHistory(c: Config, s: State, actions: seq<Action>, s': State)
    requires Shaped(c, s) && LogMatchesSent(s) && Reaches(c, s, actions, s')
    ensures LogMatchesSent(s') && s.log <= s'.log && |s'.producers| == |s.producers|
    ensures (forall a | a in actions :: !IsTry(a)) ==> SameProgram(s, s')
    decreases |actions|
  {
    if actions != [] {
      StepKeepsHistory(c, s, actions[0]);
      if !IsTry(actions[0]) { StepKeepsProgram(c, s, actions[0]); }
      StepKeepsShape(c, s, actions[0]);
      RunKeepsHistory(c, Step(c, s, actions[0]).value, actions[1..], s');
    }
  }

  lemma {:induction false} ItemsOfPrefix(log: seq<Claim>, r: nat, t: nat)
    requires r <= |log|
    ensures ItemsOf(log[..r], t) <= ItemsOf(log, t)
  {
    if r < |log| {
      var front := log[..|log| - 1];
      ItemsOfPrefix(front, r, t);
      assert front[..r] == log[..r];
    } else {
      assert log[..r] == log;
    }
  }

  /**
   Whatever the interleaving, consume has returned exactly the items of the first positions in
   claim order, untorn; restricted to one producer they are a prefix of what that producer sent,
   and with blocking `produce` a prefix of its program.
   */
  lemma DeliveryInClaimOrder(c: Config, init: State, actions: seq<Action>, s: State)
    requires Init(c, init) && c.Unbounded() && c.capacity >= 2
    requires Reaches(c, init, actions, s)
    ensures |s.out| <= |s.log| && s.out == Items(s.log[..|s.out|])
    ensures |s.producers| == |init.producers|
    ensures forall t | 0 <= t < |s.producers| :: ItemsOf(s.log[..|s.out|], t) <= s.producers[t].sent
    ensures (forall a | a in actions :: !IsTry(a)) ==>
              forall t | 0 <= t < |s.producers| ::
                && ItemsOf(s.log[..|s.out|], t) <= init.producers[t].todo
                && s.producers[t].sent + s.producers[t].todo == init.producers[t].todo
  {
    InitEstablishesInv(c, init);
    RunKeepsInv(c, init, actions, s);
    RunKeepsHistory(c, init, actions, s);
    forall t | 0 <= t < |s.producers|
      ensures ItemsOf(s.log[..|s.out|], t) <= s.producers[t].sent
    {
      ItemsOfPrefix(s.log, |s.out|, t);
    }
    if forall a | a in actions :: !IsTry(a) {
      forall t | 0 <= t < |s.producers|
        ensures s.producers[t].sent + s.producers[t].todo == init.producers[t].todo
      {
        assert init.producers[t].sent + init.producers[t].todo == init.producers[t].todo;
      }
    }
  }

  /** A thread that has passed its sequence test on slot i and not yet stored the next sequence; for
      try_produce this includes the time between the test and the claim. */
  predicate ProducerInside(c: Config, s: State, t: nat, i: nat)
    requires c.capacity > 0 && t < |s.producers|
  {
    (s.producers[t].pc.Copying? || s.producers[t].pc.Cleared?) && c.Slot(s.producers[t].pc.pos) == i
  }

  predicate ConsumerInside(c: Config, s: State, i: nat)
    requires c.capacity > 0
  {
    s.consumer.Reading? && c.Slot(s.readIndex) == i
  }

  /** At most one thread is between its test and its store on any slot. */
  ghost predicate OnePerSlot(c: Config, s: State)
    requires c.capacity > 0
  {
    forall t, u, i | 0 <= t < |s.producers| && 0 <= u < |s.producers| && 0 <= i < c.capacity && ProducerInside(c, s, t, i) ::
      (ProducerInside(c, s, u, i) ==> t == u) && !ConsumerInside(c, s, i)
  }

  lemma ClearedSlotIsNotRead(c: Config, s: State, t: nat)
    requires Inv(c, s) && t < |s.producers| && s.producers[t].pc.Cleared?
    ensures |s.producers| == 1
    ensures s.consumer.Reading? ==> c.Slot(s.readIndex) != c.Slot(s.producers[t].pc.pos)
  {
    assert ProducerOk(c, s, t);
    if s.consumer.Reading? && c.Slot(s.readIndex) == c.Slot(s.producers[t].pc.pos) {
      SlotInjective(c.capacity, s.readIndex, s.producers[t].pc.pos);
    }
  }

  lemma InvGivesOnePerSlot(c: Config, s: State)
    requires Inv(c, s)
    ensures OnePerSlot(c, s)
  {
    forall t, u, i | 0 <= t < |s.producers| && 0 <= u < |s.producers| && 0 <= i < c.capacity && ProducerInside(c, s, t, i)
      ensures (ProducerInside(c, s, u, i) ==> t == u) && !ConsumerInside(c, s, i)
    {
      if s.producers[t].pc.Cleared? {
        ClearedSlotIsNotRead(c, s, t);
      } else {
        OnlyHolderOfSlot(c, s, t);
      }
    }
  }

  /** In every reachable state, with try_produce or produce, at most one thread is between its test and its
      store on a slot, so payload copies of one slot never overlap. */
  lemma OneThreadPerSlot(c: Config, init: State, actions: seq<Action>, s: State)
    requires Init(c, init) && c.Unbounded() && c.capacity >= 2
    requires Reaches(c, init, actions, s)
    ensures OnePerSlot(c, s)
  {
    InitEstablishesInv(c, init);
    RunKeepsInv(c, init, actions, s);
    InvGivesOnePerSlot(c, s);
  }

  /** With a lone producer, try_produce refuses exactly when `capacity` accepted items are not yet recycled. */
  lemma TryRefusesIffFull(c: Config, s: State)
    requires Inv(c, s) && |s.producers| == 1
    requires s.producers[0].pc == Idle && s.producers[0].todo != []
    ensures var s' := TryTestStep(c, s, 0).value;
      && (s'.producers[0].pc == Idle <==> |s.log| - Freed(s) == c.capacity)
      && (s'.producers[0].pc.Cleared? <==> |s.log| - Freed(s) < c.capacity)
      && |s.log| - Freed(s) <= c.capacity
  {
    assert |s.log| > 0 ==> !Owned(s, |s.log| - 1);
    TestFailsIffFull(c, s);
  }
}
