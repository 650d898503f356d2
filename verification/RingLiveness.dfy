/**
 The ring never deadlocks, and a bounded number of useful steps delivers a bounded workload.
 */
module RingLiveness {
  import opened RingProtocol
  import opened RingInvariant
  import opened RingSafety

  /** The thread named by `a` can act, and acting is more than one more turn of a spin loop. */
  ghost predicate Moves(c: Config, s: State, a: Action)
    requires Shaped(c, s)
  {
    Step(c, s, a).Some? && Step(c, s, a).value != s
  }

  /** While a claimed position is unconsumed, either the consumer or the owner of that position can move. */
  lemma OldestClaimCanAdvance(c: Config, s: State)
    requires Inv(c, s) && s.readIndex < |s.log|
    ensures Moves(c, s, TestReady) || Moves(c, s, LoadWord) || Moves(c, s, Recycle) || Moves(c, s, Advance)
            || var t := s.log[s.readIndex].owner;
               Moves(c, s, TestFree(t)) || Moves(c, s, StoreWord(t)) || Moves(c, s, Publish(t))
  {
    var r := s.readIndex;
    match s.consumer
    case Reading(got) =>
      if |got| < c.width {
        assert |LoadWordStep(c, s).value.consumer.got| == |got| + 1;
        assert Moves(c, s, LoadWord);
      } else {
        assert Moves(c, s, Recycle);
      }
    case Recycled(got) => assert Moves(c, s, Advance);
    case Waiting =>
      if Published(c, s, r) {
        assert Moves(c, s, TestReady);
      } else {
        assert Owned(s, r);
        var t := s.log[r].owner;
        assert ProducerOk(c, s, t);
        if s.producers[t].pc.Spinning? {
          assert TestFreeStep(c, s, t).value.producers[t].pc.Copying?;
          assert Moves(c, s, TestFree(t));
        } else if s.producers[t].pc.copied < c.width {
          assert StoreWordStep(c, s, t).value.producers[t].pc.copied == s.producers[t].pc.copied + 1;
          assert Moves(c, s, StoreWord(t));
        } else {
          assert PublishStep(c, s, t).value.producers[t].pc == Idle;
          assert Moves(c, s, Publish(t));
        }
      }
  }

  ghost predicate Finished(s: State) {
    && s.consumer == Waiting
    && s.readIndex == |s.log|
    && forall t | 0 <= t < |s.producers| :: s.producers[t].pc == Idle && s.producers[t].todo == []
  }

  /** Nothing can move exactly when every item has been offered and everything claimed was consumed. */
  lemma StuckIffFinished(c: Config, s: State)
    requires Inv(c, s)
    ensures (forall a :: !Moves(c, s, a)) <==> Finished(s)
  {
    if !Finished(s) {
      if s.readIndex < |s.log| {
        OldestClaimCanAdvance(c, s);
      } else {
        var t :| 0 <= t < |s.producers| && !(s.producers[t].pc == Idle && s.producers[t].todo == []);
        assert ProducerOk(c, s, t);
        if s.producers[t].pc == Idle {
          assert FetchAddStep(c, s, t).value.log != s.log;
          assert Moves(c, s, FetchAdd(t));
        } else {
          assert TryFetchAddStep(c, s, t).value.log != s.log;
          assert Moves(c, s, TryFetchAdd(t));
        }
      }
    } else {
      forall a ensures !Moves(c, s, a) {
        if a.TestReady? {
          assert s.sequence[c.Slot(s.readIndex)] == s.readIndex;
        }
      }
    }
  }

  /** n shares of k steps each. */
  function Shares(n: nat, k: nat): nat {
    if n == 0 then 0 else k + Shares(n - 1, k)
  }

  /** Steps a producer still has to take, an unclaimed item also counting the consumer's share. */
  function ProducerWork(c: Config, p: Producer): nat {
    Shares(|p.todo|, 2 * c.width + 6) +
    match p.pc
    case Idle => 0
    case Spinning(_, _) => c.width + 2
    case Cleared(_, _) => 2 * c.width + 5
    case Copying(_, _, k) => if k <= c.width then c.width - k + 1 else 0
  }

  function AllProducersWork(c: Config, ps: seq<Producer>): nat {
    if ps == [] then 0 else ProducerWork(c, ps[0]) + AllProducersWork(c, ps[1..])
  }

  lemma {:induction false} WorkOfOneChanges(c: Config, ps: seq<Producer>, t: nat, p: Producer)
    requires t < |ps|
    ensures AllProducersWork(c, ps[t := p]) == AllProducersWork(c, ps) - ProducerWork(c, ps[t]) + ProducerWork(c, p)
  {
    if t == 0 {
      assert ps[t := p][1..] == ps[1..];
    } else {
      assert ps[t := p][1..] == ps[1..][t - 1 := p];
      WorkOfOneChanges(c, ps[1..], t - 1, p);
    }
  }

  /** Steps the consumer still has to take for `pending` claimed items. */
  function ConsumerWork(c: Config, pc: ConsumerPc, pending: nat): int {
    Shares(pending, c.width + 3) -
    match pc
    case Waiting => 0
    case Reading(got) => 1 + |got|
    case Recycled(_) => c.width + 2
  }

  /** An upper bound on the number of steps other than spinning that can still happen. */
  function WorkLeft(c: Config, s: State): int {
    AllProducersWork(c, s.producers)
    + if s.readIndex <= |s.log| then ConsumerWork(c, s.consumer, |s.log| - s.readIndex) else 0
  }

  lemma ProducerMoveShrinksWork(c: Config, s: State, a: Action, t: nat)
    requires Inv(c, s) && Moves(c, s, a) && t < |s.producers|
    requires a in {FetchAdd(t), TestFree(t), TryTest(t), TryFetchAdd(t), StoreWord(t), Publish(t)}
    ensures var s' := Step(c, s, a).value;
      && s'.producers == s.producers[t := s'.producers[t]]
      && s'.readIndex == s.readIndex && s'.consumer == s.consumer
      && |s.log| <= |s'.log| <= |s.log| + 1
      && ProducerWork(c, s'.producers[t]) + (if |s'.log| == |s.log| then 0 else c.width + 3) < ProducerWork(c, s.producers[t])
  {
    assert ProducerOk(c, s, t);
  }

  lemma ConsumerMoveShrinksWork(c: Config, s: State, a: Action)
    requires Inv(c, s) && Moves(c, s, a)
    requires a.TestReady? || a.LoadWord? || a.Recycle? || a.Advance?
    ensures var s' := Step(c, s, a).value;
      && s'.producers == s.producers && s'.log == s.log && s'.readIndex <= |s'.log|
      && ConsumerWork(c, s'.consumer, |s'.log| - s'.readIndex) < ConsumerWork(c, s.consumer, |s.log| - s.readIndex)
  {
    StepKeepsInv(c, s, a);
  }

  lemma WorkLeftIsNat(c: Config, s: State)
    requires Inv(c, s)
    ensures WorkLeft(c, s) >= 0
  {
  }

  lemma ClaimedItemAddsShare(c: Config, pc: ConsumerPc, pending: nat)
    ensures ConsumerWork(c, pc, pending + 1) == ConsumerWork(c, pc, pending) + c.width + 3
  {
  }

  /** Every step that is not a turn of a spin loop strictly decreases the work left. */
  lemma MovesShrinkWork(c: Config, s: State, a: Action)
    requires Inv(c, s) && Moves(c, s, a)
    ensures 0 <= WorkLeft(c, Step(c, s, a).value) < WorkLeft(c, s)
  {
    var s' := Step(c, s, a).value;
    assert WorkLeft(c, s') >= 0 by {
      StepKeepsInv(c, s, a);
      WorkLeftIsNat(c, s');
    }
    if a.TestReady? || a.LoadWord? || a.Recycle? || a.Advance? {
      ConsumerMoveShrinksWork(c, s, a);
    } else {
      ProducerMoveShrinksWork(c, s, a, a.t);
      WorkOfOneChanges(c, s.producers, a.t, s'.producers[a.t]);
      ClaimedItemAddsShare(c, s.consumer, |s.log| - s.readIndex);
    }
  }

  /** Number of steps of a run that are not turns of a spin loop. */
  ghost function UsefulSteps(c: Config, s: State, actions: seq<Action>): nat
    requires Shaped(c, s)
    decreases |actions|
  {
    if actions == [] || Step(c, s, actions[0]).None? then 0
    else
      StepKeepsShape(c, s, actions[0]);
      (if Moves(c, s, actions[0]) then 1 else 0) + UsefulSteps(c, Step(c, s, actions[0]).value, actions[1..])
  }

  /** No run takes more useful steps than the work it starts with. */
  lemma {:induction false} UsefulStepsBounded(c: Config, s: State, actions: seq<Action>, s': State)
    requires Inv(c, s) && Reaches(c, s, actions, s')
    ensures UsefulSteps(c, s, actions) + WorkLeft(c, s') <= WorkLeft(c, s)
    decreases |actions|
  {
    if actions != [] {
      var m := Step(c, s, actions[0]).value;
      StepKeepsInv(c, s, actions[0]);
      if Moves(c, s, actions[0]) {
        MovesShrinkWork(c, s, actions[0]);
      }
      UsefulStepsBounded(c, m, actions[1..], s');
    }
  }

  /** When a run with blocking producers can go no further, everything every producer had was delivered. */
  lemma CompletedRunDeliversEverything(c: Config, init: State, actions: seq<Action>, s: State)
    requires Init(c, init) && c.Unbounded() && c.capacity >= 2
    requires Reaches(c, init, actions, s) && forall a | a in actions :: !IsTry(a)
    requires Shaped(c, s) && forall a :: !Moves(c, s, a)
    ensures s.out == Items(s.log)
    ensures |s.producers| == |init.producers|
    ensures forall t | 0 <= t < |s.producers| :: ItemsOf(s.log, t) == init.producers[t].todo
  {
    InitEstablishesInv(c, init);
    RunKeepsInv(c, init, actions, s);
    StuckIffFinished(c, s);
    RunKeepsHistory(c, init, actions, s);
    DeliveryInClaimOrder(c, init, actions, s);
    assert s.log[..|s.out|] == s.log;
    forall t | 0 <= t < |s.producers| ensures ItemsOf(s.log, t) == init.producers[t].todo {
      assert s.producers[t].sent + s.producers[t].todo == s.producers[t].sent;
    }
  }
}
