/**
 Which capacities are safe. The constructor also accepts a ring of one slot; there "published at p"
 and "free for p + capacity" are the same sequence number, and an unread item can be overwritten.
 */
module RingCapacity {
  import opened RingProtocol
  import opened RingSafety

  ghost predicate DeliversInOrder(s: State) {
    |s.out| <= |s.log| && s.out == Items(s.log[..|s.out|])
  }

  /** Every run, for any payload width, thread count and programs, delivers in claim order. */
  ghost predicate Safe(capacity: nat) {
    forall width, init, actions, s ::
      Init(Config(capacity, width, 0), init) && Reaches(Config(capacity, width, 0), init, actions, s)
      ==> DeliversInOrder(s)
  }

  lemma {:induction false} RunExtends(c: Config, s: State, actions: seq<Action>, m: State, a: Action)
    requires Shaped(c, s) && Reaches(c, s, actions, m) && Shaped(c, m) && Step(c, m, a).Some?
    ensures Reaches(c, s, actions + [a], Step(c, m, a).value)
    decreases |actions|
  {
    if actions == [] {
      StepKeepsShape(c, s, a);
    } else {
      StepKeepsShape(c, s, actions[0]);
      assert (actions + [a])[1..] == actions[1..] + [a];
      RunExtends(c, Step(c, s, actions[0]).value, actions[1..], m, a);
    }
  }

  const ONE_SLOT := Config(1, 1, 0)
  const LOG_1 := [Claim(0, [1])]
  const LOG_2 := [Claim(0, [1]), Claim(0, [2])]

  /** The producer after claiming item 1, and after claiming item 2. */
  function AfterFirst(pc: ProducerPc): seq<Producer> { [Producer(pc, [[2]], [[1]])] }
  function AfterSecond(pc: ProducerPc): seq<Producer> { [Producer(pc, [], [[1], [2]])] }

  const EMPTY_RING := State(0, 0, [0], [[0]], [Producer(Idle, [[1], [2]], [])], Waiting, [], [])
  const FIRST_PUBLISHED := State(1, 0, [1], [[1]], AfterFirst(Idle), Waiting, LOG_1, [])
  const OVERWRITTEN := State(2, 0, [1], [[2]], AfterSecond(Copying(1, [2], 1)), Reading([]), LOG_2, [])
  const SECOND_DELIVERED := State(2, 1, [1], [[2]], AfterSecond(Copying(1, [2], 1)), Waiting, LOG_2, [[2]])

  lemma FirstItemIsPublished()
    ensures Reaches(ONE_SLOT, EMPTY_RING, [] + [FetchAdd(0)] + [TestFree(0)] + [StoreWord(0)] + [Publish(0)], FIRST_PUBLISHED)
  {
    var s1 := State(1, 0, [0], [[0]], AfterFirst(Spinning(0, [1])), Waiting, LOG_1, []);
    var s2 := State(1, 0, [0], [[0]], AfterFirst(Copying(0, [1], 0)), Waiting, LOG_1, []);
    var s3 := State(1, 0, [0], [[1]], AfterFirst(Copying(0, [1], 1)), Waiting, LOG_1, []);
    assert Step(ONE_SLOT, EMPTY_RING, FetchAdd(0)).value == s1 by {
      var p := Step(ONE_SLOT, EMPTY_RING, FetchAdd(0)).value.producers[0];
      assert p.todo == [[2]] && p.sent == [[1]];
      assert Step(ONE_SLOT, EMPTY_RING, FetchAdd(0)).value.producers == AfterFirst(Spinning(0, [1]));
      assert Step(ONE_SLOT, EMPTY_RING, FetchAdd(0)).value.log == LOG_1;
    }
    assert Step(ONE_SLOT, s1, TestFree(0)).value == s2 by {
      assert Step(ONE_SLOT, s1, TestFree(0)).value.producers == s2.producers;
    }
    assert Step(ONE_SLOT, s2, StoreWord(0)).value == s3 by {
      assert [0][0 := 1] == [1];
      assert Step(ONE_SLOT, s2, StoreWord(0)).value.data == s3.data;
      assert Step(ONE_SLOT, s2, StoreWord(0)).value.producers == s3.producers;
    }
    assert Step(ONE_SLOT, s3, Publish(0)).value == FIRST_PUBLISHED by {
      assert Step(ONE_SLOT, s3, Publish(0)).value.sequence == [1];
      assert Step(ONE_SLOT, s3, Publish(0)).value.producers == AfterFirst(Idle);
    }
    RunExtends(ONE_SLOT, EMPTY_RING, [], EMPTY_RING, FetchAdd(0));
    RunExtends(ONE_SLOT, EMPTY_RING, [] + [FetchAdd(0)], s1, TestFree(0));
    RunExtends(ONE_SLOT, EMPTY_RING, [] + [FetchAdd(0)] + [TestFree(0)], s2, StoreWord(0));
    RunExtends(ONE_SLOT, EMPTY_RING, [] + [FetchAdd(0)] + [TestFree(0)] + [StoreWord(0)], s3, Publish(0));
  }

  /** Consumer and producer are both past their test on the one slot when item 2 is stored. */
  lemma SecondItemOverwrites(run: seq<Action>)
    requires Reaches(ONE_SLOT, EMPTY_RING, run, FIRST_PUBLISHED)
    ensures Reaches(ONE_SLOT, EMPTY_RING, run + [TestReady] + [FetchAdd(0)] + [TestFree(0)] + [StoreWord(0)], OVERWRITTEN)
  {
    var s1 := FIRST_PUBLISHED.(consumer := Reading([]));
    var s2 := State(2, 0, [1], [[1]], AfterSecond(Spinning(1, [2])), Reading([]), LOG_2, []);
    var s3 := State(2, 0, [1], [[1]], AfterSecond(Copying(1, [2], 0)), Reading([]), LOG_2, []);
    assert Step(ONE_SLOT, s1, FetchAdd(0)).value == s2 by {
      var p := Step(ONE_SLOT, s1, FetchAdd(0)).value.producers[0];
      assert p.todo == [] && p.sent == [[1], [2]];
      assert Step(ONE_SLOT, s1, FetchAdd(0)).value.producers == s2.producers;
      assert Step(ONE_SLOT, s1, FetchAdd(0)).value.log == LOG_2;
    }
    assert Step(ONE_SLOT, s2, TestFree(0)).value == s3 by {
      assert Step(ONE_SLOT, s2, TestFree(0)).value.producers == s3.producers;
    }
    assert Step(ONE_SLOT, s3, StoreWord(0)).value == OVERWRITTEN by {
      assert [1][0 := 2] == [2];
      assert Step(ONE_SLOT, s3, StoreWord(0)).value.data == [[2]];
      assert Step(ONE_SLOT, s3, StoreWord(0)).value.producers == OVERWRITTEN.producers;
    }
    RunExtends(ONE_SLOT, EMPTY_RING, run, FIRST_PUBLISHED, TestReady);
    RunExtends(ONE_SLOT, EMPTY_RING, run + [TestReady], s1, FetchAdd(0));
    RunExtends(ONE_SLOT, EMPTY_RING, run + [TestReady] + [FetchAdd(0)], s2, TestFree(0));
    RunExtends(ONE_SLOT, EMPTY_RING, run + [TestReady] + [FetchAdd(0)] + [TestFree(0)], s3, StoreWord(0));
  }

  lemma SecondItemIsDelivered(run: seq<Action>)
    requires Reaches(ONE_SLOT, EMPTY_RING, run, OVERWRITTEN)
    ensures Reaches(ONE_SLOT, EMPTY_RING, run + [LoadWord] + [Recycle] + [Advance], SECOND_DELIVERED)
  {
    var s1 := OVERWRITTEN.(consumer := Reading([2]));
    var s2 := OVERWRITTEN.(consumer := Recycled([2]));
    assert Step(ONE_SLOT, OVERWRITTEN, LoadWord).value == s1 by {
      assert [] + [2] == [2];
    }
    assert Step(ONE_SLOT, s1, Recycle).value == s2 by {
      assert Step(ONE_SLOT, s1, Recycle).value.sequence == [1];
    }
    assert Step(ONE_SLOT, s2, Advance).value == SECOND_DELIVERED by {
      assert Step(ONE_SLOT, s2, Advance).value.out == [[2]];
    }
    RunExtends(ONE_SLOT, EMPTY_RING, run, OVERWRITTEN, LoadWord);
    RunExtends(ONE_SLOT, EMPTY_RING, run + [LoadWord], s1, Recycle);
    RunExtends(ONE_SLOT, EMPTY_RING, run + [LoadWord] + [Recycle], s2, Advance);
  }

  /**
   One producer sends 1 and then 2 through a one-slot ring. The consumer's test for item 0 and the
   producer's test for position 1 both see sequence 1, and the consumer reads the second item first.
   */
  lemma OneSlotDeliversOutOfOrder() returns (run: seq<Action>)
    ensures Init(ONE_SLOT, EMPTY_RING) && Reaches(ONE_SLOT, EMPTY_RING, run, SECOND_DELIVERED)
    ensures !DeliversInOrder(SECOND_DELIVERED)
  {
    FirstItemIsPublished();
    run := [] + [FetchAdd(0)] + [TestFree(0)] + [StoreWord(0)] + [Publish(0)];
    SecondItemOverwrites(run);
    run := run + [TestReady] + [FetchAdd(0)] + [TestFree(0)] + [StoreWord(0)];
    SecondItemIsDelivered(run);
    run := run + [LoadWord] + [Recycle] + [Advance];
    assert Items(LOG_2[..1])[0] == [1];
  }

  /** Claim-order delivery holds for every run exactly when the ring has at least two slots. */
  lemma SafeIffTwoSlots(capacity: nat)
    requires capacity > 0
    ensures Safe(capacity) <==> capacity >= 2
  {
    if capacity >= 2 {
      forall width, init, actions, s |
        Init(Config(capacity, width, 0), init) && Reaches(Config(capacity, width, 0), init, actions, s)
        ensures DeliversInOrder(s)
      {
        DeliveryInClaimOrder(Config(capacity, width, 0), init, actions, s);
      }
    } else {
      var run := OneSlotDeliversOutOfOrder();
      assert ONE_SLOT == Config(capacity, 1, 0);
    }
  }
}
