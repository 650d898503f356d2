/**
 Fixed-width counters. The code keeps every position in a `size_t` and indexes with `pos & MASK`;
 this module shows that, for a power-of-two capacity, the ring with counters modulo 2^64 takes
 step for step the same decisions as the ring with mathematical counters.
 */
module RingCounters {
  import opened Wrappers
  import opened Arithmetic
  import opened RingProtocol
  import opened RingInvariant
  import opened RingSafety
  import opened RingOffers

  function Pow2(k: nat): (p: nat)
    ensures p > 0
  {
    if k == 0 then 1 else 2 * Pow2(k - 1)
  }

  /** Bitwise conjunction of two non-negative integers. */
  function BitAnd(x: nat, y: nat): nat {
    if x == 0 then 0
    else (if x % 2 == 1 && y % 2 == 1 then 1 else 0) + 2 * BitAnd(x / 2, y / 2)
  }

  lemma {:induction false} BitAndSelf(x: nat)
    ensures BitAnd(x, x) == x
  {
    if x > 0 { BitAndSelf(x / 2); }
  }

  ghost predicate IsPowerOfTwo(n: nat) {
    exists k: nat :: n == Pow2(k)
  }

  lemma PowerOfTwoHalves(n: nat)
    requires n > 1
    ensures IsPowerOfTwo(n) <==> n % 2 == 0 && IsPowerOfTwo(n / 2)
  {
    if k: nat :| n == Pow2(k) {
      assert n == 2 * Pow2(k - 1);
      assert n / 2 == Pow2(k - 1);
    }
    if k: nat :| n % 2 == 0 && n / 2 == Pow2(k) {
      assert n == Pow2(k + 1);
    }
  }

  lemma LowBitsAnd(n: nat)
    requires n > 1
    ensures n % 2 == 0 ==> BitAnd(n, n - 1) == 2 * BitAnd(n / 2, n / 2 - 1)
    ensures n % 2 == 1 ==> BitAnd(n, n - 1) == 2 * BitAnd(n / 2, n / 2)
  {
    if n % 2 == 0 {
      assert (n - 1) / 2 == n / 2 - 1;
    } else {
      assert (n - 1) / 2 == n / 2;
    }
  }

  /** The constructor's static_assert accepts exactly the powers of two. */
  lemma {:induction false} StaticAssertMeansPowerOfTwo(n: nat)
    requires n > 0
    ensures BitAnd(n, n - 1) == 0 <==> IsPowerOfTwo(n)
  {
    if n == 1 {
      assert n == Pow2(0);
    } else {
      PowerOfTwoHalves(n);
      LowBitsAnd(n);
      BitAndSelf(n / 2);
      if n % 2 == 0 {
        StaticAssertMeansPowerOfTwo(n / 2);
      }
    }
  }

  /** `pos & MASK` is the remainder by the capacity. */
  lemma {:induction false} MaskIsRemainder(pos: nat, k: nat)
    ensures BitAnd(pos, Pow2(k) - 1) == pos % Pow2(k)
  {
    if k == 0 {
      BitAndZero(pos);
    } else {
      MaskIsRemainder(pos / 2, k - 1);
      MaskStep(pos, Pow2(k - 1));
    }
  }

  lemma MaskStep(x: nat, h: nat)
    requires h > 0 && BitAnd(x / 2, h - 1) == (x / 2) % h
    ensures BitAnd(x, 2 * h - 1) == x % (2 * h)
  {
    assert (2 * h - 1) / 2 == h - 1;
    HalveRemainder(x, h);
    if x == 0 { SlotOfSum(2 * h, 0, 0); }
  }

  lemma {:induction false} BitAndZero(x: nat)
    ensures BitAnd(x, 0) == 0
  {
    if x > 0 { BitAndZero(x / 2); }
  }

  lemma HalveRemainder(x: nat, h: nat)
    requires h > 0
    ensures x % (2 * h) == x % 2 + 2 * ((x / 2) % h)
  {
    var y := x / 2;
    assert x == (2 * h) * (y / h) + (x % 2 + 2 * (y % h)) by {
      assert y == h * (y / h) + y % h;
    }
    SlotOfSum(2 * h, y / h, x % 2 + 2 * (y % h));
  }

  lemma {:induction false} Pow2Splits(j: nat, k: nat)
    requires j <= k
    ensures Pow2(k) == Pow2(j) * Pow2(k - j)
  {
    if j > 0 { Pow2Splits(j - 1, k - 1); }
  }

  /** Reducing a counter modulo a multiple of the capacity does not change its slot. */
  lemma SlotSurvivesWrap(cap: nat, m: nat, x: nat)
    requires cap > 0 && m > 0
    ensures (x % (cap * m)) % cap == x % cap
  {
    var big := cap * m;
    var y := x % big;
    assert x == cap * (m * (x / big)) + y;
    assert y == cap * (y / cap) + y % cap;
    assert x == cap * (m * (x / big) + y / cap) + y % cap;
    SlotOfSum(cap, m * (x / big) + y / cap, y % cap);
  }

  /** The state as 64-bit counters store it. */
  function WrappedPc(m: nat, pc: ProducerPc): ProducerPc
    requires m > 0
  {
    match pc
    case Idle => Idle
    case Spinning(p, item) => Spinning(p % m, item)
    case Cleared(p, item) => Cleared(p % m, item)
    case Copying(p, item, k) => Copying(p % m, item, k)
  }

  function WrappedProducers(m: nat, ps: seq<Producer>): (r: seq<Producer>)
    requires m > 0
    ensures |r| == |ps|
    ensures forall t | 0 <= t < |ps| :: r[t] == ps[t].(pc := WrappedPc(m, ps[t].pc))
  {
    seq(|ps|, t requires 0 <= t < |ps| => ps[t].(pc := WrappedPc(m, ps[t].pc)))
  }

  function WrappedSequence(m: nat, q: seq<nat>): (r: seq<nat>)
    requires m > 0
    ensures |r| == |q| && forall i | 0 <= i < |q| :: r[i] == q[i] % m
  {
    seq(|q|, i requires 0 <= i < |q| => q[i] % m)
  }

  function Wrapped(m: nat, s: State): State
    requires m > 0
  {
    s.(writeIndex := s.writeIndex % m,
       readIndex := s.readIndex % m,
       sequence := WrappedSequence(m, s.sequence),
       producers := WrappedProducers(m, s.producers))
  }

  lemma WrapEquality(m: nat, x: nat, y: nat)
    requires m > 0 && x < y + m && y < x + m
    ensures x % m == y % m <==> x == y
  {
    if x % m == y % m { SlotInjective(m, x, y); }
  }

  lemma WrapOfWrapped(m: nat, x: nat, d: nat)
    requires m > 0
    ensures (x % m + d) % m == (x + d) % m
  {
    var z := (x + d) % m;
    assert x % m + d == m * ((x + d) / m - x / m) + z;
    SlotOfSum(m, (x + d) / m - x / m, z);
  }

  ghost predicate FitsCounter(c: Config, m: nat) {
    c.capacity > 0 && m > c.capacity && exists k: nat :: m == c.capacity * k
  }

  lemma SameSlot(c: Config, m: nat, x: nat)
    requires FitsCounter(c, m)
    ensures c.Slot(x % m) == c.Slot(x)
  {
    var k: nat :| m == c.capacity * k;
    assert k > 0;
    SlotSurvivesWrap(c.capacity, k, x);
  }

  /** Two accesses compare a position with a sequence number: both comparisons survive the wrap. */
  lemma SequenceTestSurvivesWrap(c: Config, m: nat, s: State, p: nat)
    requires Inv(c, s) && FitsCounter(c, m) && |s.log| - Freed(s) < m
    requires Freed(s) <= p <= |s.log|
    ensures (s.sequence[c.Slot(p)] % m == p % m) == (s.sequence[c.Slot(p)] == p)
  {
    var q := WindowPosition(c, s, p);
    assert s.sequence[c.Slot(q)] == q || s.sequence[c.Slot(q)] == q + 1;
    if p < Freed(s) + c.capacity {
      SlotInjective(c.capacity, p, q);
    }
    WrapEquality(m, s.sequence[c.Slot(p)], p);
  }

  lemma WrapProducerUpdate(m: nat, ps: seq<Producer>, t: nat, p: Producer)
    requires m > 0 && t < |ps|
    ensures WrappedProducers(m, ps[t := p]) == WrappedProducers(m, ps)[t := p.(pc := WrappedPc(m, p.pc))]
  {
  }

  lemma WrapSequenceUpdate(m: nat, q: seq<nat>, i: nat, x: nat)
    requires m > 0 && i < |q|
    ensures WrappedSequence(m, q[i := x]) == WrappedSequence(m, q)[i := x % m]
  {
  }

  /** The step the 64-bit ring must take when the mathematical ring steps to `r`. */
  function WrappedResult(m: nat, r: Option<State>): Option<State>
    requires m > 0
  {
    match r case None => None case Some(s) => Some(Wrapped(m, s))
  }

  /** Commuting square: a step of the 64-bit ring is the image of the step of the mathematical ring. */
  lemma WrappedStepAgrees(c: Config, m: nat, s: State, a: Action)
    requires Inv(c, s) && FitsCounter(c, m) && |s.log| - Freed(s) < m
    ensures Shaped(c.(modulus := m), Wrapped(m, s))
    ensures Step(c.(modulus := m), Wrapped(m, s), a) == WrappedResult(m, Step(c, s, a))
  {
    match a
    case FetchAdd(t) => if t < |s.producers| { FetchAddSquare(c, m, s, t); }
    case TestFree(t) => if t < |s.producers| { TestFreeSquare(c, m, s, t); }
    case TryTest(t) => if t < |s.producers| { TryTestSquare(c, m, s, t); }
    case TryFetchAdd(t) => if t < |s.producers| { TryFetchAddSquare(c, m, s, t); }
    case StoreWord(t) => if t < |s.producers| { StoreWordSquare(c, m, s, t); }
    case Publish(t) => if t < |s.producers| { PublishSquare(c, m, s, t); }
    case TestReady => TestReadySquare(c, m, s);
    case LoadWord => SameSlot(c, m, s.readIndex);
    case Recycle => RecycleSquare(c, m, s);
    case Advance => WrapOfWrapped(m, s.readIndex, 1);
  }

  lemma FetchAddSquare(c: Config, m: nat, s: State, t: nat)
    requires c.Unbounded() && m > 0 && t < |s.producers|
    ensures FetchAddStep(c.(modulus := m), Wrapped(m, s), t) == WrappedResult(m, FetchAddStep(c, s, t))
  {
    WrapOfWrapped(m, s.writeIndex, 1);
    var r := FetchAddStep(c, s, t);
    if r.Some? { WrapProducerUpdate(m, s.producers, t, r.value.producers[t]); }
  }

  lemma TryFetchAddSquare(c: Config, m: nat, s: State, t: nat)
    requires c.Unbounded() && m > 0 && t < |s.producers|
    ensures TryFetchAddStep(c.(modulus := m), Wrapped(m, s), t) == WrappedResult(m, TryFetchAddStep(c, s, t))
  {
    WrapOfWrapped(m, s.writeIndex, 1);
    var r := TryFetchAddStep(c, s, t);
    if r.Some? { WrapProducerUpdate(m, s.producers, t, r.value.producers[t]); }
  }

  lemma TestFreeSquare(c: Config, m: nat, s: State, t: nat)
    requires Inv(c, s) && FitsCounter(c, m) && |s.log| - Freed(s) < m && t < |s.producers|
    ensures TestFreeStep(c.(modulus := m), Wrapped(m, s), t) == WrappedResult(m, TestFreeStep(c, s, t))
  {
    var r := TestFreeStep(c, s, t);
    if r.Some? {
      assert ProducerOk(c, s, t);
      var p := s.producers[t].pc.pos;
      SameSlot(c, m, p);
      SequenceTestSurvivesWrap(c, m, s, p);
      WrapProducerUpdate(m, s.producers, t, r.value.producers[t]);
    }
  }

  lemma TryTestSquare(c: Config, m: nat, s: State, t: nat)
    requires Inv(c, s) && FitsCounter(c, m) && |s.log| - Freed(s) < m && t < |s.producers|
    ensures TryTestStep(c.(modulus := m), Wrapped(m, s), t) == WrappedResult(m, TryTestStep(c, s, t))
  {
    var r := TryTestStep(c, s, t);
    if r.Some? {
      SameSlot(c, m, s.writeIndex);
      SequenceTestSurvivesWrap(c, m, s, s.writeIndex);
      WrapProducerUpdate(m, s.producers, t, r.value.producers[t]);
    }
  }

  lemma StoreWordSquare(c: Config, m: nat, s: State, t: nat)
    requires Shaped(c, s) && FitsCounter(c, m) && t < |s.producers|
    ensures Shaped(c.(modulus := m), Wrapped(m, s))
    ensures StoreWordStep(c.(modulus := m), Wrapped(m, s), t) == WrappedResult(m, StoreWordStep(c, s, t))
  {
    var r := StoreWordStep(c, s, t);
    if r.Some? {
      SameSlot(c, m, s.producers[t].pc.pos);
      WrapProducerUpdate(m, s.producers, t, r.value.producers[t]);
    }
  }

  lemma PublishSquare(c: Config, m: nat, s: State, t: nat)
    requires Shaped(c, s) && c.Unbounded() && FitsCounter(c, m) && t < |s.producers|
    ensures Shaped(c.(modulus := m), Wrapped(m, s))
    ensures PublishStep(c.(modulus := m), Wrapped(m, s), t) == WrappedResult(m, PublishStep(c, s, t))
  {
    var r := PublishStep(c, s, t);
    if r.Some? {
      var p := s.producers[t].pc.pos;
      SameSlot(c, m, p);
      WrapOfWrapped(m, p, 1);
      WrapProducerUpdate(m, s.producers, t, r.value.producers[t]);
      WrapSequenceUpdate(m, s.sequence, c.Slot(p), p + 1);
    }
  }

  lemma TestReadySquare(c: Config, m: nat, s: State)
    requires Inv(c, s) && FitsCounter(c, m)
    ensures TestReadyStep(c.(modulus := m), Wrapped(m, s)) == WrappedResult(m, TestReadyStep(c, s))
  {
    var r := s.readIndex;
    SameSlot(c, m, r);
    WrapOfWrapped(m, r, 1);
    if s.consumer.Waiting? {
      assert s.sequence[c.Slot(r)] == r || s.sequence[c.Slot(r)] == r + 1;
      WrapEquality(m, s.sequence[c.Slot(r)], r + 1);
    }
  }

  lemma RecycleSquare(c: Config, m: nat, s: State)
    requires Shaped(c, s) && c.Unbounded() && FitsCounter(c, m)
    ensures Shaped(c.(modulus := m), Wrapped(m, s))
    ensures RecycleStep(c.(modulus := m), Wrapped(m, s)) == WrappedResult(m, RecycleStep(c, s))
  {
    SameSlot(c, m, s.readIndex);
    WrapOfWrapped(m, s.readIndex, c.capacity);
    WrapSequenceUpdate(m, s.sequence, c.Slot(s.readIndex), s.readIndex + c.capacity);
  }

  /** The owners of the claimed positions in [lo, hi). */
  function Owners(s: State, lo: nat, hi: nat): set<nat>
    requires hi <= |s.log|
  {
    set p | lo <= p < hi :: s.log[p].owner
  }

  lemma {:induction false} DistinctOwners(s: State, lo: nat, hi: nat)
    requires lo <= hi <= |s.log| && forall p | lo <= p < hi :: Owned(s, p)
    ensures |Owners(s, lo, hi)| == hi - lo
  {
    if lo < hi {
      DistinctOwners(s, lo, hi - 1);
      assert Owners(s, lo, hi) == Owners(s, lo, hi - 1) + {s.log[hi - 1].owner};
      forall p | lo <= p < hi - 1 ensures s.log[p].owner != s.log[hi - 1].owner {
        assert Owned(s, p) && Owned(s, hi - 1);
      }
    }
  }

  lemma {:induction false} ThreadCount(threads: set<nat>, n: nat)
    requires forall t | t in threads :: t < n
    ensures |threads| <= n
  {
    if n == 0 {
      assert threads == {};
    } else {
      ThreadCount(threads - {n - 1}, n - 1);
    }
  }

  /** At most one claim per producer waits beyond the current lap. */
  lemma OutstandingIsBounded(c: Config, s: State)
    requires Inv(c, s)
    ensures |s.log| - Freed(s) <= c.capacity + |s.producers|
  {
    var lap := Freed(s) + c.capacity;
    if lap < |s.log| {
      forall p | lap <= p < |s.log| ensures Owned(s, p) {
      }
      DistinctOwners(s, lap, |s.log|);
      forall t | t in Owners(s, lap, |s.log|) ensures t < |s.producers| {
        var p :| lap <= p < |s.log| && t == s.log[p].owner;
        assert Owned(s, p);
      }
      ThreadCount(Owners(s, lap, |s.log|), |s.producers|);
    }
  }

  /** A run of the 64-bit ring is, state by state, the image of the same run of the mathematical ring. */
  lemma {:induction false} WrappedRunAgrees(c: Config, m: nat, s: State, actions: seq<Action>, ws: State)
    returns (s': State)
    requires Inv(c, s) && FitsCounter(c, m) && c.capacity + |s.producers| < m
    requires Shaped(c.(modulus := m), Wrapped(m, s)) && Reaches(c.(modulus := m), Wrapped(m, s), actions, ws)
    ensures Reaches(c, s, actions, s') && ws == Wrapped(m, s')
    decreases |actions|
  {
    if actions == [] {
      s' := s;
    } else {
      OutstandingIsBounded(c, s);
      WrappedStepAgrees(c, m, s, actions[0]);
      StepKeepsInv(c, s, actions[0]);
      s' := WrappedRunAgrees(c, m, Step(c, s, actions[0]).value, actions[1..], ws);
    }
  }

  lemma CapacityFitsCounter(c: Config, k: nat, bits: nat)
    requires c.capacity == Pow2(k) && k < bits
    ensures FitsCounter(c, Pow2(bits))
  {
    Pow2Splits(k, bits);
    assert Pow2(bits - k) == 2 * Pow2(bits - k - 1);
    TimesAtLeastTwo(Pow2(k), Pow2(bits - k));
  }

  lemma TimesAtLeastTwo(x: nat, y: nat)
    requires x > 0 && y >= 2
    ensures x * y > x
  {
  }

  /**
   The ring as instantiated: counters of `bits` bits (64 in the code), a power-of-two capacity of at
   least two, and fewer than 2^bits - capacity producer threads. Every run delivers exactly the
   claimed items in claim order.
   */
  lemma FixedWidthDelivery(c: Config, bits: nat, k: nat, init: State, actions: seq<Action>, ws: State)
    requires c.modulus == Pow2(bits) && c.capacity == Pow2(k) && 1 <= k < bits
    requires Init(c, init) && c.capacity + |init.producers| < Pow2(bits)
    requires Reaches(c, init, actions, ws)
    ensures |ws.out| <= |ws.log| && ws.out == Items(ws.log[..|ws.out|])
    ensures |ws.producers| == |init.producers|
    ensures forall t | 0 <= t < |ws.producers| :: ItemsOf(ws.log[..|ws.out|], t) <= ws.producers[t].sent
    ensures (forall a | a in actions :: !IsTry(a)) ==>
              forall t | 0 <= t < |ws.producers| :: ItemsOf(ws.log[..|ws.out|], t) <= init.producers[t].todo
  {
    var u := c.(modulus := 0);
    CapacityFitsCounter(u, k, bits);
    assert c.capacity == 2 * Pow2(k - 1);
    InitEstablishesInv(u, init);
    InitialCountersFit(u, c.modulus, init);
    assert u.(modulus := c.modulus) == c;
    var s := WrappedRunAgrees(u, c.modulus, init, actions, ws);
    DeliveryInClaimOrder(u, init, actions, s);
  }

  /** With fixed-width counters too, each producer has accepted exactly the items offered while the ring,
      counted without bounds, was not full. */
  lemma FixedWidthOffers(c: Config, bits: nat, k: nat, init: State, actions: seq<Action>, ws: State, t: nat)
    requires c.modulus == Pow2(bits) && c.capacity == Pow2(k) && 1 <= k < bits
    requires Init(c, init) && c.capacity + |init.producers| < Pow2(bits) && t < |init.producers|
    requires Reaches(c, init, actions, ws)
    ensures |ws.producers| == |init.producers|
    ensures AcceptsExactly(init.producers[t].todo, Outcomes(c.(modulus := 0), init, actions, t), ws.producers[t])
  {
    var u := c.(modulus := 0);
    CapacityFitsCounter(u, k, bits);
    assert c.capacity == 2 * Pow2(k - 1);
    InitEstablishesInv(u, init);
    InitialCountersFit(u, c.modulus, init);
    assert u.(modulus := c.modulus) == c;
    var s := WrappedRunAgrees(u, c.modulus, init, actions, ws);
    EveryOfferIsSettled(u, init, actions, s, t);
    assert AcceptedFrom(ws.producers[t]) == AcceptedFrom(s.producers[t]);
  }

  lemma InitialCountersFit(c: Config, m: nat, s: State)
    requires Init(c, s) && m > c.capacity
    ensures Wrapped(m, s) == s
  {
    forall i | 0 <= i < c.capacity ensures i % m == i {
      SlotOfSum(m, 0, i);
    }
    SlotOfSum(m, 0, 0);
    assert WrappedSequence(m, s.sequence) == s.sequence;
    assert WrappedProducers(m, s.producers) == s.producers;
  }
}
