/**
 The inductive invariant of the ring with mathematical counters and at least two slots.
 It ties the per-slot sequence numbers to the claim log, to the position every thread holds,
 and to what the consumer has read.
 */
module RingInvariant {
  import opened Arithmetic
  import opened RingProtocol

  /** Number of slots handed back so far; it runs one ahead of read_index_ inside `consume`. */
  function Freed(s: State): nat {
    if s.consumer.Recycled? then s.readIndex + 1 else s.readIndex
  }

  /** The position a thread has claimed and not published yet. */
  predicate Holds(pc: ProducerPc, p: nat) {
    (pc.Spinning? || pc.Copying?) && pc.pos == p
  }

  predicate Owned(s: State, p: nat)
    requires p < |s.log|
  {
    s.log[p].owner < |s.producers| && Holds(s.producers[s.log[p].owner].pc, p)
  }

  predicate Published(c: Config, s: State, p: nat)
    requires Shaped(c, s) && p < |s.log|
  {
    s.sequence[c.Slot(p)] == p + 1 && s.data[c.Slot(p)] == s.log[p].item
  }

  ghost predicate SlotsOk(c: Config, s: State)
    requires Shaped(c, s)
  {
    forall p | Freed(s) <= p < Freed(s) + c.capacity ::
      s.sequence[c.Slot(p)] == p || (p < |s.log| && Published(c, s, p))
  }

  ghost predicate ClaimsOk(c: Config, s: State)
    requires Shaped(c, s)
  {
    forall p | Freed(s) <= p < |s.log| ::
      Owned(s, p) || (p < Freed(s) + c.capacity && Published(c, s, p))
  }

  predicate ClaimedBy(c: Config, s: State, t: nat, p: nat, item: Item)
    requires Shaped(c, s)
  {
    && Freed(s) <= p < |s.log|
    && s.log[p] == Claim(t, item)
    && (p < Freed(s) + c.capacity ==> s.sequence[c.Slot(p)] == p)
  }

  predicate ProducerOk(c: Config, s: State, t: nat)
    requires Shaped(c, s) && t < |s.producers|
  {
    var pc := s.producers[t].pc;
    match pc
    case Idle => true
    case Spinning(p, item) => ClaimedBy(c, s, t, p, item)
    case Cleared(p, item) =>
      |s.producers| == 1 && p == |s.log| && p < Freed(s) + c.capacity
      && s.sequence[c.Slot(p)] == p && |item| == c.width
    case Copying(p, item, k) =>
      && ClaimedBy(c, s, t, p, item)
      && p < Freed(s) + c.capacity
      && k <= c.width == |item|
      && s.data[c.Slot(p)][..k] == item[..k]
  }

  predicate ConsumerOk(c: Config, s: State)
    requires Shaped(c, s)
  {
    match s.consumer
    case Waiting => true
    case Reading(got) =>
      && s.readIndex < |s.log|
      && Published(c, s, s.readIndex)
      && |got| <= c.width
      && |s.log[s.readIndex].item| == c.width
      && got == s.log[s.readIndex].item[..|got|]
    case Recycled(got) =>
      s.readIndex < |s.log| && got == s.log[s.readIndex].item
  }

  predicate HistoryOk(c: Config, s: State) {
    && s.writeIndex == |s.log|
    && s.readIndex <= |s.log|
    && Freed(s) <= |s.log|
    && s.out == Items(s.log[..s.readIndex])
    && (forall p | 0 <= p < |s.log| :: |s.log[p].item| == c.width)
    && (forall t | 0 <= t < |s.producers| ::
          forall i | 0 <= i < |s.producers[t].todo| :: |s.producers[t].todo[i]| == c.width)
  }

  ghost predicate Inv(c: Config, s: State) {
    && c.Unbounded() && c.capacity >= 2
    && Shaped(c, s)
    && HistoryOk(c, s)
    && SlotsOk(c, s)
    && ClaimsOk(c, s)
    && (forall t | 0 <= t < |s.producers| :: ProducerOk(c, s, t))
    && ConsumerOk(c, s)
  }

  lemma InitEstablishesInv(c: Config, s: State)
    requires Init(c, s) && c.Unbounded() && c.capacity >= 2
    ensures Inv(c, s)
  {
    forall p | 0 <= p < c.capacity ensures s.sequence[c.Slot(p)] == p {
      SlotOfSum(c.capacity, 0, p);
    }
  }

  lemma StepKeepsInv(c: Config, s: State, a: Action)
    requires Inv(c, s) && Step(c, s, a).Some?
    ensures Inv(c, Step(c, s, a).value)
  {
    match a
    case FetchAdd(t) => FetchAddKeepsInv(c, s, t);
    case TestFree(t) => TestFreeKeepsInv(c, s, t);
    case TryTest(t) => TryTestKeepsInv(c, s, t);
    case TryFetchAdd(t) => TryFetchAddKeepsInv(c, s, t);
    case StoreWord(t) => StoreWordKeepsInv(c, s, t);
    case Publish(t) => PublishKeepsInv(c, s, t);
    case TestReady => TestReadyKeepsInv(c, s);
    case LoadWord => LoadWordKeepsInv(c, s);
    case Recycle => RecycleKeepsInv(c, s);
    case Advance => AdvanceKeepsInv(c, s);
  }

  lemma FetchAddKeepsInv(c: Config, s: State, t: nat)
    requires Inv(c, s) && t < |s.producers| && FetchAddStep(c, s, t).Some?
    ensures Inv(c, FetchAddStep(c, s, t).value)
  {
    var s' := FetchAddStep(c, s, t).value;
    var w := |s.log|;
    assert ProducerOk(c, s', t) by {
      if w < Freed(s) + c.capacity {
        assert s.sequence[c.Slot(w)] == w;
      }
    }
    forall p | Freed(s) <= p < |s'.log| ensures Owned(s', p) || (p < Freed(s) + c.capacity && Published(c, s', p)) {
      if p < w {
        assert s'.log[p] == s.log[p];
        assert Owned(s, p) ==> Owned(s', p);
      } else {
        assert Owned(s', w);
      }
    }
    forall u | 0 <= u < |s.producers| ensures ProducerOk(c, s', u) {
      assert ProducerOk(c, s, u);
    }
    assert s'.log[..s'.readIndex] == s.log[..s.readIndex];
  }

  lemma TestFreeKeepsInv(c: Config, s: State, t: nat)
    requires Inv(c, s) && t < |s.producers| && TestFreeStep(c, s, t).Some?
    ensures Inv(c, TestFreeStep(c, s, t).value)
  {
    var s' := TestFreeStep(c, s, t).value;
    var pos := s.producers[t].pc.pos;
    assert ProducerOk(c, s, t);
    if s.sequence[c.Slot(pos)] == pos {
      FreeSlotIsInWindow(c, s, pos);
      forall u | 0 <= u < |s.producers| ensures ProducerOk(c, s', u) {
        assert ProducerOk(c, s, u);
      }
      forall p | Freed(s) <= p < |s'.log| ensures Owned(s', p) || (p < Freed(s) + c.capacity && Published(c, s', p)) {
        assert Owned(s, p) ==> Owned(s', p);
      }
    }
  }

  /** A position whose own number stands in its slot is at most one lap ahead of the reader. */
  lemma FreeSlotIsInWindow(c: Config, s: State, pos: nat)
    requires c.capacity >= 2 && Shaped(c, s) && SlotsOk(c, s)
    requires pos >= Freed(s) && s.sequence[c.Slot(pos)] == pos
    ensures pos < Freed(s) + c.capacity
  {
    if pos >= Freed(s) + c.capacity {
      var q := WindowPosition(c, s, pos);
      assert s.sequence[c.Slot(q)] == q || s.sequence[c.Slot(q)] == q + 1;
      SlotInjective(c.capacity, pos, q);
    }
  }

  /** Every slot is the slot of exactly one position of the current lap. */
  lemma WindowPosition(c: Config, s: State, pos: nat) returns (q: nat)
    requires c.capacity > 0
    ensures Freed(s) <= q < Freed(s) + c.capacity && c.Slot(q) == c.Slot(pos)
  {
    var cap := c.capacity;
    var f := Freed(s);
    q := f + (pos - f) % cap;
    var a := (pos - f) / cap;
    assert pos == cap * a + q;
    var b := q / cap;
    assert pos == cap * (a + b) + q % cap;
    SlotOfSum(cap, a + b, q % cap);
  }

  /** A full ring is exactly what makes the non-blocking test fail. */
  lemma TestFailsIffFull(c: Config, s: State)
    requires Inv(c, s)
    requires |s.log| <= Freed(s) + c.capacity
    ensures s.sequence[c.Slot(|s.log|)] != |s.log| <==> |s.log| == Freed(s) + c.capacity
  {
    if |s.log| == Freed(s) + c.capacity {
      NextLapSameSlot(c.capacity, Freed(s));
      assert s.sequence[c.Slot(Freed(s))] <= Freed(s) + 1;
    }
  }

  lemma TryTestKeepsInv(c: Config, s: State, t: nat)
    requires Inv(c, s) && t < |s.producers| && TryTestStep(c, s, t).Some?
    ensures Inv(c, TryTestStep(c, s, t).value)
  {
    var s' := TryTestStep(c, s, t).value;
    if s.sequence[c.Slot(s.writeIndex)] == s.writeIndex {
      FreeSlotIsInWindow(c, s, s.writeIndex);
    }
    forall p | Freed(s) <= p < |s'.log| ensures Owned(s', p) || (p < Freed(s) + c.capacity && Published(c, s', p)) {
      assert Owned(s, p) ==> Owned(s', p);
    }
    assert ProducerOk(c, s', t);
  }

  lemma TryFetchAddKeepsInv(c: Config, s: State, t: nat)
    requires Inv(c, s) && t < |s.producers| && TryFetchAddStep(c, s, t).Some?
    ensures Inv(c, TryFetchAddStep(c, s, t).value)
  {
    var s' := TryFetchAddStep(c, s, t).value;
    var w := |s.log|;
    assert ProducerOk(c, s, t);
    assert ProducerOk(c, s', t);
    forall p | Freed(s) <= p < |s'.log| ensures Owned(s', p) || (p < Freed(s) + c.capacity && Published(c, s', p)) {
      if p < w {
        assert s'.log[p] == s.log[p];
        assert !Owned(s, p);
      }
    }
    assert s'.log[..s'.readIndex] == s.log[..s.readIndex];
  }

  lemma StoreWordKeepsInv(c: Config, s: State, t: nat)
    requires Inv(c, s) && t < |s.producers| && StoreWordStep(c, s, t).Some?
    ensures Inv(c, StoreWordStep(c, s, t).value)
  {
    var s' := StoreWordStep(c, s, t).value;
    assert ProducerOk(c, s, t);
    var Copying(pos, item, k) := s.producers[t].pc;
    var i := c.Slot(pos);
    assert s'.data[i][..k + 1] == s.data[i][..k] + [item[k]];
    assert item[..k + 1] == item[..k] + [item[k]];
    OnlyHolderOfSlot(c, s, t);
    forall u | 0 <= u < |s.producers| ensures ProducerOk(c, s', u) {
      assert ProducerOk(c, s, u);
    }
    forall p | Freed(s) <= p < Freed(s) + c.capacity
      ensures s'.sequence[c.Slot(p)] == p || (p < |s'.log| && Published(c, s', p))
    {
      if c.Slot(p) == i { SlotInjective(c.capacity, p, pos); }
    }
    forall p | Freed(s) <= p < |s'.log| ensures Owned(s', p) || (p < Freed(s) + c.capacity && Published(c, s', p)) {
      assert Owned(s, p) ==> Owned(s', p);
      if Published(c, s, p) && c.Slot(p) == i && p < Freed(s) + c.capacity { SlotInjective(c.capacity, p, pos); }
    }
  }

  /** Nobody else is past the sequence test on the slot a producer is copying into. */
  lemma OnlyHolderOfSlot(c: Config, s: State, t: nat)
    requires Inv(c, s) && t < |s.producers| && s.producers[t].pc.Copying?
    ensures forall u | 0 <= u < |s.producers| && u != t && s.producers[u].pc.Copying? ::
              c.Slot(s.producers[u].pc.pos) != c.Slot(s.producers[t].pc.pos)
    ensures forall u | 0 <= u < |s.producers| :: !s.producers[u].pc.Cleared?
    ensures s.consumer.Reading? ==> c.Slot(s.readIndex) != c.Slot(s.producers[t].pc.pos)
  {
    assert ProducerOk(c, s, t);
    var pos := s.producers[t].pc.pos;
    forall u | 0 <= u < |s.producers| && u != t && s.producers[u].pc.Copying?
      ensures c.Slot(s.producers[u].pc.pos) != c.Slot(pos)
    {
      assert ProducerOk(c, s, u);
      if c.Slot(s.producers[u].pc.pos) == c.Slot(pos) {
        SlotInjective(c.capacity, s.producers[u].pc.pos, pos);
      }
    }
    forall u | 0 <= u < |s.producers| ensures !s.producers[u].pc.Cleared? {
      assert ProducerOk(c, s, u);
    }
    if s.consumer.Reading? && c.Slot(s.readIndex) == c.Slot(pos) {
      SlotInjective(c.capacity, s.readIndex, pos);
    }
  }

  lemma PublishKeepsInv(c: Config, s: State, t: nat)
    requires Inv(c, s) && t < |s.producers| && PublishStep(c, s, t).Some?
    ensures Inv(c, PublishStep(c, s, t).value)
  {
    var s' := PublishStep(c, s, t).value;
    assert ProducerOk(c, s, t);
    var Copying(pos, item, k) := s.producers[t].pc;
    var i := c.Slot(pos);
    assert s.data[i][..k] == s.data[i] && item[..k] == item;
    OnlyHolderOfSlot(c, s, t);
    forall u | 0 <= u < |s.producers| ensures ProducerOk(c, s', u) {
      assert ProducerOk(c, s, u);
    }
    forall p | Freed(s) <= p < Freed(s) + c.capacity
      ensures s'.sequence[c.Slot(p)] == p || (p < |s'.log| && Published(c, s', p))
    {
      if c.Slot(p) == i { SlotInjective(c.capacity, p, pos); }
    }
    forall p | Freed(s) <= p < |s'.log| ensures Owned(s', p) || (p < Freed(s) + c.capacity && Published(c, s', p)) {
      if p != pos {
        assert Owned(s, p) ==> Owned(s', p);
        if p < Freed(s) + c.capacity && c.Slot(p) == i { SlotInjective(c.capacity, p, pos); }
      }
    }
  }

  lemma TestReadyKeepsInv(c: Config, s: State)
    requires Inv(c, s) && TestReadyStep(c, s).Some?
    ensures Inv(c, TestReadyStep(c, s).value)
  {
    var s' := TestReadyStep(c, s).value;
    if s' != s {
      assert s.sequence[c.Slot(s.readIndex)] == s.readIndex + 1;
      forall u | 0 <= u < |s.producers| ensures ProducerOk(c, s', u) {
        assert ProducerOk(c, s, u);
      }
      forall p | Freed(s) <= p < |s'.log| ensures Owned(s', p) || (p < Freed(s) + c.capacity && Published(c, s', p)) {
        assert Owned(s, p) ==> Owned(s', p);
      }
    }
  }

  lemma LoadWordKeepsInv(c: Config, s: State)
    requires Inv(c, s) && LoadWordStep(c, s).Some?
    ensures Inv(c, LoadWordStep(c, s).value)
  {
    var s' := LoadWordStep(c, s).value;
    forall u | 0 <= u < |s.producers| ensures ProducerOk(c, s', u) {
      assert ProducerOk(c, s, u);
    }
    forall p | Freed(s) <= p < |s'.log| ensures Owned(s', p) || (p < Freed(s) + c.capacity && Published(c, s', p)) {
      assert Owned(s, p) ==> Owned(s', p);
    }
    var got, item := s.consumer.got, s.log[s.readIndex].item;
    assert item[..|got| + 1] == item[..|got|] + [item[|got|]];
  }

  lemma RecycleKeepsInv(c: Config, s: State)
    requires Inv(c, s) && RecycleStep(c, s).Some?
    ensures Inv(c, RecycleStep(c, s).value)
  {
    var s' := RecycleStep(c, s).value;
    var r := s.readIndex;
    NextLapSameSlot(c.capacity, r);
    assert s'.consumer.got == s.log[r].item;
    forall u | 0 <= u < |s.producers| ensures ProducerOk(c, s', u) {
      assert ProducerOk(c, s, u);
      var pc := s.producers[u].pc;
      if !pc.Idle? && pc.pos < r + 1 + c.capacity && c.Slot(pc.pos) == c.Slot(r) && pc.pos != r + c.capacity {
        SlotInjective(c.capacity, pc.pos, r);
      }
    }
    forall p | r + 1 <= p < r + 1 + c.capacity
      ensures s'.sequence[c.Slot(p)] == p || (p < |s'.log| && Published(c, s', p))
    {
      if c.Slot(p) == c.Slot(r) && p != r + c.capacity { SlotInjective(c.capacity, p, r); }
    }
    forall p | r + 1 <= p < |s'.log| ensures Owned(s', p) || (p < r + 1 + c.capacity && Published(c, s', p)) {
      assert Owned(s, p) ==> Owned(s', p);
      if p < r + c.capacity && c.Slot(p) == c.Slot(r) { SlotInjective(c.capacity, p, r); }
    }
  }

  lemma AdvanceKeepsInv(c: Config, s: State)
    requires Inv(c, s) && AdvanceStep(c, s).Some?
    ensures Inv(c, AdvanceStep(c, s).value)
  {
    var s' := AdvanceStep(c, s).value;
    assert Freed(s') == Freed(s);
    forall u | 0 <= u < |s.producers| ensures ProducerOk(c, s', u) {
      assert ProducerOk(c, s, u);
    }
    forall p | Freed(s) <= p < |s'.log| ensures Owned(s', p) || (p < Freed(s) + c.capacity && Published(c, s', p)) {
      assert Owned(s, p) ==> Owned(s', p);
    }
    assert s.log[..s.readIndex + 1] == s.log[..s.readIndex] + [s.log[s.readIndex]];
    assert Items(s.log[..s.readIndex + 1]) == Items(s.log[..s.readIndex]) + [s.log[s.readIndex].item];
  }
}
