/**
 The ring as its single consumer and a lone producer use it: whole calls of `try_produce` and
 `consume`, on the arrays the calls update in place. Interleaved accesses are in `RingProtocol`.
 */
module RingBuffers {
  import opened Wrappers
  import opened Arithmetic

  class RingBuffer<T(0)> {
    const capacity: nat
    const sequence: array<nat>
    const data: array<T>
    var writeIndex: nat
    var readIndex: nat
    ghost var accepted: seq<T>  // every item ever enqueued, in order

    ghost predicate Valid()
      reads this, sequence, data
    {
      && capacity >= 2
      && sequence.Length == data.Length == capacity
      && (sequence as object) != data
      && readIndex <= writeIndex == |accepted| <= readIndex + capacity
      && (forall p | readIndex <= p < writeIndex ::
            sequence[p % capacity] == p + 1 && data[p % capacity] == accepted[p])
      && (forall p | writeIndex <= p < readIndex + capacity :: sequence[p % capacity] == p)
    }

    /** The items enqueued and not consumed yet, oldest first. */
    ghost function Contents(): seq<T>
      reads this, sequence, data
      requires Valid()
    {
      accepted[readIndex..]
    }

    constructor (capacity: nat)
      requires capacity >= 2
      ensures Valid() && Contents() == [] && accepted == [] && readIndex == 0
      ensures this.capacity == capacity && fresh(sequence) && fresh(data)
    {
      this.capacity := capacity;
      sequence := new nat[capacity](i => i);
      data := new T[capacity];
      writeIndex, readIndex := 0, 0;
      accepted := [];
      new;
      forall p | 0 <= p < capacity ensures sequence[p % capacity] == p {
        SlotOfSum(capacity, 0, p);
      }
    }

    /** Refuses exactly when the ring is full; otherwise the item joins the end of the queue. */
    method TryProduce(item: T) returns (ok: bool)
      requires Valid()
      modifies this`writeIndex, this`accepted, sequence, data
      ensures Valid()
      ensures ok <==> old(|Contents()|) < capacity
      ensures accepted == if ok then old(accepted) + [item] else old(accepted)
      ensures Contents() == if ok then old(Contents()) + [item] else old(Contents())
    {
      var pos := writeIndex;
      var slot := pos % capacity;
      if writeIndex == readIndex + capacity {
        NextLapSameSlot(capacity, readIndex);
      }
      if sequence[slot] != pos {
        return false;
      }
      writeIndex := writeIndex + 1;
      data[slot] := item;
      sequence[slot] := pos + 1;
      accepted := accepted + [item];
      forall p | readIndex <= p < readIndex + capacity && p % capacity == slot ensures p == pos {
        SlotInjective(capacity, p, pos);
      }
      return true;
    }

    /** Takes the oldest item; None exactly when the queue is empty. */
    method Consume() returns (out: Option<T>)
      requires Valid()
      modifies this`readIndex, sequence
      ensures Valid()
      ensures old(Contents()) == [] ==> out == None && Contents() == []
      ensures old(Contents()) != [] ==> out == Some(old(Contents())[0]) && Contents() == old(Contents())[1..]
      ensures readIndex == old(readIndex) + if out.Some? then 1 else 0
    {
      var slot := readIndex % capacity;
      if sequence[slot] != readIndex + 1 {
        return None;
      }
      out := Some(data[slot]);
      sequence[slot] := readIndex + capacity;
      NextLapSameSlot(capacity, readIndex);
      forall p | readIndex <= p < readIndex + capacity && p % capacity == slot ensures p == readIndex {
        SlotInjective(capacity, p, readIndex);
      }
      readIndex := readIndex + 1;
    }
  }
}
