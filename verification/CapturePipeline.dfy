/**
 The ring and the tickerplant thread together, access by access: producers may be anywhere inside
 their calls while the consumer reads, journals, books and counts. The journal is related to what the
 ring has delivered, and at shutdown to everything the producers had accepted.
 */
module CapturePipeline {
  import opened Wrappers
  import opened Sequences
  import opened RingProtocol
  import opened RingInvariant
  import opened RingSafety
  import opened RingOffers
  import opened OrderBooks
  import opened Tickerplants

  /** `decode` reads the words of a payload as a tick. */
  datatype Plant = Plant(ring: Config, rotationMinutes: int, decode: Item -> Tick)

  /** Where the consumer thread stands: in consume or between turns, or with a tick in hand. */
  datatype Phase = Draining | Writing(tick: Tick) | Booking(tick: Tick) | Counting

  /** `booked` are the ticks applied to the live book, `clock` the reading of the last rotation; `orderly`
      says that no open failed and no rotation went back in time. */
  datatype Sys = Sys(
    ring: State, files: Directory, journalOpen: bool, slot: int, booked: seq<Tick>, ticksWritten: nat,
    phase: Phase, clock: nat, orderly: bool)

  datatype Event =
    | Access(a: Action)              // one access of a producer or of consume
    | WriteTick
    | BookTick
    | CountTick
    | ReadClock(now: nat, opens: bool)

  predicate ByConsumer(a: Action) { a.TestReady? || a.LoadWord? || a.Recycle? || a.Advance? }

  function SysStep(p: Plant, s: Sys, e: Event): Option<Sys>
    requires Shaped(p.ring, s.ring)
  {
    match e
    case Access(a) => AccessStep(p, s, a)
    case WriteTick =>
      if !s.phase.Writing? || (s.journalOpen && s.slot !in s.files) then None
      else
        var files := if s.journalOpen then s.files[s.slot := s.files[s.slot] + [s.phase.tick]] else s.files;
        Some(s.(files := files, phase := Booking(s.phase.tick)))
    case BookTick =>
      if !s.phase.Booking? then None
      else
        var booked := if s.phase.tick.eventType == 0 then s.booked + [s.phase.tick] else s.booked;
        Some(s.(booked := booked, phase := Counting))
    case CountTick =>
      if s.phase != Counting then None else Some(s.(ticksWritten := s.ticksWritten + 1, phase := Draining))
    case ReadClock(now, opens) =>
      if s.phase != Draining || s.ring.consumer != Waiting then None
      else if p.rotationMinutes > 0 && TimeSlot(p.rotationMinutes, now) != s.slot then Some(Rotated(p, s, now, opens))
      else Some(s)
  }

  function AccessStep(p: Plant, s: Sys, a: Action): Option<Sys>
    requires Shaped(p.ring, s.ring)
  {
    if ByConsumer(a) && s.phase != Draining then None
    else
      var r := Step(p.ring, s.ring, a);
      if r.None? then None
      else if a.Advance? && s.ring.consumer.Recycled? then
        Some(s.(ring := r.value, phase := Writing(p.decode(s.ring.consumer.got))))
      else Some(s.(ring := r.value))
  }

  function Rotated(p: Plant, s: Sys, now: nat, opens: bool): Sys {
    var slot := TimeSlot(p.rotationMinutes, now);
    s.(slot := slot, files := if opens then Opened(s.files, slot) else s.files, journalOpen := opens,
       clock := now, orderly := s.orderly && opens && s.clock <= now)
  }

  ghost predicate Starts(p: Plant, s: Sys, now: nat, directory: Directory) {
    && Init(p.ring, s.ring) && p.ring.Unbounded() && p.ring.capacity >= 2
    && s == Sys(s.ring, Opened(directory, s.slot), true, TimeSlot(p.rotationMinutes, now), [], 0, Draining, now,
                s.orderly)
    && (s.orderly <==> forall k | k in directory :: k <= s.slot)
  }

  ghost predicate SysReaches(p: Plant, s: Sys, events: seq<Event>, s': Sys)
    requires Shaped(p.ring, s.ring)
    decreases |events|
  {
    if events == [] then s' == s
    else
      && SysStep(p, s, events[0]).Some?
      && (SysStepKeepsShape(p, s, events[0]);
          SysReaches(p, SysStep(p, s, events[0]).value, events[1..], s'))
  }

  lemma SysStepKeepsShape(p: Plant, s: Sys, e: Event)
    requires Shaped(p.ring, s.ring) && SysStep(p, s, e).Some?
    ensures Shaped(p.ring, SysStep(p, s, e).value.ring)
  {
    if e.Access? { StepKeepsShape(p.ring, s.ring, e.a); }
  }

  // ---- what the consumer thread has done so far ----

  function Decoded(p: Plant, items: seq<Item>): (r: seq<Tick>)
    ensures |r| == |items| && forall i | 0 <= i < |items| :: r[i] == p.decode(items[i])
  {
    seq(|items|, i requires 0 <= i < |items| => p.decode(items[i]))
  }

  lemma DecodedOneMore(p: Plant, items: seq<Item>, item: Item)
    ensures Decoded(p, items + [item]) == Decoded(p, items) + [p.decode(item)]
  {
  }

  /** The first n ticks the ring has delivered. */
  function Delivered(p: Plant, s: Sys, n: nat): seq<Tick>
    requires n <= |s.ring.out|
  {
    Decoded(p, s.ring.out[..n])
  }

  /** How many delivered ticks have not reached the journal, the book and the counter. */
  function NotWritten(ph: Phase): nat { if ph.Writing? then 1 else 0 }
  function NotBooked(ph: Phase): nat { if ph.Writing? || ph.Booking? then 1 else 0 }
  function NotCounted(ph: Phase): nat { if ph == Draining then 0 else 1 }

  ghost predicate InHand(p: Plant, s: Sys) {
    && NotCounted(s.phase) <= |s.ring.out|
    && (s.phase.Writing? || s.phase.Booking? ==> s.phase.tick == p.decode(s.ring.out[|s.ring.out| - 1]))
  }

  ghost predicate Booked(p: Plant, s: Sys)
    requires InHand(p, s)
  {
    && s.ticksWritten == |s.ring.out| - NotCounted(s.phase)
    && s.booked == BookTicks(Delivered(p, s, |s.ring.out| - NotBooked(s.phase)))
  }

  ghost predicate Journalled(p: Plant, s: Sys, first: int, base: seq<Tick>)
    requires InHand(p, s)
  {
    && (s.journalOpen ==> s.slot in s.files)
    && (s.orderly ==>
          && s.journalOpen && first <= s.slot && s.slot == TimeSlot(p.rotationMinutes, s.clock)
          && (forall k | k in s.files :: k <= s.slot)
          && Concatenated(s.files, first, s.slot) == base + Delivered(p, s, |s.ring.out| - NotWritten(s.phase)))
  }

  ghost predicate SysInv(p: Plant, s: Sys, first: int, base: seq<Tick>) {
    Inv(p.ring, s.ring) && InHand(p, s) && Booked(p, s) && Journalled(p, s, first, base)
  }

  lemma StartEstablishesInv(p: Plant, s: Sys, now: nat, directory: Directory)
    requires Starts(p, s, now, directory)
    ensures SysInv(p, s, s.slot, Contents(directory, s.slot))
  {
    InitEstablishesInv(p.ring, s.ring);
    assert Concatenated(s.files, s.slot, s.slot - 1) == [];
    assert Contents(directory, s.slot) + [] == Contents(directory, s.slot);
  }

  lemma AccessDelivers(p: Plant, s: Sys, a: Action)
    requires Shaped(p.ring, s.ring) && AccessStep(p, s, a).Some?
    ensures var s' := AccessStep(p, s, a).value;
            if a.Advance? then s.ring.consumer.Recycled? && s'.ring.out == s.ring.out + [s.ring.consumer.got]
            else s'.ring.out == s.ring.out && s'.phase == s.phase
  {
  }

  /** Ring accesses change nothing of the consumer thread but the delivered items and the phase. */
  lemma SameDeliveries(p: Plant, s: Sys, a: Action)
    requires Shaped(p.ring, s.ring) && InHand(p, s) && AccessStep(p, s, a).Some?
    ensures var s' := AccessStep(p, s, a).value;
            && InHand(p, s') && |s.ring.out| <= |s'.ring.out|
            && s' == s.(ring := s'.ring, phase := s'.phase)
            && |s'.ring.out| - NotWritten(s'.phase) == |s.ring.out| - NotWritten(s.phase)
            && |s'.ring.out| - NotBooked(s'.phase) == |s.ring.out| - NotBooked(s.phase)
            && |s'.ring.out| - NotCounted(s'.phase) == |s.ring.out| - NotCounted(s.phase)
            && forall n: nat | n <= |s.ring.out| :: Delivered(p, s', n) == Delivered(p, s, n)
  {
    AccessDelivers(p, s, a);
    var s' := AccessStep(p, s, a).value;
    forall n: nat | n <= |s.ring.out| ensures Delivered(p, s', n) == Delivered(p, s, n) {
      assert s'.ring.out[..n] == s.ring.out[..n];
    }
  }

  lemma AccessKeepsInv(p: Plant, s: Sys, a: Action, first: int, base: seq<Tick>)
    requires SysInv(p, s, first, base) && AccessStep(p, s, a).Some?
    ensures SysInv(p, AccessStep(p, s, a).value, first, base)
  {
    AccessStepsRing(p, s, a);
    SameDeliveries(p, s, a);
  }

  lemma AccessStepsRing(p: Plant, s: Sys, a: Action)
    requires Inv(p.ring, s.ring) && AccessStep(p, s, a).Some?
    ensures Inv(p.ring, AccessStep(p, s, a).value.ring)
  {
    StepKeepsInv(p.ring, s.ring, a);
  }

  lemma LastDelivered(p: Plant, s: Sys)
    requires s.ring.out != []
    ensures var n := |s.ring.out|;
            Delivered(p, s, n) == Delivered(p, s, n - 1) + [p.decode(s.ring.out[n - 1])]
  {
    var n := |s.ring.out|;
    assert s.ring.out[..n] == s.ring.out[..n - 1] + [s.ring.out[n - 1]];
    DecodedOneMore(p, s.ring.out[..n - 1], s.ring.out[n - 1]);
  }

  lemma JournalledOneMore(p: Plant, s: Sys, first: int, base: seq<Tick>)
    requires Shaped(p.ring, s.ring) && InHand(p, s) && Journalled(p, s, first, base)
    requires SysStep(p, s, WriteTick).Some? && s.orderly
    ensures Concatenated(SysStep(p, s, WriteTick).value.files, first, s.slot) == base + Delivered(p, s, |s.ring.out|)
  {
    LastDelivered(p, s);
    AppendExtendsJournal(s.files, first, s.slot, s.phase.tick);
    Associative(base, Delivered(p, s, |s.ring.out| - 1), [s.phase.tick]);
  }

  lemma WriteKeepsInv(p: Plant, s: Sys, first: int, base: seq<Tick>)
    requires SysInv(p, s, first, base) && SysStep(p, s, WriteTick).Some?
    ensures SysInv(p, SysStep(p, s, WriteTick).value, first, base)
  {
    if s.orderly { JournalledOneMore(p, s, first, base); }
    var s' := SysStep(p, s, WriteTick).value;
    assert s' == s.(files := s'.files, phase := s'.phase);
  }

  lemma BookedOneMore(p: Plant, s: Sys)
    requires Shaped(p.ring, s.ring) && InHand(p, s) && Booked(p, s)
    requires SysStep(p, s, BookTick).Some?
    ensures SysStep(p, s, BookTick).value.booked == BookTicks(Delivered(p, s, |s.ring.out|))
  {
    LastDelivered(p, s);
    OneMoreBookTick(Delivered(p, s, |s.ring.out| - 1), s.phase.tick);
  }

  lemma BookKeepsInv(p: Plant, s: Sys, first: int, base: seq<Tick>)
    requires SysInv(p, s, first, base) && SysStep(p, s, BookTick).Some?
    ensures SysInv(p, SysStep(p, s, BookTick).value, first, base)
  {
    BookedOneMore(p, s);
    var s' := SysStep(p, s, BookTick).value;
    assert s' == s.(booked := s'.booked, phase := Counting);
  }

  lemma ClockKeepsInv(p: Plant, s: Sys, now: nat, opens: bool, first: int, base: seq<Tick>)
    requires SysInv(p, s, first, base) && SysStep(p, s, ReadClock(now, opens)).Some?
    ensures SysInv(p, SysStep(p, s, ReadClock(now, opens)).value, first, base)
  {
    var slot := TimeSlot(p.rotationMinutes, now);
    if s.orderly && s.clock <= now {
      TimeSlotMonotone(p.rotationMinutes, s.clock, now);
      RotationKeepsJournal(s.files, first, s.slot, slot);
    }
  }

  /** A clock reading between turns leaves the journal in the window of that reading, whatever it was before. */
  lemma ClockReadingRotates(p: Plant, s: Sys, now: nat, opens: bool)
    requires Shaped(p.ring, s.ring) && s.phase == Draining && s.ring.consumer == Waiting && p.rotationMinutes > 0
    ensures SysStep(p, s, ReadClock(now, opens)).Some?
    ensures var s' := SysStep(p, s, ReadClock(now, opens)).value;
            && s'.slot == TimeSlot(p.rotationMinutes, now)
            && (if s'.slot == s.slot then s' == s else s'.journalOpen == opens)
  {
  }

  lemma SysStepKeepsInv(p: Plant, s: Sys, e: Event, first: int, base: seq<Tick>)
    requires SysInv(p, s, first, base) && SysStep(p, s, e).Some?
    ensures SysInv(p, SysStep(p, s, e).value, first, base)
  {
    match e
    case Access(a) => AccessKeepsInv(p, s, a, first, base);
    case WriteTick => WriteKeepsInv(p, s, first, base);
    case BookTick => BookKeepsInv(p, s, first, base);
    case CountTick =>
    case ReadClock(now, opens) => ClockKeepsInv(p, s, now, opens, first, base);
  }

  lemma {:induction false} RunKeepsSysInv(p: Plant, s: Sys, events: seq<Event>, s': Sys, first: int, base: seq<Tick>)
    requires SysInv(p, s, first, base) && SysReaches(p, s, events, s')
    ensures SysInv(p, s', first, base)
    decreases |events|
  {
    if events != [] {
      SysStepKeepsInv(p, s, events[0], first, base);
      RunKeepsSysInv(p, SysStep(p, s, events[0]).value, events[1..], s', first, base);
    }
  }

  /** Every open succeeds and clock readings do not go back. */
  ghost predicate OrderlyEvents(events: seq<Event>, clock: nat)
    decreases |events|
  {
    events != [] ==>
      match events[0]
      case ReadClock(now, opens) => opens && clock <= now && OrderlyEvents(events[1..], now)
      case _ => OrderlyEvents(events[1..], clock)
  }

  lemma {:induction false} OrderlyRunStaysOrderly(p: Plant, s: Sys, events: seq<Event>, s': Sys, clock: nat)
    requires Shaped(p.ring, s.ring) && SysReaches(p, s, events, s') && OrderlyEvents(events, clock)
    requires s.orderly && s.clock <= clock
    ensures s'.orderly
    decreases |events|
  {
    if events != [] {
      SysStepKeepsShape(p, s, events[0]);
      var next := if events[0].ReadClock? then events[0].now else clock;
      OrderlyRunStaysOrderly(p, SysStep(p, s, events[0]).value, events[1..], s', next);
    }
  }

  /** With every producer outside its calls, an empty test means that nothing claimed is left in the ring. */
  lemma EmptyTestMeansDrained(c: Config, s: State)
    requires Inv(c, s) && s.consumer == Waiting
    requires forall t | 0 <= t < |s.producers| :: s.producers[t].pc == Idle
    ensures TestReadyStep(c, s) == Some(s) <==> s.readIndex == |s.log|
  {
    if s.readIndex < |s.log| {
      assert !Owned(s, s.readIndex);
      assert Published(c, s, s.readIndex);
    } else {
      assert s.sequence[c.Slot(s.readIndex)] == s.readIndex;
    }
  }

  /** At every moment of every run, calls overlapping or not, a reader that sees ticks_written = k finds at
      least the first k delivered ticks in the book, and these are the first claims in claim order; in an
      orderly run the files in slot order hold what was delivered, but for a tick in hand. */
  lemma PipelineFollowsClaims(p: Plant, s: Sys, now: nat, directory: Directory, events: seq<Event>, s': Sys)
    returns (booked: nat)
    requires Starts(p, s, now, directory) && SysReaches(p, s, events, s')
    ensures s'.ticksWritten <= booked <= |s'.ring.out| <= |s'.ring.log|
    ensures s'.ring.out == Items(s'.ring.log[..|s'.ring.out|])
    ensures s'.booked == BookTicks(Decoded(p, s'.ring.out[..booked]))
    ensures s.orderly && OrderlyEvents(events, now) && !s'.phase.Writing? ==>
              Concatenated(s'.files, s.slot, s'.slot) == Contents(directory, s.slot) + Decoded(p, s'.ring.out)
  {
    StartEstablishesInv(p, s, now, directory);
    RunKeepsSysInv(p, s, events, s', s.slot, Contents(directory, s.slot));
    booked := |s'.ring.out| - NotBooked(s'.phase);
    OutIsReadIndex(p.ring, s'.ring);
    if s.orderly && OrderlyEvents(events, now) {
      OrderlyRunStaysOrderly(p, s, events, s', now);
      assert s'.ring.out[..|s'.ring.out|] == s'.ring.out;
    }
  }

  lemma OutIsReadIndex(c: Config, s: State)
    requires Inv(c, s)
    ensures |s.out| == s.readIndex <= |s.log|
  {
  }

  /** The shutdown order: producers have left their calls, then the final drain runs until consume finds
      nothing. Then every accepted tick is counted and in the book, and in an orderly run the files in slot
      order hold exactly the accepted ticks. */
  lemma ShutdownKeepsEverything(p: Plant, s: Sys, now: nat, directory: Directory, events: seq<Event>, s': Sys)
    requires Starts(p, s, now, directory) && SysReaches(p, s, events, s')
    requires forall t | 0 <= t < |s'.ring.producers| :: s'.ring.producers[t].pc == Idle
    requires s'.phase == Draining && s'.ring.consumer == Waiting && Shaped(p.ring, s'.ring)
    requires TestReadyStep(p.ring, s'.ring) == Some(s'.ring)
    ensures s'.ticksWritten == |s'.ring.log|
    ensures s'.booked == BookTicks(Decoded(p, Items(s'.ring.log)))
    ensures s.orderly && OrderlyEvents(events, now) ==>
              Concatenated(s'.files, s.slot, s'.slot) == Contents(directory, s.slot) + Decoded(p, Items(s'.ring.log))
  {
    StartEstablishesInv(p, s, now, directory);
    RunKeepsSysInv(p, s, events, s', s.slot, Contents(directory, s.slot));
    EmptyTestMeansDrained(p.ring, s'.ring);
    OutIsReadIndex(p.ring, s'.ring);
    assert s'.ring.log[..|s'.ring.log|] == s'.ring.log && s'.ring.out[..|s'.ring.out|] == s'.ring.out;
    var booked := PipelineFollowsClaims(p, s, now, directory, events, s');
  }

  // ---- what was offered ----

  /** The ring accesses of a run. */
  function Accesses(events: seq<Event>): seq<Action> {
    if events == [] then []
    else (if events[0].Access? then [events[0].a] else []) + Accesses(events[1..])
  }

  lemma {:induction false} SysRunRunsRing(p: Plant, s: Sys, events: seq<Event>, s': Sys)
    requires Shaped(p.ring, s.ring) && SysReaches(p, s, events, s')
    ensures Reaches(p.ring, s.ring, Accesses(events), s'.ring)
    decreases |events|
  {
    if events != [] {
      SysStepKeepsShape(p, s, events[0]);
      SysRunRunsRing(p, SysStep(p, s, events[0]).value, events[1..], s');
      if events[0].Access? {
        assert Accesses(events)[1..] == Accesses(events[1..]);
      } else {
        assert Accesses(events) == Accesses(events[1..]);
      }
    }
  }

  lemma {:induction false} LoneOwnersItems(log: seq<Claim>)
    requires forall i | 0 <= i < |log| :: log[i].owner == 0
    ensures ItemsOf(log, 0) == Items(log)
  {
    if log != [] {
      var front := log[..|log| - 1];
      LoneOwnersItems(front);
      assert Items(log) == Items(front) + [log[|log| - 1].item];
    }
  }

  /** The items a lone producer offered while the ring was not full, of all it was to send. */
  ghost function TakenOffers(p: Plant, s: Sys, events: seq<Event>): seq<Item>
    requires Shaped(p.ring, s.ring) && |s.ring.producers| == 1
    requires |Outcomes(p.ring, s.ring, Accesses(events), 0)| <= |s.ring.producers[0].todo|
  {
    var o := Outcomes(p.ring, s.ring, Accesses(events), 0);
    Select(s.ring.producers[0].todo[..|o|], o)
  }

  lemma LogIsTakenOffers(p: Plant, s: Sys, now: nat, directory: Directory, events: seq<Event>, s': Sys)
    requires Starts(p, s, now, directory) && SysReaches(p, s, events, s') && |s.ring.producers| == 1
    ensures |s'.ring.producers| == 1
    ensures var o := Outcomes(p.ring, s.ring, Accesses(events), 0);
            |o| <= |s.ring.producers[0].todo| && s'.ring.producers[0].todo == s.ring.producers[0].todo[|o|..]
    ensures s'.ring.producers[0].pc == Idle ==> Items(s'.ring.log) == TakenOffers(p, s, events)
  {
    SysRunRunsRing(p, s, events, s');
    EveryOfferIsSettled(p.ring, s.ring, Accesses(events), s'.ring, 0);
    RunKeepsHistory(p.ring, s.ring, Accesses(events), s'.ring);
    LoneOwnersItems(s'.ring.log);
    EmptyIsUnit(s'.ring.producers[0].sent);
  }

  /** The feed's side of it: at shutdown the book has seen, and in an orderly run the files hold, exactly the
      ticks offered while fewer than `capacity` accepted ones waited to be recycled, in the order offered. */
  lemma ShutdownJournalsOffers(p: Plant, s: Sys, now: nat, directory: Directory, events: seq<Event>, s': Sys)
    requires Starts(p, s, now, directory) && SysReaches(p, s, events, s')
    requires |s.ring.producers| == |s'.ring.producers| == 1 && s'.ring.producers[0].pc == Idle
    requires s'.phase == Draining && s'.ring.consumer == Waiting && Shaped(p.ring, s'.ring)
    requires TestReadyStep(p.ring, s'.ring) == Some(s'.ring)
    ensures var o := Outcomes(p.ring, s.ring, Accesses(events), 0);
            |o| <= |s.ring.producers[0].todo| && s'.ring.producers[0].todo == s.ring.producers[0].todo[|o|..]
    ensures s'.ticksWritten == |TakenOffers(p, s, events)|
    ensures s'.booked == BookTicks(Decoded(p, TakenOffers(p, s, events)))
    ensures s.orderly && OrderlyEvents(events, now) ==>
              Concatenated(s'.files, s.slot, s'.slot)
              == Contents(directory, s.slot) + Decoded(p, TakenOffers(p, s, events))
  {
    LogIsTakenOffers(p, s, now, directory, events, s');
    ShutdownKeepsEverything(p, s, now, directory, events, s');
  }
}
