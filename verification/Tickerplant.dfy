/**
 The consumer thread: every tick drained from the ring goes to the journal file of the current
 rotation window, book-level ticks also update the live book, and a counter is advanced last.
 Files are keyed by window number; their order is the order of the file names.
 */
module Tickerplants {
  import opened Wrappers
  import opened Arithmetic
  import opened RingBuffers
  import opened OrderBooks
  import opened TurnQueues

  type Directory = map<int, seq<Tick>>

  const MAINTENANCE_EVERY: nat := 1024

  /** Rotation window of a wall-clock second; a non-positive interval means one single window. */
  function TimeSlot(rotationMinutes: int, now: nat): int {
    if rotationMinutes <= 0 then 0 else (now / 60) / rotationMinutes
  }

  lemma TimeSlotMonotone(rotationMinutes: int, earlier: nat, later: nat)
    requires earlier <= later
    ensures TimeSlot(rotationMinutes, earlier) <= TimeSlot(rotationMinutes, later)
  {
    if rotationMinutes > 0 {
      QuotientMonotone(earlier / 60, later / 60, rotationMinutes);
    }
  }

  lemma MinutesOfWindow(minutes: nat, rotation: nat)
    requires rotation > 0
    ensures (minutes / rotation) * rotation <= minutes < (minutes / rotation + 1) * rotation
  {
  }

  /** Window number n covers the seconds from n intervals after the epoch up to the next interval. */
  lemma SlotCoversClock(rotationMinutes: int, now: nat)
    ensures rotationMinutes > 0 ==>
              var slot := TimeSlot(rotationMinutes, now);
              slot * rotationMinutes * 60 <= now < (slot + 1) * rotationMinutes * 60
    ensures rotationMinutes <= 0 ==> TimeSlot(rotationMinutes, now) == 0
  {
    if rotationMinutes > 0 { MinutesOfWindow(now / 60, rotationMinutes); }
  }

  function Contents(files: Directory, slot: int): seq<Tick> {
    if slot in files then files[slot] else []
  }

  /** The files of windows lo..hi, concatenated in window order. */
  function Concatenated(files: Directory, lo: int, hi: int): seq<Tick>
    decreases hi - lo
  {
    if hi < lo then [] else Concatenated(files, lo, hi - 1) + Contents(files, hi)
  }

  lemma {:induction false} OtherFilesDoNotMatter(files: Directory, lo: int, hi: int, slot: int, ticks: seq<Tick>)
    requires hi < slot
    ensures Concatenated(files[slot := ticks], lo, hi) == Concatenated(files, lo, hi)
    decreases hi - lo
  {
    if lo <= hi { OtherFilesDoNotMatter(files, lo, hi - 1, slot, ticks); }
  }

  lemma {:induction false} EmptyWindowsAddNothing(files: Directory, lo: int, hi: int, later: int)
    requires hi <= later && forall k | k in files && hi < k <= later :: files[k] == []
    ensures Concatenated(files, lo, later) == Concatenated(files, lo, hi)
    decreases later - hi
  {
    if hi < later { EmptyWindowsAddNothing(files, lo, hi, later - 1); }
  }

  /** Opening for append creates an empty file or leaves an existing one as it is. */
  function Opened(files: Directory, slot: int): Directory {
    files[slot := Contents(files, slot)]
  }

  lemma {:induction false} OpeningChangesNoContents(files: Directory, slot: int, lo: int, hi: int)
    ensures Concatenated(Opened(files, slot), lo, hi) == Concatenated(files, lo, hi)
    decreases hi - lo
  {
    if lo <= hi { OpeningChangesNoContents(files, slot, lo, hi - 1); }
  }

  /** Appending to the current file appends to the whole journal. */
  lemma AppendExtendsJournal(files: Directory, lo: int, slot: int, tick: Tick)
    requires lo <= slot && slot in files
    ensures Concatenated(files[slot := files[slot] + [tick]], lo, slot) == Concatenated(files, lo, slot) + [tick]
  {
    OtherFilesDoNotMatter(files, lo, slot - 1, slot, files[slot] + [tick]);
  }

  /** Moving on to a later window leaves the journal as it is. */
  lemma RotationKeepsJournal(files: Directory, lo: int, slot: int, next: int)
    requires slot <= next && forall k | k in files :: k <= slot
    ensures Concatenated(Opened(files, next), lo, next) == Concatenated(files, lo, slot)
  {
    OpeningChangesNoContents(files, next, lo, next);
    EmptyWindowsAddNothing(files, lo, slot, next);
  }

  function BookTicks(ticks: seq<Tick>): seq<Tick> {
    if ticks == [] then []
    else
      var last := ticks[|ticks| - 1];
      BookTicks(ticks[..|ticks| - 1]) + if last.eventType == 0 then [last] else []
  }

  lemma OneMoreBookTick(ticks: seq<Tick>, tick: Tick)
    ensures BookTicks(ticks + [tick]) == BookTicks(ticks) + if tick.eventType == 0 then [tick] else []
  {
    assert (ticks + [tick])[..|ticks|] == ticks;
  }

  lemma NextBookTick(ticks: seq<Tick>, n: nat)
    requires n < |ticks|
    ensures BookTicks(ticks[..n + 1]) == BookTicks(ticks[..n]) + if ticks[n].eventType == 0 then [ticks[n]] else []
  {
    assert ticks[..n + 1][..n] == ticks[..n];
  }

  /** The clock never goes back during the turns, starting from `start`. */
  ghost predicate ClockRuns(turns: seq<Turn>, start: nat) {
    && (forall i | 0 <= i < |turns| :: start <= turns[i].now)
    && forall i, j | 0 <= i < j < |turns| :: turns[i].now <= turns[j].now
  }

  ghost predicate AllOpen(turns: seq<Turn>) {
    forall i | 0 <= i < |turns| :: turns[i].opens
  }

  class Tickerplant {
    const ring: RingBuffer<Tick>
    const book: OrderBook
    const rotationMinutes: int
    var files: Directory
    var journalOpen: bool  // journal_fp_ is not null
    var currentSlot: int
    var ticksWritten: nat
    var loopIters: nat
    var lastMaintenance: nat
    ghost var applied: nat         // drained ticks whose effect has reached the book
    ghost var firstSlot: int       // window of the first journal file
    ghost var base: seq<Tick>      // what the directory held for windows from firstSlot on
    ghost var lastNow: nat         // latest clock reading acted on
    ghost var intact: bool         // no file of a future window, no failed open, no clock going back

    ghost predicate Separate()
      reads this, ring, book
    {
      && (ring as object) != this && (book as object) != this && (ring as object) != book
      && {ring.sequence as object, ring.data} !! {this, ring, book, book.books}
      && (book.books as object) !in {this as object, ring, book}
    }

    /** A reader that sees ticksWritten == k sees at least the first k drained ticks in the book. */
    ghost predicate ReaderView()
      reads this, ring, book
    {
      && ticksWritten <= applied <= ring.readIndex <= |ring.accepted|
      && book.seen == BookTicks(ring.accepted[..applied])
    }

    /** Until something fails, the journal holds exactly the first `n` ticks the ring accepted. */
    ghost predicate JournalHolds(n: nat)
      reads this, ring
    {
      intact ==>
        && journalOpen && currentSlot in files && firstSlot <= currentSlot
        && currentSlot == TimeSlot(rotationMinutes, lastNow)
        && (forall k | k in files :: k <= currentSlot)
        && n <= |ring.accepted|
        && Concatenated(files, firstSlot, currentSlot) == base + ring.accepted[..n]
    }

    ghost function RingQueue(): Queue
      reads this, ring
    {
      Queue(ring.accepted, ring.readIndex)
    }

    ghost predicate Valid()
      reads this, ring, ring.sequence, ring.data, book, book.books
    {
      && Separate() && ring.Valid() && book.Valid()
      && ReaderView() && ticksWritten == applied == ring.readIndex
      && JournalOk()
    }

    ghost predicate JournalOk()
      reads this, ring
    {
      (journalOpen ==> currentSlot in files) && JournalHolds(ring.readIndex)
    }

    /** Starts on an unused ring; a first file that cannot be opened is refused by an exception. */
    constructor (ring: RingBuffer<Tick>, rotationMinutes: int, now: nat, directory: Directory)
      requires ring.Valid() && ring.accepted == []
      requires (ring as object) !in {ring.sequence as object, ring.data}
      ensures intact <==> forall k | k in directory :: k <= TimeSlot(rotationMinutes, now)
      ensures Valid() && lastNow == now && this.ring == ring && fresh(book) && fresh(book.books)
      ensures base == Contents(directory, TimeSlot(rotationMinutes, now))
      ensures this.rotationMinutes == rotationMinutes
    {
      this.ring := ring;
      this.book := new OrderBook();
      this.rotationMinutes := rotationMinutes;
      currentSlot := TimeSlot(rotationMinutes, now);
      files := Opened(directory, TimeSlot(rotationMinutes, now));
      journalOpen := true;
      ticksWritten, loopIters, lastMaintenance, applied := 0, 0, now, 0;
      firstSlot := TimeSlot(rotationMinutes, now);
      lastNow := now;
      intact := forall k | k in directory :: k <= TimeSlot(rotationMinutes, now);
      base := Contents(directory, TimeSlot(rotationMinutes, now));
    }

    /** First access of a turn: take a tick and journal it, if a journal file is open. */
    method Fetch() returns (tick: Option<Tick>)
      requires Valid()
      modifies this`files, ring`readIndex, ring.sequence
      ensures ring.Valid() && book.Valid() && ReaderView()
      ensures tick == None <==> old(ring.Contents()) == []
      ensures tick == None ==> Valid() && ring.Contents() == []
      ensures tick.Some? ==> ring.readIndex == old(ring.readIndex) + 1 && tick.value == ring.accepted[old(ring.readIndex)]
      ensures JournalOk()
      ensures files == if tick.Some? && journalOpen then old(files)[currentSlot := old(files)[currentSlot] + [tick.value]]
                       else old(files)
    {
      tick := ring.Consume();
      if tick.Some? {
        Journal(tick.value);
      }
    }

    /** Writes the tick just taken to the current file, if there is one. */
    method Journal(tick: Tick)
      requires (journalOpen ==> currentSlot in files) && 0 < ring.readIndex <= |ring.accepted|
      requires JournalHolds(ring.readIndex - 1) && tick == ring.accepted[ring.readIndex - 1]
      modifies this`files
      ensures JournalOk()
      ensures files == if journalOpen then old(files)[currentSlot := old(files)[currentSlot] + [tick]] else old(files)
    {
      if journalOpen {
        if intact {
          AppendExtendsJournal(files, firstSlot, currentSlot, tick);
          assert ring.accepted[..ring.readIndex] == ring.accepted[..ring.readIndex - 1] + [tick];
        }
        files := files[currentSlot := files[currentSlot] + [tick]];
      }
    }

    /** Second access: book-level ticks reach the live book before the counter moves. */
    method Apply(tick: Tick)
      requires Separate() && ring.Valid() && book.Valid() && ReaderView() && JournalOk()
      requires applied < ring.readIndex && tick == ring.accepted[applied]
      modifies this`applied, book, book.books
      ensures ring.Valid() && book.Valid() && ReaderView() && JournalOk()
      ensures applied == old(applied) + 1
    {
      NextBookTick(ring.accepted, applied);
      if tick.eventType == 0 {
        book.ApplyTick(tick);
      }
      applied := applied + 1;
    }

    /** Drains one tick; false exactly when the ring was empty. */
    method DrainOne() returns (got: bool)
      requires Valid()
      modifies this`files, this`applied, this`ticksWritten, ring`readIndex, ring.sequence, book, book.books
      ensures Valid()
      ensures got <==> old(ring.Contents()) != []
      ensures ring.readIndex == old(ring.readIndex) + if got then 1 else 0
    {
      var tick := Fetch();
      got := tick.Some?;
      if got {
        Apply(tick.value);
        ticksWritten := ticksWritten + 1;
      }
    }

    /** Closes the current file and opens the one of the window `now` falls in. */
    method Rotate(now: nat, opens: bool)
      requires JournalOk() && TimeSlot(rotationMinutes, now) != currentSlot
      modifies this`files, this`journalOpen, this`currentSlot, this`lastNow, this`intact
      ensures JournalOk() && lastNow == now
      ensures intact == (old(intact) && opens && old(lastNow) <= now)
      ensures currentSlot == TimeSlot(rotationMinutes, now) && journalOpen == opens
      ensures files == if opens then Opened(old(files), currentSlot) else old(files)
    {
      intact := intact && opens && lastNow <= now;
      if intact {
        TimeSlotMonotone(rotationMinutes, lastNow, now);
        RotationKeepsJournal(files, firstSlot, currentSlot, TimeSlot(rotationMinutes, now));
      }
      journalOpen := false;
      currentSlot := TimeSlot(rotationMinutes, now);
      lastNow := now;
      if opens {
        files := Opened(files, currentSlot);
        journalOpen := true;
      }
    }

    /** Clock work of a turn: at most once per second, every MAINTENANCE_EVERY turns. */
    method Maintain(now: nat, opens: bool)
      requires Valid()
      modifies this`files, this`journalOpen, this`currentSlot, this`lastNow, this`intact, this`loopIters, this`lastMaintenance
      ensures Valid()
      ensures old(intact) && opens && old(lastNow) <= now ==> intact
      ensures lastNow == old(lastNow) || lastNow == now
      ensures loopIters == old(loopIters) + 1
      ensures var due := loopIters % 1024 == 0 && now != old(lastMaintenance);
        && lastMaintenance == (if due then now else old(lastMaintenance))
        && (due && rotationMinutes > 0 ==> currentSlot == TimeSlot(rotationMinutes, now))
        && (currentSlot == old(currentSlot) ==> files == old(files) && journalOpen == old(journalOpen))
        && (currentSlot != old(currentSlot) ==> due && journalOpen == opens)
    {
      loopIters := loopIters + 1;
      if loopIters % MAINTENANCE_EVERY == 0 && now != lastMaintenance {
        lastMaintenance := now;
        if rotationMinutes > 0 && TimeSlot(rotationMinutes, now) != currentSlot {
          Rotate(now, opens);
        }
      }
    }

    method OfferOne(tick: Tick) returns (ok: bool)
      requires Valid()
      modifies ring`writeIndex, ring`accepted, ring.sequence, ring.data
      ensures Valid() && old(ring.accepted) <= ring.accepted
      ensures ok <==> old(|ring.Contents()|) < ring.capacity
      ensures ring.accepted == Accepted(old(RingQueue()), ring.capacity, [tick])
    {
      ok := ring.TryProduce(tick);
      assert ring.accepted[..ring.readIndex] == old(ring.accepted)[..ring.readIndex];
    }

    /** The feed thread's try_produce calls between two drains: a prefix is accepted, the rest dropped. */
    method Offer(ticks: seq<Tick>)
      requires Valid()
      modifies ring`writeIndex, ring`accepted, ring.sequence, ring.data
      ensures Valid() && old(ring.accepted) <= ring.accepted
      ensures ring.accepted == Accepted(old(RingQueue()), ring.capacity, ticks)
    {
      ghost var q := RingQueue();
      for i := 0 to |ticks|
        invariant Valid() && old(ring.accepted) <= ring.accepted
        invariant RingQueue() == Queue(Accepted(q, ring.capacity, ticks[..i]), q.drained)
      {
        AcceptedOneMore(q, ring.capacity, ticks, i);
        var ok := OfferOne(ticks[i]);
      }
      assert ticks[..|ticks|] == ticks;
    }

    method TakeTurn(turn: Turn)
      requires Valid()
      modifies this, ring, ring.sequence, ring.data, book, book.books
      ensures Valid() && RingQueue() == AfterTurn(old(RingQueue()), ring.capacity, turn.arrivals)
      ensures ring.readIndex == old(ring.readIndex) + if old(ring.readIndex) < |ring.accepted| then 1 else 0
      ensures loopIters == old(loopIters) + 1
      ensures base == old(base) && firstSlot == old(firstSlot)
      ensures old(intact) && turn.opens && old(lastNow) <= turn.now ==> intact
      ensures lastNow == old(lastNow) || lastNow == turn.now
    {
      Offer(turn.arrivals);
      var got := DrainOne();
      Maintain(turn.now, turn.opens);
    }

    /** The loop that runs until the thread is told to stop. */
    method HotLoop(turns: seq<Turn>, started: nat)
      requires Valid()
      modifies this, ring, ring.sequence, ring.data, book, book.books
      ensures Valid() && RingQueue() == AfterTurns(old(RingQueue()), ring.capacity, turns)
      ensures old(ring.Contents()) == [] ==>
                (ring.accepted == old(ring.accepted) + Arrivals(turns) <==> Paced(ring.capacity, turns))
      ensures base == old(base) && firstSlot == old(firstSlot) && loopIters == old(loopIters) + |turns|
      ensures old(intact) && AllOpen(turns) && ClockRuns(turns, old(lastNow)) ==> intact
    {
      ghost var orderly := intact && AllOpen(turns) && ClockRuns(turns, lastNow);
      lastMaintenance := started;
      for i := 0 to |turns|
        invariant Valid() && RingQueue() == AfterTurns(old(RingQueue()), ring.capacity, turns[..i])
        invariant base == old(base) && firstSlot == old(firstSlot) && loopIters == old(loopIters) + i
        invariant orderly ==> intact && forall j | i <= j < |turns| :: lastNow <= turns[j].now
      {
        OneMoreTurn(old(RingQueue()), ring.capacity, turns, i);
        TakeTurn(turns[i]);
      }
      assert turns[..|turns|] == turns;
      if |old(ring.accepted)| == old(ring.readIndex) {
        NothingDroppedIffPaced(old(RingQueue()), ring.capacity, turns);
      }
    }

    /** The pass after the loop: nothing accepted stays behind in the ring. */
    method FinalDrain()
      requires Valid()
      modifies this`files, this`applied, this`ticksWritten, ring`readIndex, ring.sequence, book, book.books
      ensures Valid() && ring.Contents() == []
    {
      var more := true;
      while more
        invariant Valid()
        invariant !more ==> ring.Contents() == []
        decreases |ring.accepted| - ring.readIndex, more
      {
        more := DrainOne();
      }
    }

    /**
     The thread from start to exit: one drain and one clock check per turn until it is stopped, then a
     final drain. `late` are ticks accepted after the last turn, before the feed thread was joined.
     */
    method Run(turns: seq<Turn>, started: nat, late: seq<Tick>)
      requires Valid()
      modifies this, ring, ring.sequence, ring.data, book, book.books
      ensures Valid() && ring.Contents() == []
      ensures ring.accepted == Accepted(AfterTurns(old(RingQueue()), ring.capacity, turns), ring.capacity, late)
      ensures base == old(base) && firstSlot == old(firstSlot)
      ensures ticksWritten == |ring.accepted|
      ensures book.seen == BookTicks(ring.accepted)
      ensures old(intact) && AllOpen(turns) && ClockRuns(turns, old(lastNow)) ==>
                Concatenated(files, firstSlot, currentSlot) == base + ring.accepted
    {
      HotLoop(turns, started);
      Offer(late);
      FinalDrain();
      assert ring.accepted[..ring.readIndex] == ring.accepted;
    }
  }
}
