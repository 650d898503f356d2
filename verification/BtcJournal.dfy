/**
 The buffered, rotating journal of the price feed. Ticks collect in a fixed buffer and are written to
 the file of the open segment; a segment that cannot be opened makes the buffer be dropped.
 Files are keyed by the aligned start of their time window.
 */
module BtcJournals {
  import opened Arithmetic
  import opened RealSums
  import opened Sequences

  datatype BtcTick = BtcTick(timestamp: nat, payload: int)

  type Directory = map<nat, seq<BtcTick>>

  const BUF_CAP: nat := 1024

  function Contents(disk: Directory, window: nat): seq<BtcTick> {
    if window in disk then disk[window] else []
  }

  /** Start of the rotation window a timestamp falls in. */
  function Window(rotationMs: nat, ts: nat): nat
    requires rotationMs > 0
    decreases ts
  {
    if ts < rotationMs then 0 else rotationMs + Window(rotationMs, ts - rotationMs)
  }

  lemma {:induction false} WindowIsAligned(rotationMs: nat, ts: nat)
    requires rotationMs > 0
    ensures Window(rotationMs, ts) == (ts / rotationMs) * rotationMs
    ensures Window(rotationMs, ts) <= ts < Window(rotationMs, ts) + rotationMs
    decreases ts
  {
    if ts >= rotationMs {
      WindowIsAligned(rotationMs, ts - rotationMs);
      QuotientStep(ts, rotationMs);
      OneMore((ts - rotationMs) / rotationMs, rotationMs);
    } else {
      QuotientOfSum(rotationMs, 0, ts);
    }
  }

  /** The ticks of one window, in order. */
  function OfWindow(rotationMs: nat, ticks: seq<BtcTick>, window: nat): seq<BtcTick>
    requires rotationMs > 0
  {
    if ticks == [] then []
    else
      var last := ticks[|ticks| - 1];
      OfWindow(rotationMs, ticks[..|ticks| - 1], window) + if Window(rotationMs, last.timestamp) == window then [last] else []
  }

  lemma {:induction false} OfWindowConcat(rotationMs: nat, a: seq<BtcTick>, b: seq<BtcTick>, window: nat)
    requires rotationMs > 0
    ensures OfWindow(rotationMs, a + b, window) == OfWindow(rotationMs, a, window) + OfWindow(rotationMs, b, window)
  {
    if b == [] {
      assert a + b == a;
    } else {
      OfWindowConcat(rotationMs, a, b[..|b| - 1], window);
      assert (a + b)[..|a + b| - 1] == a + b[..|b| - 1];
    }
  }

  lemma {:induction false} SingleWindow(rotationMs: nat, ticks: seq<BtcTick>, segment: nat, window: nat)
    requires rotationMs > 0 && forall i | 0 <= i < |ticks| :: Window(rotationMs, ticks[i].timestamp) == segment
    ensures OfWindow(rotationMs, ticks, window) == if window == segment then ticks else []
  {
    if ticks != [] {
      SingleWindow(rotationMs, ticks[..|ticks| - 1], segment, window);
    }
  }

  /** A timestamp less than one rotation after a window's start is in that window. */
  lemma SameWindow(rotationMs: nat, earlier: nat, ts: nat)
    requires rotationMs > 0
    ensures Window(rotationMs, earlier) <= earlier
    ensures Window(rotationMs, earlier) <= ts < Window(rotationMs, earlier) + rotationMs ==>
              Window(rotationMs, ts) == Window(rotationMs, earlier)
  {
    WindowIsAligned(rotationMs, earlier);
    WindowIsAligned(rotationMs, ts);
    var q := earlier / rotationMs;
    var start := Window(rotationMs, earlier);
    if start <= ts < start + rotationMs {
      QuotientOfSum(rotationMs, q, ts - start);
    }
  }

  function Sizes(disk: Directory): map<nat, real> {
    map w | w in disk :: |disk[w]| as real
  }

  /** Number of ticks on disk. */
  ghost function Persisted(disk: Directory): real { Total(Sizes(disk)) }

  lemma AppendPersists(disk: Directory, window: nat, ticks: seq<BtcTick>)
    ensures Persisted(Flushed(disk, window, ticks)) == Persisted(disk) + |ticks| as real
  {
    var after := Flushed(disk, window, ticks);
    assert Sizes(after) == Sizes(disk)[window := |after[window]| as real];
    TotalAfterUpdate(Sizes(disk), window, |after[window]| as real);
  }

  /** Every file holds what it held before and then exactly the ticks of its own window. */
  ghost predicate Landed(rotationMs: nat, disk: Directory, base: Directory, ticks: seq<BtcTick>)
    requires rotationMs > 0
  {
    forall w :: Contents(disk, w) == Contents(base, w) + OfWindow(rotationMs, ticks, w)
  }

  predicate AllInWindow(rotationMs: nat, ticks: seq<BtcTick>, segment: nat)
    requires rotationMs > 0
  {
    forall i | 0 <= i < |ticks| :: Window(rotationMs, ticks[i].timestamp) == segment
  }

  function Flushed(disk: Directory, segment: nat, pending: seq<BtcTick>): Directory {
    disk[segment := Contents(disk, segment) + pending]
  }

  lemma WindowAfterFlush(disk: Directory, segment: nat, pending: seq<BtcTick>, w: nat,
                         before: seq<BtcTick>, done: seq<BtcTick>, more: seq<BtcTick>)
    requires Contents(disk, w) == before + done
    requires more == if w == segment then pending else []
    ensures Contents(Flushed(disk, segment, pending), w) == before + (done + more)
  {
    Associative(before, done, pending);
    EmptyIsUnit(done);
  }

  lemma LandedAfterFlush(rotationMs: nat, disk: Directory, base: Directory, flushed: seq<BtcTick>,
                         pending: seq<BtcTick>, segment: nat)
    requires rotationMs > 0 && Landed(rotationMs, disk, base, flushed) && AllInWindow(rotationMs, pending, segment)
    ensures Landed(rotationMs, Flushed(disk, segment, pending), base, flushed + pending)
  {
    forall w ensures Contents(Flushed(disk, segment, pending), w)
                     == Contents(base, w) + OfWindow(rotationMs, flushed + pending, w) {
      var done, more := OfWindow(rotationMs, flushed, w), OfWindow(rotationMs, pending, w);
      SingleWindow(rotationMs, pending, segment, w);
      WindowAfterFlush(disk, segment, pending, w, Contents(base, w), done, more);
      OfWindowConcat(rotationMs, flushed, pending, w);
    }
  }

  lemma OpeningChangesNothing(rotationMs: nat, disk: Directory, base: Directory, ticks: seq<BtcTick>, segment: nat)
    requires rotationMs > 0
    ensures Landed(rotationMs, disk, base, ticks) ==> Landed(rotationMs, Opened(disk, segment), base, ticks)
    ensures Persisted(Opened(disk, segment)) == Persisted(disk)
  {
    assert forall w :: Contents(Opened(disk, segment), w) == Contents(disk, w);
    assert Contents(disk, segment) + [] == Contents(disk, segment);
    AppendPersists(disk, segment, []);
  }

  /** Opening for append creates an empty file or leaves an existing one as it is. */
  function Opened(disk: Directory, segment: nat): Directory {
    disk[segment := Contents(disk, segment)]
  }

  lemma NothingWritten(rotationMs: nat, disk: Directory)
    requires rotationMs > 0
    ensures Landed(rotationMs, disk, disk, [])
  {
  }

  lemma SplitAt(ticks: seq<BtcTick>, n: nat)
    requires n <= |ticks|
    ensures ticks[..n] + ticks[n..] == ticks
  {
  }

  class BtcJournal {
    const rotationMs: nat
    var disk: Directory
    var fileOpen: bool
    var segmentStart: nat
    var ticksWritten: nat
    const buf: array<BtcTick>
    var bufPos: nat
    ghost const base: Directory       // what was on disk before
    ghost var given: seq<BtcTick>     // every tick passed to write
    ghost var dropped: nat            // ticks lost because no segment was open
    ghost var orderly: bool           // every open succeeded, timestamps never went back

    ghost predicate InBounds()
      reads this
    {
      buf.Length == BUF_CAP && bufPos <= BUF_CAP && rotationMs > 0
    }

    /** Nothing is unaccounted for: written, dropped and buffered ticks add up. */
    ghost predicate Accounted()
      reads this
    {
      && ticksWritten == |given| && bufPos <= |given|
      && ticksWritten as real == (Persisted(disk) - Persisted(base)) + dropped as real + bufPos as real
    }

    /** In an orderly run each file holds exactly the ticks of its window, except the buffered ones of the open segment. */
    ghost predicate EachInItsWindow()
      reads this, buf
    {
      orderly ==>
        && InBounds() && dropped == 0 && bufPos <= |given|
        && given[|given| - bufPos..] == buf[..bufPos]
        && AllInWindow(rotationMs, buf[..bufPos], segmentStart)
        && Landed(rotationMs, disk, base, given[..|given| - bufPos])
    }

    /** In an orderly run the open segment is the one of timestamp `ts`. */
    ghost predicate OpenFor(ts: nat)
      reads this
    {
      orderly ==> rotationMs > 0 && fileOpen && segmentStart == Window(rotationMs, ts)
    }

    ghost predicate Consistent()
      reads this, buf
    {
      InBounds() && Accounted() && EachInItsWindow()
    }

    /** Between calls. */
    ghost predicate Valid()
      reads this, buf
    {
      && Consistent() && bufPos < BUF_CAP
      && if given == [] then !fileOpen else OpenFor(given[|given| - 1].timestamp)
    }

    constructor (rotationMinutes: nat, disk: Directory)
      requires rotationMinutes > 0
      ensures Valid() && given == [] && bufPos == 0 && orderly && base == disk
      ensures rotationMs == rotationMinutes * 60 * 1000 && fresh(buf)
    {
      rotationMs := rotationMinutes * 60 * 1000;
      this.disk, base := disk, disk;
      fileOpen, segmentStart, ticksWritten, bufPos := false, 0, 0, 0;
      buf := new BtcTick[BUF_CAP](i => BtcTick(0, 0));
      given, dropped, orderly := [], 0, true;
      new;
      NothingWritten(rotationMs, disk);
    }

    /** What remains true of an orderly run once the whole buffer has been written to the open segment. */
    lemma BufferLands()
      requires Consistent() && fileOpen
      ensures orderly ==> Landed(rotationMs, Flushed(disk, segmentStart, buf[..bufPos]), base, given)
    {
      if orderly {
        SplitAt(given, |given| - bufPos);
        LandedAfterFlush(rotationMs, disk, base, given[..|given| - bufPos], given[|given| - bufPos..], segmentStart);
      }
    }

    /** Empties the buffer into the open segment, or drops it when there is none. */
    method Flush()
      requires Consistent() && (orderly && bufPos > 0 ==> fileOpen)
      modifies this`disk, this`bufPos, this`dropped
      ensures Consistent() && bufPos == 0
      ensures dropped == old(dropped) + if fileOpen then 0 else old(bufPos)
      ensures disk == if !fileOpen || old(bufPos) == 0 then old(disk)
                      else Flushed(old(disk), segmentStart, old(buf[..bufPos]))
    {
      assert given[..|given| - 0] == given && buf[..0] == [];
      if bufPos == 0 {
        return;
      }
      if !fileOpen {
        dropped := dropped + bufPos;
        bufPos := 0;
        return;
      }
      BufferLands();
      AppendPersists(disk, segmentStart, buf[..bufPos]);
      disk := Flushed(disk, segmentStart, buf[..bufPos]);
      bufPos := 0;
    }

    /** Opens the segment of the window `ts` falls in; `opens` is the outcome of fopen. */
    method OpenSegment(ts: nat, opens: bool)
      requires Consistent() && (orderly ==> bufPos == 0)
      modifies this`disk, this`fileOpen, this`segmentStart, this`orderly
      ensures Consistent() && OpenFor(ts)
      ensures fileOpen == opens && segmentStart == Window(rotationMs, ts) && orderly == (old(orderly) && opens)
      ensures disk == if opens then Opened(old(disk), segmentStart) else old(disk)
    {
      WindowIsAligned(rotationMs, ts);
      segmentStart := (ts / rotationMs) * rotationMs;
      fileOpen := opens;
      orderly := orderly && opens;
      if opens {
        OpeningChangesNothing(rotationMs, disk, base, given[..|given| - bufPos], segmentStart);
        disk := Opened(disk, segmentStart);
      }
    }

    method RotateIfNeeded(ts: nat, opens: bool)
      requires Valid()
      requires orderly && given != [] ==> given[|given| - 1].timestamp <= ts
      modifies this`disk, this`fileOpen, this`segmentStart, this`orderly, this`bufPos, this`dropped
      ensures Consistent() && OpenFor(ts) && bufPos < BUF_CAP
      ensures old(orderly) && opens ==> orderly
      ensures if !old(fileOpen) || ts >= old(segmentStart) + rotationMs
              then fileOpen == opens && segmentStart == Window(rotationMs, ts)
              else fileOpen && segmentStart == old(segmentStart) && disk == old(disk)
      ensures old(fileOpen) && ts >= old(segmentStart) + rotationMs ==> bufPos == 0 && dropped == old(dropped)
    {
      if !fileOpen {
        OpenSegment(ts, opens);
        return;
      }
      if orderly && given != [] {
        SameWindow(rotationMs, given[|given| - 1].timestamp, ts);
      }
      var elapsed := if ts > segmentStart then ts - segmentStart else 0;
      if elapsed >= rotationMs {
        Flush();
        fileOpen := false;
        OpenSegment(ts, opens);
      }
    }

    /** Puts one tick into the buffer. */
    method Store(tick: BtcTick)
      requires Consistent() && bufPos < BUF_CAP && OpenFor(tick.timestamp)
      modifies this`given, this`ticksWritten, this`bufPos, buf
      ensures Consistent() && bufPos == old(bufPos) + 1 && given == old(given) + [tick]
    {
      buf[bufPos] := tick;
      bufPos := bufPos + 1;
      ticksWritten := ticksWritten + 1;
      given := given + [tick];
      assert buf[..bufPos] == old(buf[..bufPos]) + [tick];
      assert given[..|given| - bufPos] == old(given[..|given| - bufPos]);
      assert orderly ==> given[|given| - bufPos..] == old(given[|given| - bufPos..]) + [tick];
    }

    /** Takes one tick; `opens` says whether a segment opened by this call could be opened. */
    method Write(tick: BtcTick, opens: bool)
      requires Valid()
      modifies this`disk, this`fileOpen, this`segmentStart, this`orderly, this`bufPos, this`dropped,
               this`given, this`ticksWritten, buf
      ensures Valid() && given == old(given) + [tick]
      ensures old(orderly) && opens && (old(given) != [] ==> old(given)[|old(given)| - 1].timestamp <= tick.timestamp)
              ==> orderly
    {
      if given != [] && given[|given| - 1].timestamp > tick.timestamp {
        orderly := false;
      }
      RotateIfNeeded(tick.timestamp, opens);
      assert bufPos < BUF_CAP;  // the source's second guard before the store can never fire
      Store(tick);
      if bufPos >= BUF_CAP {
        Flush();
      }
    }

    /** The destructor: after it every tick is on disk or counted as dropped, in an orderly run all in place. */
    method Close()
      requires Valid()
      modifies this`disk, this`fileOpen, this`bufPos, this`dropped
      ensures |given| as real == (Persisted(disk) - Persisted(base)) + dropped as real
      ensures orderly ==> dropped == 0 && Landed(rotationMs, disk, base, given)
    {
      Flush();
      assert given[..|given| - 0] == given;
      fileOpen := false;
    }
  }
}
