/**
 Runs of the harvester over its metadata file: the boot merge, then any sequence of re-discovery and
 retention passes. A run on the file's text follows the same run on records (Catalogue), so what is
 proved of the records holds of every file the harvester leaves behind.
 */
module MetadataRuns {
  import opened Wrappers
  import opened Sequences
  import opened MetadataCsv
  import opened MetadataRoundTrip
  import opened MetadataMerge
  import opened MetadataStores

  datatype Event = Discovery(batch: seq<TokenMeta>) | Retention(cutoff: string)

  datatype Store = Store(file: File, known: set<string>)

  ghost function Booted(file: File, batch: seq<TokenMeta>): Store {
    var merged := Some(MergedText(file, batch));
    Store(merged, Ids(RowsOf(merged)))
  }

  ghost function StoreStep(s: Store, e: Event): Store {
    match e
    case Discovery(batch) => Store(Some(AppendedText(s.file, batch, s.known)), s.known + Ids(batch))
    case Retention(cutoff) => s.(file := PrunedFile(s.file, cutoff))
  }

  ghost function StoreRun(s: Store, events: seq<Event>): Store
    decreases |events|
  {
    if events == [] then s else StoreRun(StoreStep(s, events[0]), events[1..])
  }

  // ---- the same run on records ----

  datatype Catalogue = Catalogue(rows: seq<TokenMeta>, known: set<string>)

  ghost function CatalogueStep(c: Catalogue, e: Event): Catalogue {
    match e
    case Discovery(batch) => Catalogue(c.rows + NewRows(batch, c.known), c.known + Ids(batch))
    case Retention(cutoff) => c.(rows := Kept(c.rows, cutoff))
  }

  ghost function CatalogueRun(c: Catalogue, events: seq<Event>): Catalogue
    decreases |events|
  {
    if events == [] then c else CatalogueRun(CatalogueStep(c, events[0]), events[1..])
  }

  ghost predicate WellFormed(c: Catalogue) {
    AllStorable(c.rows) && DistinctIds(c.rows) && Ids(c.rows) <= c.known
  }

  ghost predicate StorableEvent(e: Event) { e.Discovery? ==> AllStorable(e.batch) }

  lemma DistinctSum(a: seq<TokenMeta>, b: seq<TokenMeta>)
    requires DistinctIds(a) && DistinctIds(b) && Ids(a) !! Ids(b)
    ensures DistinctIds(a + b)
  {
    forall i, j | 0 <= i < |a| && 0 <= j < |b| ensures a[i].tokenId != b[j].tokenId {
      assert a[i].tokenId in Ids(a) && b[j].tokenId in Ids(b);
    }
  }

  lemma StepKeepsWellFormed(c: Catalogue, e: Event)
    requires WellFormed(c) && StorableEvent(e)
    ensures WellFormed(CatalogueStep(c, e)) && c.known <= CatalogueStep(c, e).known
  {
    match e
    case Discovery(batch) =>
      var added := NewRows(batch, c.known);
      AppendsExactlyTheUnknown(batch, c.known);
      DistinctSum(c.rows, added);
      IdsOfSum(c.rows, added);
    case Retention(cutoff) =>
      PruneDropsExactlyStale(c.rows, cutoff);
      PruneKeepsDistinct(c.rows, cutoff);
  }

  ghost predicate Survives(m: TokenMeta, events: seq<Event>) {
    forall cutoff :: Retention(cutoff) in events ==> !Stale(m, cutoff)
  }

  lemma SurvivesFromFront(m: TokenMeta, events: seq<Event>)
    requires events != []
    ensures Survives(m, events)
            <==> Survives(m, events[1..]) && (events[0].Retention? ==> !Stale(m, events[0].cutoff))
  {
    assert events == [events[0]] + events[1..];
  }

  lemma StepKeepsKnownRows(c: Catalogue, e: Event, m: TokenMeta)
    requires WellFormed(c) && m.tokenId in c.known
    ensures m in CatalogueStep(c, e).rows <==> m in c.rows && (e.Retention? ==> !Stale(m, e.cutoff))
  {
    match e
    case Discovery(batch) =>
      AppendsExactlyTheUnknown(batch, c.known);
      var added := NewRows(batch, c.known);
      assert m in added ==> m.tokenId in Ids(added);
    case Retention(cutoff) =>
      PruneDropsExactlyStale(c.rows, cutoff);
  }

  /** In every run ids stay distinct and known, and a known row is there afterwards iff it was there
      and no retention pass found it stale; a dropped row never comes back. */
  lemma {:induction false} RunDropsOnlyStaleRows(c: Catalogue, events: seq<Event>)
    requires WellFormed(c) && forall e | e in events :: StorableEvent(e)
    ensures WellFormed(CatalogueRun(c, events)) && c.known <= CatalogueRun(c, events).known
    ensures forall m: TokenMeta :: m.tokenId in c.known
              ==> (m in CatalogueRun(c, events).rows <==> m in c.rows && Survives(m, events))
    decreases |events|
  {
    if events != [] {
      var next := CatalogueStep(c, events[0]);
      StepKeepsWellFormed(c, events[0]);
      RunDropsOnlyStaleRows(next, events[1..]);
      forall m: TokenMeta | m.tokenId in c.known
        ensures m in CatalogueRun(c, events).rows <==> m in c.rows && Survives(m, events)
      {
        StepKeepsKnownRows(c, events[0], m);
        SurvivesFromFront(m, events);
      }
    }
  }

  // ---- from records to text ----

  /** The file is the text of the catalogue's rows. */
  ghost predicate Holds(s: Store, c: Catalogue) {
    s.file == Some(FileText(c.rows)) && s.known == c.known && WellFormed(c)
  }

  lemma HoldsReadsBack(s: Store, c: Catalogue)
    requires Holds(s, c)
    ensures RowsOf(s.file) == CleanAll(c.rows)
  {
    FileReadsBack(c.rows);
  }

  lemma CleanIds(rows: seq<TokenMeta>)
    ensures Ids(CleanAll(rows)) == Ids(rows)
  {
    SameIds(rows, CleanAll(rows));
  }

  lemma {:induction false} KeptIgnoresCleaning(rows: seq<TokenMeta>, cutoff: string)
    ensures Kept(CleanAll(rows), cutoff) == CleanAll(Kept(rows, cutoff))
  {
    if rows != [] {
      var front := rows[..|rows| - 1];
      KeptIgnoresCleaning(front, cutoff);
      assert CleanAll(rows)[..|rows| - 1] == CleanAll(front);
      assert CleanAll(rows)[|rows| - 1] == Clean(rows[|rows| - 1]);
    }
  }

  lemma AppendFollows(s: Store, c: Catalogue, batch: seq<TokenMeta>)
    requires Holds(s, c)
    ensures AppendedText(s.file, batch, s.known) == FileText(c.rows + NewRows(batch, c.known))
  {
    var added := NewRows(batch, c.known);
    LinesOfSum(c.rows, added);
    Associative(HEADER + "\n", Lines(c.rows), Lines(added));
    assert FileText(c.rows) != "";
  }

  /** The first append makes a well-formed file of a missing or empty one. */
  lemma FirstAppendWritesHeader(file: File, batch: seq<TokenMeta>, known: set<string>)
    requires file.None? || file.value == ""
    ensures AppendedText(file, batch, known) == FileText(NewRows(batch, known))
  {
  }

  lemma PruneFollows(s: Store, c: Catalogue, cutoff: string)
    requires Holds(s, c)
    ensures PrunedFile(s.file, cutoff) == Some(FileText(Kept(c.rows, cutoff)))
  {
    HoldsReadsBack(s, c);
    KeptIgnoresCleaning(c.rows, cutoff);
    PruneDropsExactlyStale(c.rows, cutoff);
    LinesIgnoreCleaning(Kept(c.rows, cutoff));
  }

  lemma StepFollows(s: Store, c: Catalogue, e: Event)
    requires Holds(s, c) && StorableEvent(e)
    ensures Holds(StoreStep(s, e), CatalogueStep(c, e))
  {
    StepKeepsWellFormed(c, e);
    match e
    case Discovery(batch) => AppendFollows(s, c, batch);
    case Retention(cutoff) => PruneFollows(s, c, cutoff);
  }

  lemma {:induction false} RunFollows(s: Store, c: Catalogue, events: seq<Event>)
    requires Holds(s, c) && forall e | e in events :: StorableEvent(e)
    ensures Holds(StoreRun(s, events), CatalogueRun(c, events))
    decreases |events|
  {
    if events != [] {
      StepFollows(s, c, events[0]);
      RunFollows(StoreStep(s, events[0]), CatalogueStep(c, events[0]), events[1..]);
    }
  }

  // ---- boot ----

  lemma DelistedIsStorable(m: TokenMeta)
    requires Storable(m)
    ensures Storable(m.(active := false))
  {
    var d := m.(active := false);
    assert |FlagTail(d)| == |FlagTail(m)|;
    assert |QuestionTail(d)| == |QuestionTail(m)|;
  }

  lemma MergedIsStorable(existing: seq<TokenMeta>, batch: seq<TokenMeta>)
    requires AllStorable(existing) && AllStorable(batch) && DistinctIds(existing)
    ensures AllStorable(Merged(existing, batch))
  {
    var rows := Merged(existing, batch);
    FreshRecordsWin(existing, batch);
    forall m | m in rows ensures Storable(m) {
      var i: nat :| i < |rows| && rows[i] == m;
      assert MergedRow(rows[i], i, existing, batch);
      var j := LastIndexOf(batch, m.tokenId);
      if j >= 0 {
        assert batch[j] in batch;
      } else {
        assert existing[i] in existing;
        DelistedIsStorable(existing[i]);
      }
    }
  }

  /** Boot: merge into the file on disk, then take the known ids from it. */
  lemma BootHolds(file: File, batch: seq<TokenMeta>)
    requires AllStorable(RowsOf(file)) && DistinctIds(RowsOf(file)) && AllStorable(batch)
    ensures var rows := Merged(RowsOf(file), batch); Holds(Booted(file, batch), Catalogue(rows, Ids(rows)))
  {
    var rows := Merged(RowsOf(file), batch);
    MergedIsStorable(RowsOf(file), batch);
    MergeKeepsIds(RowsOf(file), batch);
    FileReadsBack(rows);
    CleanIds(rows);
  }

  /** What the harvester's file holds after boot and any run: distinct, known ids; every row of the
      boot merge unless a retention pass found it stale; nothing else under an id known at boot. */
  lemma FileAfterAnyRun(file: File, batch: seq<TokenMeta>, events: seq<Event>)
    requires AllStorable(RowsOf(file)) && DistinctIds(RowsOf(file)) && AllStorable(batch)
    requires forall e | e in events :: StorableEvent(e)
    ensures var booted := Booted(file, batch);
            var after := StoreRun(booted, events);
            && DistinctIds(RowsOf(after.file))
            && Ids(RowsOf(after.file)) <= after.known
            && Ids(RowsOf(file)) + Ids(batch) == booted.known <= after.known
            && forall m: TokenMeta :: m.tokenId in booted.known
                 ==> (m in RowsOf(after.file) <==> m in RowsOf(booted.file) && Survives(m, events))
  {
    var rows := Merged(RowsOf(file), batch);
    var c := Catalogue(rows, Ids(rows));
    BootHolds(file, batch);
    MergeKeepsIds(RowsOf(file), batch);
    RunFromHolds(Booted(file, batch), c, events);
  }

  /** The same from any file the harvester has written. */
  lemma RunFromHolds(s: Store, c: Catalogue, events: seq<Event>)
    requires Holds(s, c) && forall e | e in events :: StorableEvent(e)
    ensures var after := StoreRun(s, events);
            && DistinctIds(RowsOf(after.file))
            && Ids(RowsOf(after.file)) <= after.known
            && s.known <= after.known
            && forall m: TokenMeta :: m.tokenId in s.known
                 ==> (m in RowsOf(after.file) <==> m in RowsOf(s.file) && Survives(m, events))
  {
    var last := CatalogueRun(c, events);
    var after := StoreRun(s, events);
    RunFollows(s, c, events);
    RunDropsOnlyStaleRows(c, events);
    HoldsReadsBack(s, c);
    HoldsReadsBack(after, last);
    CleanIds(last.rows);
    SameIds(last.rows, CleanAll(last.rows));
    forall m: TokenMeta | m.tokenId in s.known
      ensures m in RowsOf(after.file) <==> m in RowsOf(s.file) && Survives(m, events)
    {
      CleanedRows(c.rows, last.rows, m, events, s.known);
    }
  }

  lemma CleanedRows(before: seq<TokenMeta>, after: seq<TokenMeta>, m: TokenMeta, events: seq<Event>,
                    known: set<string>)
    requires forall r: TokenMeta :: r.tokenId in known ==> (r in after <==> r in before && Survives(r, events))
    requires m.tokenId in known
    ensures m in CleanAll(after) <==> m in CleanAll(before) && Survives(m, events)
  {
    if m in CleanAll(after) {
      var i :| 0 <= i < |after| && m == Clean(after[i]);
      SurvivesIgnoresCleaning(after[i], events);
      assert after[i] in after;
      var j :| 0 <= j < |before| && before[j] == after[i];
      assert CleanAll(before)[j] == m;
    }
    if m in CleanAll(before) && Survives(m, events) {
      var i :| 0 <= i < |before| && m == Clean(before[i]);
      SurvivesIgnoresCleaning(before[i], events);
      assert before[i] in before;
      var j :| 0 <= j < |after| && after[j] == before[i];
      assert CleanAll(after)[j] == m;
    }
  }

  lemma SurvivesIgnoresCleaning(m: TokenMeta, events: seq<Event>)
    ensures Survives(Clean(m), events) <==> Survives(m, events)
  {
    forall cutoff ensures Stale(Clean(m), cutoff) == Stale(m, cutoff) { }
  }

  // ---- merging twice ----

  lemma {:induction false} KnownIdsAddNoRows(rows: seq<TokenMeta>, batch: seq<TokenMeta>)
    requires Ids(batch) <= Ids(rows)
    ensures |UpsertAll(rows, batch)| == |rows|
  {
    if batch != [] {
      var front, m := batch[..|batch| - 1], batch[|batch| - 1];
      IdsOfSplit(batch);
      KnownIdsAddNoRows(rows, front);
      UpsertAllShape(rows, front);
      IdIsFound(UpsertAll(rows, front), m.tokenId);
    }
  }

  lemma SecondMergeIsTheFirst(existing: seq<TokenMeta>, batch: seq<TokenMeta>)
    requires DistinctIds(existing)
    ensures var rows := Merged(existing, batch); CleanAll(Merged(CleanAll(rows), batch)) == CleanAll(rows)
  {
    var rows := Merged(existing, batch);
    var again := Merged(CleanAll(rows), batch);
    FreshRecordsWin(existing, batch);
    MergeKeepsIds(existing, batch);
    CleanIds(rows);
    SameIds(rows, CleanAll(rows));
    KnownIdsAddNoRows(CleanAll(rows), batch);
    MergeKeepsIds(CleanAll(rows), batch);
    FreshRecordsWin(CleanAll(rows), batch);
    forall i: nat | i < |rows| ensures Clean(again[i]) == Clean(rows[i]) {
      assert again[i].tokenId == rows[i].tokenId;
      assert MergedRow(again[i], i, CleanAll(rows), batch) && MergedRow(rows[i], i, existing, batch);
      CleanTwice(rows[i]);
    }
  }

  lemma CleanTwice(m: TokenMeta)
    ensures Clean(Clean(m)) == Clean(m)
  {
    assert CleanText(CleanText(m.question)) == CleanText(m.question);
  }

  /** Merging the same batch twice writes the same file. */
  lemma MergeTwiceWritesTheSameFile(file: File, batch: seq<TokenMeta>)
    requires AllStorable(RowsOf(file)) && DistinctIds(RowsOf(file)) && AllStorable(batch)
    ensures MergedText(Some(MergedText(file, batch)), batch) == MergedText(file, batch)
  {
    var rows := Merged(RowsOf(file), batch);
    MergedIsStorable(RowsOf(file), batch);
    FileReadsBack(rows);
    SecondMergeIsTheFirst(RowsOf(file), batch);
    LinesIgnoreCleaning(rows);
    LinesIgnoreCleaning(Merged(CleanAll(rows), batch));
  }

  // ---- the re-discovery thread ----

  ghost function Flatten(batches: seq<seq<TokenMeta>>): seq<TokenMeta> {
    if batches == [] then [] else batches[0] + Flatten(batches[1..])
  }

  /** The tokens subscribed over a run of cycles that start from `known` ids. */
  ghost function SubscribedOver(batches: seq<seq<TokenMeta>>, known: set<string>): seq<TokenMeta> {
    if batches == [] then []
    else NewRows(batches[0], known) + SubscribedOver(batches[1..], known + Ids(batches[0]))
  }

  lemma {:induction false} SubscribedOverIsNewRows(batches: seq<seq<TokenMeta>>, known: set<string>)
    ensures SubscribedOver(batches, known) == NewRows(Flatten(batches), known)
    decreases |batches|
  {
    if batches != [] {
      SubscribedOverIsNewRows(batches[1..], known + Ids(batches[0]));
      BatchesCompose(batches[0], Flatten(batches[1..]), known);
    }
  }

  /** Over any number of cycles every id is subscribed at most once, and exactly the unknown ids are. */
  lemma EachIdIsSubscribedOnce(batches: seq<seq<TokenMeta>>, known: set<string>)
    ensures DistinctIds(SubscribedOver(batches, known))
    ensures Ids(SubscribedOver(batches, known)) == Ids(Flatten(batches)) - known
  {
    SubscribedOverIsNewRows(batches, known);
    AppendsExactlyTheUnknown(Flatten(batches), known);
  }

  function IdList(rows: seq<TokenMeta>): (r: seq<string>)
    ensures |r| == |rows| && forall i | 0 <= i < |rows| :: r[i] == rows[i].tokenId
  {
    seq(|rows|, i requires 0 <= i < |rows| => rows[i].tokenId)
  }

  /** The events of one cycle; an empty discovery skips the cycle, retention included. */
  ghost function CycleEvents(batch: seq<TokenMeta>, cutoff: Option<string>): seq<Event> {
    if batch == [] then []
    else [Discovery(batch)] + if cutoff.None? then [] else [Retention(cutoff.value)]
  }

  lemma CycleRun(s: Store, batch: seq<TokenMeta>, cutoff: Option<string>)
    requires batch != []
    ensures var found := StoreStep(s, Discovery(batch));
            StoreRun(s, CycleEvents(batch, cutoff))
            == if cutoff.None? then found else StoreStep(found, Retention(cutoff.value))
  {
    var events := CycleEvents(batch, cutoff);
    var found := StoreStep(s, Discovery(batch));
    assert events[0] == Discovery(batch);
    if cutoff.Some? {
      assert events[1..] == [Retention(cutoff.value)];
      var last := StoreStep(found, Retention(cutoff.value));
      assert StoreRun(found, [Retention(cutoff.value)]) == StoreRun(last, []);
    } else {
      assert events[1..] == [];
    }
  }

  lemma CatalogueCycle(c: Catalogue, batch: seq<TokenMeta>, cutoff: Option<string>)
    requires WellFormed(c) && batch != [] && AllStorable(batch)
    ensures forall e | e in CycleEvents(batch, cutoff) :: StorableEvent(e)
    ensures var after := CatalogueRun(c, CycleEvents(batch, cutoff));
            && after.known == c.known + Ids(batch)
            && forall m :: m in after.rows
                 <==> (m in c.rows || m in NewRows(batch, c.known)) && (cutoff.Some? ==> !Stale(m, cutoff.value))
  {
    var events := CycleEvents(batch, cutoff);
    var found := CatalogueStep(c, Discovery(batch));
    assert events[0] == Discovery(batch);
    assert CatalogueRun(c, events) == CatalogueRun(found, events[1..]);
    if cutoff.Some? {
      assert events[1..] == [Retention(cutoff.value)];
      var last := CatalogueStep(found, Retention(cutoff.value));
      assert CatalogueRun(found, events[1..]) == CatalogueRun(last, []);
      PruneDropsExactlyStale(found.rows, cutoff.value);
    } else {
      assert events[1..] == [];
    }
  }

  /** After one pass that discovered something, every id of the batch is known, and the file holds exactly
      the rows it held and the new ones, without those the retention pass, if due, finds stale. */
  lemma FileAfterCycle(s: Store, c: Catalogue, batch: seq<TokenMeta>, cutoff: Option<string>)
    requires Holds(s, c) && batch != [] && AllStorable(batch)
    ensures var after := StoreRun(s, CycleEvents(batch, cutoff));
            && after.known == s.known + Ids(batch)
            && forall m :: m in RowsOf(after.file)
                 <==> (m in RowsOf(s.file) || m in CleanAll(NewRows(batch, s.known)))
                      && (cutoff.Some? ==> !Stale(m, cutoff.value))
  {
    var events := CycleEvents(batch, cutoff);
    var last := CatalogueRun(c, events);
    var added := NewRows(batch, c.known);
    CatalogueCycle(c, batch, cutoff);
    RunFollows(s, c, events);
    HoldsReadsBack(s, c);
    HoldsReadsBack(StoreRun(s, events), last);
    forall m: TokenMeta
      ensures m in CleanAll(last.rows)
              <==> (m in CleanAll(c.rows) || m in CleanAll(added)) && (cutoff.Some? ==> !Stale(m, cutoff.value))
    {
      InCleanAll(last.rows, m);
      InCleanAll(c.rows, m);
      InCleanAll(added, m);
    }
  }

  lemma InCleanAll(rows: seq<TokenMeta>, m: TokenMeta)
    ensures m in CleanAll(rows) <==> exists r :: r in rows && Clean(r) == m
  {
    if m in CleanAll(rows) {
      var i :| 0 <= i < |rows| && CleanAll(rows)[i] == m;
      assert rows[i] in rows;
    }
    if r :| r in rows && Clean(r) == m {
      var i :| 0 <= i < |rows| && rows[i] == r;
      assert CleanAll(rows)[i] == m;
    }
  }

  class Harvester {
    const metadata: MetadataStore
    var knownIds: set<string>

    ghost function Abstract(): Store
      reads metadata
    {
      Store(metadata.file, metadata.known)
    }

    /** `subscribed` is the part of the first batch the subscription filter selects. */
    constructor (file: File, batch: seq<TokenMeta>, subscribed: seq<TokenMeta>)
      ensures fresh(metadata)
      ensures Abstract() == Booted(file, batch) && knownIds == Ids(subscribed)
    {
      var store := new MetadataStore(file);
      store.Merge(batch);
      store.Seed();
      metadata := store;
      knownIds := {};
      new;
      var initial := Diff(subscribed);
    }

    /** One pass of the re-discovery loop; `cutoff` is given when retention is due. */
    method Cycle(batch: seq<TokenMeta>, subscribed: seq<TokenMeta>, cutoff: Option<string>)
      returns (newIds: seq<string>)
      modifies this, metadata
      ensures Abstract() == StoreRun(old(Abstract()), CycleEvents(batch, cutoff))
      ensures batch == [] ==> newIds == [] && knownIds == old(knownIds)
      ensures batch != [] ==> newIds == IdList(NewRows(subscribed, old(knownIds)))
      ensures batch != [] ==> knownIds == old(knownIds) + Ids(subscribed)
    {
      newIds := [];
      if batch == [] { return; }
      ghost var before := Abstract();
      CycleRun(before, batch, cutoff);
      metadata.Append(batch);
      assert Abstract() == StoreStep(before, Discovery(batch));
      newIds := Diff(subscribed);
      if cutoff.Some? {
        var dropped := metadata.Prune(cutoff.value);
      }
    }

    method Diff(subscribed: seq<TokenMeta>) returns (newIds: seq<string>)
      modifies this`knownIds
      ensures newIds == IdList(NewRows(subscribed, old(knownIds)))
      ensures knownIds == old(knownIds) + Ids(subscribed)
    {
      newIds := [];
      for i := 0 to |subscribed|
        invariant newIds == IdList(NewRows(subscribed[..i], old(knownIds)))
        invariant knownIds == old(knownIds) + Ids(subscribed[..i])
      {
        var m := subscribed[i];
        assert subscribed[..i + 1][..i] == subscribed[..i];
        IdsOfSplit(subscribed[..i + 1]);
        IdIsFound(subscribed[..i], m.tokenId);
        if m.tokenId !in knownIds {
          newIds := newIds + [m.tokenId];
          knownIds := knownIds + {m.tokenId};
        }
      }
      assert subscribed[..|subscribed|] == subscribed;
    }
  }
}
