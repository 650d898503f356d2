/** Upsert, append and prune on the records of the metadata file. */
module MetadataMerge {
  import opened Sequences
  import opened MetadataCsv

  ghost function Ids(rows: seq<TokenMeta>): set<string> { set m | m in rows :: m.tokenId }

  ghost predicate DistinctIds(rows: seq<TokenMeta>) {
    forall i, j | 0 <= i < j < |rows| :: rows[i].tokenId != rows[j].tokenId
  }

  /** Position of the last row with this id; -1 if there is none. */
  function LastIndexOf(rows: seq<TokenMeta>, id: string): (i: int)
    ensures -1 <= i < |rows| && (i >= 0 ==> rows[i].tokenId == id)
    ensures forall j | i < j < |rows| :: rows[j].tokenId != id
  {
    if rows == [] then -1
    else if rows[|rows| - 1].tokenId == id then |rows| - 1
    else LastIndexOf(rows[..|rows| - 1], id)
  }

  // ---- merge ----

  /** A fresh record replaces the row its id points to, or is added at the end. */
  function Upsert(rows: seq<TokenMeta>, m: TokenMeta): seq<TokenMeta> {
    var i := LastIndexOf(rows, m.tokenId);
    if i >= 0 then rows[i := m] else rows + [m]
  }

  function UpsertAll(rows: seq<TokenMeta>, batch: seq<TokenMeta>): seq<TokenMeta> {
    if batch == [] then rows
    else Upsert(UpsertAll(rows, batch[..|batch| - 1]), batch[|batch| - 1])
  }

  function Delist(m: TokenMeta, batch: seq<TokenMeta>): TokenMeta {
    if LastIndexOf(batch, m.tokenId) >= 0 then m else m.(active := false)
  }

  function DelistAll(rows: seq<TokenMeta>, batch: seq<TokenMeta>): (r: seq<TokenMeta>)
    ensures |r| == |rows| && forall i | 0 <= i < |rows| :: r[i] == Delist(rows[i], batch)
  {
    seq(|rows|, i requires 0 <= i < |rows| => Delist(rows[i], batch))
  }

  function Merged(existing: seq<TokenMeta>, batch: seq<TokenMeta>): seq<TokenMeta> {
    DelistAll(UpsertAll(existing, batch), batch)
  }

  lemma IdsOfUpsert(rows: seq<TokenMeta>, m: TokenMeta)
    ensures Ids(Upsert(rows, m)) == Ids(rows) + {m.tokenId}
  {
    var i := LastIndexOf(rows, m.tokenId);
    if i >= 0 {
      var after := rows[i := m];
      assert forall j | 0 <= j < |rows| :: after[j].tokenId == rows[j].tokenId;
      forall id | id in Ids(rows) ensures id in Ids(after) {
        var j :| 0 <= j < |rows| && rows[j].tokenId == id;
        assert after[j] in after;
      }
      assert after[i] in after;
    }
  }

  lemma UpsertKeepsDistinct(rows: seq<TokenMeta>, m: TokenMeta)
    requires DistinctIds(rows)
    ensures DistinctIds(Upsert(rows, m))
  {
  }

  lemma IdsOfSplit(rows: seq<TokenMeta>)
    requires rows != []
    ensures Ids(rows) == Ids(rows[..|rows| - 1]) + {rows[|rows| - 1].tokenId}
  {
    assert rows == rows[..|rows| - 1] + [rows[|rows| - 1]];
  }

  lemma IdsOfSum(a: seq<TokenMeta>, b: seq<TokenMeta>)
    ensures Ids(a + b) == Ids(a) + Ids(b)
  {
  }

  lemma {:induction false} UpsertAllShape(rows: seq<TokenMeta>, batch: seq<TokenMeta>)
    ensures Ids(UpsertAll(rows, batch)) == Ids(rows) + Ids(batch)
    ensures DistinctIds(rows) ==> DistinctIds(UpsertAll(rows, batch))
    ensures |rows| <= |UpsertAll(rows, batch)|
    ensures forall i | 0 <= i < |rows| :: UpsertAll(rows, batch)[i].tokenId == rows[i].tokenId
  {
    if batch != [] {
      var front, m := batch[..|batch| - 1], batch[|batch| - 1];
      UpsertAllShape(rows, front);
      IdsOfUpsert(UpsertAll(rows, front), m);
      IdsOfSplit(batch);
      if DistinctIds(rows) { UpsertKeepsDistinct(UpsertAll(rows, front), m); }
    }
  }

  /** Where each row of an upsert comes from. */
  ghost predicate Sourced(m: TokenMeta, i: nat, rows: seq<TokenMeta>, batch: seq<TokenMeta>) {
    var j := LastIndexOf(batch, m.tokenId);
    if j >= 0 then m == batch[j] else i < |rows| && m == rows[i]
  }

  lemma LastIndexOneMore(front: seq<TokenMeta>, m: TokenMeta, id: string)
    ensures LastIndexOf(front + [m], id) == if m.tokenId == id then |front| else LastIndexOf(front, id)
  {
    assert (front + [m])[..|front|] == front;
  }

  lemma SourcedOneMore(m: TokenMeta, i: nat, rows: seq<TokenMeta>, front: seq<TokenMeta>, last: TokenMeta)
    requires if m.tokenId == last.tokenId then m == last else Sourced(m, i, rows, front)
    ensures Sourced(m, i, rows, front + [last])
  {
    LastIndexOneMore(front, last, m.tokenId);
  }

  ghost predicate AllSourced(after: seq<TokenMeta>, rows: seq<TokenMeta>, batch: seq<TokenMeta>) {
    forall i: nat | i < |after| :: Sourced(after[i], i, rows, batch)
  }

  lemma UpsertSources(before: seq<TokenMeta>, last: TokenMeta, rows: seq<TokenMeta>, front: seq<TokenMeta>)
    requires DistinctIds(before) && AllSourced(before, rows, front)
    ensures AllSourced(Upsert(before, last), rows, front + [last])
  {
    var after := Upsert(before, last);
    UpsertKeepsDistinct(before, last);
    forall i: nat | i < |after| ensures Sourced(after[i], i, rows, front + [last]) {
      assert after[i] != last ==> i < |before| && after[i] == before[i];
      assert after[i].tokenId == last.tokenId ==> after[i] == last;
      SourcedOneMore(after[i], i, rows, front, last);
    }
  }

  lemma {:induction false} UpsertAllSources(rows: seq<TokenMeta>, batch: seq<TokenMeta>)
    requires DistinctIds(rows)
    ensures AllSourced(UpsertAll(rows, batch), rows, batch)
  {
    if batch != [] {
      var front, last := batch[..|batch| - 1], batch[|batch| - 1];
      UpsertAllSources(rows, front);
      UpsertAllShape(rows, front);
      UpsertSources(UpsertAll(rows, front), last, rows, front);
      assert front + [last] == batch;
    }
  }

  /** Merging keeps every old id in place, adds the new ones, and keeps ids distinct. */
  lemma MergeKeepsIds(existing: seq<TokenMeta>, batch: seq<TokenMeta>)
    ensures Ids(Merged(existing, batch)) == Ids(existing) + Ids(batch)
    ensures DistinctIds(existing) ==> DistinctIds(Merged(existing, batch))
    ensures |existing| <= |Merged(existing, batch)|
    ensures forall i | 0 <= i < |existing| :: Merged(existing, batch)[i].tokenId == existing[i].tokenId
  {
    UpsertAllShape(existing, batch);
    SameIds(UpsertAll(existing, batch), Merged(existing, batch));
  }

  lemma SameIds(a: seq<TokenMeta>, b: seq<TokenMeta>)
    requires |a| == |b| && forall i | 0 <= i < |a| :: a[i].tokenId == b[i].tokenId
    ensures Ids(a) == Ids(b)
    ensures DistinctIds(a) ==> DistinctIds(b)
  {
    forall id | id in Ids(a) ensures id in Ids(b) {
      var i :| 0 <= i < |a| && a[i].tokenId == id;
      assert b[i] in b;
    }
    forall id | id in Ids(b) ensures id in Ids(a) {
      var i :| 0 <= i < |b| && b[i].tokenId == id;
      assert a[i] in a;
    }
  }

  /** What the merge must leave at position i. */
  ghost predicate MergedRow(m: TokenMeta, i: nat, existing: seq<TokenMeta>, batch: seq<TokenMeta>) {
    var j := LastIndexOf(batch, m.tokenId);
    if j >= 0 then m == batch[j] else i < |existing| && m == existing[i].(active := false)
  }

  /** The last new record of an id wins; a row without one is kept, inactive. */
  lemma FreshRecordsWin(existing: seq<TokenMeta>, batch: seq<TokenMeta>)
    requires DistinctIds(existing)
    ensures forall i: nat | i < |Merged(existing, batch)| :: MergedRow(Merged(existing, batch)[i], i, existing, batch)
  {
    UpsertAllSources(existing, batch);
    var rows := UpsertAll(existing, batch);
    forall i: nat | i < |rows| ensures MergedRow(Merged(existing, batch)[i], i, existing, batch) {
      assert Sourced(rows[i], i, existing, batch);
    }
  }

  // ---- append ----

  /** The records of a batch whose id is neither known nor earlier in the batch. */
  function NewRows(batch: seq<TokenMeta>, known: set<string>): seq<TokenMeta> {
    if batch == [] then []
    else
      var front, m := batch[..|batch| - 1], batch[|batch| - 1];
      NewRows(front, known) + if m.tokenId in known || LastIndexOf(front, m.tokenId) >= 0 then [] else [m]
  }

  lemma IdIsFound(rows: seq<TokenMeta>, id: string)
    ensures id in Ids(rows) <==> LastIndexOf(rows, id) >= 0
  {
    var i := LastIndexOf(rows, id);
    if i >= 0 { assert rows[i] in rows; }
  }

  /** Appended ids are distinct and are exactly the unknown ids of the batch. */
  lemma {:induction false} AppendsExactlyTheUnknown(batch: seq<TokenMeta>, known: set<string>)
    ensures DistinctIds(NewRows(batch, known))
    ensures Ids(NewRows(batch, known)) == Ids(batch) - known
    ensures forall m | m in NewRows(batch, known) :: m in batch
  {
    if batch != [] {
      var front, m := batch[..|batch| - 1], batch[|batch| - 1];
      AppendsExactlyTheUnknown(front, known);
      IdsOfSplit(batch);
      IdIsFound(front, m.tokenId);
      var added := NewRows(front, known);
      if m.tokenId in known || LastIndexOf(front, m.tokenId) >= 0 {
        EmptyIsUnit(added);
      } else {
        IdsOfSum(added, [m]);
        DistinctOneMore(added, m);
      }
    }
  }

  lemma DistinctOneMore(rows: seq<TokenMeta>, m: TokenMeta)
    requires DistinctIds(rows) && m.tokenId !in Ids(rows)
    ensures DistinctIds(rows + [m])
  {
    forall i | 0 <= i < |rows| ensures rows[i].tokenId != m.tokenId {
      assert rows[i].tokenId in Ids(rows);
    }
  }

  /** Two batches in turn append what their concatenation appends. */
  lemma {:induction false} BatchesCompose(a: seq<TokenMeta>, b: seq<TokenMeta>, known: set<string>)
    ensures NewRows(a + b, known) == NewRows(a, known) + NewRows(b, known + Ids(a))
    decreases |b|
  {
    if b == [] {
      assert a + b == a;
    } else {
      var front, m := b[..|b| - 1], b[|b| - 1];
      BatchesCompose(a, front, known);
      assert (a + b)[..|a + b| - 1] == a + front && (a + b)[|a + b| - 1] == m;
      IdIsFound(a + front, m.tokenId);
      IdIsFound(front, m.tokenId);
      IdsOfSum(a, front);
    }
  }

  // ---- prune ----

  /** Byte order of strings. */
  predicate Before(a: string, b: string) {
    b != "" && (a == "" || a[0] < b[0] || (a[0] == b[0] && Before(a[1..], b[1..])))
  }

  /** At position k the strings part: one ends there, or they differ there. */
  predicate PartsAt(a: string, b: string, k: nat) {
    k <= |a| && k < |b| && a[..k] == b[..k] && (k == |a| || a[k] < b[k])
  }

  /** a comes before b exactly if, after a common beginning, a ends first or has the smaller character. */
  lemma {:induction false} BeforeIsLexicographic(a: string, b: string)
    ensures Before(a, b) <==> exists k: nat :: PartsAt(a, b, k)
  {
    if b != "" && (a == "" || a[0] < b[0]) {
      assert PartsAt(a, b, 0);
    } else if a != "" && b != "" && a[0] == b[0] {
      BeforeIsLexicographic(a[1..], b[1..]);
      if k: nat :| PartsAt(a[1..], b[1..], k) {
        assert a[..k + 1] == [a[0]] + a[1..][..k] && b[..k + 1] == [b[0]] + b[1..][..k];
        assert PartsAt(a, b, k + 1);
      }
      if k: nat :| PartsAt(a, b, k) {
        if k > 0 {
          assert a[1..][..k - 1] == a[..k][1..] && b[1..][..k - 1] == b[..k][1..];
          assert PartsAt(a[1..], b[1..], k - 1);
        }
      }
    }
  }

  /** A row is stale exactly if it has an end date and that comes before the cutoff. */
  lemma StaleMeansEndedBefore(m: TokenMeta, cutoff: string)
    ensures Stale(m, cutoff) <==> m.endDate != "" && exists k: nat :: PartsAt(m.endDate, cutoff, k)
  {
    BeforeIsLexicographic(m.endDate, cutoff);
  }

  predicate Stale(m: TokenMeta, cutoff: string) { m.endDate != "" && Before(m.endDate, cutoff) }

  function Kept(rows: seq<TokenMeta>, cutoff: string): seq<TokenMeta> {
    if rows == [] then []
    else
      Kept(rows[..|rows| - 1], cutoff)
      + if Stale(rows[|rows| - 1], cutoff) then [] else [rows[|rows| - 1]]
  }

  /** Pruning drops exactly the stale rows; it changes nothing if no row is stale. */
  lemma {:induction false} PruneDropsExactlyStale(rows: seq<TokenMeta>, cutoff: string)
    ensures forall m :: m in Kept(rows, cutoff) <==> m in rows && !Stale(m, cutoff)
    ensures |Kept(rows, cutoff)| <= |rows|
    ensures |Kept(rows, cutoff)| == |rows| ==> Kept(rows, cutoff) == rows
  {
    if rows != [] {
      var front, last := rows[..|rows| - 1], rows[|rows| - 1];
      assert rows == front + [last];
      PruneDropsExactlyStale(front, cutoff);
    }
  }

  lemma {:induction false} PruneKeepsDistinct(rows: seq<TokenMeta>, cutoff: string)
    requires DistinctIds(rows)
    ensures DistinctIds(Kept(rows, cutoff))
    ensures Ids(Kept(rows, cutoff)) <= Ids(rows)
  {
    PruneDropsExactlyStale(rows, cutoff);
    if rows != [] {
      var front, last := rows[..|rows| - 1], rows[|rows| - 1];
      PruneKeepsDistinct(front, cutoff);
      if !Stale(last, cutoff) {
        assert last.tokenId !in Ids(front);
        DistinctOneMore(Kept(front, cutoff), last);
      }
    }
  }
}
