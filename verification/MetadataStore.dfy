/**
 The metadata file over the life of the harvester: a merge at boot, then any run of appended
 discoveries and retention passes. The class works on the file's text; Catalogue is the same run on
 records, and the lemmas tie the two.
 */
module MetadataStores {
  import opened Wrappers
  import opened Sequences
  import opened MetadataCsv
  import opened MetadataFiles
  import opened MetadataMerge

  /** None stands for a missing file. */
  type File = Option<string>

  function RowsOf(file: File): seq<TokenMeta> {
    if file.None? then [] else ReadTokens(file.value)
  }

  function MergedText(file: File, batch: seq<TokenMeta>): string { FileText(Merged(RowsOf(file), batch)) }

  /** The header is written only into a missing or empty file. */
  function TextWithHeader(file: File): string {
    if file.None? || file.value == "" then HEADER + "\n" else file.value
  }

  function AppendedText(file: File, batch: seq<TokenMeta>, known: set<string>): string {
    TextWithHeader(file) + Lines(NewRows(batch, known))
  }

  /** A file without stale rows is left alone. */
  function PrunedFile(file: File, cutoff: string): File {
    var rows := RowsOf(file);
    if |Kept(rows, cutoff)| == |rows| then file else Some(FileText(Kept(rows, cutoff)))
  }

  /** `index` points every id to its last row. */
  ghost predicate Indexes(index: map<string, nat>, rows: seq<TokenMeta>) {
    forall id :: (id in index <==> LastIndexOf(rows, id) >= 0) && (id in index ==> index[id] == LastIndexOf(rows, id))
  }

  lemma IndexAfterInsert(index: map<string, nat>, rows: seq<TokenMeta>, m: TokenMeta)
    requires Indexes(index, rows)
    ensures Indexes(index[m.tokenId := |rows|], rows + [m])
  {
    forall id { LastIndexOneMore(rows, m, id); }
  }

  lemma LastIndexIsLast(rows: seq<TokenMeta>, id: string, i: nat)
    requires i < |rows| && rows[i].tokenId == id
    requires forall j | i < j < |rows| :: rows[j].tokenId != id
    ensures LastIndexOf(rows, id) == i
  {
  }

  lemma IndexAfterUpsert(index: map<string, nat>, rows: seq<TokenMeta>, m: TokenMeta)
    requires Indexes(index, rows) && m.tokenId in index
    ensures Indexes(index, rows[index[m.tokenId] := m])
  {
    var after := rows[index[m.tokenId] := m];
    assert forall j | 0 <= j < |rows| :: after[j].tokenId == rows[j].tokenId;
    forall id ensures LastIndexOf(after, id) == LastIndexOf(rows, id) {
      var i := LastIndexOf(rows, id);
      if i >= 0 { LastIndexIsLast(after, id, i); }
    }
  }

  method IndexRows(rows: seq<TokenMeta>) returns (index: map<string, nat>)
    ensures Indexes(index, rows)
  {
    index := map[];
    for i := 0 to |rows|
      invariant Indexes(index, rows[..i])
    {
      IndexAfterInsert(index, rows[..i], rows[i]);
      assert rows[..i + 1] == rows[..i] + [rows[i]];
      index := index[rows[i].tokenId := i];
    }
    assert rows[..|rows|] == rows;
  }

  method UpsertRows(existing: seq<TokenMeta>, batch: seq<TokenMeta>) returns (rows: seq<TokenMeta>)
    ensures rows == UpsertAll(existing, batch)
  {
    rows := existing;
    var index: map<string, nat> := IndexRows(rows);
    for i := 0 to |batch|
      invariant Indexes(index, rows) && rows == UpsertAll(existing, batch[..i])
    {
      var m := batch[i];
      assert batch[..i + 1][..i] == batch[..i];
      if m.tokenId in index {
        IndexAfterUpsert(index, rows, m);
        rows := rows[index[m.tokenId] := m];
      } else {
        IndexAfterInsert(index, rows, m);
        index := index[m.tokenId := |rows|];
        rows := rows + [m];
      }
    }
    assert batch[..|batch|] == batch;
  }

  method DelistRows(rows: seq<TokenMeta>, batch: seq<TokenMeta>) returns (r: seq<TokenMeta>)
    ensures r == DelistAll(rows, batch)
  {
    var batchIndex := IndexRows(batch);
    r := [];
    for i := 0 to |rows|
      invariant |r| == i && forall j | 0 <= j < i :: r[j] == Delist(rows[j], batch)
    {
      r := r + [if rows[i].tokenId in batchIndex then rows[i] else rows[i].(active := false)];
    }
  }

  method PruneRows(rows: seq<TokenMeta>, cutoff: string) returns (kept: seq<TokenMeta>, dropped: nat)
    ensures kept == Kept(rows, cutoff) && dropped == |rows| - |kept|
  {
    kept, dropped := [], 0;
    for i := 0 to |rows|
      invariant kept == Kept(rows[..i], cutoff) && dropped == i - |kept|
    {
      assert rows[..i + 1][..i] == rows[..i];
      if rows[i].endDate == "" || !Before(rows[i].endDate, cutoff) {
        kept := kept + [rows[i]];
      } else {
        dropped := dropped + 1;
      }
    }
    assert rows[..|rows|] == rows;
  }

  class MetadataStore {
    var file: File
    /** Ids never to be appended again. */
    var known: set<string>

    constructor (file: File)
      ensures this.file == file && known == {}
    {
      this.file := file;
      known := {};
    }

    method ReadFile() returns (rows: seq<TokenMeta>)
      ensures rows == RowsOf(file)
    {
      if file.None? { return []; }
      rows := ReadCsvTokens(file.value);
    }

    method Merge(batch: seq<TokenMeta>)
      modifies this
      ensures file == Some(MergedText(old(file), batch)) && known == old(known)
    {
      var existing := ReadFile();
      var rows := UpsertRows(existing, batch);
      rows := DelistRows(rows, batch);
      var text := WriteMetadataCsv(rows);
      file := Some(text);
    }

    /** Fills the dedup set from the file. */
    method Seed()
      modifies this
      ensures file == old(file) && known == old(known) + Ids(RowsOf(file))
    {
      var rows := ReadFile();
      for i := 0 to |rows|
        invariant file == old(file) && known == old(known) + Ids(rows[..i])
      {
        assert rows[..i + 1][..i] == rows[..i];
        IdsOfSplit(rows[..i + 1]);
        known := known + {rows[i].tokenId};
      }
      assert rows[..|rows|] == rows;
    }

    method Append(batch: seq<TokenMeta>)
      modifies this
      ensures file == Some(AppendedText(old(file), batch, old(known)))
      ensures known == old(known) + Ids(batch)
    {
      var base := TextWithHeader(file);
      var text := base;
      EmptyIsUnit(base);
      for i := 0 to |batch|
        invariant text == base + Lines(NewRows(batch[..i], old(known)))
        invariant file == old(file) && known == old(known) + Ids(batch[..i])
      {
        NewRowsOneMore(batch, i, old(known), base);
        if batch[i].tokenId !in known {
          var line := FormatRow(batch[i]);
          text := text + (line + "\n");
        }
        known := known + {batch[i].tokenId};
      }
      assert batch[..|batch|] == batch;
      file := Some(text);
    }

    method Prune(cutoff: string) returns (dropped: nat)
      modifies this
      ensures file == PrunedFile(old(file), cutoff) && known == old(known)
      ensures dropped == |RowsOf(old(file))| - |Kept(RowsOf(old(file)), cutoff)|
    {
      var rows := ReadFile();
      if rows == [] { return 0; }
      var kept;
      kept, dropped := PruneRows(rows, cutoff);
      if dropped > 0 {
        var text := WriteMetadataCsv(kept);
        file := Some(text);
      }
    }
  }

  lemma LinesFromFront(m: TokenMeta, rows: seq<TokenMeta>)
    ensures Lines([m] + rows) == Row(m) + "\n" + Lines(rows)
  {
    assert ([m] + rows)[1..] == rows;
  }

  lemma LinesOfSumFromFront(m: TokenMeta, a: seq<TokenMeta>, b: seq<TokenMeta>)
    requires Lines(a + b) == Lines(a) + Lines(b)
    ensures Lines([m] + (a + b)) == Lines([m] + a) + Lines(b)
  {
    LinesFromFront(m, a + b);
    LinesFromFront(m, a);
    Associative(Row(m) + "\n", Lines(a), Lines(b));
  }

  lemma {:induction false} LinesOfSum(a: seq<TokenMeta>, b: seq<TokenMeta>)
    ensures Lines(a + b) == Lines(a) + Lines(b)
  {
    if a == [] {
      EmptyIsUnit(b);
      EmptyIsUnit(Lines(b));
    } else {
      var m, t := a[0], a[1..];
      assert a == [m] + t;
      LinesOfSum(t, b);
      LinesOfSumFromFront(m, t, b);
      Associative([m], t, b);
    }
  }

  lemma LinesOneRowMore(base: string, rows: seq<TokenMeta>, m: TokenMeta)
    ensures base + Lines(rows + [m]) == (base + Lines(rows)) + (Row(m) + "\n")
  {
    LinesOfSum(rows, [m]);
    assert Lines([m]) == Row(m) + "\n" + Lines([]);
    Associative(base, Lines(rows), Row(m) + "\n");
  }

  lemma NewRowsOneMore(batch: seq<TokenMeta>, i: nat, known: set<string>, base: string)
    requires i < |batch|
    ensures var now := known + Ids(batch[..i]);
            var done := base + Lines(NewRows(batch[..i], known));
            && Ids(batch[..i + 1]) == Ids(batch[..i]) + {batch[i].tokenId}
            && base + Lines(NewRows(batch[..i + 1], known))
               == if batch[i].tokenId in now then done else done + (Row(batch[i]) + "\n")
  {
    assert batch[..i + 1][..i] == batch[..i];
    IdsOfSplit(batch[..i + 1]);
    IdIsFound(batch[..i], batch[i].tokenId);
    EmptyIsUnit(NewRows(batch[..i], known));
    LinesOneRowMore(base, NewRows(batch[..i], known), batch[i]);
  }
}
