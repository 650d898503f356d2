/** The printing and parsing loops of the metadata file, each equal to the text functions of MetadataCsv. */
module MetadataFiles {
  import opened Wrappers
  import opened MetadataCsv
  import opened Sequences

  method CsvEscapeQuestion(s: string) returns (out: string)
    ensures out == EscapeQuestion(s)
  {
    out := "\"";
    for i := 0 to |s|
      invariant out == "\"" + EscapeBody(s[..i])
    {
      assert s[..i + 1][..i] == s[..i];
      var c := s[i];
      if c == '\n' || c == '\r' {
        out := out + " ";
        continue;
      }
      if c == '\"' { out := out + "\""; }
      out := out + [c];
    }
    assert s[..|s|] == s;
    out := out + "\"";
  }

  method FormatRow(m: TokenMeta) returns (line: string)
    ensures line == Row(m)
  {
    var q := CsvEscapeQuestion(m.question);
    var tail := q + ("," + (m.endDate + "," + (FormatBool(m.active) + "," + FormatInt(m.takerFeeBps))));
    line := m.tokenId + "," + (m.conditionId + "," + (m.outcome + "," + tail));
  }

  lemma LinesOneMore(rows: seq<TokenMeta>, i: nat)
    requires i < |rows|
    ensures Lines(rows[i..]) == Row(rows[i]) + "\n" + Lines(rows[i + 1..])
  {
    assert rows[i..][1..] == rows[i + 1..];
  }

  /** What write_metadata_csv leaves in the file. */
  method WriteMetadataCsv(metadata: seq<TokenMeta>) returns (text: string)
    ensures text == FileText(metadata)
  {
    text := HEADER + "\n";
    for i := 0 to |metadata|
      invariant text + Lines(metadata[i..]) == FileText(metadata)
    {
      var line := FormatRow(metadata[i]);
      LinesOneMore(metadata, i);
      Associative(text, line + "\n", Lines(metadata[i + 1..]));
      text := text + (line + "\n");
    }
    assert text + Lines(metadata[|metadata|..]) == text;
  }

  // ---- reading ----

  lemma {:induction false} IndexOfFirst(s: string, c: char, i: nat)
    requires i <= |s| && c !in s[..i] && (i < |s| ==> s[i] == c)
    ensures IndexOf(s, c) == i
  {
    if i > 0 {
      assert s[..i][0] == s[0] && s[..i][1..] == s[1..][..i - 1];
      IndexOfFirst(s[1..], c, i - 1);
    }
  }

  /** strchr for a comma from p on. */
  method FindComma(line: string, p: nat) returns (comma: nat)
    requires p <= |line|
    ensures p <= comma <= |line| && comma - p == IndexOf(line[p..], ',')
    ensures line[p..][comma - p..] == line[comma..]
  {
    comma := p;
    while comma < |line| && line[comma] != ','
      invariant p <= comma <= |line|
      invariant forall k | p <= k < comma :: line[k] != ','
    {
      comma := comma + 1;
    }
    IndexOfFirst(line[p..], ',', comma - p);
  }

  method PastComma(line: string, p: nat) returns (next: nat)
    requires p <= |line|
    ensures p <= next <= |line| && SkipComma(line[p..]) == line[next..]
  {
    next := p;
    if p < |line| && line[p] == ',' {
      assert line[p..][1..] == line[p + 1..];
      next := p + 1;
    }
  }

  method NextField(line: string, p: nat) returns (found: bool, field: string, next: nat)
    requires p <= |line|
    ensures p <= next <= |line|
    ensures Field(line[p..]) == if found then Some((field, line[next..])) else None
  {
    var comma := FindComma(line, p);
    if comma == |line| { return false, "", p; }
    assert line[p..][..comma - p] == line[p..comma];
    assert line[p..][comma - p + 1..] == line[comma + 1..];
    return true, line[p..comma], comma + 1;
  }

  /** What the quoted-field reader has found so far: the whole field is `done` and the rest of s. */
  ghost predicate QuotedSoFar(whole: (string, string), done: string, s: string) {
    whole == (done + Unquote(s).0, Unquote(s).1)
  }

  lemma QuotedOneMore(whole: (string, string), done: string, c: char, s: string, tail: string)
    requires QuotedSoFar(whole, done, s)
    requires Unquote(s) == ([c] + Unquote(tail).0, Unquote(tail).1)
    ensures QuotedSoFar(whole, done + [c], tail)
  {
    Associative(done, [c], Unquote(tail).0);
  }

  /** The contents of a quoted field whose opening quote stands before `start`. */
  method ReadQuoted(line: string, start: nat) returns (question: string, p: nat)
    requires start <= |line|
    ensures start <= p <= |line| && Unquote(line[start..]) == (question, line[p..])
  {
    question, p := "", start;
    ghost var whole := Unquote(line[start..]);
    EmptyIsUnit(whole.0);
    while p < |line|
      invariant start <= p <= |line|
      invariant QuotedSoFar(whole, question, line[p..])
    {
      if line[p] == '\"' {
        if p + 1 < |line| && line[p + 1] == '\"' {
          assert line[p..][2..] == line[p + 2..];
          QuotedOneMore(whole, question, '\"', line[p..], line[p + 2..]);
          question := question + "\"";
          p := p + 2;
        } else {
          assert line[p..][1..] == line[p + 1..];
          p := p + 1;
          EmptyIsUnit(question);
          return;
        }
      } else {
        assert line[p..][1..] == line[p + 1..];
        QuotedOneMore(whole, question, line[p], line[p..], line[p + 1..]);
        question := question + [line[p]];
        p := p + 1;
      }
    }
    EmptyIsUnit(question);
  }

  method ReadQuestion(line: string, p: nat) returns (found: bool, question: string, next: nat)
    requires p <= |line|
    ensures p <= next <= |line|
    ensures QuestionField(line[p..]) == if found then Some((question, line[next..])) else None
  {
    if p < |line| && line[p] == '\"' {
      assert line[p..][1..] == line[p + 1..];
      question, next := ReadQuoted(line, p + 1);
      next := PastComma(line, next);
      found := true;
    } else {
      found, question, next := NextField(line, p);
    }
  }

  method ReadFlags(line: string, p: nat) returns (active: bool, fee: int)
    requires p <= |line|
    ensures (active, fee) == ParseFlags(line[p..])
  {
    active := p < |line| && line[p] == '1';
    var q := FindComma(line, p);
    q := PastComma(line, q);
    fee := Atoi(line[q..]);
  }

  method ParseLine(line: string) returns (r: Option<TokenMeta>)
    ensures r == ParseRow(line)
  {
    assert line[0..] == line;
    var found, id, p := NextField(line, 0);
    if !found { return None; }
    var cond, outcome, question, date;
    found, cond, p := NextField(line, p);
    if !found { return None; }
    found, outcome, p := NextField(line, p);
    if !found { return None; }
    found, question, p := ReadQuestion(line, p);
    if !found { return None; }
    found, date, p := NextField(line, p);
    if !found { return None; }
    var active, fee := ReadFlags(line, p);
    return Some(TokenMeta(id, cond, outcome, question, date, active, fee));
  }

  method TrimEol(chunk: string) returns (line: string)
    ensures line == StripEol(chunk)
  {
    var len := |chunk|;
    assert chunk[..len] == chunk;
    while len > 0 && (chunk[len - 1] == '\n' || chunk[len - 1] == '\r')
      invariant len <= |chunk| && StripEol(chunk[..len]) == StripEol(chunk)
    {
      assert chunk[..len][..len - 1] == chunk[..len - 1];
      len := len - 1;
    }
    line := chunk[..len];
  }

  method ReadRecord(chunk: string) returns (record: seq<TokenMeta>)
    ensures record == Record(chunk)
  {
    var line := TrimEol(chunk);
    if line == "" { return []; }
    var m := ParseLine(line);
    return if m.None? then [] else [m.value];
  }

  lemma ReadRowsOneMore(text: string, p: nat)
    requires p < |text|
    ensures var n := Fgets(text[p..]);
            ReadRows(text[p..]) == Record(text[p..p + n]) + ReadRows(text[p + n..])
  {
    var n := Fgets(text[p..]);
    assert text[p..][..n] == text[p..p + n] && text[p..][n..] == text[p + n..];
  }

  /** read_csv_tokens on a file's text. */
  method ReadCsvTokens(text: string) returns (result: seq<TokenMeta>)
    ensures result == ReadTokens(text)
  {
    result := [];
    if text == "" { return; }
    var p: nat := Fgets(text);
    while p < |text|
      invariant p <= |text|
      invariant result + ReadRows(text[p..]) == ReadTokens(text)
      decreases |text| - p
    {
      var n := Fgets(text[p..]);
      var record := ReadRecord(text[p..p + n]);
      ReadRowsOneMore(text, p);
      Associative(result, record, ReadRows(text[p + n..]));
      result := result + record;
      p := p + n;
    }
  }
}
