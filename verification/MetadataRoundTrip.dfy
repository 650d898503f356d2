/**
 What the metadata file keeps: reading back a written file returns the records it was written from.
 */
module MetadataRoundTrip {
  import opened Wrappers
  import opened MetadataCsv
  import opened Sequences

  function CleanChar(c: char): char { if IsNewline(c) then ' ' else c }

  function CleanText(s: string): (r: string)
    ensures |r| == |s| && forall i | 0 <= i < |s| :: r[i] == CleanChar(s[i])
  {
    seq(|s|, i requires 0 <= i < |s| => CleanChar(s[i]))
  }

  /** What is kept of a record: line breaks in the question become spaces. */
  function Clean(m: TokenMeta): TokenMeta { m.(question := CleanText(m.question)) }

  function CleanAll(rows: seq<TokenMeta>): (r: seq<TokenMeta>)
    ensures |r| == |rows| && forall i | 0 <= i < |rows| :: r[i] == Clean(rows[i])
  {
    seq(|rows|, i requires 0 <= i < |rows| => Clean(rows[i]))
  }

  predicate PlainField(s: string) { ',' !in s && '\n' !in s }

  /** Records the format can carry: plain unquoted fields and a line that fits the read buffer. */
  predicate Storable(m: TokenMeta) {
    && PlainField(m.tokenId) && PlainField(m.conditionId) && PlainField(m.outcome) && PlainField(m.endDate)
    && |Row(m)| <= 2047
  }

  ghost predicate AllStorable(rows: seq<TokenMeta>) {
    forall m | m in rows :: Storable(m)
  }

  lemma IndexOfIn(s: string, rest: string, c: char)
    requires c !in s
    ensures IndexOf(s + [c] + rest, c) == |s|
  {
    var t := s + [c] + rest;
    assert t[|s|] == c && t[..|s|] == s;
  }

  lemma FieldReadsBack(s: string, rest: string)
    requires ',' !in s
    ensures Field(s + "," + rest) == Some((s, rest))
  {
    IndexOfIn(s, rest, ',');
    var t := s + "," + rest;
    assert t[..|s|] == s && t[|s| + 1..] == rest;
  }

  /** Escaping, front to back. */
  lemma {:induction false} EscapeFromFront(c: char, s: string)
    ensures EscapeBody([c] + s) == EscapeChar(c) + EscapeBody(s)
  {
    var t := [c] + s;
    if s == "" {
      assert t[..0] == "" && t == [c];
      assert EscapeBody(t) == "" + EscapeChar(c);
    } else {
      EscapeFromFront(c, s[..|s| - 1]);
      assert t[..|t| - 1] == [c] + s[..|s| - 1];
      assert (EscapeChar(c) + EscapeBody(s[..|s| - 1])) + EscapeChar(s[|s| - 1])
             == EscapeChar(c) + (EscapeBody(s[..|s| - 1]) + EscapeChar(s[|s| - 1]));
    }
  }

  lemma UnquoteEscaped(c: char, tail: string)
    requires tail != ""
    ensures Unquote(EscapeChar(c) + tail) == ([CleanChar(c)] + Unquote(tail).0, Unquote(tail).1)
  {
    var t := EscapeChar(c) + tail;
    if c == '\"' {
      assert t[2..] == tail;
    } else {
      assert t[1..] == tail;
    }
  }

  lemma CleanFromFront(c: char, s: string)
    ensures CleanText([c] + s) == [CleanChar(c)] + CleanText(s)
  {
  }

  lemma UnquoteCloses(rest: string)
    requires rest == "" || rest[0] != '\"'
    ensures Unquote("\"" + rest) == ("", rest)
  {
    var t := "\"" + rest;
    assert t[1..] == rest;
  }

  /** The parser undoes the escaping, up to line breaks. */
  lemma {:induction false} UnquoteReadsBack(q: string, rest: string)
    requires rest == "" || rest[0] != '\"'
    ensures Unquote(EscapeBody(q) + ("\"" + rest)) == (CleanText(q), rest)
    decreases |q|
  {
    if q == "" {
      UnquoteCloses(rest);
      assert EscapeBody(q) + ("\"" + rest) == "\"" + rest;
    } else {
      var c, t := q[0], q[1..];
      assert q == [c] + t;
      EscapeFromFront(c, t);
      UnquoteReadsBack(t, rest);
      UnquoteEscaped(c, EscapeBody(t) + ("\"" + rest));
      CleanFromFront(c, t);
      Associative(EscapeChar(c), EscapeBody(t), "\"" + rest);
    }
  }

  function DoubleQuotes(s: string): string {
    if s == "" then "" else (if s[0] == '\"' then "\"\"" else [s[0]]) + DoubleQuotes(s[1..])
  }

  /** On any text the quoted-field reader stops at the first quote that is not doubled, or at the end, and
      returns what stands before it with doubled quotes made single. */
  lemma {:induction false} UnquoteStopsAtLoneQuote(s: string)
    ensures var (q, rest) := Unquote(s);
            || (rest == "" && s == DoubleQuotes(q))
            || ((rest == "" || rest[0] != '\"') && s == DoubleQuotes(q) + ("\"" + rest))
  {
    if s != "" {
      if s[0] != '\"' {
        UnquoteStopsAtLoneQuote(s[1..]);
        var (q, rest) := Unquote(s[1..]);
        assert ([s[0]] + q)[1..] == q;
        assert s == [s[0]] + s[1..];
        Associative([s[0]], DoubleQuotes(q), "\"" + rest);
      } else if |s| > 1 && s[1] == '\"' {
        UnquoteStopsAtLoneQuote(s[2..]);
        var (q, rest) := Unquote(s[2..]);
        assert ("\"" + q)[1..] == q;
        assert s == "\"\"" + s[2..];
        Associative("\"\"", DoubleQuotes(q), "\"" + rest);
      } else {
        assert s == DoubleQuotes("") + ("\"" + s[1..]);
      }
    }
  }

  // ---- numbers ----

  predicate AllDigits(s: string) { forall i | 0 <= i < |s| :: IsDigit(s[i]) }

  lemma {:induction false} LeadingNumberAppend(s: string, d: nat, acc: nat)
    requires AllDigits(s) && d < 10
    ensures LeadingNumber(s + [DigitChar(d)], acc) == 10 * LeadingNumber(s, acc) + d
  {
    var t := s + [DigitChar(d)];
    if s != "" {
      assert t[1..] == s[1..] + [DigitChar(d)];
      LeadingNumberAppend(s[1..], d, acc * 10 + (s[0] - '0') as nat);
    } else {
      assert t[1..] == "";
    }
  }

  lemma {:induction false} DigitsReadBack(n: nat)
    ensures Digits(n) != "" && AllDigits(Digits(n)) && LeadingNumber(Digits(n), 0) == n
  {
    if n >= 10 {
      DigitsReadBack(n / 10);
      LeadingNumberAppend(Digits(n / 10), n % 10, 0);
    } else {
      LeadingNumberAppend("", n, 0);
      assert Digits(n) == "" + [DigitChar(n)];
    }
  }

  lemma IntReadsBack(n: int)
    ensures Atoi(FormatInt(n)) == n && (FormatInt(n) != "" && FormatInt(n)[0] == '-' <==> n < 0)
    ensures FormatInt(n) != "" && IsDigit(FormatInt(n)[|FormatInt(n)| - 1]) && '\n' !in FormatInt(n)
  {
    if n < 0 {
      DigitsReadBack(-n);
      assert FormatInt(n)[1..] == Digits(-n);
    } else {
      DigitsReadBack(n);
    }
  }

  // ---- one line ----

  lemma QuestionReadsBack(q: string, rest: string)
    ensures QuestionField(EscapeQuestion(q) + ("," + rest)) == Some((CleanText(q), rest))
  {
    var after := "," + rest;
    UnquoteReadsBack(q, after);
    var s := EscapeQuestion(q) + after;
    assert s[1..] == EscapeBody(q) + ("\"" + after);
    assert after[1..] == rest;
  }

  lemma FlagsReadBack(m: TokenMeta)
    ensures ParseFlags(FlagTail(m)) == (m.active, m.takerFeeBps)
  {
    var f := FormatBool(m.active);
    IndexOfIn(f, FormatInt(m.takerFeeBps), ',');
    IntReadsBack(m.takerFeeBps);
    var s := FlagTail(m);
    assert s[|f|..][1..] == FormatInt(m.takerFeeBps);
  }

  /** One written line parses to its record. */
  lemma RowReadsBack(m: TokenMeta)
    requires Storable(m)
    ensures ParseRow(Row(m)) == Some(Clean(m))
  {
    FieldReadsBack(m.tokenId, m.conditionId + "," + (m.outcome + "," + QuestionTail(m)));
    FieldReadsBack(m.conditionId, m.outcome + "," + QuestionTail(m));
    FieldReadsBack(m.outcome, QuestionTail(m));
    QuestionReadsBack(m.question, DateTail(m));
    FieldReadsBack(m.endDate, FlagTail(m));
    FlagsReadBack(m);
  }

  // ---- the columns ----

  const COLUMNS := ["asset_id", "condition_id", "outcome", "question", "end_date", "active", "taker_fee_bps"]

  /** What a record holds under a column name, as text. */
  function Column(m: TokenMeta, name: string): string {
    if name == "asset_id" then m.tokenId
    else if name == "condition_id" then m.conditionId
    else if name == "outcome" then m.outcome
    else if name == "question" then EscapeQuestion(m.question)
    else if name == "end_date" then m.endDate
    else if name == "active" then (if m.active then "1" else "0")
    else FormatInt(m.takerFeeBps)
  }

  function Joined(fields: seq<string>): string
    requires fields != []
  {
    if |fields| == 1 then fields[0] else fields[0] + "," + Joined(fields[1..])
  }

  lemma JoinedFromFront(x: string, rest: seq<string>)
    requires rest != []
    ensures Joined([x] + rest) == x + "," + Joined(rest)
  {
    assert ([x] + rest)[1..] == rest;
  }

  lemma SevenJoined(a: string, b: string, c: string, d: string, e: string, f: string, g: string)
    ensures Joined([a, b, c, d, e, f, g])
            == a + "," + (b + "," + (c + "," + (d + "," + (e + "," + (f + "," + g)))))
  {
    JoinedFromFront(f, [g]);
    JoinedFromFront(e, [f, g]);
    JoinedFromFront(d, [e, f, g]);
    JoinedFromFront(c, [d, e, f, g]);
    JoinedFromFront(b, [c, d, e, f, g]);
    JoinedFromFront(a, [b, c, d, e, f, g]);
    assert [f] + [g] == [f, g] && [e] + [f, g] == [e, f, g] && [d] + [e, f, g] == [d, e, f, g];
    assert [c] + [d, e, f, g] == [c, d, e, f, g] && [b] + [c, d, e, f, g] == [b, c, d, e, f, g];
    assert [a] + [b, c, d, e, f, g] == [a, b, c, d, e, f, g];
  }

  lemma HeaderNamesColumns()
    ensures HEADER == Joined(COLUMNS)
  {
    SevenJoined("asset_id", "condition_id", "outcome", "question", "end_date", "active", "taker_fee_bps");
  }

  /** The values of a record in the order of the header's columns. */
  function Values(m: TokenMeta): seq<string> {
    seq(|COLUMNS|, i requires 0 <= i < |COLUMNS| => Column(m, COLUMNS[i]))
  }

  lemma SevenValues(m: TokenMeta)
    ensures Values(m) == [m.tokenId, m.conditionId, m.outcome, EscapeQuestion(m.question), m.endDate,
                          FormatBool(m.active), FormatInt(m.takerFeeBps)]
  {
  }

  /** The header names the columns, and every line holds its record's values in that order. */
  lemma RowFollowsHeader(m: TokenMeta)
    ensures HEADER == Joined(COLUMNS)
    ensures Row(m) == Joined(Values(m))
  {
    HeaderNamesColumns();
    SevenValues(m);
    SevenJoined(m.tokenId, m.conditionId, m.outcome, EscapeQuestion(m.question), m.endDate,
                FormatBool(m.active), FormatInt(m.takerFeeBps));
    Associative(EscapeQuestion(m.question), ",", DateTail(m));
  }

  lemma {:induction false} EscapeHasNoNewline(s: string)
    ensures '\n' !in EscapeBody(s)
  {
    if s != "" { EscapeHasNoNewline(s[..|s| - 1]); }
  }

  lemma QuestionTailShape(m: TokenMeta)
    requires Storable(m)
    ensures '\n' !in QuestionTail(m)
    ensures QuestionTail(m) != "" && IsDigit(QuestionTail(m)[|QuestionTail(m)| - 1])
  {
    EscapeHasNoNewline(m.question);
    IntReadsBack(m.takerFeeBps);
    assert '\n' !in FlagTail(m) && IsDigit(FlagTail(m)[|FlagTail(m)| - 1]);
    assert '\n' !in DateTail(m) && IsDigit(DateTail(m)[|DateTail(m)| - 1]);
  }

  /** A written line holds no line break and ends in a digit. */
  lemma RowShape(m: TokenMeta)
    requires Storable(m)
    ensures '\n' !in Row(m) && Row(m) != "" && IsDigit(Row(m)[|Row(m)| - 1])
  {
    QuestionTailShape(m);
    var r := m.outcome + "," + QuestionTail(m);
    assert '\n' !in r && IsDigit(r[|r| - 1]);
    var c := m.conditionId + "," + r;
    assert '\n' !in c && IsDigit(c[|c| - 1]);
  }

  /** A nonempty line of at most LINE_MAX characters. */
  predicate LineShape(line: string) {
    '\n' !in line && line != "" && !IsNewline(line[|line| - 1]) && |line| <= LINE_MAX
  }

  lemma EolIsStripped(line: string)
    requires LineShape(line)
    ensures Record(line + "\n") == Record(line)
  {
    var s := line + "\n";
    assert s[..|s| - 1] == line;
  }

  lemma BlankLineSkipped(rest: string)
    ensures ReadRows("\n" + rest) == ReadRows(rest)
  {
    var s := "\n" + rest;
    assert s[..1] == "\n" && s[1..] == rest && Fgets(s) == 1;
    assert StripEol("\n") == "";
  }

  /** A line is read whole, also one that fills the read buffer. */
  lemma LineIsReadWhole(line: string, rest: string)
    requires LineShape(line)
    ensures ReadRows(line + "\n" + rest) == Record(line) + ReadRows(rest)
  {
    IndexOfIn(line, rest, '\n');
    var s := line + "\n" + rest;
    if |line| < LINE_MAX {
      EolIsStripped(line);
      assert s[..|line| + 1] == line + "\n" && s[|line| + 1..] == rest;
    } else {
      BlankLineSkipped(rest);
      assert s[..LINE_MAX] == line && s[LINE_MAX..] == "\n" + rest;
    }
  }

  lemma RecordOfLine(line: string)
    requires LineShape(line)
    ensures ParseRow(line).Some? ==> Record(line) == [ParseRow(line).value]
  {
  }

  /** A written line gives one record. */
  lemma RowIsOneRecord(m: TokenMeta, rest: string)
    requires Storable(m)
    ensures ReadRows(Row(m) + "\n" + rest) == [Clean(m)] + ReadRows(rest)
  {
    var line := Row(m);
    RowShape(m);
    RowReadsBack(m);
    RecordOfLine(line);
    LineIsReadWhole(line, rest);
  }

  // ---- whole files ----

  lemma LinesAfterFirst(rows: seq<TokenMeta>, rest: string)
    requires rows != []
    ensures Lines(rows) + rest == Row(rows[0]) + "\n" + (Lines(rows[1..]) + rest)
  {
    Associative(Row(rows[0]) + "\n", Lines(rows[1..]), rest);
  }

  lemma FirstLineRead(rows: seq<TokenMeta>, rest: string)
    requires rows != [] && Storable(rows[0])
    ensures ReadRows(Lines(rows) + rest) == [Clean(rows[0])] + ReadRows(Lines(rows[1..]) + rest)
  {
    var tail := Lines(rows[1..]) + rest;
    LinesAfterFirst(rows, rest);
    RowIsOneRecord(rows[0], tail);
  }

  lemma CleanAllFromFront(rows: seq<TokenMeta>, more: seq<TokenMeta>)
    requires rows != []
    ensures [Clean(rows[0])] + (CleanAll(rows[1..]) + more) == CleanAll(rows) + more
  {
  }

  lemma {:induction false} LinesReadBack(rows: seq<TokenMeta>, rest: string)
    requires AllStorable(rows)
    ensures ReadRows(Lines(rows) + rest) == CleanAll(rows) + ReadRows(rest)
  {
    if rows == [] {
      assert Lines(rows) + rest == rest;
      assert CleanAll(rows) + ReadRows(rest) == ReadRows(rest);
    } else {
      LinesReadBack(rows[1..], rest);
      FirstLineRead(rows, rest);
      CleanAllFromFront(rows, ReadRows(rest));
    }
  }

  lemma HeaderIsOneLine()
    ensures '\n' !in HEADER && 0 < |HEADER| < LINE_MAX
  {
    assert '\n' !in "asset_id" && '\n' !in "condition_id" && '\n' !in "outcome" && '\n' !in "question";
    assert '\n' !in "end_date" && '\n' !in "active" && '\n' !in "taker_fee_bps";
  }

  lemma HeaderIsSkipped(lines: string)
    ensures ReadTokens(HEADER + "\n" + lines) == ReadRows(lines)
  {
    HeaderIsOneLine();
    IndexOfIn(HEADER, lines, '\n');
    var s := HEADER + "\n" + lines;
    assert s[|HEADER| + 1..] == lines;
  }

  /** Appending lines to a file appends their records to what is read. */
  lemma AppendedFileReadsBack(rows: seq<TokenMeta>, lines: string)
    requires AllStorable(rows)
    ensures ReadTokens(FileText(rows) + lines) == CleanAll(rows) + ReadRows(lines)
  {
    Associative(HEADER + "\n", Lines(rows), lines);
    HeaderIsSkipped(Lines(rows) + lines);
    LinesReadBack(rows, lines);
  }

  /** Reading back a written file returns its records, with line breaks in questions as spaces. */
  lemma FileReadsBack(rows: seq<TokenMeta>)
    requires AllStorable(rows)
    ensures ReadTokens(FileText(rows)) == CleanAll(rows)
  {
    AppendedFileReadsBack(rows, "");
    assert FileText(rows) + "" == FileText(rows);
    assert CleanAll(rows) + [] == CleanAll(rows);
  }

  lemma {:induction false} EscapeIgnoresCleaning(s: string)
    ensures EscapeBody(CleanText(s)) == EscapeBody(s)
  {
    if s != "" {
      var t := s[..|s| - 1];
      EscapeIgnoresCleaning(t);
      assert CleanText(s)[..|s| - 1] == CleanText(t);
    }
  }

  lemma RowIgnoresCleaning(m: TokenMeta)
    ensures Row(Clean(m)) == Row(m)
  {
    EscapeIgnoresCleaning(m.question);
  }

  lemma {:induction false} LinesIgnoreCleaning(rows: seq<TokenMeta>)
    ensures Lines(CleanAll(rows)) == Lines(rows)
  {
    if rows != [] {
      RowIgnoresCleaning(rows[0]);
      LinesIgnoreCleaning(rows[1..]);
      assert CleanAll(rows)[1..] == CleanAll(rows[1..]);
    }
  }

  /** Writing what was read changes nothing, and reading it again changes nothing. */
  lemma RewriteChangesNothing(rows: seq<TokenMeta>)
    requires AllStorable(rows)
    ensures FileText(ReadTokens(FileText(rows))) == FileText(rows)
    ensures CleanAll(CleanAll(rows)) == CleanAll(rows)
  {
    FileReadsBack(rows);
    LinesIgnoreCleaning(rows);
    forall i | 0 <= i < |rows| ensures Clean(Clean(rows[i])) == Clean(rows[i]) {
      assert CleanText(CleanText(rows[i].question)) == CleanText(rows[i].question);
    }
  }
}
