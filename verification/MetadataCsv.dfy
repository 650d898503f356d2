/**
 The metadata file as text: one comma-separated line per token, the question quoted with doubled
 quotes, read back with `fgets` into a fixed buffer and a hand-written line parser.
 Characters stand for bytes; none of them is NUL.
 */
module MetadataCsv {
  import opened Wrappers

  datatype TokenMeta = TokenMeta(
    tokenId: string, conditionId: string, outcome: string, question: string,
    endDate: string, active: bool, takerFeeBps: int)

  const HEADER :=
    "asset_id" + "," + ("condition_id" + "," + ("outcome" + "," + ("question" + "," + ("end_date" + "," + ("active" + "," + "taker_fee_bps")))))

  /** fgets(line, 2048) reads at most this many characters. */
  const LINE_MAX: nat := 2047

  // ---- writing ----

  predicate IsNewline(c: char) { c == '\n' || c == '\r' }

  function EscapeChar(c: char): string {
    if IsNewline(c) then " " else if c == '\"' then "\"\"" else [c]
  }

  function EscapeBody(s: string): string {
    if s == "" then "" else EscapeBody(s[..|s| - 1]) + EscapeChar(s[|s| - 1])
  }

  function EscapeQuestion(s: string): string { "\"" + EscapeBody(s) + "\"" }

  function DigitChar(d: nat): char
    requires d < 10
  {
    '0' + d as char
  }

  function Digits(n: nat): string {
    if n < 10 then [DigitChar(n)] else Digits(n / 10) + [DigitChar(n % 10)]
  }

  function FormatInt(n: int): string {
    if n < 0 then "-" + Digits(-n) else Digits(n)
  }

  function FormatBool(b: bool): string { if b then "1" else "0" }

  function FlagTail(m: TokenMeta): string { FormatBool(m.active) + "," + FormatInt(m.takerFeeBps) }

  function DateTail(m: TokenMeta): string { m.endDate + "," + FlagTail(m) }

  function QuestionTail(m: TokenMeta): string { EscapeQuestion(m.question) + ("," + DateTail(m)) }

  /** One line without its newline. */
  function Row(m: TokenMeta): string {
    m.tokenId + "," + (m.conditionId + "," + (m.outcome + "," + QuestionTail(m)))
  }

  function Lines(rows: seq<TokenMeta>): string {
    if rows == [] then "" else Row(rows[0]) + "\n" + Lines(rows[1..])
  }

  function FileText(rows: seq<TokenMeta>): string { HEADER + "\n" + Lines(rows) }

  // ---- reading ----

  /** Position of the first occurrence of c; the length if there is none. */
  function IndexOf(s: string, c: char): (i: nat)
    ensures i <= |s| && c !in s[..i] && (i < |s| ==> s[i] == c)
  {
    if s == "" || s[0] == c then 0
    else
      var i := IndexOf(s[1..], c);
      assert s[..1 + i] == [s[0]] + s[1..][..i];
      1 + i
  }

  /** A field up to the next comma, and what follows it; None without a comma. */
  function Field(s: string): Option<(string, string)> {
    var i := IndexOf(s, ',');
    if i < |s| then Some((s[..i], s[i + 1..])) else None
  }

  /** Contents of a quoted field after its opening quote, and what follows the closing quote. */
  function Unquote(s: string): (string, string) {
    if s == "" then ("", "")
    else if s[0] == '\"' then
      if |s| > 1 && s[1] == '\"' then
        var (q, rest) := Unquote(s[2..]);
        ("\"" + q, rest)
      else ("", s[1..])
    else
      var (q, rest) := Unquote(s[1..]);
      ([s[0]] + q, rest)
  }

  function SkipComma(s: string): string {
    if s != "" && s[0] == ',' then s[1..] else s
  }

  function QuestionField(s: string): Option<(string, string)> {
    if s != "" && s[0] == '\"' then
      var (q, rest) := Unquote(s[1..]);
      Some((q, SkipComma(rest)))
    else Field(s)
  }

  predicate IsSpace(c: char) { c in " \t\n\r" || c as int == 11 || c as int == 12 }

  predicate IsDigit(c: char) { '0' <= c <= '9' }

  function LeadingNumber(s: string, acc: nat): nat {
    if s == "" || !IsDigit(s[0]) then acc else LeadingNumber(s[1..], acc * 10 + (s[0] - '0') as nat)
  }

  /** The C library's atoi, without overflow. */
  function Atoi(s: string): int {
    if s != "" && IsSpace(s[0]) then Atoi(s[1..])
    else if s != "" && s[0] == '-' then 0 - LeadingNumber(s[1..], 0)
    else if s != "" && s[0] == '+' then LeadingNumber(s[1..], 0)
    else LeadingNumber(s, 0)
  }

  /** The active flag is the first character; the fee follows the next comma. */
  function ParseFlags(s: string): (bool, int) {
    (s != "" && s[0] == '1', Atoi(SkipComma(s[IndexOf(s, ',')..])))
  }

  /** One line without its newline; None for a line the reader skips. */
  function ParseRow(line: string): Option<TokenMeta> {
    var id := Field(line);
    if id.None? then None else
    var cond := Field(id.value.1);
    if cond.None? then None else
    var outcome := Field(cond.value.1);
    if outcome.None? then None else
    var question := QuestionField(outcome.value.1);
    if question.None? then None else
    var date := Field(question.value.1);
    if date.None? then None else
    var flags := ParseFlags(date.value.1);
    Some(TokenMeta(id.value.0, cond.value.0, outcome.value.0, question.value.0, date.value.0, flags.0, flags.1))
  }

  function StripEol(s: string): string {
    if s != "" && IsNewline(s[|s| - 1]) then StripEol(s[..|s| - 1]) else s
  }

  /** How many characters the next fgets takes. */
  function Fgets(s: string): (n: nat)
    requires s != ""
    ensures 0 < n <= |s|
  {
    var i := IndexOf(s, '\n');
    var n := if i < |s| then i + 1 else |s|;
    if n <= LINE_MAX then n else LINE_MAX
  }

  function Record(chunk: string): seq<TokenMeta> {
    var line := StripEol(chunk);
    if line == "" then []
    else
      var m := ParseRow(line);
      if m.None? then [] else [m.value]
  }

  function ReadRows(s: string): seq<TokenMeta> {
    if s == "" then []
    else
      var n := Fgets(s);
      Record(s[..n]) + ReadRows(s[n..])
  }

  /** All records of a file; the first line read is the header. */
  function ReadTokens(text: string): seq<TokenMeta> {
    if text == "" then [] else ReadRows(text[Fgets(text)..])
  }
}
