/**
 The subscription message of the market feed and its in-place extension: new ids are spliced in
 before the closing bracket found by searching from the end of the text.
 */
module WebSocketClients {
  import opened Wrappers
  import opened Sequences

  const HEAD := "{\"assets_ids\":["
  const TAIL := "],\"type\":\"market\"}"

  function Quoted(token: string): string { "\"" + token + "\"" }

  /** The ids as a comma-separated list of JSON strings. */
  function IdList(tokens: seq<string>): string {
    if tokens == [] then ""
    else IdList(tokens[..|tokens| - 1]) + (if |tokens| > 1 then "," else "") + Quoted(tokens[|tokens| - 1])
  }

  function Subscription(tokens: seq<string>): string { HEAD + IdList(tokens) + TAIL }

  /** The same ids as a continuation of a non-empty list. */
  function Continuation(tokens: seq<string>): string {
    if tokens == [] then ""
    else Continuation(tokens[..|tokens| - 1]) + "," + Quoted(tokens[|tokens| - 1])
  }

  lemma OneMoreId(tokens: seq<string>, t: string)
    ensures IdList(tokens + [t]) == IdList(tokens) + (if tokens != [] then "," else "") + Quoted(t)
    ensures Continuation(tokens + [t]) == Continuation(tokens) + "," + Quoted(t)
  {
    assert (tokens + [t])[..|tokens|] == tokens;
  }

  lemma Regroup(a: string, b: string, c: string, d: string)
    ensures (a + b) + c + d == a + (b + c + d)
  {
  }

  lemma {:induction false} ListsConcatenate(a: seq<string>, b: seq<string>)
    requires a != []
    ensures IdList(a + b) == IdList(a) + Continuation(b)
  {
    if b == [] {
      assert a + b == a && IdList(a) + "" == IdList(a);
    } else {
      var front, t := b[..|b| - 1], b[|b| - 1];
      ListsConcatenate(a, front);
      assert a + b == (a + front) + [t] && b == front + [t];
      OneMoreId(a + front, t);
      OneMoreId(front, t);
      Regroup(IdList(a), Continuation(front), ",", Quoted(t));
    }
  }

  /** What is inserted: the first id of an empty array takes no comma. */
  function Insertion(tokens: seq<string>, emptyArray: bool): string {
    if emptyArray then IdList(tokens) else Continuation(tokens)
  }

  lemma InsertionExtendsList(a: seq<string>, b: seq<string>)
    ensures IdList(a + b) == IdList(a) + Insertion(b, a == [])
  {
    if a == [] {
      assert a + b == b;
    } else {
      ListsConcatenate(a, b);
    }
  }

  lemma {:induction false} ListEndsInQuote(tokens: seq<string>)
    requires tokens != []
    ensures IdList(tokens) != "" && IdList(tokens)[|IdList(tokens)| - 1] == '\"'
  {
  }

  /** Text up to the next double quote. */
  function UpToQuote(s: string): (n: nat)
    ensures n <= |s| && (n < |s| ==> s[n] == '\"') && '\"' !in s[..n]
  {
    if s == "" || s[0] == '\"' then 0
    else
      var n := UpToQuote(s[1..]);
      assert s[..1 + n] == [s[0]] + s[1..][..n];
      1 + n
  }

  /** Reads a list of JSON strings without escapes from the start of a text. */
  function ReadIds(s: string): seq<string> {
    if s == "" || s[0] != '\"' then []
    else
      var n := UpToQuote(s[1..]);
      var rest := if n + 2 <= |s| then s[n + 2..] else "";
      [s[1..n + 1]] + if rest != "" && rest[0] == ',' then ReadIds(rest[1..]) else []
  }

  ghost predicate Plain(tokens: seq<string>) {
    forall t | t in tokens :: '\"' !in t
  }

  lemma {:induction false} ReadOneId(token: string, rest: string)
    requires '\"' !in token
    ensures UpToQuote(token + "\"" + rest) == |token|
  {
    var s := token + "\"" + rest;
    var n := UpToQuote(s);
    assert s[|token|] == '\"' && s[..|token|] == token;
  }

  /** One id is read off the front of a list; reading goes on behind a comma. */
  lemma ReadFirst(token: string, tail: string)
    requires '\"' !in token
    ensures ReadIds(Quoted(token) + tail) == [token] + if tail != "" && tail[0] == ',' then ReadIds(tail[1..]) else []
  {
    var s := Quoted(token) + tail;
    assert s[1..] == token + "\"" + tail;
    ReadOneId(token, tail);
    assert s[|token| + 2..] == tail && s[1..|token| + 1] == token;
  }

  /** Reading back a list yields the ids it was built from. */
  lemma {:induction false} ReadsBack(tokens: seq<string>, rest: string)
    requires Plain(tokens) && rest != "" && rest[0] !in {',', '\"'}
    ensures ReadIds(IdList(tokens) + rest) == tokens
    decreases |tokens|
  {
    if tokens == [] {
      assert IdList(tokens) + rest == rest;
    } else {
      var more := tokens[1..];
      var tail := Continuation(more) + rest;
      FirstOfList(tokens);
      assert IdList(tokens) + rest == Quoted(tokens[0]) + tail by {
        assert (Quoted(tokens[0]) + Continuation(more)) + rest == Quoted(tokens[0]) + (Continuation(more) + rest);
      }
      ReadFirst(tokens[0], tail);
      if more == [] {
        assert tail == rest;
      } else {
        ReadsBack(more, rest);
        RestOfList(more, rest);
      }
    }
  }

  lemma RestOfList(tokens: seq<string>, rest: string)
    requires tokens != []
    ensures var tail := Continuation(tokens) + rest; tail != "" && tail[0] == ',' && tail[1..] == IdList(tokens) + rest
  {
    ContinuationIsCommaList(tokens);
    AfterComma(IdList(tokens), rest);
  }

  lemma AfterComma(list: string, rest: string)
    ensures var tail := ("," + list) + rest; tail != "" && tail[0] == ',' && tail[1..] == list + rest
  {
  }

  lemma FirstOfList(tokens: seq<string>)
    requires tokens != []
    ensures IdList(tokens) == Quoted(tokens[0]) + Continuation(tokens[1..])
  {
    assert [tokens[0]][..0] == [];
    assert IdList([tokens[0]]) == Quoted(tokens[0]);
    assert tokens == [tokens[0]] + tokens[1..];
    ListsConcatenate([tokens[0]], tokens[1..]);
  }

  lemma {:induction false} ContinuationIsCommaList(tokens: seq<string>)
    requires tokens != []
    ensures Continuation(tokens) == "," + IdList(tokens)
  {
    var front, t := tokens[..|tokens| - 1], tokens[|tokens| - 1];
    assert tokens == front + [t];
    OneMoreId(front, t);
    if front != [] {
      ContinuationIsCommaList(front);
      Regroup(",", IdList(front), ",", Quoted(t));
    } else {
      assert Continuation(front) + "," == "," && IdList(front) + "" == "";
      assert IdList(tokens) == Quoted(t);
    }
  }

  /** A subscription text subscribes to exactly the ids it was built from. */
  lemma SubscriptionNamesItsTokens(tokens: seq<string>)
    requires Plain(tokens)
    ensures |Subscription(tokens)| >= |HEAD| && ReadIds(Subscription(tokens)[|HEAD|..]) == tokens
  {
    assert Subscription(tokens)[|HEAD|..] == IdList(tokens) + TAIL;
    ReadsBack(tokens, TAIL);
  }

  method BuildSubscriptionJson(tokens: seq<string>) returns (json: string)
    ensures json == Subscription(tokens)
  {
    json := HEAD;
    for i := 0 to |tokens|
      invariant json == HEAD + IdList(tokens[..i])
    {
      assert tokens[..i + 1][..i] == tokens[..i];
      if i > 0 {
        json := json + ",";
      }
      json := json + "\"" + tokens[i] + "\"";
    }
    assert tokens[..|tokens|] == tokens;
    json := json + TAIL;
  }

  /** Position of the last closing bracket. */
  method LastBracket(s: string) returns (pos: Option<nat>)
    ensures pos.None? ==> ']' !in s
    ensures pos.Some? ==> pos.value < |s| && s[pos.value] == ']' && ']' !in s[pos.value + 1..]
  {
    var i := |s|;
    while i > 0
      invariant 0 <= i <= |s| && ']' !in s[i..]
    {
      i := i - 1;
      if s[i] == ']' {
        return Some(i);
      }
    }
    assert s[0..] == s;
    return None;
  }

  lemma SubscriptionHasBracket(tokens: seq<string>)
    ensures ']' in Subscription(tokens)
  {
    assert Subscription(tokens)[|HEAD + IdList(tokens)|] == ']';
  }

  /** The last bracket of a subscription text closes its id array. */
  lemma LastBracketClosesArray(tokens: seq<string>, pos: nat)
    requires pos < |Subscription(tokens)| && Subscription(tokens)[pos] == ']'
    requires ']' !in Subscription(tokens)[pos + 1..]
    ensures pos == |HEAD + IdList(tokens)|
  {
    var s, b := Subscription(tokens), |HEAD + IdList(tokens)|;
    assert s[b] == ']';
    assert s[b + 1..] == TAIL[1..];
  }

  /** The character before it is an opening bracket exactly when the array is empty. */
  lemma EmptyArrayTest(tokens: seq<string>)
    ensures Subscription(tokens)[|HEAD + IdList(tokens)| - 1] == '[' <==> tokens == []
  {
    if tokens != [] { ListEndsInQuote(tokens); }
  }

  /** Inserting the new ids before the closing bracket yields the text of all ids. */
  lemma SpliceExtendsSubscription(tokens: seq<string>, more: seq<string>)
    ensures var s, b := Subscription(tokens), |HEAD + IdList(tokens)|;
      b <= |s| && s[..b] + Insertion(more, tokens == []) + s[b..] == Subscription(tokens + more)
  {
    var s, b := Subscription(tokens), |HEAD + IdList(tokens)|;
    InsertionExtendsList(tokens, more);
    SplitOfSum(HEAD + IdList(tokens), TAIL);
    Associative(HEAD, IdList(tokens), Insertion(more, tokens == []));
  }

  method BuildInsertion(newTokens: seq<string>, emptyArray: bool) returns (insert: string)
    ensures insert == Insertion(newTokens, emptyArray)
  {
    insert := "";
    for i := 0 to |newTokens|
      invariant insert == Insertion(newTokens[..i], emptyArray)
    {
      assert newTokens[..i + 1][..i] == newTokens[..i];
      if !(emptyArray && i == 0) {
        insert := insert + ",";
      }
      insert := insert + "\"" + newTokens[i] + "\"";
    }
    assert newTokens[..|newTokens|] == newTokens;
  }

  class WebSocketClient {
    var fullSubscription: string
    var connected: bool
    ghost var tokens: seq<string>  // every id subscribed to so far

    ghost predicate Valid()
      reads this
    {
      fullSubscription == Subscription(tokens)
    }

    constructor (initial: seq<string>)
      ensures Valid() && tokens == initial && !connected
    {
      connected := false;
      tokens := initial;
      var json := BuildSubscriptionJson(initial);
      fullSubscription := json;
    }

    /** Adds ids to the replay text; sends the increment if connected. Returns what was sent. */
    method Subscribe(newTokens: seq<string>) returns (sent: Option<string>)
      requires Valid()
      modifies this`fullSubscription, this`tokens
      ensures Valid() && tokens == old(tokens) + newTokens
      ensures sent == if newTokens != [] && connected then Some(Subscription(newTokens)) else None
    {
      if newTokens == [] {
        assert tokens == tokens + newTokens;
        return None;
      }
      var incremental := BuildSubscriptionJson(newTokens);
      var pos := LastBracket(fullSubscription);
      SubscriptionHasBracket(tokens);
      if pos.Some? {
        LastBracketClosesArray(tokens, pos.value);
        EmptyArrayTest(tokens);
        SpliceExtendsSubscription(tokens, newTokens);
        var emptyArray := pos.value > 0 && fullSubscription[pos.value - 1] == '[';
        var insert := BuildInsertion(newTokens, emptyArray);
        fullSubscription := fullSubscription[..pos.value] + insert + fullSubscription[pos.value..];
      }
      tokens := tokens + newTokens;
      return if connected then Some(incremental) else None;
    }
  }
}
