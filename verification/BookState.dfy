/**
 The live quotes of the tracked markets, fed by token: `add_market` registers a market once and for
 all, `on_tick` finds the market of a token and overwrites one leg of its book.
 */
module BookStates {
  import opened Wrappers
  import opened PaperGateways
  import opened StrategyEngine

  datatype MarketMeta = MarketMeta(cid: Cid, question: string, yesToken: string, noToken: string, endTime: int)

  datatype Event = Added(meta: MarketMeta) | Ticked(token: string, bid: real, ask: real)

  datatype Board = Board(books: map<Cid, Quotes>, metas: map<Cid, MarketMeta>, routes: map<string, Cid>)

  const EMPTY := Board(map[], map[], map[])

  function AddedTo(b: Board, m: MarketMeta): Board {
    if m.cid in b.books then b
    else Board(b.books[m.cid := NO_QUOTES], b.metas[m.cid := m], b.routes[m.yesToken := m.cid][m.noToken := m.cid])
  }

  /** The market whose book a tick changes. */
  function MarketOf(b: Board, token: string): Option<Cid> {
    if token in b.routes && b.routes[token] in b.books && b.routes[token] in b.metas then Some(b.routes[token]) else None
  }

  function WithLegQuote(q: Quotes, yes: bool, bid: real, ask: real): Quotes {
    if yes then q.(yesBid := bid, yesAsk := ask) else q.(noBid := bid, noAsk := ask)
  }

  function TickedTo(b: Board, token: string, bid: real, ask: real): Board {
    var market := MarketOf(b, token);
    if market.None? then b
    else
      var cid := market.value;
      b.(books := b.books[cid := WithLegQuote(b.books[cid], b.metas[cid].yesToken == token, bid, ask)])
  }

  function BoardStep(b: Board, e: Event): Board {
    match e
    case Added(m) => AddedTo(b, m)
    case Ticked(token, bid, ask) => TickedTo(b, token, bid, ask)
  }

  function BoardAfter(events: seq<Event>): Board {
    if events == [] then EMPTY else BoardStep(BoardAfter(events[..|events| - 1]), events[|events| - 1])
  }

  // ---- what a history means ----

  /** The registration that counts for a market is its first. */
  function FirstMeta(events: seq<Event>, cid: Cid): Option<MarketMeta> {
    if events == [] then None
    else
      var earlier, last := FirstMeta(events[..|events| - 1], cid), events[|events| - 1];
      if earlier.None? && last.Added? && last.meta.cid == cid then Some(last.meta) else earlier
  }

  /** A token belongs to the market that was first registered with it most recently. */
  function Owner(events: seq<Event>, token: string): Option<Cid> {
    if events == [] then None
    else
      var front, last := events[..|events| - 1], events[|events| - 1];
      if last.Added? && FirstMeta(front, last.meta.cid).None? && (token == last.meta.yesToken || token == last.meta.noToken)
      then Some(last.meta.cid)
      else Owner(front, token)
  }

  predicate IsYesToken(m: Option<MarketMeta>, token: string) { m.Some? && m.value.yesToken == token }

  /** Bid and ask of one leg: the last tick of a token the market owned at that time; zeros before. */
  function Leg(events: seq<Event>, cid: Cid, yes: bool): (real, real) {
    if events == [] then (0.0, 0.0)
    else
      var front, last := events[..|events| - 1], events[|events| - 1];
      if last.Ticked? && Owner(front, last.token) == Some(cid) && IsYesToken(FirstMeta(front, cid), last.token) == yes
      then (last.bid, last.ask)
      else Leg(front, cid, yes)
  }

  ghost predicate MetasAre(b: Board, events: seq<Event>) {
    forall cid :: FirstMeta(events, cid) == if cid in b.metas then Some(b.metas[cid]) else None
  }

  ghost predicate RoutesAre(b: Board, events: seq<Event>) {
    && (forall token :: Owner(events, token) == if token in b.routes then Some(b.routes[token]) else None)
    && forall token | token in b.routes ::
         b.routes[token] in b.metas
         && (token == b.metas[b.routes[token]].yesToken || token == b.metas[b.routes[token]].noToken)
  }

  function QuotesOf(events: seq<Event>, cid: Cid): Quotes {
    var y, n := Leg(events, cid, true), Leg(events, cid, false);
    Quotes(y.0, y.1, n.0, n.1)
  }

  ghost predicate BooksAre(b: Board, events: seq<Event>) {
    && b.books.Keys == b.metas.Keys
    && forall cid :: QuotesOf(events, cid) == if cid in b.books then b.books[cid] else NO_QUOTES
  }

  lemma OneMoreEvent(events: seq<Event>, e: Event)
    ensures BoardAfter(events + [e]) == BoardStep(BoardAfter(events), e)
    ensures forall cid :: FirstMeta(events + [e], cid)
              == if FirstMeta(events, cid).None? && e.Added? && e.meta.cid == cid then Some(e.meta) else FirstMeta(events, cid)
    ensures forall token :: Owner(events + [e], token)
              == if e.Added? && FirstMeta(events, e.meta.cid).None? && (token == e.meta.yesToken || token == e.meta.noToken)
                 then Some(e.meta.cid) else Owner(events, token)
  {
    assert (events + [e])[..|events|] == events;
  }

  lemma OneMoreLeg(events: seq<Event>, e: Event, cid: Cid)
    ensures QuotesOf(events + [e], cid)
            == if e.Ticked? && Owner(events, e.token) == Some(cid)
               then WithLegQuote(QuotesOf(events, cid), IsYesToken(FirstMeta(events, cid), e.token), e.bid, e.ask)
               else QuotesOf(events, cid)
  {
    assert (events + [e])[..|events|] == events;
  }

  lemma MetasOneMore(events: seq<Event>, e: Event)
    requires var b := BoardAfter(events); MetasAre(b, events) && b.books.Keys == b.metas.Keys
    ensures var b := BoardAfter(events + [e]); MetasAre(b, events + [e]) && b.books.Keys == b.metas.Keys
  {
    OneMoreEvent(events, e);
  }

  lemma RoutesOneMore(events: seq<Event>, e: Event)
    requires var b := BoardAfter(events); MetasAre(b, events) && RoutesAre(b, events) && b.books.Keys == b.metas.Keys
    ensures RoutesAre(BoardAfter(events + [e]), events + [e])
  {
    OneMoreEvent(events, e);
  }

  lemma BooksOneMore(events: seq<Event>, e: Event)
    requires var b := BoardAfter(events); MetasAre(b, events) && RoutesAre(b, events) && BooksAre(b, events)
    ensures BooksAre(BoardAfter(events + [e]), events + [e])
  {
    OneMoreEvent(events, e);
    forall cid { OneMoreLeg(events, e, cid); }
  }

  /** The maps hold exactly what the history means: first registrations, token owners, last quotes. */
  lemma {:induction false} BoardIsHistory(events: seq<Event>)
    ensures MetasAre(BoardAfter(events), events)
    ensures RoutesAre(BoardAfter(events), events)
    ensures BooksAre(BoardAfter(events), events)
  {
    if events != [] {
      var front, last := events[..|events| - 1], events[|events| - 1];
      BoardIsHistory(front);
      MetasOneMore(front, last);
      RoutesOneMore(front, last);
      BooksOneMore(front, last);
      assert front + [last] == events;
    }
  }

  /** The lookups that on_tick repeats after finding the token never fail. */
  lemma KnownTokenHasMarket(events: seq<Event>, token: string)
    ensures MarketOf(BoardAfter(events), token) == Owner(events, token)
  {
    BoardIsHistory(events);
  }

  /** Metadata is only ever added. */
  lemma {:induction false} MetadataIsAddOnly(events: seq<Event>, k: nat)
    requires k <= |events|
    ensures forall cid | cid in BoardAfter(events[..k]).metas ::
              cid in BoardAfter(events).metas && BoardAfter(events).metas[cid] == BoardAfter(events[..k]).metas[cid]
    decreases |events|
  {
    if k < |events| {
      var front := events[..|events| - 1];
      MetadataIsAddOnly(front, k);
      BoardIsHistory(front);
      assert front[..k] == events[..k];
    } else {
      assert events[..k] == events;
    }
  }

  /** No token serves two markets. */
  ghost predicate Exclusive(events: seq<Event>) {
    forall c, d | FirstMeta(events, c).Some? && FirstMeta(events, d).Some? && c != d ::
      var m, n := FirstMeta(events, c).value, FirstMeta(events, d).value;
      m.yesToken != n.yesToken && m.yesToken != n.noToken && m.noToken != n.noToken
  }

  /** Then every market keeps its own tokens. */
  lemma {:induction false} ExclusiveTokensStay(events: seq<Event>, cid: Cid, token: string)
    requires Exclusive(events) && FirstMeta(events, cid).Some?
    requires token == FirstMeta(events, cid).value.yesToken || token == FirstMeta(events, cid).value.noToken
    ensures Owner(events, token) == Some(cid)
  {
    var front, last := events[..|events| - 1], events[|events| - 1];
    if FirstMeta(front, cid).Some? {
      forall c | FirstMeta(front, c).Some? ensures FirstMeta(events, c) == FirstMeta(front, c) { }
      ExclusiveTokensStay(front, cid, token);
      if last.Added? && FirstMeta(front, last.meta.cid).None? {
        assert FirstMeta(events, last.meta.cid) == Some(last.meta);
      }
    }
  }

  predicate HasToken(m: MarketMeta, token: string) { token == m.yesToken || token == m.noToken }

  /** Every registered market owns both its tokens. */
  ghost predicate AllKeepTokens(events: seq<Event>) {
    forall cid, token | FirstMeta(events, cid).Some? && HasToken(FirstMeta(events, cid).value, token) ::
      Owner(events, token) == Some(cid)
  }

  /** Markets keep their tokens exactly when none is shared: with any shared token some market loses it. */
  lemma TokensStayIffExclusive(events: seq<Event>)
    ensures AllKeepTokens(events) <==> Exclusive(events)
  {
    if Exclusive(events) {
      forall cid, token | FirstMeta(events, cid).Some? && HasToken(FirstMeta(events, cid).value, token)
        ensures Owner(events, token) == Some(cid)
      {
        ExclusiveTokensStay(events, cid, token);
      }
    }
    if AllKeepTokens(events) {
      forall c, d | FirstMeta(events, c).Some? && FirstMeta(events, d).Some? && c != d
        ensures var m, n := FirstMeta(events, c).value, FirstMeta(events, d).value;
                m.yesToken != n.yesToken && m.yesToken != n.noToken && m.noToken != n.noToken
      {
        var m, n := FirstMeta(events, c).value, FirstMeta(events, d).value;
        assert Owner(events, m.yesToken) == Some(c) && Owner(events, m.noToken) == Some(c);
        assert Owner(events, n.yesToken) == Some(d) && Owner(events, n.noToken) == Some(d);
      }
    }
  }

  lemma NewMarketTakesTicks(b: Board, n: MarketMeta, token: string, bid: real, ask: real)
    requires n.cid !in b.books && HasToken(n, token)
    ensures TickedTo(AddedTo(b, n), token, bid, ask).books
            == b.books[n.cid := WithLegQuote(NO_QUOTES, token == n.yesToken, bid, ask)]
  {
  }

  /** After any history a newly registered market takes over the ticks of each of its tokens, whoever had
      them: its own leg changes and no other book does. */
  lemma SharedTokenIsTakenOver(events: seq<Event>, n: MarketMeta, token: string, bid: real, ask: real)
    requires FirstMeta(events, n.cid).None? && HasToken(n, token)
    ensures BoardAfter(events + [Added(n)] + [Ticked(token, bid, ask)]).books
            == BoardAfter(events).books[n.cid := WithLegQuote(NO_QUOTES, token == n.yesToken, bid, ask)]
  {
    var listed := events + [Added(n)];
    BoardIsHistory(events);
    OneMoreEvent(events, Added(n));
    OneMoreEvent(listed, Ticked(token, bid, ask));
    NewMarketTakesTicks(BoardAfter(events), n, token, bid, ask);
  }

  // ---- as the strategy sees it ----

  /** The strategy's view of the board: quotes, and the expiry of each market. */
  ghost predicate Seen(s: State, b: Board) {
    && s.books == b.books
    && s.metas.Keys == b.metas.Keys
    && forall cid | cid in b.metas :: s.metas[cid].endTime == b.metas[cid].endTime
  }

  /** What a board event is to the two trading threads. */
  function AsAction(b: Board, e: Event): Action {
    match e
    case Added(m) => AddMarket(m.cid, Meta(m.endTime))
    case Ticked(token, bid, ask) =>
      var market := MarketOf(b, token);
      if market.None? then PassTime(0)
      else UpdateQuotes(market.value, TickedTo(b, token, bid, ask).books[market.value])
  }

  /** Every board event is one of the actions the strategy's machine allows at any time. */
  lemma BoardStepIsAction(p: Params, s: State, b: Board, e: Event)
    requires Seen(s, b)
    ensures Step(p, s, AsAction(b, e)).Some? && Seen(Step(p, s, AsAction(b, e)).value, BoardStep(b, e))
  {
  }

  class BookState {
    var books: map<Cid, Quotes>
    var metas: map<Cid, MarketMeta>
    var tokenToCid: map<string, Cid>
    ghost var history: seq<Event>

    ghost predicate Valid()
      reads this
    {
      Board(books, metas, tokenToCid) == BoardAfter(history)
    }

    constructor ()
      ensures Valid() && history == []
    {
      books, metas, tokenToCid, history := map[], map[], map[], [];
    }

    method AddMarket(meta: MarketMeta)
      requires Valid()
      modifies this
      ensures Valid() && history == old(history) + [Added(meta)]
    {
      OneMoreEvent(history, Added(meta));
      history := history + [Added(meta)];
      if meta.cid in books { return; }
      books := books[meta.cid := NO_QUOTES];
      metas := metas[meta.cid := meta];
      tokenToCid := tokenToCid[meta.yesToken := meta.cid];
      tokenToCid := tokenToCid[meta.noToken := meta.cid];
    }

    /** Returns the market whose book changed, None for an unknown token. */
    method OnTick(token: string, bid: real, ask: real) returns (market: Option<Cid>)
      requires Valid()
      modifies this
      ensures Valid() && history == old(history) + [Ticked(token, bid, ask)]
      ensures market == Owner(old(history), token)
    {
      OneMoreEvent(history, Ticked(token, bid, ask));
      KnownTokenHasMarket(history, token);
      history := history + [Ticked(token, bid, ask)];
      if token !in tokenToCid { return None; }
      var cid := tokenToCid[token];
      if cid !in books || cid !in metas { return None; }
      if metas[cid].yesToken == token {
        books := books[cid := books[cid].(yesBid := bid, yesAsk := ask)];
      } else {
        books := books[cid := books[cid].(noBid := bid, noAsk := ask)];
      }
      return Some(cid);
    }

    method GetBook(cid: Cid) returns (book: Option<Quotes>)
      requires Valid()
      ensures book == if FirstMeta(history, cid).Some? then Some(QuotesOf(history, cid)) else None
    {
      BoardIsHistory(history);
      if cid in books { return Some(books[cid]); }
      return None;
    }

    method GetMeta(cid: Cid) returns (meta: Option<MarketMeta>)
      requires Valid()
      ensures meta == FirstMeta(history, cid)
    {
      BoardIsHistory(history);
      if cid in metas { return Some(metas[cid]); }
      return None;
    }
  }
}
