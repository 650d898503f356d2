/** What every open position and every decided exit of the strategy can be traced back to. */
module StrategyEntries {
  import opened Wrappers
  import opened PaperGateways
  import opened StrategyEngine

  /** Both legs quoted with a spread, the YES mid at most the threshold, the NO ask at most 0.65. */
  predicate Acceptable(p: Params, q: Quotes) {
    && 0.0 < q.yesBid < q.yesAsk && 0.0 < q.noBid < q.noAsk
    && q.yesBid + q.yesAsk <= 2.0 * p.threshold && q.noAsk <= 0.65
  }

  /** The state a run has reached. */
  function After(p: Params, s: State, actions: seq<Action>): State {
    if actions == [] then s
    else
      var before := After(p, s, actions[..|actions| - 1]);
      var r := Step(p, before, actions[|actions| - 1]);
      if r.None? then before else r.value
  }

  lemma {:induction false} RunSplits(p: Params, s: State, actions: seq<Action>, s': State)
    requires Reaches(p, s, actions, s') && actions != []
    ensures var front, last := actions[..|actions| - 1], actions[|actions| - 1];
            Reaches(p, s, front, After(p, s, front)) && Step(p, After(p, s, front), last) == Some(s')
    decreases |actions|
  {
    var front := actions[..|actions| - 1];
    if front != [] {
      var next := Step(p, s, actions[0]).value;
      RunSplits(p, next, actions[1..], s');
      var middle := actions[1..][..|actions| - 2];
      assert front[0] == actions[0] && front[1..] == middle;
      AfterFromFront(p, s, front);
    }
  }

  lemma {:induction false} AfterFromFront(p: Params, s: State, actions: seq<Action>)
    requires actions != [] && Step(p, s, actions[0]).Some?
    ensures After(p, s, actions) == After(p, Step(p, s, actions[0]).value, actions[1..])
    decreases |actions|
  {
    if |actions| > 1 {
      var front := actions[..|actions| - 1];
      AfterFromFront(p, s, front);
      assert actions[1..][..|actions| - 2] == front[1..];
    } else {
      assert After(p, s, actions[..0]) == s;
    }
  }

  /** Where a purchase comes from: the action that published its quotes, the tick that was evaluated, the
      sizing, and the quotes themselves. */
  datatype Origin = Origin(published: nat, ticked: nat, sized: nat, quotes: Quotes)

  /** The market's latest quotes when action t is taken are q, published by action k. */
  ghost predicate InForce(actions: seq<Action>, k: nat, t: nat, cid: Cid, q: Quotes) {
    && k < t <= |actions| && actions[k] == UpdateQuotes(cid, q)
    && forall m | k < m < t :: !(actions[m].UpdateQuotes? && actions[m].cid == cid)
  }

  ghost predicate Evaluated(actions: seq<Action>, k: nat, t: nat, cid: Cid, q: Quotes) {
    t < |actions| && actions[t] == OnTick(cid) && InForce(actions, k, t, cid, q)
  }

  /** After `actions` from s the thread stands before sizing an entry on q, not too close to expiry. */
  predicate Sizes(p: Params, s: State, actions: seq<Action>, cid: Cid, q: Quotes) {
    var m := After(p, s, actions);
    m.ws.Sizing? && m.ws.cid == cid && m.ws.q == q && !ExpiresWithin(m.metas, cid, m.ws.now, 120_000)
  }

  /** This many shares at this price are what the run's own events lead to. */
  ghost predicate Traced(p: Params, s: State, actions: seq<Action>, o: Origin, cid: Cid, shares: real, price: real) {
    && Evaluated(actions, o.published, o.ticked, cid, o.quotes) && Acceptable(p, o.quotes)
    && o.ticked < o.sized < |actions| && Sizes(p, s, actions[..o.sized], cid, o.quotes)
    && price == o.quotes.noAsk * 1.0005 && 0.0 < price < 1.0
    && HalfKellySize(shares, price, After(p, s, actions[..o.sized]).ledger.capital)
  }

  ghost predicate Wanted(p: Params, s: State, actions: seq<Action>, cid: Cid, shares: real, price: real) {
    exists o :: Traced(p, s, actions, o, cid, shares, price)
  }

  ghost predicate Published(actions: seq<Action>, cid: Cid, q: Quotes) {
    q == NO_QUOTES || exists k: nat :: InForce(actions, k, |actions|, cid, q)
  }

  ghost predicate Ticked(actions: seq<Action>, cid: Cid, q: Quotes) {
    q == NO_QUOTES || exists k: nat, t: nat :: Evaluated(actions, k, t, cid, q)
  }

  ghost predicate PcWanted(p: Params, s0: State, actions: seq<Action>, s: State) {
    match s.ws
    case HaveBook(cid, q) => Ticked(actions, cid, q)
    case HaveClock(cid, q, _) => Ticked(actions, cid, q)
    case Entering(cid, q, _) => Ticked(actions, cid, q) && Acceptable(p, q)
    case CheckingFunds(cid, q, now) =>
      Ticked(actions, cid, q) && Acceptable(p, q) && cid in s.metas && !ExpiresWithin(s.metas, cid, now, 120_000)
    case Sizing(cid, q, now) =>
      Ticked(actions, cid, q) && Acceptable(p, q) && cid in s.metas && !ExpiresWithin(s.metas, cid, now, 120_000)
    case Buying(cid, _, shares, price) => Wanted(p, s0, actions, cid, shares, price)
    case _ => true
  }

  ghost predicate BooksPublished(actions: seq<Action>, s: State) {
    && s.books.Keys == s.metas.Keys && (s.ws != WsIdle ==> s.ws.cid in s.metas)
    && forall cid | cid in s.books :: Published(actions, cid, s.books[cid])
  }

  ghost predicate PositionsWanted(p: Params, s0: State, actions: seq<Action>, s: State) {
    forall cid | cid in s.ledger.positions ::
      Wanted(p, s0, actions, cid, s.ledger.positions[cid].shares, s.ledger.positions[cid].entryPrice)
  }

  ghost predicate AllWanted(p: Params, s0: State, actions: seq<Action>, s: State) {
    BooksPublished(actions, s) && PcWanted(p, s0, actions, s) && PositionsWanted(p, s0, actions, s)
  }

  // ---- one more action ----

  lemma TickedLonger(actions: seq<Action>, a: Action, cid: Cid, q: Quotes)
    requires Ticked(actions, cid, q)
    ensures Ticked(actions + [a], cid, q)
  {
    if q != NO_QUOTES {
      var k: nat, t: nat :| Evaluated(actions, k, t, cid, q);
      assert Evaluated(actions + [a], k, t, cid, q);
    }
  }

  lemma WantedLonger(p: Params, s0: State, actions: seq<Action>, a: Action, cid: Cid, shares: real, price: real)
    requires Wanted(p, s0, actions, cid, shares, price)
    ensures Wanted(p, s0, actions + [a], cid, shares, price)
  {
    var o :| Traced(p, s0, actions, o, cid, shares, price);
    assert (actions + [a])[..o.sized] == actions[..o.sized];
    assert Evaluated(actions + [a], o.published, o.ticked, cid, o.quotes);
    assert Traced(p, s0, actions + [a], o, cid, shares, price);
  }

  lemma PublishedLonger(actions: seq<Action>, a: Action, cid: Cid, q: Quotes)
    requires if a.UpdateQuotes? && a.cid == cid then q == a.q else Published(actions, cid, q)
    ensures Published(actions + [a], cid, q)
  {
    var longer := actions + [a];
    if a.UpdateQuotes? && a.cid == cid {
      assert InForce(longer, |actions|, |longer|, cid, q);
    } else if q != NO_QUOTES {
      var k: nat :| InForce(actions, k, |actions|, cid, q);
      assert InForce(longer, k, |longer|, cid, q);
    }
  }

  lemma TickReadsPublished(actions: seq<Action>, cid: Cid, q: Quotes)
    requires Published(actions, cid, q)
    ensures Ticked(actions + [OnTick(cid)], cid, q)
  {
    if q != NO_QUOTES {
      var k: nat :| InForce(actions, k, |actions|, cid, q);
      assert Evaluated(actions + [OnTick(cid)], k, |actions|, cid, q);
    }
  }

  /** The sizing step makes a traced purchase. */
  lemma SizingIsTraced(p: Params, s0: State, actions: seq<Action>, s: State)
    requires AllWanted(p, s0, actions, s) && s == After(p, s0, actions) && s.ws.Sizing?
    ensures var price := s.ws.q.noAsk * 1.0005;
            0.0 < price < 1.0 && Wanted(p, s0, actions + [WsContinues], s.ws.cid, KellySize(price, s.ledger.capital), price)
  {
    var cid, q, longer := s.ws.cid, s.ws.q, actions + [WsContinues];
    var k: nat, t: nat :| Evaluated(actions, k, t, cid, q);
    var o := Origin(k, t, |actions|, q);
    SizeIsHalfKelly(q.noAsk * 1.0005, s.ledger.capital);
    assert longer[..|actions|] == actions;
    assert Evaluated(longer, k, t, cid, q);
    assert Traced(p, s0, longer, o, cid, KellySize(q.noAsk * 1.0005, s.ledger.capital), q.noAsk * 1.0005);
  }

  lemma BooksStayPublished(p: Params, actions: seq<Action>, s: State, a: Action)
    requires BooksPublished(actions, s) && Step(p, s, a).Some?
    ensures BooksPublished(actions + [a], Step(p, s, a).value)
  {
    var s' := Step(p, s, a).value;
    forall cid | cid in s'.books ensures Published(actions + [a], cid, s'.books[cid]) {
      PublishedLonger(actions, a, cid, s'.books[cid]);
    }
  }

  /** Other actions leave the thread where it is; metadata of its market stays as it was. */
  lemma WaitingStaysWanted(p: Params, s0: State, actions: seq<Action>, s: State, a: Action, s': State)
    requires PcWanted(p, s0, actions, s) && s'.ws == s.ws
    requires s.ws != WsIdle && s.ws.cid in s.metas ==> s.ws.cid in s'.metas && s'.metas[s.ws.cid] == s.metas[s.ws.cid]
    ensures PcWanted(p, s0, actions + [a], s')
  {
    match s.ws
    case HaveBook(cid, q) => TickedLonger(actions, a, cid, q);
    case HaveClock(cid, q, _) => TickedLonger(actions, a, cid, q);
    case Entering(cid, q, _) => TickedLonger(actions, a, cid, q);
    case CheckingFunds(cid, q, _) => TickedLonger(actions, a, cid, q);
    case Sizing(cid, q, _) => TickedLonger(actions, a, cid, q);
    case Buying(cid, _, shares, price) => WantedLonger(p, s0, actions, a, cid, shares, price);
    case _ =>
  }

  lemma WsStepStaysWanted(p: Params, s0: State, actions: seq<Action>, s: State)
    requires PcWanted(p, s0, actions, s) && BooksPublished(actions, s) && WsStep(p, s).Some? && !s.ws.Sizing?
    ensures PcWanted(p, s0, actions + [WsContinues], WsStep(p, s).value)
  {
    match s.ws
    case HaveBook(cid, q) => TickedLonger(actions, WsContinues, cid, q);
    case HaveClock(cid, q, _) => TickedLonger(actions, WsContinues, cid, q);
    case Entering(cid, q, _) => TickedLonger(actions, WsContinues, cid, q);
    case CheckingFunds(cid, q, _) => TickedLonger(actions, WsContinues, cid, q);
    case _ =>
  }

  lemma TickStaysWanted(p: Params, s0: State, actions: seq<Action>, s: State, cid: Cid)
    requires PcWanted(p, s0, actions, s) && BooksPublished(actions, s) && Step(p, s, OnTick(cid)).Some?
    ensures PcWanted(p, s0, actions + [OnTick(cid)], Step(p, s, OnTick(cid)).value)
  {
    if cid in s.books { TickReadsPublished(actions, cid, s.books[cid]); }
  }

  lemma SizingStaysWanted(p: Params, s0: State, actions: seq<Action>, s: State)
    requires AllWanted(p, s0, actions, s) && s == After(p, s0, actions) && s.ws.Sizing?
    ensures WsStep(p, s).Some? && PcWanted(p, s0, actions + [WsContinues], WsStep(p, s).value)
  {
    SizingIsTraced(p, s0, actions, s);
    assert EntryPrice(s.ws.q) == s.ws.q.noAsk * 1.0005;
  }

  lemma PcStaysWanted(p: Params, s0: State, actions: seq<Action>, s: State, a: Action)
    requires AllWanted(p, s0, actions, s) && s == After(p, s0, actions) && Step(p, s, a).Some?
    ensures PcWanted(p, s0, actions + [a], Step(p, s, a).value)
  {
    match a
    case OnTick(cid) => TickStaysWanted(p, s0, actions, s, cid);
    case WsContinues =>
      if s.ws.Sizing? {
        SizingStaysWanted(p, s0, actions, s);
      } else {
        WsStepStaysWanted(p, s0, actions, s);
      }
    case _ => WaitingStaysWanted(p, s0, actions, s, a, Step(p, s, a).value);
  }

  lemma PositionsStayWanted(p: Params, s0: State, actions: seq<Action>, s: State, a: Action)
    requires AllWanted(p, s0, actions, s) && Step(p, s, a).Some?
    ensures PositionsWanted(p, s0, actions + [a], Step(p, s, a).value)
  {
    var s' := Step(p, s, a).value;
    forall cid | cid in s'.ledger.positions
      ensures Wanted(p, s0, actions + [a], cid, s'.ledger.positions[cid].shares, s'.ledger.positions[cid].entryPrice)
    {
      WantedLonger(p, s0, actions, a, cid, s'.ledger.positions[cid].shares, s'.ledger.positions[cid].entryPrice);
    }
  }

  lemma {:induction false} RunWanted(p: Params, s0: State, actions: seq<Action>, s: State)
    requires AllWanted(p, s0, [], s0) && Reaches(p, s0, actions, s)
    ensures AllWanted(p, s0, actions, s) && s == After(p, s0, actions)
    decreases |actions|
  {
    if actions != [] {
      var front, a := actions[..|actions| - 1], actions[|actions| - 1];
      RunSplits(p, s0, actions, s);
      var m := After(p, s0, front);
      RunWanted(p, s0, front, m);
      BooksStayPublished(p, front, m, a);
      PcStaysWanted(p, s0, front, m, a);
      PositionsStayWanted(p, s0, front, m, a);
      assert front + [a] == actions;
    }
  }

  /** Every open position of every reachable state was bought on quotes its market showed: published by an
      action of the run, the latest when the evaluated tick arrived, and acceptable to the entry rule; at
      that NO ask with slippage, in the Kelly size of the capital read when sizing. The clock may do anything. */
  lemma OpenPositionsWereWanted(p: Params, capital: real, clock: int, actions: seq<Action>, s: State)
    requires Reaches(p, Init(capital, clock), actions, s)
    ensures forall cid | cid in s.ledger.positions ::
              exists o :: Traced(p, Init(capital, clock), actions, o, cid,
                                 s.ledger.positions[cid].shares, s.ledger.positions[cid].entryPrice)
  {
    RunWanted(p, Init(capital, clock), actions, s);
    forall cid | cid in s.ledger.positions
      ensures exists o :: Traced(p, Init(capital, clock), actions, o, cid,
                                 s.ledger.positions[cid].shares, s.ledger.positions[cid].entryPrice)
    {
      assert Wanted(p, Init(capital, clock), actions, cid, s.ledger.positions[cid].shares, s.ledger.positions[cid].entryPrice);
    }
  }

  /** Cost per share won, at which the assumed win rate breaks even: no edge, no Kelly stake. */
  lemma NoStakeIffNoEdge(price: real)
    requires 0.0 < price <= 1.0
    ensures KellyFraction(price) == 0.0 <==> price >= KELLY_WIN_RATE
    ensures price >= KELLY_WIN_RATE ==> forall capital :: KellySize(price, capital) == KELLY_MIN_SH
  {
    if price < 1.0 {
      LossPerOdds(price);
      var edge := KELLY_WIN_RATE - (1.0 - KELLY_WIN_RATE) / ((1.0 - price) / price);
      assert edge <= 0.0 <==> price >= KELLY_WIN_RATE;
    }
  }

  lemma LossPerOdds(price: real)
    requires 0.0 < price < 1.0
    ensures (1.0 - price) / price > 0.0
    ensures (1.0 - KELLY_WIN_RATE) / ((1.0 - price) / price) >= KELLY_WIN_RATE <==> price >= KELLY_WIN_RATE
  {
    var odds := (1.0 - price) / price;
    assert odds * price == 1.0 - price;
    var x := (1.0 - KELLY_WIN_RATE) / odds;
    assert x * odds == 1.0 - KELLY_WIN_RATE;
  }

  /** Half the Kelly stake for a win rate of 0.749, as a share of the capital, at most a fifth. */
  function HalfKellyStake(price: real): real
    requires 0.0 < price < 1.0
  {
    var stake := (0.749 - price) / (2.0 * (1.0 - price));
    if stake < 0.0 then 0.0 else if stake > 0.2 then 0.2 else stake
  }

  /** The stake in shares, to the nearest tenth of a share and not below one share. */
  ghost predicate HalfKellySize(shares: real, price: real, capital: real)
    requires 0.0 < price < 1.0
  {
    var exact := HalfKellyStake(price) * capital / price;
    && shares >= 1.0
    && shares * 10.0 == (shares * 10.0).Floor as real
    && (if shares > 1.0 then exact - 0.05 <= shares <= exact + 0.05 else exact <= 1.05)
  }

  lemma KellyOdds(price: real)
    requires 0.0 < price < 1.0
    ensures (1.0 - KELLY_WIN_RATE) / ((1.0 - price) / price) == (1.0 - KELLY_WIN_RATE) * price / (1.0 - price)
  {
    var odds := (1.0 - price) / price;
    assert odds * price == 1.0 - price;
    var x := (1.0 - KELLY_WIN_RATE) / odds;
    assert x * odds == 1.0 - KELLY_WIN_RATE;
    assert x * (1.0 - price) == x * odds * price == (1.0 - KELLY_WIN_RATE) * price;
  }

  lemma HalfEdge(price: real, x: real)
    requires 0.0 < price < 1.0 && x == (1.0 - KELLY_WIN_RATE) * price / (1.0 - price)
    ensures (KELLY_WIN_RATE - x) * KELLY_FRACTION == (0.749 - price) / (2.0 * (1.0 - price))
  {
    var y := (0.749 - price) / (2.0 * (1.0 - price));
    assert x * (1.0 - price) == 0.251 * price;
    assert y * (2.0 * (1.0 - price)) == 0.749 - price;
    var z := (KELLY_WIN_RATE - x) * KELLY_FRACTION;
    assert 2.0 * z == 0.749 - x;
    assert (2.0 * z) * (1.0 - price) == 0.749 * (1.0 - price) - x * (1.0 - price);
    SameQuotient(z, y, 2.0 * (1.0 - price));
  }

  lemma SameQuotient(x: real, y: real, d: real)
    requires d != 0.0 && x * d == y * d
    ensures x == y
  {
  }

  lemma KellyFractionIsHalfStake(price: real)
    requires 0.0 < price < 1.0
    ensures KellyFraction(price) == HalfKellyStake(price)
  {
    KellyOdds(price);
    HalfEdge(price, (1.0 - KELLY_WIN_RATE) / ((1.0 - price) / price));
  }

  lemma SizeIsHalfKelly(price: real, capital: real)
    requires 0.0 < price < 1.0
    ensures HalfKellySize(KellySize(price, capital), price, capital)
  {
    KellyFractionIsHalfStake(price);
    TradableWithin(KellyFraction(price) * capital / price);
  }

  lemma TradableWithin(x: real)
    ensures var n := TradableShares(x);
            && n >= 1.0 && n * 10.0 == (n * 10.0).Floor as real
            && (if n > 1.0 then x - 0.05 <= n <= x + 0.05 else x <= 1.05)
  {
    var tenths := Round(x * 10.0);
    assert TradableShares(x) * 10.0 == if tenths > 10 then tenths as real else 10.0;
  }

  // ---- one call at a time ----

  /** The next step of the WebSocket thread; none when on_tick has returned. */
  function Next(p: Params, s: State): State {
    var r := WsStep(p, s);
    if r.None? then s else r.value
  }

  /** on_tick from its copy of the book to its return, with nothing happening in between. */
  function Uninterrupted(p: Params, s: State): State {
    Next(p, Next(p, Next(p, Next(p, Next(p, Next(p, s))))))
  }

  predicate EntersAt(p: Params, s: State, cid: Cid, q: Quotes) {
    && cid !in s.ledger.positions && Acceptable(p, q)
    && !ExpiresWithin(s.metas, cid, s.clock, 120_000)
    && s.ledger.capital >= q.noAsk * 1.0005
  }

  predicate ExitsAt(p: Params, s: State, cid: Cid, q: Quotes) {
    && cid in s.ledger.positions && 0.0 < q.noBid < q.noAsk
    && (q.noBid + q.noAsk >= 2.0 * p.exitThreshold || ExpiresWithin(s.metas, cid, s.clock, 30_000))
  }

  /** Without a position: buys exactly under the entry rule, and otherwise changes nothing. */
  lemma EntryDecision(p: Params, s: State, cid: Cid, q: Quotes)
    requires s.ws == HaveBook(cid, q) && cid !in s.ledger.positions
    ensures Uninterrupted(p, s)
            == if EntersAt(p, s, cid, q)
               then s.(ws := WsIdle,
                       ledger := Bought(s.ledger, cid, KellySize(q.noAsk * 1.0005, s.ledger.capital), q.noAsk * 1.0005))
               else s.(ws := WsIdle)
    ensures EntersAt(p, s, cid, q) ==>
              HalfKellySize(KellySize(q.noAsk * 1.0005, s.ledger.capital), q.noAsk * 1.0005, s.ledger.capital)
  {
    if EntersAt(p, s, cid, q) { SizeIsHalfKelly(q.noAsk * 1.0005, s.ledger.capital); }
    var s1 := Next(p, s);
    assert s1 == s.(ws := HaveClock(cid, q, s.clock));
    var s2 := Next(p, s1);
    assert s2 == s.(ws := if Acceptable(p, q) then Entering(cid, q, s.clock) else WsIdle);
    var s3 := Next(p, s2);
    var late := ExpiresWithin(s.metas, cid, s.clock, 120_000);
    assert s3 == s.(ws := if Acceptable(p, q) && !late then CheckingFunds(cid, q, s.clock) else WsIdle);
    var s4 := Next(p, s3);
    assert s4 == s.(ws := if EntersAt(p, s, cid, q) then Sizing(cid, q, s.clock) else WsIdle);
    var s5 := Next(p, s4);
    var price := q.noAsk * 1.0005;
    assert EntersAt(p, s, cid, q) ==> s5 == s.(ws := Buying(cid, s.clock, KellySize(price, s.ledger.capital), price));
  }

  /** With a position: closes it exactly under the exit rule, and otherwise changes nothing. */
  lemma ExitDecision(p: Params, s: State, cid: Cid, q: Quotes)
    requires s.ws == HaveBook(cid, q) && cid in s.ledger.positions
    ensures Uninterrupted(p, s)
            == if ExitsAt(p, s, cid, q)
               then s.(ws := WsIdle,
                       ledger := Sold(s.ledger, cid, s.ledger.positions[cid].shares, q.noBid * 0.9995))
               else s.(ws := WsIdle)
  {
    var s1 := Next(p, s);
    assert s1 == s.(ws := HaveClock(cid, q, s.clock));
    var s2, s3 := Next(p, s1), Next(p, Next(p, s1));
    var selling := s.(ws := Selling(cid, s.ledger.positions[cid].shares, q.noBid * 0.9995));
    if ExitsAt(p, s, cid, q) {
      if s2.ws.Exiting? {
        assert s3 == s.(ws := Closing(cid, q));
        assert Next(p, s3) == selling;
      } else {
        assert s3 == selling;
      }
    } else {
      assert s3 == s.(ws := WsIdle);
    }
  }

  /** A sweep that finds no NO bid writes off half of what the position cost, on top of the fees. */
  lemma UnquotedSweepLosesHalf(s: State, cid: Cid)
    requires cid in s.ledger.positions && !(cid in s.books && s.books[cid].noBid > 0.0)
    ensures var pos := s.ledger.positions[cid];
            var price := SweepPrice(s, pos.entryPrice, cid);
            var fees := SellFee(pos.shares, price) + pos.buyFee;
            Sold(s.ledger, cid, pos.shares, price).realisedPnl
            == s.ledger.realisedPnl - pos.shares * pos.entryPrice / 2.0 - fees
  {
    HalfPrice(s.ledger.positions[cid].shares, s.ledger.positions[cid].entryPrice);
  }

  lemma HalfPrice(shares: real, price: real)
    ensures shares * (price * 0.5) == shares * price / 2.0
  {
  }

  /** A sweep about to close a position sells all of its snapshot's shares, at the NO bid less slippage if
      there is one, whatever else the market quotes, and otherwise at half the entry price. */
  lemma SweepDecision(s: State, now: int, snap: Snapshot, expired: set<Cid>, cid: Cid)
    requires s.sweep == Sweeping(now, snap, expired) && cid in expired && cid in snap
    ensures SweepStep(s, cid).Some? && SweepStep(SweepStep(s, cid).value, cid).Some?
    ensures var price := if cid in s.books && s.books[cid].noBid > 0.0 then s.books[cid].noBid * 0.9995
                         else snap[cid].entryPrice / 2.0;
            SweepStep(SweepStep(s, cid).value, cid).value
            == s.(sweep := Sweeping(now, snap, expired - {cid}),
                  ledger := Sold(s.ledger, cid, snap[cid].shares, price))
  {
    var quoted := cid in s.books && s.books[cid].noBid > 0.0;
    var price := if quoted then s.books[cid].noBid * 0.9995 else snap[cid].entryPrice / 2.0;
    assert SweepStep(s, cid).value == s.(sweep := SweepSelling(now, snap, expired, cid, price));
  }
}
