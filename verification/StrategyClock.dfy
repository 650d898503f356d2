/**
 How much disorder in the clock the strategy stands. Its two guarantees need exactly the 90 seconds
 between the entry cutoff and the sweep's grace window: with one millisecond more there are runs that
 break them.
 */
module StrategyClock {
  import opened Wrappers
  import opened PaperGateways
  import opened StrategyEngine
  import opened StrategySafety

  /** The books balance in every run whose clock is never set back by more than `setback`. */
  ghost predicate BooksAlwaysBalance(setback: nat) {
    forall p, capital, clock, actions, s |
      ClockWithin(actions, 0, setback) && Reaches(p, Init(capital, clock), actions, s) :: BooksBalance(capital, s.ledger)
  }

  /** A completed sweep leaves no position that its clock puts inside the grace window. */
  ghost predicate NoneExpiring(s: State) {
    s.sweep.Swept? ==> forall cid | cid in s.ledger.positions :: !ExpiresWithin(s.metas, cid, s.sweep.now, EXPIRY_GRACE_MS)
  }

  ghost predicate SweepsAreComplete(setback: nat, budget: nat) {
    forall p, capital, clock, actions, s |
      && ClockWithin(actions, 0, setback)
      && TimelyRun(p, Init(capital, clock), actions, budget)
      && Reaches(p, Init(capital, clock), actions, s) ::
      NoneExpiring(s)
  }

  // ---- runs, one step at a time ----

  datatype Limits = Limits(setback: nat, budget: nat)

  ghost predicate Run(p: Params, lim: Limits, s: State, lag: nat, actions: seq<Action>, s': State, lag': nat) {
    && Reaches(p, s, actions, s')
    && ClockWithin(actions, lag, lim.setback)
    && TimelyRun(p, s, actions, lim.budget)
    && LagOver(lag, actions) == lag'
  }

  predicate Allowed(lim: Limits, s: State, lag: nat, a: Action) {
    LagAfter(lag, a) <= lim.setback && (a == WsContinues ==> Timely(s, lim.budget))
  }

  lemma {:induction false} OneMoreStep(p: Params, lim: Limits, s: State, lag: nat, actions: seq<Action>,
                                       m: State, mlag: nat, a: Action, s': State)
    requires Run(p, lim, s, lag, actions, m, mlag)
    requires Step(p, m, a) == Some(s') && Allowed(lim, m, mlag, a)
    ensures Run(p, lim, s, lag, actions + [a], s', LagAfter(mlag, a))
    decreases |actions|
  {
    var longer := actions + [a];
    if actions == [] {
      assert longer[0] == a && longer[1..] == [];
    } else {
      OneMoreStep(p, lim, Step(p, s, actions[0]).value, LagAfter(lag, actions[0]), actions[1..], m, mlag, a, s');
      assert longer[0] == actions[0] && longer[1..] == actions[1..] + [a];
    }
  }

  // ---- one market that is about to expire ----

  /** The thresholds the bot ships with. */
  const PARAMS := Params(0.40, 0.96)
  const M: Cid := "m"
  const QUOTES := Quotes(0.1, 0.2, 0.25 / 0.9995, 0.5 / 1.0005)
  const END := 1_000_000
  /** The last moment an entry is allowed, and the first moment a sweep closes. */
  const LAST_ENTRY := END - MIN_REMAINING_MS - 1
  const FIRST_CLOSE := END - EXPIRY_GRACE_MS

  function At(l: Ledger, clock: int, ws: WsPc, sweep: SweepPc): State {
    State(l, map[M := QUOTES], map[M := Meta(END)], clock, ws, sweep)
  }

  const START := Init(1000.0, LAST_ENTRY)
  const EMPTY_LEDGER := Ledger(1000.0, 0.0, 0.0, map[])

  lemma Prices()
    ensures EntryPrice(QUOTES) == 0.5 && ExitPrice(QUOTES) == 0.25
    ensures WantsEntry(PARAMS, QUOTES) && QUOTES.NoMid() < PARAMS.exitThreshold
  {
  }

  lemma MarketListed(lim: Limits) returns (run: seq<Action>)
    ensures Run(PARAMS, lim, START, 0, run, At(EMPTY_LEDGER, LAST_ENTRY, WsIdle, SweepIdle), 0)
  {
    var listed := START.(books := map[M := NO_QUOTES], metas := map[M := Meta(END)]);
    run := [];
    OneMoreStep(PARAMS, lim, START, 0, run, START, 0, AddMarket(M, Meta(END)), listed);
    run := run + [AddMarket(M, Meta(END))];
    assert listed.books[M := QUOTES] == map[M := QUOTES];
    OneMoreStep(PARAMS, lim, START, 0, run, listed, 0, UpdateQuotes(M, QUOTES),
                At(EMPTY_LEDGER, LAST_ENTRY, WsIdle, SweepIdle));
    run := run + [UpdateQuotes(M, QUOTES)];
  }

  lemma ClockMoves(lim: Limits, before: seq<Action>, l: Ledger, clock: int, ws: WsPc, sweep: SweepPc, lag: nat, ms: int)
    returns (run: seq<Action>)
    requires Run(PARAMS, lim, START, 0, before, At(l, clock, ws, sweep), lag) && LagAfter(lag, PassTime(ms)) <= lim.setback
    ensures Run(PARAMS, lim, START, 0, run, At(l, clock + ms, ws, sweep), LagAfter(lag, PassTime(ms)))
  {
    OneMoreStep(PARAMS, lim, START, 0, before, At(l, clock, ws, sweep), lag, PassTime(ms), At(l, clock + ms, ws, sweep));
    run := before + [PassTime(ms)];
  }

  lemma WsMoves(lim: Limits, before: seq<Action>, l: Ledger, clock: int, ws: WsPc, sweep: SweepPc, lag: nat, ws': WsPc)
    returns (run: seq<Action>)
    requires Run(PARAMS, lim, START, 0, before, At(l, clock, ws, sweep), lag) && lag <= lim.setback
    requires WsStep(PARAMS, At(l, clock, ws, sweep)) == Some(At(l, clock, ws', sweep)) && !ws.Buying?
    ensures Run(PARAMS, lim, START, 0, run, At(l, clock, ws', sweep), lag)
  {
    OneMoreStep(PARAMS, lim, START, 0, before, At(l, clock, ws, sweep), lag, WsContinues, At(l, clock, ws', sweep));
    run := before + [WsContinues];
  }

  lemma TickArrives(lim: Limits, before: seq<Action>, l: Ledger, clock: int, sweep: SweepPc, lag: nat)
    returns (run: seq<Action>)
    requires Run(PARAMS, lim, START, 0, before, At(l, clock, WsIdle, sweep), lag) && lag <= lim.setback
    ensures Run(PARAMS, lim, START, 0, run, At(l, clock, HaveClock(M, QUOTES, clock), sweep), lag)
  {
    OneMoreStep(PARAMS, lim, START, 0, before, At(l, clock, WsIdle, sweep), lag, OnTick(M),
                At(l, clock, HaveBook(M, QUOTES), sweep));
    run := WsMoves(lim, before + [OnTick(M)], l, clock, HaveBook(M, QUOTES), sweep, lag, HaveClock(M, QUOTES, clock));
  }

  /** A tick at an allowed moment leads up to the buy. */
  lemma AboutToBuy(lim: Limits, before: seq<Action>, l: Ledger, clock: int, sweep: SweepPc, lag: nat)
    returns (run: seq<Action>)
    requires Run(PARAMS, lim, START, 0, before, At(l, clock, WsIdle, sweep), lag) && lag <= lim.setback
    requires M !in l.positions && l.capital >= 0.5 && clock == LAST_ENTRY
    ensures Run(PARAMS, lim, START, 0, run, At(l, clock, Buying(M, clock, KellySize(0.5, l.capital), 0.5), sweep), lag)
  {
    Prices();
    run := TickArrives(lim, before, l, clock, sweep, lag);
    run := WsMoves(lim, run, l, clock, HaveClock(M, QUOTES, clock), sweep, lag, Entering(M, QUOTES, clock));
    run := WsMoves(lim, run, l, clock, Entering(M, QUOTES, clock), sweep, lag, CheckingFunds(M, QUOTES, clock));
    run := WsMoves(lim, run, l, clock, CheckingFunds(M, QUOTES, clock), sweep, lag, Sizing(M, QUOTES, clock));
    run := WsMoves(lim, run, l, clock, Sizing(M, QUOTES, clock), sweep, lag,
                   Buying(M, clock, KellySize(0.5, l.capital), 0.5));
  }

  lemma Buys(lim: Limits, before: seq<Action>, l: Ledger, clock: int, now: int, shares: real, sweep: SweepPc, lag: nat)
    returns (run: seq<Action>)
    requires Run(PARAMS, lim, START, 0, before, At(l, clock, Buying(M, now, shares, 0.5), sweep), lag)
    requires lag <= lim.setback && clock <= now + lim.budget
    ensures Run(PARAMS, lim, START, 0, run, At(Bought(l, M, shares, 0.5), clock, WsIdle, sweep), lag)
  {
    OneMoreStep(PARAMS, lim, START, 0, before, At(l, clock, Buying(M, now, shares, 0.5), sweep), lag, WsContinues,
                At(Bought(l, M, shares, 0.5), clock, WsIdle, sweep));
    run := before + [WsContinues];
  }

  /** A tick near expiry closes the position. */
  lemma Closes(lim: Limits, before: seq<Action>, l: Ledger, clock: int, sweep: SweepPc, lag: nat)
    returns (run: seq<Action>)
    requires Run(PARAMS, lim, START, 0, before, At(l, clock, WsIdle, sweep), lag) && lag <= lim.setback
    requires M in l.positions && clock == FIRST_CLOSE
    ensures Run(PARAMS, lim, START, 0, run, At(Sold(l, M, l.positions[M].shares, 0.25), clock, WsIdle, sweep), lag)
  {
    Prices();
    var shares := l.positions[M].shares;
    run := TickArrives(lim, before, l, clock, sweep, lag);
    run := WsMoves(lim, run, l, clock, HaveClock(M, QUOTES, clock), sweep, lag, Exiting(M, QUOTES, clock));
    run := WsMoves(lim, run, l, clock, Exiting(M, QUOTES, clock), sweep, lag, Closing(M, QUOTES));
    run := WsMoves(lim, run, l, clock, Closing(M, QUOTES), sweep, lag, Selling(M, shares, 0.25));
    OneMoreStep(PARAMS, lim, START, 0, run, At(l, clock, Selling(M, shares, 0.25), sweep), lag, WsContinues,
                At(Sold(l, M, shares, 0.25), clock, WsIdle, sweep));
    run := run + [WsContinues];
  }

  lemma SweepMoves(lim: Limits, before: seq<Action>, l: Ledger, clock: int, ws: WsPc, sweep: SweepPc, lag: nat,
                   l': Ledger, sweep': SweepPc)
    returns (run: seq<Action>)
    requires Run(PARAMS, lim, START, 0, before, At(l, clock, ws, sweep), lag) && lag <= lim.setback
    requires SweepStep(At(l, clock, ws, sweep), M) == Some(At(l', clock, ws, sweep'))
    ensures Run(PARAMS, lim, START, 0, run, At(l', clock, ws, sweep'), lag)
  {
    OneMoreStep(PARAMS, lim, START, 0, before, At(l, clock, ws, sweep), lag, SweepContinues(M), At(l', clock, ws, sweep'));
    run := before + [SweepContinues(M)];
  }

  /** A sweep near expiry that is about to sell the position it has in its snapshot. */
  lemma SweepAboutToSell(lim: Limits, before: seq<Action>, l: Ledger, clock: int, lag: nat)
    returns (run: seq<Action>)
    requires Run(PARAMS, lim, START, 0, before, At(l, clock, WsIdle, SweepIdle), lag) && lag <= lim.setback
    requires l.positions.Keys == {M} && clock == FIRST_CLOSE
    ensures Run(PARAMS, lim, START, 0, run, At(l, clock, WsIdle, SweepSelling(clock, l.positions, {M}, M, 0.25)), lag)
  {
    Prices();
    var snap := l.positions;
    run := SweepMoves(lim, before, l, clock, WsIdle, SweepIdle, lag, l, SweepHaveClock(clock));
    run := SweepMoves(lim, run, l, clock, WsIdle, SweepHaveClock(clock), lag, l, Scanning(clock, snap, {M}, {}));
    assert {M} - {M} == {} && {} + {M} == {M};
    run := SweepMoves(lim, run, l, clock, WsIdle, Scanning(clock, snap, {M}, {}), lag, l, Scanning(clock, snap, {}, {M}));
    run := SweepMoves(lim, run, l, clock, WsIdle, Scanning(clock, snap, {}, {M}), lag, l, Sweeping(clock, snap, {M}));
    run := SweepMoves(lim, run, l, clock, WsIdle, Sweeping(clock, snap, {M}), lag, l,
                      SweepSelling(clock, snap, {M}, M, 0.25));
  }

  // ---- the books ----

  function Funds1(): Ledger { Bought(EMPTY_LEDGER, M, KellySize(0.5, 1000.0), 0.5) }

  function Funds2(): Ledger { Sold(Funds1(), M, KellySize(0.5, 1000.0), 0.25) }

  function Funds3(): Ledger
    requires Funds2().capital >= 0.0
  {
    Bought(Funds2(), M, KellySize(0.5, Funds2().capital), 0.5)
  }

  lemma FirstSize()
    ensures KellySize(0.5, 1000.0) == 400.0
  {
  }

  lemma FundsAfterRoundTrip()
    ensures Funds2().capital == 893.359375 && Funds2().positions == map[]
  {
    FirstSize();
  }

  lemma SecondSize()
    ensures KellySize(0.5, 893.359375) == 357.3
  {
  }

  lemma RoundTripsConserve(first: real, second: real)
    ensures var l := Bought(Sold(Bought(EMPTY_LEDGER, M, first, 0.5), M, first, 0.25), M, second, 0.5);
            NetInvested(l) == 1000.0 && M in l.positions && l.positions[M].shares == second
            && l.positions[M].entryPrice == 0.5
  {
    var l1 := Bought(EMPTY_LEDGER, M, first, 0.5);
    var l2 := Sold(l1, M, first, 0.25);
    assert Costs(EMPTY_LEDGER.positions) == map[];
    BuyConserves(EMPTY_LEDGER, M, first, 0.5);
    ExactSaleConserves(l1, M, first, 0.25);
    BuyConserves(l2, M, second, 0.5);
  }

  /** A sweep that sells a second, smaller position under the first one's share count unbalances the books. */
  lemma StaleSaleUnbalances()
    requires Funds2().capital >= 0.0
    ensures !BooksBalance(1000.0, Sold(Funds3(), M, 400.0, 0.25))
  {
    FundsAfterRoundTrip();
    SecondSize();
    RoundTripsConserve(KellySize(0.5, 1000.0), KellySize(0.5, Funds2().capital));
    SellConservesIffExact(Funds3(), M, 400.0, 0.25);
    BalancedIffNetInvested(1000.0, Sold(Funds3(), M, 400.0, 0.25));
  }

  /** Position bought, sweep paused before its sale, position closed, clock back, bought anew, stale sale. */
  lemma SetbackUnbalancesBooks(setback: nat) returns (actions: seq<Action>, s: State)
    requires setback > MARGIN_MS
    ensures ClockWithin(actions, 0, setback) && Reaches(PARAMS, START, actions, s) && !BooksBalance(1000.0, s.ledger)
  {
    var lim := Limits(setback, 0);
    var away := FIRST_CLOSE - LAST_ENTRY;
    FirstSize();
    FundsAfterRoundTrip();
    StaleSaleUnbalances();
    var first, second := Funds1(), Funds3();
    var selling := SweepSelling(FIRST_CLOSE, first.positions, {M}, M, 0.25);
    actions := MarketListed(lim);
    actions := AboutToBuy(lim, actions, EMPTY_LEDGER, LAST_ENTRY, SweepIdle, 0);
    actions := Buys(lim, actions, EMPTY_LEDGER, LAST_ENTRY, LAST_ENTRY, 400.0, SweepIdle, 0);
    actions := ClockMoves(lim, actions, first, LAST_ENTRY, WsIdle, SweepIdle, 0, away);
    actions := SweepAboutToSell(lim, actions, first, FIRST_CLOSE, 0);
    actions := Closes(lim, actions, first, FIRST_CLOSE, selling, 0);
    actions := ClockMoves(lim, actions, Funds2(), FIRST_CLOSE, WsIdle, selling, 0, -away);
    actions := AboutToBuy(lim, actions, Funds2(), LAST_ENTRY, selling, away);
    actions := Buys(lim, actions, Funds2(), LAST_ENTRY, LAST_ENTRY, KellySize(0.5, Funds2().capital), selling, away);
    var sold := Sold(second, M, 400.0, 0.25);
    actions := SweepMoves(lim, actions, second, LAST_ENTRY, WsIdle, selling, away, sold,
                          Sweeping(FIRST_CLOSE, first.positions, {M} - {M}));
    s := At(sold, LAST_ENTRY, WsIdle, Sweeping(FIRST_CLOSE, first.positions, {M} - {M}));
  }

  /** The books balance in all runs exactly if the clock is never set back by more than 90 s. */
  lemma BooksBalanceIffSetbackWithinMargin(setback: nat)
    ensures BooksAlwaysBalance(setback) <==> setback <= MARGIN_MS
  {
    if setback <= MARGIN_MS {
      forall p, capital, clock, actions, s |
        ClockWithin(actions, 0, setback) && Reaches(p, Init(capital, clock), actions, s)
        ensures BooksBalance(capital, s.ledger)
      {
        CapitalIsConserved(p, capital, clock, actions, s, setback);
      }
    } else {
      var actions, s := SetbackUnbalancesBooks(setback);
    }
  }

  // ---- the sweep ----

  /** A tick evaluated across a sweep: clock read, time passes, empty snapshot taken, bought, sweep over. */
  lemma LateBuyIsOverlooked(setback: nat, budget: nat) returns (actions: seq<Action>, s: State)
    requires setback + budget > MARGIN_MS
    ensures ClockWithin(actions, 0, setback) && TimelyRun(PARAMS, START, actions, budget)
    ensures Reaches(PARAMS, START, actions, s) && !NoneExpiring(s)
  {
    var lim := Limits(setback, budget);
    var away := FIRST_CLOSE - LAST_ENTRY;
    var back := if setback < away then setback else away;
    var l, shares := EMPTY_LEDGER, KellySize(0.5, 1000.0);
    var buying := Buying(M, LAST_ENTRY, shares, 0.5);
    actions := MarketListed(lim);
    actions := AboutToBuy(lim, actions, l, LAST_ENTRY, SweepIdle, 0);
    actions := ClockMoves(lim, actions, l, LAST_ENTRY, buying, SweepIdle, 0, away);
    actions := SweepMoves(lim, actions, l, FIRST_CLOSE, buying, SweepIdle, 0, l, SweepHaveClock(FIRST_CLOSE));
    assert l.positions.Keys == {};
    actions := SweepMoves(lim, actions, l, FIRST_CLOSE, buying, SweepHaveClock(FIRST_CLOSE), 0, l,
                          Scanning(FIRST_CLOSE, map[], {}, {}));
    actions := SweepMoves(lim, actions, l, FIRST_CLOSE, buying, Scanning(FIRST_CLOSE, map[], {}, {}), 0, l,
                          Sweeping(FIRST_CLOSE, map[], {}));
    actions := ClockMoves(lim, actions, l, FIRST_CLOSE, buying, Sweeping(FIRST_CLOSE, map[], {}), 0, -back);
    var clock, bought := FIRST_CLOSE - back, Bought(l, M, shares, 0.5);
    actions := Buys(lim, actions, l, clock, LAST_ENTRY, shares, Sweeping(FIRST_CLOSE, map[], {}), back);
    actions := SweepMoves(lim, actions, bought, clock, WsIdle, Sweeping(FIRST_CLOSE, map[], {}), back, bought,
                          Swept(FIRST_CLOSE));
    s := At(bought, clock, WsIdle, Swept(FIRST_CLOSE));
    assert M in s.ledger.positions && ExpiresWithin(s.metas, M, s.sweep.now, EXPIRY_GRACE_MS);
  }

  /** Sweeps are complete in all runs exactly if evaluation time and clock setbacks together stay within 90 s. */
  lemma SweepsCompleteIffWithinMargin(setback: nat, budget: nat)
    ensures SweepsAreComplete(setback, budget) <==> setback + budget <= MARGIN_MS
  {
    if setback + budget <= MARGIN_MS {
      forall p, capital, clock, actions, s |
        && ClockWithin(actions, 0, setback)
        && TimelyRun(p, Init(capital, clock), actions, budget)
        && Reaches(p, Init(capital, clock), actions, s)
        ensures NoneExpiring(s)
      {
        if s.sweep.Swept? {
          SweepClosesAllExpiring(p, capital, clock, actions, s, setback, budget);
        }
      }
    } else {
      var actions, s := LateBuyIsOverlooked(setback, budget);
    }
  }
}
