/** What every interleaving of the WebSocket thread and the expiry sweep keeps. */
module StrategySafety {
  import opened RealSums
  import opened PaperGateways
  import opened StrategyEngine

  /** Between the check that no position is held and the buy. */
  predicate EntryPhase(pc: WsPc) {
    pc.Entering? || pc.CheckingFunds? || pc.Sizing? || pc.Buying?
  }

  predicate PastExpiryCheck(pc: WsPc) {
    pc.CheckingFunds? || pc.Sizing? || pc.Buying?
  }

  predicate HasSnapshot(pc: SweepPc) {
    pc.Scanning? || pc.Sweeping? || pc.SweepSelling?
  }

  /** Markets of the snapshot the sweep may still close. */
  function Remaining(pc: SweepPc): set<Cid> {
    match pc
    case Scanning(_, _, todo, expired) => todo + expired
    case Sweeping(_, _, expired) => expired
    case SweepSelling(_, _, expired, _, _) => expired
    case _ => {}
  }

  /** A permitted entry read a clock at most `setback` behind a sweep whose list its market is on. */
  ghost predicate EntryIsLate(s: State, setback: nat) {
    forall cid | cid in Remaining(s.sweep) ::
      cid !in s.ledger.positions && (s.ws.HaveClock? || EntryPhase(s.ws)) && s.ws.cid == cid ==>
        s.sweep.now <= s.ws.now + setback
  }

  ghost predicate WsOk(s: State) {
    && (s.ws != WsIdle ==> s.ws.cid in s.metas)
    && (EntryPhase(s.ws) ==> s.ws.cid !in s.ledger.positions)
    && (PastExpiryCheck(s.ws) ==> !ExpiresWithin(s.metas, s.ws.cid, s.ws.now, MIN_REMAINING_MS))
    && (s.ws.Selling? && s.ws.cid in s.ledger.positions ==> s.ledger.positions[s.ws.cid].shares == s.ws.shares)
  }

  /** A position the sweep may still close is the one in its snapshot, or was bought too far from expiry to be hit. */
  ghost predicate SnapshotCurrent(s: State) {
    forall cid | cid in Remaining(s.sweep) ::
      && cid in s.sweep.snap
      && (cid in s.ledger.positions ==>
            s.ledger.positions[cid] == s.sweep.snap[cid] || !ExpiresWithin(s.metas, cid, s.sweep.now, EXPIRY_GRACE_MS))
  }

  ghost predicate SweepOk(s: State, lag: nat) {
    && (s.sweep != SweepIdle ==> s.sweep.now <= s.clock + lag)
    && SnapshotCurrent(s)
    && (s.sweep.Scanning? || s.sweep.Sweeping? || s.sweep.SweepSelling? ==>
          forall cid | cid in s.sweep.expired :: ExpiresWithin(s.metas, cid, s.sweep.now, EXPIRY_GRACE_MS))
    && (s.sweep.SweepSelling? ==> s.sweep.cid in s.sweep.expired)
  }

  /** `lag` is how far the clock is below its highest value, `setback` how far it may be. */
  ghost predicate Inv(s: State, lag: nat, setback: nat) {
    && lag <= setback <= MARGIN_MS
    && s.books.Keys == s.metas.Keys
    && s.ledger.positions.Keys <= s.metas.Keys
    && WsOk(s)
    && SweepOk(s, lag)
    && EntryIsLate(s, setback)
  }

  lemma InitEstablishesInv(capital: real, clock: int, setback: nat)
    requires setback <= MARGIN_MS
    ensures Inv(Init(capital, clock), 0, setback)
  {
  }

  lemma StepKeepsInv(p: Params, s: State, a: Action, lag: nat, setback: nat)
    requires Inv(s, lag, setback) && LagAfter(lag, a) <= setback && Step(p, s, a).Some?
    ensures Inv(Step(p, s, a).value, LagAfter(lag, a), setback)
  {
    match a
    case WsContinues => WsStepKeepsInv(p, s, lag, setback);
    case SweepContinues(cid) => SweepStepKeepsInv(s, cid, lag, setback);
    case _ =>
  }

  lemma WsStepKeepsInv(p: Params, s: State, lag: nat, setback: nat)
    requires Inv(s, lag, setback) && WsStep(p, s).Some?
    ensures Inv(WsStep(p, s).value, lag, setback)
  {
    WsStepKeepsWsOk(p, s, lag, setback);
    WsStepKeepsSweepOk(p, s, lag, setback);
    WsStepKeepsLateness(p, s, lag, setback);
  }

  lemma WsStepKeepsWsOk(p: Params, s: State, lag: nat, setback: nat)
    requires Inv(s, lag, setback) && WsStep(p, s).Some?
    ensures WsOk(WsStep(p, s).value)
  {
  }

  lemma WsStepKeepsSweepOk(p: Params, s: State, lag: nat, setback: nat)
    requires Inv(s, lag, setback) && WsStep(p, s).Some?
    ensures SweepOk(WsStep(p, s).value, lag)
  {
  }

  lemma WsStepKeepsLateness(p: Params, s: State, lag: nat, setback: nat)
    requires Inv(s, lag, setback) && WsStep(p, s).Some?
    ensures EntryIsLate(WsStep(p, s).value, setback)
  {
  }

  lemma SweepStepKeepsInv(s: State, cid: Cid, lag: nat, setback: nat)
    requires Inv(s, lag, setback) && SweepStep(s, cid).Some?
    ensures Inv(SweepStep(s, cid).value, lag, setback)
  {
    SweepStepKeepsSweepOk(s, cid, lag, setback);
  }

  lemma SweepStepKeepsSweepOk(s: State, cid: Cid, lag: nat, setback: nat)
    requires Inv(s, lag, setback) && SweepStep(s, cid).Some?
    ensures SweepOk(SweepStep(s, cid).value, lag)
  {
  }

  /** Every sale that takes effect, even from a stale snapshot, names exactly the shares held. */
  lemma SalesAreExact(s: State, lag: nat, setback: nat)
    requires Inv(s, lag, setback)
    ensures s.ws.Selling? && s.ws.cid in s.ledger.positions ==> s.ws.shares == s.ledger.positions[s.ws.cid].shares
    ensures s.sweep.SweepSelling? ==> s.sweep.cid in s.sweep.snap
    ensures s.sweep.SweepSelling? && s.sweep.cid in s.ledger.positions ==>
              s.ledger.positions[s.sweep.cid] == s.sweep.snap[s.sweep.cid]
  {
  }

  lemma {:induction false} RunKeepsInv(p: Params, s: State, actions: seq<Action>, s': State, lag: nat, setback: nat)
    requires Inv(s, lag, setback) && ClockWithin(actions, lag, setback) && Reaches(p, s, actions, s')
    ensures Inv(s', LagOver(lag, actions), setback)
    decreases |actions|
  {
    if actions != [] {
      StepKeepsInv(p, s, actions[0], lag, setback);
      RunKeepsInv(p, Step(p, s, actions[0]).value, actions[1..], s', LagAfter(lag, actions[0]), setback);
    }
  }

  /** The step from l to l' closes a position by a sale of all its shares. */
  ghost predicate SoldExactly(l: Ledger, l': Ledger, cid: Cid)
    requires cid in l.positions
  {
    exists price :: l' == Sold(l, cid, l.positions[cid].shares, price)
  }

  /** Whatever a step does to the positions: what it closes it sells exactly, what it keeps it leaves as it was. */
  ghost predicate ClosesExactly(l: Ledger, l': Ledger) {
    forall cid | cid in l.positions ::
      if cid in l'.positions then l'.positions[cid] == l.positions[cid] else SoldExactly(l, l', cid)
  }

  lemma StepClosesExactly(p: Params, s: State, a: Action, lag: nat, setback: nat)
    requires Inv(s, lag, setback) && Step(p, s, a).Some?
    ensures ClosesExactly(s.ledger, Step(p, s, a).value.ledger)
  {
    SalesAreExact(s, lag, setback);
    var l' := Step(p, s, a).value.ledger;
    if a == WsContinues && s.ws.Selling? && s.ws.cid in s.ledger.positions {
      assert l' == Sold(s.ledger, s.ws.cid, s.ledger.positions[s.ws.cid].shares, s.ws.price);
    }
    if a.SweepContinues? && s.sweep.SweepSelling? && s.sweep.cid in s.ledger.positions {
      assert l' == Sold(s.ledger, s.sweep.cid, s.ledger.positions[s.sweep.cid].shares, s.sweep.price);
    }
  }

  /** In every run, every action that closes a position, from a stale snapshot or not, sells exactly the
      shares it holds; no action overwrites a position. */
  lemma EverySaleIsExact(p: Params, capital: real, clock: int, actions: seq<Action>, s: State, a: Action, setback: nat)
    requires ClockWithin(actions, 0, setback) && setback <= MARGIN_MS
    requires Reaches(p, Init(capital, clock), actions, s) && Step(p, s, a).Some?
    ensures ClosesExactly(s.ledger, Step(p, s, a).value.ledger)
  {
    InitEstablishesInv(capital, clock, setback);
    RunKeepsInv(p, Init(capital, clock), actions, s, 0, setback);
    StepClosesExactly(p, s, a, LagOver(0, actions), setback);
  }

  lemma WsStepConserves(p: Params, s: State, lag: nat, setback: nat)
    requires Inv(s, lag, setback) && WsStep(p, s).Some?
    ensures NetInvested(WsStep(p, s).value.ledger) == NetInvested(s.ledger)
  {
    match s.ws
    case Buying(cid, now, shares, price) => BuyConserves(s.ledger, cid, shares, price);
    case Selling(cid, shares, price) => ExactSaleConserves(s.ledger, cid, shares, price);
    case _ =>
  }

  lemma SweepStepConserves(s: State, cid: Cid, lag: nat, setback: nat)
    requires Inv(s, lag, setback) && SweepStep(s, cid).Some?
    ensures NetInvested(SweepStep(s, cid).value.ledger) == NetInvested(s.ledger)
  {
    if s.sweep.SweepSelling? {
      SalesAreExact(s, lag, setback);
      ExactSaleConserves(s.ledger, s.sweep.cid, s.sweep.snap[s.sweep.cid].shares, s.sweep.price);
    }
  }

  lemma ExactSaleConserves(l: Ledger, cid: Cid, shares: real, price: real)
    requires cid in l.positions ==> shares == l.positions[cid].shares
    ensures NetInvested(Sold(l, cid, shares, price)) == NetInvested(l)
  {
    if cid in l.positions {
      SellImbalance(l, cid, shares, price);
    }
  }

  lemma StepConserves(p: Params, s: State, a: Action, lag: nat, setback: nat)
    requires Inv(s, lag, setback) && Step(p, s, a).Some?
    ensures NetInvested(Step(p, s, a).value.ledger) == NetInvested(s.ledger)
  {
    match a
    case WsContinues => WsStepConserves(p, s, lag, setback);
    case SweepContinues(cid) => SweepStepConserves(s, cid, lag, setback);
    case _ =>
  }

  lemma {:induction false} RunConserves(p: Params, s: State, actions: seq<Action>, s': State, lag: nat, setback: nat)
    requires Inv(s, lag, setback) && ClockWithin(actions, lag, setback) && Reaches(p, s, actions, s')
    ensures NetInvested(s'.ledger) == NetInvested(s.ledger)
    decreases |actions|
  {
    if actions != [] {
      StepKeepsInv(p, s, actions[0], lag, setback);
      StepConserves(p, s, actions[0], lag, setback);
      RunConserves(p, Step(p, s, actions[0]).value, actions[1..], s', LagAfter(lag, actions[0]), setback);
    }
  }

  /** Cash plus the cost of the open positions is the initial capital plus realised profit. */
  ghost predicate BooksBalance(capital: real, l: Ledger) {
    l.capital + Total(Costs(l.positions)) == capital + l.realisedPnl
  }

  lemma BalancedIffNetInvested(capital: real, l: Ledger)
    ensures BooksBalance(capital, l) <==> NetInvested(l) == capital
  {
  }

  /** The books balance in every reachable state, as long as the clock is not set back by more than 90 s. */
  lemma CapitalIsConserved(p: Params, capital: real, clock: int, actions: seq<Action>, s: State, setback: nat)
    requires ClockWithin(actions, 0, setback) && setback <= MARGIN_MS
    requires Reaches(p, Init(capital, clock), actions, s)
    ensures BooksBalance(capital, s.ledger)
  {
    InitEstablishesInv(capital, clock, setback);
    RunConserves(p, Init(capital, clock), actions, s, 0, setback);
    assert Costs(map[]) == map[];
  }

  /** The tick evaluation under way buys, if it buys, within `budget` of the clock reading it is based on. */
  predicate Timely(s: State, budget: nat) {
    s.ws.Buying? ==> s.clock <= s.ws.now + budget
  }

  ghost predicate TimelyRun(p: Params, s: State, actions: seq<Action>, budget: nat)
    decreases |actions|
  {
    actions != [] ==>
      && (actions[0] == WsContinues ==> Timely(s, budget))
      && (Step(p, s, actions[0]).Some? ==> TimelyRun(p, Step(p, s, actions[0]).value, actions[1..], budget))
  }

  /** Positions inside the grace window at the sweep's clock are still on the sweep's list. */
  ghost predicate NoneOverlooked(s: State) {
    HasSnapshot(s.sweep) || s.sweep.Swept? ==>
      forall cid | cid in s.ledger.positions && ExpiresWithin(s.metas, cid, s.sweep.now, EXPIRY_GRACE_MS) ::
        cid in Remaining(s.sweep)
  }

  lemma StepOverlooksNone(p: Params, s: State, a: Action, lag: nat, setback: nat, budget: nat)
    requires Inv(s, lag, setback) && NoneOverlooked(s) && Step(p, s, a).Some?
    requires (a == WsContinues ==> Timely(s, budget)) && setback + budget <= MARGIN_MS
    ensures NoneOverlooked(Step(p, s, a).value)
  {
  }

  lemma {:induction false} RunOverlooksNone(p: Params, s: State, actions: seq<Action>, s': State,
                                            lag: nat, setback: nat, budget: nat)
    requires Inv(s, lag, setback) && NoneOverlooked(s) && Reaches(p, s, actions, s')
    requires ClockWithin(actions, lag, setback) && TimelyRun(p, s, actions, budget) && setback + budget <= MARGIN_MS
    ensures NoneOverlooked(s') && s'.ledger.positions.Keys <= s'.metas.Keys
    decreases |actions|
  {
    if actions != [] {
      StepKeepsInv(p, s, actions[0], lag, setback);
      StepOverlooksNone(p, s, actions[0], lag, setback, budget);
      RunOverlooksNone(p, Step(p, s, actions[0]).value, actions[1..], s', LagAfter(lag, actions[0]), setback, budget);
    }
  }

  /** When a sweep completes, no open position expires within the grace window of that sweep's clock,
      if evaluation time and clock setbacks together stay within 90 s. */
  lemma SweepClosesAllExpiring(p: Params, capital: real, clock: int, actions: seq<Action>, s: State,
                               setback: nat, budget: nat)
    requires Reaches(p, Init(capital, clock), actions, s) && s.sweep.Swept?
    requires ClockWithin(actions, 0, setback) && TimelyRun(p, Init(capital, clock), actions, budget)
    requires setback + budget <= MARGIN_MS
    ensures forall cid | cid in s.ledger.positions ::
              cid in s.metas && !(s.metas[cid].endTime > 0 && s.sweep.now + EXPIRY_GRACE_MS >= s.metas[cid].endTime)
  {
    InitEstablishesInv(capital, clock, setback);
    RunOverlooksNone(p, Init(capital, clock), actions, s, 0, setback, budget);
  }
}
