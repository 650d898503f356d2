/**
 The trading strategy as two threads over one gateway. The WebSocket thread runs `on_tick` for one
 market at a time, the main thread runs `sweep_expired`; every read of the clock and every call that
 takes a lock is one action, so anything may happen between two of them.
 */
module StrategyEngine {
  import opened Wrappers
  import opened PaperGateways

  const MAX_ENTRY_ASK := 0.65
  const SLIPPAGE := 0.0005
  const KELLY_WIN_RATE := 0.749
  const KELLY_FRACTION := 0.5
  const KELLY_MAX_PCT := 0.20
  const KELLY_MIN_SH := 1.0
  const MIN_REMAINING_MS := 120_000
  const EXPIRY_GRACE_MS := 30_000

  /** What separates a permitted entry from the grace window of a sweep. */
  const MARGIN_MS: nat := MIN_REMAINING_MS - EXPIRY_GRACE_MS

  /** Rounding to the nearest integer, halves away from zero. */
  function Round(x: real): int {
    if x >= 0.0 then (x + 0.5).Floor else -((0.5 - x).Floor)
  }

  function Clamp(x: real, lo: real, hi: real): real {
    if x < lo then lo else if x > hi then hi else x
  }

  /** Half-Kelly fraction of the capital; at price 1 the odds are zero and the clamp yields 0. */
  function KellyFraction(price: real): real
    requires price > 0.0
  {
    if price == 1.0 then 0.0
    else
      var b := (1.0 - price) / price;
      Clamp((KELLY_WIN_RATE - (1.0 - KELLY_WIN_RATE) / b) * KELLY_FRACTION, 0.0, KELLY_MAX_PCT)
  }

  /** A share count in tenths, at least one share. */
  function TradableShares(n: real): real {
    var tenths := Round(n * 10.0) as real / 10.0;
    if tenths > KELLY_MIN_SH then tenths else KELLY_MIN_SH
  }

  /** Number of shares to buy for half-Kelly exposure. */
  function KellySize(price: real, available: real): real
    requires price > 0.0
  {
    TradableShares(KellyFraction(price) * available / price)
  }

  datatype Quotes = Quotes(yesBid: real, yesAsk: real, noBid: real, noAsk: real) {
    function YesMid(): real { (yesBid + yesAsk) / 2.0 }
    function NoMid(): real { (noBid + noAsk) / 2.0 }
    predicate YesValid() { yesBid > 0.0 && yesAsk > yesBid }
    predicate NoValid() { noBid > 0.0 && noAsk > noBid }
  }

  /** Expiry in epoch milliseconds; zero or less means unknown. */
  datatype Meta = Meta(endTime: int)

  datatype Params = Params(threshold: real, exitThreshold: real)

  /** Where the WebSocket thread stands inside on_tick. */
  datatype WsPc =
    | WsIdle
    | HaveBook(cid: Cid, q: Quotes)
    | HaveClock(cid: Cid, q: Quotes, now: int)
    | Entering(cid: Cid, q: Quotes, now: int)          // no position, quotes acceptable
    | CheckingFunds(cid: Cid, q: Quotes, now: int)     // not about to expire
    | Sizing(cid: Cid, q: Quotes, now: int)            // one share is affordable
    | Buying(cid: Cid, now: int, shares: real, price: real)
    | Exiting(cid: Cid, q: Quotes, now: int)           // position held, price target not reached
    | Closing(cid: Cid, q: Quotes)                     // decided to exit
    | Selling(cid: Cid, shares: real, price: real)     // share count taken from a snapshot

  type Snapshot = map<Cid, Position>

  /** Where the main thread stands inside sweep_expired. */
  datatype SweepPc =
    | SweepIdle
    | SweepHaveClock(now: int)
    | Scanning(now: int, snap: Snapshot, todo: set<Cid>, expired: set<Cid>)
    | Sweeping(now: int, snap: Snapshot, expired: set<Cid>)
    | SweepSelling(now: int, snap: Snapshot, expired: set<Cid>, cid: Cid, price: real)
    | Swept(now: int)

  datatype State = State(
    ledger: Ledger,
    books: map<Cid, Quotes>,
    metas: map<Cid, Meta>,
    clock: int,
    ws: WsPc,
    sweep: SweepPc)

  datatype Action =
    | PassTime(ms: int)                  // negative when the wall clock is set back
    | AddMarket(cid: Cid, meta: Meta)
    | UpdateQuotes(cid: Cid, q: Quotes)
    | OnTick(cid: Cid)
    | WsContinues
    | SweepContinues(cid: Cid)           // cid: which element an unordered container yields next

  const NO_QUOTES := Quotes(0.0, 0.0, 0.0, 0.0)

  function Init(initialCapital: real, clock: int): State {
    State(Ledger(initialCapital, 0.0, 0.0, map[]), map[], map[], clock, WsIdle, SweepIdle)
  }

  function Step(p: Params, s: State, a: Action): Option<State> {
    match a
    case PassTime(ms) => Some(s.(clock := s.clock + ms))
    case AddMarket(cid, meta) =>
      // an already tracked market keeps its metadata
      if cid in s.books then Some(s)
      else Some(s.(books := s.books[cid := NO_QUOTES], metas := s.metas[cid := meta]))
    case UpdateQuotes(cid, q) =>
      if cid in s.books then Some(s.(books := s.books[cid := q])) else Some(s)
    case OnTick(cid) =>
      if s.ws != WsIdle then None
      else if cid in s.books then Some(s.(ws := HaveBook(cid, s.books[cid])))
      else Some(s)
    case WsContinues => WsStep(p, s)
    case SweepContinues(cid) => SweepStep(s, cid)
  }

  predicate ExpiresWithin(metas: map<Cid, Meta>, cid: Cid, now: int, ms: int) {
    cid in metas && metas[cid].endTime > 0 && now + ms >= metas[cid].endTime
  }

  function EntryPrice(q: Quotes): real { q.noAsk * (1.0 + SLIPPAGE) }

  function ExitPrice(q: Quotes): real { q.noBid * (1.0 - SLIPPAGE) }

  predicate WantsEntry(p: Params, q: Quotes) {
    q.YesValid() && q.NoValid() && q.YesMid() <= p.threshold && q.noAsk <= MAX_ENTRY_ASK
  }

  function WsStep(p: Params, s: State): Option<State> {
    match s.ws
    case WsIdle => None
    case HaveBook(cid, q) => Some(s.(ws := HaveClock(cid, q, s.clock)))
    case HaveClock(cid, q, now) =>
      if cid !in s.ledger.positions then
        Some(s.(ws := if WantsEntry(p, q) then Entering(cid, q, now) else WsIdle))
      else if !q.NoValid() then Some(s.(ws := WsIdle))
      else Some(s.(ws := if q.NoMid() >= p.exitThreshold then Closing(cid, q) else Exiting(cid, q, now)))
    case Entering(cid, q, now) =>
      Some(s.(ws := if ExpiresWithin(s.metas, cid, now, MIN_REMAINING_MS) then WsIdle else CheckingFunds(cid, q, now)))
    case CheckingFunds(cid, q, now) =>
      Some(s.(ws := if s.ledger.capital < EntryPrice(q) * KELLY_MIN_SH then WsIdle else Sizing(cid, q, now)))
    case Sizing(cid, q, now) =>
      var price := EntryPrice(q);
      if price <= 0.0 then None  // ruled out by the quote checks
      else Some(s.(ws := Buying(cid, now, KellySize(price, s.ledger.capital), price)))
    case Buying(cid, now, shares, price) =>
      Some(s.(ws := WsIdle, ledger := Bought(s.ledger, cid, shares, price)))
    case Exiting(cid, q, now) =>
      Some(s.(ws := if ExpiresWithin(s.metas, cid, now, EXPIRY_GRACE_MS) then Closing(cid, q) else WsIdle))
    case Closing(cid, q) =>
      Some(s.(ws := if cid in s.ledger.positions then Selling(cid, s.ledger.positions[cid].shares, ExitPrice(q)) else WsIdle))
    case Selling(cid, shares, price) =>
      Some(s.(ws := WsIdle, ledger := Sold(s.ledger, cid, shares, price)))
  }

  function SweepPrice(s: State, entryPrice: real, cid: Cid): real {
    if cid in s.books && s.books[cid].noBid > 0.0 then ExitPrice(s.books[cid]) else entryPrice * 0.5
  }

  function SweepStep(s: State, cid: Cid): Option<State> {
    match s.sweep
    case SweepIdle => Some(s.(sweep := SweepHaveClock(s.clock)))
    case SweepHaveClock(now) =>
      Some(s.(sweep := Scanning(now, s.ledger.positions, s.ledger.positions.Keys, {})))
    case Scanning(now, snap, todo, expired) =>
      if todo == {} then Some(s.(sweep := Sweeping(now, snap, expired)))
      else if cid !in todo then None
      else
        var hit := ExpiresWithin(s.metas, cid, now, EXPIRY_GRACE_MS);
        Some(s.(sweep := Scanning(now, snap, todo - {cid}, if hit then expired + {cid} else expired)))
    case Sweeping(now, snap, expired) =>
      if expired == {} then Some(s.(sweep := Swept(now)))
      else if cid !in expired || cid !in snap then None
      else Some(s.(sweep := SweepSelling(now, snap, expired, cid, SweepPrice(s, snap[cid].entryPrice, cid))))
    case SweepSelling(now, snap, expired, closing, price) =>
      if closing !in snap then None
      else
        Some(s.(sweep := Sweeping(now, snap, expired - {closing}),
                ledger := Sold(s.ledger, closing, snap[closing].shares, price)))
    case Swept(now) => Some(s.(sweep := SweepIdle))
  }

  /** How far the clock is below its highest value so far. */
  function LagAfter(lag: nat, a: Action): nat {
    if a.PassTime? then (if a.ms >= lag then 0 else lag - a.ms) else lag
  }

  /** The same after a whole run. */
  function LagOver(lag: nat, actions: seq<Action>): nat
    decreases |actions|
  {
    if actions == [] then lag else LagOver(LagAfter(lag, actions[0]), actions[1..])
  }

  /** Along the run the clock never stands more than `setback` below an earlier value. */
  ghost predicate ClockWithin(actions: seq<Action>, lag: nat, setback: nat) {
    actions != [] ==>
      LagAfter(lag, actions[0]) <= setback && ClockWithin(actions[1..], LagAfter(lag, actions[0]), setback)
  }

  ghost predicate Reaches(p: Params, s: State, actions: seq<Action>, s': State)
    decreases |actions|
  {
    if actions == [] then s' == s
    else
      var r := Step(p, s, actions[0]);
      r.Some? && Reaches(p, r.value, actions[1..], s')
  }

  /** What every allowed step keeps, every run of allowed actions keeps. */
  lemma {:induction false} RunKeeps(p: Params, s: State, actions: seq<Action>, s': State,
                                    inv: State -> bool, allowed: Action -> bool)
    requires inv(s) && Reaches(p, s, actions, s') && forall a | a in actions :: allowed(a)
    requires forall m, a | inv(m) && allowed(a) && Step(p, m, a).Some? :: inv(Step(p, m, a).value)
    ensures inv(s')
    decreases |actions|
  {
    if actions != [] {
      assert actions[0] in actions;
      RunKeeps(p, Step(p, s, actions[0]).value, actions[1..], s', inv, allowed);
    }
  }
}
