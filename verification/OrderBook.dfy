/**
 The live top-of-book table: token ids are mapped to slots of a flat array in order of first
 appearance, up to a fixed number of tokens; later tokens are dropped for good.
 */
module OrderBooks {
  import opened Wrappers

  /** A captured tick; only the fields the pipeline looks at. */
  datatype Tick = Tick(timestamp: nat, price: real, size: real, side: nat, eventType: nat, assetId: string)

  datatype MarketState = MarketState(bidPrice: real, bidSize: real, askPrice: real, askSize: real)

  const NO_QUOTES := MarketState(0.0, 0.0, 0.0, 0.0)
  const MAX_TOKENS: nat := 4096
  const UINT16_RANGE: nat := 65536

  /** The distinct token ids of a tick history, in order of first appearance. */
  function TokensSeen(ticks: seq<Tick>): seq<string> {
    if ticks == [] then []
    else
      var before, id := TokensSeen(ticks[..|ticks| - 1]), ticks[|ticks| - 1].assetId;
      if id in before then before else before + [id]
  }

  /** The ids that own a slot: the first MAX_TOKENS ones. */
  function Indexed(ticks: seq<Tick>): seq<string> {
    var ids := TokensSeen(ticks);
    if |ids| <= MAX_TOKENS then ids else ids[..MAX_TOKENS]
  }

  /** What one tick does to the quotes of its own token. */
  function Quote(ms: MarketState, tick: Tick): MarketState {
    if tick.side == 0 then ms.(bidPrice := tick.price, bidSize := tick.size)
    else ms.(askPrice := tick.price, askSize := tick.size)
  }

  /** The quotes of a token after a history. */
  function TopOfBook(ticks: seq<Tick>, id: string): MarketState {
    if ticks == [] then NO_QUOTES
    else
      var before, last := TopOfBook(ticks[..|ticks| - 1], id), ticks[|ticks| - 1];
      if last.assetId == id then Quote(before, last) else before
  }

  /** Where a token first appears; the length of the history if it never does. */
  function FirstIndex(ticks: seq<Tick>, id: string): (i: nat)
    ensures i <= |ticks|
    ensures i < |ticks| ==> ticks[i].assetId == id
    ensures forall j | 0 <= j < i :: ticks[j].assetId != id
  {
    if ticks == [] then 0
    else
      var f := FirstIndex(ticks[..|ticks| - 1], id);
      if f < |ticks| - 1 || ticks[f].assetId == id then f else f + 1
  }

  /** The last tick of a token on one side of its book; -1 if there is none. */
  function LastIndex(ticks: seq<Tick>, id: string, bid: bool): (i: int)
    ensures -1 <= i < |ticks|
    ensures i >= 0 ==> ticks[i].assetId == id && (ticks[i].side == 0) == bid
    ensures forall j | i < j < |ticks| :: !(ticks[j].assetId == id && (ticks[j].side == 0) == bid)
  {
    if ticks == [] then -1
    else
      var n := |ticks| - 1;
      if ticks[n].assetId == id && (ticks[n].side == 0) == bid then n
      else
        var i := LastIndex(ticks[..n], id, bid);
        assert forall j | i < j < n :: ticks[..n][j] == ticks[j];
        i
  }

  /** TokensSeen lists exactly the ids that occur, once each, numbered by first appearance. */
  lemma {:induction false} TokensByFirstAppearance(ticks: seq<Tick>)
    ensures forall id :: id in TokensSeen(ticks) <==> FirstIndex(ticks, id) < |ticks|
    ensures forall k, l | 0 <= k < l < |TokensSeen(ticks)| ::
              FirstIndex(ticks, TokensSeen(ticks)[k]) < FirstIndex(ticks, TokensSeen(ticks)[l])
  {
    if ticks != [] {
      TokensByFirstAppearance(ticks[..|ticks| - 1]);
    }
  }

  /** A token's slot shows its last bid and its last ask, and zeros before the first of each. */
  lemma {:induction false} TopOfBookIsLastQuotes(ticks: seq<Tick>, id: string)
    ensures var top, b, a := TopOfBook(ticks, id), LastIndex(ticks, id, true), LastIndex(ticks, id, false);
      && (top.bidPrice, top.bidSize) == (if b < 0 then (0.0, 0.0) else (ticks[b].price, ticks[b].size))
      && (top.askPrice, top.askSize) == (if a < 0 then (0.0, 0.0) else (ticks[a].price, ticks[a].size))
  {
    if ticks != [] {
      TopOfBookIsLastQuotes(ticks[..|ticks| - 1], id);
    }
  }

  lemma {:induction false} UnseenTokenHasNoQuotes(ticks: seq<Tick>, id: string)
    requires id !in TokensSeen(ticks)
    ensures TopOfBook(ticks, id) == NO_QUOTES
  {
    if ticks != [] { UnseenTokenHasNoQuotes(ticks[..|ticks| - 1], id); }
  }

  /** One more tick leaves the index alone unless it brings a new token to a table with room. */
  lemma IndexedAfter(ticks: seq<Tick>, tick: Tick)
    ensures Indexed(ticks + [tick]) ==
            if tick.assetId in TokensSeen(ticks) || |TokensSeen(ticks)| >= MAX_TOKENS
            then Indexed(ticks) else Indexed(ticks) + [tick.assetId]
    ensures forall id :: TopOfBook(ticks + [tick], id)
                         == (if id == tick.assetId then Quote(TopOfBook(ticks, id), tick) else TopOfBook(ticks, id))
  {
    assert (ticks + [tick])[..|ticks|] == ticks;
  }

  /** The ids that own a slot are the first 4096 distinct ones. */
  lemma IndexedAreTheFirst(ticks: seq<Tick>)
    ensures Indexed(ticks) <= TokensSeen(ticks)
    ensures |Indexed(ticks)| == if |TokensSeen(ticks)| < 4096 then |TokensSeen(ticks)| else 4096
  {
  }

  lemma IndexedDistinct(ticks: seq<Tick>)
    ensures forall k, l | 0 <= k < l < |Indexed(ticks)| :: Indexed(ticks)[k] != Indexed(ticks)[l]
  {
    TokensByFirstAppearance(ticks);
  }

  class OrderBook {
    var tokenToIdx: map<string, nat>
    const books: array<MarketState>
    var nextIdx: nat
    ghost var seen: seq<Tick>  // every tick applied

    ghost predicate Valid()
      reads this, books
    {
      var ids := Indexed(seen);
      && books.Length == MAX_TOKENS
      && nextIdx == |ids| <= MAX_TOKENS
      && (forall k | 0 <= k < |ids| :: ids[k] in tokenToIdx && tokenToIdx[ids[k]] == k)
      && (forall id | id in tokenToIdx :: id in ids)
      && (forall k | 0 <= k < |ids| :: books[k] == TopOfBook(seen, ids[k]))
      && (forall k | |ids| <= k < MAX_TOKENS :: books[k] == NO_QUOTES)
    }

    constructor ()
      ensures Valid() && seen == [] && fresh(books)
    {
      tokenToIdx := map[];
      books := new MarketState[MAX_TOKENS](i => NO_QUOTES);
      nextIdx := 0;
      seen := [];
    }

    method ApplyTick(tick: Tick)
      requires Valid()
      modifies this, books
      ensures Valid() && seen == old(seen) + [tick]
    {
      IndexedAfter(seen, tick);
      IndexedDistinct(seen);
      if tick.assetId !in TokensSeen(seen) {
        UnseenTokenHasNoQuotes(seen, tick.assetId);
      }
      seen := seen + [tick];
      if tick.assetId !in tokenToIdx {
        var idx := nextIdx;
        if idx >= MAX_TOKENS {
          return;  // table full: drop
        }
        nextIdx := (idx + 1) % UINT16_RANGE;
        tokenToIdx := tokenToIdx[tick.assetId := idx];
      }
      var idx := tokenToIdx[tick.assetId];
      books[idx] := Quote(books[idx], tick);
    }

    /** The slot of a token, if it owns one: its rank among the first MAX_TOKENS distinct ids. */
    method FindIndex(token: string) returns (idx: Option<nat>)
      requires Valid()
      ensures idx.Some? <==> token in Indexed(seen)
      ensures idx.Some? ==> idx.value < |Indexed(seen)| && Indexed(seen)[idx.value] == token
                            && books[idx.value] == TopOfBook(seen, token)
    {
      idx := if token in tokenToIdx then Some(tokenToIdx[token]) else None;
    }
  }
}
