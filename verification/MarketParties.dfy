/**
 Who gains and who loses by the steps of the market: every sale moves its price from the buyer to the seller and
 its wares the other way, listing an offer costs its owner the fee, and nothing else changes hands.
 */
module MarketParties {
  import opened Common
  import opened Sums
  import opened Coins
  import opened MarketState

  // ---------------------------------------------------------------- what belongs to whom

  ghost function GoldIn(g: Guid): (nat, Offer) -> int {
    (id: nat, o: Offer) => if o.buy && o.owner == g then o.price * o.amount else 0
  }

  /** The gold of a player: coins, also those dropped as change, the bank, and what own buy offers hold. */
  ghost function GoldOf(s: State, g: Guid): int {
    (if g in s.purses then s.purses[g].coins + s.purses[g].dropped + s.purses[g].bank else 0)
    + Total(s.offers, GoldIn(g))
  }

  ghost function WaresIn(g: Guid, w: Ware): (nat, Offer) -> int {
    (id: nat, o: Offer) => if !o.buy && o.owner == g && o.ware == w then o.amount else 0
  }

  ghost function HeldBy(goods: map<(Guid, Ware), Holding>, g: Guid, w: Ware): int {
    if (g, w) in goods then
      goods[(g, w)].stash + SumSeq(goods[(g, w)].locker) + SumSeq(goods[(g, w)].inbox)
    else 0
  }

  /** The goods of a player: stash, locker, inbox, and what own sell offers hold. */
  ghost function WaresOf(s: State, g: Guid, w: Ware): int {
    HeldBy(s.goods, g, w) + Total(s.offers, WaresIn(g, w))
  }

  /** The store coins of an account: its balance, and what its sell offers hold. */
  ghost function CoinsOf(s: State, a: AccountId): int {
    (if a in s.coins then s.coins[a] else 0) + Total(s.offers, CoinsIn(s.accountOf, a))
  }

  ghost predicate Accepts(s: State, s': State, g: Guid, id: nat, n: nat) {
    AcceptBuy(s, s', g, id, n) || AcceptSell(s, s', g, id, n)
  }

  ghost predicate Returns(s: State, s': State, id: nat) {
    CancelBuy(s, s', id) || CancelSell(s, s', id) || Expire(s, s', id)
  }

  ghost predicate Lists(s: State, s': State, id: nat, o: Offer, fee: nat) {
    CreateBuy(s, s', id, o, fee) || CreateSell(s, s', id, o, fee)
  }

  function Seller(o: Offer, g: Guid): Guid { if o.buy then g else o.owner }

  function Buyer(o: Offer, g: Guid): Guid { if o.buy then o.owner else g }

  // ---------------------------------------------------------------- a sale

  /**
   The gold of a sale, purse by purse: the price goes to the seller's bank. For a sell offer the buyer pays it,
   from the bank first; for a buy offer it was paid before. No other purse changes, and nothing is burned.
   */
  lemma SalePurses(s: State, s': State, g: Guid, id: nat, n: nat)
    requires Accepts(s, s', g, id, n)
    ensures id in s.offers && g != s.offers[id].owner && 0 < n <= s.offers[id].amount
    ensures s'.burned == s.burned && s'.purses.Keys == s.purses.Keys
    ensures var o := s.offers[id];
            var seller, buyer, total := Seller(o, g), Buyer(o, g), o.price * n;
            && seller in s.purses
            && s'.purses[seller] == s.purses[seller].(bank := s.purses[seller].bank + total)
            && (forall p | p in s.purses && p != seller && (o.buy || p != buyer) :: s'.purses[p] == s.purses[p])
            && (!o.buy ==>
                  && buyer in s.purses
                  && var p, p' := s.purses[buyer], s'.purses[buyer];
                     && p'.coins + p'.dropped + p'.bank == p.coins + p.dropped + p.bank - total
                     && p'.bank == (if total <= p.bank then p.bank - total else 0) && p'.dropped >= p.dropped
                     && (total <= p.bank ==> p'.coins == p.coins && p'.dropped == p.dropped))
  {
  }

  /** After a sale the offer holds that much less, and is gone when it holds nothing; no other offer changes. */
  lemma SaleOffers(s: State, s': State, g: Guid, id: nat, n: nat)
    requires Accepts(s, s', g, id, n)
    ensures id in s.offers
    ensures id in s'.offers <==> n < s.offers[id].amount
    ensures id in s'.offers ==> s'.offers[id] == s.offers[id].(amount := s.offers[id].amount - n)
    ensures forall i | i != id :: (i in s'.offers <==> i in s.offers) && (i in s.offers ==> s'.offers[i] == s.offers[i])
  {
  }

  /** What a sale takes from a buy offer it is accepted from, it takes from what its owner has. */
  lemma OfferLess(s: State, s': State, g: Guid, id: nat, n: nat, p: Guid)
    requires Accepts(s, s', g, id, n)
    ensures var o := s.offers[id];
            Total(s'.offers, GoldIn(p)) == Total(s.offers, GoldIn(p)) - if o.buy && o.owner == p then o.price * n else 0
  {
    var o := s.offers[id];
    TotalRest(s.offers, id, n, GoldIn(p));
    assert o.price * (o.amount - n) == o.price * o.amount - o.price * n;
  }

  /** A sale moves its price from the buyer to the seller. */
  lemma SaleGold(s: State, s': State, g: Guid, id: nat, n: nat, p: Guid)
    requires Accepts(s, s', g, id, n) && s.offers[id].owner in s.purses
    ensures var o := s.offers[id];
            GoldOf(s', p) == GoldOf(s, p) + if p == Seller(o, g) then o.price * n
                                            else if p == Buyer(o, g) then 0 - o.price * n
                                            else 0
  {
    OfferLess(s, s', g, id, n, p);
    SalePurses(s, s', g, id, n);
  }

  /** Goods on the move: out of stash and locker, into the inbox, and nowhere else. */
  lemma TakenFrom(goods: map<(Guid, Ware), Holding>, goods': map<(Guid, Ware), Holding>, g: Guid, x: Ware, n: nat)
    requires Taken(goods, goods', g, x, n)
    ensures forall p, w :: HeldBy(goods', p, w) == HeldBy(goods, p, w) - if p == g && w == x then n else 0
    ensures forall k | k in goods && k in goods' :: goods'[k].inbox == goods[k].inbox
  {
  }

  lemma ArrivedAt(goods: map<(Guid, Ware), Holding>, goods': map<(Guid, Ware), Holding>, g: Guid, x: Ware, n: nat)
    requires Arrived(goods, goods', g, x, n)
    ensures forall p, w :: HeldBy(goods', p, w) == HeldBy(goods, p, w) + if p == g && w == x then n else 0
    ensures forall k | k in goods && k in goods' ::
            goods'[k].stash == goods[k].stash && goods'[k].locker == goods[k].locker
  {
  }

  /** A sale of goods moves them from the seller to the buyer. */
  lemma SaleWares(s: State, s': State, g: Guid, id: nat, n: nat, p: Guid, w: Ware)
    requires Accepts(s, s', g, id, n) && w.id != STORE_COIN
    ensures var o := s.offers[id];
            WaresOf(s', p, w) == WaresOf(s, p, w) + if w != o.ware then 0
                                                    else if p == Seller(o, g) then 0 - n
                                                    else if p == Buyer(o, g) then n
                                                    else 0
  {
    var o := s.offers[id];
    TotalRest(s.offers, id, n, WaresIn(p, w));
    if o.ware.id != STORE_COIN {
      if o.buy {
        var goods :| Taken(s.goods, goods, g, o.ware, n) && Arrived(goods, s'.goods, o.owner, o.ware, n);
        TakenFrom(s.goods, goods, g, o.ware, n);
        ArrivedAt(goods, s'.goods, o.owner, o.ware, n);
      } else {
        ArrivedAt(s.goods, s'.goods, g, o.ware, n);
      }
    }
  }

  /** A sale of store coins moves them from the seller's account to the buyer's, and logs both sides. */
  lemma SaleCoins(s: State, s': State, g: Guid, id: nat, n: nat, a: AccountId)
    requires Accepts(s, s', g, id, n) && Valid(s)
    ensures var o := s.offers[id];
            var seller, buyer := s.accountOf[Seller(o, g)], s.accountOf[Buyer(o, g)];
            && CoinsOf(s', a) == CoinsOf(s, a) + (if o.ware.id == STORE_COIN && a == buyer then n else 0)
                                               - (if o.ware.id == STORE_COIN && a == seller then n else 0)
            && (if o.ware.id == STORE_COIN then
                  s'.log == s.log + [CoinTx(s.accountOf[g], !o.buy, n), CoinTx(s.accountOf[o.owner], o.buy, n)]
                else s'.log == s.log)
  {
    LedgerOffers(s, id, n, a);
  }

  // ---------------------------------------------------------------- listing, and taking back

  /** Listing an offer costs its owner exactly the fee, which is burned; what the offer holds is still the owner's. */
  lemma ListingGold(s: State, s': State, id: nat, o: Offer, fee: nat, p: Guid)
    requires Lists(s, s', id, o, fee) && o.owner in s.purses
    ensures GoldOf(s', p) == GoldOf(s, p) - if p == o.owner then fee else 0
    ensures s'.burned == s.burned + fee && s'.offers == s.offers[id := o] && id !in s.offers && s'.log == s.log
    ensures p in s.purses && p != o.owner ==> p in s'.purses && s'.purses[p] == s.purses[p]
  {
    TotalSet(s.offers, id, o, GoldIn(p));
  }

  /** The coins carried pay first, and the bank pays only what they cannot. */
  lemma ListingPurse(s: State, s': State, id: nat, o: Offer, fee: nat)
    requires Lists(s, s', id, o, fee) && o.owner in s.purses
    ensures o.owner in s'.purses
    ensures var p, p' := s.purses[o.owner], s'.purses[o.owner];
            var cost := (if o.buy then o.price * o.amount else 0) + fee;
            && p'.bank == p.bank - (if cost <= p.coins then 0 else cost - p.coins)
            && p'.coins + p'.dropped == p.coins + p.dropped - (if cost <= p.coins then cost else p.coins)
            && p'.dropped >= p.dropped
  {
  }

  lemma ListingWares(s: State, s': State, id: nat, o: Offer, fee: nat, p: Guid, w: Ware)
    requires Lists(s, s', id, o, fee) && w.id != STORE_COIN
    ensures WaresOf(s', p, w) == WaresOf(s, p, w)
  {
    TotalSet(s.offers, id, o, WaresIn(p, w));
    if !o.buy && o.ware.id != STORE_COIN {
      TakenFrom(s.goods, s'.goods, o.owner, o.ware, o.amount);
    }
  }

  lemma ListingCoins(s: State, s': State, id: nat, o: Offer, fee: nat, a: AccountId)
    requires Lists(s, s', id, o, fee)
    ensures CoinsOf(s', a) == CoinsOf(s, a)
  {
    TotalSet(s.offers, id, o, CoinsIn(s.accountOf, a));
  }

  /**
   An offer taken back or expired gives its owner all it holds: gold goes to the bank, goods to the inbox. Nobody
   has more or less gold than before, nothing is burned or logged, and no other purse changes.
   */
  lemma ReturnGold(s: State, s': State, id: nat, p: Guid)
    requires Returns(s, s', id)
    ensures GoldOf(s', p) == GoldOf(s, p) && s'.burned == s.burned && s'.log == s.log && s'.offers == s.offers - {id}
    ensures s'.purses.Keys == s.purses.Keys
    ensures var o := s.offers[id];
            p in s.purses ==>
              s'.purses[p] == s.purses[p].(bank := s.purses[p].bank
                                                   + if o.buy && o.owner == p then o.price * o.amount else 0)
  {
    TotalDrop(s.offers, id, GoldIn(p));
  }

  lemma ReturnWares(s: State, s': State, id: nat, p: Guid, w: Ware)
    requires Returns(s, s', id) && w.id != STORE_COIN
    ensures WaresOf(s', p, w) == WaresOf(s, p, w)
    ensures forall k | k in s.goods && k in s'.goods ::
              s'.goods[k].stash == s.goods[k].stash && s'.goods[k].locker == s.goods[k].locker
  {
    var o := s.offers[id];
    TotalDrop(s.offers, id, WaresIn(p, w));
    if !o.buy && s'.goods != s.goods {
      ArrivedAt(s.goods, s'.goods, o.owner, o.ware, o.amount);
    }
  }

  /** Taken back, store coins return to the account; expired, they are lost to it and become items. */
  lemma ReturnCoins(s: State, s': State, id: nat, a: AccountId)
    requires Returns(s, s', id) && Valid(s)
    ensures CancelBuy(s, s', id) || CancelSell(s, s', id) ==> CoinsOf(s', a) == CoinsOf(s, a)
    ensures Expire(s, s', id) ==>
              var o := s.offers[id];
              && s'.coins == s.coins
              && CoinsOf(s', a) == CoinsOf(s, a) - CoinsIn(s.accountOf, a)(id, o)
              && (!o.buy ==> HeldBy(s'.goods, o.owner, o.ware) == HeldBy(s.goods, o.owner, o.ware) + o.amount)
  {
    TotalDrop(s.offers, id, CoinsIn(s.accountOf, a));
    var o := s.offers[id];
    if Expire(s, s', id) && !o.buy {
      ArrivedAt(s.goods, s'.goods, o.owner, o.ware, o.amount);
    }
  }

  // ---------------------------------------------------------------- runs

  /** What a player's gold changes by in one step: the price of a sale, or the fee. */
  ghost function Earned(p: Guid): (State, Step) -> int {
    (s: State, step: Step) =>
      match step
      case AcceptStep(g, id, n) =>
        if id !in s.offers then 0
        else if p == Seller(s.offers[id], g) then s.offers[id].price * n
        else if p == Buyer(s.offers[id], g) then 0 - s.offers[id].price * n
        else 0
      case CreateBuyStep(id, o, fee) => if p == o.owner then 0 - fee else 0
      case CreateSellStep(id, o, fee) => if p == o.owner then 0 - fee else 0
      case _ => 0
  }

  lemma StepEarns(s: State, s': State, step: Step, p: Guid)
    requires Valid(s) && Does(s, s', step)
    ensures GoldOf(s', p) == GoldOf(s, p) + Earned(p)(s, step)
  {
    match step
    case CreateBuyStep(id, o, fee) => ListingGold(s, s', id, o, fee, p);
    case CreateSellStep(id, o, fee) => ListingGold(s, s', id, o, fee, p);
    case LoseStep(g, w, amount) =>
    case CancelStep(id) => ReturnGold(s, s', id, p);
    case AcceptStep(g, id, n) =>
      assert WellFormed(s, s.offers[id]);
      SaleGold(s, s', g, id, n, p);
    case ExpireStep(id) => ReturnGold(s, s', id, p);
  }

  ghost function Along(states: seq<State>, steps: seq<Step>, change: (State, Step) -> int): int
    requires |states| == |steps| + 1
  {
    if steps == [] then 0 else change(states[0], steps[0]) + Along(states[1..], steps[1..], change)
  }

  /** Over every run the gold of each player changes by exactly what it sold for, bought for, and paid in fees. */
  lemma {:induction false} PlayerRun(states: seq<State>, steps: seq<Step>, p: Guid)
    requires IsRun(states, steps) && Valid(states[0])
    ensures GoldOf(states[|steps|], p) == GoldOf(states[0], p) + Along(states, steps, Earned(p))
    decreases |steps|
  {
    if steps != [] {
      assert Does(states[0], states[1], steps[0]);
      StepEarns(states[0], states[1], steps[0], p);
      ValidKept(states[0], states[1], steps[0]);
      TailIsRun(states, steps);
      PlayerRun(states[1..], steps[1..], p);
    }
  }

  lemma TailIsRun(states: seq<State>, steps: seq<Step>)
    requires IsRun(states, steps) && steps != []
    ensures IsRun(states[1..], steps[1..])
  {
    forall i | 0 <= i < |steps[1..]| ensures Does(states[1..][i], states[1..][i + 1], steps[1..][i]) {
      assert Does(states[i + 1], states[i + 2], steps[i + 1]);
    }
  }
}
