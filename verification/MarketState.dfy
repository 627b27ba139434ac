/**
 The market as a state machine over values: what every step does to gold, goods, store coins and offers,
 and the three conservation laws over every run. `Market` implements the steps.
 */
module MarketState {
  import opened Common
  import opened Sums
  import opened Coins

  type Guid = nat
  type AccountId = nat

  const STORE_COIN := 22118
  const MAX_PRICE := 999_999_999_999
  const MAX_AMOUNT := 64000

  /** An item kind together with its tier; the stash only ever holds tier zero. */
  datatype Ware = Ware(id: nat, tier: nat)

  /** Coins carried, worth of the coins dropped as change, and the bank balance. */
  datatype Purse = Purse(coins: nat, dropped: nat, bank: nat)

  /** What a player has of one ware: stash, stacks in the locker, stacks in the inbox. */
  datatype Holding = Holding(stash: nat, locker: seq<nat>, inbox: seq<nat>)

  /** An open offer: a buy offer holds gold, a sell offer holds the goods (or store coins). */
  datatype Offer = Offer(owner: Guid, buy: bool, ware: Ware, amount: nat, price: nat)

  datatype CoinTx = CoinTx(account: AccountId, add: bool, amount: nat)

  datatype State = State(
    accountOf: map<Guid, AccountId>,
    purses: map<Guid, Purse>,
    offers: map<nat, Offer>,
    burned: nat,
    coins: map<AccountId, nat>,
    log: seq<CoinTx>,
    goods: map<(Guid, Ware), Holding>)

  // ---------------------------------------------------------------- the conserved quantities

  ghost function PurseGold(g: Guid, p: Purse): int { p.coins + p.dropped + p.bank }

  ghost function OfferGold(id: nat, o: Offer): int { if o.buy then o.price * o.amount else 0 }

  /** All gold: purses, open buy offers, and the fees burned so far. */
  ghost function Gold(s: State): int {
    Total(s.purses, PurseGold) + Total(s.offers, OfferGold) + s.burned
  }

  ghost function Count(h: Holding): int { h.stash + SumSeq(h.locker) + SumSeq(h.inbox) }

  ghost function HoldingOf(w: Ware): ((Guid, Ware), Holding) -> int {
    (k: (Guid, Ware), h: Holding) => if k.1 == w then Count(h) else 0
  }

  ghost function StockOf(w: Ware): (nat, Offer) -> int {
    (id: nat, o: Offer) => if !o.buy && o.ware == w then o.amount else 0
  }

  /** All goods of one ware: what players hold and what open sell offers hold. */
  ghost function Goods(s: State, w: Ware): int {
    Total(s.goods, HoldingOf(w)) + Total(s.offers, StockOf(w))
  }

  ghost function CoinsIn(accountOf: map<Guid, AccountId>, a: AccountId): (nat, Offer) -> int {
    (id: nat, o: Offer) =>
      if !o.buy && o.ware.id == STORE_COIN && o.owner in accountOf && accountOf[o.owner] == a then o.amount else 0
  }

  ghost function Logged(log: seq<CoinTx>, a: AccountId): int {
    if log == [] then 0
    else
      var t := log[|log| - 1];
      var change: int := if t.account != a then 0 else if t.add then t.amount else 0 - t.amount;
      Logged(log[..|log| - 1], a) + change
  }

  /** Transferable coins plus coins in the account's own sell offers, less what the log says came in. */
  ghost function Ledger(s: State, a: AccountId): int {
    (if a in s.coins then s.coins[a] else 0) + Total(s.offers, CoinsIn(s.accountOf, a)) - Logged(s.log, a)
  }

  ghost function AccountCoins(a: AccountId, n: nat): int { n }

  ghost function StoreCoinsIn(id: nat, o: Offer): int { if !o.buy && o.ware.id == STORE_COIN then o.amount else 0 }

  /** All store coins: accounts and sell offers. */
  ghost function StoreCoins(s: State): int {
    Total(s.coins, AccountCoins) + Total(s.offers, StoreCoinsIn)
  }

  /** What every step keeps, and why no 64-bit or 32-bit addition wraps. */
  ghost predicate Valid(s: State) {
    && s.purses.Keys == s.accountOf.Keys
    && (forall g <- s.accountOf :: s.accountOf[g] in s.coins)
    && (forall id <- s.offers :: WellFormed(s, s.offers[id]))
    && Gold(s) < U64
    && StoreCoins(s) < U32
  }

  ghost predicate WellFormed(s: State, o: Offer) {
    o.owner in s.purses && 0 < o.amount <= MAX_AMOUNT && 0 < o.price <= MAX_PRICE
  }

  lemma PriceFits(price: nat, amount: nat)
    requires price <= MAX_PRICE && amount <= MAX_AMOUNT
    ensures price * amount <= 63_999_999_999_936_000 < U64 - 1_000_000
  {
    assert price * amount <= MAX_PRICE * amount;
  }

  // ---------------------------------------------------------------- the steps

  /** A charge by `Game::removeMoney` with the bank as a fallback. */
  ghost predicate Paid(p: Purse, p': Purse, money: int) {
    Charged(p.coins, p.dropped, p.bank, p'.coins, p'.dropped, p'.bank, money)
  }

  /** Accepting a sell offer pays from the bank first and takes only the rest in coins. */
  ghost predicate PaidBankFirst(p: Purse, p': Purse, money: int) {
    if money <= p.bank then p' == p.(bank := p.bank - money)
    else
      && p'.bank == 0 && Charged(p.coins, p.dropped, 0, p'.coins, p'.dropped, 0, money - p.bank)
      && money - p.bank <= p.coins
  }

  function Credit(p: Purse, money: nat): Purse { p.(bank := p.bank + money) }

  ghost predicate CreateBuy(s: State, s': State, id: nat, o: Offer, fee: nat) {
    && WellFormed(s, o) && o.buy && id !in s.offers && o.owner in s'.purses
    && s' == s.(purses := s.purses[o.owner := s'.purses[o.owner]], offers := s.offers[id := o],
       burned := s.burned + fee)
    && Paid(s.purses[o.owner], s'.purses[o.owner], o.price * o.amount + fee)
  }

  /** The goods (or store coins) leave the seller for the offer; nothing is logged. */
  ghost predicate CreateSell(s: State, s': State, id: nat, o: Offer, fee: nat) {
    && WellFormed(s, o) && !o.buy && id !in s.offers && o.owner in s'.purses && o.owner in s.accountOf
    && Paid(s.purses[o.owner], s'.purses[o.owner], fee)
    && (if o.ware.id == STORE_COIN then
          var a := s.accountOf[o.owner];
          && a in s.coins && o.amount <= s.coins[a]
          && s' == s.(purses := s.purses[o.owner := s'.purses[o.owner]], offers := s.offers[id := o],
                      burned := s.burned + fee, coins := s.coins[a := s.coins[a] - o.amount])
        else
          && Taken(s.goods, s'.goods, o.owner, o.ware, o.amount)
          && s' == s.(purses := s.purses[o.owner := s'.purses[o.owner]], offers := s.offers[id := o],
                      burned := s.burned + fee, goods := s'.goods))
  }

  /** `removeOfferItems` succeeded: exactly `amount` of the ware left stash and locker. */
  ghost predicate Taken(goods: map<(Guid, Ware), Holding>, goods': map<(Guid, Ware), Holding>, g: Guid, w: Ware,
                        amount: nat) {
    && (g, w) in goods && (g, w) in goods' && goods' == goods[(g, w) := goods'[(g, w)]]
    && goods'[(g, w)].inbox == goods[(g, w)].inbox
    && Count(goods'[(g, w)]) == Count(goods[(g, w)]) - amount
  }

  /** `removeOfferItems` failed: at most `amount` was lost, nothing was gained, no offer changed. */
  ghost predicate Lost(s: State, s': State, g: Guid, w: Ware, amount: nat) {
    && (g, w) in s.goods && (g, w) in s'.goods && s' == s.(goods := s.goods[(g, w) := s'.goods[(g, w)]])
    && s'.goods[(g, w)].inbox == s.goods[(g, w)].inbox
    && Count(s.goods[(g, w)]) - amount <= Count(s'.goods[(g, w)]) <= Count(s.goods[(g, w)])
  }

  /** `amount` of the ware arrived in the player's inbox. */
  ghost predicate Arrived(goods: map<(Guid, Ware), Holding>, goods': map<(Guid, Ware), Holding>, g: Guid, w: Ware,
                          amount: nat) {
    var h := if (g, w) in goods then goods[(g, w)] else Holding(0, [], []);
    && (g, w) in goods' && goods' == goods[(g, w) := goods'[(g, w)]]
    && goods'[(g, w)].stash == h.stash && goods'[(g, w)].locker == h.locker
    && Count(goods'[(g, w)]) == Count(h) + amount
  }

  ghost predicate CancelBuy(s: State, s': State, id: nat) {
    && id in s.offers && s.offers[id].buy && s.offers[id].owner in s.purses
    && var o := s.offers[id];
       s' == s.(purses := s.purses[o.owner := Credit(s.purses[o.owner], o.price * o.amount)], offers := s.offers - {id})
  }

  ghost predicate CancelSell(s: State, s': State, id: nat) {
    && id in s.offers && !s.offers[id].buy && s.offers[id].owner in s.accountOf
    && var o := s.offers[id];
       if o.ware.id == STORE_COIN then
         var a := s.accountOf[o.owner];
         a in s.coins && s' == s.(offers := s.offers - {id}, coins := s.coins[a := s.coins[a] + o.amount])
       else
         && Arrived(s.goods, s'.goods, o.owner, o.ware, o.amount)
         && s' == s.(offers := s.offers - {id}, goods := s'.goods)
  }

  /** What is left of an offer after `n` of it was accepted. */
  function Rest(offers: map<nat, Offer>, id: nat, n: nat): map<nat, Offer>
    requires id in offers && n <= offers[id].amount
  {
    if n == offers[id].amount then offers - {id} else offers[id := offers[id].(amount := offers[id].amount - n)]
  }

  /** Player `g` sells `n` to the owner of a buy offer. */
  ghost predicate AcceptBuy(s: State, s': State, g: Guid, id: nat, n: nat) {
    && id in s.offers && s.offers[id].buy && 0 < n <= s.offers[id].amount
    && var o := s.offers[id];
       && g != o.owner && g in s.purses && g in s.accountOf && o.owner in s.accountOf
       && var purses := s.purses[g := Credit(s.purses[g], o.price * n)];
          if o.ware.id == STORE_COIN then
            var a, b := s.accountOf[g], s.accountOf[o.owner];
            && a in s.coins && n <= s.coins[a]
            && var coins := s.coins[a := s.coins[a] - n];
               b in coins
               && s' == s.(purses := purses, offers := Rest(s.offers, id, n), coins := coins[b := coins[b] + n],
                           log := s.log + [CoinTx(a, false, n)] + [CoinTx(b, true, n)])
          else
            exists goods ::
              && Taken(s.goods, goods, g, o.ware, n) && Arrived(goods, s'.goods, o.owner, o.ware, n)
              && s' == s.(purses := purses, offers := Rest(s.offers, id, n), goods := s'.goods)
  }

  /** Player `g` buys `n` from a sell offer. The seller's coin removal is logged only now. */
  ghost predicate AcceptSell(s: State, s': State, g: Guid, id: nat, n: nat) {
    && id in s.offers && !s.offers[id].buy && 0 < n <= s.offers[id].amount
    && var o := s.offers[id];
       && g != o.owner && g in s.purses && g in s'.purses && o.owner in s.purses && g in s.accountOf
          && o.owner in s.accountOf
       && PaidBankFirst(s.purses[g], s'.purses[g], o.price * n)
       && var purses := s.purses[g := s'.purses[g]][o.owner := Credit(s.purses[o.owner], o.price * n)];
          if o.ware.id == STORE_COIN then
            var a, b := s.accountOf[g], s.accountOf[o.owner];
            && a in s.coins
            && s' == s.(purses := purses, offers := Rest(s.offers, id, n), coins := s.coins[a := s.coins[a] + n],
                        log := s.log + [CoinTx(a, true, n)] + [CoinTx(b, false, n)])
          else
            && Arrived(s.goods, s'.goods, g, o.ware, n)
            && s' == s.(purses := purses, offers := Rest(s.offers, id, n), goods := s'.goods)
  }

  /** An offer has expired: gold goes back to the bank, and every sell offer's stock becomes items in the inbox. */
  ghost predicate Expire(s: State, s': State, id: nat) {
    && id in s.offers
    && var o := s.offers[id];
       if o.buy then CancelBuy(s, s', id)
       else
         && Arrived(s.goods, s'.goods, o.owner, o.ware, o.amount)
         && s' == s.(offers := s.offers - {id}, goods := s'.goods)
  }

  datatype Step =
    | CreateBuyStep(id: nat, offer: Offer, fee: nat)
    | CreateSellStep(id: nat, offer: Offer, fee: nat)
    | LoseStep(who: Guid, ware: Ware, amount: nat)
    | CancelStep(id: nat)
    | AcceptStep(who: Guid, id: nat, amount: nat)
    | ExpireStep(id: nat)

  /** `step` may take state `s` to state `s'`. */
  ghost predicate Does(s: State, s': State, step: Step) {
    match step
    case CreateBuyStep(id, o, fee) => CreateBuy(s, s', id, o, fee)
    case CreateSellStep(id, o, fee) => CreateSell(s, s', id, o, fee)
    case LoseStep(g, w, amount) => w.id != STORE_COIN && Lost(s, s', g, w, amount)
    case CancelStep(id) => CancelBuy(s, s', id) || CancelSell(s, s', id)
    case AcceptStep(g, id, n) => AcceptBuy(s, s', g, id, n) || AcceptSell(s, s', g, id, n)
    case ExpireStep(id) => Expire(s, s', id)
  }

  // ---------------------------------------------------------------- the laws, step by step

  lemma TotalRest(offers: map<nat, Offer>, id: nat, n: nat, weight: (nat, Offer) -> int)
    requires id in offers && n <= offers[id].amount
    ensures Total(Rest(offers, id, n), weight)
         == Total(offers, weight) - weight(id, offers[id])
            + if n == offers[id].amount then 0 else weight(id, offers[id].(amount := offers[id].amount - n))
  {
    if n == offers[id].amount {
      TotalDrop(offers, id, weight);
    } else {
      TotalSet(offers, id, offers[id].(amount := offers[id].amount - n), weight);
    }
  }

  lemma GoldAccepted(s: State, id: nat, n: nat)
    requires id in s.offers && 0 < n <= s.offers[id].amount
    ensures var o := s.offers[id];
            Total(Rest(s.offers, id, n), OfferGold) == Total(s.offers, OfferGold) - if o.buy then o.price * n else 0
  {
    var o := s.offers[id];
    TotalRest(s.offers, id, n, OfferGold);
    assert o.price * (o.amount - n) == o.price * o.amount - o.price * n;
  }

  lemma GoldMoved(s: State, s': State, g: Guid, id: nat, n: nat)
    requires AcceptBuy(s, s', g, id, n) || AcceptSell(s, s', g, id, n)
    ensures Gold(s') == Gold(s)
  {
    var o := s.offers[id];
    GoldAccepted(s, id, n);
    if AcceptBuy(s, s', g, id, n) {
      TotalSet(s.purses, g, Credit(s.purses[g], o.price * n), PurseGold);
    } else {
      TotalSet(s.purses, g, s'.purses[g], PurseGold);
      TotalSet(s.purses[g := s'.purses[g]], o.owner, Credit(s.purses[o.owner], o.price * n), PurseGold);
    }
  }

  /** Gold is conserved by every step: purses, open buy offers and burned fees together never change. */
  lemma GoldKept(s: State, s': State, step: Step)
    requires Does(s, s', step)
    ensures Gold(s') == Gold(s)
  {
    match step
    case CreateBuyStep(id, o, fee) =>
      TotalSet(s.purses, o.owner, s'.purses[o.owner], PurseGold);
      TotalSet(s.offers, id, o, OfferGold);
    case CreateSellStep(id, o, fee) =>
      TotalSet(s.purses, o.owner, s'.purses[o.owner], PurseGold);
      TotalSet(s.offers, id, o, OfferGold);
    case LoseStep(g, w, amount) =>
    case CancelStep(id) =>
      GoldReturned(s, s', id);
    case AcceptStep(g, id, n) =>
      GoldMoved(s, s', g, id, n);
    case ExpireStep(id) =>
      GoldReturned(s, s', id);
  }

  lemma GoldReturned(s: State, s': State, id: nat)
    requires CancelBuy(s, s', id) || CancelSell(s, s', id) || Expire(s, s', id)
    ensures Gold(s') == Gold(s)
  {
    var o := s.offers[id];
    TotalDrop(s.offers, id, OfferGold);
    if o.buy {
      TotalSet(s.purses, o.owner, Credit(s.purses[o.owner], o.price * o.amount), PurseGold);
    }
  }

  lemma LogTwo(log: seq<CoinTx>, t: CoinTx, u: CoinTx, a: AccountId)
    ensures Logged(log + [t] + [u], a)
         == Logged(log, a) + (if t.account != a then 0 else if t.add then t.amount else 0 - t.amount)
                           + (if u.account != a then 0 else if u.add then u.amount else 0 - u.amount)
  {
    assert (log + [t] + [u])[..|log| + 1] == log + [t];
    assert (log + [t])[..|log|] == log;
  }

  /** The coins of a sell offer count for its owner's account and for no other. */
  lemma LedgerOffers(s: State, id: nat, n: nat, a: AccountId)
    requires id in s.offers && 0 < n <= s.offers[id].amount && s.offers[id].owner in s.accountOf
    ensures var o := s.offers[id];
            Total(Rest(s.offers, id, n), CoinsIn(s.accountOf, a))
            == Total(s.offers, CoinsIn(s.accountOf, a))
               - if !o.buy && o.ware.id == STORE_COIN && s.accountOf[o.owner] == a then n else 0
  {
    TotalRest(s.offers, id, n, CoinsIn(s.accountOf, a));
  }

  /**
   The ledger of every account reconciles at every step but the expiry of a store-coin sell offer:
   creating and cancelling log nothing, and a sale is logged for both sides only when it is accepted.
   */
  lemma LedgerKept(s: State, s': State, step: Step, a: AccountId)
    requires Does(s, s', step) && !ExpiresCoins(s, step)
    ensures Ledger(s', a) == Ledger(s, a)
  {
    match step
    case CreateBuyStep(id, o, fee) =>
      TotalSet(s.offers, id, o, CoinsIn(s.accountOf, a));
    case CreateSellStep(id, o, fee) =>
      TotalSet(s.offers, id, o, CoinsIn(s.accountOf, a));
    case LoseStep(g, w, amount) =>
    case CancelStep(id) =>
      TotalDrop(s.offers, id, CoinsIn(s.accountOf, a));
    case AcceptStep(g, id, n) =>
      LedgerAccepted(s, s', g, id, n, a);
    case ExpireStep(id) =>
      TotalDrop(s.offers, id, CoinsIn(s.accountOf, a));
  }

  lemma LedgerAccepted(s: State, s': State, g: Guid, id: nat, n: nat, a: AccountId)
    requires AcceptBuy(s, s', g, id, n) || AcceptSell(s, s', g, id, n)
    ensures Ledger(s', a) == Ledger(s, a)
  {
    LedgerOffers(s, id, n, a);
    if s.offers[id].buy {
      LedgerSold(s, s', g, id, n, a);
    } else {
      LedgerBought(s, s', g, id, n, a);
    }
  }

  lemma LedgerSold(s: State, s': State, g: Guid, id: nat, n: nat, a: AccountId)
    requires AcceptBuy(s, s', g, id, n)
    requires Total(s'.offers, CoinsIn(s.accountOf, a)) == Total(s.offers, CoinsIn(s.accountOf, a))
    ensures Ledger(s', a) == Ledger(s, a)
  {
    LogTwo(s.log, CoinTx(s.accountOf[g], false, n), CoinTx(s.accountOf[s.offers[id].owner], true, n), a);
  }

  lemma LedgerBought(s: State, s': State, g: Guid, id: nat, n: nat, a: AccountId)
    requires AcceptSell(s, s', g, id, n)
    requires var o := s.offers[id];
             Total(s'.offers, CoinsIn(s.accountOf, a))
             == Total(s.offers, CoinsIn(s.accountOf, a))
                - if o.ware.id == STORE_COIN && s.accountOf[o.owner] == a then n else 0
    ensures Ledger(s', a) == Ledger(s, a)
  {
    LogTwo(s.log, CoinTx(s.accountOf[g], true, n), CoinTx(s.accountOf[s.offers[id].owner], false, n), a);
  }

  /** The one step that does not reconcile: a sell offer of store coins runs out. */
  ghost predicate ExpiresCoins(s: State, step: Step) {
    step.ExpireStep? && step.id in s.offers && !s.offers[step.id].buy && s.offers[step.id].ware.id == STORE_COIN
  }

  /**
   A step reconciles every ledger if and only if it is not the expiry of a store-coin sell offer: that expiry
   delivers the coins as items, so the owner's account is short of exactly the offered amount.
   */
  lemma LedgerKeptIff(s: State, s': State, step: Step)
    requires Valid(s) && Does(s, s', step)
    ensures (forall a :: Ledger(s', a) == Ledger(s, a)) <==> !ExpiresCoins(s, step)
    ensures ExpiresCoins(s, step) ==>
              var o := s.offers[step.id]; Ledger(s', s.accountOf[o.owner]) == Ledger(s, s.accountOf[o.owner]) - o.amount
  {
    if ExpiresCoins(s, step) {
      var o := s.offers[step.id];
      assert WellFormed(s, o);
      var a := s.accountOf[o.owner];
      TotalDrop(s.offers, step.id, CoinsIn(s.accountOf, a));
      assert Ledger(s', a) == Ledger(s, a) - o.amount;
    } else {
      forall a ensures Ledger(s', a) == Ledger(s, a) {
        LedgerKept(s, s', step, a);
      }
    }
  }

  /** One player with nothing but a sell offer of 25 store coins. */
  ghost function Selling(): State {
    State(map[1 := 5], map[1 := Purse(0, 0, 0)], map[7 := Offer(1, false, Ware(STORE_COIN, 0), 25, 1)], 0,
          map[5 := 0], [], map[])
  }

  lemma SellingGold()
    ensures Gold(Selling()) == 0
  {
    SumZero(Weights(Selling().offers, OfferGold));
    SumZero(Weights(Selling().purses, PurseGold));
  }

  lemma SellingCoins()
    ensures StoreCoins(Selling()) == 25 && Ledger(Selling(), 5) == 25
  {
    var s, o := Selling(), Offer(1, false, Ware(STORE_COIN, 0), 25, 1);
    SumZero(Weights(s.coins, AccountCoins));
    TotalOne(s.offers, 7, StoreCoinsIn);
    TotalOne(s.offers, 7, CoinsIn(s.accountOf, 5));
  }

  lemma SellingValid()
    ensures Valid(Selling()) && Ledger(Selling(), 5) == 25
  {
    SellingGold();
    SellingCoins();
  }

  /** A valid state in which that offer expires: the account is 25 coins short of its log. */
  lemma ExpiryBreaksLedger() returns (s': State)
    ensures Valid(Selling()) && Does(Selling(), s', ExpireStep(7))
    ensures Ledger(Selling(), 5) == 25 && Ledger(s', 5) == 0
  {
    SellingValid();
    s' := SellingExpires();
    LedgerKeptIff(Selling(), s', ExpireStep(7));
  }

  lemma SellingExpires() returns (s': State)
    ensures Does(Selling(), s', ExpireStep(7)) && ExpiresCoins(Selling(), ExpireStep(7))
    ensures 7 in Selling().offers && Selling().offers[7] == Offer(1, false, Ware(STORE_COIN, 0), 25, 1)
    ensures 1 in Selling().accountOf && Selling().accountOf[1] == 5
  {
    var w: Ware := Ware(STORE_COIN, 0);
    s' := Selling().(offers := Selling().offers - {7}, goods := map[(1, w) := Holding(0, [], [25])]);
    assert SumSeq([25]) == 25 && SumSeq([]) == 0;
    assert Arrived(Selling().goods, s'.goods, 1, w, 25);
  }

  lemma StoreCoinsAccepted(s: State, id: nat, n: nat)
    requires id in s.offers && 0 < n <= s.offers[id].amount
    ensures var o := s.offers[id];
            Total(Rest(s.offers, id, n), StoreCoinsIn)
            == Total(s.offers, StoreCoinsIn) - if !o.buy && o.ware.id == STORE_COIN then n else 0
  {
    TotalRest(s.offers, id, n, StoreCoinsIn);
  }

  lemma StoreCoinsMoved(s: State, s': State, g: Guid, id: nat, n: nat)
    requires AcceptBuy(s, s', g, id, n) || AcceptSell(s, s', g, id, n)
    ensures StoreCoins(s') == StoreCoins(s)
  {
    StoreCoinsAccepted(s, id, n);
    if s.offers[id].ware.id == STORE_COIN {
      var a, b := s.accountOf[g], s.accountOf[s.offers[id].owner];
      if s.offers[id].buy {
        CoinsTransferred(s.coins, a, b, n);
      } else {
        var more: nat := s.coins[a] + n;
        TotalSet(s.coins, a, more, AccountCoins);
      }
    }
  }

  lemma CoinsTransferred(coins: map<AccountId, nat>, a: AccountId, b: AccountId, n: nat)
    requires a in coins && b in coins && n <= coins[a]
    ensures var taken: map<AccountId, nat> := coins[a := coins[a] - n];
            Total<AccountId, nat>(taken[b := taken[b] + n], AccountCoins) == Total(coins, AccountCoins)
  {
    var left: nat := coins[a] - n;
    var taken: map<AccountId, nat> := coins[a := left];
    TotalSet(coins, a, left, AccountCoins);
    var more: nat := taken[b] + n;
    TotalSet(taken, b, more, AccountCoins);
  }

  lemma StoreCoinsOffered(s: State, s': State, id: nat, o: Offer, fee: nat)
    requires CreateSell(s, s', id, o, fee)
    ensures StoreCoins(s') == StoreCoins(s)
  {
    TotalSet(s.offers, id, o, StoreCoinsIn);
    if o.ware.id == STORE_COIN {
      var a := s.accountOf[o.owner];
      var left: nat := s.coins[a] - o.amount;
      TotalSet(s.coins, a, left, AccountCoins);
    }
  }

  lemma StoreCoinsReturned(s: State, s': State, id: nat)
    requires CancelBuy(s, s', id) || CancelSell(s, s', id)
    ensures StoreCoins(s') == StoreCoins(s)
  {
    var o := s.offers[id];
    TotalDrop(s.offers, id, StoreCoinsIn);
    if !o.buy && o.ware.id == STORE_COIN {
      var a := s.accountOf[o.owner];
      var more: nat := s.coins[a] + o.amount;
      TotalSet(s.coins, a, more, AccountCoins);
    }
  }

  /** Store coins are conserved by every step but that expiry, which takes coins out of the system. */
  lemma StoreCoinsKept(s: State, s': State, step: Step)
    requires Does(s, s', step)
    ensures StoreCoins(s') == StoreCoins(s) - if ExpiresCoins(s, step) then s.offers[step.id].amount else 0
  {
    match step
    case CreateBuyStep(id, o, fee) =>
      TotalSet(s.offers, id, o, StoreCoinsIn);
    case CreateSellStep(id, o, fee) =>
      StoreCoinsOffered(s, s', id, o, fee);
    case LoseStep(g, w, amount) =>
    case CancelStep(id) =>
      StoreCoinsReturned(s, s', id);
    case AcceptStep(g, id, n) =>
      StoreCoinsMoved(s, s', g, id, n);
    case ExpireStep(id) =>
      TotalDrop(s.offers, id, StoreCoinsIn);
  }

  lemma GoodsAccepted(s: State, id: nat, n: nat, w: Ware)
    requires id in s.offers && 0 < n <= s.offers[id].amount
    ensures var o := s.offers[id];
            Total(Rest(s.offers, id, n), StockOf(w))
              == Total(s.offers, StockOf(w)) - if !o.buy && o.ware == w then n else 0
  {
    TotalRest(s.offers, id, n, StockOf(w));
  }

  lemma GoodsTaken(goods: map<(Guid, Ware), Holding>, goods': map<(Guid, Ware), Holding>, g: Guid, x: Ware, n: nat,
                   w: Ware)
    requires Taken(goods, goods', g, x, n)
    ensures Total(goods', HoldingOf(w)) == Total(goods, HoldingOf(w)) - if x == w then n else 0
  {
    TotalSet(goods, (g, x), goods'[(g, x)], HoldingOf(w));
  }

  lemma GoodsArrived(goods: map<(Guid, Ware), Holding>, goods': map<(Guid, Ware), Holding>, g: Guid, x: Ware, n: nat,
                     w: Ware)
    requires Arrived(goods, goods', g, x, n)
    ensures Total(goods', HoldingOf(w)) == Total(goods, HoldingOf(w)) + if x == w then n else 0
  {
    TotalSet(goods, (g, x), goods'[(g, x)], HoldingOf(w));
  }

  /** Goods are never cloned: every step that succeeds keeps each ware's total, and a failed removal only loses some. */
  lemma GoodsKept(s: State, s': State, step: Step, w: Ware)
    requires Does(s, s', step) && w.id != STORE_COIN
    ensures if step.LoseStep? then Goods(s, w) - step.amount <= Goods(s', w) <= Goods(s, w)
            else Goods(s', w) == Goods(s, w)
  {
    match step
    case CreateBuyStep(id, o, fee) =>
      TotalSet(s.offers, id, o, StockOf(w));
    case CreateSellStep(id, o, fee) =>
      TotalSet(s.offers, id, o, StockOf(w));
      if o.ware.id != STORE_COIN {
        GoodsTaken(s.goods, s'.goods, o.owner, o.ware, o.amount, w);
      }
    case LoseStep(g, x, amount) =>
      TotalSet(s.goods, (g, x), s'.goods[(g, x)], HoldingOf(w));
    case CancelStep(id) =>
      GoodsReturned(s, s', id, w);
    case AcceptStep(g, id, n) =>
      var o := s.offers[id];
      GoodsAccepted(s, id, n, w);
      if o.ware.id != STORE_COIN {
        if AcceptBuy(s, s', g, id, n) {
          var goods :| Taken(s.goods, goods, g, o.ware, n) && Arrived(goods, s'.goods, o.owner, o.ware, n);
          GoodsTaken(s.goods, goods, g, o.ware, n, w);
          GoodsArrived(goods, s'.goods, o.owner, o.ware, n, w);
        } else {
          GoodsArrived(s.goods, s'.goods, g, o.ware, n, w);
        }
      }
    case ExpireStep(id) =>
      GoodsReturned(s, s', id, w);
  }

  lemma GoodsReturned(s: State, s': State, id: nat, w: Ware)
    requires CancelBuy(s, s', id) || CancelSell(s, s', id) || Expire(s, s', id)
    requires w.id != STORE_COIN
    ensures Goods(s', w) == Goods(s, w)
  {
    var o := s.offers[id];
    TotalDrop(s.offers, id, StockOf(w));
    if Arrived(s.goods, s'.goods, o.owner, o.ware, o.amount) {
      GoodsArrived(s.goods, s'.goods, o.owner, o.ware, o.amount, w);
    }
  }

  // ---------------------------------------------------------------- no overflow

  lemma SomeGold(s: State)
    requires Valid(s)
    ensures Total(s.purses, PurseGold) >= 0 && Total(s.offers, OfferGold) >= 0
    ensures forall g <- s.purses :: PurseGold(g, s.purses[g]) <= Total(s.purses, PurseGold)
    ensures forall id <- s.offers :: OfferGold(id, s.offers[id]) <= Total(s.offers, OfferGold)
  {
    TotalBounds(s.purses, PurseGold);
    TotalBounds(s.offers, OfferGold);
  }

  /** No single purse holds more than all gold. */
  lemma GoldBounds(s: State, g: Guid)
    requires Valid(s) && g in s.purses
    ensures s.purses[g].coins + s.purses[g].dropped + s.purses[g].bank <= Gold(s) < U64
  {
    SomeGold(s);
    assert PurseGold(g, s.purses[g]) <= Total(s.purses, PurseGold);
  }

  /** Gold held by a buy offer fits into any bank balance on top of what is there. */
  lemma EscrowFits(s: State, g: Guid, id: nat, n: nat)
    requires Valid(s) && g in s.purses && id in s.offers && s.offers[id].buy && n <= s.offers[id].amount
    ensures s.purses[g].bank + s.offers[id].price * n < U64
  {
    SomeGold(s);
    var o := s.offers[id];
    PartCosts(o.price, n, o.amount);
    assert PurseGold(g, s.purses[g]) + OfferGold(id, o) <= Gold(s);
  }

  lemma PartCosts(price: nat, part: nat, whole: nat)
    requires part <= whole
    ensures price * part <= price * whole
  {
    assert price * whole == price * part + price * (whole - part);
  }

  /** What one player pays fits into the balance of another. */
  lemma PaymentFits(s: State, g: Guid, h: Guid)
    requires Valid(s) && g in s.purses && h in s.purses && g != h
    ensures s.purses[g].coins + s.purses[g].bank + s.purses[h].bank < U64
  {
    SomeGold(s);
    TotalDrop(s.purses, g, PurseGold);
    var rest: map<Guid, Purse> := s.purses - {g};
    TotalBounds(rest, PurseGold);
    assert PurseGold(h, rest[h]) <= Total(rest, PurseGold);
  }

  /** Neither buying coins nor getting them back can overflow the 32-bit balance of an account. */
  lemma CoinsFit(s: State, a: AccountId, id: nat, n: nat)
    requires Valid(s) && a in s.coins && id in s.offers && n <= s.offers[id].amount
    requires !s.offers[id].buy && s.offers[id].ware.id == STORE_COIN
    ensures s.coins[a] + n < U32
  {
    TotalBounds(s.coins, AccountCoins);
    TotalBounds(s.offers, StoreCoinsIn);
    assert AccountCoins(a, s.coins[a]) + StoreCoinsIn(id, s.offers[id]) <= StoreCoins(s);
  }

  lemma AccountFits(s: State, a: AccountId)
    requires Valid(s) && a in s.coins
    ensures s.coins[a] < U32
  {
    TotalBounds(s.coins, AccountCoins);
    TotalBounds(s.offers, StoreCoinsIn);
    assert AccountCoins(a, s.coins[a]) <= StoreCoins(s);
  }

  /** Nor can receiving coins another account gives up. */
  lemma TransferFits(s: State, a: AccountId, b: AccountId, n: nat)
    requires Valid(s) && a in s.coins && b in s.coins && a != b && n <= s.coins[a]
    ensures s.coins[b] + n < U32
  {
    TotalBounds(s.offers, StoreCoinsIn);
    TotalDrop(s.coins, a, AccountCoins);
    var rest: map<AccountId, nat> := s.coins - {a};
    TotalBounds(rest, AccountCoins);
    assert AccountCoins(b, rest[b]) <= Total(rest, AccountCoins);
    assert AccountCoins(a, s.coins[a]) == s.coins[a];
  }

  // ---------------------------------------------------------------- runs

  /** Every step keeps the invariant, so no balance or coin count ever wraps around. */
  lemma ValidKept(s: State, s': State, step: Step)
    requires Valid(s) && Does(s, s', step)
    ensures Valid(s')
  {
    GoldKept(s, s', step);
    StoreCoinsKept(s, s', step);
    match step
    case CreateBuyStep(id, o, fee) => FrameCreated(s, s', id, o, fee);
    case CreateSellStep(id, o, fee) => FrameCreated(s, s', id, o, fee);
    case LoseStep(g, w, amount) =>
    case CancelStep(id) => FrameReturned(s, s', id);
    case AcceptStep(g, id, n) =>
      if AcceptBuy(s, s', g, id, n) {
        FrameSold(s, s', g, id, n);
      } else {
        FrameBought(s, s', g, id, n);
      }
    case ExpireStep(id) => FrameReturned(s, s', id);
  }

  /** Players, accounts and their links stay, and the open offers stay well formed. */
  ghost predicate Framed(s: State, s': State) {
    && s'.accountOf == s.accountOf && s'.purses.Keys == s.purses.Keys && s'.coins.Keys == s.coins.Keys
    && forall id <- s'.offers :: WellFormed(s', s'.offers[id])
  }

  lemma FrameCreated(s: State, s': State, id: nat, o: Offer, fee: nat)
    requires Valid(s) && (CreateBuy(s, s', id, o, fee) || CreateSell(s, s', id, o, fee))
    ensures Framed(s, s')
  {
    forall k | k in s'.offers ensures WellFormed(s', s'.offers[k]) {
      assert k != id ==> WellFormed(s, s.offers[k]);
    }
  }

  lemma FrameReturned(s: State, s': State, id: nat)
    requires Valid(s) && (CancelBuy(s, s', id) || CancelSell(s, s', id) || Expire(s, s', id))
    ensures Framed(s, s')
  {
    forall k | k in s'.offers ensures WellFormed(s', s'.offers[k]) {
      assert WellFormed(s, s.offers[k]);
    }
  }

  lemma FrameSold(s: State, s': State, g: Guid, id: nat, n: nat)
    requires Valid(s) && AcceptBuy(s, s', g, id, n)
    ensures Framed(s, s')
  {
    forall k | k in s'.offers ensures WellFormed(s', s'.offers[k]) {
      assert WellFormed(s, s.offers[k]);
    }
  }

  lemma FrameBought(s: State, s': State, g: Guid, id: nat, n: nat)
    requires Valid(s) && AcceptSell(s, s', g, id, n)
    ensures Framed(s, s')
  {
    forall k | k in s'.offers ensures WellFormed(s', s'.offers[k]) {
      assert WellFormed(s, s.offers[k]);
    }
  }

  ghost predicate IsRun(states: seq<State>, steps: seq<Step>) {
    && |states| == |steps| + 1
    && forall i | 0 <= i < |steps| :: Does(states[i], states[i + 1], steps[i])
  }

  ghost predicate Loses(step: Step) { step.LoseStep? }

  /** What the coin offers that expire during a run weigh. */
  ghost function Expired(states: seq<State>, steps: seq<Step>, weight: (nat, Offer) -> int): int
    requires |states| == |steps| + 1
  {
    if steps == [] then 0
    else
      var n := |steps| - 1;
      Expired(states[..n + 1], steps[..n], weight) + ExpiredIn(states[n], steps[n], weight)
  }

  ghost function ExpiredIn(s: State, step: Step, weight: (nat, Offer) -> int): int {
    if ExpiresCoins(s, step) then weight(step.id, s.offers[step.id]) else 0
  }

  /**
   The market laws over every run, from any valid state. Gold is constant; every coin ledger, and the total of
   coins, falls by exactly what the expired coin offers held; goods never grow, and fall only by failed removals.
   */
  lemma MarketRun(states: seq<State>, steps: seq<Step>)
    requires IsRun(states, steps) && Valid(states[0])
    ensures var s, s' := states[0], states[|steps|];
            && Valid(s') && s'.accountOf == s.accountOf
            && Gold(s') == Gold(s)
            && StoreCoins(s') == StoreCoins(s) - Expired(states, steps, StoreCoinsIn)
            && (forall a :: Ledger(s', a) == Ledger(s, a) - Expired(states, steps, CoinsIn(s.accountOf, a)))
            && (forall w: Ware | w.id != STORE_COIN :: Goods(s', w) <= Goods(s, w))
            && ((forall i | 0 <= i < |steps| :: !Loses(steps[i]))
                ==> forall w: Ware | w.id != STORE_COIN :: Goods(s', w) == Goods(s, w))
  {
    RunKeeps(states, steps);
    var s, s' := states[0], states[|steps|];
    forall a ensures Ledger(s', a) == Ledger(s, a) - Expired(states, steps, CoinsIn(s.accountOf, a)) {
      RunLedger(states, steps, a);
    }
    forall w: Ware | w.id != STORE_COIN
      ensures Goods(s', w) <= Goods(s, w)
      ensures (forall i | 0 <= i < |steps| :: !Loses(steps[i])) ==> Goods(s', w) == Goods(s, w)
    {
      RunGoods(states, steps, w);
    }
  }

  lemma {:induction false} RunKeeps(states: seq<State>, steps: seq<Step>)
    requires IsRun(states, steps) && Valid(states[0])
    ensures var s, s' := states[0], states[|steps|];
            && Valid(s') && s'.accountOf == s.accountOf && Gold(s') == Gold(s)
            && StoreCoins(s') == StoreCoins(s) - Expired(states, steps, StoreCoinsIn)
    decreases |steps|
  {
    if steps != [] {
      var n := |steps| - 1;
      RunKeeps(states[..n + 1], steps[..n]);
      StepKeepsLaws(states[n], states[n + 1], steps[n]);
    }
  }

  lemma RunLedger(states: seq<State>, steps: seq<Step>, a: AccountId)
    requires IsRun(states, steps) && Valid(states[0])
    ensures Ledger(states[|steps|], a)
            == Ledger(states[0], a) - Expired(states, steps, CoinsIn(states[0].accountOf, a))
  {
    var ledger := (s: State) => Ledger(s, a);
    var weight := CoinsIn(states[0].accountOf, a);
    forall i | 0 <= i < |steps| ensures Falls(states[i], states[i + 1], steps[i], ledger, weight) {
      RunKeeps(states[..i + 1], steps[..i]);
      LedgerExact(states[i], states[i + 1], steps[i], a);
    }
    RunFalls(states, steps, ledger, weight);
  }

  /** A step lowers a figure by what an expired coin offer weighs. */
  ghost predicate Falls(s: State, s': State, step: Step, figure: State -> int, weight: (nat, Offer) -> int) {
    figure(s') == figure(s) - ExpiredIn(s, step, weight)
  }

  /** What every step lowers in this way, a run lowers by the sum. */
  lemma {:induction false} RunFalls(states: seq<State>, steps: seq<Step>, figure: State -> int,
                                    weight: (nat, Offer) -> int)
    requires |states| == |steps| + 1
    requires forall i | 0 <= i < |steps| :: Falls(states[i], states[i + 1], steps[i], figure, weight)
    ensures figure(states[|steps|]) == figure(states[0]) - Expired(states, steps, weight)
    decreases |steps|
  {
    if steps != [] {
      var n := |steps| - 1;
      RunFalls(states[..n + 1], steps[..n], figure, weight);
      assert Falls(states[n], states[n + 1], steps[n], figure, weight);
    }
  }

  lemma {:induction false} RunGoods(states: seq<State>, steps: seq<Step>, w: Ware)
    requires IsRun(states, steps) && Valid(states[0]) && w.id != STORE_COIN
    ensures Goods(states[|steps|], w) <= Goods(states[0], w)
    ensures (forall i | 0 <= i < |steps| :: !Loses(steps[i])) ==> Goods(states[|steps|], w) == Goods(states[0], w)
    decreases |steps|
  {
    if steps != [] {
      var n := |steps| - 1;
      RunGoods(states[..n + 1], steps[..n], w);
      RunKeeps(states[..n + 1], steps[..n]);
      GoodsKept(states[n], states[n + 1], steps[n], w);
    }
  }

  /** Over a run every ledger is kept if and only if no coin offer expires. */
  lemma LedgerRunIff(states: seq<State>, steps: seq<Step>)
    requires IsRun(states, steps) && Valid(states[0])
    ensures (forall a :: Ledger(states[|steps|], a) == Ledger(states[0], a))
            <==> forall i | 0 <= i < |steps| :: !ExpiresCoins(states[i], steps[i])
  {
    MarketRun(states, steps);
    var accountOf := states[0].accountOf;
    if forall i | 0 <= i < |steps| :: !ExpiresCoins(states[i], steps[i]) {
      forall a ensures Expired(states, steps, CoinsIn(accountOf, a)) == 0 {
        NothingExpired(states, steps, CoinsIn(accountOf, a));
      }
    } else {
      var i :| 0 <= i < |steps| && ExpiresCoins(states[i], steps[i]);
      var a := SomethingExpired(states, steps, i);
      assert Ledger(states[|steps|], a) != Ledger(states[0], a);
    }
  }

  /** The owner of an expired coin offer is short of coins. */
  lemma SomethingExpired(states: seq<State>, steps: seq<Step>, i: nat) returns (a: AccountId)
    requires IsRun(states, steps) && Valid(states[0]) && i < |steps| && ExpiresCoins(states[i], steps[i])
    ensures Expired(states, steps, CoinsIn(states[0].accountOf, a)) > 0
  {
    MarketRun(states[..i + 1], steps[..i]);
    var s, o := states[i], states[i].offers[steps[i].id];
    assert Valid(s) && s.accountOf == states[0].accountOf && WellFormed(s, o);
    a := s.accountOf[o.owner];
    ExpiredBounds(states, steps, CoinsIn(s.accountOf, a), i);
  }

  lemma {:induction false} ExpiredBounds(states: seq<State>, steps: seq<Step>, weight: (nat, Offer) -> int, i: nat)
    requires |states| == |steps| + 1 && forall id, o :: weight(id, o) >= 0
    ensures Expired(states, steps, weight) >= 0
    ensures i < |steps| ==> Expired(states, steps, weight) >= ExpiredIn(states[i], steps[i], weight)
    decreases |steps|
  {
    if steps != [] {
      var n := |steps| - 1;
      ExpiredBounds(states[..n + 1], steps[..n], weight, i);
    }
  }

  lemma {:induction false} NothingExpired(states: seq<State>, steps: seq<Step>, weight: (nat, Offer) -> int)
    requires |states| == |steps| + 1 && forall i | 0 <= i < |steps| :: !ExpiresCoins(states[i], steps[i])
    ensures Expired(states, steps, weight) == 0
    decreases |steps|
  {
    if steps != [] {
      var n := |steps| - 1;
      NothingExpired(states[..n + 1], steps[..n], weight);
    }
  }

  /** What one step changes of a ledger. */
  lemma LedgerExact(s: State, s': State, step: Step, a: AccountId)
    requires Valid(s) && Does(s, s', step)
    ensures Ledger(s', a) == Ledger(s, a) - ExpiredIn(s, step, CoinsIn(s.accountOf, a))
  {
    if ExpiresCoins(s, step) {
      TotalDrop(s.offers, step.id, CoinsIn(s.accountOf, a));
    } else {
      LedgerKept(s, s', step, a);
    }
  }

  /** All the laws for one step. */
  lemma StepKeepsLaws(s: State, s': State, step: Step)
    requires Valid(s) && Does(s, s', step)
    ensures Valid(s') && Gold(s') == Gold(s) && s'.accountOf == s.accountOf
    ensures StoreCoins(s') == StoreCoins(s) - ExpiredIn(s, step, StoreCoinsIn)
    ensures forall w: Ware | w.id != STORE_COIN :: Goods(s', w) <= Goods(s, w)
    ensures !Loses(step) ==> forall w: Ware | w.id != STORE_COIN :: Goods(s', w) == Goods(s, w)
  {
    ValidKept(s, s', step);
    GoldKept(s, s', step);
    StoreCoinsKept(s, s', step);
    forall w: Ware | w.id != STORE_COIN
      ensures Goods(s', w) <= Goods(s, w) && (!Loses(step) ==> Goods(s', w) == Goods(s, w))
    {
      GoodsKept(s, s', step, w);
    }
  }
}
