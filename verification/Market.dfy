/**
 The market operations of the game server and the store-coin accounts they use, proved against the
 steps of `MarketState`.
 */
module Market {
  import opened Common
  import opened Sums
  import opened Coins
  import opened MarketState

  datatype AccountError = Ok | NotInitialized | StorageError | RemoveCoinsError

  /** The table of transferable coins and the table of coin transactions. */
  class AccountRepository {
    var coins: map<AccountId, nat>
    var log: seq<CoinTx>
    /** Whether balances can be written. */
    const writable: bool

    constructor (coins: map<AccountId, nat>, writable: bool)
      ensures this.coins == coins && log == [] && this.writable == writable
    {
      this.coins, this.log, this.writable := coins, [], writable;
    }
  }

  /** One player's account object; several objects may stand for the same account id. */
  class Account {
    const id: AccountId
    const repository: AccountRepository
    /** Whether the account's data could be loaded. */
    const loaded: bool

    constructor (id: AccountId, repository: AccountRepository, loaded: bool)
      ensures this.id == id && this.repository == repository && this.loaded == loaded
    {
      this.id, this.repository, this.loaded := id, repository, loaded;
    }

    method GetCoins() returns (coins: nat, result: AccountError)
      ensures result == if !loaded then NotInitialized else if id !in repository.coins then StorageError else Ok
      ensures coins == if result == Ok then repository.coins[id] else 0
    {
      if !loaded {
        return 0, NotInitialized;
      }
      if id !in repository.coins {
        return 0, StorageError;
      }
      return repository.coins[id], Ok;
    }

    /** Coins are added in 32 bits; the transaction is logged only if it has a description. */
    method AddCoins(amount: nat, detail: string) returns (result: AccountError)
      modifies repository
      ensures result == if !loaded then NotInitialized else if amount == 0 then Ok
                        else if id !in old(repository.coins) || !repository.writable then StorageError else Ok
      ensures repository.coins == if result == Ok && amount != 0
                then old(repository.coins)[id := (old(repository.coins)[id] + amount) % U32] else old(repository.coins)
      ensures repository.log == if result == Ok && amount != 0 && detail != ""
                then old(repository.log) + [CoinTx(id, true, amount)] else old(repository.log)
    {
      if !loaded {
        return NotInitialized;
      }
      if amount == 0 {
        return Ok;
      }
      var coins, got := GetCoins();
      if got != Ok {
        return got;
      }
      if !repository.writable {
        return StorageError;
      }
      repository.coins := repository.coins[id := (coins + amount) % U32];
      RegisterCoinTransaction(true, amount, detail);
      return Ok;
    }

    /** Never more than there is: an account short of coins is left alone. */
    method RemoveCoins(amount: nat, detail: string) returns (result: AccountError)
      modifies repository
      ensures result == if !loaded then NotInitialized else if amount == 0 then Ok
                        else if id !in old(repository.coins) then StorageError
                        else if old(repository.coins)[id] < amount then RemoveCoinsError
                        else if !repository.writable then StorageError else Ok
      ensures result == Ok && amount != 0 ==> id in old(repository.coins) && amount <= old(repository.coins)[id]
      ensures repository.coins == if result == Ok && amount != 0
                then old(repository.coins)[id := old(repository.coins)[id] - amount] else old(repository.coins)
      ensures repository.log == if result == Ok && amount != 0 && detail != ""
                then old(repository.log) + [CoinTx(id, false, amount)] else old(repository.log)
    {
      if !loaded {
        return NotInitialized;
      }
      if amount == 0 {
        return Ok;
      }
      var coins, got := GetCoins();
      if got != Ok {
        return got;
      }
      if coins < amount {
        return RemoveCoinsError;
      }
      if !repository.writable {
        return StorageError;
      }
      repository.coins := repository.coins[id := coins - amount];
      RegisterCoinTransaction(false, amount, detail);
      return Ok;
    }

    method RegisterCoinTransaction(add: bool, amount: nat, detail: string)
      modifies repository`log
      ensures repository.log == if loaded && detail != ""
                then old(repository.log) + [CoinTx(id, add, amount)] else old(repository.log)
    {
      if !loaded || detail == "" {
        return;
      }
      repository.log := repository.log + [CoinTx(id, add, amount)];
    }
  }

  /** The stacks left after some were emptied. */
  function NonEmpty(stacks: seq<nat>): (r: seq<nat>)
    ensures SumSeq(r) == SumSeq(stacks)
    ensures forall n <- r :: n > 0
  {
    if stacks == [] then []
    else if stacks[0] == 0 then NonEmpty(stacks[1..])
    else [stacks[0]] + NonEmpty(stacks[1..])
  }

  lemma {:induction false} SumAfter(s: seq<nat>, i: nat, n: nat)
    requires i < |s|
    ensures SumSeq(s[i := n]) == SumSeq(s) - s[i] + n
    ensures s[i] <= SumSeq(s)
  {
    SumNat(s);
    if i != 0 {
      assert s[i := n][1..] == s[1..][i - 1 := n];
      SumAfter(s[1..], i - 1, n);
    } else {
      SumNat(s[1..]);
    }
  }

  lemma {:induction false} SumNat(s: seq<nat>)
    ensures SumSeq(s) >= 0
  {
    if s != [] {
      SumNat(s[1..]);
    }
  }

  /** The usable part of a holding: the stash counts only for tier zero. */
  ghost function Usable(h: Holding, tier: nat): int {
    (if tier == 0 then h.stash else 0) + SumSeq(h.locker)
  }

  /**
   `removeOfferItems`, on one player's holding of the ware: the stash first (tier zero only), then the locker
   stacks in order. `failAt` is the position of the first stack whose removal is refused, if any.
   */
  method RemoveOfferItems(before: Holding, amount: nat, tier: nat, failAt: nat) returns (ok: bool, h: Holding)
    ensures h.inbox == before.inbox && h.stash <= before.stash
    ensures ok ==> Count(h) == Count(before) - amount
    ensures Count(before) - amount <= Count(h) <= Count(before)
    ensures ok ==> amount <= Usable(before, tier)
    ensures failAt >= |before.locker| && amount <= Usable(before, tier) ==> ok
    ensures ok ==> h.stash == if tier != 0 then before.stash
                              else if amount < before.stash then before.stash - amount
                              else 0
  {
    h := before;
    var removeAmount := amount;
    if tier == 0 && h.stash > 0 {
      if removeAmount > h.stash {
        removeAmount := removeAmount - h.stash;
        h := h.(stash := 0);
      } else {
        h := h.(stash := h.stash - removeAmount);
        removeAmount := 0;
      }
    }
    SumNat(h.locker);
    if removeAmount > 0 {
      if h.locker == [] {
        return false, h;
      }
      var done, removed, locker := TakeFromStacks(h.locker, removeAmount, failAt);
      SumNat(locker);
      h := h.(locker := NonEmpty(locker));
      if !done || removed < removeAmount {
        return false, h;
      }
    }
    return true, h;
  }

  /** Taken in order: a stack is touched only when all before it are used up, and no stack grows. */
  ghost predicate InOrder(before: seq<nat>, after: seq<nat>) {
    && |after| == |before|
    && (forall j | 0 <= j < |before| :: after[j] <= before[j])
    && (forall i, j | 0 <= i < j < |before| && after[j] != before[j] :: after[i] == 0)
  }

  /** The loop of `removeOfferItems`. */
  method TakeFromStacks(stacks: seq<nat>, removeAmount: nat, failAt: nat)
    returns (done: bool, removed: nat, locker: seq<nat>)
    ensures removed <= removeAmount && SumSeq(locker) == SumSeq(stacks) - removed && InOrder(stacks, locker)
    ensures done && removed < removeAmount ==> SumSeq(stacks) == removed
    ensures failAt >= |stacks| ==> done
  {
    locker, removed := stacks, 0;
    for i := 0 to |stacks|
      invariant |locker| == |stacks| && forall j | i <= j < |stacks| :: locker[j] == stacks[j]
      invariant removed <= removeAmount && SumSeq(locker) == SumSeq(stacks) - removed
      invariant InOrder(stacks, locker) && (removed < removeAmount ==> forall j | 0 <= j < i :: locker[j] == 0)
      invariant removed < removeAmount ==> SumSeq(locker) == SumSeq(locker[i..])
    {
      if removed >= removeAmount {
        break;
      }
      assert locker[i] == locker[i..][0] && locker[i..][1..] == locker[i + 1..];
      var thisRemove := if removeAmount - removed < locker[i] then removeAmount - removed else locker[i];
      if i == failAt {
        return false, removed, locker;
      }
      SumAfter(locker, i, locker[i] - thisRemove);
      assert locker[i := locker[i] - thisRemove][i + 1..] == locker[i + 1..];
      locker := locker[i := locker[i] - thisRemove];
      removed := removed + thisRemove;
    }
    assert |stacks| == |locker| && locker[|stacks|..] == [];
    return true, removed, locker;
  }

  /** The delivery loops: stacks of at most the stack size, or single items, adding up to the amount. */
  method CreateStacks(amount: nat, t: ItemType) returns (stacks: seq<nat>)
    requires t.stackable ==> t.stackSize > 0
    ensures SumSeq(stacks) == amount
    ensures forall n <- stacks :: 0 < n <= if t.stackable then t.stackSize else 1
  {
    stacks := [];
    if t.stackable {
      var tmpAmount := amount;
      while tmpAmount > 0
        invariant 0 <= tmpAmount <= amount && SumSeq(stacks) == amount - tmpAmount
        invariant forall n <- stacks :: 0 < n <= t.stackSize
      {
        var stackCount := if t.stackSize < tmpAmount then t.stackSize else tmpAmount;
        SumAppend(stacks, [stackCount]);
        stacks := stacks + [stackCount];
        tmpAmount := tmpAmount - stackCount;
      }
    } else {
      for i := 0 to amount
        invariant SumSeq(stacks) == i && forall n <- stacks :: n == 1
      {
        SumAppend(stacks, [1]);
        stacks := stacks + [1];
      }
    }
  }

  /** `Game::removeMoney` on a player, with the contract proved in `Coins.Cylinder.RemoveMoney`. */
  method RemoveMoney(p: Purse, money: nat, useBalance: bool) returns (ok: bool, p': Purse)
    requires money < U64
    ensures ok <==> money == 0 || Covers(p.coins, if useBalance then p.bank else 0, money)
    ensures if ok then Paid(p, p', money) else p' == p
  {
    if money == 0 {
      return true, p;
    }
    var balance := if useBalance then p.bank else 0;
    WrappedTest(p.coins, balance, money);
    if (p.coins % U64 + balance) % U64 < money {
      return false, p;
    }
    if money <= p.coins {
      var fallen: nat :| fallen <= p.coins - money;
      return true, Purse(p.coins - money - fallen, p.dropped + fallen, p.bank);
    }
    return true, Purse(0, p.dropped, p.bank - (money - p.coins));
  }

  /** The price of an offer with its fee, computed in 64 bits: it never wraps within the market's limits. */
  method TotalPrice(price: nat, amount: nat, fee: nat) returns (total: nat)
    requires price <= MAX_PRICE && amount <= MAX_AMOUNT && fee <= 1_000_000
    ensures total == price * amount + fee < U64
  {
    PriceFits(price, amount);
    total := (price * amount % U64 + fee) % U64;
  }

  /** The tables the market works on. */
  datatype Book = Book(
    purses: map<Guid, Purse>,
    offers: map<nat, Offer>,
    nextId: nat,
    goods: map<(Guid, Ware), Holding>,
    burned: nat)

  /** Stash and locker hold that much of the ware. */
  ghost predicate Enough(goods: map<(Guid, Ware), Holding>, g: Guid, w: Ware, amount: nat) {
    (g, w) in goods && amount <= Usable(goods[(g, w)], w.tier)
  }

  /** No removal from the locker is refused. */
  ghost predicate Removable(goods: map<(Guid, Ware), Holding>, g: Guid, w: Ware, failAt: nat) {
    (g, w) in goods ==> failAt >= |goods[(g, w)].locker|
  }

  /** Goods leave a player's stash and locker. */
  method TakeGoods(goods: map<(Guid, Ware), Holding>, g: Guid, w: Ware, amount: nat, failAt: nat)
    returns (ok: bool, goods': map<(Guid, Ware), Holding>)
    ensures ok ==> Enough(goods, g, w, amount)
    ensures Enough(goods, g, w, amount) && Removable(goods, g, w, failAt) ==> ok
    ensures ok ==> Taken(goods, goods', g, w, amount)
    ensures !ok ==> goods' == goods || ((g, w) in goods && (g, w) in goods'
                    && goods' == goods[(g, w) := goods'[(g, w)]] && goods'[(g, w)].inbox == goods[(g, w)].inbox
                    && Count(goods[(g, w)]) - amount <= Count(goods'[(g, w)]) <= Count(goods[(g, w)]))
  {
    if (g, w) !in goods {
      return false, goods;
    }
    var h;
    ok, h := RemoveOfferItems(goods[(g, w)], amount, w.tier, failAt);
    goods' := goods[(g, w) := h];
  }

  /** Goods arrive in a player's inbox, in stacks no larger than the item's stack size. */
  method Delivered(goods: map<(Guid, Ware), Holding>, g: Guid, w: Ware, amount: nat, t: ItemType)
    returns (goods': map<(Guid, Ware), Holding>)
    requires t.stackable ==> t.stackSize > 0
    ensures Arrived(goods, goods', g, w, amount)
    ensures forall n <- goods'[(g, w)].inbox ::
              ((g, w) in goods && n in goods[(g, w)].inbox) || 0 < n <= if t.stackable then t.stackSize else 1
  {
    var stacks := CreateStacks(amount, t);
    var h := if (g, w) in goods then goods[(g, w)] else Holding(0, [], []);
    SumAppend(h.inbox, stacks);
    goods' := goods[(g, w) := h.(inbox := h.inbox + stacks)];
  }

  class Market {
    const repository: AccountRepository
    const types: map<nat, ItemType>
    /** Each player's account object. */
    var accounts: map<Guid, Account>
    var book: Book

    constructor (repository: AccountRepository, types: map<nat, ItemType>)
      ensures this.repository == repository && this.types == types
      ensures accounts == map[] && book == Book(map[], map[], 1, map[], 0)
    {
      this.repository, this.types := repository, types;
      accounts, book := map[], Book(map[], map[], 1, map[], 0);
    }

    ghost function AccountOf(): map<Guid, AccountId>
      reads this`accounts
    {
      map g | g in accounts :: accounts[g].id
    }

    ghost function With(b: Book, coins: map<AccountId, nat>, log: seq<CoinTx>): State
      reads this`accounts
    {
      State(AccountOf(), b.purses, b.offers, b.burned, coins, log, b.goods)
    }

    ghost function View(): State
      reads this, repository
    {
      With(book, repository.coins, repository.log)
    }

    ghost predicate Valid()
      reads this
    {
      && Orderly(book) && repository.writable
      && (forall g <- accounts :: accounts[g].loaded && accounts[g].repository == repository)
      && (forall i <- types :: types[i].stackable ==> types[i].stackSize > 0)
    }

    /** Offer ids are handed out once, and every offer is for a known item type. */
    ghost predicate Orderly(b: Book)
      reads this
    {
      && b.nextId > 0
      && (forall id <- b.offers :: 0 < id < b.nextId && b.offers[id].ware.id in types)
    }

    /** What a player can pay with, added in 64 bits. */
    function Means(g: Guid): nat
      requires g in book.purses
      reads this
    {
      (book.purses[g].coins + book.purses[g].bank) % U64
    }

    lemma MeansExact(g: Guid)
      requires MarketState.Valid(View()) && g in book.purses
      ensures Means(g) == book.purses[g].coins + book.purses[g].bank
    {
      GoldBounds(View(), g);
    }

    /** The checks before an offer is made; `allowed` stands for the rest (in market, premium, offer count, delay). */
    predicate CanInitOffer(g: Guid, itemId: nat, amount: nat, price: nat, allowed: bool)
      reads this
    {
      && g in accounts && g in book.purses && allowed
      && price != 0 && price <= MAX_PRICE
      && itemId != 0 && itemId in types
      && AmountAllowed(types[itemId], amount)
    }

    predicate AmountAllowed(t: ItemType, amount: nat) {
      amount != 0 && amount <= if t.stackable then 64000 else 2000
    }

    /** The limits on an offer: a price and an amount that are not zero and not too high, of a known item. */
    lemma OfferLimits(g: Guid, itemId: nat, amount: nat, price: nat, allowed: bool)
      ensures CanInitOffer(g, itemId, amount, price, allowed)
              <==> && allowed && g in accounts && g in book.purses && itemId != 0 && itemId in types
                   && 1 <= price <= 999_999_999_999 && 1 <= amount
                   && (types[itemId].stackable ==> amount <= 64000) && (!types[itemId].stackable ==> amount <= 2000)
    {
    }

    /** The tables with a new offer, its owner's purse charged and the fee gone. */
    function Listed(b: Book, o: Offer, p: Purse, fee: nat): Book {
      b.(purses := b.purses[o.owner := p], burned := b.burned + fee, offers := b.offers[b.nextId := o],
        nextId := b.nextId + 1)
    }

    // ------------------------------------------------------------ creating

    /** The price and the fee of a buy offer, if the player may make the offer and can pay. */
    method PriceBuyOffer(g: Guid, itemId: nat, amount: nat, price: nat, fee: nat, allowed: bool)
      returns (paid: bool, p: Purse)
      requires MarketState.Valid(View()) && fee <= 1_000_000
      ensures paid <==> CanInitOffer(g, itemId, amount, price, allowed)
                        && price * amount + fee <= book.purses[g].coins + book.purses[g].bank
      ensures paid ==> Paid(book.purses[g], p, price * amount + fee)
    {
      if !CanInitOffer(g, itemId, amount, price, allowed) {
        return false, Purse(0, 0, 0);
      }
      var totalPrice := TotalPrice(price, amount, fee);
      MeansExact(g);
      if totalPrice > Means(g) {
        return false, Purse(0, 0, 0);
      }
      CoversIff(book.purses[g].coins, book.purses[g].bank, totalPrice);
      paid, p := RemoveMoney(book.purses[g], totalPrice, true);
    }

    /** `Game::playerCreateMarketOffer` for a buy offer: the price of the whole offer and the fee are paid at once. */
    method CreateBuyOffer(g: Guid, itemId: nat, tier: nat, amount: nat, price: nat, fee: nat, allowed: bool)
      returns (done: bool)
      requires Valid() && MarketState.Valid(View()) && fee <= 1_000_000
      modifies this`book
      ensures Valid()
      ensures done ==> CreateBuy(old(View()), View(), old(book.nextId),
                                 Offer(g, true, Ware(itemId, tier), amount, price), fee)
      ensures !done ==> View() == old(View())
      ensures done <==> old(CanInitOffer(g, itemId, amount, price, allowed))
                        && price * amount + fee <= old(book.purses[g].coins + book.purses[g].bank)
    {
      var p;
      done, p := PriceBuyOffer(g, itemId, amount, price, fee, allowed);
      if done {
        book := Listed(book, Offer(g, true, Ware(itemId, tier), amount, price), p, fee);
      }
    }

    /** The checks and the fee of a sell offer. */
    method PriceSellOffer(g: Guid, itemId: nat, amount: nat, price: nat, fee: nat, allowed: bool)
      returns (paid: bool, p: Purse)
      requires MarketState.Valid(View()) && fee <= 1_000_000
      ensures paid <==> CanInitOffer(g, itemId, amount, price, allowed)
                        && fee <= book.purses[g].coins + book.purses[g].bank
      ensures paid ==> Paid(book.purses[g], p, fee)
    {
      if !CanInitOffer(g, itemId, amount, price, allowed) {
        return false, Purse(0, 0, 0);
      }
      MeansExact(g);
      if fee > Means(g) {
        return false, Purse(0, 0, 0);
      }
      CoversIff(book.purses[g].coins, book.purses[g].bank, fee);
      paid, p := RemoveMoney(book.purses[g], fee, true);
      NothingPaid(book.purses[g]);
    }

    /** The checks of a sell offer of store coins: fee, and enough transferable coins on the account. */
    method PriceCoinOffer(g: Guid, amount: nat, price: nat, fee: nat, allowed: bool) returns (paid: bool, p: Purse)
      requires Valid() && MarketState.Valid(View()) && fee <= 1_000_000
      ensures paid <==> CanInitOffer(g, STORE_COIN, amount, price, allowed)
                        && fee <= book.purses[g].coins + book.purses[g].bank
                        && amount <= repository.coins[accounts[g].id]
      ensures paid ==> Paid(book.purses[g], p, fee)
    {
      paid, p := PriceSellOffer(g, STORE_COIN, amount, price, fee, allowed);
      if paid {
        assert accounts[g].id == View().accountOf[g];
        var transferable, result := accounts[g].GetCoins();
        paid := amount <= transferable;
      }
    }

    /**
     `Game::playerCreateMarketOffer` for a sell offer of store coins: the coins leave the account without a
     transaction being logged, then the fee is paid.
     */
    method CreateCoinOffer(g: Guid, tier: nat, amount: nat, price: nat, fee: nat, allowed: bool) returns (done: bool)
      requires Valid() && MarketState.Valid(View()) && fee <= 1_000_000
      modifies this`book, repository
      ensures Valid()
      ensures done ==> CreateSell(old(View()), View(), old(book.nextId),
                                  Offer(g, false, Ware(STORE_COIN, tier), amount, price), fee)
      ensures !done ==> View() == old(View())
      ensures done <==> old(CanInitOffer(g, STORE_COIN, amount, price, allowed)
                            && fee <= book.purses[g].coins + book.purses[g].bank
                            && amount <= repository.coins[accounts[g].id])
    {
      var p;
      done, p := PriceCoinOffer(g, amount, price, fee, allowed);
      if done {
        ListCoins(Offer(g, false, Ware(STORE_COIN, tier), amount, price), p, fee);
      }
    }

    /** The second half of a sell offer of store coins: take the coins, charge the fee, list the offer. */
    method ListCoins(o: Offer, p: Purse, fee: nat)
      requires Valid() && WellFormed(View(), o) && !o.buy && o.ware.id in types && o.ware.id == STORE_COIN
      requires o.owner in accounts && Paid(book.purses[o.owner], p, fee)
      requires accounts[o.owner].id in repository.coins && o.amount <= repository.coins[accounts[o.owner].id]
      modifies this`book, repository
      ensures Valid()
      ensures CreateSell(old(View()), View(), old(book.nextId), o, fee)
    {
      ghost var s := View();
      var removed := accounts[o.owner].RemoveCoins(o.amount, "");
      book := Listed(book, o, p, fee);
      CoinsListed(s, View(), s.accountOf[o.owner], book.nextId - 1, o, p, fee);
    }

    /**
     `Game::playerCreateMarketOffer` for a sell offer of items: stash and locker are emptied first, and only
     then is the fee paid. A failed removal ends the attempt; what was removed by then is lost.
     */
    method CreateItemOffer(g: Guid, itemId: nat, tier: nat, amount: nat, price: nat, fee: nat, allowed: bool,
                           failAt: nat)
      returns (done: bool, ware: Ware)
      requires Valid() && MarketState.Valid(View()) && fee <= 1_000_000 && itemId != STORE_COIN
      modifies this`book
      ensures Valid()
      ensures ware == Ware(itemId, if old(Stashed(g, itemId)) then 0 else tier)
      ensures done ==> CreateSell(old(View()), View(), old(book.nextId), Offer(g, false, ware, amount, price), fee)
      ensures !done ==> View() == old(View()) || Lost(old(View()), View(), g, ware, amount)
      ensures done ==> old(CanInitOffer(g, itemId, amount, price, allowed)
                           && fee <= book.purses[g].coins + book.purses[g].bank)
                       && Enough(old(book.goods), g, ware, amount)
      ensures (old(CanInitOffer(g, itemId, amount, price, allowed) && fee <= book.purses[g].coins + book.purses[g].bank)
               && Enough(old(book.goods), g, ware, amount) && Removable(old(book.goods), g, ware, failAt)) ==> done
    {
      ware := Ware(itemId, if Stashed(g, itemId) then 0 else tier);
      var p;
      done, p := PriceSellOffer(g, itemId, amount, price, fee, allowed);
      if done {
        done := ListGoods(Offer(g, false, ware, amount, price), p, fee, failAt);
      }
    }

    /** The second half of a sell offer of items: take the goods, charge the fee, list the offer. */
    method ListGoods(o: Offer, p: Purse, fee: nat, failAt: nat) returns (done: bool)
      requires Valid() && WellFormed(View(), o) && !o.buy && o.ware.id in types && o.ware.id != STORE_COIN
      requires o.owner in accounts && Paid(book.purses[o.owner], p, fee)
      modifies this`book
      ensures Valid()
      ensures done ==> CreateSell(old(View()), View(), old(book.nextId), o, fee)
      ensures !done ==> View() == old(View()) || Lost(old(View()), View(), o.owner, o.ware, o.amount)
      ensures done ==> old(Enough(book.goods, o.owner, o.ware, o.amount))
      ensures old(Enough(book.goods, o.owner, o.ware, o.amount) && Removable(book.goods, o.owner, o.ware, failAt)) ==>
              done
    {
      ghost var s := View();
      done := GiveGoods(o.owner, o.ware, o.amount, failAt);
      if done {
        book := Listed(book, o, p, fee);
        GoodsListed(s, View(), book.nextId - 1, o, p, fee);
      }
    }

    /** `removeOfferItems` on the player's own stash and locker. */
    method GiveGoods(g: Guid, w: Ware, amount: nat, failAt: nat) returns (ok: bool)
      modifies this`book
      ensures book == old(book).(goods := book.goods)
      ensures ok ==> old(Enough(book.goods, g, w, amount))
      ensures old(Enough(book.goods, g, w, amount) && Removable(book.goods, g, w, failAt)) ==> ok
      ensures ok ==> Taken(old(book.goods), book.goods, g, w, amount)
      ensures !ok ==> View() == old(View()) || Lost(old(View()), View(), g, w, amount)
    {
      var goods;
      ok, goods := TakeGoods(book.goods, g, w, amount, failAt);
      book := book.(goods := goods);
    }

    // ------------------------------------------------------------ cancelling

    /** A deposit: `setBankBalance(getBankBalance() + money)` in 64 bits. */
    function Deposit(p: Purse, money: nat): (p': Purse)
      ensures p.bank + money < U64 ==> p' == Credit(p, money)
    {
      p.(bank := (p.bank + money) % U64)
    }

    /** `Game::playerCancelMarketOffer`: everything the offer still holds goes back to its owner. */
    method CancelOffer(g: Guid, id: nat, allowed: bool) returns (done: bool)
      requires Valid() && MarketState.Valid(View())
      modifies this`book, repository
      ensures Valid()
      ensures done <==> allowed && g in old(accounts) && id in old(book.offers) && old(book.offers)[id].owner == g
      ensures if done then CancelBuy(old(View()), View(), id) || CancelSell(old(View()), View(), id)
              else View() == old(View())
    {
      if !allowed || g !in accounts || id !in book.offers || book.offers[id].owner != g {
        return false;
      }
      CancelFits(g, id);
      if book.offers[id].buy {
        RefundGold(id);
      } else if book.offers[id].ware.id == STORE_COIN {
        ReturnCoins(id);
      } else {
        ReturnGoods(id);
      }
      return true;
    }

    lemma CancelFits(g: Guid, id: nat)
      requires Valid() && MarketState.Valid(View()) && g in accounts && id in book.offers && book.offers[id].owner == g
      ensures g in book.purses && accounts[g].id in repository.coins
      ensures book.offers[id].buy ==> book.purses[g].bank + book.offers[id].price * book.offers[id].amount < U64
      ensures !book.offers[id].buy && book.offers[id].ware.id == STORE_COIN ==>
                repository.coins[accounts[g].id] + book.offers[id].amount < U32
    {
      var s := View();
      assert WellFormed(s, s.offers[id]) && s.accountOf[g] == accounts[g].id;
      if s.offers[id].buy {
        EscrowFits(s, g, id, s.offers[id].amount);
      } else if s.offers[id].ware.id == STORE_COIN {
        CoinsFit(s, s.accountOf[g], id, s.offers[id].amount);
      }
    }

    method RefundGold(id: nat)
      requires Valid() && id in book.offers && book.offers[id].buy && book.offers[id].owner in book.purses
      requires book.purses[book.offers[id].owner].bank + book.offers[id].price * book.offers[id].amount < U64
      modifies this`book
      ensures Valid() && CancelBuy(old(View()), View(), id)
    {
      var o := book.offers[id];
      var p := Deposit(book.purses[o.owner], o.price * o.amount % U64);
      book := book.(purses := book.purses[o.owner := p], offers := book.offers - {id});
    }

    method ReturnCoins(id: nat)
      requires Valid() && id in book.offers && !book.offers[id].buy && book.offers[id].ware.id == STORE_COIN
      requires book.offers[id].owner in accounts && accounts[book.offers[id].owner].id in repository.coins
      requires repository.coins[accounts[book.offers[id].owner].id] + book.offers[id].amount < U32
      modifies this`book, repository
      ensures Valid() && CancelSell(old(View()), View(), id)
    {
      var o := book.offers[id];
      ghost var s := View();
      assert s.accountOf[o.owner] == accounts[o.owner].id;
      var added := accounts[o.owner].AddCoins(o.amount, "");
      book := book.(offers := book.offers - {id});
      assert View().coins == s.coins[s.accountOf[o.owner] := s.coins[s.accountOf[o.owner]] + o.amount];
    }

    method ReturnGoods(id: nat)
      requires Valid() && id in book.offers && !book.offers[id].buy
      requires book.offers[id].owner in accounts
      modifies this`book
      ensures Valid()
      ensures Arrived(old(book.goods), book.goods, old(book.offers)[id].owner, old(book.offers)[id].ware,
              old(book.offers)[id].amount)
      ensures View() == old(View()).(offers := old(book.offers) - {id}, goods := book.goods)
      ensures old(book.offers)[id].ware.id != STORE_COIN ==> CancelSell(old(View()), View(), id)
      ensures Expire(old(View()), View(), id)
    {
      var o := book.offers[id];
      var goods := Delivered(book.goods, o.owner, o.ware, o.amount, types[o.ware.id]);
      book := book.(goods := goods, offers := book.offers - {id});
    }

    /** `IOMarket::processExpiredOffers`: like a cancellation, except that store coins come back as items. */
    method ExpireOffer(id: nat) returns (done: bool)
      requires Valid() && MarketState.Valid(View())
      modifies this`book
      ensures Valid() && (done <==> id in old(book.offers) && old(book.offers)[id].owner in old(accounts))
      ensures if done then Expire(old(View()), View(), id) else View() == old(View())
    {
      if id !in book.offers || book.offers[id].owner !in accounts {
        return false;
      }
      CancelFits(book.offers[id].owner, id);
      if book.offers[id].buy {
        RefundGold(id);
      } else {
        ReturnGoods(id);
      }
      return true;
    }

    // ------------------------------------------------------------ accepting

    /** The checks of `Game::playerAcceptMarketOffer` that both kinds of offer share. */
    predicate CanAccept(g: Guid, id: nat, n: nat, allowed: bool)
      reads this
    {
      && allowed && g in accounts && g in book.purses && id in book.offers
      && var o := book.offers[id];
         && o.ware.id in types && AmountAllowed(types[o.ware.id], n) && n <= o.amount
         && o.owner in accounts && o.owner in book.purses
         && g != o.owner && accounts[g] != accounts[o.owner]
    }

    /** An offer may be accepted by anybody but its owner, on another account, up to what it holds and the limits. */
    lemma SaleLimits(g: Guid, id: nat, n: nat, allowed: bool)
      ensures CanAccept(g, id, n, allowed)
              <==> && allowed && g in accounts && g in book.purses && id in book.offers
                   && book.offers[id].ware.id in types && book.offers[id].owner in accounts
                   && book.offers[id].owner in book.purses && book.offers[id].owner != g
                   && accounts[book.offers[id].owner] != accounts[g] && 1 <= n <= book.offers[id].amount
                   && (types[book.offers[id].ware.id].stackable ==> n <= 64000)
                   && (!types[book.offers[id].ware.id].stackable ==> n <= 2000)
    {
    }

    /** What the checks and the invariant give for a sale to offer `id`: nothing the sale adds up can wrap. */
    lemma AcceptFits(g: Guid, id: nat, n: nat, allowed: bool)
      requires Valid() && MarketState.Valid(View()) && CanAccept(g, id, n, allowed)
      ensures var o := book.offers[id]; var a, b := accounts[g].id, accounts[o.owner].id;
              && a in repository.coins && b in repository.coins && repository.coins[a] < U32
              && o.price * n < U64
              && (o.buy ==> book.purses[g].bank + o.price * n < U64)
              && book.purses[g].coins + book.purses[g].bank + book.purses[o.owner].bank < U64
              && (n <= repository.coins[a] && a != b ==> repository.coins[b] + n < U32)
              && (!o.buy && o.ware.id == STORE_COIN ==> repository.coins[a] + n < U32)
    {
      var s := View();
      var o := s.offers[id];
      var a, b := accounts[g].id, accounts[o.owner].id;
      assert WellFormed(s, o) && s.accountOf[g] == a && s.accountOf[o.owner] == b;
      PriceFits(o.price, n);
      AccountFits(s, a);
      PaymentFits(s, g, o.owner);
      if o.buy {
        EscrowFits(s, g, id, n);
      } else if o.ware.id == STORE_COIN {
        CoinsFit(s, a, id, n);
      }
      if n <= s.coins[a] && a != b {
        TransferFits(s, a, b, n);
      }
    }

    /** Besides the checks, the player has the coins, the goods or the gold the sale takes. */
    ghost predicate Affords(g: Guid, id: nat, n: nat, allowed: bool)
      reads this, repository
    {
      && CanAccept(g, id, n, allowed)
      && var o := book.offers[id];
         if !o.buy then o.price * n <= book.purses[g].coins + book.purses[g].bank
         else if o.ware.id == STORE_COIN then
           accounts[g].id in repository.coins && n <= repository.coins[accounts[g].id]
         else Enough(book.goods, g, o.ware, n)
    }

    /**
     `Game::playerAcceptMarketOffer`. Accepting a buy offer sells to its owner; accepting a sell offer buys
     from it. A failed removal of the seller's items ends the sale, and what was removed by then is lost.
     */
    method AcceptOffer(g: Guid, id: nat, n: nat, allowed: bool, failAt: nat) returns (done: bool)
      requires Valid() && MarketState.Valid(View())
      modifies this`book, repository
      ensures Valid()
      ensures done ==> old(Affords(g, id, n, allowed))
      ensures old(Affords(g, id, n, allowed)
                  && (book.offers[id].buy ==> Removable(book.goods, g, book.offers[id].ware, failAt)))
              ==> done
      ensures done ==> old(CanAccept(g, id, n, allowed))
                       && (AcceptBuy(old(View()), View(), g, id, n) || AcceptSell(old(View()), View(), g, id, n))
      ensures !done ==> View() == old(View())
                        || (old(CanAccept(g, id, n, allowed))
                           && Lost(old(View()), View(), g, old(book.offers)[id].ware, n))
    {
      if !CanAccept(g, id, n, allowed) {
        return false;
      }
      AcceptFits(g, id, n, allowed);
      var o := book.offers[id];
      if o.buy {
        if o.ware.id == STORE_COIN {
          done := SellCoins(g, id, n);
        } else {
          done := SellGoods(g, id, n, failAt);
        }
      } else {
        done := Buy(g, id, n);
      }
    }

    /** Store coins for a buy offer, if the seller's account has enough of them. */
    method SellCoins(g: Guid, id: nat, n: nat) returns (done: bool)
      requires Valid() && CanAccept(g, id, n, true)
      requires var o := book.offers[id]; var a, b := accounts[g].id, accounts[o.owner].id;
               && o.buy && o.ware.id == STORE_COIN && a in repository.coins && b in repository.coins
               && book.purses[g].bank + o.price * n < U64
               && (n <= repository.coins[a] && a != b ==> repository.coins[b] + n < U32)
      requires repository.coins[accounts[g].id] < U32
      modifies this`book, repository
      ensures Valid() && (done <==> n <= old(repository.coins[accounts[g].id]))
      ensures if done then AcceptBuy(old(View()), View(), g, id, n) else View() == old(View())
    {
      var transferable, got := accounts[g].GetCoins();
      done := n <= transferable;
      if done {
        MoveCoins(g, id, n);
      }
    }

    /** Store coins for a buy offer: removed from the seller, credited to the buyer, both logged. */
    method MoveCoins(g: Guid, id: nat, n: nat)
      requires Valid() && CanAccept(g, id, n, true)
      requires var o := book.offers[id]; var a, b := accounts[g].id, accounts[o.owner].id;
               && o.buy && o.ware.id == STORE_COIN && a in repository.coins && b in repository.coins
               && book.purses[g].bank + o.price * n < U64
               && n <= repository.coins[a] < U32 && (a != b ==> repository.coins[b] + n < U32)
      modifies this`book, repository
      ensures Valid() && AcceptBuy(old(View()), View(), g, id, n)
    {
      var o := book.offers[id];
      ghost var s := View();
      assert s.accountOf[g] == accounts[g].id && s.accountOf[o.owner] == accounts[o.owner].id;
      TransferCoins(accounts[g], accounts[o.owner], n);
      var p := Deposit(book.purses[g], o.price * n % U64);
      book := book.(purses := book.purses[g := p], offers := Rest(book.offers, id, n));
      CoinsSold(s, View(), g, id, n);
    }

    /** The two account calls of such a sale. */
    method TransferCoins(from: Account, to: Account, n: nat)
      requires from.loaded && to.loaded && from.repository == repository == to.repository && repository.writable
      requires from.id in repository.coins && to.id in repository.coins && 0 < n <= repository.coins[from.id] < U32
      requires from.id != to.id ==> repository.coins[to.id] + n < U32
      modifies repository
      ensures var coins := old(repository.coins)[from.id := old(repository.coins)[from.id] - n];
              repository.coins == coins[to.id := coins[to.id] + n]
      ensures repository.log == old(repository.log) + [CoinTx(from.id, false, n)] + [CoinTx(to.id, true, n)]
    {
      var removed := from.RemoveCoins(n, "Sold on Market");
      var added := to.AddCoins(n, "Purchased on Market");
    }

    /** Items for a buy offer: taken from the seller's stash and locker, delivered to the buyer's inbox. */
    method SellGoods(g: Guid, id: nat, n: nat, failAt: nat) returns (done: bool)
      requires Valid() && CanAccept(g, id, n, true)
      requires var o := book.offers[id]; o.buy && o.ware.id != STORE_COIN && book.purses[g].bank + o.price * n < U64
      modifies this`book
      ensures Valid()
      ensures done ==> old(Enough(book.goods, g, book.offers[id].ware, n))
      ensures old(Enough(book.goods, g, book.offers[id].ware, n)
                  && Removable(book.goods, g, book.offers[id].ware, failAt))
              ==> done
      ensures done ==> AcceptBuy(old(View()), View(), g, id, n)
      ensures !done ==> View() == old(View()) || Lost(old(View()), View(), g, old(book.offers)[id].ware, n)
    {
      var o := book.offers[id];
      ghost var s := View();
      done := GiveGoods(g, o.ware, n, failAt);
      if done {
        ghost var taken := book.goods;
        var p := Deposit(book.purses[g], o.price * n % U64);
        var goods := Delivered(book.goods, o.owner, o.ware, n, types[o.ware.id]);
        book := book.(purses := book.purses[g := p], offers := Rest(book.offers, id, n), goods := goods);
        assert Taken(s.goods, taken, g, o.ware, n) && Arrived(taken, goods, o.owner, o.ware, n);
      }
    }

    /** Payment for a sell offer: the bank first, then coins for the rest. */
    method PayBankFirst(p: Purse, total: nat) returns (paid: bool, p': Purse)
      requires p.coins + p.bank < U64
      ensures paid <==> total <= p.coins + p.bank
      ensures paid ==> PaidBankFirst(p, p', total)
    {
      if total > (p.bank + p.coins) % U64 {
        return false, p;
      }
      if total <= p.bank {
        return true, p.(bank := p.bank - total);
      }
      var ok;
      CoversIff(p.coins, 0, total - p.bank);
      ok, p' := RemoveMoney(p.(bank := 0), total - p.bank, false);
      return true, p';
    }

    /** The buying side of a sell offer; the seller's coins left the account when the offer was made. */
    method Buy(g: Guid, id: nat, n: nat) returns (done: bool)
      requires Valid() && CanAccept(g, id, n, true)
      requires var o := book.offers[id];
               && !o.buy && o.price * n < U64 && accounts[g].id in repository.coins
               && book.purses[g].coins + book.purses[g].bank + book.purses[o.owner].bank < U64
               && (o.ware.id == STORE_COIN ==> repository.coins[accounts[g].id] + n < U32)
      modifies this`book, repository
      ensures Valid() && (done <==> old(book.offers[id].price * n <= book.purses[g].coins + book.purses[g].bank))
      ensures if done then AcceptSell(old(View()), View(), g, id, n) else View() == old(View())
    {
      var o := book.offers[id];
      var p;
      done, p := PayBankFirst(book.purses[g], o.price * n % U64);
      if done {
        if o.ware.id == STORE_COIN {
          BuyCoins(g, id, n, p);
        } else {
          BuyGoods(g, id, n, p);
        }
      }
    }

    method BuyCoins(g: Guid, id: nat, n: nat, p: Purse)
      requires Valid() && CanAccept(g, id, n, true)
      requires var o := book.offers[id];
               && !o.buy && o.ware.id == STORE_COIN && PaidBankFirst(book.purses[g], p, o.price * n)
               && book.purses[o.owner].bank + o.price * n < U64
               && accounts[g].id in repository.coins && repository.coins[accounts[g].id] + n < U32
      modifies this`book, repository
      ensures Valid() && AcceptSell(old(View()), View(), g, id, n)
    {
      var o := book.offers[id];
      ghost var s := View();
      assert s.accountOf[g] == accounts[g].id && s.accountOf[o.owner] == accounts[o.owner].id;
      var added := accounts[g].AddCoins(n, "Purchased on Market");
      var q := Deposit(book.purses[o.owner], o.price * n % U64);
      accounts[o.owner].RegisterCoinTransaction(false, n, "Sold on Market");
      book := book.(purses := book.purses[g := p][o.owner := q], offers := Rest(book.offers, id, n));
      CoinsBought(s, View(), g, id, n, p);
    }

    method BuyGoods(g: Guid, id: nat, n: nat, p: Purse)
      requires Valid() && CanAccept(g, id, n, true)
      requires var o := book.offers[id];
               && !o.buy && o.ware.id != STORE_COIN && PaidBankFirst(book.purses[g], p, o.price * n)
               && book.purses[o.owner].bank + o.price * n < U64
      modifies this`book
      ensures Valid() && AcceptSell(old(View()), View(), g, id, n)
    {
      var o := book.offers[id];
      var goods := Delivered(book.goods, g, o.ware, n, types[o.ware.id]);
      var q := Deposit(book.purses[o.owner], o.price * n % U64);
      book := book.(purses := book.purses[g := p][o.owner := q], offers := Rest(book.offers, id, n), goods := goods);
    }

    /** Whether the player has any of the item in the stash, which forces tier zero. */
    predicate Stashed(g: Guid, itemId: nat)
      reads this
    {
      (g, Ware(itemId, 0)) in book.goods && book.goods[(g, Ware(itemId, 0))].stash > 0
    }
  }

  lemma CoinsSold(s: State, s': State, g: Guid, id: nat, n: nat)
    requires id in s.offers && s.offers[id].buy && 0 < n <= s.offers[id].amount && s.offers[id].ware.id == STORE_COIN
    requires g != s.offers[id].owner && g in s.purses && g in s.accountOf && s.offers[id].owner in s.accountOf
    requires s.accountOf[g] in s.coins && s.accountOf[s.offers[id].owner] in s.coins && n <= s.coins[s.accountOf[g]]
    requires s'.accountOf == s.accountOf && s'.goods == s.goods && s'.burned == s.burned
    requires s'.purses == s.purses[g := Credit(s.purses[g], s.offers[id].price * n)]
    requires s'.offers == Rest(s.offers, id, n)
    requires var a, b := s.accountOf[g], s.accountOf[s.offers[id].owner];
             var coins := s.coins[a := s.coins[a] - n];
             s'.coins == coins[b := coins[b] + n] && s'.log == s.log + [CoinTx(a, false, n)] + [CoinTx(b, true, n)]
    ensures AcceptBuy(s, s', g, id, n)
  {
  }

  lemma CoinsBought(s: State, s': State, g: Guid, id: nat, n: nat, p: Purse)
    requires id in s.offers && !s.offers[id].buy && 0 < n <= s.offers[id].amount && s.offers[id].ware.id == STORE_COIN
    requires g != s.offers[id].owner && g in s.purses && g in s.accountOf && s.offers[id].owner in s.accountOf
    requires s.offers[id].owner in s.purses && s.accountOf[g] in s.coins
    requires PaidBankFirst(s.purses[g], p, s.offers[id].price * n)
    requires s'.accountOf == s.accountOf && s'.goods == s.goods && s'.burned == s.burned
    requires var o := s.offers[id];
             s'.purses == s.purses[g := p][o.owner := Credit(s.purses[o.owner], o.price * n)]
               && s'.offers == Rest(s.offers, id, n)
    requires var a, b := s.accountOf[g], s.accountOf[s.offers[id].owner];
             s'.coins == s.coins[a := s.coins[a] + n] && s'.log == s.log + [CoinTx(a, true, n)] + [CoinTx(b, false, n)]
    ensures AcceptSell(s, s', g, id, n)
  {
  }

  lemma CoinsListed(s: State, s': State, a: AccountId, id: nat, o: Offer, p: Purse, fee: nat)
    requires WellFormed(s, o) && !o.buy && o.ware.id == STORE_COIN && id !in s.offers && o.owner in s.accountOf
    requires a == s.accountOf[o.owner] && a in s.coins && o.amount <= s.coins[a]
    requires Paid(s.purses[o.owner], p, fee)
    requires s'.accountOf == s.accountOf && s'.goods == s.goods && s'.log == s.log && s'.burned == s.burned + fee
    requires s'.purses == s.purses[o.owner := p] && s'.offers == s.offers[id := o]
    requires s'.coins == s.coins[a := s.coins[a] - o.amount]
    ensures CreateSell(s, s', id, o, fee)
  {
  }

  lemma GoodsListed(s: State, s': State, id: nat, o: Offer, p: Purse, fee: nat)
    requires WellFormed(s, o) && !o.buy && o.ware.id != STORE_COIN && id !in s.offers && o.owner in s.accountOf
    requires Taken(s.goods, s'.goods, o.owner, o.ware, o.amount)
    requires Paid(s.purses[o.owner], p, fee)
    requires s'.accountOf == s.accountOf && s'.coins == s.coins && s'.log == s.log && s'.burned == s.burned + fee
    requires s'.purses == s.purses[o.owner := p] && s'.offers == s.offers[id := o]
    ensures CreateSell(s, s', id, o, fee)
  {
  }

  lemma NothingPaid(p: Purse)
    ensures Paid(p, p, 0)
  {
  }
}
