# Ownership and accounting in the game server

A Dafny model of the parts of the server that have to keep a quantity or a linked structure exact over every
run, with proofs of the laws they are written for. `dafny verify dfyconfig.toml` checks all of it.

| module | models |
|---|---|
| `Coins` | paying with and receiving coins: the search through nested containers, change, and the bank |
| `MarketState`, `Market` | the market as a state machine with its laws, and the functions that implement its steps |
| `MarketParties` | who gains and who loses by each step of the market |
| `HouseState`, `Houses` | house auctions and transfers, in the same way |
| `HouseParties` | whose money houses hold, and who wins an auction |
| `Containers` | nested containers and the depth-limited iterator over them |
| `Trade` | trading between players: request, start, accept, close |
| `Creatures` | masters, summons, and the removal cascade |
| `Scheduler` | the ten lists of creatures that think in turn |
| `Batches` | cutting many rows into queries of bounded size |
| `Moving` | moving, merging, splitting and swapping items |
| `Experience` | sharing experience by damage |
| `Highscores` | the cache of highscore queries |
| `Loot` | finding a container for looted items |
| `ScriptEvents` | the list of script events and its bit field |
| `Common` | integer widths and notions shared by several components |
| `Sums` | finite sums, the arithmetic of the conservation laws |

Objects the server updates in place are classes here (players at a trade, creatures, coins and containers,
iterators, the market, the house office, the scheduler, the insert statement); records that are only copied are
datatypes. Where a law spans several functions, the functions are proved to take steps of a state machine over
values, and the law is proved of all runs of that machine. Whatever comes from outside (events that may veto,
random list numbers, the outcome of queries and moves, what a creature does while it thinks) is an arbitrary
parameter, so the laws hold for all of it. Unsigned arithmetic of fixed width is written out where it can wrap.

Some properties that the code suggests are not true of it in general. The model keeps the code as it is, and the
condition under which each holds is proved:

- The coin ledger of an account breaks when a sell offer of store coins expires, because the stock comes back as
  items (`MarketState.LedgerKeptIff`, `MarketState.LedgerRunIff`, `MarketState.ExpiryBreaksLedger`).
- House money is kept by a step exactly under a condition on the state before it (`HouseState.MoneyKeptIff`).
  Three things break it. Accepting a transfer offered under a name in different letter case refunds money nobody
  paid (`HouseState.SpellingCreatesMoney`). Nothing makes a bid depend on the stage of the house: neither does
  `Player::canBidHouse` look at it, nor is its answer acted upon. So an owner can offer a house that carries a
  bid, and nobody is refunded (`HouseState.OfferOverBidLosesMoney`), and a bid on an accepted transfer refunds an
  old limit instead of the price (`HouseState.BidOnTransferChangesMoney`).
- The test for overlapping trade offers sees only as deep as containers are searched. With a search a hundred
  levels deep or deeper (the default is 200) offers are disjoint all the same, because of the hundred-item test
  (`Trade.TradeDesk.OffersAreDisjoint`). Below a hundred they always are if and only if nothing hides
  (`Trade.DisjointIffNothingHides`, `Trade.DeepChain`, `Trade.OfferHidden`).
- `removeCreature` stops at creatures already removed or without a tile (`Creatures.RemoveCreature`), so the
  unconditional form needs both excluded (`Creatures.AllSummonedRemoved`).
- A row that contains the text between two rows can be cut apart (`Batches.WholeRowsIffPlain`,
  `Batches.SplitInsert`), and the last row of an insert needs one character more than the others
  (`Batches.PlainCut`).
- An item moved to an index at or beyond the capacity of a container is lost, unless it is merged completely
  (`Moving.MoveItem`, `Moving.MoveInto`). Only containers with pages, as depot chests, let such an index through
  (`Moving.BeyondCapacity`, `Moving.MoveBeyondCapacity`), or containers that hold more than their capacity.
- Experience handed out can exceed what was lost when the damage of all attackers wraps in 32 bits
  (`Experience.NeverMoreIff`, `Experience.OverflowMakesExperience`).
- `addMoney` loses whole multiples of 10000 * 2^32 (`Coins.Cylinder.AddMoney`).

## Model

| member | source | states |
|---|---|---|
| `Coins.Cylinder.RemoveMoney` | src/game/game.cpp:2698-2798 | Succeeds if and only if the amount is zero or coins at any depth plus usable balance, added in 64 bits, reach it. On success inventory, ground and bank together lose exactly the amount, coins first and the bank only for the rest. Only coins are used; before any coin of a stack is, all stacks worth more are used up; at most one stack is used in part; and the change is given in the fewest coins, for less than one crystal coin. On failure nothing changes; everything that is not money stays in place. |
| `Coins.Cylinder.Search` | src/game/game.cpp:2708-2754 | The worklist over slots and nested containers lists every coin carried exactly once, at any depth, with its worth. |
| `Coins.Cylinder.AllReached` | src/game/game.cpp:2739-2754 | When every container found has been searched, everything in the forest has been found; each item is found exactly when its container was searched. |
| `Coins.Cylinder.Gather` | src/game/game.cpp:2715-2754 | The list's worths add up to all coins carried, although the source keeps the sum in 64 bits. |
| `Coins.TotalIsSum` | src/game/game.cpp:2715-2754 | A list that names every coin once with its worth adds up to the worth of the whole forest. |
| `Coins.SortDescending` | src/game/game.cpp:2766-2769 | The list is sorted by worth, largest first, and is a permutation of what it was. |
| `Coins.UsedFromStart` | src/game/game.cpp:2766-2790 | When a list sorted by worth is used from its start, all but the last used entry as a whole, then no coin of a stack is used before every stack worth more is gone, and at most one stack is used in part. |
| `Coins.BrokenIsUsed` | src/game/game.cpp:2780-2785 | Breaking a stack uses only that stack: the change, worth less than one of its coins, touches neither it nor anything that is not money. |
| `Coins.Cylinder.Spend` | src/game/game.cpp:2771-2790 | Coins worth the amount are used up, or all of them and the rest is reported; overpaid coins come back exactly. |
| `Coins.Cylinder.Break` | src/game/game.cpp:2780-2785 | Breaking a stack takes whole coins and pays change in smaller ones: worth carried and dropped falls by exactly what was asked, and no other stack is disturbed. |
| `Coins.Cylinder.Broken` | src/game/game.cpp:2781-2783 | How many coins to take off a stack: enough for the amount, no more than there are, and the change is below the worth of one of them, so it never reaches the stack being charged. |
| `Coins.Cylinder.Pay` | src/game/game.cpp:2766-2795 | Once there is enough: all coins are used before the bank, and exactly the amount is gone. |
| `Coins.RoundUp` | src/game/game.cpp:2781-2783 | The number of coins broken is within the stack and the change is below the worth of one of them. |
| `Coins.Cylinder.RemoveThing` | src/items/containers/container.cpp:796-838 | Taking coins off a stack, or the stack out of its container, lowers the worth carried by exactly their worth and keeps the forest. |
| `Coins.Cylinder.Withdraw` | src/game/game.cpp:2792-2795 | The bank pays the rest and nothing carried changes. |
| `Coins.WrappedTest` | src/game/game.cpp:2756-2764 | The affordability test in 64 bits never succeeds without enough money. |
| `Coins.CoversIff` | src/game/game.cpp:2756-2764 | While coins and balance together stay below 2^64, the test is exact. |
| `Coins.Cylinder.AddMoney` | src/game/game.cpp:2800-2855 | For every amount, the coins created are stacks of one to one hundred, worth the amount modulo 10000 * 2^32 (so exactly the amount below that bound), as few as possible, and all of them are carried or on the ground afterwards. |
| `Coins.Cylinder.PlaceCoins` | src/game/game.cpp:2815-2836 | A created stack may join stacks of its kind at any depth; the rest goes into a slot, into a container at any depth, or to the ground. Its worth is there afterwards, and no larger coin is touched. |
| `Coins.NarrowedChange` | src/game/game.cpp:2840-2854 | The three coin counts, narrowed to 32 and 16 bits as in the source, still make up the amount modulo 10000 * 2^32. |
| `Coins.HighPartVanishes` | src/game/game.cpp:2840-2854 | Whole multiples of 10000 * 2^32 do not change the three counts. |
| `Coins.ChangeIsFewestCoins` | src/game/game.cpp:2840-2854 | No other multiset of gold, platinum and crystal coins of the same worth has fewer coins. |
| `Coins.StacksOfWorth` | src/game/game.cpp:2810-2838 | Splitting a coin count into stacks of at most one hundred keeps worth and number of coins. |
| `Coins.ChangeWorth` | src/game/game.cpp:2810-2854 | The stacks of all three kinds add up in worth and in number of coins. |
| `Market.Account.GetCoins` | src/account/account.cpp:86-98 | Result code and amount, in each of the three cases. |
| `Market.Account.AddCoins` | src/account/account.cpp:100-123 | Which of the results, in each case, also when the balance cannot be read or written; new balance in 32 bits, and one logged transaction exactly when a detail text is given; no change on any error or for zero coins. |
| `Market.Account.RemoveCoins` | src/account/account.cpp:125-153 | Fails without effect when the balance is too small or cannot be read or written; otherwise exact balance, and logged exactly when a detail text is given. |
| `Market.Account.RegisterCoinTransaction` | src/account/account.cpp:155-171 | Logs one transaction unless the account is not loaded or the detail is empty. |
| `Market.RemoveOfferItems` | src/game/game.cpp:9491-9546 | Success removes exactly the amount from stash (tier zero only) and locker; failure removes at most that. It succeeds exactly when there is enough, unless the removal of some stack is refused. Withdrawing from a stash that holds the item cannot fail, since no more is asked for than it holds. |
| `Market.TakeFromStacks` | src/game/game.cpp:9513-9535 | Stacks are used up in order, each before the next is touched, and what is taken is exactly what they lose. |
| `Market.CreateStacks` | src/game/game.cpp:9739-9773 | Stacks within the stack size (or single items) that add up to the amount. |
| `Market.Delivered` | src/game/game.cpp:9899-9936 | The goods arrive in the inbox, in stacks within the stack size, and nothing else changes. |
| `Market.RemoveMoney` | src/game/game.cpp:2698-2798 | The contract of the coin economy, on a player's purse. |
| `Market.TotalPrice` | src/game/game.cpp:9625-9674 | Within the price and amount limits, price times amount plus fee never wraps in 64 bits. |
| `Market.Market.PriceBuyOffer` | src/game/game.cpp:9549-9605 | A buy offer is paid for exactly when all checks pass and coins plus bank reach price times amount plus fee. |
| `Market.Market.CreateBuyOffer` | src/game/game.cpp:9607-9702 | Exactly then the offer is listed, its full price held and the fee gone; otherwise nothing changes. |
| `Market.Market.CreateCoinOffer` | src/game/game.cpp:9607-9702 | Exactly when the checks pass, the fee is affordable and the account has the coins, they leave the account unlogged and the offer is listed; otherwise nothing changes. |
| `Market.Market.CreateItemOffer` | src/game/game.cpp:9607-9702 | The goods leave stash and locker, the fee is paid and the offer is listed; a failed removal changes nothing but the removed goods. Anything in the stash forces tier zero. |
| `Market.Market.OfferLimits` | src/game/game.cpp:9549-9605 | Which offers may be made: price from 1 to 999999999999, amount from 1 to 64000 for stackable and 2000 for other items. |
| `Market.Market.CancelOffer` | src/game/game.cpp:9704-9786 | Only the owner cancels; gold, store coins or goods of exactly the open amount come back, the coins unlogged. |
| `Market.Market.CancelFits` | src/game/game.cpp:9722-9738 | No refund of gold or coins wraps. |
| `Market.Market.ExpireOffer` | src/io/iomarket.cpp:162-239 | Expiry gives gold back to the bank, and turns the stock of every sell offer into items, store coins included. |
| `Market.Market.AcceptFits` | src/game/game.cpp:9856-10024 | None of the sums and products of a sale wraps in 64 or 32 bits. |
| `Market.Market.AcceptOffer` | src/game/game.cpp:9788-10063 | A sale takes place exactly when the shared checks pass and the player has the coins, goods or gold for it (unless a goods removal is refused); then it is one of the two sale steps below, and otherwise at most goods are lost. |
| `Market.Market.SaleLimits` | src/game/game.cpp:9812-9906 | Who may accept what: up to 64000 stackable or 2000 other items and no more than the offer holds, not one's own offer and not on the same account object. |
| `Market.Market.SellCoins` | src/game/game.cpp:9856-9898 | Coins for a buy offer: both sides logged, the seller paid. |
| `Market.Market.SellGoods` | src/game/game.cpp:9874-9936 | Goods for a buy offer: taken from the seller, delivered to the owner, the seller paid from escrow. |
| `Market.Market.PayBankFirst` | src/game/game.cpp:9953-9965 | A buyer pays from the bank first and only the rest in coins, exactly when both together suffice. |
| `Market.Market.Buy` | src/game/game.cpp:9941-10024 | Exactly when the buyer can pay, the owner is paid in full and the goods or coins arrive, in the sense of the sale laws of MarketParties; the seller's coin removal is logged only here. |
| `MarketState.GoldKept` | src/game/game.cpp:9607-10063 | Every step keeps the sum of carried gold, dropped gold, bank balances, price times amount over open buy offers, and fees burned. |
| `MarketState.GoldMoved` | src/game/game.cpp:9788-10063 | Accepting an offer only moves gold, also when it is accepted in part. |
| `MarketState.GoldReturned` | src/game/game.cpp:9720-9727 | Cancelling or expiry returns exactly what was held. |
| `MarketState.LedgerKept` | src/game/game.cpp:9642-10024 | Transferable coins plus coins in own sell offers, less logged additions plus logged removals, stay the same for every account, although creating and cancelling log nothing. |
| `MarketState.LedgerAccepted` | src/game/game.cpp:9856-9873 | A sale of store coins reconciles for seller, buyer, both on one account, and everybody else. |
| `MarketState.LedgerKeptIff` | src/io/iomarket.cpp:175-220 | The coin ledger survives a step if and only if the step does not expire a sell offer of store coins; then it is short by exactly the offer's amount. |
| `MarketState.LedgerExact` | src/io/iomarket.cpp:175-220 | In every step, what the ledger of each account loses is exactly what an expired coin offer of its own held. |
| `MarketState.ExpiryBreaksLedger` | src/io/iomarket.cpp:162-239 | A concrete valid state in which a coin offer expires and the account ends 25 coins short of its log. |
| `MarketState.StoreCoinsKept` | src/game/game.cpp:9642-10024 | The total of store coins changes only when a coin offer expires, by its amount. |
| `MarketState.StoreCoinsMoved` | src/game/game.cpp:9856-10024 | Sales move store coins without making or losing any. |
| `MarketState.CoinsTransferred` | src/game/game.cpp:9856-9873 | Moving coins between two accounts, or from an account to itself, keeps their total. |
| `MarketState.GoodsKept` | src/game/game.cpp:9491-10018 | Stash, locker, inbox and sell-offer stock of a ware together stay the same in every step that succeeds, and a failed removal loses at most its amount. |
| `MarketState.GoodsReturned` | src/game/game.cpp:9739-9773 | Cancelled or expired stock comes back in full. |
| `MarketState.PriceFits` | src/game/game.cpp:9565-9588 | Price times amount within the limits is far below 2^64. |
| `MarketState.EscrowFits` | src/game/game.cpp:9722-9724 | Paying out of an open buy offer never wraps the receiver's balance. |
| `MarketState.PaymentFits` | src/game/game.cpp:9953-10020 | Adding a buyer's coins and bank, or the seller's balance on top, never wraps. |
| `MarketState.CoinsFit` | src/game/game.cpp:9968-9969 | Delivering store coins from a sell offer never wraps 32 bits. |
| `MarketState.TransferFits` | src/game/game.cpp:9862-9873 | Moving store coins between accounts never wraps 32 bits. |
| `MarketState.ValidKept` | src/game/game.cpp:9607-10063 | Every step keeps all offers well formed and all totals within their integer widths. |
| `MarketState.StepKeepsLaws` | src/game/game.cpp:9607-10063 | All the laws together, for one step; the total of store coins falls by exactly what an expired coin offer held. |
| `MarketState.MarketRun` | src/game/game.cpp:9607-10063 | Over every run: gold is constant; the coin ledger of every account, and the total of store coins, fall by exactly what the coin offers that expired held; goods never grow and are constant when no removal fails. |
| `MarketState.LedgerRunIff` | src/io/iomarket.cpp:175-220 | Over every run, the ledgers of all accounts are kept if and only if no sell offer of store coins expires. |
| `MarketParties.SalePurses` | src/game/game.cpp:9856-10024 | A sale puts exactly price times amount on the seller's bank. For a sell offer the buyer's coins, dropped coins and bank fall by exactly that, the bank first; for a buy offer its purse stays. Every other purse is unchanged and nothing is burned. |
| `MarketParties.SaleOffers` | src/game/game.cpp:10050-10056 | After a sale the offer holds exactly that much less and is gone when it holds nothing; no other offer changes. |
| `MarketParties.SaleGold` | src/game/game.cpp:9788-10063 | Counting what own buy offers hold, a sale moves exactly its price from the buyer to the seller and nobody else's gold changes. |
| `MarketParties.SaleWares` | src/game/game.cpp:9874-10020 | Counting what own sell offers hold, a sale of goods moves exactly the amount from the seller to the buyer, of that ware only. |
| `MarketParties.SaleCoins` | src/game/game.cpp:9856-10024 | A sale of store coins moves them from the seller's account to the buyer's and logs exactly the two sides; a sale of goods logs nothing and moves no store coins. |
| `MarketParties.ListingGold` | src/game/game.cpp:9607-9702 | Listing an offer costs its owner exactly the fee, which is burned; no other player's gold or purse changes. |
| `MarketParties.ListingPurse` | src/game/game.cpp:9607-9702 | The cost of an offer comes out of the coins carried first, and out of the bank only for the rest. |
| `MarketParties.ListingWares` | src/game/game.cpp:9607-9702 | Listing leaves everybody's goods what they were, counting those in own sell offers. |
| `MarketParties.ListingCoins` | src/game/game.cpp:9642-9660 | Listing leaves every account's store coins what they were, counting those in own sell offers. |
| `MarketParties.ReturnGold` | src/game/game.cpp:9720-9727 | Cancelling or expiry pays exactly price times amount of a buy offer to its owner's bank; nobody has more or less gold than before, no other purse changes, nothing is burned. |
| `MarketParties.ReturnWares` | src/game/game.cpp:9739-9773 | Cancelling or expiry leaves everybody's goods what they were; they come to the inbox, and stash and locker do not change. |
| `MarketParties.ReturnCoins` | src/io/iomarket.cpp:175-239 | Cancelling returns store coins to the account; expiry takes exactly the offered coins from it and makes them items of the owner. |
| `MarketParties.StepEarns` | src/game/game.cpp:9607-10063 | What each step changes of each player's gold: the price of its own sale or purchase, or the fee of its own offer, and nothing otherwise. |
| `MarketParties.PlayerRun` | src/game/game.cpp:9607-10063 | Over every run the gold of every single player changes by exactly what it sold for, bought for and paid in fees. |
| `Houses.FindPlayer` | src/game/game.cpp:11867-11890 | Names are looked up without regard to case; nobody is found only when nobody has the name. |
| `Houses.HighestBidCount` | src/game/game.cpp:11552-11565 | The number of houses that record the player's name as their bidder. |
| `Houses.ProcessBankAuction` | src/game/game.cpp:11862-11899 | Succeeds exactly when the bid is positive and the balance covers bid and rent; then the player pays both, and the recorded bidder gets limit and rent back, added in 64 bits, unless it has the same name. |
| `Houses.HouseOffice.PlaceBid` | src/game/game.cpp:11567-11645 | First bid, bid above the hidden bid, or lower bid, in any stage of the house, with the exact new bid fields and money movements; refused with no change exactly when the house limit, the count of the player's bids or the payment fails. The branch for raising one's own bid is never reached, because a player with any recorded bid is refused first. |
| `Houses.HouseOffice.WinBid` | src/game/game.cpp:11601-11635 | A winning bid succeeds exactly when the bidder can pay bid and rent, and leaves everything alone otherwise. |
| `Houses.HouseOffice.OfferHouse` | src/game/game.cpp:11703-11746 | The owner names a different player and the house goes into transfer; otherwise nothing changes. |
| `Houses.HouseOffice.AcceptHouse` | src/game/game.cpp:11791-11822 | Exactly the named, not yet accepted new owner who can pay price and rent accepts; otherwise nothing changes. |
| `Houses.HouseOffice.TakeOver` | src/game/game.cpp:11803-11820 | The payment of an acceptance: exactly when the price is positive and the balance covers price and rent. |
| `Houses.HouseOffice.Revert` | src/game/game.cpp:11770-11786 | Ending a transfer resets it and pays an accepted price and rent back. |
| `Houses.HouseOffice.CancelTransfer` | src/game/game.cpp:11748-11789 | Only the owner, only in transfer; an accepted price is paid back. |
| `Houses.HouseOffice.RejectTransfer` | src/game/game.cpp:11824-11860 | Only the named new owner, only in transfer. |
| `Houses.HouseOffice.MoveOrStay` | src/game/game.cpp:11647-11701 | Only the owner, only from the matching state; no money moves. |
| `Houses.TransferRefundFits` | src/game/game.cpp:11770-11779 | The refund of an accepted transfer never wraps. |
| `HouseState.MoneyKeptIff` | src/game/game.cpp:11567-11899 | A step keeps bank balances plus money held by houses if and only if, in the state before it: a winning bid on a house in transfer refunds exactly what the house stands to hold less, an offered house carries no bid, and an acceptance refunds nothing. Every other step always does. |
| `HouseState.OutbidMoney` | src/game/game.cpp:11601-11635 | What a winning bid changes, to the coin, in every house state: nothing outside a transfer. |
| `HouseState.AcceptMoney` | src/game/game.cpp:11791-11822 | An acceptance adds exactly what it refunds, which is nothing when the name on the house is spelt like the new owner's own. |
| `HouseState.OfferMoney` | src/game/game.cpp:11739-11743 | Offering a house that carries a bid loses the bid and the rent paid with it, since the bidder's name is overwritten. |
| `HouseState.AuctionRefund` | src/game/game.cpp:11862-11899 | Outside a transfer the previous bidder gets exactly limit and rent back; the sum never wraps. |
| `HouseState.EndMoney` | src/game/game.cpp:11748-11860 | Cancelling and rejecting conserve money. |
| `HouseState.SpellingCreatesMoney` | src/game/game.cpp:11791-11822 | A concrete run in which accepting a transfer under a name typed in another case creates money. |
| `HouseState.OfferOverBidLosesMoney` | src/game/game.cpp:11594-11743 | A concrete run: a bid on a rented house, which nothing stops, and then an offer of that house. The 60 paid for the bid are gone. |
| `HouseState.BidOnTransferChangesMoney` | src/game/game.cpp:11594-11635 | Concrete bids on a house whose transfer has been accepted: money is lost or made by the difference between the limit recorded earlier and the price paid. |
| `HouseState.StepKeeps` | src/game/game.cpp:11567-11899 | Guarded steps keep the money, the invariant, the spelling of names, and all bids on available houses. |
| `HouseState.SoundKept` | src/game/game.cpp:11567-11899 | Every step, guarded or not, keeps this: in every stage but a transfer the visible bid is at most the hidden bid, which is the holder's limit; an accepted transfer is in state transfer. |
| `HouseState.OrderlyKept` | src/game/game.cpp:11567-11899 | Every step keeps all houses sound, and changes only balances and one house. |
| `HouseState.HouseRun` | src/game/game.cpp:11567-11899 | Over every run of any bids, lower bids, transfers, acceptances, cancellations and rejections: every house stays sound, and the money is the same throughout if and only if every step meets the condition in the state it starts from. |
| `HouseState.GuardedRun` | src/game/game.cpp:11567-11899 | Over every run in which bids go to available houses and offers name the new owner exactly, money is constant. |
| `HouseParties.StepKeepsEach` | src/game/game.cpp:11567-11898 | A bid outside a transfer, an offer of a house without a bid, an acceptance under the exact name, the end of a transfer and moving out keep the money of every single player, counting what houses hold for it. |
| `HouseParties.RunKeepsEach` | src/game/game.cpp:11567-11898 | Over every run of such steps every player has the money it had. |
| `HouseParties.WinnerPays` | src/game/game.cpp:11601-11635 | A winning bid takes exactly bid and rent from the bidder and gives exactly limit and rent back to the one outbid; no other balance changes. |
| `HouseParties.HighestBidWins` | src/game/game.cpp:11567-11645 | After any bids on a house the first of the highest bids leads: its bidder is recorded and has paid it and the rent, and everybody else has exactly what they had before the auction. |
| `HouseParties.BidFields` | src/game/game.cpp:11601-11635 | What a bid changes of a house, field by field; a losing one changes only the visible bid. |
| `HouseParties.OfferFields` | src/game/game.cpp:11703-11746 | An offer records stage, name, new owner and price, and nothing else changes. |
| `HouseParties.AcceptFields` | src/game/game.cpp:11791-11822 | Accepted under the exact name, the new owner pays price and rent, no other balance changes, and only the acceptance is recorded. |
| `HouseParties.EndFields` | src/game/game.cpp:11748-11860 | The end of a transfer pays an accepted price and the rent back, clears the bid fields, and leaves the house rented. |
| `HouseParties.MoveFields` | src/game/game.cpp:11647-11701 | Moving out and taking it back change only the stage. |
| `HouseParties.TransferUndone` | src/game/game.cpp:11703-11860 | A transfer offered, accepted, and then cancelled or rejected leaves every balance, and the house, as they were. |
| `Containers.MovedPending` | src/items/containers/container.cpp:1033-1076 | One step of the iterator takes exactly the current item off what is still to come: nothing is skipped and nothing comes twice. |
| `Containers.MovedSound` | src/items/containers/container.cpp:1033-1076 | Every step keeps the stack: each frame searches the item its predecessor has just passed. |
| `Containers.NotVisited` | src/items/containers/container.cpp:1052-1062 | In a forest the check for containers already visited never fires. |
| `Containers.WithinIff` | src/items/containers/container.cpp:1050-1066 | The depth-limited search reaches an item exactly when it is nested no deeper than the limit. |
| `Containers.OneAncestor` | src/items/containers/container.cpp:1033-1076 | An item has one ancestor at each level. |
| `Containers.DropKeeps` | src/items/containers/container.cpp:1017-1031 | Dropping an exhausted frame loses nothing. |
| `Containers.MovedSize` | src/items/containers/container.cpp:1033-1076 | Every step uses up one position, whatever became of the containers meanwhile. |
| `Containers.ContainerIterator.HasNext` | src/items/containers/container.cpp:1017-1031 | True exactly when a current item is left; what is still to come does not change. |
| `Containers.ContainerIterator.Advance` | src/items/containers/container.cpp:1033-1076 | Goes past exactly the current item, into it first where the limit allows. |
| `Containers.IsHoldingItem` | src/items/containers/container.cpp:374-385 | True exactly for items nested no deeper than the limit. |
| `Containers.ItemHoldingCount` | src/items/containers/container.cpp:356-372 | Counts each item within the limit once. |
| `Trade.TradeDesk.AlreadyTraded` | src/game/game.cpp:5116-5150 | The two loops together find a clash exactly when some item on offer equals the new one or one holds the other within the limit. |
| `Trade.TradeDesk.RequestTrade` | src/game/game.cpp:5041-5180 | A trade starts exactly when the checks pass, nothing on offer clashes, at most a hundred items are offered and both players may enter; otherwise nothing changes. |
| `Trade.TradeDesk.InternalStartTrade` | src/game/game.cpp:5182-5215 | The exact new state of both players and the index; nobody else is touched. |
| `Trade.TradeDesk.AcceptTrade` | src/game/game.cpp:5217-5317 | Ignored, waiting, cancelled, exchanged or failed, each in exactly its case, with the exact new state. The exchange needs an item from each side and hands each item to the other side; either way the trade is over. |
| `Trade.TradeDesk.CloseTrade` | src/game/game.cpp:5409-5416 | Both players leave the trade and their items leave the index. |
| `Trade.TradeDesk.InternalCloseTrade` | src/game/game.cpp:5418-5457 | The same, keeping the protocol invariant. |
| `Trade.TradeDesk.Exchange` | src/game/game.cpp:5243-5316 | Both states go through transfer and end as no trade, with both items off the index. |
| `Trade.TradeDesk.TradeBoth` | src/game/game.cpp:5041-5317 | Two requests and two acceptances that nothing disturbs end in an exchange: each has been handed the other's item, both are in no trade, and nothing is left on the index. |
| `Trade.TradeDesk.RequestAndClose` | src/game/game.cpp:5041-5457 | A request closed again, by either side, leaves players and index as they were. |
| `Trade.TradeDesk.OffersAreDisjoint` | src/game/game.cpp:5116-5155 | In every valid state, when containers are searched a hundred levels deep or deeper (200 by default), the offered items are pairwise disjoint subtrees, each offered by one player, however deep anything is nested. |
| `Trade.ApartIsDisjoint` | src/game/game.cpp:5116-5155 | Items that passed both tests are disjoint exactly when none of them hides in another; from a search depth of a hundred on they always are. |
| `Trade.DisjointIffNothingHides` | src/game/game.cpp:5116-5155 | For every search depth: everything that passes the clash test and the hundred-item test is disjoint if and only if no item lies deeper in a container than the search goes, with both small enough for the hundred-item test. |
| `Trade.DeepHoldsMany` | src/game/game.cpp:5152-5155 | A container with something deeper in it than the search goes holds at least as many items as the search has levels. |
| `Trade.NothingHides` | src/game/game.cpp:5152-5155 | From a search depth of a hundred on, the hundred-item test refuses every container in which something could hide. |
| `Trade.HiddenPairPasses` | src/game/game.cpp:5116-5155 | A hidden item and its container pass both tests one after the other, and overlap. |
| `Trade.DeepChain` | src/game/game.cpp:5116-5155 | For every search depth below a hundred, a chain of containers in which two items pass both tests and overlap. |
| `Trade.OfferHidden` | src/game/game.cpp:5041-5180 | Such a run: four players, two trade requests, and a valid state with two overlapping items on offer. |
| `Creatures.RemoveCreature` | src/game/game.cpp:1253-1324 | For every graph of summons, cyclic or stale: terminates; removes exactly the live creatures reached through lists of live creatures; returns true exactly when the creature was neither removed nor without a tile. The creature has no master afterwards unless its master was removed before, also when it has no tile. From masters and lists that agree: only the creature leaves a list, no creature that is still there lists anybody removed meanwhile, and masters and lists still agree. |
| `Creatures.LeavesExactly` | src/game/game.cpp:1294-1296 | Which lists and masters a removal changes: only the list of a master that is not removed loses the creature, in place, and only the creature's own master is cleared. |
| `Creatures.NobodyListsRemoved` | src/game/game.cpp:1294-1314 | Nobody who is not removed lists anybody removed meanwhile. |
| `Creatures.RemovalExactly` | src/game/game.cpp:1253-1324 | A removal creature by creature: who is removed and through whose list, whose skill-loss flag is cleared, and whose scheduling; nobody else changes. |
| `Creatures.RemoveSummons` | src/game/game.cpp:1311-1314 | The list that is being iterated never changes, although leaving a master can change other lists during the walk. |
| `Creatures.Creature.SetMaster` | src/creatures/creature.cpp:1238-1269 | The exact new masters and lists, also when old and new master are the same, and agreement of masters and lists is kept. |
| `Creatures.MasteredExactly` | src/creatures/creature.cpp:1238-1269 | The creature is taken out of the old master's list and comes last on the new one's, also when both are the same; nobody else is touched. |
| `Creatures.MasteredKeeps` | src/creatures/creature.cpp:1256-1267 | Entering the new list and leaving the old one keeps every list free of duplicates and in agreement with the masters. |
| `Creatures.RemoveFirstKeeps` | src/creatures/creature.cpp:1262-1266 | Removing the first occurrence removes a creature listed once and keeps all others. |
| `Creatures.Creature.RemoveCreatureCheck` | src/game/game.cpp:6845-6850 | Clears the wish to think exactly when the creature is on a list. |
| `Creatures.ReachRemoved` | src/game/game.cpp:1311-1314 | Everything reached from a removed creature is removed. |
| `Creatures.ReachBefore` | src/game/game.cpp:1253-1324 | Whatever is reached later in the walk was reachable before it. |
| `Creatures.WalkTrans` | src/game/game.cpp:1311-1314 | The effects of two removals compose. |
| `Creatures.SweptStep` | src/game/game.cpp:1311-1314 | One more summon dealt with: everything below it is removed, and nothing that was not reachable. |
| `Creatures.SweptAll` | src/game/game.cpp:1253-1324 | When all summons are dealt with, exactly what was reachable is removed. |
| `Creatures.OpenedWalk` | src/game/game.cpp:1294-1310 | Marking a creature removed before walking its list keeps the closure property. |
| `Creatures.AllSummonedRemoved` | src/game/game.cpp:1253-1324 | With everybody on a tile, every creature reached through summons lists, whoever is on them, is removed, and removed creatures have only removed summons again. |
| `Scheduler.CheckLists.AddCreatureCheck` | src/game/game.cpp:6827-6843 | A removed creature is left alone; any other is checked and has exactly one entry afterwards, a new one only if it had none. |
| `Scheduler.CheckLists.RemoveCreatureCheck` | src/game/game.cpp:6845-6850 | The entry stays; only the wish to think goes. |
| `Scheduler.CheckLists.RunInsert` | src/game/game.cpp:6839-6842 | The deferred insert moves the waiting entry to its list and is no step for any creature already on a list. |
| `Scheduler.CheckLists.CheckCreatures` | src/game/game.cpp:6852-6882 | For arbitrary callbacks during the sweep, each of which takes its exact effect: the flag invariant is kept; a checked, living creature whom nothing disturbs thinks exactly as often as it is listed and stays; one that is not checked or not alive and is left alone does not think, is erased and loses its flag; other lists do not change. |
| `Scheduler.CheckLists.Sweep` | src/game/game.cpp:6856-6879 | Every entry thinks or is passed over, whatever the callbacks do. |
| `Scheduler.CheckLists.Visit` | src/game/game.cpp:6857-6878 | One entry: thinks exactly when the creature exists, is checked and alive, and then does all its script says; otherwise it loses its flag. |
| `Scheduler.CheckLists.StillListed` | src/game/game.cpp:6856-6879 | Whoever the sweep still has to come to has its flag set, also after callbacks removed and added it. |
| `Scheduler.CheckLists.ListedOnce` | src/game/game.cpp:6827-6882 | Between sweeps the flag is set if and only if the creature has exactly one entry among all lists and waiting inserts. |
| `Scheduler.TallyAdd` | src/game/game.cpp:6834-6842 | A new entry and the flag come together. |
| `Scheduler.TallyPass` | src/game/game.cpp:6875-6875 | Clearing the flag during the sweep matches the entry that will be erased. |
| `Scheduler.TallyErase` | src/game/game.cpp:6856-6879 | Erasing at the end of the sweep restores one entry per flag. |
| `Scheduler.ThinksOnce` | src/game/game.cpp:6852-6882 | In any ten consecutive ticks, with anything in between, a creature on a list that stays enabled thinks exactly once. |
| `Scheduler.ThinksWhenDue` | src/game/game.cpp:6852-6882 | Within at most ten ticks it thinks once if its list comes up, and otherwise not at all, and stays on its list. |
| `Scheduler.CheckLists.Drive` | src/game/game.cpp:6827-6882 | Any sequence of callbacks, deferred inserts and sweeps takes exactly its effect on flags, lists and waiting events; its ticks are its sweeps, and with ten sweeps in it whoever is on a list, checked, alive and left so thinks exactly once. |
| `Scheduler.Turned` | src/game/game.cpp:6852-6882 | A whole sweep told in the flags before it: who is checked and alive thinks as often as listed, who is not does not and is unlisted. |
| `Scheduler.ThoughtInOrder` | src/game/game.cpp:6856-6879 | Those who thought stay on the list in the order they had. |
| `Scheduler.InsertedIsListed` | src/game/game.cpp:6839-6842 | The event that waits longest puts its creature last on its list, and changes nothing else. |
| `Scheduler.SweptSteady` | src/game/game.cpp:6856-6879 | Whom no script disturbs, and who is awake at first, thinks as often as it is met. |
| `Scheduler.SweptAsleep` | src/game/game.cpp:6856-6879 | Whom no script touches, and who exists but is not awake, does not think and loses its flag when met. |
| `Scheduler.CheckLists.Act` | src/game/game.cpp:6827-6850 | Each action of a callback takes its exact effect on flags and waiting events. |
| `Scheduler.CheckLists.Perform` | src/game/game.cpp:6859-6871 | All actions of a callback take effect, in order. |
| `Scheduler.AddedIsChecked` | src/game/game.cpp:6827-6843 | Whoever exists and is not removed is checked and flagged after being added, with a new entry exactly if it had none, and nobody else is touched. |
| `Scheduler.OffAndOn` | src/game/game.cpp:6827-6850 | A listed creature switched off and on again within one turn is exactly as before and keeps its one entry. |
| `Scheduler.TakenOffIsAsleep` | src/game/game.cpp:6845-6850 | What switching off, dying, being removed and ceasing to exist change of a creature. |
| `Scheduler.RemovedStaysAsleep` | src/game/game.cpp:6828-6830 | Nothing a removed creature is told makes it checked again. |
| `Batches.DBInsert.AddRow` | src/database/database.cpp:400-422 | The text stays the joined rows; a full packet is sent first, and a row is refused only when that fails. |
| `Batches.DBInsert.Execute` | src/database/database.cpp:434-481 | Sends exactly the planned queries in order, up to the first one refused, and succeeds exactly when the plan is complete and none is refused. |
| `Batches.DBInsert.Send` | src/database/database.cpp:454-480 | The loop sends what the plan says for any text and room, whatever the database answers, and terminates. |
| `Batches.DBInsert.UpsertQuery` | src/database/database.cpp:441-452 | The loop writes all columns with separators between them. |
| `Batches.CutIsWhole` | src/database/database.cpp:454-477 | For every text: the pieces, joined by commas, are the whole text or all but a rest that could not be cut; none is empty or longer than the room and one. |
| `Batches.PlainCut` | src/database/database.cpp:454-477 | When no row contains the separator text, only nonempty runs of whole rows are sent, in order, and everything is sent if and only if each row fits; the last row needs one character more than the others. |
| `Batches.CutIsLongest` | src/database/database.cpp:454-477 | With plain rows each query carries the longest run that fits: with the row that comes next its rows would be longer than the room. |
| `Batches.WholeRowsIffPlain` | src/database/database.cpp:454-477 | Only whole rows are sent for every room if and only if no row contains the separator text. |
| `Batches.SplitsRow` | src/database/database.cpp:454-477 | A row that contains the separator text is cut in two for some room. |
| `Batches.SplitInsert` | src/database/database.cpp:456-477 | An insert whose statement leaves just the room up to the separator text in a row sends a first query with a part of that row, whatever the other rows are; the queries sent are not whole rows. |
| `Batches.InsertSplitRow` | src/database/database.cpp:400-481 | Such an insert run from its construction: one row whose first query ends inside it. |
| `Batches.OnlyBetweenRows` | src/database/database.cpp:410-420 | In the joined text the separator stands only between rows, if no row contains it. |
| `Batches.BetweenRows` | src/database/database.cpp:410-420 | Between two neighbouring rows it always stands. |
| `Batches.QuerySize` | src/database/database.cpp:456-477 | No query is longer than the limit and two, as long as statement and update text fit the limit. |
| `Batches.QueryParts` | src/database/database.cpp:474-475 | A query is the statement, a space, a piece of the rows and the update text, and nothing else. |
| `Batches.UpsertParts` | src/database/database.cpp:441-452 | The update text names each column once, in order, with its separators. |
| `Batches.ExecutedRows` | src/database/database.cpp:434-481 | End to end: when the execution succeeds, no row contains the separator text and the statement text fits, the queries sent carry nonempty runs of whole rows that make up exactly the rows in order, each query within the limit and two. |
| `Batches.ExecutedIffFits` | src/database/database.cpp:434-481 | When the database accepts everything, the execution succeeds if and only if every row fits. |
| `Moving.MoveItem` | src/game/game.cpp:2123-2299 | Moves exactly when the item may be taken, the destination will have it, possibly after a swap, and there is room: then the amount is what was asked for limited by the room, and as much of it as fits goes into the stack that is there. Every refusal keeps the pieces of every item; no stack is ever empty or above its stack size, and nothing lies in two places. The pieces of every kind are conserved if and only if nothing moves, or the destination takes the index, or all of the amount fits into the stack that is there. Where everything lies afterwards is told exactly: what left the source, what was put down at the destination and in its slot, and what was swapped into the source. |
| `Moving.MoveSome` | src/game/game.cpp:2136-2299 | The same from the question whether the destination will have the item. |
| `Moving.MoveBySwap` | src/game/game.cpp:2138-2168 | With something else in the slot, pieces move only after a swap, into an empty slot, and nothing is lost. |
| `Moving.MoveUpTo` | src/game/game.cpp:2174-2299 | The amount is what was asked for limited by the room of the destination, and nothing moves when that is more than there is, or nothing. |
| `Moving.Cylinder.QueryDestination` | src/items/containers/container.cpp:634-701 | Where a container puts an item: the first stack it can join unless it can join the one at the index; 254, 255 and, without pages, an index beyond the capacity mean anywhere. |
| `Moving.MoveInto` | src/game/game.cpp:2100-2299 | The same move starting from an index of a container: the exact outcome, and conservation exactly when the place found is within the capacity, or nothing moves, or all of it joins the stack there; a container without pages that holds no more than its capacity never loses anything. |
| `Moving.BeyondCapacity` | src/items/containers/container.cpp:648-697 | The place found is beyond the capacity if and only if a stack to join lies there, or the container has pages and the index is beyond it. |
| `Moving.MoveBeyondCapacity` | src/items/containers/depot/depotchest.cpp:22-27 | A concrete move of one item to index 32 of a depot chest, which has pages and a capacity of 32: the item is gone. |
| `Moving.Exchange` | src/game/game.cpp:2138-2168 | Swaps exactly when the source is a container that will have the thing in the slot and that may be removed; then it lies in the source and the slot is empty, and otherwise nothing changes. |
| `Moving.Transfer` | src/game/game.cpp:2210-2243 | Merge, split with a copy, and whole move of exactly the amount given, also when source and destination are the same place. |
| `Moving.TopUp` | src/game/game.cpp:2219-2225 | As many pieces as fit, and only into a stack of the same kind. |
| `Moving.Divide` | src/game/game.cpp:2216-2238 | What does not fit becomes a copy with exactly the remaining count. |
| `Moving.Cylinder.AddThing` | src/items/containers/container.cpp:709-731 | Adds the item, or silently ignores it when the index is beyond the capacity. |
| `Moving.Cylinder.RemoveThing` | src/items/containers/container.cpp:796-838 | A partial removal lowers the count, a full one takes the item out, and nothing else changes. |
| `Moving.HeldKept` | src/game/game.cpp:2210-2243 | A move changes the number of pieces of a kind only by what the destination does not take. |
| `Moving.HeldKeptIff` | src/game/game.cpp:2210-2243 | All kinds are conserved if and only if the destination takes the index or everything was merged. |
| `Moving.ContainerOutcome` | src/game/game.cpp:2136-2243 | What comes of a move to a container, told from the state before it: the amount, what joins the stack there, and exactly when it is refused. |
| `Moving.SlotOutcome` | src/game/game.cpp:2136-2243 | The same for a slot of an inventory: empty, with a stack of the kind, or with something else that is swapped first. |
| `Moving.ArrivedExactly` | src/game/game.cpp:2210-2243 | Stack by stack what a move changes: the item, the stack that is there, and what is put down; nothing else. |
| `Moving.FittingExactly` | src/game/game.cpp:2219-2225 | What joins a stack either uses up what is moved or fills the stack, and never overfills it. |
| `Experience.Victim.AddDamagePoints` | src/creatures/creature.cpp:1095-1114 | One hit changes only its attacker's entry, in 32 bits; hits without points change nothing. |
| `Experience.HitAdds` | src/creatures/creature.cpp:1095-1114 | While 31 bits hold it, each hit adds its points to the total and to its attacker. |
| `Experience.Victim.GetDamageRatio` | src/creatures/creature.cpp:1068-1089 | The attacker's damage over the damage of everybody, with the total kept in 32 bits. |
| `Experience.Victim.SumUp` | src/creatures/creature.cpp:1069-1083 | The loop adds up everybody's damage in 32 bits and picks out the attacker's. |
| `Experience.Victim.GetGainedExperience` | src/creatures/creature.cpp:1091-1093 | The attacker's part of what was lost, rounded down. |
| `Experience.Victim.ShareOut` | src/creatures/creature.cpp:536-581 | After merging into party leaders, each recipient gets exactly the shares that fall to it, and together they get the sum of the eligible attackers' shares. |
| `Experience.LeaderGetsAll` | src/creatures/creature.cpp:556-581 | When all attackers, or their masters, are players in a party that shares, the leader gets the sum of all shares and nobody else anything. |
| `Experience.LonerGetsOwn` | src/creatures/creature.cpp:555-578 | An attacker who shares with nobody, whose master does not either, and who leads no sharing party, gets exactly its own share. |
| `Experience.OthersGetNothing` | src/creatures/creature.cpp:536-581 | Whoever did not attack, or hands its share to a leader, and leads no sharing party, gets nothing. |
| `Experience.ShareIsProportional` | src/creatures/creature.cpp:1068-1093 | A share is the attacker's part of the total damage, rounded down. |
| `Experience.SettledStep` | src/creatures/creature.cpp:555-578 | Merging one more share keeps both sums. |
| `Experience.SharesWithin` | src/creatures/creature.cpp:536-581 | What is handed out is at most what was lost, when the eligible damage fits the 32-bit total. |
| `Experience.NeverMoreIff` | src/creatures/creature.cpp:1068-1093 | What is handed out is at most what was lost, for every amount, if and only if the eligible damage is at most the 32-bit total or that total is zero. |
| `Experience.OverflowMakesExperience` | src/creatures/creature.cpp:1068-1093 | Three concrete attackers whose damage adds up to 1 in 32 bits: for one point of experience they get more than one. |
| `Experience.NeverMore` | src/creatures/creature.cpp:1068-1093 | Without overflow it is never more than what was lost. |
| `Experience.FallsShort` | src/creatures/creature.cpp:536-581 | When every attacker is eligible it falls short by less than one for each attacker. |
| `Highscores.QueryCache.ForEntries` | src/game/game.cpp:9266-9282 | After any requests, the answer is what the generator says. |
| `Highscores.QueryCache.ForOurRank` | src/game/game.cpp:9284-9300 | The same for the page with a player's own rank. |
| `Highscores.QueryCache.CacheQuery` | src/game/game.cpp:9261-9264 | A new entry is right for its request and cannot shadow another. |
| `Highscores.KeyInjective` | src/game/game.cpp:9267-9287 | Different requests, of either kind and for any category name, have different keys. |
| `Highscores.FieldsInjective` | src/game/game.cpp:9267-9270 | The underscore-joined numbers after an arbitrary name can be read back in one way. |
| `Highscores.LastField` | src/game/game.cpp:9267-9270 | A number after the last underscore can be split off in one way, whatever stands before it. |
| `Highscores.DecimalInjective` | src/game/game.cpp:9267-9270 | Different numbers have different texts. |
| `Loot.Looter.ProcessLootItems` | src/game/game.cpp:3260-3280 | Terminates, with moves that succeed in part and change the containers; every attempt is to an existing container, the loot container first; the result is that of the last attempt, all before it lacked room, and all after the first had something left to move, counted in 32 bits. When it gives up for lack of room although something remains, and no move changed the containers, the loot container, the fallback backpack and every container in them were tried, and so was a container lying last in the one found last. |
| `Loot.NothingMoved` | src/game/game.cpp:3246-3258 | The pieces never become more, and while none is moved all of them remain to be moved. |
| `Loot.Looter.SearchThrough` | src/game/game.cpp:3265-3277 | The loop over one search: goes on exactly while attempts lack room, something remains and the search has more containers. |
| `Loot.Looter.TryFallback` | src/game/game.cpp:3230-3277 | After a search that ended without room: the backpack is tried and searched exactly when there is one and it was not tried before, and then every container in it is tried while attempts lack room. |
| `Loot.Looter.Collect` | src/game/game.cpp:3321-3328 | Without a managed container and without a usable backpack nothing is attempted; otherwise the first attempt is to the one there is. |
| `Loot.Looter.FindNext` | src/game/game.cpp:3206-3228 | The next container the search finds, and after the last of them, once, what lies last in the container found last if that is a container; the search uses up positions, or this one extra look. |
| `Loot.Looter.SearchOn` | src/game/game.cpp:3207-3217 | The search stops at the first container and passes over nothing but plain items. |
| `Loot.Looter.TryMove` | src/game/game.cpp:3246-3258 | Reports the outcome of the attempt; a move that lacks room changes nothing or leaves fewer pieces behind. |
| `Loot.Looter.Step` | src/game/game.cpp:3265-3276 | One attempt and the next place, with the coverage of the search kept. |
| `ScriptEvents.EventIndex.RegisterCreatureEvent` | src/creatures/creature.cpp:1540-1561 | Succeeds exactly when the event exists and is not listed; the list stays free of duplicates and every bit is right. |
| `ScriptEvents.EventIndex.UnregisterCreatureEvent` | src/creatures/creature.cpp:1563-1592 | Removes the event and clears its bit exactly when no other event of the type is left; it reports success whenever its type is registered, listed or not. |
| `ScriptEvents.EventIndex.GetCreatureEvents` | src/creatures/creature.cpp:1625-1639 | With its shortcut through the bit, the same as filtering the list. |
| `ScriptEvents.RegisteredIndexed` | src/creatures/creature.cpp:1547-1560 | A bit is set exactly when some listed event has the type, after registering. |
| `ScriptEvents.RemovedIndexed` | src/creatures/creature.cpp:1571-1590 | The same after removing an event. |
| `ScriptEvents.SetBitIsSet` | src/creatures/creature.cpp:1554-1554 | Setting one bit of the word touches no other. |
| `ScriptEvents.ClearBitIsSet` | src/creatures/creature.cpp:1589-1589 | Clearing one bit of the word touches no other. |
| `ScriptEvents.WithoutHas` | src/creatures/creature.cpp:1573-1587 | The loop removes exactly one event and keeps the order and uniqueness of the rest. |

## Left out

- Coins.Cylinder.AddMoney: which stacks a new stack joins and where it goes is an arbitrary choice, so auto-stacking and managed containers are covered but not told apart.
- Coins.Cylinder.RemoveMoney: refused removals of single coins, which the source ignores, do not occur, and rounding up is exact instead of through a floating-point number.
- Market.Market.CreateBuyOffer: the fee is any amount up to one million, because the source clamps it between bounds that can be in the wrong order.
- Market.Market.ExpireOffer: expired stock is cut at the item's stack size, where the source uses 100 for every item; and the owner can always be loaded and the item type is known, where the source drops the offer before it returns anything and then returns nothing (iomarket.cpp:168-186).
- Market.RemoveOfferItems: the ware id an item is stashed under (game.cpp:9495) is taken to be its item id.
- Market.Market.AcceptOffer: adding items to an inbox always succeeds, and history, statistics and database writes are not modelled.
- Market.Account.AddCoins: only the transferable balance is modelled, and whether the account is loaded and the repository can be written is fixed; the market itself is modelled with a repository that can.
- Houses.ProcessBankAuction: its replace mode is not modelled, since the check on the player's recorded bids makes it unreachable.
- Settling auctions and transfers at server start, which moves houses rather than bids.
- Trade.TradeDesk.AcceptTrade: whether there is room for the items, and the two moves, are one arbitrary outcome, after which each side has the other's item; the second move's result is ignored by the source.
- Trade.TradeDesk.RequestTrade: trades of house documents start elsewhere, and the containers do not change while items are on offer.
- Creatures.RemoveCreature: spectators, zones and team finder entries are not modelled, and masters stay in memory while they are referred to.
- Scheduler.CheckLists.CheckCreatures: attacks and conditions after thinking are part of the same callback, and each call is one atomic step.
- Batches.DBInsert.AddRow: rows sent because the packet is full stay in the statement, as in the source; that each row is sent once is only stated for one execution.
- Moving.MoveItem: starts where the destination is known, and `Moving.MoveInto` at an index of a container with no other container lying at it; whether an item may be taken or placed is an arbitrary answer, except for what depends on the slot of an inventory. Tiles are not modelled.
- Experience.Victim.GetDamageRatio: the ratio is exact instead of a floating-point number.
- Experience.Victim.ShareOut: who did most damage and the list of killers are not modelled.
- Highscores.QueryCache.ForEntries: the text of the query is any function of the request; the cache of results with its expiry is not modelled.
- Loot.Looter.ProcessLootItems: what an attempt moves is an arbitrary outcome; the quick-loot lists and the banking of looted gold are not modelled.
- Client messages, Lua scripts, combat formulas, path finding, tiles, decay, forging, prey, premium time and the light cycle: output, foreign calls, floating point, or easy members only.
