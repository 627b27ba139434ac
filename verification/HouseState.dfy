/**
 House auctions and house transfers as a state machine: who holds which money, and the escrow law over
 every run. `Houses` implements the steps.
 */
module HouseState {
  import opened Common
  import opened Sums

  type Guid = nat

  datatype Stage = Available | Rented | InTransfer | MoveOut

  datatype House = House(
    stage: Stage,
    owner: Guid,
    bidder: Guid,
    bidderName: string,
    highestBid: nat,
    internalBid: nat,
    bidHolderLimit: nat,
    accepted: bool,
    rent: nat)

  datatype World = World(names: map<Guid, string>, bank: map<Guid, nat>, houses: map<nat, House>)

  // ---------------------------------------------------------------- players by name

  function LowerChar(c: char): char {
    if 'A' <= c <= 'Z' then c - 'A' + 'a' else c
  }

  /** Player names are looked up without regard to case. */
  function Lower(s: string): string {
    if s == "" then "" else [LowerChar(s[0])] + Lower(s[1..])
  }

  /** `g` is the player a name stands for. */
  predicate IsNamed(names: map<Guid, string>, g: Guid, name: string) {
    g in names && name != "" && Lower(names[g]) == Lower(name)
  }

  /** Adding, in 64 bits, to the balance of whoever has the name; a name nobody has (the empty one) credits nobody. */
  ghost predicate Credited(names: map<Guid, string>, bank: map<Guid, nat>, name: string, money: nat,
                           bank': map<Guid, nat>) {
    && (forall g | IsNamed(names, g, name) :: g in bank && bank' == bank[g := (bank[g] + money) % U64])
    && ((forall g :: !IsNamed(names, g, name)) ==> bank' == bank)
  }

  // ---------------------------------------------------------------- money held

  ghost function Balance(g: Guid, n: nat): int { n }

  /** The money a house holds: the bid holder's limit and the rent, or an accepted transfer's price and rent. */
  ghost function Held(id: nat, h: House): int {
    if h.stage == InTransfer then if h.accepted then h.internalBid + h.rent else 0
    else if h.bidderName != "" then h.bidHolderLimit + h.rent
    else 0
  }

  ghost function Money(w: World): int {
    Total(w.bank, Balance) + Total(w.houses, Held)
  }

  // ---------------------------------------------------------------- the steps

  /** `processBankAuction`: the bidder pays bid and rent, and the previous holder gets limit and rent back. */
  ghost predicate Paid(w: World, bank': map<Guid, nat>, g: Guid, h: House, bid: nat) {
    && bid > 0 && g in w.names && g in w.bank && w.bank[g] >= h.rent + bid
    && var bank := w.bank[g := w.bank[g] - (h.rent + bid)];
       if h.bidderName != w.names[g] then Credited(w.names, bank, h.bidderName, h.bidHolderLimit + h.rent, bank')
       else bank' == bank
  }

  /** There is no bid yet, or the new one is above the hidden one. */
  predicate Wins(h: House, bid: nat) {
    h.bidderName == "" || bid > h.internalBid
  }

  /** A bid that wins: the first one, or one above the hidden bid of somebody else. */
  ghost predicate Outbid(w: World, w': World, g: Guid, id: nat, bid: nat) {
    && id in w.houses && g in w.names && bid < U64
    && var h := w.houses[id];
       && h.bidderName != w.names[g] && Wins(h, bid)
       && Paid(w, w'.bank, g, h, bid)
       && w' == w.(bank := w'.bank, houses := w.houses[id := h.(
              highestBid := if h.bidderName == "" then 0 else h.internalBid + 1,
              internalBid := bid, bidHolderLimit := bid, bidderName := w.names[g], bidder := g)])
  }

  /** A payment and the bid fields that go with it make a winning bid. */
  lemma WinningBid(w: World, bank: map<Guid, nat>, won: House, g: Guid, id: nat, bid: nat)
    requires id in w.houses && g in w.names && bid < U64 && Paid(w, bank, g, w.houses[id], bid)
    requires var h := w.houses[id]; h.bidderName != w.names[g] && Wins(h, bid)
    requires var h := w.houses[id];
             won == h.(highestBid := if h.bidderName == "" then 0 else h.internalBid + 1,
                       internalBid := bid, bidHolderLimit := bid, bidderName := w.names[g], bidder := g)
    ensures Outbid(w, World(w.names, bank, w.houses[id := won]), g, id, bid)
  {
  }

  /** A bid that does not win only raises or lowers the visible bid. */
  ghost predicate Underbid(w: World, w': World, g: Guid, id: nat, bid: nat) {
    && id in w.houses && g in w.names
    && var h := w.houses[id];
       && h.bidderName != w.names[g] && !Wins(h, bid)
       && w' == w.(houses := w.houses[id := h.(highestBid := bid)])
  }

  /** The owner offers the house to the player a typed name stands for. */
  ghost predicate OfferTransfer(w: World, w': World, id: nat, name: string, newOwner: Guid, bid: nat) {
    && id in w.houses && w.houses[id].stage == Rented && IsNamed(w.names, newOwner, name) && bid < U64
    && w' == w.(houses := w.houses[id := w.houses[id].(
           stage := InTransfer, bidderName := name, bidder := newOwner, internalBid := bid)])
  }

  /** The named new owner accepts and pays. */
  ghost predicate AcceptTransfer(w: World, w': World, g: Guid, id: nat) {
    && id in w.houses
    && var h := w.houses[id];
       && h.stage == InTransfer && h.bidder == g && !h.accepted
       && Paid(w, w'.bank, g, h, h.internalBid)
       && w' == w.(bank := w'.bank, houses := w.houses[id := h.(accepted := true)])
  }

  /** The owner cancels, or the new owner rejects: an accepted price is paid back. */
  ghost predicate EndTransfer(w: World, w': World, id: nat) {
    && id in w.houses && w.houses[id].stage == InTransfer
    && var h := w.houses[id];
       w' == w.(
         bank := if h.accepted && h.bidder in w.bank
                   then w.bank[h.bidder := w.bank[h.bidder] + (h.internalBid + h.rent)]
                   else w.bank,
         houses := w.houses[id := h.(stage := Rented, bidderName := "", bidder := 0, internalBid := 0,
                                     accepted := false)])
  }

  /** The owner announces moving out, or takes it back. */
  ghost predicate Move(w: World, w': World, id: nat) {
    && id in w.houses
    && var h := w.houses[id];
       && (h.stage == Rented || h.stage == MoveOut)
       && w' == w.(houses := w.houses[id := h.(stage := if h.stage == Rented then MoveOut else Rented)])
  }

  datatype Step =
    | BidStep(g: Guid, id: nat, bid: nat)
    | OfferStep(id: nat, name: string, newOwner: Guid, price: nat)
    | AcceptStep(g: Guid, id: nat)
    | EndStep(id: nat)
    | MoveStep(id: nat)

  ghost predicate Does(w: World, w': World, step: Step) {
    match step
    case BidStep(g, id, bid) => Outbid(w, w', g, id, bid) || Underbid(w, w', g, id, bid)
    case OfferStep(id, name, newOwner, price) => OfferTransfer(w, w', id, name, newOwner, price)
    case AcceptStep(g, id) => AcceptTransfer(w, w', g, id)
    case EndStep(id) => EndTransfer(w, w', id)
    case MoveStep(id) => Move(w, w', id)
  }

  // ---------------------------------------------------------------- the invariant

  /** What every step keeps, whatever it does to the money. */
  ghost predicate Orderly(w: World) {
    && w.names.Keys == w.bank.Keys
    && (forall g <- w.names :: g != 0 && w.names[g] != "")
    && (forall g, h | g in w.names && h in w.names && g != h :: Lower(w.names[g]) != Lower(w.names[h]))
    && (forall id {:trigger Sound(w.names, w.houses[id])} :: id in w.houses ==> Sound(w.names, w.houses[id]))
  }

  /** All money fits into 64 bits, with room for one more rent. */
  ghost predicate Valid(w: World) {
    Orderly(w) && Money(w) + U32 <= U64
  }

  /**
   One house. In every stage but a transfer it may carry a bid, since nothing stops a bid on a house that is not
   available: then the visible bid never exceeds the hidden one, which is the holder's limit. An accepted
   transfer is a transfer.
   */
  ghost predicate Sound(names: map<Guid, string>, h: House) {
    && h.rent < U32 && h.internalBid < U64 && h.bidHolderLimit < U64
    && if h.stage == InTransfer then
         IsNamed(names, h.bidder, h.bidderName) && (h.accepted ==> h.internalBid > 0)
       else
         && !h.accepted
         && (h.bidderName != "" ==>
               && h.bidder in names && names[h.bidder] == h.bidderName
               && h.highestBid <= h.internalBid == h.bidHolderLimit && h.internalBid > 0)
  }

  /** Every step keeps the world orderly; only the players' balances and one house change. */
  lemma OrderlyKept(w: World, w': World, step: Step)
    requires Orderly(w) && Does(w, w', step)
    ensures Orderly(w')
    ensures w'.names == w.names && w'.bank.Keys == w.bank.Keys
    ensures w'.houses == w.houses[step.id := w'.houses[step.id]]
  {
    assert Sound(w.names, w.houses[step.id]);
    SoundKept(w, w', step);
    forall id | id in w'.houses ensures Sound(w'.names, w'.houses[id]) {
      assert id != step.id ==> Sound(w.names, w.houses[id]);
    }
  }

  /** The invariant of the one house a step touches. */
  lemma SoundKept(w: World, w': World, step: Step)
    requires Does(w, w', step) && Sound(w.names, w.houses[step.id])
    requires forall g <- w.names :: w.names[g] != ""
    ensures step.id in w'.houses && Sound(w'.names, w'.houses[step.id])
    ensures w'.names == w.names && w'.bank.Keys == w.bank.Keys
    ensures w'.houses == w.houses[step.id := w'.houses[step.id]]
  {
    if step.BidStep? && Outbid(w, w', step.g, step.id, step.bid) {
      PaidKeys(w, w'.bank, step.g, w.houses[step.id], step.bid);
    } else if step.AcceptStep? {
      PaidKeys(w, w'.bank, step.g, w.houses[step.id], w.houses[step.id].internalBid);
    }
  }

  lemma PaidKeys(w: World, bank': map<Guid, nat>, g: Guid, h: House, bid: nat)
    requires Paid(w, bank', g, h, bid)
    requires h.bidderName == "" || IsNamed(w.names, h.bidder, h.bidderName)
    ensures bank'.Keys == w.bank.Keys
  {
  }

  // ---------------------------------------------------------------- the law, step by step

  /** What the bidder recorded on the house gains when `g` pays `bid`: limit and rent, unless the balance wraps. */
  ghost function Refund(w: World, g: Guid, h: House, bid: nat): int {
    if h.bidderName == "" || h.bidder !in w.bank || (g in w.names && h.bidderName == w.names[g]) then 0
    else
      var before := w.bank[h.bidder] - if h.bidder == g then h.rent + bid else 0;
      (before + h.bidHolderLimit + h.rent) % U64 - before
  }

  /**
   When a step keeps the money, told from the state before it. A winning bid on a house in transfer must
   refund exactly what the house stands to hold less; an owner must not offer a house that carries a bid, which
   nobody refunds; and an acceptance must not refund anything, as it does when the new owner's name was typed
   in another spelling.
   */
  ghost predicate Keeps(w: World, step: Step) {
    step.id in w.houses &&
    var h := w.houses[step.id];
    match step
    case BidStep(g, id, bid) =>
      h.stage == InTransfer && Wins(h, bid) ==>
        Refund(w, g, h, bid) == h.rent + if h.accepted then h.internalBid else bid
    case OfferStep(id, name, newOwner, price) => h.bidderName == ""
    case AcceptStep(g, id) => Refund(w, g, h, h.internalBid) == 0
    case EndStep(id) => true
    case MoveStep(id) => true
  }

  /** A step conserves the money in banks and houses if and only if it meets that condition. */
  lemma MoneyKeptIff(w: World, w': World, step: Step)
    requires Valid(w) && Does(w, w', step)
    ensures Money(w') == Money(w) <==> Keeps(w, step)
  {
    assert Sound(w.names, w.houses[step.id]);
    match step
    case BidStep(g, id, bid) =>
      if Wins(w.houses[id], bid) {
        OutbidMoney(w, w', g, id, bid);
      } else {
        TotalSet(w.houses, id, w'.houses[id], Held);
      }
    case OfferStep(id, name, newOwner, price) =>
      OfferMoney(w, w', id, name, newOwner, price);
    case AcceptStep(g, id) =>
      AcceptMoney(w, w', g, id);
    case EndStep(id) =>
      EndMoney(w, w', id);
    case MoveStep(id) =>
      TotalSet(w.houses, id, w'.houses[id], Held);
  }

  /** What the banks lose in `processBankAuction`. */
  lemma PaidTotal(w: World, bank': map<Guid, nat>, g: Guid, h: House, bid: nat)
    requires Paid(w, bank', g, h, bid)
    requires h.bidderName == "" || (h.bidder in w.bank && IsNamed(w.names, h.bidder, h.bidderName))
    ensures Total(bank', Balance) == Total(w.bank, Balance) - (h.rent + bid) + Refund(w, g, h, bid)
  {
    var left: nat := w.bank[g] - (h.rent + bid);
    TotalSet(w.bank, g, left, Balance);
    if h.bidderName != "" && h.bidderName != w.names[g] {
      RefundedTotal(w, bank', g, h, bid);
    }
  }

  lemma RefundedTotal(w: World, bank': map<Guid, nat>, g: Guid, h: House, bid: nat)
    requires Paid(w, bank', g, h, bid) && h.bidderName != "" && h.bidderName != w.names[g]
    requires h.bidder in w.bank && IsNamed(w.names, h.bidder, h.bidderName)
    ensures Total(bank', Balance) == Total(w.bank[g := w.bank[g] - (h.rent + bid)], Balance) + Refund(w, g, h, bid)
  {
    var left := w.bank[g := w.bank[g] - (h.rent + bid)];
    CreditedTotal(w.names, left, h.bidderName, h.bidHolderLimit + h.rent, bank', h.bidder);
  }

  lemma CreditedTotal(names: map<Guid, string>, bank: map<Guid, nat>, name: string, money: nat, bank': map<Guid, nat>,
                      g: Guid)
    requires IsNamed(names, g, name) && g in bank && Credited(names, bank, name, money, bank')
    ensures Total(bank', Balance) == Total(bank, Balance) + (bank[g] + money) % U64 - bank[g]
  {
    var more: nat := (bank[g] + money) % U64;
    TotalSet(bank, g, more, Balance);
  }

  /** Balances, and what a house holds on top of them, stay below 2^64. */
  lemma BalanceFits(w: World, id: nat, g: Guid)
    requires Valid(w) && id in w.houses && g in w.bank
    ensures w.bank[g] + Held(id, w.houses[id]) <= U64 - U32 && w.bank[g] <= U64 - U32
  {
    TotalBounds(w.bank, Balance);
    assert forall k {:trigger w.houses[k]} :: k in w.houses ==> Held(k, w.houses[k]) >= 0;
    TotalBounds(w.houses, Held);
    assert Balance(g, w.bank[g]) <= Total(w.bank, Balance);
    assert Held(id, w.houses[id]) <= Total(w.houses, Held);
  }

  /** Outside a transfer the previous bidder gets exactly limit and rent back. */
  lemma AuctionRefund(w: World, g: Guid, id: nat, bid: nat)
    requires Valid(w) && id in w.houses && w.houses[id].stage != InTransfer && g in w.names
    requires w.bank[g] >= w.houses[id].rent + bid
    ensures var h := w.houses[id];
            Refund(w, g, h, bid)
            == if h.bidderName == "" || h.bidderName == w.names[g] then 0 else h.bidHolderLimit + h.rent
  {
    var h := w.houses[id];
    assert Sound(w.names, h);
    if h.bidderName != "" {
      BalanceFits(w, id, h.bidder);
    }
  }

  /** What a winning bid changes, to the coin: nothing, except on a house in transfer. */
  lemma OutbidMoney(w: World, w': World, g: Guid, id: nat, bid: nat)
    requires Valid(w) && Outbid(w, w', g, id, bid)
    ensures var h := w.houses[id];
            Money(w') == Money(w) + if h.stage != InTransfer then 0
                                    else Refund(w, g, h, bid) - h.rent - if h.accepted then h.internalBid else bid
  {
    var h := w.houses[id];
    assert Sound(w.names, h);
    TotalSet(w.houses, id, w'.houses[id], Held);
    PaidTotal(w, w'.bank, g, h, bid);
    if h.stage != InTransfer {
      AuctionRefund(w, g, id, bid);
    }
  }

  /** Offering a house that carries a bid loses the bid and the rent paid with it. */
  lemma OfferMoney(w: World, w': World, id: nat, name: string, newOwner: Guid, bid: nat)
    requires Valid(w) && OfferTransfer(w, w', id, name, newOwner, bid)
    ensures var h := w.houses[id];
            Money(w') == Money(w) - if h.bidderName == "" then 0 else h.bidHolderLimit + h.rent
  {
    assert Sound(w.names, w.houses[id]);
    TotalSet(w.houses, id, w'.houses[id], Held);
  }

  /** An acceptance adds exactly what it refunds. */
  lemma AcceptMoney(w: World, w': World, g: Guid, id: nat)
    requires Valid(w) && AcceptTransfer(w, w', g, id)
    ensures var h := w.houses[id]; Money(w') == Money(w) + Refund(w, g, h, h.internalBid)
  {
    assert Sound(w.names, w.houses[id]);
    TotalSet(w.houses, id, w'.houses[id], Held);
    PaidTotal(w, w'.bank, g, w.houses[id], w.houses[id].internalBid);
  }

  lemma EndMoney(w: World, w': World, id: nat)
    requires w.names.Keys == w.bank.Keys && EndTransfer(w, w', id) && Sound(w.names, w.houses[id])
    ensures Money(w') == Money(w)
  {
    var h := w.houses[id];
    TotalSet(w.houses, id, w'.houses[id], Held);
    if h.accepted {
      var more: nat := w.bank[h.bidder] + (h.internalBid + h.rent);
      TotalSet(w.bank, h.bidder, more, Balance);
    }
  }

  // ---------------------------------------------------------------- runs

  ghost predicate IsRun(worlds: seq<World>, steps: seq<Step>) {
    && |worlds| == |steps| + 1
    && forall i | 0 <= i < |steps| :: Does(worlds[i], worlds[i + 1], steps[i])
  }

  /** The money is the same in every world of the run. */
  ghost predicate Constant(worlds: seq<World>)
    requires worlds != []
  {
    forall i | 0 <= i < |worlds| :: Money(worlds[i]) == Money(worlds[0])
  }

  lemma {:induction false} RunOrderly(worlds: seq<World>, steps: seq<Step>, n: nat)
    requires IsRun(worlds, steps) && Orderly(worlds[0]) && n < |worlds|
    ensures Orderly(worlds[n])
  {
    if n > 0 {
      RunOrderly(worlds, steps, n - 1);
      assert Does(worlds[n - 1], worlds[n - 1 + 1], steps[n - 1]);
      OrderlyKept(worlds[n - 1], worlds[n], steps[n - 1]);
    }
  }

  lemma {:induction false} KeptUpTo(worlds: seq<World>, steps: seq<Step>, n: nat)
    requires IsRun(worlds, steps) && Valid(worlds[0]) && n < |worlds|
    requires forall i | 0 <= i < n :: Keeps(worlds[i], steps[i])
    ensures Valid(worlds[n]) && Money(worlds[n]) == Money(worlds[0])
  {
    RunOrderly(worlds, steps, n);
    if n > 0 {
      KeptUpTo(worlds, steps, n - 1);
      assert Does(worlds[n - 1], worlds[n - 1 + 1], steps[n - 1]);
      MoneyKeptIff(worlds[n - 1], worlds[n], steps[n - 1]);
    }
  }

  /**
   House escrow over every run of any steps: the world stays orderly, and the money is the same throughout if and
   only if every step meets the condition in the state it starts from.
   */
  lemma HouseRun(worlds: seq<World>, steps: seq<Step>)
    requires IsRun(worlds, steps) && Valid(worlds[0])
    ensures Constant(worlds) <==> forall i | 0 <= i < |steps| :: Keeps(worlds[i], steps[i])
    ensures forall i | 0 <= i < |worlds| :: Orderly(worlds[i])
  {
    forall i | 0 <= i < |worlds| ensures Orderly(worlds[i]) {
      RunOrderly(worlds, steps, i);
    }
    if forall i | 0 <= i < |steps| :: Keeps(worlds[i], steps[i]) {
      forall i | 0 <= i < |worlds| ensures Money(worlds[i]) == Money(worlds[0]) {
        KeptUpTo(worlds, steps, i);
      }
    }
    if Constant(worlds) {
      forall i | 0 <= i < |steps| ensures Keeps(worlds[i], steps[i]) {
        assert Does(worlds[i], worlds[i + 1], steps[i]);
        assert Money(worlds[i]) == Money(worlds[0]) == Money(worlds[i + 1]);
        MoneyKeptIff(worlds[i], worlds[i + 1], steps[i]);
      }
    }
  }

  /** Steps that are well behaved as requests: bids only on available houses, and offers to exactly spelled names. */
  ghost predicate Guarded(w: World, step: Step) {
    match step
    case BidStep(g, id, bid) => id in w.houses && w.houses[id].stage == Available
    case OfferStep(id, name, newOwner, price) => newOwner in w.names && name == w.names[newOwner]
    case _ => true
  }

  /** Every open transfer names its new owner exactly, and only available houses carry bids. */
  ghost predicate Tidy(w: World) {
    forall id {:trigger w.houses[id]} :: id in w.houses ==>
      var h := w.houses[id];
      match h.stage
      case Available => true
      case InTransfer => h.bidder in w.names && h.bidderName == w.names[h.bidder]
      case _ => h.bidderName == ""
  }

  /** Guarded steps keep a tidy world tidy, and conserve its money. */
  lemma StepKeeps(w: World, w': World, step: Step)
    requires Valid(w) && Tidy(w) && Guarded(w, step) && Does(w, w', step)
    ensures Valid(w') && Tidy(w') && Money(w') == Money(w)
  {
    assert Sound(w.names, w.houses[step.id]);
    assert Keeps(w, step);
    MoneyKeptIff(w, w', step);
    OrderlyKept(w, w', step);
  }

  /** Over every run of guarded steps money is conserved, and every house stays sound. */
  lemma {:induction false} GuardedRun(worlds: seq<World>, steps: seq<Step>)
    requires IsRun(worlds, steps) && Valid(worlds[0]) && Tidy(worlds[0])
    requires forall i | 0 <= i < |steps| :: Guarded(worlds[i], steps[i])
    ensures var w' := worlds[|steps|]; Valid(w') && Tidy(w') && Money(w') == Money(worlds[0])
    decreases |steps|
  {
    if steps != [] {
      var n := |steps| - 1;
      GuardedRun(worlds[..n + 1], steps[..n]);
      StepKeeps(worlds[n], worlds[n + 1], steps[n]);
    }
  }

  // ---------------------------------------------------------------- what goes wrong otherwise

  /** The money of a world with one house. */
  lemma OneHouse(w: World, id: nat)
    requires w.houses.Keys == {id}
    ensures Total(w.houses, Held) == Held(id, w.houses[id])
  {
    TotalOne(w.houses, id, Held);
  }

  lemma OneBalance(bank: map<Guid, nat>, a: Guid)
    requires bank.Keys == {a}
    ensures Total(bank, Balance) == bank[a]
  {
    TotalOne(bank, a, Balance);
  }

  /** A world of one player and one house in transfer to that player. */
  function Example(name: string, balance: nat, h: House): World {
    World(map[2 := name], map[2 := balance], map[7 := h])
  }

  lemma ExampleValid(name: string, typed: string, balance: nat, h: House)
    requires name != "" && typed != "" && Lower(typed) == Lower(name) && balance < U32
    requires h.stage == InTransfer && h.bidder == 2 && h.bidderName == typed
    requires 0 < h.internalBid < U32 && h.bidHolderLimit < U32 && h.rent < U32
    ensures Valid(Example(name, balance, h))
    ensures Money(Example(name, balance, h)) == balance + if h.accepted then h.internalBid + h.rent else 0
  {
    var w := Example(name, balance, h);
    OneHouse(w, 7);
    OneBalance(w.bank, 2);
    assert Sound(w.names, h);
  }

  /**
   A transfer typed under another spelling of the new owner's name, as "bob" for "Bob": on acceptance the code
   takes the two spellings for two players and pays the rent back, so the money in banks and houses grows by it.
   */
  lemma SpellingCreatesMoney(name: string, typed: string) returns (w: World, w': World)
    requires name != "" && typed != "" && typed != name && Lower(typed) == Lower(name)
    ensures Valid(w) && Does(w, w', AcceptStep(2, 7)) && Money(w') == Money(w) + 10
  {
    var h := House(InTransfer, 1, 2, typed, 0, 50, 0, false, 10);
    w, w' := Example(name, 100, h), Example(name, 50, h.(accepted := true));
    ExampleValid(name, typed, 100, h);
    ExampleValid(name, typed, 50, h.(accepted := true));
    MisspeltStep(name, typed, h);
  }

  lemma MisspeltStep(name: string, typed: string, h: House)
    requires name != "" && typed != "" && typed != name && Lower(typed) == Lower(name)
    requires h == House(InTransfer, 1, 2, typed, 0, 50, 0, false, 10)
    ensures AcceptTransfer(Example(name, 100, h), Example(name, 50, h.(accepted := true)), 2, 7)
  {
    MisspeltPayment(name, typed, h);
    assert map[7 := h][7 := h.(accepted := true)] == map[7 := h.(accepted := true)];
  }

  lemma MisspeltPayment(name: string, typed: string, h: House)
    requires name != "" && typed != "" && typed != name && Lower(typed) == Lower(name)
    requires h == House(InTransfer, 1, 2, typed, 0, 50, 0, false, 10)
    ensures Paid(Example(name, 100, h), map[2 := 50], 2, h, 50)
  {
    var names, bank := map[2 := name], map[2 := 40];
    assert Example(name, 100, h).bank[2 := 40] == bank;
    assert (40 + 10) % U64 == 50 && bank[2 := 50] == map[2 := 50];
    assert IsNamed(names, 2, typed);
  }

  lemma BobIsBob()
    ensures "bob" != "Bob" && Lower("bob") == Lower("Bob")
  {
    assert "Bob"[1..] == "ob" == "bob"[1..];
  }

  /** A world of two players and one house. */
  function Pair(ann: string, bob: string, a: nat, b: nat, h: House): World {
    World(map[2 := ann, 3 := bob], map[2 := a, 3 := b], map[7 := h])
  }

  /** Two different players, whatever the case of their names. */
  predicate TwoNames(ann: string, bob: string) {
    ann != "" && bob != "" && Lower(ann) != Lower(bob)
  }

  lemma AnnIsNotBob()
    ensures TwoNames("ann", "bob")
  {
    assert Lower("ann")[0] == 'a' && Lower("bob")[0] == 'b';
  }

  lemma PairMoney(ann: string, bob: string, a: nat, b: nat, h: House)
    ensures Money(Pair(ann, bob, a, b, h)) == a + b + Held(7, h)
  {
    var w := Pair(ann, bob, a, b, h);
    OneHouse(w, 7);
    OneBalance(map[2 := a], 2);
    TotalSet<Guid, nat>(map[2 := a], 3, b, Balance);
    assert map[2 := a][3 := b] == w.bank;
  }

  lemma PairValid(ann: string, bob: string, a: nat, b: nat, h: House)
    requires TwoNames(ann, bob) && a < U32 && b < U32 && h.internalBid < U32 && h.bidHolderLimit < U32
    requires Sound(map[2 := ann, 3 := bob], h)
    ensures Valid(Pair(ann, bob, a, b, h)) && Money(Pair(ann, bob, a, b, h)) == a + b + Held(7, h)
  {
    PairMoney(ann, bob, a, b, h);
    PairOrderly(ann, bob, a, b, h);
  }

  lemma PairOrderly(ann: string, bob: string, a: nat, b: nat, h: House)
    requires TwoNames(ann, bob) && Sound(map[2 := ann, 3 := bob], h)
    ensures Orderly(Pair(ann, bob, a, b, h))
  {
  }

  /** The first bid on the house, by the second player. */
  lemma PairFirstBid(ann: string, bob: string, a: nat, b: nat, h: House, bid: nat)
    requires TwoNames(ann, bob) && h.bidderName == "" && 0 < bid < U64 && h.rent + bid <= b
    ensures Outbid(Pair(ann, bob, a, b, h), Pair(ann, bob, a, b - h.rent - bid, h.(
                     highestBid := 0, internalBid := bid, bidHolderLimit := bid, bidderName := bob, bidder := 3)),
                   3, 7, bid)
  {
    var w := Pair(ann, bob, a, b, h);
    var h' := h.(highestBid := 0, internalBid := bid, bidHolderLimit := bid, bidderName := bob, bidder := 3);
    assert w.bank[3 := b - (h.rent + bid)] == Pair(ann, bob, a, b - h.rent - bid, h').bank;
    assert w.houses[7 := h'] == map[7 := h'];
  }

  /** A bid by the first player above what the second one holds. */
  lemma PairOutbid(ann: string, bob: string, a: nat, b: nat, h: House, h': House, bid: nat) returns (w': World)
    requires TwoNames(ann, bob) && h.bidder == 3 && h.bidderName == bob && OutbidBy(ann, a, b, h, h', bid)
    ensures Outbid(Pair(ann, bob, a, b, h), w', 2, 7, bid)
    ensures Money(w') == a + b + h.bidHolderLimit - bid + Held(7, h')
  {
    w' := Pair(ann, bob, a - h.rent - bid, b + h.bidHolderLimit + h.rent, h');
    PairMoney(ann, bob, a - h.rent - bid, b + h.bidHolderLimit + h.rent, h');
    PairStep(ann, bob, a, b, h, h', bid);
  }

  predicate OutbidBy(ann: string, a: nat, b: nat, h: House, h': House, bid: nat) {
    && h.internalBid < bid < U64 && h.rent + bid <= a && b + h.bidHolderLimit + h.rent < U64
    && h' == h.(highestBid := h.internalBid + 1, internalBid := bid, bidHolderLimit := bid, bidderName := ann,
                bidder := 2)
  }

  lemma PairStep(ann: string, bob: string, a: nat, b: nat, h: House, h': House, bid: nat)
    requires TwoNames(ann, bob) && h.bidder == 3 && h.bidderName == bob && OutbidBy(ann, a, b, h, h', bid)
    ensures Outbid(Pair(ann, bob, a, b, h), Pair(ann, bob, a - h.rent - bid, b + h.bidHolderLimit + h.rent, h'),
                   2, 7, bid)
  {
    var w, bank := Pair(ann, bob, a, b, h), map[2 := a - h.rent - bid, 3 := b + h.bidHolderLimit + h.rent];
    PairPaid(ann, bob, a, b, h, bid);
    WinningBid(w, bank, h', 2, 7, bid);
    assert w.houses[7 := h'] == map[7 := h'];
  }

  lemma PairPaid(ann: string, bob: string, a: nat, b: nat, h: House, bid: nat)
    requires TwoNames(ann, bob) && h.bidderName == bob && 0 < bid
    requires h.rent + bid <= a && b + h.bidHolderLimit + h.rent < U64
    ensures Paid(Pair(ann, bob, a, b, h), map[2 := a - h.rent - bid, 3 := b + h.bidHolderLimit + h.rent], 2, h, bid)
  {
    var names, bank, money :=
      map[2 := ann, 3 := bob], map[2 := a, 3 := b][2 := a - (h.rent + bid)], h.bidHolderLimit + h.rent;
    assert bank[3 := (b + money) % U64] == map[2 := a - h.rent - bid, 3 := b + h.bidHolderLimit + h.rent];
    assert IsNamed(names, 3, bob);
  }

  /**
   Bob bids 50 on the house Ann lives in, which nothing stops. When Ann then offers the house to him, his name is
   written over his bid, and the 60 he paid are gone.
   */
  lemma OfferOverBidLosesMoney(ann: string, bob: string) returns (w: World, w': World, w'': World)
    requires TwoNames(ann, bob)
    ensures Valid(w) && Does(w, w', BidStep(3, 7, 50)) && Valid(w') && Money(w') == Money(w) == 200
    ensures Does(w', w'', OfferStep(7, bob, 3, 5)) && Money(w'') == 140 && !Keeps(w', OfferStep(7, bob, 3, 5))
  {
    var h := House(Rented, 2, 0, "", 0, 0, 0, false, 10);
    var h' := h.(internalBid := 50, bidHolderLimit := 50, bidderName := bob, bidder := 3);
    var h'' := h'.(stage := InTransfer, internalBid := 5);
    w, w', w'' := Pair(ann, bob, 100, 100, h), Pair(ann, bob, 100, 40, h'), Pair(ann, bob, 100, 40, h'');
    PairValid(ann, bob, 100, 100, h);
    PairValid(ann, bob, 100, 40, h');
    PairMoney(ann, bob, 100, 40, h'');
    PairFirstBid(ann, bob, 100, 100, h, 50);
    PairOffer(ann, bob, 100, 40, h', h'');
  }

  lemma PairOffer(ann: string, bob: string, a: nat, b: nat, h: House, h': House)
    requires bob != "" && h.stage == Rented && h.bidder == 3
    requires h.bidderName == bob && h' == h.(stage := InTransfer, internalBid := 5)
    ensures OfferTransfer(Pair(ann, bob, a, b, h), Pair(ann, bob, a, b, h'), 7, bob, 3, 5)
  {
    assert map[7 := h][7 := h'] == map[7 := h'];
  }

  /**
   Ann bids 60 on a house whose transfer Bob has accepted for 50. He gets back the limit recorded in some earlier
   auction, not what he paid: money is lost or made by the difference.
   */
  lemma BidOnTransferChangesMoney(ann: string, bob: string, limit: nat) returns (w: World, w': World)
    requires TwoNames(ann, bob) && limit < 1000
    ensures Valid(w) && w.houses.Keys == {7} && w.houses[7].stage == InTransfer && w.houses[7].bidHolderLimit == limit
    ensures Does(w, w', BidStep(2, 7, 60)) && Money(w') == Money(w) + limit - 50
  {
    var h := House(InTransfer, 1, 3, bob, 0, 50, limit, true, 10);
    w := Pair(ann, bob, 100, 40, h);
    PairValid(ann, bob, 100, 40, h);
    var h' := h.(highestBid := 51, internalBid := 60, bidHolderLimit := 60, bidderName := ann, bidder := 2);
    w' := PairOutbid(ann, bob, 100, 40, h, h', 60);
  }
}
