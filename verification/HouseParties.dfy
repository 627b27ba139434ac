/**
 Whose money it is that houses hold, and who wins an auction: bids and transfers move money between a player's
 bank and the houses held for that player, and never from one player to another.
 */
module HouseParties {
  import opened Common
  import opened Sums
  import opened HouseState

  // ---------------------------------------------------------------- what belongs to whom

  /** What a house holds for a player: the limit of the bid and the rent, or the price and rent of a transfer. */
  ghost function HeldFor(p: Guid): (nat, House) -> int {
    (id: nat, h: House) =>
      if h.bidder != p then 0
      else if h.stage == InTransfer then if h.accepted then h.internalBid + h.rent else 0
      else if h.bidderName != "" then h.bidHolderLimit + h.rent
      else 0
  }

  /** The money of a player: the bank, and what houses hold. */
  ghost function MoneyOf(w: World, p: Guid): int {
    (if p in w.bank then w.bank[p] else 0) + Total(w.houses, HeldFor(p))
  }

  /** A step that mixes nobody's money with anybody else's, told from the house before it. */
  ghost predicate Clean(w: World, step: Step) {
    step.id in w.houses &&
    var h := w.houses[step.id];
    match step
    case BidStep(g, id, bid) => h.stage != InTransfer
    case OfferStep(id, name, newOwner, price) => h.bidderName == ""
    case AcceptStep(g, id) => g in w.names && h.bidderName == w.names[g]
    case EndStep(id) => true
    case MoveStep(id) => true
  }

  /** Such a step keeps the money of every single player. */
  lemma StepKeepsEach(w: World, w': World, step: Step, p: Guid)
    requires Valid(w) && Does(w, w', step) && Clean(w, step)
    ensures MoneyOf(w', p) == MoneyOf(w, p)
  {
    assert Sound(w.names, w.houses[step.id]);
    TotalSet(w.houses, step.id, w'.houses[step.id], HeldFor(p));
    if step.BidStep? && Outbid(w, w', step.g, step.id, step.bid) {
      WinnerPays(w, w', step.g, step.id, step.bid);
    }
  }

  /** A winning bid outside a transfer: the bidder pays bid and rent, the one outbid gets limit and rent back. */
  lemma WinnerPays(w: World, w': World, g: Guid, id: nat, bid: nat)
    requires Valid(w) && Outbid(w, w', g, id, bid) && w.houses[id].stage != InTransfer
    ensures w'.bank.Keys == w.bank.Keys && g in w.bank
    ensures var h := w.houses[id];
            && (h.bidderName != "" ==> h.bidder in w.bank && h.bidder != g)
            && forall p | p in w.bank ::
                 w'.bank[p]
                 == w.bank[p] - (if p == g then bid + h.rent else 0)
                         + (if h.bidderName != "" && p == h.bidder then h.bidHolderLimit + h.rent else 0)
  {
    HolderIs(w, id);
    PaidBanks(w, w'.bank, g, w.houses[id], bid);
  }

  /** The holder of a bid is known, and can be paid back without an overflow. */
  lemma HolderIs(w: World, id: nat)
    requires Valid(w) && id in w.houses && w.houses[id].stage != InTransfer
    ensures var h := w.houses[id];
            h.bidderName != "" ==>
              && IsNamed(w.names, h.bidder, h.bidderName) && w.names[h.bidder] == h.bidderName && h.bidder in w.bank
              && w.bank[h.bidder] + h.bidHolderLimit + h.rent < U64
  {
    assert Sound(w.names, w.houses[id]);
    if w.houses[id].bidderName != "" {
      BalanceFits(w, id, w.houses[id].bidder);
    }
  }

  lemma PaidBanks(w: World, bank': map<Guid, nat>, g: Guid, h: House, bid: nat)
    requires Paid(w, bank', g, h, bid) && h.bidderName != w.names[g]
    requires h.bidderName != "" ==>
               && IsNamed(w.names, h.bidder, h.bidderName) && w.names[h.bidder] == h.bidderName && h.bidder in w.bank
               && w.bank[h.bidder] + h.bidHolderLimit + h.rent < U64
    ensures h.bidderName != "" ==> h.bidder != g
    ensures bank' == if h.bidderName == "" then w.bank[g := w.bank[g] - (h.rent + bid)]
                     else w.bank[g := w.bank[g] - (h.rent + bid)]
                                [h.bidder := w.bank[h.bidder] + (h.bidHolderLimit + h.rent)]
  {
    if h.bidderName != "" {
      var left := w.bank[g := w.bank[g] - (h.rent + bid)];
      CreditedIs(w.names, left, h.bidderName, h.bidHolderLimit + h.rent, bank', h.bidder);
    }
  }

  lemma CreditedIs(names: map<Guid, string>, bank: map<Guid, nat>, name: string, money: nat, bank': map<Guid, nat>,
                   p: Guid)
    requires IsNamed(names, p, name) && p in bank && bank[p] + money < U64 && Credited(names, bank, name, money, bank')
    ensures bank' == bank[p := bank[p] + money]
  {
  }

  /** Over every run of such steps the money of every player is the same in the end. */
  lemma {:induction false} RunKeepsEach(worlds: seq<World>, steps: seq<Step>, p: Guid)
    requires IsRun(worlds, steps) && Valid(worlds[0])
    requires forall i | 0 <= i < |steps| :: Clean(worlds[i], steps[i])
    ensures Valid(worlds[|steps|]) && MoneyOf(worlds[|steps|], p) == MoneyOf(worlds[0], p)
    decreases |steps|
  {
    if steps != [] {
      var n := |steps| - 1;
      RunKeepsEach(worlds[..n + 1], steps[..n], p);
      assert Does(worlds[n], worlds[n + 1], steps[n]);
      StepKeepsEach(worlds[n], worlds[n + 1], steps[n], p);
      CleanKeeps(worlds[n], worlds[n + 1], steps[n]);
    }
  }

  lemma CleanKeeps(w: World, w': World, step: Step)
    requires Valid(w) && Does(w, w', step) && Clean(w, step)
    ensures Valid(w') && Keeps(w, step)
  {
    assert Sound(w.names, w.houses[step.id]);
    MoneyKeptIff(w, w', step);
    OrderlyKept(w, w', step);
  }

  // ---------------------------------------------------------------- the house itself

  /** A bid changes nothing of a house but the bid; a losing one only what is shown, and costs nothing. */
  lemma BidFields(w: World, w': World, g: Guid, id: nat, bid: nat)
    requires Does(w, w', BidStep(g, id, bid))
    ensures id in w.houses && id in w'.houses
    ensures forall k | k in w.houses && k != id :: k in w'.houses && w'.houses[k] == w.houses[k]
    ensures var h, h' := w.houses[id], w'.houses[id];
            && h'.stage == h.stage && h'.owner == h.owner && h'.rent == h.rent && h'.accepted == h.accepted
            && (if h.bidderName == "" || bid > h.internalBid then
                  && g in w.names && h'.bidder == g && h'.bidderName == w.names[g]
                  && h'.internalBid == bid && h'.bidHolderLimit == bid
                  && h'.highestBid == (if h.bidderName == "" then 0 else h.internalBid + 1)
                else
                  && h'.bidder == h.bidder && h'.bidderName == h.bidderName && h'.internalBid == h.internalBid
                  && h'.bidHolderLimit == h.bidHolderLimit && h'.highestBid == bid && w'.bank == w.bank)
  {
  }

  /** An offer names the new owner and the price, and costs nobody anything. */
  lemma OfferFields(w: World, w': World, id: nat, name: string, newOwner: Guid, price: nat)
    requires Does(w, w', OfferStep(id, name, newOwner, price))
    ensures w'.bank == w.bank && id in w.houses && id in w'.houses && w.houses[id].stage == Rented
    ensures var h, h' := w.houses[id], w'.houses[id];
            && h'.stage == InTransfer && h'.bidder == newOwner && h'.bidderName == name && h'.internalBid == price
            && h'.owner == h.owner && h'.rent == h.rent && h'.accepted == h.accepted
            && h'.highestBid == h.highestBid && h'.bidHolderLimit == h.bidHolderLimit
  {
  }

  /** The new owner, named exactly, pays price and rent; nobody else pays or gets anything. */
  lemma AcceptFields(w: World, w': World, g: Guid, id: nat)
    requires Does(w, w', AcceptStep(g, id)) && g in w.names && w.houses[id].bidderName == w.names[g]
    ensures var h := w.houses[id];
            && w.houses[id].bidder == g && g in w.bank && h.internalBid + h.rent <= w.bank[g]
            && w'.bank == w.bank[g := w.bank[g] - (h.internalBid + h.rent)]
            && id in w'.houses && w'.houses[id] == h.(accepted := true) && !h.accepted && h.stage == InTransfer
  {
  }

  /** Ending a transfer gives an accepted price and the rent back to the new owner; the house is rented as before. */
  lemma EndFields(w: World, w': World, id: nat)
    requires Does(w, w', EndStep(id))
    ensures id in w.houses && id in w'.houses && w.houses[id].stage == InTransfer
    ensures var h, h' := w.houses[id], w'.houses[id];
            && h'.stage == Rented && h'.bidderName == "" && h'.bidder == 0 && h'.internalBid == 0 && !h'.accepted
            && h'.owner == h.owner && h'.rent == h.rent && h'.bidHolderLimit == h.bidHolderLimit
            && forall p | p in w.bank :: p in w'.bank
                 && w'.bank[p] == w.bank[p] + if h.accepted && p == h.bidder then h.internalBid + h.rent else 0
  {
  }

  /** Moving out, and taking it back, changes nothing but the stage. */
  lemma MoveFields(w: World, w': World, id: nat)
    requires Does(w, w', MoveStep(id))
    ensures w'.bank == w.bank && id in w.houses && id in w'.houses
    ensures w.houses[id].stage in {Rented, MoveOut}
    ensures w'.houses[id] == w.houses[id].(stage := if w.houses[id].stage == Rented then MoveOut else Rented)
  {
  }

  /** Offered, accepted and then cancelled or rejected: everybody's bank is as it was, and so is the house. */
  lemma TransferUndone(a: World, b: World, c: World, d: World, id: nat, newOwner: Guid, price: nat)
    requires Orderly(a) && newOwner in a.names && id in a.houses
    requires a.houses[id].bidderName == "" && !a.houses[id].accepted
    requires Does(a, b, OfferStep(id, a.names[newOwner], newOwner, price))
    requires Does(b, c, AcceptStep(newOwner, id)) && Does(c, d, EndStep(id))
    ensures d.bank == a.bank
    ensures d.houses[id] == a.houses[id].(bidder := 0, internalBid := 0)
  {
    OfferFields(a, b, id, a.names[newOwner], newOwner, price);
    AcceptFields(b, c, newOwner, id);
    EndFields(c, d, id);
  }

  // ---------------------------------------------------------------- auctions

  /** Bids on one house, which nobody has bid on before. */
  ghost predicate IsAuction(worlds: seq<World>, steps: seq<Step>, id: nat) {
    && IsRun(worlds, steps) && Valid(worlds[0])
    && id in worlds[0].houses && worlds[0].houses[id].bidderName == "" && worlds[0].houses[id].stage != InTransfer
    && forall i | 0 <= i < |steps| :: steps[i].BidStep? && steps[i].id == id
  }

  /** The bid `i` is the first of the highest bids. */
  ghost predicate First(steps: seq<Step>, i: nat)
    requires forall j | 0 <= j < |steps| :: steps[j].BidStep?
  {
    && i < |steps|
    && (forall j | 0 <= j < |steps| :: steps[j].bid <= steps[i].bid)
    && (forall j | 0 <= j < i :: steps[j].bid < steps[i].bid)
  }

  /** A player leads: it has paid its bid and the rent, and everybody else has what they had at first. */
  ghost predicate Leads(first: World, w: World, id: nat, g: Guid, bid: nat) {
    && id in w.houses && id in first.houses && w.bank.Keys == first.bank.Keys && w.names == first.names && g in w.names
    && var h := w.houses[id];
       && h.bidder == g && h.bidderName == w.names[g] && h.internalBid == bid && h.bidHolderLimit == bid
       && h.stage == first.houses[id].stage && h.rent == first.houses[id].rent
       && forall p | p in w.bank :: w.bank[p] == first.bank[p] - if p == g then bid + h.rent else 0
  }

  /** After any bids the first of the highest leads: it is paid for, and everybody else has everything back. */
  lemma {:induction false} HighestBidWins(worlds: seq<World>, steps: seq<Step>, id: nat) returns (i: nat)
    requires IsAuction(worlds, steps, id) && steps != []
    ensures First(steps, i) && Leads(worlds[0], worlds[|steps|], id, steps[i].g, steps[i].bid) && Valid(worlds[|steps|])
    decreases |steps|
  {
    var n := |steps| - 1;
    assert Does(worlds[n], worlds[n + 1], steps[n]);
    if n == 0 {
      i := 0;
      FirstBid(worlds[0], worlds[1], steps[0]);
    } else {
      var k := HighestBidWins(worlds[..n + 1], steps[..n], id);
      i := FirstNext(steps, k);
      NextBid(worlds[0], worlds[n], worlds[n + 1], steps[n], steps[k].g, steps[k].bid);
    }
  }

  lemma FirstNext(steps: seq<Step>, k: nat) returns (i: nat)
    requires steps != [] && forall j | 0 <= j < |steps| :: steps[j].BidStep?
    requires First(steps[..|steps| - 1], k)
    ensures i == (if steps[|steps| - 1].bid > steps[k].bid then |steps| - 1 else k) && First(steps, i)
    ensures steps[..|steps| - 1][k] == steps[k]
  {
    var n := |steps| - 1;
    assert forall j | 0 <= j < n :: steps[..n][j] == steps[j];
    i := if steps[n].bid > steps[k].bid then n else k;
  }

  lemma FirstBid(w: World, w': World, step: Step)
    requires Valid(w) && step.BidStep? && Does(w, w', step)
    requires w.houses[step.id].bidderName == "" && w.houses[step.id].stage != InTransfer
    ensures Valid(w') && Leads(w, w', step.id, step.g, step.bid)
  {
    CleanKeeps(w, w', step);
    OrderlyKept(w, w', step);
    BidFields(w, w', step.g, step.id, step.bid);
    WinnerPays(w, w', step.g, step.id, step.bid);
  }

  lemma NextBid(first: World, w: World, w': World, step: Step, g: Guid, bid: nat)
    requires step.BidStep? && Does(w, w', step) && Valid(w) && Orderly(first)
    requires Leads(first, w, step.id, g, bid) && w.houses[step.id].stage != InTransfer
    ensures Valid(w')
    ensures if step.bid > bid then Leads(first, w', step.id, step.g, step.bid) else Leads(first, w', step.id, g, bid)
  {
    assert w.names[g] != "";
    CleanKeeps(w, w', step);
    OrderlyKept(w, w', step);
    BidFields(w, w', step.g, step.id, step.bid);
    if step.bid > bid {
      WinnerPays(w, w', step.g, step.id, step.bid);
    }
  }
}
