/** The house operations of the cyclopedia, proved against the steps of `HouseState`. */
module Houses {
  import opened Common
  import opened HouseState

  datatype Found = Nobody | Somebody(guid: Guid)

  /** `getPlayerByName`, online or offline: the lookup ignores case, and the empty name finds nobody. */
  method FindPlayer(names: map<Guid, string>, name: string) returns (found: Found)
    ensures found.Nobody? ==> forall g :: !IsNamed(names, g, name)
    ensures found.Somebody? ==> IsNamed(names, found.guid, name)
  {
    var rest := names.Keys;
    while rest != {}
      invariant rest <= names.Keys
      invariant forall g <- names.Keys - rest :: !IsNamed(names, g, name)
      decreases rest
    {
      var g :| g in rest;
      if name != "" && Lower(names[g]) == Lower(name) {
        return Somebody(g);
      }
      rest := rest - {g};
    }
    return Nobody;
  }

  /** The houses that name the player as their bidder. */
  ghost function Named(houses: map<nat, House>, name: string): set<nat> {
    set id | id in houses && houses[id].bidderName == name
  }

  lemma NamedStep(houses: map<nat, House>, name: string, rest: set<nat>, id: nat)
    requires id in houses && id in rest
    ensures |Named(houses, name) - (rest - {id})|
            == |Named(houses, name) - rest| + if houses[id].bidderName == name then 1 else 0
  {
    var before := Named(houses, name) - rest;
    assert Named(houses, name) - (rest - {id}) == if houses[id].bidderName == name then before + {id} else before;
  }

  /** `getHighestBidCountByPlayerName`: on how many houses the player is the named bidder. */
  method HighestBidCount(houses: map<nat, House>, name: string) returns (count: nat)
    ensures count == |Named(houses, name)|
  {
    count := 0;
    var rest := houses.Keys;
    while rest != {}
      invariant rest <= houses.Keys
      invariant count == |Named(houses, name) - rest|
      decreases rest
    {
      var id :| id in rest;
      NamedStep(houses, name, rest, id);
      if houses[id].bidderName == name {
        count := count + 1;
      }
      rest := rest - {id};
    }
    assert Named(houses, name) - rest == Named(houses, name);
  }

  /** Different players have different names. */
  ghost predicate DistinctNames(names: map<Guid, string>) {
    forall g, h | g in names && h in names && g != h :: Lower(names[g]) != Lower(names[h])
  }

  /**
   `processBankAuction` (without its replace mode): take bid and rent from the player, and give the bidder
   recorded on the house limit and rent back unless it is the same name. All sums are taken in 64 bits.
   */
  method ProcessBankAuction(w: World, g: Guid, h: House, bid: nat) returns (ok: bool, bank: map<Guid, nat>)
    requires g in w.names && w.names.Keys == w.bank.Keys && DistinctNames(w.names)
    requires h.rent < U32 && w.bank[g] <= U64 - U32 && bid < U64
    ensures ok <==> bid > 0 && w.bank[g] >= h.rent + bid
    ensures if ok then Paid(w, bank, g, h, bid) else bank == w.bank
  {
    bank := w.bank;
    if bid <= 0 {
      return false, bank;
    }
    var balance := bank[g];
    if balance < (h.rent + bid) % U64 {
      return false, bank;
    }
    if balance < bid {
      return false, bank;
    }
    bank := bank[g := (bank[g] - (h.rent + bid)) % U64];
    if h.bidderName != w.names[g] {
      var other := FindPlayer(w.names, h.bidderName);
      if other.Somebody? {
        bank := bank[other.guid := (bank[other.guid] + (h.bidHolderLimit + h.rent)) % U64];
      }
    }
    return true, bank;
  }

  /** The refund of an accepted transfer fits into 64 bits. */
  ghost predicate TransferRefundable(w: World, h: House) {
    h.accepted && h.bidder in w.bank ==> w.bank[h.bidder] + h.internalBid + h.rent < U64
  }

  lemma TransferRefundFits(w: World, id: nat)
    requires Valid(w) && id in w.houses && w.houses[id].stage == InTransfer
    ensures TransferRefundable(w, w.houses[id])
  {
    var h := w.houses[id];
    if h.accepted && h.bidder in w.bank {
      BalanceFits(w, id, h.bidder);
    }
  }

  datatype BidResult = Refused | LowerBid | Success

  lemma Accepting(w: World, bank: map<Guid, nat>, g: Guid, id: nat)
    requires id in w.houses && Paid(w, bank, g, w.houses[id], w.houses[id].internalBid)
    requires var h := w.houses[id]; h.stage == InTransfer && h.bidder == g && !h.accepted
    ensures AcceptTransfer(w, World(w.names, bank, w.houses[id := w.houses[id].(accepted := true)]), g, id)
  {
  }

  /** The house after a winning bid. */
  method RecordBid(house: House, g: Guid, name: string, bid: nat) returns (h: House)
    ensures h == house.(highestBid := if house.bidderName == "" then 0 else house.internalBid + 1,
                        internalBid := bid, bidHolderLimit := bid, bidderName := name, bidder := g)
  {
    h := house.(highestBid := if house.bidderName == "" then 0 else house.internalBid + 1);
    h := h.(internalBid := bid);
    h := h.(bidHolderLimit := bid);
    h := h.(bidderName := name);
    h := h.(bidder := g);
  }

  class HouseOffice {
    var names: map<Guid, string>
    var bank: map<Guid, nat>
    var houses: map<nat, House>

    constructor (names: map<Guid, string>, bank: map<Guid, nat>, houses: map<nat, House>)
      ensures View() == World(names, bank, houses)
    {
      this.names, this.bank, this.houses := names, bank, houses;
    }

    ghost function View(): World
      reads this
    {
      World(names, bank, houses)
    }

    /**
     `playerCyclopediaHouseBid`. `allowed` stands for the house limit of the account; the result of
     `canBidHouse` is reported to the player and otherwise ignored, so the house may be in any stage.
     A player who is the named bidder of any house is turned away, so nobody ever raises a bid of their own.
     */
    method PlaceBid(g: Guid, id: nat, bid: nat, allowed: bool) returns (result: BidResult)
      requires Valid(View()) && bid < U64
      modifies this
      ensures Orderly(View())
      ensures match result
              case Refused => View() == old(View())
              case LowerBid => Underbid(old(View()), View(), g, id, bid)
              case Success => Outbid(old(View()), View(), g, id, bid)
      ensures result != Refused ==> allowed
      ensures result != Refused ==> forall k <- old(houses) :: old(houses)[k].bidderName != names[g]
      ensures allowed && g in old(names) && id in old(houses)
              && (forall k <- old(houses) :: old(houses)[k].bidderName != old(names)[g])
              ==> var h := old(houses)[id];
                  result == if h.bidderName != "" && bid <= h.internalBid then LowerBid
                            else if bid > 0 && old(bank)[g] >= h.rent + bid then Success else Refused
    {
      if !allowed || g !in names || id !in houses {
        return Refused;
      }
      var count := HighestBidCount(houses, names[g]);
      assert count == 0 <==> Named(houses, names[g]) == {};
      assert forall k <- houses :: houses[k].bidderName == names[g] <==> k in Named(houses, names[g]);
      if count >= 1 {
        return Refused;
      }
      var h := houses[id];
      if h.bidderName != "" && bid <= h.internalBid {
        houses := houses[id := h.(highestBid := bid)];
        result := LowerBid;
      } else {
        var ok := WinBid(g, id, bid);
        result := if ok then Success else Refused;
      }
      if result != Refused {
        OrderlyKept(old(View()), View(), BidStep(g, id, bid));
      }
    }

    /** A first bid, or one above the hidden bid of somebody else: pay, and take over the house's bid fields. */
    method WinBid(g: Guid, id: nat, bid: nat) returns (ok: bool)
      requires Valid(View()) && bid < U64 && g in names && id in houses
      requires houses[id].bidderName != names[g] && Wins(houses[id], bid)
      modifies this
      ensures ok <==> bid > 0 && old(bank)[g] >= old(houses)[id].rent + bid
      ensures if ok then Outbid(old(View()), View(), g, id, bid) else View() == old(View())
    {
      var h := houses[id];
      assert Sound(names, h);
      BalanceFits(View(), id, g);
      var after;
      ok, after := ProcessBankAuction(World(names, bank, houses), g, h, bid);
      if ok {
        var won := RecordBid(h, g, names[g], bid);
        WinningBid(View(), after, won, g, id, bid);
        bank := after;
        houses := houses[id := won];
      }
    }

    /** `playerCyclopediaHouseTransfer`; `allowed` stands for the checks on the new owner. */
    method OfferHouse(g: Guid, id: nat, name: string, bid: nat, allowed: bool)
      returns (done: bool, ghost newOwner: Guid)
      requires bid < U64
      modifies this`houses
      ensures old(Orderly(View())) ==> Orderly(View())
      ensures if done then allowed && OfferTransfer(old(View()), View(), id, name, newOwner, bid)
              && old(houses)[id].owner == g && newOwner != g
              else View() == old(View())
      ensures (allowed && id in old(houses) && old(houses)[id].stage == Rented && old(houses)[id].owner == g
               && (exists p :: IsNamed(names, p, name)) && !IsNamed(names, g, name)) ==> done
    {
      newOwner := 0;
      var found := FindPlayer(names, name);
      if found.Nobody? || id !in houses || houses[id].stage != Rented {
        return false, 0;
      }
      if !allowed || houses[id].owner != g || g == found.guid {
        return false, 0;
      }
      var h := houses[id];
      h := h.(bidderName := name);
      h := h.(bidder := found.guid);
      h := h.(internalBid := bid);
      h := h.(stage := InTransfer);
      houses := houses[id := h];
      if old(Orderly(View())) {
        OrderlyKept(old(View()), View(), OfferStep(id, name, found.guid, bid));
      }
      return true, found.guid;
    }

    /**
     `playerCyclopediaHouseAcceptTransfer`, with `canAcceptTransferHouse`; `allowed` stands for its premium checks.
     */
    method AcceptHouse(g: Guid, id: nat, allowed: bool) returns (done: bool)
      requires Valid(View())
      modifies this
      ensures Orderly(View())
      ensures if done then AcceptTransfer(old(View()), View(), g, id) else View() == old(View())
      ensures done <==> allowed && g in old(names) && id in old(houses) && old(houses)[id].stage == InTransfer
                        && old(houses)[id].bidder == g && !old(houses)[id].accepted && old(houses)[id].internalBid > 0
                        && old(bank)[g] >= old(houses)[id].rent + old(houses)[id].internalBid
    {
      if !allowed || g !in names || id !in houses || houses[id].stage != InTransfer {
        return false;
      }
      var h := houses[id];
      if h.bidder != g || h.accepted {
        return false;
      }
      done := TakeOver(g, id);
      if done {
        OrderlyKept(old(View()), View(), AcceptStep(g, id));
      }
    }

    /** The named new owner pays, if there is enough on the bank, and has then accepted. */
    method TakeOver(g: Guid, id: nat) returns (ok: bool)
      requires Valid(View()) && g in names && id in houses
      requires houses[id].stage == InTransfer && houses[id].bidder == g && !houses[id].accepted
      modifies this
      ensures ok <==> old(houses)[id].internalBid > 0
                      && old(bank)[g] >= old(houses)[id].rent + old(houses)[id].internalBid
      ensures if ok then AcceptTransfer(old(View()), View(), g, id) else View() == old(View())
    {
      var h := houses[id];
      assert Sound(names, h);
      BalanceFits(View(), id, g);
      if bank[g] < (h.rent + h.internalBid) % U64 {
        return false;
      }
      var after;
      ok, after := ProcessBankAuction(World(names, bank, houses), g, h, h.internalBid);
      if ok {
        Accepting(View(), after, g, id);
        bank := after;
        houses := houses[id := h.(accepted := true)];
      }
    }

    /** Back to rented, paying back an accepted price: what cancelling and rejecting a transfer share. */
    method Revert(id: nat)
      requires id in houses && houses[id].stage == InTransfer && TransferRefundable(View(), houses[id])
      modifies this
      ensures EndTransfer(old(View()), View(), id)
    {
      var h := houses[id];
      if h.accepted {
        var amountPaid := h.internalBid + h.rent;
        if h.bidder in bank {
          bank := bank[h.bidder := (bank[h.bidder] + amountPaid) % U64];
        }
      }
      h := h.(bidderName := "");
      h := h.(bidder := 0);
      h := h.(internalBid := 0);
      h := h.(stage := Rented);
      h := h.(accepted := false);
      houses := houses[id := h];
    }

    /** `playerCyclopediaHouseCancelTransfer`: by the owner. */
    method CancelTransfer(g: Guid, id: nat) returns (done: bool)
      requires Valid(View())
      modifies this
      ensures done <==> g in old(names) && id in old(houses) && old(houses)[id].stage == InTransfer
                        && old(houses)[id].owner == g
      ensures Orderly(View())
      ensures if done then EndTransfer(old(View()), View(), id) else View() == old(View())
    {
      done := g in names && id in houses && houses[id].stage == InTransfer && houses[id].owner == g;
      if done {
        TransferRefundFits(View(), id);
        Revert(id);
        OrderlyKept(old(View()), View(), EndStep(id));
      }
    }

    /** `playerCyclopediaHouseRejectTransfer`: by the named new owner. */
    method RejectTransfer(g: Guid, id: nat) returns (done: bool)
      requires Valid(View())
      modifies this
      ensures done <==> g in old(names) && id in old(houses) && old(houses)[id].stage == InTransfer
                        && old(houses)[id].bidder == g
      ensures Orderly(View())
      ensures if done then EndTransfer(old(View()), View(), id) else View() == old(View())
    {
      done := g in names && id in houses && houses[id].bidder == g && houses[id].stage == InTransfer;
      if done {
        TransferRefundFits(View(), id);
        Revert(id);
        OrderlyKept(old(View()), View(), EndStep(id));
      }
    }

    /** `playerCyclopediaHouseMoveOut` and its cancellation. */
    method MoveOrStay(g: Guid, id: nat, leave: bool) returns (done: bool)
      modifies this`houses
      ensures done <==> g in names && id in old(houses) && old(houses)[id].owner == g
                        && old(houses)[id].stage == if leave then Rented else MoveOut
      ensures old(Orderly(View())) ==> Orderly(View())
      ensures if done then Move(old(View()), View(), id) else View() == old(View())
    {
      done := g in names && id in houses && houses[id].stage == (if leave then Rented else MoveOut)
        && houses[id].owner == g;
      if done {
        houses := houses[id := houses[id].(stage := if leave then MoveOut else Rented)];
        if old(Orderly(View())) {
          OrderlyKept(old(View()), View(), MoveStep(id));
        }
      }
    }
  }
}
