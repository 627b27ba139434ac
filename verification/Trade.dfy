/**
 Trading between players: request, accept and close over the players' trade fields and the index of items
 on offer. Containers do not change while items are on offer.
 */
module Trade {
  import opened Containers

  datatype TradeState = TradeNone | Initiated | Acknowledge | Accept | Transfer

  datatype Offered = NoItem | Item(id: ItemId)

  // ---------------------------------------------------------------- overlapping offers

  /** What the request check sees: equal, or one inside the other no deeper than the search limit. */
  ghost predicate Clash(f: Forest, limit: nat, a: ItemId, b: ItemId) {
    a == b || Within(f, a, b, limit) || Within(f, b, a, limit)
  }

  /** Equal, or one inside the other at any depth. */
  ghost predicate Overlap(f: Forest, a: ItemId, b: ItemId) {
    a == b || Inside(f, a, b) || Inside(f, b, a)
  }

  /** No two items on offer clash. */
  ghost predicate Apart(f: Forest, limit: nat, items: set<ItemId>) {
    forall a, b | a in items && b in items && a != b :: !Clash(f, limit, a, b)
  }

  /** No two items on offer overlap. */
  ghost predicate Disjoint(f: Forest, items: set<ItemId>) {
    forall a, b | a in items && b in items && a != b :: !Overlap(f, a, b)
  }

  /** A container is only put on offer with less than a hundred items in it, as far as the search counts them. */
  const MAX_TRADE_ITEMS := 100

  ghost predicate Light(f: Forest, limit: nat, item: ItemId) {
    item in f.contents ==> |Reachable(f, item, limit)| < MAX_TRADE_ITEMS
  }

  /** The items can be put on offer one after the other: none holds too much, and no two clash. */
  ghost predicate Admitted(f: Forest, limit: nat, order: seq<ItemId>) {
    && (forall i <- order :: Light(f, limit, i))
    && (forall i, j | 0 <= i < j < |order| :: !Clash(f, limit, order[i], order[j]))
  }

  /** `x` lies in `c`, deeper than the search goes, and both may be put on offer. */
  ghost predicate Hides(f: Forest, limit: nat, c: ItemId, x: ItemId) {
    && Inside(f, c, x) && c in f.level && x in f.level && f.level[x] > f.level[c] + limit
    && Light(f, limit, c) && Light(f, limit, x)
  }

  lemma ClashIff(f: Forest, limit: nat, c: ItemId, x: ItemId)
    requires WellFormed(f) && Inside(f, c, x)
    ensures c in f.level && x in f.level
    ensures Within(f, c, x, limit) <==> f.level[x] <= f.level[c] + limit
  {
    var d: nat :| Within(f, c, x, d);
    WithinIff(f, c, x, d, limit);
  }

  /** Of two items that overlap without a clash, one hides in the other. */
  lemma HiddenOverlap(f: Forest, limit: nat, a: ItemId, b: ItemId)
    requires WellFormed(f) && Overlap(f, a, b) && !Clash(f, limit, a, b) && Light(f, limit, a) && Light(f, limit, b)
    ensures Hides(f, limit, a, b) || Hides(f, limit, b, a)
  {
    if Inside(f, a, b) {
      ClashIff(f, limit, a, b);
    } else {
      ClashIff(f, limit, b, a);
    }
  }

  /** A hidden item and its container pass the check, one after the other. */
  lemma HiddenPairPasses(f: Forest, limit: nat, c: ItemId, x: ItemId)
    requires WellFormed(f) && Hides(f, limit, c, x)
    ensures Admitted(f, limit, [c, x]) && !Disjoint(f, set y | y in [c, x])
  {
    ClashIff(f, limit, c, x);
    if Within(f, x, c, limit) {
      WithinLevel(f, x, c, limit);
    }
    assert c in [c, x] && x in [c, x];
    assert Overlap(f, c, x);
  }

  /**
   Whatever is put on offer through the check stays disjoint if and only if no item hides in a container that
   may be put on offer itself.
   */
  lemma DisjointIffNothingHides(f: Forest, limit: nat)
    requires WellFormed(f)
    ensures (forall order :: Admitted(f, limit, order) ==> Disjoint(f, set x | x in order))
            <==> forall c, x :: !Hides(f, limit, c, x)
  {
    if forall c, x :: !Hides(f, limit, c, x) {
      forall order | Admitted(f, limit, order) ensures Disjoint(f, set x | x in order) {
        forall a, b | a in order && b in order && a != b ensures !Overlap(f, a, b) {
          var i :| 0 <= i < |order| && order[i] == a;
          var j :| 0 <= j < |order| && order[j] == b;
          if Overlap(f, a, b) {
            HiddenOverlap(f, limit, a, b);
          }
        }
      }
    } else {
      var c, x :| Hides(f, limit, c, x);
      HiddenPairPasses(f, limit, c, x);
    }
  }

  /** The containers on the way down to a deep item: as many as there are levels. */
  lemma {:induction false} OnTheWay(f: Forest, c: ItemId, x: ItemId, depth: nat, k: nat) returns (way: set<ItemId>)
    requires WellFormed(f) && Within(f, c, x, depth) && c in f.level && x in f.level && f.level[x] > f.level[c] + k
    ensures |way| == k && forall y <- way :: Within(f, c, y, k)
    decreases k
  {
    if k == 0 {
      return {};
    }
    var i :| 0 <= i < |f.contents[c]|
             && (f.contents[c][i] == x || Within(f, f.contents[c][i], x, depth - 1));
    var y := f.contents[c][i];
    var rest := OnTheWay(f, y, x, depth - 1, k - 1);
    forall z | z in rest ensures z != y && Within(f, c, z, k) {
      WithinLevel(f, y, z, k - 1);
    }
    way := rest + {y};
  }

  /** A container with something deeper in it than the search goes holds as many items as the search is deep. */
  lemma DeepHoldsMany(f: Forest, limit: nat, c: ItemId, x: ItemId)
    requires WellFormed(f) && Inside(f, c, x) && c in f.level && x in f.level && f.level[x] > f.level[c] + limit
    ensures c in f.contents && |Reachable(f, c, limit)| >= limit
  {
    var depth: nat :| Within(f, c, x, depth);
    var way := OnTheWay(f, c, x, depth, limit);
    forall y | y in way ensures y in Reachable(f, c, limit) {
      WithinLevel(f, c, y, limit);
    }
    Fewer(way, Reachable(f, c, limit));
  }

  lemma {:induction false} Fewer<T>(a: set<T>, b: set<T>)
    requires a <= b
    ensures |a| <= |b|
  {
    if a != {} {
      var x :| x in a;
      Fewer(a - {x}, b - {x});
    }
  }

  /** From a search depth of a hundred on, nothing hides: the container would hold too much to be put on offer. */
  lemma NothingHides(f: Forest, limit: nat)
    requires WellFormed(f) && limit >= MAX_TRADE_ITEMS
    ensures forall c, x :: !Hides(f, limit, c, x)
  {
    forall c, x | Hides(f, limit, c, x) ensures false {
      DeepHoldsMany(f, limit, c, x);
    }
  }

  /** Items that passed the check are disjoint subtrees, at any depth, unless one hides in another. */
  lemma ApartIsDisjoint(f: Forest, limit: nat, items: set<ItemId>)
    requires WellFormed(f) && Apart(f, limit, items) && forall i <- items :: Light(f, limit, i)
    ensures Disjoint(f, items) <==> forall a, b | a in items && b in items :: !Hides(f, limit, a, b)
    ensures limit >= MAX_TRADE_ITEMS ==> Disjoint(f, items)
  {
    if limit >= MAX_TRADE_ITEMS {
      NothingHides(f, limit);
    }
    forall a, b | a in items && b in items && a != b
      ensures Overlap(f, a, b) <==> Hides(f, limit, a, b) || Hides(f, limit, b, a)
    {
      if Overlap(f, a, b) {
        HiddenOverlap(f, limit, a, b);
      }
    }
    forall a | a in items ensures !Hides(f, limit, a, a) {
    }
  }

  function Below(n: nat): (r: set<ItemId>)
    ensures forall i: nat :: i in r <==> i < n
  {
    if n == 0 then {} else Below(n - 1) + {n - 1}
  }

  /** A chain of containers, one in the other. */
  function Chain(length: nat): Forest {
    var nodes := Below(length + 1);
    Forest(map i | i in Below(length) :: [i + 1], map i | i in nodes :: i)
  }

  lemma {:induction false} ChainHolds(length: nat, i: nat, n: nat)
    requires 0 < n && i + n <= length
    ensures Within(Chain(length), i, i + n, n)
    decreases n
  {
    var f := Chain(length);
    assert f.contents[i] == [i + 1] && f.contents[i][0] == i + 1;
    if n > 1 {
      ChainHolds(length, i + 1, n - 1);
    }
  }

  lemma {:induction false} BelowSize(n: nat)
    ensures |Below(n)| == n
  {
    if n > 0 {
      BelowSize(n - 1);
    }
  }

  /** In the chain the search from the first container counts one item per level. */
  lemma ChainCounts(length: nat, limit: nat)
    requires limit < length && WellFormed(Chain(length))
    ensures |Reachable(Chain(length), 0, limit)| <= limit
  {
    var f := Chain(length);
    forall x | x in Reachable(f, 0, limit) ensures x in Below(limit + 1) - {0} {
      WithinLevel(f, 0, x, limit);
    }
    BelowSize(limit + 1);
    Fewer(Reachable(f, 0, limit), Below(limit + 1) - {0});
  }

  lemma ChainHides(limit: nat)
    requires limit < MAX_TRADE_ITEMS
    ensures WellFormed(Chain(limit + 1)) && Hides(Chain(limit + 1), limit, 0, limit + 1)
  {
    ChainHolds(limit + 1, 0, limit + 1);
    ChainCounts(limit + 1, limit);
    assert Inside(Chain(limit + 1), 0, limit + 1);
  }

  /**
   For every search depth below a hundred, a chain one longer than it hides its last item: both pass the check,
   one after the other, and they overlap.
   */
  lemma DeepChain(limit: nat)
    requires limit < MAX_TRADE_ITEMS
    ensures var f, x := Chain(limit + 1), limit + 1;
            && WellFormed(f) && Hides(f, limit, 0, x) && !Clash(f, limit, 0, x) && !Clash(f, limit, x, 0)
            && Admitted(f, limit, [0, x]) && !Disjoint(f, {0, x})
  {
    var f, x := Chain(limit + 1), limit + 1;
    ChainHides(limit);
    HiddenPairPasses(f, limit, 0, x);
    assert [0, x][0] == 0 && [0, x][1] == x;
    assert Overlap(f, 0, x);
  }

  // ---------------------------------------------------------------- the protocol

  class Player {
    const id: nat
    var tradeState: TradeState
    var tradePartner: Player?
    var tradeItem: Offered

    constructor (id: nat)
      ensures this.id == id && Idle()
    {
      this.id := id;
      tradeState, tradePartner, tradeItem := TradeNone, null, NoItem;
    }

    /** Not in any trade. */
    predicate Idle()
      reads this
    {
      tradeState == TradeNone && tradePartner == null && tradeItem == NoItem
    }
  }

  datatype Outcome = Ignored | Waiting | Cancelled | Exchanged | Failed

  /** What somebody, if anybody, has put on offer. */
  function OfferOf(partner: Player?): Offered
    reads partner
  {
    if partner == null then NoItem else partner.tradeItem
  }

  /** The index without an item. */
  function Without(items: map<ItemId, nat>, item: Offered): (r: map<ItemId, nat>)
    ensures forall i :: i in r <==> i in items && Item(i) != item
    ensures forall i <- r :: r[i] == items[i]
  {
    map i | i in items && Item(i) != item :: items[i]
  }

  class TradeDesk {
    const forest: Forest
    const limit: nat
    var players: map<nat, Player>
    /** Who has put each item on offer. */
    var tradeItems: map<ItemId, nat>
    /** Who was handed each item that was exchanged. */
    var holders: map<ItemId, nat>

    constructor (forest: Forest, limit: nat, players: map<nat, Player>)
      requires WellFormed(forest) && limit >= 1
      requires forall id <- players :: players[id].id == id && players[id].Idle()
      ensures this.forest == forest && this.limit == limit && this.players == players && Valid() && tradeItems == map[]
    {
      this.forest, this.limit, this.players, tradeItems, holders := forest, limit, players, map[], map[];
    }

    /** What holds between any two steps. */
    ghost predicate Valid()
      reads this, players.Values
    {
      && WellFormed(forest) && limit >= 1
      && (forall id {:trigger Fine(id)} :: id in players ==> Fine(id))
      && (forall i {:trigger Indexed(i)} :: i in tradeItems ==> Indexed(i))
      && Apart(forest, limit, tradeItems.Keys)
      && (forall i <- tradeItems :: Light(forest, limit, i))
    }

    /**
     One player: partners name each other; no partner means no trade; whoever only acknowledges has offered
     nothing and whoever initiated has; the two sides never both stand at accept, and nobody is in transfer;
     in each pair somebody has offered something, and offered items are in the index.
     */
    ghost predicate Fine(id: nat)
      requires id in players
      reads this, players.Values
    {
      var p := players[id];
      && p.id == id
      && (p.tradeState == TradeNone <==> p.tradePartner == null)
      && (p.tradeState == TradeNone || p.tradeState == Acknowledge ==> p.tradeItem == NoItem)
      && (p.tradeState == Initiated ==> p.tradeItem.Item?)
      && p.tradeState != Transfer
      && (p.tradeItem.Item? ==> p.tradeItem.id in tradeItems && tradeItems[p.tradeItem.id] == id)
      && (p.tradePartner != null ==>
            && p.tradePartner.id in players && players[p.tradePartner.id] == p.tradePartner
            && p.tradePartner != p && p.tradePartner.tradePartner == p
            && (p.tradeState == Accept ==> p.tradePartner.tradeState != Accept)
            && (p.tradeItem.Item? || p.tradePartner.tradeItem.Item?))
    }

    /** An indexed item is on offer by the player the index names. */
    ghost predicate Indexed(i: ItemId)
      requires i in tradeItems
      reads this, players.Values
    {
      tradeItems[i] in players && players[tradeItems[i]].tradeItem == Item(i)
    }

    /** The loops of `playerRequestTrade` over the items on offer, with one more test for a container. */
    method AlreadyTraded(tradeItem: ItemId) returns (clash: bool)
      requires WellFormed(forest) && limit >= 1
      ensures clash <==> exists i :: i in tradeItems && Clash(forest, limit, tradeItem, i)
    {
      var rest := tradeItems.Keys;
      while rest != {}
        invariant rest <= tradeItems.Keys
        invariant forall i :: i in tradeItems.Keys - rest ==> !Clash(forest, limit, tradeItem, i)
        decreases rest
      {
        var item :| item in rest;
        if tradeItem == item {
          return true;
        }
        if tradeItem in forest.contents {
          var holds := IsHoldingItem(forest, tradeItem, item, limit);
          if holds {
            return true;
          }
        }
        if item in forest.contents {
          var held := IsHoldingItem(forest, item, tradeItem, limit);
          if held {
            return true;
          }
        }
        rest := rest - {item};
      }
      return false;
    }

    /** Both players may enter this trade. */
    predicate MayStart(player: Player, partner: Player)
      reads player, partner
    {
      && (player.tradeState == TradeNone || (player.tradeState == Acknowledge && player.tradePartner == partner))
      && (partner.tradeState == TradeNone || partner.tradePartner == player)
    }

    /**
     `playerRequestTrade`. `allowed` stands for the checks on distance, sight, item kind, store items and events.
     */
    method RequestTrade(playerId: nat, partnerId: nat, item: ItemId, allowed: bool) returns (started: bool)
      requires Valid()
      modifies this`tradeItems, players.Values
      ensures Valid() && players == old(players)
      ensures started <==> allowed && playerId in players && partnerId in players && playerId != partnerId
                           && old(MayStart(players[playerId], players[partnerId]))
                           && (forall i <- old(tradeItems) :: !Clash(forest, limit, item, i))
                           && Light(forest, limit, item)
      ensures started ==> Started(players[playerId], players[partnerId], item)
      ensures !started ==> tradeItems == old(tradeItems) && unchanged(players.Values)
    {
      if !allowed || playerId !in players || partnerId !in players {
        return false;
      }
      var player, partner := players[playerId], players[partnerId];
      assert Fine(playerId) && Fine(partnerId);
      if partner == player {
        return false;
      }
      var clash := AlreadyTraded(item);
      if clash {
        return false;
      }
      if item in forest.contents {
        var count := ItemHoldingCount(forest, item, limit);
        if count + 1 > MAX_TRADE_ITEMS {
          return false;
        }
      }
      started := InternalStartTrade(player, partner, item);
    }

    /** The effect of starting a trade on the two players and the index; nobody else is touched. */
    twostate predicate Started(player: Player, partner: Player, item: ItemId)
      reads this, player, partner, players.Values
    {
      && player.tradeState == Initiated && player.tradePartner == partner && player.tradeItem == Item(item)
      && partner.tradePartner == player && partner.tradeItem == old(partner.tradeItem)
      && partner.tradeState == (if old(partner.tradeState) == TradeNone then Acknowledge else old(partner.tradeState))
      && tradeItems == old(tradeItems)[item := player.id]
      && players == old(players)
      && forall p <- players.Values :: p != player && p != partner ==> unchanged(p)
    }

    method InternalStartTrade(player: Player, partner: Player, item: ItemId) returns (started: bool)
      requires Valid() && player.id in players && players[player.id] == player
      requires partner.id in players && players[partner.id] == partner && player != partner
      requires Light(forest, limit, item) && forall i <- tradeItems :: !Clash(forest, limit, item, i)
      modifies this`tradeItems, player, partner
      ensures Valid()
      ensures started <==> old(MayStart(player, partner))
      ensures if started then Started(player, partner, item)
              else tradeItems == old(tradeItems) && unchanged(player) && unchanged(partner)
    {
      assert Fine(player.id) && Fine(partner.id);
      if player.tradeState != TradeNone && !(player.tradeState == Acknowledge && player.tradePartner == partner) {
        return false;
      } else if partner.tradeState != TradeNone && partner.tradePartner != player {
        return false;
      }
      player.tradePartner := partner;
      player.tradeItem := Item(item);
      player.tradeState := Initiated;
      tradeItems := tradeItems[item := player.id];
      if partner.tradeState == TradeNone {
        partner.tradeState := Acknowledge;
        partner.tradePartner := player;
      }
      forall id | id in players ensures Fine(id) {
        assert old(Fine(id));
      }
      forall i | i in tradeItems ensures Indexed(i) {
        assert i != item ==> old(Indexed(i));
      }
      return true;
    }

    /** The trade of two players is over: neither is in it any more and their items are off the index. */
    twostate predicate Ended(player: Player, partner: Player?)
      reads this, player, partner, players.Values
    {
      && player.Idle() && (partner != null ==> partner.Idle())
      && tradeItems == old(Without(Without(tradeItems, player.tradeItem), OfferOf(partner)))
      && players == old(players)
      && (forall p <- players.Values :: p != player && p != partner ==> unchanged(p))
    }

    /** Takes an item off the index, if it is there. */
    method Erase(item: Offered)
      modifies this`tradeItems
      ensures tradeItems == Without(old(tradeItems), item)
    {
      if item.Item? && item.id in tradeItems {
        tradeItems := tradeItems - {item.id};
      }
    }

    /** Takes a player out of a trade, and what it offered off the index. */
    method Withdraw(player: Player)
      modifies this`tradeItems, player
      ensures player.Idle() && tradeItems == Without(old(tradeItems), old(player.tradeItem))
    {
      Erase(player.tradeItem);
      player.tradeItem, player.tradeState, player.tradePartner := NoItem, TradeNone, null;
    }

    /** `playerCloseTrade`. */
    method CloseTrade(playerId: nat)
      requires Valid()
      modifies this`tradeItems, players.Values
      ensures Valid()
      ensures if playerId in players then Ended(players[playerId], old(players[playerId].tradePartner))
              else tradeItems == old(tradeItems) && unchanged(players.Values)
    {
      if playerId in players {
        assert Fine(playerId);
        assert players[playerId].tradePartner != null ==> Fine(players[playerId].tradePartner.id);
        InternalCloseTrade(players[playerId]);
      }
    }

    method InternalCloseTrade(player: Player)
      requires player.id in players && players[player.id] == player
      requires Valid()
      modifies this`tradeItems, player, player.tradePartner
      ensures Valid() && Ended(player, old(player.tradePartner))
    {
      var tradePartner := player.tradePartner;
      assert Fine(player.id) && (tradePartner != null ==> Fine(tradePartner.id));
      if (tradePartner != null && tradePartner.tradeState == Transfer) || player.tradeState == Transfer {
        return;
      }
      Withdraw(player);
      if tradePartner != null {
        Withdraw(tradePartner);
      }
      forall id | id in players ensures Fine(id) {
        assert old(Fine(id)) && players[id] in players.Values;
      }
      forall i | i in tradeItems ensures Indexed(i) {
        assert old(Indexed(i)) && players[tradeItems[i]] in players.Values;
      }
    }

    /**
     `playerAcceptTrade`. `reachable` stands for the line of sight, `approved` for the events that may veto, and
     `moved` for the outcome of the checks and moves that hand the items over.
     */
    method AcceptTrade(playerId: nat, reachable: bool, approved: bool, moved: bool) returns (outcome: Outcome)
      requires Valid()
      modifies this`tradeItems, this`holders, players.Values
      ensures Valid() && players == old(players)
      ensures outcome == (
                if playerId !in players || !reachable then Ignored else
                var player := players[playerId];
                if old(player.tradeState) !in {Acknowledge, Initiated} then Ignored
                else if old(player.tradePartner == null || player.tradePartner.tradeState != Accept) then Waiting
                else if !approved then Cancelled
                else if moved && old(player.tradeItem).Item? && old(player.tradePartner.tradeItem).Item? then Exchanged
                else Failed)
      ensures outcome.Ignored? ==> tradeItems == old(tradeItems) && unchanged(players.Values)
      ensures outcome.Waiting? ==> Agreed(players[playerId])
      ensures outcome in {Cancelled, Exchanged, Failed} ==>
              Ended(players[playerId], old(players[playerId].tradePartner))
      ensures if outcome.Exchanged? then HandedOver(players[playerId], old(players[playerId].tradePartner))
              else holders == old(holders)
    {
      if playerId !in players {
        return Ignored;
      }
      var player := players[playerId];
      assert Fine(playerId);
      if player.tradeState != Acknowledge && player.tradeState != Initiated {
        return Ignored;
      }
      var tradePartner := player.tradePartner;
      assert Fine(tradePartner.id);
      if !reachable {
        return Ignored;
      }
      if tradePartner.tradeState != Accept {
        Agree(player);
        return Waiting;
      }
      if !approved {
        InternalCloseTrade(player);
        return Cancelled;
      }
      outcome := Exchange(player, tradePartner, moved);
    }

    /** One side has accepted and waits for the other; nothing else changes. */
    twostate predicate Agreed(player: Player)
      reads this, player, players.Values
    {
      && player.tradeState == Accept && player.tradePartner == old(player.tradePartner)
         && player.tradeItem == old(player.tradeItem)
      && tradeItems == old(tradeItems) && players == old(players)
      && (forall p <- players.Values :: p != player ==> unchanged(p))
    }

    method Agree(player: Player)
      requires player.id in players && players[player.id] == player
      requires Valid()
      requires player.tradeState in {Acknowledge, Initiated} && player.tradePartner != null
      requires player.tradePartner.tradeState != Accept
      modifies player`tradeState
      ensures Valid() && Agreed(player)
    {
      player.tradeState := Accept;
      forall id | id in players ensures Fine(id) {
        assert old(Fine(id));
      }
      forall i | i in tradeItems ensures Indexed(i) {
        assert old(Indexed(i));
      }
    }

    /** Each of the two has been handed what the other had on offer. */
    twostate predicate HandedOver(player: Player, partner: Player)
      reads this, player, partner
    {
      && old(player.tradeItem).Item? && old(partner.tradeItem).Item?
      && holders == old(holders)[old(player.tradeItem).id := partner.id][old(partner.tradeItem).id := player.id]
    }

    /** Hands the items over, which needs one from each side, and ends the trade either way. */
    method Exchange(player: Player, tradePartner: Player, moved: bool) returns (outcome: Outcome)
      requires player.id in players && players[player.id] == player
      requires Valid()
      requires player.tradePartner == tradePartner
      modifies this`tradeItems, this`holders, player, tradePartner
      ensures Valid() && Ended(player, tradePartner)
      ensures if outcome.Exchanged? then HandedOver(player, tradePartner) else holders == old(holders)
      ensures outcome == if moved && old(player.tradeItem).Item? && old(tradePartner.tradeItem).Item? then Exchanged
              else Failed
    {
      assert Fine(player.id);
      assert Fine(tradePartner.id);
      player.tradeState, tradePartner.tradeState := Transfer, Transfer;
      outcome := if player.tradeItem.Item? && tradePartner.tradeItem.Item? && moved then Exchanged else Failed;
      if outcome.Exchanged? {
        holders := holders[player.tradeItem.id := tradePartner.id][tradePartner.tradeItem.id := player.id];
      }
      Withdraw(player);
      Withdraw(tradePartner);
      forall id | id in players ensures Fine(id) {
        assert old(Fine(id)) && players[id] in players.Values;
      }
      forall i | i in tradeItems ensures Indexed(i) {
        assert old(Indexed(i)) && players[tradeItems[i]] in players.Values;
      }
    }

    /** Two requests and two acceptances, which nothing disturbs, exchange the two items and leave nothing behind. */
    method TradeBoth(p: nat, q: nat, a: ItemId, b: ItemId) returns (outcome: Outcome)
      requires Valid() && p in players && q in players && p != q && players[p].Idle() && players[q].Idle()
      requires Light(forest, limit, a) && Light(forest, limit, b) && !Clash(forest, limit, b, a)
      requires forall i <- tradeItems :: !Clash(forest, limit, a, i) && !Clash(forest, limit, b, i)
      modifies this`tradeItems, this`holders, players.Values
      ensures Valid() && players == old(players) && outcome == Exchanged
      ensures players[p].Idle() && players[q].Idle() && tradeItems == old(tradeItems)
      ensures holders == old(holders)[b := p][a := q]
    {
      assert Fine(p) && Fine(q) && a !in tradeItems && b !in tradeItems && a != b;
      OfferBoth(p, q, a, b);
      outcome := AcceptBoth(p, q, a, b);
    }

    /** The two players are in a trade with each other, with these items. */
    ghost predicate Offering(p: nat, q: nat, a: ItemId, b: ItemId)
      reads this, players.Values
    {
      && p in players && q in players && p != q
      && players[p].tradeState == Initiated && players[p].tradePartner == players[q] && players[p].tradeItem == Item(a)
      && players[q].tradeState == Initiated && players[q].tradePartner == players[p] && players[q].tradeItem == Item(b)
    }

    method OfferBoth(p: nat, q: nat, a: ItemId, b: ItemId)
      requires Valid() && p in players && q in players && p != q && players[p].Idle() && players[q].Idle()
      requires Light(forest, limit, a) && Light(forest, limit, b) && !Clash(forest, limit, b, a)
      requires forall i <- tradeItems :: !Clash(forest, limit, a, i) && !Clash(forest, limit, b, i)
      modifies this`tradeItems, players.Values
      ensures Valid() && players == old(players) && Offering(p, q, a, b)
      ensures tradeItems == old(tradeItems)[a := p][b := q]
    {
      assert Fine(p) && Fine(q);
      var requested := RequestTrade(p, q, a, true);
      assert Fine(p) && Fine(q);
      var answered := RequestTrade(q, p, b, true);
    }

    method AcceptBoth(p: nat, q: nat, a: ItemId, b: ItemId) returns (outcome: Outcome)
      requires Valid() && Offering(p, q, a, b)
      modifies this`tradeItems, this`holders, players.Values
      ensures Valid() && players == old(players) && outcome == Exchanged && players[p].Idle() && players[q].Idle()
      ensures tradeItems == Without(Without(old(tradeItems), Item(b)), Item(a))
      ensures holders == old(holders)[b := p][a := q]
    {
      assert Fine(p) && Fine(q);
      var waiting := AcceptTrade(p, true, true, true);
      assert Fine(p) && Fine(q);
      outcome := AcceptTrade(q, true, true, true);
    }

    /** A request that is closed again, by either side, leaves everything as it was. */
    method RequestAndClose(p: nat, q: nat, a: ItemId, byPartner: bool)
      requires Valid() && p in players && q in players && p != q && players[p].Idle() && players[q].Idle()
      requires Light(forest, limit, a) && forall i <- tradeItems :: !Clash(forest, limit, a, i)
      modifies this`tradeItems, players.Values
      ensures Valid() && players == old(players)
      ensures players[p].Idle() && players[q].Idle() && tradeItems == old(tradeItems)
    {
      assert Fine(p) && Fine(q) && a !in tradeItems;
      var requested := RequestTrade(p, q, a, true);
      assert Fine(p) && Fine(q);
      CloseTrade(if byPartner then q else p);
    }

    /** With a search a hundred deep or deeper, what the players have on offer are disjoint subtrees. */
    lemma OffersAreDisjoint()
      requires Valid() && limit >= MAX_TRADE_ITEMS
      ensures Disjoint(forest, set id | id in players && players[id].tradeItem.Item? :: players[id].tradeItem.id)
      ensures forall id, other | id in players && other in players && id != other ::
                players[id].tradeItem.Item? ==> players[id].tradeItem != players[other].tradeItem
    {
      ApartIsDisjoint(forest, limit, tradeItems.Keys);
      forall id | id in players ensures Fine(id) {
      }
    }
  }

  /** A trade desk with four idle players. */
  method FourPlayers(forest: Forest, limit: nat) returns (desk: TradeDesk)
    requires WellFormed(forest) && limit >= 1
    ensures fresh(desk) && fresh(desk.players.Values) && desk.Valid()
    ensures desk.forest == forest && desk.limit == limit
    ensures desk.players.Keys == {0, 1, 2, 3} && desk.tradeItems == map[]
    ensures forall id <- desk.players :: desk.players[id].Idle()
  {
    var a := new Player(0);
    var b := new Player(1);
    var c := new Player(2);
    var d := new Player(3);
    desk := new TradeDesk(forest, limit, map[0 := a, 1 := b, 2 := c, 3 := d]);
  }

  /**
   With a search less than a hundred deep, a chain of containers and something at its end are both put on offer,
   although one lies in the other.
   */
  method OfferHidden(limit: nat) returns (desk: TradeDesk)
    requires 1 <= limit < MAX_TRADE_ITEMS
    ensures fresh(desk) && desk.limit == limit && desk.Valid()
    ensures desk.tradeItems.Keys == {0, limit + 1} && !Disjoint(desk.forest, desk.tradeItems.Keys)
  {
    DeepChain(limit);
    desk := FourPlayers(Chain(limit + 1), limit);
    OfferFirst(desk, 0);
    OfferSecond(desk, 0, limit + 1);
  }

  /** The first player offers an item to the second. */
  method OfferFirst(desk: TradeDesk, item: ItemId)
    requires desk.Valid() && desk.players.Keys == {0, 1, 2, 3} && desk.tradeItems == map[]
    requires forall id <- desk.players :: desk.players[id].Idle()
    requires Light(desk.forest, desk.limit, item)
    modifies desk`tradeItems, desk.players.Values
    ensures desk.Valid() && desk.players == old(desk.players) && desk.tradeItems.Keys == {item}
    ensures desk.players[2].Idle() && desk.players[3].Idle()
  {
    assert desk.Fine(0) && desk.Fine(1) && desk.Fine(2) && desk.Fine(3);
    var started := desk.RequestTrade(0, 1, item, true);
    assert desk.players[2] in desk.players.Values && desk.players[3] in desk.players.Values;
  }

  /** The third player offers another item to the fourth. */
  method OfferSecond(desk: TradeDesk, there: ItemId, item: ItemId)
    requires desk.Valid() && desk.players.Keys == {0, 1, 2, 3} && desk.tradeItems.Keys == {there}
    requires desk.players[2].Idle() && desk.players[3].Idle()
    requires Light(desk.forest, desk.limit, item) && !Clash(desk.forest, desk.limit, item, there)
    modifies desk`tradeItems, desk.players.Values
    ensures desk.Valid() && desk.tradeItems.Keys == {there, item}
  {
    var started := desk.RequestTrade(2, 3, item, true);
  }
}
