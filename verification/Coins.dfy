/**
 The coin economy: `Game::addMoney` and `Game::removeMoney`.

 Items are shared objects; a container item lists the items inside it and every item points back at
 the container it lies in, so a cylinder (a player) owns a forest of items hanging from its slots.
 */
module Coins {
  import opened Common
  import opened Sums

  const GOLD_COIN := 3031
  const PLATINUM_COIN := 3035
  const CRYSTAL_COIN := 3043

  /** The worth of one coin of an item kind; zero for everything that is not money. */
  function UnitWorth(id: nat): nat {
    if id == GOLD_COIN then 1
    else if id == PLATINUM_COIN then 100
    else if id == CRYSTAL_COIN then 10000
    else 0
  }

  function StackWorth(id: nat, count: nat): nat {
    if id == GOLD_COIN then count
    else if id == PLATINUM_COIN then 100 * count
    else if id == CRYSTAL_COIN then 10000 * count
    else 0
  }

  class Item {
    const id: nat
    const isContainer: bool
    var count: nat
    var contents: seq<Item>
    var parent: Item?

    constructor (id: nat, count: nat)
      ensures this.id == id && this.count == count && !isContainer
      ensures contents == [] && parent == null
    {
      this.id, this.count, this.isContainer := id, count, false;
      contents, parent := [], null;
    }

    function Worth(): nat
      reads this
    {
      StackWorth(id, count)
    }
  }

  // ---------------------------------------------------------------- change

  /** A pile of equal coins. */
  datatype Stack = Stack(id: nat, count: nat)

  ghost function StacksWorth(s: seq<Stack>): int {
    if s == [] then 0 else StackWorth(s[0].id, s[0].count) + StacksWorth(s[1..])
  }

  ghost function Pieces(s: seq<Stack>): nat {
    if s == [] then 0 else s[0].count + Pieces(s[1..])
  }

  lemma {:induction false} StacksConcat(a: seq<Stack>, b: seq<Stack>)
    ensures StacksWorth(a + b) == StacksWorth(a) + StacksWorth(b)
    ensures Pieces(a + b) == Pieces(a) + Pieces(b)
  {
    if a == [] {
      assert a + b == b;
    } else {
      assert (a + b)[1..] == a[1..] + b;
      StacksConcat(a[1..], b);
    }
  }

  /** How many coins of the three kinds the change is made of. */
  function FewestPieces(money: nat): nat {
    money / 10000 + (money % 10000) / 100 + money % 100
  }

  /** The coins of a list, counted by kind. */
  lemma {:induction false} ByKind(s: seq<Stack>) returns (gold: nat, platinum: nat, crystal: nat)
    requires forall e <- s :: UnitWorth(e.id) > 0
    ensures gold + 100 * platinum + 10000 * crystal == StacksWorth(s)
    ensures gold + platinum + crystal == Pieces(s)
  {
    if s == [] {
      gold, platinum, crystal := 0, 0, 0;
    } else {
      gold, platinum, crystal := ByKind(s[1..]);
      if s[0].id == GOLD_COIN {
        gold := gold + s[0].count;
      } else if s[0].id == PLATINUM_COIN {
        platinum := platinum + s[0].count;
      } else {
        crystal := crystal + s[0].count;
      }
    }
  }

  /** Any coins with a given total are at least as many as the change `AddMoney` creates for it. */
  lemma ChangeIsFewestCoins(s: seq<Stack>, money: nat)
    requires forall e <- s :: UnitWorth(e.id) > 0
    requires StacksWorth(s) == money
    ensures FewestPieces(money) <= Pieces(s)
  {
    var gold, platinum, crystal := ByKind(s);
    MoreWorthFewerCoins(gold, platinum, crystal);
  }

  lemma MoreWorthFewerCoins(gold: nat, platinum: nat, crystal: nat)
    ensures FewestPieces(gold + 100 * platinum + 10000 * crystal) <= gold + platinum + crystal
  {
    var money := gold + 100 * platinum + 10000 * crystal;
    ByDigits(money);
    var c, p, g := money / 10000, (money % 10000) / 100, money % 100;
    var hundreds := platinum + 100 * crystal;
    assert crystal <= c && hundreds <= p + 100 * c;
    assert gold + platinum + crystal == money - 99 * hundreds - 99 * crystal;
    assert g + p + c == money - 99 * (p + 100 * c) - 99 * c;
  }

  lemma Multiple(d: nat, x: int)
    requires x >= 1
    ensures d * x >= d
  {
    assert d * x == d * (x - 1) + d;
  }

  lemma Euclid(d: nat, k: nat, r: nat)
    requires r < d
    ensures (d * k + r) / d == k && (d * k + r) % d == r
  {
    var q := (d * k + r) / d;
    assert d * (q - k) == r - (d * k + r) % d;
    assert d * (k - q) == (d * k + r) % d - r;
    if q > k {
      Multiple(d, q - k);
    } else if k > q {
      Multiple(d, k - q);
    }
  }

  /** The quotients `addMoney` takes, for a number whose high part is a multiple of 10000 * 2^32. */
  lemma HighPartVanishes(k: nat, q: nat)
    requires q < 10000 * U32
    ensures var money := k * (10000 * U32) + q;
            && (money / 10000) % U32 == q / 10000
            && ((money - 10000 * (q / 10000)) / 100) % U32 == (q % 10000) / 100
            && (money - 10000 * (q / 10000) - 100 * ((q % 10000) / 100)) % U32 == q % 100
  {
    var money := k * (10000 * U32) + q;
    var c, p, g := q / 10000, (q % 10000) / 100, q % 100;
    assert money == 10000 * (U32 * k + c) + q % 10000;
    Euclid(10000, U32 * k + c, q % 10000);
    Euclid(U32, k, c);
    assert money - 10000 * c == 100 * (U32 * (100 * k) + p) + g;
    Euclid(100, U32 * (100 * k) + p, g);
    Euclid(U32, 100 * k, p);
    assert money - 10000 * c - 100 * p == U32 * (10000 * k) + g;
    Euclid(U32, 10000 * k, g);
  }

  lemma ByDigits(q: nat)
    ensures q == 10000 * (q / 10000) + 100 * ((q % 10000) / 100) + q % 100
  {
  }

  /**
   The three coin counts `addMoney` computes, with its casts to 32 and 16 bits.
   The casts lose exactly the multiples of 10000 * 2^32.
   */
  lemma NarrowedChange(money: nat) returns (crystal: nat, platinum: nat, gold: nat)
    ensures crystal == (money / 10000) % U32 && 10000 * crystal <= money
    ensures platinum == ((money - 10000 * crystal) / 100) % U32 && platinum == platinum % 0x10000
    ensures gold == (money - 10000 * crystal - 100 * platinum) % U32
    ensures gold <= money - 10000 * crystal - 100 * platinum
    ensures money % (10000 * U32) == 10000 * crystal + 100 * platinum + gold
    ensures FewestPieces(money % (10000 * U32)) == crystal + platinum + gold
  {
    var q := money % (10000 * U32);
    crystal, platinum, gold := q / 10000, (q % 10000) / 100, q % 100;
    HighPartVanishes(money / (10000 * U32), q);
    ByDigits(q);
  }

  /** `count` equal coins in stacks of at most a hundred. */
  function StacksOf(id: nat, count: nat): seq<Stack> {
    if count == 0 then []
    else
      var n := if count < 100 then count else 100;
      [Stack(id, n)] + StacksOf(id, count - n)
  }

  /** The stacks `addMoney` creates for its three coin counts, largest coins first. */
  function Change(crystals: nat, platinums: nat, golds: nat): seq<Stack> {
    StacksOf(CRYSTAL_COIN, crystals) + StacksOf(PLATINUM_COIN, platinums) + StacksOf(GOLD_COIN, golds)
  }

  lemma {:induction false} StacksOfWorth(id: nat, count: nat)
    ensures StacksWorth(StacksOf(id, count)) == StackWorth(id, count)
    ensures Pieces(StacksOf(id, count)) == count
    ensures forall e <- StacksOf(id, count) :: e.id == id && 0 < e.count <= 100
  {
    if count != 0 {
      var n := if count < 100 then count else 100;
      StacksOfWorth(id, count - n);
      SplitStack(id, n, count - n);
    }
  }

  lemma ChangeWorth(crystals: nat, platinums: nat, golds: nat)
    ensures var s := Change(crystals, platinums, golds);
            && StacksWorth(s) == 10000 * crystals + 100 * platinums + golds
            && Pieces(s) == crystals + platinums + golds
            && (forall e <- s :: UnitWorth(e.id) > 0 && 0 < e.count <= 100)
  {
    var a, b, c := StacksOf(CRYSTAL_COIN, crystals), StacksOf(PLATINUM_COIN, platinums), StacksOf(GOLD_COIN, golds);
    StacksOfWorth(CRYSTAL_COIN, crystals);
    StacksOfWorth(PLATINUM_COIN, platinums);
    StacksOfWorth(GOLD_COIN, golds);
    StacksConcat(a, b);
    StacksConcat(a + b, c);
  }

  lemma SplitStack(id: nat, a: nat, b: nat)
    ensures StackWorth(id, a) + StackWorth(id, b) == StackWorth(id, a + b)
    ensures StackWorth(id, 0) == 0
  {
  }

  // ---------------------------------------------------------------- the cylinder

  lemma WithoutAt<T>(s: seq<T>, k: nat)
    requires k < |s| && Distinct(s)
    ensures var r := s[..k] + s[k + 1..];
            Distinct(r) && (forall x :: x in r <==> x in s && x != s[k])
  {
    var r := s[..k] + s[k + 1..];
    assert forall n | 0 <= n < |r| :: r[n] == s[if n < k then n else n + 1];
    forall x | x in s && x != s[k]
      ensures x in r
    {
      var n :| 0 <= n < |s| && s[n] == x;
      assert r[if n < k then n else n - 1] == x;
    }
  }

  /**
   What a successful charge does to (coins carried, coins dropped as change, bank balance):
   coins pay first, change may end on the ground, and the bank pays only what coins cannot.
   */
  ghost predicate Charged(coins: int, dropped: int, bank: int, coins': int, dropped': int, bank': int, money: int) {
    && coins' >= 0 && dropped' >= dropped
    && (if money <= coins then
          coins' + dropped' == coins + dropped - money && bank' == bank
        else
          coins' == 0 && dropped' == dropped && bank' == bank - (money - coins) && bank' >= 0)
  }

  /** The affordability test: coins and balance, added in 64 bits, reach the amount. */
  ghost predicate Covers(coins: int, balance: nat, amount: nat) {
    (coins + balance) % U64 >= amount
  }

  lemma WrappedTest(coins: nat, balance: nat, amount: nat)
    ensures (coins % U64 + balance) % U64 >= amount <==> Covers(coins, balance, amount)
  {
    var k := coins / U64;
    assert coins + balance == k * U64 + (coins % U64 + balance);
  }

  lemma CoversEnough(coins: nat, balance: nat, amount: nat)
    requires Covers(coins, balance, amount)
    ensures coins + balance >= amount
  {
  }

  /** Without wrap-around the test says exactly whether the player can pay. */
  lemma CoversIff(coins: nat, balance: nat, amount: nat)
    requires coins + balance < U64
    ensures Covers(coins, balance, amount) <==> coins + balance >= amount
  {
  }

  /** How many of an item there are, and in which container. */
  datatype Pile = Pile(count: nat, box: Item?)

  ghost function WorthsOf(lying: map<Item, Pile>): map<Item, int> {
    map x | x in lying :: StackWorth(x.id, lying[x].count)
  }

  ghost function OthersOf(lying: map<Item, Pile>): map<Item, Pile> {
    map x | x in lying && UnitWorth(x.id) == 0 :: lying[x]
  }

  /** The kinds of coins worth no more than a limit. */
  function KindsWithin(limit: nat): set<nat> {
    set id | id in {GOLD_COIN, PLATINUM_COIN, CRYSTAL_COIN} && UnitWorth(id) <= limit
  }

  /** Of all items only coins of the given kinds became more. */
  ghost predicate Grown(was: map<Item, Pile>, now: map<Item, Pile>, kinds: set<nat>) {
    && (forall x {:trigger x in now} {:trigger now[x]} :: x in was ==>
          x in now && now[x].box == was[x].box
            && (if x.id in kinds then now[x].count >= was[x].count else now[x].count == was[x].count))
    && (forall x {:trigger x in was} :: x in now && x !in was ==> x.id in kinds)
  }

  lemma GrownMore(a: map<Item, Pile>, b: map<Item, Pile>, c: map<Item, Pile>, kinds: set<nat>,
                  kinds': set<nat>)
    requires Grown(a, b, kinds) && Grown(b, c, kinds') && kinds' <= kinds
    ensures Grown(a, c, kinds)
  {
  }

  /** A player (or another cylinder) with the items it carries, its bank balance and the tile it stands on. */
  class Cylinder {
    const isPlayer: bool
    var slots: seq<Item?>
    var bank: nat
    /** Worth of the coins dropped on the tile because they did not fit. */
    var dropped: nat
    /** The stacks created so far. */
    ghost var coined: seq<Stack>
    ghost var all: set<Item>
    /** How deeply each item is nested; only used to say that containers form a forest. */
    ghost var level: map<Item, nat>

    ghost predicate Valid()
      reads this`slots, this`bank, this`all, this`level, all
    {
      && Slotted()
      && (forall x {:trigger Placed(x)} :: x in all ==> Placed(x))
      && bank < U64
    }

    /** The slots hold different items of the forest. */
    ghost predicate Slotted()
      reads this`slots, this`all, all
    {
      && (forall i | 0 <= i < |slots| && slots[i] != null :: slots[i] in all && slots[i].parent == null)
      && (forall i, j | 0 <= i < j < |slots| && slots[i] != null :: slots[i] != slots[j])
    }

    /**
     One item of the forest: it lies in a slot, or in the container it points back at; what it holds, without
     repetition, points back at it and is nested deeper; money is never a container.
     */
    ghost predicate Placed(x: Item)
      requires x in all
      reads this`slots, this`all, this`level, all
    {
      && x in level
      && (if x.parent == null then x in slots else x.parent in all && x in x.parent.contents)
      && (forall y <- x.contents :: y in all && y.parent == x && y in level && level[y] > level[x])
      && Distinct(x.contents)
      && (x.isContainer || x.contents == [])
      && (UnitWorth(x.id) > 0 ==> !x.isContainer)
      && x.count < 256
    }

    /** How many of each item lie where. */
    ghost function Lying(): map<Item, Pile>
      reads this`all, all`count, all`parent
    {
      map x | x in all :: Pile(x.count, x.parent)
    }

    ghost function Worths(): map<Item, int>
      reads this`all, all`count, all`parent
    {
      WorthsOf(Lying())
    }

    /** The worth of all coins carried, at any depth. */
    ghost function CoinWorth(): int
      reads this`all, all`count, all`parent
    {
      SumValues(Worths())
    }

    /** `removeThing`: take `count` coins off a stack, or the whole stack out of its container. */
    method RemoveThing(item: Item, count: nat)
      requires Valid() && item in all && UnitWorth(item.id) > 0 && 0 < count <= item.count
      modifies this`slots, this`all, all
      ensures Valid() && all == if count == old(item.count) then old(all) - {item} else old(all)
      ensures CoinWorth() == old(CoinWorth()) - StackWorth(item.id, count)
      ensures Lying() == old(LessOf(Lying(), item, count))
    {
      assert Placed(item);
      LessWorth(Lying(), item, count);
      if count != item.count {
        SetCount(item, item.count - count);
      } else {
        if item.parent != null {
          TakeFromBox(item);
        } else {
          TakeFromSlot(item);
        }
        assert Lying() == old(Lying()) - {item};
      }
    }

    method SetCount(item: Item, count: nat)
      requires Valid() && item in all && count < 256
      modifies item`count
      ensures Valid() && item.count == count
      ensures Worths() == old(Worths())[item := StackWorth(item.id, count)]
      ensures Lying() == old(Lying())[item := Pile(count, item.parent)]
    {
      item.count := count;
      forall x | x in all ensures Placed(x) {
        assert old(Placed(x));
      }
    }

    method TakeFromBox(item: Item)
      requires Valid() && item in all && UnitWorth(item.id) > 0 && item.parent != null
      modifies this`all, item`parent, item.parent`contents
      ensures Valid() && all == old(all) - {item}
    {
      assert Placed(item);
      var box := item.parent;
      assert Placed(box);
      var k := IndexOf(box.contents, item);
      WithoutAt(box.contents, k);
      box.contents := box.contents[..k] + box.contents[k + 1..];
      item.parent := null;
      all := all - {item};
      forall x | x in all ensures Placed(x) {
        assert old(Placed(x));
      }
    }

    method TakeFromSlot(item: Item)
      requires Valid() && item in all && UnitWorth(item.id) > 0 && item.parent == null
      modifies this`slots, this`all
      ensures Valid() && all == old(all) - {item}
    {
      assert Placed(item);
      var i := SlotOf(item);
      ghost var was := slots;
      slots := slots[i := null];
      all := all - {item};
      forall x | x in all ensures Placed(x) {
        assert old(Placed(x));
        if x.parent == null {
          var n :| 0 <= n < |was| && was[n] == x;
          assert slots[n] == x;
        }
      }
    }

    static method IndexOf(s: seq<Item>, item: Item) returns (k: nat)
      requires item in s
      ensures k < |s| && s[k] == item
    {
      k := 0;
      while s[k] != item
        invariant k < |s| && item !in s[..k]
        decreases |s| - k
      {
        k := k + 1;
      }
    }

    method SlotOf(item: Item) returns (i: nat)
      requires item in slots
      ensures i < |slots| && slots[i] == item
    {
      i := 0;
      while slots[i] != item
        invariant i < |slots| && forall k | 0 <= k < i :: slots[k] != item
        decreases |slots| - i
      {
        i := i + 1;
      }
    }

    // ------------------------------------------------------------ adding coins

    /** Coins of the given kinds may have arrived or joined stacks; everything else is as it was. */
    twostate predicate OnlyAdded(kinds: set<nat>)
      reads this`all, all`count, all`parent
    {
      Grown(old(Lying()), Lying(), kinds) && forall x <- all :: x in old(all) || fresh(x)
    }

    method PutInSlot(i: nat, item: Item)
      requires Valid() && i < |slots| && slots[i] == null
      requires item !in all && UnitWorth(item.id) > 0 && item.count < 256
      requires !item.isContainer && item.contents == [] && item.parent == null
      modifies this`slots, this`all, this`level
      ensures Valid() && all == old(all) + {item}
    {
      ghost var was := slots;
      slots := slots[i := item];
      all, level := all + {item}, level[item := 0];
      forall x | x in all ensures Placed(x) {
        if x == item {
          assert slots[i] == x;
        } else {
          assert old(Placed(x));
          if x.parent == null {
            var n :| 0 <= n < |was| && was[n] == x;
            assert slots[n] == x;
          }
        }
      }
    }

    method PutInBox(box: Item, item: Item)
      requires Valid() && box in all && box.isContainer
      requires item !in all && UnitWorth(item.id) > 0 && item.count < 256
      requires !item.isContainer && item.contents == []
      modifies this`all, this`level, box`contents, item`parent
      ensures Valid() && all == old(all) + {item}
    {
      assert Placed(box);
      item.parent := box;
      level := level[item := level[box] + 1];
      box.contents := [item] + box.contents;
      all := all + {item};
      forall x | x in all ensures Placed(x) {
        assert x != item ==> old(Placed(x));
      }
    }

    method PlaceInSlot(i: nat, id: nat, count: nat)
      requires Valid() && UnitWorth(id) > 0 && count < 256
      requires i < |slots| && slots[i] == null
      modifies this`slots, this`all, this`level
      ensures Valid() && OnlyAdded({id})
      ensures CoinWorth() == old(CoinWorth()) + StackWorth(id, count)
    {
      var item := new Item(id, count);
      PutInSlot(i, item);
      assert Worths() == old(Worths())[item := StackWorth(id, count)];
      SumUpdate(old(Worths()), item, StackWorth(id, count));
    }

    method PlaceInBox(box: Item, id: nat, count: nat)
      requires Valid() && UnitWorth(id) > 0 && count < 256
      requires box in all && box.isContainer
      modifies this`all, this`level, box`contents
      ensures Valid() && OnlyAdded({id})
      ensures CoinWorth() == old(CoinWorth()) + StackWorth(id, count)
    {
      var item := new Item(id, count);
      PutInBox(box, item);
      assert Worths() == old(Worths())[item := StackWorth(id, count)];
      SumUpdate(old(Worths()), item, StackWorth(id, count));
    }

    /** Fill up an existing stack of the same kind; what does not fit is returned. */
    method JoinStack(target: Item, count: nat) returns (rest: nat)
      requires Valid() && target in all && UnitWorth(target.id) > 0 && target.count <= 100
      modifies target`count
      ensures Valid() && OnlyAdded({target.id})
      ensures rest <= count
      ensures CoinWorth() == old(CoinWorth()) + StackWorth(target.id, count - rest)
    {
      var n := if 100 - target.count < count then 100 - target.count else count;
      rest := count - n;
      SplitStack(target.id, target.count, n);
      SumUpdate(Worths(), target, StackWorth(target.id, target.count + n));
      SetCount(target, target.count + n);
    }

    /** Some item lying in a slot, or in what lies there, at any depth. */
    method SomeItem() returns (target: Item?)
      requires Valid()
      ensures target != null ==> target in all
    {
      var i :| 0 <= i <= |slots|;
      if i == |slots| || slots[i] == null {
        return null;
      }
      var item := slots[i];
      var depth: nat :| depth >= 0;
      for d := 0 to depth
        invariant item in all
      {
        if item.contents != [] {
          assert Placed(item);
          var j :| 0 <= j < |item.contents|;
          item := item.contents[j];
        }
      }
      return item;
    }

    /** Some stack of the kind, if one is met, is filled up. */
    method JoinSome(id: nat, count: nat) returns (rest: nat)
      requires Valid() && UnitWorth(id) > 0
      modifies all
      ensures Valid() && OnlyAdded({id}) && all == old(all)
      ensures rest <= count
      ensures CoinWorth() == old(CoinWorth()) + StackWorth(id, count - rest)
    {
      rest := count;
      var target := SomeItem();
      if target != null && target.id == id && target.count <= 100 {
        rest := JoinStack(target, count);
      } else {
        SplitStack(id, 0, 0);
      }
    }

    /** A new stack goes into an empty slot, into some container at any depth, or to the ground. */
    method PlaceNew(id: nat, count: nat)
      requires Valid() && UnitWorth(id) > 0 && count <= 100
      modifies this`slots, this`all, this`level, this`dropped, all
      ensures Valid() && OnlyAdded({id})
      ensures CoinWorth() + dropped == old(CoinWorth() + dropped) + StackWorth(id, count)
      ensures dropped >= old(dropped)
    {
      var i :| 0 <= i <= |slots|;
      var target := SomeItem();
      if i < |slots| && slots[i] == null {
        PlaceInSlot(i, id, count);
      } else if target != null && target.isContainer {
        PlaceInBox(target, id, count);
      } else {
        Drop(id, count);
      }
    }

    /**
     Delivery of one created stack: it may join stacks of its own kind, and what is left of it goes to some place as
     a new stack. Which of these happens is up to the player's containers and settings.
     */
    method PlaceCoins(id: nat, count: nat)
      requires Valid() && UnitWorth(id) > 0 && 0 < count <= 100
      modifies this`slots, this`all, this`level, this`dropped, all
      ensures Valid() && OnlyAdded({id})
      ensures CoinWorth() + dropped == old(CoinWorth() + dropped) + StackWorth(id, count)
      ensures dropped >= old(dropped)
    {
      var left := JoinMany(id, count);
      SplitStack(id, count - left, left);
      if left > 0 {
        PlaceNew(id, left);
      }
    }

    /** Any number of stacks of the kind are filled up. */
    method JoinMany(id: nat, count: nat) returns (left: nat)
      requires Valid() && UnitWorth(id) > 0
      modifies all
      ensures Valid() && OnlyAdded({id}) && all == old(all)
      ensures left <= count && CoinWorth() == old(CoinWorth()) + StackWorth(id, count - left)
    {
      left := count;
      var tries: nat :| tries >= 0;
      SplitStack(id, 0, 0);
      for t := 0 to tries
        invariant Valid() && OnlyAdded({id}) && all == old(all)
        invariant left <= count && CoinWorth() == old(CoinWorth()) + StackWorth(id, count - left)
      {
        var rest := JoinSome(id, left);
        SplitStack(id, count - left, left - rest);
        left := rest;
      }
    }

    method Drop(id: nat, count: nat)
      requires Valid()
      modifies this`dropped
      ensures Valid() && CoinWorth() == old(CoinWorth())
      ensures dropped == old(dropped) + StackWorth(id, count)
    {
      dropped := dropped + StackWorth(id, count);
      assert Worths() == old(Worths());
      forall x | x in all ensures Placed(x) {
        assert old(Placed(x));
      }
    }

    /** The inner loop of `addMoney`: `count` coins of one kind in stacks of at most a hundred. */
    method AddCoins(id: nat, count: nat)
      requires Valid() && UnitWorth(id) > 0
      modifies this`slots, this`all, this`level, this`dropped, this`coined, all
      ensures Valid() && OnlyAdded({id})
      ensures coined == old(coined) + StacksOf(id, count)
      ensures CoinWorth() + dropped == old(CoinWorth() + dropped) + StackWorth(id, count)
      ensures dropped >= old(dropped)
    {
      ghost var was := Lying();
      var left := count;
      while left > 0
        invariant Valid() && Grown(was, Lying(), {id}) && forall x <- all :: x in old(all) || fresh(x)
        invariant 0 <= left <= count && coined + StacksOf(id, left) == old(coined) + StacksOf(id, count)
        invariant CoinWorth() + dropped + StackWorth(id, left) == old(CoinWorth() + dropped) + StackWorth(id, count)
        invariant dropped >= old(dropped)
      {
        var createCount := if left < 100 then left else 100;
        ghost var before := Lying();
        AddStack(id, createCount);
        GrownMore(was, before, Lying(), {id}, {id});
        SplitStack(id, createCount, left - createCount);
        left := left - createCount;
      }
    }

    /** One stack is created and delivered. */
    method AddStack(id: nat, count: nat)
      requires Valid() && UnitWorth(id) > 0 && 0 < count <= 100
      modifies this`slots, this`all, this`level, this`dropped, this`coined, all
      ensures Valid() && OnlyAdded({id}) && coined == old(coined) + [Stack(id, count)]
      ensures CoinWorth() + dropped == old(CoinWorth() + dropped) + StackWorth(id, count)
      ensures dropped >= old(dropped)
    {
      PlaceCoins(id, count);
      coined := coined + [Stack(id, count)];
    }

    /** `Game::addMoney`: create coins for an amount, largest coins first, and deliver them. */
    method AddMoney(money: nat)
      requires Valid()
      modifies this`slots, this`all, this`level, this`dropped, this`coined, all
      ensures Valid() && OnlyAdded(KindsWithin(money))
      ensures CoinedFor(old(coined), coined, money % (10000 * U32))
      ensures CoinWorth() + dropped == old(CoinWorth() + dropped) + money % (10000 * U32)
      ensures dropped >= old(dropped)
    {
      var crystals, platinums, golds := CountCoins(money);
      AddKind(CRYSTAL_COIN, crystals, money);
      AddSmall(platinums, golds, money);
      ChangeCoined(old(coined), coined, money % (10000 * U32), crystals, platinums, golds);
    }

    /** The part of the change below one crystal coin. */
    method AddSmall(platinums: nat, golds: nat, ghost limit: nat)
      requires Valid() && 100 * platinums + golds <= limit
      modifies this`slots, this`all, this`level, this`dropped, this`coined, all
      ensures Valid() && OnlyAdded(KindsWithin(limit))
      ensures coined == old(coined) + StacksOf(PLATINUM_COIN, platinums) + StacksOf(GOLD_COIN, golds)
      ensures CoinWorth() + dropped == old(CoinWorth() + dropped) + 100 * platinums + golds
      ensures dropped >= old(dropped)
    {
      AddKind(PLATINUM_COIN, platinums, limit);
      AddKind(GOLD_COIN, golds, limit);
      assert OnlyAdded(KindsWithin(limit));
    }

    /** The coin counts, with the casts to 32 and 16 bits the code applies. */
    static method CountCoins(money: nat) returns (crystals: nat, platinums: nat, golds: nat)
      ensures money % (10000 * U32) == 10000 * crystals + 100 * platinums + golds <= money
      ensures FewestPieces(money % (10000 * U32)) == crystals + platinums + golds
    {
      ghost var c, p, g := NarrowedChange(money);
      var left := money;
      crystals := (left / 10000) % U32;
      left := left - 10000 * crystals;
      platinums := (left / 100) % U32;
      left := left - 100 * platinums;
      platinums := platinums % 0x10000;
      golds := left % U32;
    }

    /** One denomination of the change: nothing to do when no such coin is needed. */
    method AddKind(id: nat, count: nat, ghost limit: nat)
      requires Valid() && UnitWorth(id) > 0 && (count > 0 ==> UnitWorth(id) <= limit)
      modifies this`slots, this`all, this`level, this`dropped, this`coined, all
      ensures Valid() && OnlyAdded(KindsWithin(limit))
      ensures coined == old(coined) + StacksOf(id, count)
      ensures CoinWorth() + dropped == old(CoinWorth() + dropped) + StackWorth(id, count)
      ensures dropped >= old(dropped)
    {
      if count != 0 {
        AddCoins(id, count);
      }
    }

    // ------------------------------------------------------------ removing money

    /** What is not money: how much of it lies where. */
    ghost function Others(): map<Item, Pile>
      reads this`all, all`count, all`parent
    {
      OthersOf(Lying())
    }

    /** `found` has been searched: its containers are queued and its coins listed with their worth. */
    ghost predicate Gathered(found: set<Item>, containers: seq<Item>, money: seq<(nat, Item)>, total: nat)
      reads this`all, all
    {
      && found <= all
      && Distinct(containers) && (forall x <- containers :: x in found && x.isContainer)
      && (forall x <- found :: x.isContainer ==> x in containers)
      && Noted(found, money, total)
    }

    ghost predicate Noted(found: set<Item>, money: seq<(nat, Item)>, total: nat)
      requires found <= all
      reads this`all, all
    {
      && ItemsDistinct(money)
      && (forall e <- money :: e.1 in found && e.0 == e.1.Worth() && e.0 != 0)
      && (forall x <- found :: x.Worth() != 0 ==> (x.Worth(), x) in money)
      && total == TotalOf(money) % U64
    }

    lemma NoteOne(found: set<Item>, money: seq<(nat, Item)>, total: nat, item: Item)
      requires found <= all && item in all && item !in found && Noted(found, money, total) && item.Worth() != 0
      ensures Noted(found + {item}, money + [(item.Worth(), item)], (total + item.Worth()) % U64)
    {
      var e := (item.Worth(), item);
      OneMore(money, e);
      AddedWrapped(TotalOf(money), e.0);
      forall x | x in found + {item} && x.Worth() != 0 ensures (x.Worth(), x) in money + [e] {
        assert x == item || (x.Worth(), x) in money;
      }
    }

    /** A leaf met by the search: listed if it is worth anything. */
    method Note(item: Item, ghost found: set<Item>, money: seq<(nat, Item)>, total: nat)
      returns (money': seq<(nat, Item)>, total': nat)
      requires found <= all && item in all && item !in found && Noted(found, money, total)
      ensures Noted(found + {item}, money', total')
    {
      var worth := item.Worth();
      if worth != 0 {
        NoteOne(found, money, total, item);
        total' := (total + worth) % U64;
        money' := money + [(worth, item)];
      } else {
        money', total' := money, total;
      }
    }

    /** One item met by the search: a container is queued, anything else noted. */
    method Collect(item: Item, ghost found: set<Item>, containers: seq<Item>, money: seq<(nat, Item)>, total: nat)
      returns (containers': seq<Item>, money': seq<(nat, Item)>, total': nat)
      requires Valid() && item in all && item !in found && Gathered(found, containers, money, total)
      ensures Gathered(found + {item}, containers', money', total')
      ensures containers <= containers'
    {
      assert Placed(item);
      if item.isContainer {
        containers', money', total' := containers + [item], money, total;
      } else {
        containers' := containers;
        money', total' := Note(item, found, money, total);
      }
    }

    /** The inner loop of the search: every item of one queued container. */
    method SearchBox(box: Item, ghost found: set<Item>, ghost done: set<Item>,
                     containers: seq<Item>, money: seq<(nat, Item)>, total: nat)
      returns (containers': seq<Item>, money': seq<(nat, Item)>, total': nat, ghost found': set<Item>)
      requires Valid() && box in all && box !in done && Gathered(found, containers, money, total)
      requires forall x <- all :: x in found <==> x.parent == null || x.parent in done
      ensures Gathered(found', containers', money', total') && containers <= containers'
      ensures forall x <- all :: x in found' <==> x.parent == null || x.parent in done || x.parent == box
    {
      containers', money', total', found' := containers, money, total, found;
      assert Placed(box);
      ghost var inBox: set<Item> := {};
      for k := 0 to |box.contents|
        invariant containers <= containers' && Gathered(found', containers', money', total')
        invariant found' == found + inBox
        invariant forall x :: x in inBox <==> x in box.contents[..k]
      {
        var item := box.contents[k];
        containers', money', total' := Collect(item, found', containers', money', total');
        found', inBox := found' + {item}, inBox + {item};
      }
      forall x | x in all ensures x.parent == box <==> x in box.contents { assert Placed(x); }
    }

    /** The items lying directly in the slots. */
    method SearchSlots() returns (containers: seq<Item>, money: seq<(nat, Item)>, total: nat, ghost found: set<Item>)
      requires Valid()
      ensures Gathered(found, containers, money, total)
      ensures forall x <- all :: x in found <==> x.parent == null
    {
      containers, money, total, found := [], [], 0, {};
      for k := 0 to |slots|
        invariant Gathered(found, containers, money, total)
        invariant forall x <- all :: x in found <==> x in slots[..k]
      {
        var item := slots[k];
        if item != null {
          containers, money, total := Collect(item, found, containers, money, total);
          found := found + {item};
        }
      }
      forall x | x in all ensures x in found <==> x.parent == null { assert Placed(x); }
    }

    /** The search of `removeMoney`: slots first, then a worklist of containers. */
    method Search() returns (money: seq<(nat, Item)>, total: nat)
      requires Valid()
      ensures Noted(all, money, total)
    {
      var containers;
      ghost var found;
      containers, money, total, found := SearchSlots();
      var i := 0;
      ghost var done: set<Item> := {};
      while i < |containers|
        invariant i <= |containers| && Gathered(found, containers, money, total)
        invariant done <= all && forall b :: b in done <==> b in containers[..i]
        invariant forall x <- all :: x in found <==> x.parent == null || x.parent in done
        decreases all - done
      {
        var box := containers[i];
        assert containers[..i + 1] == containers[..i] + [box];
        ghost var before := containers;
        containers, money, total, found := SearchBox(box, found, done, containers, money, total);
        assert containers[..i + 1] == before[..i + 1];
        done := done + {box};
        i := i + 1;
      }
      assert containers[..i] == containers;
      AllReached(found, done);
    }

    /** Every coin carried, at any depth, is listed exactly once, with its worth. */
    method Gather() returns (money: seq<(nat, Item)>, total: nat)
      requires Valid()
      ensures Unspent(money)
      ensures TotalOf(money) == CoinWorth() && total == CoinWorth() % U64
    {
      money, total := Search();
      TotalIsSum(Worths(), money);
    }

    lemma AllReached(found: set<Item>, done: set<Item>)
      requires Valid() && found <= all
      requires forall y <- all :: y in found <==> y.parent == null || y.parent in done
      requires forall y <- found :: y.isContainer ==> y in done
      ensures found == all
    {
      forall x | x in all ensures x in found { Reached(x, found, done); }
    }

    lemma Reached(x: Item, found: set<Item>, done: set<Item>)
      requires Valid() && x in all
      requires forall y <- all :: y in found <==> y.parent == null || y.parent in done
      requires forall y <- found :: y.isContainer ==> y in done
      ensures x in found
      decreases if x in level then level[x] else 0
    {
      assert Placed(x);
      if x.parent != null {
        assert Placed(x.parent);
        Reached(x.parent, found, done);
      }
    }

    /** The coins still to be used when `money` of the charge is left: exactly the rest of the list. */
    ghost predicate Unspent(rest: seq<(nat, Item)>)
      reads this`all, all
    {
      && ItemsDistinct(rest)
      && (forall e <- rest :: e.1 in all && e.0 == e.1.Worth() && e.0 != 0)
      && (forall x <- all :: x.Worth() != 0 ==> (x.Worth(), x) in rest)
    }

    /** Spend the first stack of the list as a whole. */
    method SpendWhole(rest: seq<(nat, Item)>)
      requires Valid() && rest != [] && Unspent(rest)
      modifies this`slots, this`all, all
      ensures Valid() && all <= old(all) && Others() == old(Others())
      ensures Unspent(rest[1..])
      ensures CoinWorth() == old(CoinWorth()) - rest[0].0
      ensures all == old(all) - {rest[0].1} && Lying() == old(Lying()) - {rest[0].1}
    {
      var item := rest[0].1;
      RemoveThing(item, item.count);
      forall x | x in all && x.Worth() != 0 ensures (x.Worth(), x) in rest[1..] {
        assert (x.Worth(), x) in rest;
      }
    }

    /** Break the first stack of the list: take just enough coins and give change. */
    method Break(item: Item, money: nat)
      requires Valid() && item in all && 0 < money < item.Worth()
      modifies this`slots, this`all, this`level, this`dropped, this`coined, all
      ensures Valid() && Others() == old(Others())
      ensures CoinWorth() + dropped == old(CoinWorth() + dropped) - money
      ensures dropped >= old(dropped)
      ensures NewCoins(old(coined), coined)
      ensures forall x <- all :: x in old(all) || fresh(x)
      ensures Used(old(Lying()), Lying()) == {item}
    {
      ghost var was := Lying();
      var removeCount, change := Broken(item, money);
      GiveChange(item, change);
      ghost var grown := Lying();
      RemoveThing(item, removeCount);
      BrokenIsUsed(was, grown, Lying(), item, change, removeCount);
    }

    /** Change of less than one coin of a stack does not touch that stack. */
    method GiveChange(item: Item, change: nat)
      requires Valid() && item in all && change < UnitWorth(item.id)
      modifies this`slots, this`all, this`level, this`dropped, this`coined, all
      ensures Valid() && OnlyAdded(KindsWithin(change)) && NewCoins(old(coined), coined)
      ensures item in all && item.count == old(item.count)
      ensures CoinWorth() + dropped == old(CoinWorth() + dropped) + change && dropped >= old(dropped)
    {
      ghost var was := Lying();
      assert item in was && was[item].count == item.count;
      AddMoney(change);
      assert Lying()[item].count == item.count;
    }

    /** How many coins to take off a stack, and the change to give for them: less than one such coin. */
    method Broken(item: Item, money: nat) returns (removeCount: nat, change: nat)
      requires Valid() && item in all && 0 < money < item.Worth()
      ensures UnitWorth(item.id) > 0 && 0 < removeCount <= item.count
      ensures change + money == StackWorth(item.id, removeCount) && change < UnitWorth(item.id)
      ensures change % (10000 * U32) == change
    {
      assert Placed(item);
      var unitWorth := item.Worth() / item.count;
      assert unitWorth == UnitWorth(item.id);
      removeCount := (money + unitWorth - 1) / unitWorth;
      RoundUp(item.id, item.count, money);
      change := unitWorth * removeCount - money;
    }

    /**
     `Game::removeMoney`: pay from the coins carried, breaking at most one stack, then from the bank.
     The affordability test adds coins and balance in 64 bits.
     */
    method RemoveMoney(amount: nat, useBalance: bool) returns (ok: bool)
      requires Valid() && amount < U64
      modifies this, all
      ensures Valid()
      ensures ok <==> amount == 0 || Covers(old(CoinWorth()), if useBalance && isPlayer then old(bank) else 0, amount)
      ensures ok ==> Charged(old(CoinWorth()), old(dropped), old(bank), CoinWorth(), dropped, bank, amount)
      ensures ok ==> CoinWorth() + dropped + bank == old(CoinWorth() + dropped + bank) - amount
      ensures ok ==> Others() == old(Others()) && LargestFirst(old(Worths()), old(Lying()), Lying())
      ensures ok ==> NewCoins(old(coined), coined)
      ensures !ok ==> unchanged(this) && unchanged(all)
    {
      SumBounds(Worths());
      if amount == 0 {
        NoCoins(coined);
        return true;
      }
      ghost var worths, was := Worths(), Lying();
      var moneyItems, enough := CanPay(amount, useBalance);
      assert Worths() == worths && Lying() == was;
      if !enough {
        return false;
      }
      moneyItems := SortPermuted(moneyItems);
      assert Worths() == worths && Lying() == was;
      CoversEnough(SumValues(worths), if useBalance && isPlayer then bank else 0, amount);
      Pay(moneyItems, amount, useBalance);
      return true;
    }

    /** The coins carried, and whether they are enough together with the balance. */
    method CanPay(amount: nat, useBalance: bool) returns (moneyItems: seq<(nat, Item)>, enough: bool)
      requires Valid()
      ensures Unspent(moneyItems)
      ensures enough <==> Covers(CoinWorth(), if useBalance && isPlayer then bank else 0, amount)
    {
      var moneyCount;
      moneyItems, moneyCount := Gather();
      var balance := if useBalance && isPlayer then bank else 0;
      SumBounds(Worths());
      WrappedTest(CoinWorth(), balance, amount);
      enough := (moneyCount + balance) % U64 >= amount;
    }

    /** The paying half of `removeMoney`, once it is known that there is enough. */
    method Pay(moneyItems: seq<(nat, Item)>, amount: nat, useBalance: bool)
      requires Valid() && amount > 0 && Unspent(moneyItems) && Descending(moneyItems)
      requires CoinWorth() + (if useBalance && isPlayer then bank else 0) >= amount
      modifies this`slots, this`all, this`level, this`dropped, this`bank, this`coined, all
      ensures Valid() && Others() == old(Others())
      ensures LargestFirst(old(Worths()), old(Lying()), Lying()) && NewCoins(old(coined), coined)
      ensures Charged(old(CoinWorth()), old(dropped), old(bank), CoinWorth(), dropped, bank, amount)
    {
      var money := Spend(moneyItems, amount);
      SumBounds(Worths());
      // only the bank is left
      if money != 0 && useBalance && isPlayer && bank >= money {
        Withdraw(money);
      }
    }

    method SortPermuted(moneyItems: seq<(nat, Item)>) returns (sorted: seq<(nat, Item)>)
      requires Unspent(moneyItems)
      ensures Unspent(sorted) && Descending(sorted)
    {
      sorted := SortDescending(moneyItems);
      Permuted(moneyItems, sorted);
    }

    /** The loop over the sorted coins; the result is what is left to pay, zero on the loop's early returns. */
    method Spend(moneyItems: seq<(nat, Item)>, amount: nat) returns (money: nat)
      requires Valid() && amount > 0 && Unspent(moneyItems) && Descending(moneyItems)
      modifies this`slots, this`all, this`level, this`dropped, this`coined, all
      ensures Valid() && Others() == old(Others())
      ensures LargestFirst(old(Worths()), old(Lying()), Lying()) && NewCoins(old(coined), coined)
      ensures if amount <= old(CoinWorth()) then
                money == 0 && CoinWorth() + dropped == old(CoinWorth() + dropped) - amount && dropped >= old(dropped)
              else
                money == amount - old(CoinWorth()) && CoinWorth() == 0 && dropped == old(dropped)
    {
      ghost var worths, was := Worths(), Lying();
      assert forall x <- worths :: worths[x] != 0 ==> (x.Worth(), x) in moneyItems;
      ghost var n;
      money, n := SpendUntil(moneyItems, amount);
      UsedFromStart(moneyItems, n, worths, was, Lying());
    }

    /** The loop itself: the first `n` entries are used, all but the last of them as a whole. */
    method SpendUntil(moneyItems: seq<(nat, Item)>, amount: nat) returns (money: nat, ghost n: nat)
      requires Valid() && amount > 0 && Unspent(moneyItems)
      modifies this`slots, this`all, this`level, this`dropped, this`coined, all
      ensures Valid() && Others() == old(Others())
      ensures FromStart(moneyItems, n, old(Lying()), Lying())
      ensures money == 0 ==> amount <= old(CoinWorth()) && dropped >= old(dropped)
                             && CoinWorth() + dropped == old(CoinWorth() + dropped) - amount
      ensures money != 0 ==> money == amount - old(CoinWorth()) && CoinWorth() == 0 && dropped == old(dropped)
      ensures NewCoins(old(coined), coined)
    {
      money := amount;
      ghost var was := Lying();
      var i := 0;
      while i < |moneyItems|
        invariant 0 <= i <= |moneyItems|
        invariant Valid() && all <= old(all) && Others() == old(Others())
        invariant Unspent(moneyItems[i..])
        invariant 0 < money <= amount && CoinWorth() == old(CoinWorth()) - (amount - money)
        invariant dropped == old(dropped) && coined == old(coined)
        invariant Lying() == was - Spent(moneyItems[..i])
      {
        money := SpendNext(moneyItems, i, money, was);
        i := i + 1;
        if money == 0 {
          return 0, i;
        }
      }
      n := i;
      NothingLeft();
    }

    /** One turn of the loop, after the first `i` entries were used as a whole. */
    method SpendNext(moneyItems: seq<(nat, Item)>, i: nat, money: nat, ghost was: map<Item, Pile>) returns (left: nat)
      requires Valid() && i < |moneyItems| && Unspent(moneyItems[i..]) && money > 0
      requires Lying() == was - Spent(moneyItems[..i]) && forall e <- moneyItems :: e.1 in was
      modifies this`slots, this`all, this`level, this`dropped, this`coined, all
      ensures Valid() && Others() == old(Others()) && moneyItems[i].0 <= old(CoinWorth())
      ensures left == if moneyItems[i].0 < money then money - moneyItems[i].0 else 0
      ensures if left > 0 then
                && Unspent(moneyItems[i + 1..]) && all <= old(all) && dropped == old(dropped) && coined == old(coined)
                && CoinWorth() == old(CoinWorth()) - moneyItems[i].0 && Lying() == was - Spent(moneyItems[..i + 1])
              else
                && CoinWorth() + dropped == old(CoinWorth() + dropped) - money && dropped >= old(dropped)
                && FromStart(moneyItems, i + 1, was, Lying()) && NewCoins(old(coined), coined)
    {
      SpentNext(moneyItems, i);
      ghost var before := Lying();
      left := SpendOne(moneyItems[i..], money);
      if left == 0 {
        FromStartNext(moneyItems, i, was, before, Lying());
      }
    }

    lemma NothingLeft()
      requires Unspent([])
      ensures CoinWorth() == 0 && NewCoins(coined, coined)
    {
      NoCoins(coined);
      forall x | x in all ensures x.Worth() == 0 {
      }
      SumZero(Worths());
    }

    /** One entry of the list: the stack is used as a whole, or as much of it as is left to pay. */
    method SpendOne(rest: seq<(nat, Item)>, money: nat) returns (left: nat)
      requires Valid() && rest != [] && Unspent(rest) && money > 0
      modifies this`slots, this`all, this`level, this`dropped, this`coined, all
      ensures Valid() && Others() == old(Others()) && rest[0].0 <= old(CoinWorth())
      ensures left == if rest[0].0 < money then money - rest[0].0 else 0
      ensures if left > 0 then
                && Unspent(rest[1..]) && all <= old(all) && dropped == old(dropped)
                && CoinWorth() == old(CoinWorth()) - rest[0].0 && Lying() == old(Lying()) - {rest[0].1}
              else
                && CoinWorth() + dropped == old(CoinWorth() + dropped) - money && dropped >= old(dropped)
                && Used(old(Lying()), Lying()) == {rest[0].1} && forall x <- all :: x in old(all) || fresh(x)
      ensures if left > 0 then coined == old(coined) else NewCoins(old(coined), coined)
    {
      var worthTotal, item := rest[0].0, rest[0].1;
      CarriesAtLeast(item);
      if worthTotal < money {
        SpendWhole(rest);
        left := money - worthTotal;
      } else if worthTotal > money {
        Break(item, money);
        left := 0;
      } else {
        SpendWhole(rest);
        NoCoins(coined);
        left := 0;
      }
    }

    lemma CarriesAtLeast(item: Item)
      requires item in all
      ensures item.Worth() <= CoinWorth()
    {
      SumBounds(Worths());
      assert Worths()[item] == item.Worth();
    }

    lemma Permuted(a: seq<(nat, Item)>, b: seq<(nat, Item)>)
      requires Unspent(a) && multiset(a) == multiset(b)
      ensures Unspent(b)
    {
      forall e ensures e in a <==> e in b {
        assert e in a <==> e in multiset(a);
        assert e in b <==> e in multiset(b);
      }
      forall i, j | 0 <= i < j < |b| ensures b[i].1 != b[j].1 {
        assert b[i] in a && b[j] in a;
        if b[i].1 == b[j].1 {
          Twice(b, i, j);
          Once(a, b[i]);
        }
      }
    }

    method Withdraw(money: nat)
      requires Valid() && money <= bank
      modifies this`bank
      ensures Valid() && bank == old(bank) - money
      ensures CoinWorth() == old(CoinWorth()) && Lying() == old(Lying())
    {
      bank := bank - money;
      assert Worths() == old(Worths());
      forall x | x in all ensures Placed(x) {
        assert old(Placed(x));
      }
    }
  }

  /** The stacks that have fewer coins than before, or are gone. */
  ghost function Used(was: map<Item, Pile>, now: map<Item, Pile>): set<Item> {
    set x | x in was && (x !in now || now[x].count < was[x].count)
  }

  /**
   Only coins are used; before a coin of any stack is, all stacks of a larger worth are used up; and no more than
   one stack is used in part.
   */
  ghost predicate LargestFirst(worths: map<Item, int>, was: map<Item, Pile>, now: map<Item, Pile>) {
    && (forall x | x in Used(was, now) :: x in worths && worths[x] > 0)
    && (forall x, y | x in worths && y in Used(was, now) && y in worths && worths[x] > worths[y] :: x !in now)
    && (forall x, y | x in Used(was, now) && y in Used(was, now) && x in now && y in now :: x == y)
  }

  /** After change was given and coins were taken off a stack, only that stack is used. */
  lemma BrokenIsUsed(was: map<Item, Pile>, grown: map<Item, Pile>, now: map<Item, Pile>,
                     item: Item, change: nat, count: nat)
    requires item in was && Grown(was, grown, KindsWithin(change)) && UnitWorth(item.id) > change
    requires 0 < count <= grown[item].count && now == LessOf(grown, item, count)
    ensures Used(was, now) == {item} && OthersOf(now) == OthersOf(was)
  {
  }

  /** What is left when coins are taken off a stack. */
  ghost function LessOf(lying: map<Item, Pile>, item: Item, count: nat): map<Item, Pile>
    requires item in lying && count <= lying[item].count
  {
    if count == lying[item].count then lying - {item}
    else lying[item := lying[item].(count := lying[item].count - count)]
  }

  lemma LessWorth(lying: map<Item, Pile>, item: Item, count: nat)
    requires item in lying && count <= lying[item].count
    ensures SumValues(WorthsOf(LessOf(lying, item, count))) == SumValues(WorthsOf(lying)) - StackWorth(item.id, count)
  {
    var worths, n := WorthsOf(lying), lying[item].count;
    SplitStack(item.id, count, n - count);
    if count == n {
      SumAt(worths, item);
      assert WorthsOf(LessOf(lying, item, count)) == worths - {item};
    } else {
      SumUpdate(worths, item, StackWorth(item.id, n - count));
      assert WorthsOf(LessOf(lying, item, count)) == worths[item := StackWorth(item.id, n - count)];
    }
  }

  /** Stacks of one to a hundred coins, as few coins as possible for the amount. */
  ghost predicate FewestCoins(stacks: seq<Stack>, money: nat) {
    && (forall e <- stacks :: UnitWorth(e.id) > 0 && 0 < e.count <= 100)
    && StacksWorth(stacks) == money && Pieces(stacks) == FewestPieces(money)
  }

  /** The stacks created meanwhile are the fewest coins for an amount. */
  ghost predicate CoinedFor(was: seq<Stack>, now: seq<Stack>, money: nat) {
    exists stacks :: now == was + stacks && FewestCoins(stacks, money)
  }

  /** The stacks created meanwhile are the fewest coins for less than one crystal coin. */
  ghost predicate NewCoins(was: seq<Stack>, now: seq<Stack>) {
    exists change: nat :: change < 10000 && CoinedFor(was, now, change)
  }

  lemma NoCoins(was: seq<Stack>)
    ensures NewCoins(was, was)
  {
    assert was == was + [] && FewestCoins([], 0);
    assert CoinedFor(was, was, 0);
  }

  lemma ChangeCoined(was: seq<Stack>, now: seq<Stack>, money: nat, crystals: nat, platinums: nat, golds: nat)
    requires now == was + StacksOf(CRYSTAL_COIN, crystals) + StacksOf(PLATINUM_COIN, platinums)
             + StacksOf(GOLD_COIN, golds)
    requires money == 10000 * crystals + 100 * platinums + golds && FewestPieces(money) == crystals + platinums + golds
    ensures CoinedFor(was, now, money)
  {
    var stacks := Change(crystals, platinums, golds);
    ChangeWorth(crystals, platinums, golds);
    assert now == was + stacks && FewestCoins(stacks, money);
  }

  /** The items of a list. */
  ghost function Spent(money: seq<(nat, Item)>): (r: set<Item>)
    ensures forall e <- money :: e.1 in r
    ensures forall x <- r :: exists i :: 0 <= i < |money| && money[i].1 == x
  {
    set e | e in money :: e.1
  }

  lemma SpentNext(money: seq<(nat, Item)>, i: nat)
    requires i < |money|
    ensures Spent(money[..i + 1]) == Spent(money[..i]) + {money[i].1}
    ensures money[i..] != [] && money[i..][0] == money[i] && money[i..][1..] == money[i + 1..]
  {
    assert money[..i + 1] == money[..i] + [money[i]];
  }

  /** The first `n` stacks of a list are used, all but the last of them as a whole. */
  ghost predicate FromStart(money: seq<(nat, Item)>, n: nat, was: map<Item, Pile>, now: map<Item, Pile>) {
    && n <= |money| && Used(was, now) <= Spent(money[..n])
    && forall x | x in now && x in Spent(money[..n]) :: x == money[n - 1].1
  }

  lemma FromStartNext(money: seq<(nat, Item)>, i: nat, was: map<Item, Pile>, before: map<Item, Pile>,
                      now: map<Item, Pile>)
    requires i < |money| && before == was - Spent(money[..i]) && Used(before, now) == {money[i].1}
    requires forall x | x in now && x in was :: x in before
    requires forall e <- money :: e.1 in was
    ensures FromStart(money, i + 1, was, now)
  {
    SpentNext(money, i);
    forall x | x in Spent(money[..i + 1]) ensures x in was {
      var j :| 0 <= j < i + 1 && money[..i + 1][j].1 == x;
      assert money[j] in money;
    }
  }

  /** What is worth more comes before, and so is not the last. */
  lemma ComesBefore(money: seq<(nat, Item)>, n: nat, worths: map<Item, int>, x: Item, y: Item)
    requires Descending(money) && n <= |money| && x in Spent(money) && y in Spent(money[..n])
    requires forall e <- money :: e.1 in worths && worths[e.1] == e.0
    requires x in worths && y in worths && worths[x] > worths[y]
    ensures x in Spent(money[..n]) && x != money[n - 1].1
  {
    var j :| 0 <= j < n && money[..n][j].1 == y;
    var k :| 0 <= k < |money| && money[k].1 == x;
    assert money[j] in money && money[k] in money && money[n - 1] in money;
    assert k < j && money[..n][k] == money[k];
  }

  /** A list sorted by worth is used from its start. */
  lemma UsedFromStart(money: seq<(nat, Item)>, n: nat, worths: map<Item, int>, was: map<Item, Pile>,
                      now: map<Item, Pile>)
    requires Descending(money) && FromStart(money, n, was, now)
    requires forall e <- money :: e.1 in worths && worths[e.1] == e.0 && e.0 != 0
    requires forall x <- worths :: worths[x] != 0 ==> x in Spent(money)
    ensures LargestFirst(worths, was, now)
  {
    forall x, y | x in worths && y in Spent(money[..n]) && worths[x] > worths[y] > 0
      ensures x in Spent(money[..n]) && x != money[n - 1].1
    {
      ComesBefore(money, n, worths, x, y);
    }
    forall x | x in Used(was, now) ensures x in worths && worths[x] > 0 {
      var j :| 0 <= j < n && money[..n][j].1 == x;
      assert money[j] in money;
    }
  }

  /** `std::sort` by falling worth; the order of equal entries is left open by the contract. */
  method SortDescending(a: seq<(nat, Item)>) returns (b: seq<(nat, Item)>)
    ensures multiset(b) == multiset(a)
    ensures Descending(b)
  {
    b := [];
    for n := 0 to |a|
      invariant multiset(b) == multiset(a[..n])
      invariant Descending(b)
    {
      b := Insert(b, a[n]);
      assert a[..n + 1] == a[..n] + [a[n]];
    }
    assert a[..|a|] == a;
  }

  predicate Descending(b: seq<(nat, Item)>) {
    forall i, j | 0 <= i < j < |b| :: b[i].0 >= b[j].0
  }

  method Insert(b: seq<(nat, Item)>, e: (nat, Item)) returns (r: seq<(nat, Item)>)
    requires Descending(b)
    ensures multiset(r) == multiset(b) + multiset{e}
    ensures Descending(r)
  {
    var k := 0;
    while k < |b| && b[k].0 > e.0
      invariant 0 <= k <= |b| && forall i | 0 <= i < k :: b[i].0 > e.0
    {
      k := k + 1;
    }
    assert b == b[..k] + b[k..];
    r := b[..k] + [e] + b[k..];
    StillDescending(b, k, e);
  }

  lemma StillDescending(b: seq<(nat, Item)>, k: nat, e: (nat, Item))
    requires Descending(b) && k <= |b|
    requires (forall i | 0 <= i < k :: b[i].0 > e.0) && (k < |b| ==> b[k].0 <= e.0)
    ensures Descending(b[..k] + [e] + b[k..])
  {
    var r := b[..k] + [e] + b[k..];
    forall i, j | 0 <= i < j < |r| ensures r[i].0 >= r[j].0 {
      assert r[i] == if i < k then b[i] else if i == k then e else b[i - 1];
      assert r[j] == if j < k then b[j] else if j == k then e else b[j - 1];
    }
  }

  lemma Twice<T>(s: seq<T>, i: nat, j: nat)
    requires i < j < |s| && s[i] == s[j]
    ensures multiset(s)[s[i]] >= 2
  {
    assert s == s[..j] + [s[j]] + s[j + 1..];
    assert s[i] in s[..j];
  }

  lemma {:induction false} Once(money: seq<(nat, Item)>, e: (nat, Item))
    requires ItemsDistinct(money)
    ensures multiset(money)[e] <= 1
    decreases |money|
  {
    if money != [] {
      assert money == [money[0]] + money[1..];
      Once(money[1..], e);
      if money[0] == e {
        assert e !in money[1..];
      }
    }
  }

  /** Rounding up to whole coins: the change is worth less than one of the coins that are broken. */
  lemma RoundUp(id: nat, count: nat, money: nat)
    requires UnitWorth(id) > 0 && 0 < money < StackWorth(id, count)
    ensures var unit := UnitWorth(id); var n := (money + unit - 1) / unit;
            0 < n <= count && unit * n == StackWorth(id, n) && 0 <= unit * n - money < unit
  {
  }

  ghost predicate ItemsDistinct(money: seq<(nat, Item)>) {
    forall i, j | 0 <= i < j < |money| :: money[i].1 != money[j].1
  }

  ghost function TotalOf(money: seq<(nat, Item)>): nat {
    if money == [] then 0 else TotalOf(money[..|money| - 1]) + money[|money| - 1].0
  }

  lemma AddedWrapped(a: nat, b: nat)
    ensures (a % U64 + b) % U64 == (a + b) % U64
  {
  }

  lemma OneMore(money: seq<(nat, Item)>, e: (nat, Item))
    requires ItemsDistinct(money) && forall f <- money :: f.1 != e.1
    ensures ItemsDistinct(money + [e]) && TotalOf(money + [e]) == TotalOf(money) + e.0
  {
    assert (money + [e])[..|money|] == money;
  }

  /** A duplicate-free list of all items worth something adds up to the worth of all items. */
  lemma {:induction false} TotalIsSum(m: map<Item, int>, money: seq<(nat, Item)>)
    requires ItemsDistinct(money)
    requires forall e <- money :: e.1 in m && m[e.1] == e.0
    requires forall x <- m :: m[x] == 0 || (exists e <- money :: e.1 == x)
    ensures SumValues(m) == TotalOf(money)
    decreases |money|
  {
    if money == [] {
      SumZero(m);
    } else {
      var n := |money| - 1;
      SumAt(m, money[n].1);
      forall x | x in m - {money[n].1} && m[x] != 0
        ensures exists e <- money[..n] :: e.1 == x
      {
        var e :| e in money && e.1 == x;
        assert e in money[..n];
      }
      TotalIsSum(m - {money[n].1}, money[..n]);
    }
  }
}
