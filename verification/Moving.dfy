/**
 Moving an item between two places: merging into a stack, splitting with a copy, moving as a whole, and
 swapping with what lies in the way. Where an item may go is decided elsewhere and arbitrary here.
 */
module Moving {
  import opened Common
  import opened Sums

  /** What two items have to share to be stacked. */
  datatype Kind = Kind(itemType: ItemType, attributes: nat)

  datatype Fit = Fits | NoRoom | NotAllowed

  datatype Reply = NoError | NeedExchange | Refusal

  /** What the queries answer that is not about the items lying in the two places. */
  datatype Answers = Answers(
    moveUp: bool,
    movable: bool,
    fit: Fit,
    swapFit: Fit,
    swapRoom: nat,
    swapRoomOk: bool,
    swapMovable: bool,
    refit: Fit,
    room: nat,
    roomOk: bool,
    slotFit: Fit,
    insideTrade: bool)

  /** The outcome: `amount` pieces moved, of which `merged` went into a stack that was there. */
  datatype Result = Refused | Ignored | Moved(amount: nat, merged: nat)

  const SLOT_FIRST: int := 1
  const SLOT_LAST: int := 11

  class Item {
    const kind: Kind
    var count: nat

    constructor (kind: Kind, count: nat)
      ensures this.kind == kind && this.count == count
    {
      this.kind, this.count := kind, count;
    }

    predicate Stackable() {
      kind.itemType.stackable
    }

    function StackSize(): nat {
      if Stackable() then kind.itemType.stackSize else 1
    }

    /** `clone` with another count. */
    method Copy(count: nat) returns (copy: Item)
      ensures fresh(copy) && copy.kind == kind && copy.count == count
    {
      copy := new Item(kind, count);
    }
  }

  // ---------------------------------------------------------------- what lies where

  ghost function Own(things: seq<Item?>): set<Item> {
    set i: Item | i in things
  }

  /** No item is listed twice. */
  ghost predicate Singly(things: seq<Item?>) {
    forall i, j | 0 <= i < j < |things| :: things[i] != null ==> things[i] != things[j]
  }

  /** Everything lying in one of the places. */
  ghost function Lying(all: set<Cylinder>): set<Item>
    reads all
  {
    set c, i: Item | c in all && i in c.things :: i
  }

  /** How many pieces each item lying somewhere has. */
  ghost function Placed(all: set<Cylinder>): map<Item, nat>
    reads all, Lying(all)
  {
    map i | i in Lying(all) :: i.count
  }

  ghost function Pieces(k: Kind): (Item, nat) -> int {
    (i: Item, n: nat) => if i.kind == k then n else 0
  }

  /** How many pieces of a kind there are. */
  ghost function Held(placed: map<Item, nat>, k: Kind): int {
    Total(placed, Pieces(k))
  }

  /** No item lies in two places, or twice in one, and no stack is empty or too large. */
  ghost predicate Valid(all: set<Cylinder>)
    reads all, Lying(all)
  {
    Once(all) && Sized(Placed(all))
  }

  ghost predicate Sized(placed: map<Item, nat>) {
    forall i {:trigger placed[i]} :: i in placed ==> 1 <= placed[i] <= i.StackSize()
  }

  ghost predicate Once(all: set<Cylinder>)
    reads all
  {
    && (forall c {:trigger c.Fine()} :: c in all ==> c.Fine())
    && (forall c, d {:trigger Apart(c, d)} :: c in all && d in all && c != d ==> Apart(c, d))
  }

  ghost predicate Apart(c: Cylinder, d: Cylinder)
    reads c, d
  {
    Own(c.things) !! Own(d.things)
  }

  // ---------------------------------------------------------------- places

  function IndexOf(things: seq<Item?>, item: Item): (r: int)
    ensures -1 <= r < |things|
    ensures r >= 0 <==> item in things
    ensures r >= 0 ==> things[r] == item
  {
    if things == [] then -1
    else if things[0] == item then 0
    else
      var r := IndexOf(things[1..], item);
      if r < 0 then -1 else r + 1
  }

  /** Whether an item is a stack with room for more of another. */
  predicate Joins(there: Item?, item: Item)
    reads there
  {
    there != null && there != item && there.kind == item.kind && there.count < there.StackSize()
  }

  function FirstStack(things: seq<Item?>, item: Item): (r: int)
    reads things
    ensures -1 <= r < |things| && (r >= 0 ==> Joins(things[r], item))
    ensures forall j | 0 <= j < if r < 0 then |things| else r :: !Joins(things[j], item)
  {
    if things == [] then -1
    else if Joins(things[0], item) then 0
    else
      var r := FirstStack(things[1..], item);
      if r < 0 then -1 else r + 1
  }

  /** A container, or the inventory of a player, which has numbered slots. */
  class Cylinder {
    const inventory: bool
    const capacity: nat
    /** Whether what is beyond the capacity is shown on further pages. */
    const paginated: bool
    var things: seq<Item?>

    constructor (inventory: bool, capacity: nat, paginated: bool)
      requires !inventory ==> capacity > 0
      ensures this.inventory == inventory && this.capacity == capacity && this.paginated == paginated
      ensures Fine() && Own(things) == {} && (!inventory ==> things == [])
    {
      this.inventory, this.capacity, this.paginated := inventory, capacity, paginated;
      things := if inventory then seq(12, _ => null) else [];
    }

    ghost predicate Fine()
      reads this
    {
      && Singly(things)
      && (inventory ==> |things| == SLOT_LAST + 1 && things[0] == null)
      && (!inventory ==> null !in things && capacity > 0)
    }

    predicate IsSlot(index: int) {
      inventory && SLOT_FIRST <= index <= SLOT_LAST
    }

    /** Whether `addThing` does anything at this index. */
    predicate Takes(index: int) {
      if inventory then IsSlot(index) else index < capacity
    }

    function At(index: int): Item?
      reads this
    {
      if 0 <= index < |things| then things[index] else null
    }

    /** What was put down last at an index: the front of a container, or the slot. */
    function There(index: int): Item?
      reads this
    {
      At(if inventory then index else 0)
    }

    /** What a container makes of an index: 254 and 255 mean anywhere, and so does one without a place to show it. */
    function Place(index: int): int {
      if index == 254 || index == 255 || (index >= capacity && !paginated) then -1 else index
    }

    /** Where a container puts an item: on the first stack it can join, unless it can join the one at the index. */
    ghost function Destination(index: int, item: Item, autoStack: bool): int
      reads this, things, item
    {
      if Restacks(index, item, autoStack) then FirstStack(things, item) else Place(index)
    }

    ghost predicate Restacks(index: int, item: Item, autoStack: bool)
      reads this, things, item
    {
      && autoStack && item.Stackable() && item !in things && !Joins(At(Place(index)), item)
      && FirstStack(things, item) >= 0
    }

    /** `queryDestination` of a container, when nothing at the index is itself a container. */
    method QueryDestination(index: int, item: Item, autoStack: bool) returns (place: int, toItem: Item?)
      ensures place == Destination(index, item, autoStack) && toItem == At(place)
    {
      place := Place(index);
      toItem := At(place);
      if autoStack && item.Stackable() && item !in things {
        if Joins(toItem, item) {
          return;
        }
        var n := 0;
        while n < |things|
          invariant 0 <= n <= |things| && forall j | 0 <= j < n :: !Joins(things[j], item)
        {
          if Joins(things[n], item) {
            return n, things[n];
          }
          n := n + 1;
        }
      }
    }

    method SetThings(things: seq<Item?>, ghost all: set<Cylinder>)
      requires this in all && Once(all) && Singly(things)
      requires if inventory then |things| == SLOT_LAST + 1 && things[0] == null else null !in things
      requires forall i | i in Own(things) :: i in Own(this.things) || i !in Lying(all)
      modifies this`things
      ensures this.things == things && Once(all)
      ensures Lying(all) == old(Lying(all)) - Own(old(this.things)) + Own(things)
    {
      assert Fine();
      this.things := things;
      assert Fine();
      forall c, d | c in all && d in all && c != d ensures Apart(c, d) {
        assert old(Apart(c, d)) && old(Apart(d, c));
      }
      forall c | c in all && c != this ensures c.Fine() && Own(c.things) !! old(Own(this.things)) {
        assert old(c.Fine()) && old(Apart(c, this));
      }
    }

    /** `addThing` with an index. */
    method AddThing(index: int, item: Item, ghost all: set<Cylinder>)
      requires this in all && Once(all) && item !in Lying(all) && Fine()
      requires IsSlot(index) ==> things[index] == null
      modifies this`things
      ensures Once(all)
      ensures Lying(all) == if Takes(index) then old(Lying(all)) + {item} else old(Lying(all))
      ensures Placed(all) == if Takes(index) then old(Placed(all))[item := item.count] else old(Placed(all))
      ensures things == if !Takes(index) then old(things) else if inventory then old(things)[index := item]
              else [item] + old(things)
      ensures Own(things) == if Takes(index) then old(Own(things)) + {item} else old(Own(things))
    {
      assert Fine() && item !in things;
      if !Takes(index) {
        return;
      }
      var after := if inventory then things[index := item] else [item] + things;
      OwnAdded(things, index, item, after);
      SetThings(after, all);
    }

    /** `addThing` without an index: an inventory ignores it. */
    method AddFirst(item: Item, ghost all: set<Cylinder>)
      requires this in all && Once(all) && item !in Lying(all) && Fine()
      modifies this`things
      ensures Once(all)
      ensures Lying(all) == if inventory then old(Lying(all)) else old(Lying(all)) + {item}
      ensures Placed(all) == if inventory then old(Placed(all)) else old(Placed(all))[item := item.count]
      ensures things == if inventory then old(things) else [item] + old(things)
    {
      if !inventory {
        AddThing(0, item, all);
      }
    }

    /** `removeThing`. */
    method RemoveThing(item: Item, count: nat, ghost all: set<Cylinder>)
      requires this in all && Once(all) && item in things
      modifies this`things, item`count
      ensures Once(all)
      ensures if item.Stackable() && count != old(item.count)
              then item.count == (if count < old(item.count) then old(item.count) - count else 0)
                   && things == old(things) && Lying(all) == old(Lying(all))
              else item.count == old(item.count) && Lying(all) == old(Lying(all)) - {item}
      ensures Placed(all) == if item.Stackable() && count != old(item.count) then old(Placed(all))[item := item.count]
              else old(Placed(all)) - {item}
      ensures inventory ==>
                && |things| == |old(things)|
                && forall s | 0 <= s < |things| ::
                     things[s] == if old(things)[s] == item && item !in Lying(all) then null else old(things)[s]
      ensures item !in Lying(all) <==> !(item.Stackable() && count != old(item.count))
      ensures Own(things) == old(Own(things)) - if item.Stackable() && count != old(item.count) then {} else {item}
    {
      assert Fine();
      var index := IndexOf(things, item);
      if item.Stackable() && count != item.count {
        item.count := if count < item.count then item.count - count else 0;
      } else {
        Drop(index, all);
      }
    }

    method Drop(index: nat, ghost all: set<Cylinder>)
      requires this in all && Once(all) && Fine() && index < |things| && things[index] != null
      modifies this`things
      ensures Once(all) && Lying(all) == old(Lying(all)) - {old(things)[index]}
      ensures Placed(all) == old(Placed(all)) - {old(things)[index]}
      ensures inventory ==> things == old(things)[index := null]
      ensures Own(things) == old(Own(things)) - {old(things)[index]}
    {
      var after := if inventory then things[index := null] else things[..index] + things[index + 1..];
      SinglyWithout(things, index, after);
      SetThings(after, all);
    }
  }

  lemma OwnAdded(things: seq<Item?>, index: int, item: Item, after: seq<Item?>)
    requires || after == [item] + things
             || (0 <= index < |things| && things[index] == null && after == things[index := item])
    ensures Own(after) == Own(things) + {item}
  {
    if after == [item] + things {
      assert after[0] == item;
    } else {
      assert after[index] == item;
      forall i: Item | i in things ensures i in after {
        var j :| 0 <= j < |things| && things[j] == i;
        assert after[j] == i;
      }
    }
    assert forall i: Item | i in after :: i in things || i == item;
  }

  lemma SinglyWithout(things: seq<Item?>, index: nat, after: seq<Item?>)
    requires Singly(things) && index < |things| && things[index] != null
    requires after == things[index := null] || after == things[..index] + things[index + 1..]
    ensures Singly(after) && Own(after) == Own(things) - {things[index]}
    ensures null !in things && after == things[..index] + things[index + 1..] ==> null !in after
  {
    assert forall i | i in after :: i == null || i in things;
    forall i: Item | i in Own(things) && i != things[index] ensures i in after {
      var j :| 0 <= j < |things| && things[j] == i;
      if after == things[index := null] {
        assert after[j] == i;
      } else {
        assert after[if j < index then j else j - 1] == i;
      }
    }
  }

  // ---------------------------------------------------------------- queries

  /** `queryAdd`: an inventory asks for an exchange when something else is in the slot. */
  function QueryAdd(to: Cylinder, index: int, item: Item, fit: Fit): Reply
    requires to.inventory ==> |to.things| == SLOT_LAST + 1
    reads to
  {
    if to.inventory then
      if fit == NotAllowed || !to.IsSlot(index) then Refusal
      else
        var there := to.things[index];
        if there != null && (!there.Stackable() || there.kind.itemType != item.kind.itemType) then NeedExchange
        else if fit == Fits then NoError
        else Refusal
    else if fit == Fits then NoError
    else Refusal
  }

  /** `queryRemove`. */
  predicate QueryRemove(from: Cylinder, item: Item, count: nat, movable: bool)
    reads from, item
  {
    item in from.things && count > 0 && (item.Stackable() ==> count <= item.count) && movable
  }

  /** `queryMaxCount`: for a slot, what the stack in it can still take, or a whole stack if it is empty. */
  function QueryMaxCount(to: Cylinder, index: int, item: Item, count: nat, answers: Answers): (r: (nat, bool))
    requires to.inventory ==> |to.things| == SLOT_LAST + 1
    reads to, to.things
  {
    if to.IsSlot(index) then
      var there := to.things[index];
      if there != null then
        var room := if there.Stackable() && there.kind == item.kind && there.count < there.StackSize() then
          there.StackSize() - there.count else 0;
        (room, room >= count)
      else if answers.slotFit == Fits then (item.StackSize(), true)
      else (0, 0 >= count)
    else (answers.room, answers.roomOk)
  }

  // ---------------------------------------------------------------- moving

  /** After `m` pieces of an item are gone. */
  ghost function Left(was: map<Item, nat>, item: Item, m: nat): map<Item, nat>
    requires item in was
  {
    if item.Stackable() && m < was[item] then was[item := was[item] - m] else was - {item}
  }

  /** After a stack got `n` more pieces. */
  ghost function Topped(was: map<Item, nat>, toItem: Item?, n: nat): map<Item, nat> {
    if n > 0 && toItem != null && toItem in was then was[toItem := was[toItem] + n] else was
  }

  /** What a move leaves: `moved` is null when nothing was added besides what went into a stack. */
  ghost function After(was: map<Item, nat>, item: Item, toItem: Item?, amount: nat, merged: nat,
                       moved: Item?): map<Item, nat>
    requires item in was && merged <= amount
  {
    var topped: map<Item, nat> := Topped(Left(was, item, amount), toItem, merged);
    if moved != null then topped[moved := if item.Stackable() then amount - merged else was[item]] else topped
  }

  /** The pieces that reach their destination other than in a stack that was there. */
  ghost function Loose(was: map<Item, nat>, item: Item, r: Result): int
    requires item in was && r.Moved?
  {
    if item.Stackable() then r.amount - r.merged else was[item]
  }

  // ---------------------------------------------------------------- when, and how much

  /** The count asked for; moving a stack up with count 255 asks for all of it. */
  function Requested(item: Item, count: nat, moveUp: bool): nat
    reads item
  {
    if item.Stackable() && count == 255 && moveUp then item.count else count
  }

  /** What lies in the slot is swapped into the source, a container that will have it. */
  ghost predicate Swaps(from: Cylinder, to: Cylinder, index: int, item: Item, answers: Answers)
    requires to.Fine()
    reads from, to
  {
    && item in from.things && answers.movable && QueryAdd(to, index, item, answers.fit) == NeedExchange
    && !from.inventory && answers.swapFit == Fits && (answers.swapRoomOk || answers.swapRoom > 0) && answers.swapMovable
  }

  /** What the move swaps into the source. */
  ghost function Swapped(from: Cylinder, to: Cylinder, index: int, item: Item, toItem: Item?,
                         answers: Answers): set<Item>
    requires to.Fine()
    reads from, to
  {
    if toItem != null && toItem != item && Swaps(from, to, index, item, answers) then {toItem} else {}
  }

  /**
   The most that may be moved: after a swap a stack, if the emptied slot will have it; otherwise what the query says.
   */
  ghost function Room(from: Cylinder, to: Cylinder, index: int, item: Item, answers: Answers): nat
    requires to.Fine()
    reads from, to, to.things
  {
    if Swaps(from, to, index, item, answers) then
      if answers.refit == Fits && answers.slotFit == Fits then item.StackSize() else 0
    else if QueryAdd(to, index, item, answers.fit) == NoError then QueryMaxCount(to, index, item, 0, answers).0
    else 0
  }

  /** The pieces to move: what is asked for, as far as there is room. */
  ghost function Amount(from: Cylinder, to: Cylinder, index: int, item: Item, count: nat, answers: Answers): nat
    requires to.Fine()
    reads from, to, to.things, item
  {
    var asked, room := Requested(item, count, answers.moveUp), Room(from, to, index, item, answers);
    if item.Stackable() && asked < room then asked else room
  }

  /** When anything is moved at all. */
  ghost predicate Moves(from: Cylinder, to: Cylinder, index: int, item: Item, toItem: Item?, count: nat,
                        answers: Answers)
    requires to.Fine()
    reads from, to, to.things, item
  {
    var amount := Amount(from, to, index, item, count, answers);
    item != toItem && QueryRemove(from, item, amount, answers.movable) && !answers.insideTrade
  }

  /** The pieces that go into the stack that is there, if it is of the same kind and not swapped away. */
  ghost function Merged(from: Cylinder, to: Cylinder, index: int, item: Item, toItem: Item?, count: nat,
                        answers: Answers): nat
    requires to.Fine()
    reads from, to, to.things, item, toItem
  {
    if !item.Stackable() || Swaps(from, to, index, item, answers) then 0
    else Fitting(item, toItem, Count(toItem), Amount(from, to, index, item, count, answers))
  }

  /** What comes of a move, told before it. */
  ghost function Outcome(from: Cylinder, to: Cylinder, index: int, item: Item, toItem: Item?, count: nat,
                         answers: Answers): Result
    requires to.Fine()
    reads from, to, to.things, item, toItem
  {
    if item == toItem then Ignored
    else if Moves(from, to, index, item, toItem, count, answers) then
      Moved(Amount(from, to, index, item, count, answers), Merged(from, to, index, item, toItem, count, answers))
    else Refused
  }

  /** Whatever was moved was taken, at the index or by the stack that is there. */
  ghost predicate AllTaken(item: Item, r: Result, taken: bool) {
    r.Moved? ==> taken || (item.Stackable() && r.merged == r.amount)
  }

  /** The pieces of every kind are the same. */
  ghost predicate Conserved(was: map<Item, nat>, now: map<Item, nat>) {
    forall k :: Held(now, k) == Held(was, k)
  }

  /** What is where afterwards, and when nothing is lost. */
  ghost predicate Done(was: map<Item, nat>, now: map<Item, nat>, item: Item, toItem: Item?, r: Result, movedItem: Item?,
                       taken: bool)
  {
    && (r.Moved? ==> item in was && movedItem != null && Arrived(was, now, item, toItem, r, movedItem, taken))
    && (!r.Moved? ==> now == was && movedItem == null)
    && (Conserved(was, now) <==> AllTaken(item, r, taken))
  }

  /** Whether the item itself leaves its place. */
  ghost predicate Leaves(was: map<Item, nat>, item: Item, r: Result)
    requires item in was
  {
    r.Moved? && !(item.Stackable() && r.amount < was[item])
  }

  /** Whether something is put down at the destination, besides what joins a stack. */
  ghost predicate Lands(was: map<Item, nat>, item: Item, r: Result, taken: bool)
    requires item in was
  {
    r.Moved? && taken && Loose(was, item, r) > 0
  }

  /** What lies in the two places after something left the one and something else came to the other. */
  ghost predicate Relocated(from: set<Item>, to: set<Item>, from': set<Item>, to': set<Item>, same: bool,
                            gone: set<Item>, come: set<Item>)
  {
    if same then from' == to' == from - gone + come else from' == from - gone && to' == to + come
  }

  /** Where things are after a move: what left its place, and what was put down, in a slot if there are slots. */
  ghost predicate Put(was: map<Item, nat>, from: set<Item>, to: set<Item>, from': set<Item>, to': set<Item>, same: bool,
                      item: Item, r: Result, movedItem: Item?, taken: bool, there: Item?)
  {
    if r.Moved? then
      && item in was && movedItem != null
      && Relocated(from, to, from', to', same, if Leaves(was, item, r) then {item} else {},
                   if Lands(was, item, r, taken) then {movedItem} else {})
      && (Lands(was, item, r, taken) ==> there == movedItem)
    else from' == from && to' == to
  }

  /**
   `internalMoveItem` from the point where the destination is known: a stack at the destination can be
   merged with, and for an inventory it is what lies in the slot.
   */
  method MoveItem(from: Cylinder, to: Cylinder, index: int, item: Item, toItem0: Item?, count0: nat, answers: Answers,
                  ghost all: set<Cylinder>)
    returns (r: Result, movedItem: Item?)
    requires from in all && to in all && Valid(all) && from.Fine() && to.Fine()
    requires toItem0 != null ==> toItem0 in to.things
    requires to.IsSlot(index) ==> toItem0 == to.things[index]
    modifies from`things, to`things, item, toItem0
    ensures Valid(all)
    ensures r == old(Outcome(from, to, index, item, toItem0, count0, answers))
    ensures Done(old(Placed(all)), Placed(all), item, toItem0, r, movedItem, to.Takes(index))
    ensures var swapped := old(Swapped(from, to, index, item, toItem0, answers));
            Put(old(Placed(all)), old(Own(from.things)) + swapped, old(Own(to.things)) - swapped, Own(from.things),
                Own(to.things), from == to, item, r, movedItem, to.Takes(index), to.There(index))
  {
    var toItem, count := toItem0, count0;
    movedItem := null;
    Unswapped(Own(from.things), Own(to.things));
    if item == toItem {
      return Ignored, null;
    }
    if item.Stackable() && count == 255 && answers.moveUp {
      count := item.count;
    }
    PiecesOf(item, all);
    if !QueryRemove(from, item, 1, answers.movable) {
      return Refused, null;
    }
    r, movedItem := MoveSome(from, to, index, item, toItem, count, answers, all);
  }

  lemma Unswapped(from: set<Item>, to: set<Item>)
    ensures from + {} == from && to - {} == to
  {
  }

  /** `internalMoveItem` from the question whether the destination will have the item. */
  method MoveSome(from: Cylinder, to: Cylinder, index: int, item: Item, toItem: Item?, count: nat, answers: Answers,
                  ghost all: set<Cylinder>)
    returns (r: Result, movedItem: Item?)
    requires from in all && to in all && Valid(all) && from.Fine() && to.Fine() && item != toItem
    requires QueryRemove(from, item, 1, answers.movable) && count == Requested(item, count, answers.moveUp)
    requires (toItem != null ==> toItem in to.things) && (to.IsSlot(index) ==> toItem == to.things[index])
    modifies from`things, to`things, item, toItem
    ensures Valid(all)
    ensures r == old(Outcome(from, to, index, item, toItem, count, answers))
    ensures Done(old(Placed(all)), Placed(all), item, toItem, r, movedItem, to.Takes(index))
    ensures var swapped := old(Swapped(from, to, index, item, toItem, answers));
            Put(old(Placed(all)), old(Own(from.things)) + swapped, old(Own(to.things)) - swapped, Own(from.things),
                Own(to.things), from == to, item, r, movedItem, to.Takes(index), to.There(index))
  {
    Unswapped(Own(from.things), Own(to.things));
    var reply := QueryAdd(to, index, item, answers.fit);
    if reply == NeedExchange {
      r, movedItem := MoveBySwap(from, to, index, item, toItem, count, answers, all);
    } else if reply == NoError {
      r, movedItem := MoveUpTo(from, to, index, item, toItem, count, answers, all);
    } else {
      return Refused, null;
    }
  }

  /** The branch of `internalMoveItem` in which something else lies in the slot. */
  method MoveBySwap(from: Cylinder, to: Cylinder, index: int, item: Item, toItem0: Item, count: nat, answers: Answers,
                    ghost all: set<Cylinder>)
    returns (r: Result, movedItem: Item?)
    requires from in all && to in all && Valid(all) && from.Fine() && to.Fine() && item != toItem0
    requires QueryRemove(from, item, 1, answers.movable) && count == Requested(item, count, answers.moveUp)
    requires QueryAdd(to, index, item, answers.fit) == NeedExchange && toItem0 == to.things[index]
    modifies from`things, to`things, item, toItem0
    ensures Valid(all)
    ensures r == old(Outcome(from, to, index, item, toItem0, count, answers))
    ensures r.Moved? ==> old(Swaps(from, to, index, item, answers)) && r.merged == 0
    ensures Done(old(Placed(all)), Placed(all), item, toItem0, r, movedItem, to.Takes(index))
    ensures to.Takes(index) && Conserved(old(Placed(all)), Placed(all))
    ensures var swapped := old(Swapped(from, to, index, item, toItem0, answers));
            Put(old(Placed(all)), old(Own(from.things)) + swapped, old(Own(to.things)) - swapped, Own(from.things),
                Own(to.things), from == to, item, r, movedItem, to.Takes(index), to.There(index))
  {
    var reply, toItem := Exchange(from, to, index, item, toItem0, answers, all);
    if reply != NoError {
      return Refused, null;
    }
    r, movedItem := MoveUpTo(from, to, index, item, toItem, count, answers, all);
  }

  /** The second half of `internalMoveItem`, once the destination will have the item. */
  method MoveUpTo(from: Cylinder, to: Cylinder, index: int, item: Item, toItem: Item?, count: nat, answers: Answers,
                  ghost all: set<Cylinder>)
    returns (r: Result, movedItem: Item?)
    requires from in all && to in all && Valid(all) && from.Fine() && to.Fine() && item != toItem
    requires toItem != null ==> toItem in to.things
    requires to.inventory ==> to.IsSlot(index) && toItem == to.things[index]
    modifies from`things, to`things, item, toItem
    ensures Valid(all)
    ensures var room := old(QueryMaxCount(to, index, item, count, answers).0);
            var m := if item.Stackable() && count < room then count else room;
            r == if old(QueryRemove(from, item, m, answers.movable)) && !answers.insideTrade then
                   Moved(m, if item.Stackable() then Fitting(item, toItem, old(Count(toItem)), m) else 0)
                 else Refused
    ensures Done(old(Placed(all)), Placed(all), item, toItem, r, movedItem, to.Takes(index))
    ensures Put(old(Placed(all)), old(Own(from.things)), old(Own(to.things)), Own(from.things), Own(to.things),
                from == to, item, r, movedItem, to.Takes(index), to.There(index))
  {
    movedItem := null;
    var (maxQueryCount, roomOk) := QueryMaxCount(to, index, item, count, answers);
    if !roomOk && maxQueryCount == 0 {
      return Refused, null;
    }
    var m := if item.Stackable() && count < maxQueryCount then count else maxQueryCount;
    if !QueryRemove(from, item, m, answers.movable) {
      return Refused, null;
    }
    if answers.insideTrade {
      return Refused, null;
    }
    r, movedItem := Transfer(from, to, index, item, toItem, m, all);
  }

  /** An item that lies somewhere has at least one piece. */
  lemma PiecesOf(item: Item, all: set<Cylinder>)
    requires Valid(all)
    ensures forall c <- all :: item in c.things ==> 1 <= item.count <= item.StackSize()
  {
    forall c | c in all && item in c.things ensures 1 <= item.count <= item.StackSize() {
      assert item in Placed(all) && Placed(all)[item] == item.count;
    }
  }

  ghost predicate Arrived(was: map<Item, nat>, now: map<Item, nat>, item: Item, toItem: Item?, r: Result,
                          movedItem: Item, taken: bool)
    requires item in was && r.Moved?
  {
    && (r.merged > 0 ==>
          toItem != null && toItem in was && toItem != item && toItem.kind == item.kind && item.Stackable()
          && was[toItem] + r.merged <= toItem.StackSize())
    && r.merged <= r.amount && (item.Stackable() ==> 0 < r.amount <= was[item])
    && (item.Stackable() && r.merged < r.amount ==> movedItem !in was && movedItem.kind == item.kind)
    && (!item.Stackable() ==> movedItem == item)
    && now == After(was, item, toItem, r.amount, r.merged, if taken && Loose(was, item, r) > 0 then movedItem else null)
  }

  lemma ArrivedSized(was: map<Item, nat>, now: map<Item, nat>, item: Item, toItem: Item?, r: Result, movedItem: Item,
                     taken: bool)
    requires Sized(was) && item in was && r.Moved? && Arrived(was, now, item, toItem, r, movedItem, taken)
    ensures Sized(now)
  {
  }

  /**
   Swaps what lies in the slot into the source, if the source will have it. When the thing in the slot cannot be
   removed the move goes on regardless, and finds no room.
   */
  method Exchange(from: Cylinder, to: Cylinder, index: int, item: Item, toItem: Item, answers: Answers,
                  ghost all: set<Cylinder>)
    returns (reply: Reply, left: Item?)
    requires from in all && to in all && Valid(all) && item in from.things && item != toItem
    requires from.Fine() && to.Fine()
    requires QueryAdd(to, index, item, answers.fit) == NeedExchange && toItem == to.things[index]
    requires answers.movable
    modifies from`things, to`things, toItem
    ensures Valid(all) && Placed(all) == old(Placed(all)) && item in from.things && from.Fine() && to.Fine()
    ensures item.count == old(item.count) && toItem.count == old(toItem.count)
    ensures if old(Swaps(from, to, index, item, answers)) then
              left == null && to.things[index] == null && toItem in from.things
                && Own(from.things) == old(Own(from.things)) + {toItem}
                   && Own(to.things) == old(Own(to.things)) - {toItem}
                && reply == if answers.refit == Fits then NoError else Refusal
            else
              left == toItem && to.things == old(to.things) && from.things == old(from.things)
              && (reply == NoError ==> !toItem.Stackable() || toItem.kind != item.kind)
    ensures reply != NeedExchange
  {
    left := toItem;
    PiecesOf(toItem, all);
    var source := IndexOf(from.things, item);
    reply := QueryAdd(from, source, toItem, answers.swapFit);
    if reply != NoError {
      return Refusal, left;
    }
    if !answers.swapRoomOk && answers.swapRoom == 0 {
      return Refusal, left;
    }
    if QueryRemove(to, toItem, toItem.count, answers.swapMovable) {
      assert !from.inventory && to.inventory;
      Swap(from, to, index, toItem, all);
      reply := QueryAdd(to, index, item, answers.refit);
      left := null;
    }
  }

  method Swap(from: Cylinder, to: Cylinder, index: nat, toItem: Item, ghost all: set<Cylinder>)
    requires from in all && to in all && Once(all) && from.Fine() && to.Fine()
    requires !from.inventory && to.IsSlot(index) && toItem == to.things[index]
    modifies from`things, to`things, toItem
    ensures Once(all) && Placed(all) == old(Placed(all)) && to.Fine()
    ensures to.things[index] == null && from.things == [toItem] + old(from.things)
    ensures from.Fine() && toItem.count == old(toItem.count)
    ensures Own(from.things) == old(Own(from.things)) + {toItem} && Own(to.things) == old(Own(to.things)) - {toItem}
  {
    to.RemoveThing(toItem, toItem.count, all);
    assert from.Fine() && to.Fine();
    from.AddFirst(toItem, all);
  }

  /** Takes the pieces from the source, tops up the stack that is there, and adds what is left. */
  method Transfer(from: Cylinder, to: Cylinder, index: int, item: Item, toItem: Item?, m: nat, ghost all: set<Cylinder>)
    returns (r: Result, movedItem: Item?)
    requires from in all && to in all && Valid(all)
    requires QueryRemove(from, item, m, true) && item != toItem && (toItem != null ==> toItem in to.things)
    requires to.Fine() && (to.inventory ==> to.IsSlot(index))
    requires to.inventory && to.things[index] != null ==>
             toItem == to.things[index] && toItem.kind == item.kind && m + toItem.count <= toItem.StackSize()
    modifies from`things, to`things, item, toItem
    ensures Valid(all) && movedItem != null && item in old(Placed(all))
    ensures r == Moved(m, if item.Stackable() then Fitting(item, toItem, old(Count(toItem)), m) else 0)
    ensures Arrived(old(Placed(all)), Placed(all), item, toItem, r, movedItem, to.Takes(index))
    ensures Conserved(old(Placed(all)), Placed(all)) <==> AllTaken(item, r, to.Takes(index))
    ensures Put(old(Placed(all)), old(Own(from.things)), old(Own(to.things)), Own(from.things), Own(to.things),
                from == to, item, r, movedItem, to.Takes(index), to.There(index))
  {
    ghost var was := Placed(all);
    assert was[item] == item.count && (toItem != null ==> was[toItem] == toItem.count);
    var n, moveItem := Relocate(from, to, index, item, toItem, m, all);
    r := Moved(m, n);
    movedItem := if moveItem != null then moveItem else item;
    ghost var left := Topped(Left(was, item, m), toItem, n);
    AddedUp(was, left, Placed(all), item, toItem, m, n, moveItem, to.Takes(index));
    ArrivedSized(was, Placed(all), item, toItem, r, movedItem, to.Takes(index));
    HeldKeptIff(was, Placed(all), item, toItem, r, movedItem, to.Takes(index));
  }

  /** Takes out, tops up, and puts down what is left: `moveItem` is null when everything joined the stack. */
  method Relocate(from: Cylinder, to: Cylinder, index: int, item: Item, toItem: Item?, m: nat, ghost all: set<Cylinder>)
    returns (n: nat, moveItem: Item?)
    requires from in all && to in all && Valid(all)
    requires QueryRemove(from, item, m, true) && item != toItem && (toItem != null ==> toItem in to.things)
    requires to.Fine() && (to.inventory ==> to.IsSlot(index))
    requires to.inventory && to.things[index] != null ==>
             toItem == to.things[index] && toItem.kind == item.kind && m + toItem.count <= toItem.StackSize()
    modifies from`things, to`things, item, toItem
    ensures Once(all) && n <= m && n == if item.Stackable() then Fitting(item, toItem, old(Count(toItem)), m) else 0
    ensures if !item.Stackable() then moveItem == item
            else if n == m then moveItem == null
            else moveItem != null && moveItem !in old(Lying(all)) && moveItem.kind == item.kind
    ensures item in old(Placed(all))
    ensures var left := Topped(Left(old(Placed(all)), item, m), toItem, n);
            Placed(all) == if moveItem != null && to.Takes(index)
                           then left[moveItem := if item.Stackable() then m - n else old(Placed(all))[item]] else left
    ensures Relocated(old(Own(from.things)), old(Own(to.things)), Own(from.things), Own(to.things), from == to,
                      if item.Stackable() && m < old(item.count) then {} else {item},
                      if moveItem != null && to.Takes(index) then {moveItem} else {})
    ensures moveItem != null && to.Takes(index) ==> to.There(index) == moveItem
  {
    assert Placed(all)[item] == item.count && (toItem != null ==> Placed(all)[toItem] == toItem.count);
    TakeOut(from, to, item, toItem, m, all);
    n, moveItem := Divide(item, toItem, m, all);
    assert moveItem != null ==> moveItem.count == if item.Stackable() then m - n else old(Placed(all))[item];
    PutDown(to, index, moveItem, all);
  }

  /** Puts something down, if there is anything. */
  method PutDown(to: Cylinder, index: int, moveItem: Item?, ghost all: set<Cylinder>)
    requires to in all && Once(all) && to.Fine() && (moveItem != null ==> moveItem !in Lying(all))
    requires moveItem != null && to.IsSlot(index) ==> to.things[index] == null
    modifies to`things
    ensures Once(all)
    ensures var lands := moveItem != null && to.Takes(index);
            && Placed(all) == (if lands then old(Placed(all))[moveItem := moveItem.count] else old(Placed(all)))
            && Own(to.things) == (if lands then old(Own(to.things)) + {moveItem} else old(Own(to.things)))
            && (lands ==> to.There(index) == moveItem)
  {
    if moveItem != null {
      to.AddThing(index, moveItem, all);
    }
  }

  lemma AddedUp(was: map<Item, nat>, left: map<Item, nat>, now: map<Item, nat>, item: Item, toItem: Item?, m: nat,
                n: nat, moveItem: Item?, taken: bool)
    requires Sized(was) && item in was && item != toItem && (toItem != null ==> toItem in was)
    requires 0 < m && (item.Stackable() ==> m <= was[item])
    requires n <= m && n == if item.Stackable() && toItem != null then Fitting(item, toItem, was[toItem], m) else 0
    requires if !item.Stackable() then moveItem == item else if n == m then moveItem == null
             else moveItem != null && moveItem !in was && moveItem.kind == item.kind
    requires left == Topped(Left(was, item, m), toItem, n)
    requires now == if moveItem != null && taken then left[moveItem := if item.Stackable() then m - n else was[item]]
             else left
    ensures Arrived(was, now, item, toItem, Moved(m, n), if moveItem != null then moveItem else item, taken)
  {
  }

  /** Tops up the stack that is there, and copies what is left; other items stay in one piece. */
  method Divide(item: Item, toItem: Item?, m: nat, ghost all: set<Cylinder>) returns (n: nat, moveItem: Item?)
    requires toItem != null ==> toItem in Lying(all) && toItem.count <= toItem.StackSize()
    modifies toItem
    ensures n <= m && n == if item.Stackable() then Fitting(item, toItem, old(Count(toItem)), m) else 0
    ensures Placed(all) == Topped(old(Placed(all)), toItem, n)
    ensures if !item.Stackable() then moveItem == item
            else if n == m then moveItem == null
            else moveItem != null && fresh(moveItem) && moveItem.kind == item.kind && moveItem.count == m - n
  {
    n, moveItem := 0, item;
    if item.Stackable() {
      n := TopUp(item, toItem, m, all);
      if m - n > 0 {
        moveItem := item.Copy(m - n);
      } else {
        moveItem := null;
      }
    }
  }

  function Count(item: Item?): nat
    reads item
  {
    if item == null then 0 else item.count
  }

  /** How many of `m` pieces fit into a stack of `count`. */
  function Fitting(item: Item, toItem: Item?, count: nat, m: nat): nat {
    if toItem != null && item.kind == toItem.kind && count <= toItem.StackSize() then
      if toItem.StackSize() - count < m then toItem.StackSize() - count else m
    else 0
  }

  method TakeOut(from: Cylinder, to: Cylinder, item: Item, toItem: Item?, m: nat, ghost all: set<Cylinder>)
    requires from in all && to in all && Valid(all) && QueryRemove(from, item, m, true)
    requires item != toItem && (toItem != null ==> toItem in to.things)
    requires to.Fine()
    modifies from`things, item
    ensures Once(all) && Placed(all) == Left(old(Placed(all)), item, m) && to.Fine()
    ensures toItem != null ==> toItem in Lying(all)
    ensures Own(from.things) == old(Own(from.things)) - if item.Stackable() && m < old(item.count) then {} else {item}
    ensures from != to ==> to.things == old(to.things)
    ensures !item.Stackable() ==> item.count == old(item.count)
    ensures to.inventory ==>
              && |to.things| == SLOT_LAST + 1
              && forall s | 0 <= s < |to.things| && old(to.things)[s] != item :: to.things[s] == old(to.things)[s]
  {
    from.RemoveThing(item, m, all);
    assert to.Fine();
  }

  /** Puts as many pieces as fit into the stack that is there, if it is of the same kind. */
  method TopUp(item: Item, toItem: Item?, m: nat, ghost all: set<Cylinder>) returns (n: nat)
    requires item.Stackable() && (toItem != null ==> toItem in Lying(all) && toItem.count <= toItem.StackSize())
    modifies toItem
    ensures n == Fitting(item, toItem, old(Count(toItem)), m)
    ensures toItem != null ==> toItem.count == old(toItem.count) + n
    ensures Placed(all) == Topped(old(Placed(all)), toItem, n)
  {
    n := 0;
    if toItem != null && item.kind == toItem.kind {
      n := if toItem.StackSize() - toItem.count < m then toItem.StackSize() - toItem.count else m;
      toItem.count := toItem.count + n;
    }
  }

  // ---------------------------------------------------------------- what comes of a move, case by case

  /** The most that fits: joining fills the stack up, or uses up what is moved, and never overfills it. */
  lemma FittingExactly(item: Item, toItem: Item, count: nat, m: nat)
    ensures var n, size := Fitting(item, toItem, count, m), if toItem.kind.itemType.stackable then
            toItem.kind.itemType.stackSize else 1;
            if item.kind != toItem.kind || count > size then n == 0
            else n <= m && count + n <= size && (n == m || count + n == size)
  {
  }

  /**
   A move to a container. The amount is what was asked for as far as the container has room, or for things that do
   not stack whatever the container says; it is refused when the item is not there, or not that many, when it may
   not be moved, or is on trade. As much as fits joins the stack at the destination.
   */
  lemma ContainerOutcome(from: Cylinder, to: Cylinder, index: int, item: Item, toItem: Item?, count: nat,
                         answers: Answers)
    requires to.Fine() && !to.inventory
    ensures var stackable := item.kind.itemType.stackable;
            var asked := if stackable && count == 255 && answers.moveUp then item.count else count;
            var room := if answers.fit == Fits then answers.room else 0;
            var m := if stackable && asked < room then asked else room;
            Outcome(from, to, index, item, toItem, count, answers)
            == if item == toItem then Ignored
               else if item in from.things && m > 0 && (stackable ==> m <= item.count) && answers.movable
                 && !answers.insideTrade then
                 Moved(m, if stackable && toItem != null then Fitting(item, toItem, toItem.count, m) else 0)
               else Refused
  {
  }

  /**
   A move to a slot of an inventory. Into an empty slot a whole stack goes, if the slot will have it; onto a stack of
   the same kind as much as fits; with anything else there, the two are swapped first, when the source is a
   container that will have what lies there, and then the slot is empty.
   */
  lemma SlotOutcome(from: Cylinder, to: Cylinder, index: int, item: Item, count: nat, answers: Answers)
    requires to.Fine() && to.inventory && 1 <= index <= 11 && item != to.things[index] && item in from.things
    ensures var there, t := to.things[index], item.kind.itemType;
            var size := if t.stackable then t.stackSize else 1;
            var asked := if t.stackable && count == 255 && answers.moveUp then item.count else count;
            var other := there != null && (!there.kind.itemType.stackable || there.kind.itemType != t);
            var swapped := other && answers.movable && answers.fit != NotAllowed && !from.inventory
              && answers.swapFit == Fits
                           && (answers.swapRoomOk || answers.swapRoom > 0) && answers.swapMovable;
            var room := if other then if swapped && answers.refit == Fits && answers.slotFit == Fits then size else 0
                        else if answers.fit != Fits then 0
                        else if there == null then if answers.slotFit == Fits then size else 0
                        else if there.kind == item.kind && there.count < there.kind.itemType.stackSize
                        then there.kind.itemType.stackSize - there.count
                        else 0;
            var m := if t.stackable && asked < room then asked else room;
            Outcome(from, to, index, item, there, count, answers)
            == if m > 0 && (t.stackable ==> m <= item.count) && answers.movable && !answers.insideTrade then
                 Moved(m, if t.stackable && there != null && !other then Fitting(item, there, there.count, m) else 0)
               else Refused
  {
  }

  /** Stack by stack, what a move changes: the item, the stack that is there, and what is put down; nothing else. */
  lemma ArrivedExactly(was: map<Item, nat>, now: map<Item, nat>, item: Item, toItem: Item?, r: Result, movedItem: Item,
                       taken: bool)
    requires item in was && was[item] > 0 && r.Moved? && Arrived(was, now, item, toItem, r, movedItem, taken)
    ensures var stackable := item.kind.itemType.stackable;
            && (stackable && r.amount < was[item] ==> item in now && now[item] == was[item] - r.amount)
            && (stackable && r.amount == was[item] ==> item !in now)
            && (!stackable ==> (item in now <==> taken) && (taken ==> now[item] == was[item]))
            && (r.merged > 0 ==> toItem != null && toItem in now && now[toItem] == was[toItem] + r.merged)
            && (stackable && taken && r.merged < r.amount ==> movedItem in now && now[movedItem] == r.amount - r.merged)
            && (forall x | x in was && x != item && (x != toItem || r.merged == 0) :: x in now && now[x] == was[x])
            && (forall x | x in now && x !in was :: x == movedItem)
  {
  }

  // ---------------------------------------------------------------- nothing is lost or made

  /** A move changes the number of pieces of a kind only by what the destination does not take. */
  lemma HeldKept(was: map<Item, nat>, now: map<Item, nat>, item: Item, toItem: Item?, r: Result, movedItem: Item,
                 taken: bool, k: Kind)
    requires item in was && r.Moved? && Arrived(was, now, item, toItem, r, movedItem, taken)
    ensures Held(now, k) == Held(was, k) - if taken || k != item.kind then 0 else Loose(was, item, r)
  {
    var left: map<Item, nat> := Left(was, item, r.amount);
    LeftHeld(was, item, r.amount, k);
    var topped: map<Item, nat> := Topped(left, toItem, r.merged);
    ToppedHeld(left, toItem, r.merged, k);
    var loose: nat := Loose(was, item, r);
    if taken && loose > 0 {
      TotalSet(topped, movedItem, loose, Pieces(k));
    }
  }

  lemma LeftHeld(was: map<Item, nat>, item: Item, m: nat, k: Kind)
    requires item in was
    ensures Held(Left(was, item, m), k)
            == Held(was, k) - if k != item.kind then 0 else if item.Stackable() && m < was[item] then m else was[item]
  {
    if item.Stackable() && m < was[item] {
      TotalSet<Item, nat>(was, item, was[item] - m, Pieces(k));
    } else {
      TotalDrop(was, item, Pieces(k));
    }
  }

  lemma ToppedHeld(was: map<Item, nat>, toItem: Item?, n: nat, k: Kind)
    requires n > 0 ==> toItem != null && toItem in was
    ensures Held(Topped(was, toItem, n), k) == Held(was, k) + if n > 0 && k == toItem.kind then n else 0
  {
    if n > 0 {
      var there: Item := toItem;
      TotalSet<Item, nat>(was, there, was[there] + n, Pieces(k));
    }
  }

  /** A move keeps the number of pieces of every kind if and only if the destination takes what is not merged. */
  lemma HeldKeptIff(was: map<Item, nat>, now: map<Item, nat>, item: Item, toItem: Item?, r: Result, movedItem: Item,
                    taken: bool)
    requires item in was && r.Moved? && Arrived(was, now, item, toItem, r, movedItem, taken)
    ensures Conserved(was, now) <==> taken || Loose(was, item, r) == 0
  {
    forall k {
      HeldKept(was, now, item, toItem, r, movedItem, taken, k);
    }
    HeldKept(was, now, item, toItem, r, movedItem, taken, item.kind);
  }

  /**
   `internalMoveItem` to an index of a container. All pieces are kept unless something is moved to a place beyond
   the capacity, and not all of it joins the stack there; without pages there is no such place.
   */
  method MoveInto(from: Cylinder, to: Cylinder, index: int, item: Item, count: nat, autoStack: bool, answers: Answers,
                  ghost all: set<Cylinder>)
    returns (r: Result, movedItem: Item?, place: int)
    requires from in all && to in all && Valid(all) && from.Fine() && to.Fine() && !to.inventory
    modifies from`things, to`things, item, to.things
    ensures Valid(all) && place == old(to.Destination(index, item, autoStack))
    ensures r == old(Outcome(from, to, place, item, to.At(place), count, answers))
    ensures Done(old(Placed(all)), Placed(all), item, old(to.At(place)), r, movedItem, to.Takes(place))
    ensures Put(old(Placed(all)), old(Own(from.things)), old(Own(to.things)), Own(from.things), Own(to.things),
                from == to, item, r, movedItem, to.Takes(place), to.There(place))
    ensures old(!to.paginated && |to.things| <= to.capacity) ==> Conserved(old(Placed(all)), Placed(all))
  {
    var toItem;
    place, toItem := to.QueryDestination(index, item, autoStack);
    BeyondCapacity(to, index, item, autoStack);
    r, movedItem := MoveAt(from, to, place, item, count, answers, all);
  }

  /** The move to a place of a container. */
  method MoveAt(from: Cylinder, to: Cylinder, place: int, item: Item, count: nat, answers: Answers,
                ghost all: set<Cylinder>)
    returns (r: Result, movedItem: Item?)
    requires from in all && to in all && Valid(all) && from.Fine() && to.Fine() && !to.inventory
    modifies from`things, to`things, item, to.things
    ensures Valid(all) && r == old(Outcome(from, to, place, item, to.At(place), count, answers))
    ensures Done(old(Placed(all)), Placed(all), item, old(to.At(place)), r, movedItem, to.Takes(place))
    ensures Put(old(Placed(all)), old(Own(from.things)), old(Own(to.things)), Own(from.things), Own(to.things),
                from == to, item, r, movedItem, to.Takes(place), to.There(place))
  {
    var toItem := to.At(place);
    Unswapped(Own(from.things), Own(to.things));
    r, movedItem := MoveItem(from, to, place, item, toItem, count, answers, all);
  }

  /** A destination is beyond the capacity only with pages, or of a stack that already lies there. */
  lemma BeyondCapacity(to: Cylinder, index: int, item: Item, autoStack: bool)
    requires to.Fine() && !to.inventory
    ensures to.Destination(index, item, autoStack) >= to.capacity
            <==> if to.Restacks(index, item, autoStack) then FirstStack(to.things, item) >= to.capacity
                 else to.paginated && index >= to.capacity && index != 254 && index != 255
    ensures !to.paginated && |to.things| <= to.capacity ==> to.Destination(index, item, autoStack) < to.capacity
  {
  }

  const DEPOT_CAPACITY: nat := 32

  /** Two chests of a depot, and an item in the first. */
  method OneItem() returns (from: Cylinder, to: Cylinder, item: Item)
    ensures fresh(from) && fresh(to) && fresh(item) && from != to && to.things == []
    ensures !to.inventory && to.paginated && to.capacity == DEPOT_CAPACITY
    ensures item.kind == Kind(ItemType(1, false, 1), 0) && item in from.things && from.Fine() && to.Fine()
    ensures Valid({from, to}) && Placed({from, to}) == map[item := 1]
  {
    item := new Item(Kind(ItemType(1, false, 1), 0), 1);
    from := new Cylinder(false, DEPOT_CAPACITY, true);
    to := new Cylinder(false, DEPOT_CAPACITY, true);
    ghost var all := {from, to};
    assert Once(all) && Lying(all) == {} by {
      assert from.Fine() && to.Fine() && Own(from.things) == {} == Own(to.things);
    }
    from.AddThing(0, item, all);
    assert from.Fine() && to.Fine();
  }

  /** One item moved from a chest to an index at the capacity of another: it is gone. */
  method MoveBeyondCapacity() returns (from: Cylinder, to: Cylinder, item: Item, r: Result)
    ensures fresh(from) && fresh(to) && fresh(item) && !to.inventory && to.paginated && to.capacity == DEPOT_CAPACITY
    ensures r == Moved(1, 0) && Placed({from, to}) == map[]
    ensures Held(map[item := 1], item.kind) == 1 && Held(Placed({from, to}), item.kind) == 0
  {
    from, to, item := OneItem();
    OnePiece(item);
    var answers := Answers(false, true, Fits, NotAllowed, 0, false, false, NotAllowed, 1, true, NotAllowed, false);
    var moved, place;
    r, moved, place := MoveInto(from, to, DEPOT_CAPACITY, item, 1, true, answers, {from, to});
  }

  lemma OnePiece(item: Item)
    ensures Held(map[item := 1], item.kind) == 1 && Held(map[], item.kind) == 0
  {
    TotalOne<Item, nat>(map[item := 1], item, Pieces(item.kind));
    TotalNone<Item, nat>(map[], Pieces(item.kind));
  }
}
