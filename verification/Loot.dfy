/**
 Putting a looted item away: the loot container is tried first, then every container found below it, then the
 main backpack in the same way. A move may succeed in part, and the containers may change with it.
 */
module Loot {
  import opened Common
  import opened Containers

  datatype Code = NoError | NoRoom | Refused

  datatype Place = Nowhere | In(container: ItemId)

  /** What becomes of an attempt: how many pieces stay behind, what the move reports, and the containers after it. */
  datatype Attempt = Attempt(code: Code, left: nat, reported: nat, forest: Forest)

  /** Between `before` and `now` a search has passed over no container but the one it found. */
  ghost predicate Skipped(f: Forest, before: set<ItemId>, now: set<ItemId>, next: Place) {
    now <= before && forall x <- before :: x in f.contents ==> next == In(x) || x in now
  }

  lemma SkippedOne(f: Forest, before: set<ItemId>, now: set<ItemId>, cur: ItemId)
    requires Skipped(f, before, now, Nowhere)
    ensures Skipped(f, before, now - {cur}, if cur in f.contents then In(cur) else Nowhere)
  {
  }

  /** The root and the containers reached from it are among the attempts, or next, or left. */
  ghost predicate Cover(f: Forest, reached: set<ItemId>, root: ItemId, moves: seq<ItemId>, next: Place,
                        left: set<ItemId>) {
    && (root in moves || next == In(root))
    && forall x <- reached :: x in f.contents ==> x in moves || next == In(x) || x in left
  }

  lemma CoverStep(f: Forest, reached: set<ItemId>, root: ItemId, moves: seq<ItemId>, loot: ItemId, before: set<ItemId>,
                  next: Place, now: set<ItemId>)
    requires Cover(f, reached, root, moves, In(loot), before) && Skipped(f, before, now, next)
    ensures Cover(f, reached, root, moves + [loot], next, now)
  {
  }

  lemma CoverMore(f: Forest, reached: set<ItemId>, root: ItemId, moves: seq<ItemId>, loot: ItemId)
    ensures Cover(f, reached, root, moves, Nowhere, {}) ==> Cover(f, reached, root, moves + [loot], Nowhere, {})
  {
  }

  /** The pieces not put away, and how many the code takes to remain. */
  datatype Progress = Progress(count: nat, remainder: nat)

  /** One attempt: a move that leaves fewer pieces behind lowers the remainder, in 32 bits, by what it reports. */
  ghost function Next(p: Progress, a: Attempt): Progress {
    if a.left < p.count then Progress(a.left, (p.remainder - a.reported) % U32) else p
  }

  ghost predicate IsTrace(outcome: nat -> Attempt, trace: seq<Progress>, attempts: nat, pieces: nat) {
    && |trace| == attempts + 1 && trace[0] == Progress(pieces, pieces)
    && forall i | 0 <= i < attempts :: trace[i + 1] == Next(trace[i], outcome(i))
  }

  lemma TraceStep(outcome: nat -> Attempt, trace: seq<Progress>, attempts: nat, pieces: nat)
    requires IsTrace(outcome, trace, attempts, pieces)
    ensures IsTrace(outcome, trace + [Next(trace[attempts], outcome(attempts))], attempts + 1, pieces)
  {
  }

  /** The pieces never become more, and while none is moved all of them remain. */
  lemma {:induction false} NothingMoved(outcome: nat -> Attempt, trace: seq<Progress>, attempts: nat, pieces: nat)
    requires IsTrace(outcome, trace, attempts, pieces)
    ensures trace[attempts].count <= pieces
    ensures trace[attempts].count == pieces ==> trace[attempts].remainder == pieces
    decreases attempts
  {
    if attempts > 0 {
      assert IsTrace(outcome, trace[..attempts], attempts - 1, pieces);
      NothingMoved(outcome, trace[..attempts], attempts - 1, pieces);
      assert trace[attempts - 1 + 1] == Next(trace[attempts - 1], outcome(attempts - 1));
    }
  }

  /** Each attempt but the last lacked room, and each but the first had something left to move. */
  ghost predicate Persistent(outcome: nat -> Attempt, trace: seq<Progress>, attempts: nat, pieces: nat) {
    && IsTrace(outcome, trace, attempts, pieces)
    && (forall i | 0 <= i < attempts - 1 :: outcome(i).code == NoRoom)
    && (forall i | 0 < i < attempts :: trace[i].remainder != 0)
  }

  lemma PersistentStep(outcome: nat -> Attempt, trace: seq<Progress>, attempts: nat, pieces: nat)
    requires IsTrace(outcome, trace, attempts, pieces) && forall i | 0 <= i < attempts :: outcome(i).code == NoRoom
    requires attempts > 0 ==> Persistent(outcome, trace, attempts, pieces) && trace[attempts].remainder != 0
    ensures Persistent(outcome, trace + [Next(trace[attempts], outcome(attempts))], attempts + 1, pieces)
  {
    TraceStep(outcome, trace, attempts, pieces);
  }

  /** What lies last in a container, when that is a container itself. */
  function LastIn(f: Forest, p: Place): Place {
    if Filled(f, p) && f.contents[p.container][|f.contents[p.container]| - 1] in f.contents
    then In(f.contents[p.container][|f.contents[p.container]| - 1])
    else Nowhere
  }

  predicate Filled(f: Forest, p: Place) {
    p.In? && p.container in f.contents && f.contents[p.container] != []
  }

  class Looter {
    var forest: Forest
    /** The pieces of the item that are not put away. */
    var count: nat
    const maxDepth: nat
    /** The main backpack, and whether it may be used when there is no better place. */
    const backpack: Place
    const fallback: bool
    /** The outcome of each attempt to move. */
    const outcome: nat -> Attempt
    /** The containers a move was attempted to. */
    var moves: seq<ItemId>
    /** Whether the containers are still as they were at first: nothing was moved, or it changed nothing. */
    ghost var same: bool
    /** How far it had come before each attempt, and now. */
    ghost var trace: seq<Progress>
    /** The container found last. */
    ghost var found: Place

    constructor (forest: Forest, count: nat, maxDepth: nat, backpack: Place, fallback: bool, outcome: nat -> Attempt)
      ensures this.forest == forest && this.count == count && this.maxDepth == maxDepth && this.backpack == backpack
      ensures this.fallback == fallback && this.outcome == outcome && moves == []
    {
      this.forest, this.count, this.maxDepth, this.backpack, this.fallback, this.outcome :=
        forest, count, maxDepth, backpack, fallback, outcome;
      moves, same, trace, found := [], true, [Progress(count, count)], Nowhere;
    }

    /** `findManagedContainer`. */
    method FindManagedContainer(managed: Place, fallbackConsumed: bool) returns (place: Place, consumed: bool)
      ensures managed.In? ==> place == managed && consumed == fallbackConsumed
      ensures managed.Nowhere? ==> place == Fallback(fallbackConsumed) && consumed == (fallbackConsumed || place.In?)
    {
      place, consumed := managed, fallbackConsumed;
      if place.Nowhere? && fallback && !fallbackConsumed {
        if backpack.In? && backpack.container in forest.contents {
          place, consumed := backpack, true;
        }
      }
    }

    /** The backpack, if it may be used now. */
    function Fallback(fallbackConsumed: bool): Place
      reads this
    {
      if !fallbackConsumed && fallback && backpack.In? && backpack.container in forest.contents then backpack
        else Nowhere
    }

    /** The record of the attempts is right, and ends with what is known now. */
    ghost predicate Traced(pieces: nat, remainder: nat)
      reads this`moves, this`trace, this`count
    {
      IsTrace(outcome, trace, |moves|, pieces) && trace[|moves|] == Progress(count, remainder)
    }

    /** `processMoveOrAddItemToLootContainer`: a move that lacks room leaves everything alone, or fewer pieces. */
    method TryMove(container: ItemId, remainder: nat, ghost pieces: nat) returns (code: Code, left: nat)
      requires container in forest.contents && Traced(pieces, remainder)
      modifies this`forest, this`count, this`moves, this`same, this`trace
      ensures moves == old(moves) + [container] && code == outcome(|old(moves)|).code
      ensures Traced(pieces, left) && count <= old(count)
      ensures old(Failed() && (moves != [] ==> Attempted(pieces) && remainder != 0)) ==> Attempted(pieces)
      ensures old(Failed()) && code == NoRoom ==> Failed()
      ensures same <==> old(same) && forest == old(forest)
      ensures count == old(count) || outcome(|old(moves)|).forest == old(forest) ==> forest == old(forest)
    {
      var a := outcome(|moves|);
      Record(container, pieces, remainder, a);
      code, left := a.code, remainder;
      if a.left < count {
        same := same && a.forest == forest;
        count, forest, left := a.left, a.forest, (remainder - a.reported) % U32;
      }
    }

    /** Enters an attempt into the record. */
    method Record(container: ItemId, ghost pieces: nat, ghost remainder: nat, ghost a: Attempt)
      requires Traced(pieces, remainder) && a == outcome(|moves|)
      modifies this`moves, this`trace
      ensures moves == old(moves) + [container] && IsTrace(outcome, trace, |moves|, pieces)
      ensures trace[|moves|] == Next(Progress(count, remainder), a)
      ensures old(Failed() && (moves != [] ==> Attempted(pieces) && remainder != 0)) ==> Attempted(pieces)
    {
      if Failed() && (moves != [] ==> Attempted(pieces) && remainder != 0) {
        PersistentStep(outcome, trace, |moves|, pieces);
      }
      TraceStep(outcome, trace, |moves|, pieces);
      trace := trace + [Next(trace[|moves|], a)];
      moves := moves + [container];
    }

    /** What is left of the search, and whether the last container found may still be looked into. */
    ghost function Measure(it: ContainerIterator, last: Place): (r: (int, int))
      reads it
    {
      (Size(it.forest, it.View()), if last.In? then 1 else 0)
    }

    /**
     `findNextAvailableContainer`: the next container of the search; after the last of them, what lies last in it,
     because a search does not enter empty containers.
     */
    method FindNext(it: ContainerIterator, last: Place) returns (next: Place, last': Place)
      requires it.forest == forest
      modifies it`states, it`visited, this`found
      ensures next.In? ==> next.container in forest.contents
      ensures || (next.In? && last' == next == found)
              || (found == old(found) && next == LastIn(forest, last)
                 && last' == if Filled(forest, last) then Nowhere else last)
      ensures var m, m' := old(Measure(it, last)), Measure(it, last');
              m'.0 < m.0 || (m'.0 == m.0 && (m'.1 < m.1 || (next.Nowhere? && m'.1 == m.1)))
      ensures old(Sound(forest, it.View())) ==>
                Sound(forest, it.View()) && Skipped(forest, old(Left(forest, it.View())), Left(forest, it.View()), next)
      ensures next.Nowhere? ==> Left(forest, it.View()) == {}
    {
      next := SearchOn(it);
      if next.In? {
        found := next;
        return next, next;
      }
      if last.In? && last.container in forest.contents && forest.contents[last.container] != [] {
        var items := forest.contents[last.container];
        var cur := items[|items| - 1];
        return if cur in forest.contents then In(cur) else Nowhere, Nowhere;
      }
      return Nowhere, last;
    }

    /** The loop of `findNextAvailableContainer`. */
    method SearchOn(it: ContainerIterator) returns (next: Place)
      requires it.forest == forest
      modifies it`states, it`visited
      ensures if next.In? then
                next.container in forest.contents && Size(forest, it.View()) < old(Size(forest, it.View()))
              else Left(forest, it.View()) == {} && Size(forest, it.View()) <= old(Size(forest, it.View()))
      ensures old(Sound(forest, it.View())) ==>
                Sound(forest, it.View()) && Skipped(forest, old(Left(forest, it.View())), Left(forest, it.View()), next)
    {
      ghost var sound, before := Sound(forest, it.View()), Left(forest, it.View());
      var more := it.HasNext();
      while more
        invariant it.forest == forest && (if more then AtItem(forest, it.View()) else it.states == [])
        invariant Size(forest, it.View()) <= old(Size(forest, it.View()))
        invariant sound ==> Sound(forest, it.View()) && Skipped(forest, before, Left(forest, it.View()), Nowhere)
        decreases Size(forest, it.View())
      {
        SizeNat(forest, it.View());
        ghost var now := Left(forest, it.View());
        var cur := it.Get();
        it.Advance();
        if sound {
          SkippedOne(forest, before, now, cur);
        }
        if cur in forest.contents {
          return In(cur);
        }
        more := it.HasNext();
      }
      return Nowhere;
    }

    /** Everything the search of a container comes to was tried, or is tried next, or is still to come. */
    ghost predicate Covered(root: ItemId, it: ContainerIterator, next: ItemId)
      reads this, it
    {
      Cover(forest, Reachable(forest, root, maxDepth), root, moves, In(next), Left(forest, it.View()))
    }

    /** What lies last in the container found last was tried, or is tried now, or is still to be looked for. */
    ghost predicate Looking(last: Place, loot: ItemId)
      reads this`same, this`found, this`forest, this`moves
    {
      same ==>
        || last == found
        || (last.Nowhere? && (LastIn(forest, found).In? ==>
                                LastIn(forest, found).container == loot || LastIn(forest, found).container in moves))
    }

    ghost predicate Known(last: Place)
      reads this`same, this`found
    {
      same ==> last == found || last.Nowhere?
    }

    /** What lies last in the container found last was tried, if it is a container. */
    ghost predicate LookedIntoLast()
      reads this`same, this`found, this`forest, this`moves
    {
      same && LastIn(forest, found).In? ==> LastIn(forest, found).container in moves
    }

    /** A move to the container and to every container in it was attempted. */
    ghost predicate Tried(root: ItemId)
      reads this
    {
      Cover(forest, Reachable(forest, root, maxDepth), root, moves, Nowhere, {})
    }

    /** Every attempt so far lacked room. */
    ghost predicate Failed()
      reads this
    {
      forall i | 0 <= i < |moves| :: outcome(i).code == NoRoom
    }

    /** A search of a container from its beginning. */
    method Search(root: ItemId) returns (it: ContainerIterator)
      requires root in forest.contents && maxDepth >= 1
      ensures fresh(it) && it.forest == forest
      ensures WellFormed(forest) ==> Sound(forest, it.View()) && Covered(root, it, root)
    {
      it := new ContainerIterator(forest, root, maxDepth);
      assert WellFormed(forest) ==> forall x <- Reachable(forest, root, maxDepth) :: x in Left(forest, it.View());
    }

    /** One attempt, and where to try next; `done` when there is no such place. */
    method Step(it: ContainerIterator, loot: ItemId, last: Place, remainder: nat, ghost pieces: nat, ghost root: ItemId)
      returns (code: Code, left: nat, next: Place, last': Place)
      requires it.forest == forest && loot in forest.contents && Traced(pieces, remainder)
      modifies this`forest, this`count, this`moves, this`same, this`trace, this`found, it
      ensures it.forest == forest && moves == old(moves) + [loot] && code == outcome(|old(moves)|).code
      ensures Traced(pieces, left) && count <= old(count)
      ensures old(Failed() && (moves != [] ==> Attempted(pieces) && remainder != 0)) ==> Attempted(pieces)
      ensures same ==> old(same) && forest == old(forest)
      ensures old(same) && (count == old(count) || forall k: nat :: outcome(k).forest == old(forest)) ==> same
      ensures next.In? ==> next.container in forest.contents
      ensures same ==> forall r {:trigger Tried(r)} :: old(Tried(r)) ==> Tried(r)
      ensures old(Failed()) && code == NoRoom ==> Failed()
      ensures count == old(count) && code == NoRoom ==>
                var m, m' := old(Measure(it, last)), Measure(it, last');
                m'.0 < m.0 || (m'.0 == m.0 && (m'.1 < m.1 || (next.Nowhere? && m'.1 == m.1)))
      ensures code == NoRoom && same && old(Sound(forest, it.View()) && Covered(root, it, loot)) ==>
                Sound(forest, it.View()) && (if next.In? then Covered(root, it, next.container) else Tried(root))
      ensures old(Looking(last, loot)) && code == NoRoom ==>
                if next.In? then Looking(last', next.container) else LookedIntoLast() && Known(last')
    {
      ghost var before, reached := Left(forest, it.View()), Reachable(forest, root, maxDepth);
      code, left := TryMove(loot, remainder, pieces);
      it.forest := forest;
      next, last' := Nowhere, last;
      if code == NoRoom {
        next, last' := FindNext(it, last);
      }
      forall r {
        CoverMore(forest, Reachable(forest, r, maxDepth), r, old(moves), loot);
      }
      if code == NoRoom && same && old(Sound(forest, it.View()) && Covered(root, it, loot)) {
        CoverStep(forest, reached, root, old(moves), loot, before, next, Left(forest, it.View()));
      }
    }

    /** The attempts up to now: each but the last lacked room, and each but the first had something left to move. */
    ghost predicate Attempted(pieces: nat)
      reads this`moves, this`trace
    {
      moves != [] && Persistent(outcome, trace, |moves|, pieces)
    }

    /**
     `processLootItems`. It stops at the first attempt that does not fail for lack of room, or when nothing remains.
     When it gives up for lack of room, although something remains and the containers never changed, every container
     there is was tried.
     */
    method ProcessLootItems(lootContainer: ItemId, fallbackConsumed: bool) returns (code: Code, consumed: bool)
      requires lootContainer in forest.contents && count > 0 && maxDepth >= 1
      modifies this`forest, this`count, this`moves, this`same, this`trace, this`found
      ensures fallbackConsumed ==> consumed
      ensures consumed ==> fallbackConsumed || (fallback && backpack.In?)
      ensures Attempted(old(count)) && moves[0] == lootContainer && code == outcome(|moves| - 1).code
      ensures count == trace[|moves|].count <= old(count)
      ensures count == old(count) || (forall k: nat :: outcome(k).forest == old(forest)) ==> same
      ensures count == old(count) ==> trace[|moves|].remainder == count
      ensures code == NoRoom && trace[|moves|].remainder != 0 ==> LookedIntoLast()
      ensures code == NoRoom && trace[|moves|].remainder != 0 && same && old(WellFormed(forest)) ==>
                && forest == old(forest) && Tried(lootContainer)
                && (!fallbackConsumed && fallback && backpack.In? && backpack.container in forest.contents ==>
                      consumed && Tried(backpack.container))
    {
      consumed := fallbackConsumed;
      ghost var pieces := count;
      var remainder, last, ended;
      code, remainder, last, ended := SearchLoot(lootContainer);
      if code == NoRoom && ended {
        code, consumed := TryFallback(remainder, last, consumed, pieces);
      }
      NothingMoved(outcome, trace, |moves|, pieces);
    }

    /** The loot container, and every container in it. */
    method SearchLoot(lootContainer: ItemId) returns (code: Code, remainder: nat, last: Place, ended: bool)
      requires lootContainer in forest.contents && maxDepth >= 1
      modifies this`forest, this`count, this`moves, this`same, this`trace, this`found
      ensures Attempted(old(count)) && Traced(old(count), remainder) && count <= old(count)
      ensures moves[0] == lootContainer && code == outcome(|moves| - 1).code
      ensures same ==> forest == old(forest)
      ensures count == old(count) || (forall k: nat :: outcome(k).forest == old(forest)) ==> same
      ensures code == NoRoom && !ended ==> remainder == 0
      ensures ended ==> LookedIntoLast() && Known(last)
      ensures old(WellFormed(forest)) && ended && code == NoRoom && same ==> Tried(lootContainer)
    {
      moves, same, trace, found := [], true, [Progress(count, count)], Nowhere;
      var it := Search(lootContainer);
      code, remainder, last, ended := SearchThrough(it, lootContainer, Nowhere, count, count, lootContainer);
    }

    /** The backpack, if it may be used now, after every place so far lacked room. */
    method TryFallback(remainder: nat, last: Place, fallbackConsumed: bool, ghost pieces: nat)
      returns (code: Code, consumed: bool)
      requires Failed() && Attempted(pieces) && maxDepth >= 1 && Traced(pieces, remainder)
      requires LookedIntoLast() && Known(last)
      modifies this`forest, this`count, this`moves, this`same, this`trace, this`found
      ensures old(moves) <= moves && (fallbackConsumed ==> consumed)
      ensures consumed ==> fallbackConsumed || (fallback && backpack.In?)
      ensures Attempted(pieces) && code == outcome(|moves| - 1).code
      ensures count == trace[|moves|].count <= old(count)
      ensures same ==> old(same) && forest == old(forest)
      ensures old(same) && (count == old(count) || forall k: nat :: outcome(k).forest == old(forest)) ==> same
      ensures same ==> forall r {:trigger Tried(r)} :: old(Tried(r)) ==> Tried(r)
      ensures code == NoRoom && trace[|moves|].remainder != 0 && same && old(WellFormed(forest))
              && old(Fallback(fallbackConsumed)).In? ==>
                consumed && Tried(old(Fallback(fallbackConsumed)).container)
      ensures code == NoRoom && trace[|moves|].remainder != 0 ==> LookedIntoLast()
    {
      code, consumed := NoRoom, fallbackConsumed;
      var place := Fallback(consumed);
      if place.Nowhere? {
        return;
      }
      consumed := true;
      if remainder != 0 {
        var it := Search(place.container);
        var left, last', ended;
        code, left, last', ended := SearchThrough(it, place.container, last, remainder, pieces, place.container);
      }
    }

    /**
     The loop of `processLootItems`, up to the end of one search: it stops when an attempt does not fail for lack of
     room, when nothing remains to be moved, or when the search has `ended` and only the fallback is left.
     */
    method SearchThrough(it: ContainerIterator, loot0: ItemId, last0: Place, remainder0: nat, ghost pieces: nat,
                         ghost root: ItemId)
      returns (code: Code, remainder: nat, last: Place, ended: bool)
      requires it.forest == forest && loot0 in forest.contents && Failed()
      requires Traced(pieces, remainder0) && (moves != [] ==> Attempted(pieces) && remainder0 != 0)
      modifies this`forest, this`count, this`moves, this`same, this`trace, this`found, it
      ensures old(moves) + [loot0] <= moves && Traced(pieces, remainder) && count <= old(count)
      ensures Attempted(pieces) && code == outcome(|moves| - 1).code
      ensures same ==> old(same) && forest == old(forest)
      ensures old(same) && (count == old(count) || forall k: nat :: outcome(k).forest == old(forest)) ==> same
      ensures same ==> forall r {:trigger Tried(r)} :: old(Tried(r)) ==> Tried(r)
      ensures code == NoRoom && !ended ==> remainder == 0
      ensures old(Looking(last0, loot0)) && ended ==> code == NoRoom && LookedIntoLast() && Known(last)
      ensures old(Sound(forest, it.View()) && Covered(root, it, loot0)) && ended ==>
                code == NoRoom && same ==> Tried(root)
    {
      var loot := loot0;
      last, remainder, ended := last0, remainder0, false;
      while true
        invariant it.forest == forest && loot in forest.contents && Failed()
        invariant old(Looking(last0, loot0)) ==> Looking(last, loot)
        invariant Traced(pieces, remainder) && (moves != [] ==> Attempted(pieces) && remainder != 0)
        invariant (moves == old(moves) && loot == loot0) || old(moves) + [loot0] <= moves
        invariant old(same) && (count == old(count) || forall k: nat :: outcome(k).forest == old(forest)) ==> same
        invariant count <= old(count) && (same ==> old(same) && forest == old(forest))
        invariant same ==> forall r {:trigger Tried(r)} :: old(Tried(r)) ==> Tried(r)
        invariant same && old(Sound(forest, it.View()) && Covered(root, it, loot0)) ==>
                    Sound(forest, it.View()) && Covered(root, it, loot)
        decreases count, Measure(it, last).0, Measure(it, last).1
      {
        SizeNat(it.forest, it.View());
        var next: Place;
        code, remainder, next, last := Step(it, loot, last, remainder, pieces, root);
        if code != NoRoom {
          return;
        }
        if next.Nowhere? {
          ended := true;
          return;
        }
        loot := next.container;
        if remainder == 0 {
          return;
        }
      }
    }

    /** The end of `internalCollectManagedItems`: `managed` is the container set for the item's category, if any. */
    method Collect(managed: Place) returns (code: Code)
      requires (managed.In? ==> managed.container in forest.contents) && count > 0 && maxDepth >= 1
      modifies this`forest, this`count, this`moves, this`same, this`trace, this`found
      ensures var spare := fallback && backpack.In? && backpack.container in old(forest).contents;
              var stuck := code == NoRoom && trace != [] && trace[|trace| - 1].remainder != 0 && same;
              && (managed.Nowhere? && !spare ==> code == Refused && moves == [] && count == old(count))
              && (managed.In? || spare ==>
                    && Attempted(old(count)) && code == outcome(|moves| - 1).code
                    && moves[0] == (if managed.In? then managed.container else backpack.container))
              && (managed.In? && spare && stuck && old(WellFormed(forest)) ==>
                    Tried(managed.container) && Tried(backpack.container))
    {
      var place, consumed := FindManagedContainer(managed, false);
      if place.Nowhere? {
        moves := [];
        return Refused;
      }
      code, consumed := ProcessLootItems(place.container, consumed);
    }
  }
}
