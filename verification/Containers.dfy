/**
 Nested containers and `ContainerIterator`, the depth-limited search every "does this container hold that
 item" question goes through.
 */
module Containers {
  import opened Sums

  type ItemId = nat

  /** The containers of the world: what each holds, and how deeply every item is nested. */
  datatype Forest = Forest(contents: map<ItemId, seq<ItemId>>, level: map<ItemId, nat>)

  /** Every item lies in at most one place, and one level below its container. */
  ghost predicate WellFormed(f: Forest) {
    && f.contents.Keys <= f.level.Keys
    && (forall c, i | c in f.contents && 0 <= i < |f.contents[c]| ::
          f.contents[c][i] in f.level && f.level[f.contents[c][i]] == f.level[c] + 1)
    && (forall c, i, d, j |
          c in f.contents && 0 <= i < |f.contents[c]| && d in f.contents && 0 <= j < |f.contents[d]| ::
          f.contents[c][i] == f.contents[d][j] ==> c == d && i == j)
  }

  /** `x` lies in container `c`, at most `depth` levels down. */
  ghost predicate Within(f: Forest, c: ItemId, x: ItemId, depth: nat)
    decreases depth
  {
    depth > 0 && c in f.contents
    && exists i :: 0 <= i < |f.contents[c]| && (f.contents[c][i] == x || Within(f, f.contents[c][i], x, depth - 1))
  }

  /** `x` lies in container `c`, at any depth. */
  ghost predicate Inside(f: Forest, c: ItemId, x: ItemId) {
    exists depth: nat :: Within(f, c, x, depth)
  }

  lemma {:induction false} WithinLevel(f: Forest, c: ItemId, x: ItemId, depth: nat)
    requires WellFormed(f) && Within(f, c, x, depth)
    ensures c in f.level && x in f.level && f.level[c] < f.level[x] <= f.level[c] + depth
    decreases depth
  {
    var i :| 0 <= i < |f.contents[c]| && (f.contents[c][i] == x || Within(f, f.contents[c][i], x, depth - 1));
    if f.contents[c][i] != x {
      WithinLevel(f, f.contents[c][i], x, depth - 1);
    }
  }

  /** A search finds exactly what lies no deeper than its limit. */
  lemma {:induction false} WithinIff(f: Forest, c: ItemId, x: ItemId, depth: nat, limit: nat)
    requires WellFormed(f) && Within(f, c, x, depth)
    ensures c in f.level && x in f.level
    ensures Within(f, c, x, limit) <==> f.level[x] <= f.level[c] + limit
    decreases depth
  {
    WithinLevel(f, c, x, depth);
    if f.level[x] <= f.level[c] + limit {
      var i :| 0 <= i < |f.contents[c]| && (f.contents[c][i] == x || Within(f, f.contents[c][i], x, depth - 1));
      if f.contents[c][i] != x {
        WithinIff(f, f.contents[c][i], x, depth - 1, limit - 1);
        WithinLevel(f, f.contents[c][i], x, depth - 1);
      }
    } else if Within(f, c, x, limit) {
      WithinLevel(f, c, x, limit);
    }
  }

  /** An item has one ancestor at each level. */
  lemma {:induction false} OneAncestor(f: Forest, y: ItemId, z: ItemId, x: ItemId, dy: nat, dz: nat)
    requires WellFormed(f) && Within(f, y, x, dy) && Within(f, z, x, dz)
    requires y in f.level && z in f.level && f.level[y] == f.level[z]
    ensures y == z
    decreases dy
  {
    var i :| 0 <= i < |f.contents[y]| && (f.contents[y][i] == x || Within(f, f.contents[y][i], x, dy - 1));
    var j :| 0 <= j < |f.contents[z]| && (f.contents[z][j] == x || Within(f, f.contents[z][j], x, dz - 1));
    var u, v := f.contents[y][i], f.contents[z][j];
    if u != x {
      WithinLevel(f, u, x, dy - 1);
    }
    if v != x {
      WithinLevel(f, v, x, dz - 1);
    }
    if u != x && v != x {
      OneAncestor(f, u, v, x, dy - 1, dz - 1);
    }
    assert u == v;
  }

  /** One level of the search: a container, the position reached in it, and its depth. */
  datatype Frame = Frame(container: ItemId, index: nat, depth: nat)

  /** The state of a depth-limited search: its stack and the containers it has entered. */
  datatype Search = Search(root: ItemId, maxDepth: nat, states: seq<Frame>, visited: set<ItemId>)

  /** `x` is still to come from one frame on: at or after its position, or below an item there. */
  ghost predicate From(f: Forest, maxDepth: nat, s: Frame, x: ItemId) {
    s.container in f.contents
    && exists i :: s.index <= i < |f.contents[s.container]|
                && (f.contents[s.container][i] == x
                    || (s.depth <= maxDepth && Within(f, f.contents[s.container][i], x, maxDepth - s.depth)))
  }

  /** `x` is still to come. */
  ghost predicate Pending(f: Forest, t: Search, x: ItemId) {
    exists k :: 0 <= k < |t.states| && From(f, t.maxDepth, t.states[k], x)
  }

  ghost predicate Sound(f: Forest, t: Search) {
    && WellFormed(f) && |t.states| <= t.maxDepth
    && (forall k {:trigger FrameOk(f, t, k)} :: 0 <= k < |t.states| ==> FrameOk(f, t, k))
    && t.root in t.visited
    && (forall v {:trigger Passed(f, t, v)} :: v in t.visited && v != t.root ==> Passed(f, t, v))
  }

  /** Frame `k` searches the item its predecessor has just passed, at depth `k + 1`. */
  ghost predicate FrameOk(f: Forest, t: Search, k: nat)
    requires k < |t.states|
  {
    var s := t.states[k];
    && s.container in f.contents && s.depth == k + 1 && s.index <= |f.contents[s.container]|
    && s.container in f.level && t.root in f.level && f.level[s.container] == f.level[t.root] + k
    && s.container in t.visited
    && if k == 0 then s.container == t.root else JustPassed(f, t.states[k - 1], s.container)
  }

  ghost predicate JustPassed(f: Forest, s: Frame, c: ItemId) {
    s.container in f.contents && 0 < s.index <= |f.contents[s.container]| && f.contents[s.container][s.index - 1] == c
  }

  /** An item whose place the search has gone past. */
  ghost predicate Passed(f: Forest, t: Search, v: ItemId) {
    exists c, i :: c in t.visited && c in f.contents && 0 <= i < |f.contents[c]| && f.contents[c][i] == v
                   && forall k | 0 <= k < |t.states| :: t.states[k].container == c ==> i < t.states[k].index
  }

  ghost predicate AtItem(f: Forest, t: Search) {
    && t.states != []
    && var top := t.states[|t.states| - 1];
       top.container in f.contents && top.index < |f.contents[top.container]|
  }

  ghost function Current(f: Forest, t: Search): ItemId
    requires AtItem(f, t)
  {
    var top := t.states[|t.states| - 1];
    f.contents[top.container][top.index]
  }

  /** The stack with the top frame moved on, and perhaps a frame for the item it was at. */
  function Moved(t: Search, cur: ItemId, enter: bool): Search
    requires t.states != []
  {
    var n := |t.states| - 1;
    var top := t.states[n];
    var states := t.states[n := top.(index := top.index + 1)];
    if enter then t.(states := states + [Frame(cur, 0, top.depth + 1)], visited := t.visited + {cur})
    else t.(states := states)
  }

  /** In a forest the search never meets a container twice. */
  lemma NotVisited(f: Forest, t: Search)
    requires Sound(f, t) && AtItem(f, t)
    ensures Current(f, t) !in t.visited
  {
    var n := |t.states| - 1;
    assert FrameOk(f, t, n) && FrameOk(f, t, 0);
    var cur := Current(f, t);
    assert cur in t.visited && cur != t.root ==> Passed(f, t, cur);
  }

  /** Dropping an exhausted frame loses nothing. */
  lemma DropKeeps(f: Forest, t: Search)
    requires Sound(f, t) && t.states != [] && !AtItem(f, t)
    ensures var t' := t.(states := t.states[..|t.states| - 1]);
            Sound(f, t') && forall x :: Pending(f, t', x) <==> Pending(f, t, x)
  {
    var n := |t.states| - 1;
    var t' := t.(states := t.states[..n]);
    assert FrameOk(f, t, n);
    forall x ensures Pending(f, t', x) <==> Pending(f, t, x) {
      if Pending(f, t, x) {
        var k :| 0 <= k < |t.states| && From(f, t.maxDepth, t.states[k], x);
        assert t'.states[k] == t.states[k];
      }
      if Pending(f, t', x) {
        var k :| 0 <= k < |t'.states| && From(f, t.maxDepth, t'.states[k], x);
        assert t'.states[k] == t.states[k];
      }
    }
    forall k | 0 <= k < |t'.states| ensures FrameOk(f, t', k) {
      assert FrameOk(f, t, k);
    }
    forall v | v in t'.visited && v != t'.root ensures Passed(f, t', v) {
      assert Passed(f, t, v);
      var c, i :| c in t.visited && c in f.contents && 0 <= i < |f.contents[c]| && f.contents[c][i] == v
                  && forall k | 0 <= k < |t.states| :: t.states[k].container == c ==> i < t.states[k].index;
      assert forall k | 0 <= k < |t'.states| :: t'.states[k] == t.states[k];
    }
  }

  /** The rule of `advance`: enter the current item if it is a container with something in it and not too deep. */
  ghost predicate Enters(f: Forest, t: Search)
    requires AtItem(f, t)
  {
    var cur := Current(f, t);
    cur in f.contents && f.contents[cur] != [] && t.states[|t.states| - 1].depth + 1 <= t.maxDepth
  }

  lemma MovedSound(f: Forest, t: Search)
    requires Sound(f, t) && AtItem(f, t)
    ensures Sound(f, Moved(t, Current(f, t), Enters(f, t)))
  {
    var n, cur := |t.states| - 1, Current(f, t);
    var t' := Moved(t, cur, Enters(f, t));
    assert FrameOk(f, t, n);
    NotVisited(f, t);
    forall k | 0 <= k < |t'.states| ensures FrameOk(f, t', k) {
      if k <= n {
        assert FrameOk(f, t, k);
      }
    }
    forall v | v in t'.visited && v != t'.root ensures Passed(f, t', v) {
      MovedPassed(f, t, v);
    }
  }

  lemma MovedPassed(f: Forest, t: Search, v: ItemId)
    requires Sound(f, t) && AtItem(f, t)
    requires var t' := Moved(t, Current(f, t), Enters(f, t)); v in t'.visited && v != t'.root
    ensures Passed(f, Moved(t, Current(f, t), Enters(f, t)), v)
  {
    var n, cur := |t.states| - 1, Current(f, t);
    var top := t.states[n];
    var t' := Moved(t, cur, Enters(f, t));
    assert FrameOk(f, t, n);
    NotVisited(f, t);
    if v in t.visited {
      assert Passed(f, t, v);
      var c, i :| c in t.visited && c in f.contents && 0 <= i < |f.contents[c]| && f.contents[c][i] == v
                  && forall k | 0 <= k < |t.states| :: t.states[k].container == c ==> i < t.states[k].index;
      assert forall k | 0 <= k < n :: t'.states[k] == t.states[k];
    } else {
      assert v == cur && f.contents[top.container][top.index] == v;
      forall k | 0 <= k < n ensures t.states[k].container != top.container {
        assert FrameOk(f, t, k);
      }
    }
  }

  /** Below the current item, as far as the limit allows: what entering it will search. */
  ghost predicate BelowCurrent(f: Forest, t: Search, x: ItemId)
    requires AtItem(f, t)
  {
    var top := t.states[|t.states| - 1];
    top.depth <= t.maxDepth && Within(f, Current(f, t), x, t.maxDepth - top.depth)
  }

  lemma TopSplit(f: Forest, t: Search, x: ItemId)
    requires Sound(f, t) && AtItem(f, t)
    ensures var top := t.states[|t.states| - 1];
            From(f, t.maxDepth, top, x)
            <==> x == Current(f, t) || BelowCurrent(f, t, x) || From(f, t.maxDepth, top.(index := top.index + 1), x)
  {
  }

  lemma EnteredBelow(f: Forest, t: Search, x: ItemId)
    requires Sound(f, t) && AtItem(f, t)
    ensures if Enters(f, t) then
              var into := Frame(Current(f, t), 0, t.states[|t.states| - 1].depth + 1);
              From(f, t.maxDepth, into, x) <==> BelowCurrent(f, t, x)
            else !BelowCurrent(f, t, x)
  {
    assert FrameOk(f, t, |t.states| - 1);
  }

  /** Nothing that is left of the search leads back to the current item. */
  lemma CurrentGone(f: Forest, t: Search, k: nat)
    requires Sound(f, t) && AtItem(f, t) && k < |t.states| - 1
    ensures !From(f, t.maxDepth, t.states[k], Current(f, t))
  {
    var n, cur, s := |t.states| - 1, Current(f, t), t.states[k];
    assert FrameOk(f, t, n) && FrameOk(f, t, k) && FrameOk(f, t, k + 1);
    forall i | s.index <= i < |f.contents[s.container]|
      ensures f.contents[s.container][i] != cur
           && (s.depth <= t.maxDepth ==> !Within(f, f.contents[s.container][i], cur, t.maxDepth - s.depth))
    {
      StackHolds(f, t, k + 1);
      var y := f.contents[s.container][i];
      if s.depth <= t.maxDepth && Within(f, y, cur, t.maxDepth - s.depth) {
        OneAncestor(f, y, t.states[k + 1].container, cur, t.maxDepth - s.depth, n - k);
      }
    }
  }

  /** Every container on the stack holds the current item. */
  lemma {:induction false} StackHolds(f: Forest, t: Search, k: nat)
    requires Sound(f, t) && AtItem(f, t) && k < |t.states|
    ensures Within(f, t.states[k].container, Current(f, t), |t.states| - k)
    decreases |t.states| - k
  {
    assert FrameOk(f, t, k);
    var top := t.states[k];
    if k < |t.states| - 1 {
      assert FrameOk(f, t, k + 1);
      StackHolds(f, t, k + 1);
      assert f.contents[top.container][top.index - 1] == t.states[k + 1].container;
    }
  }

  lemma TopGone(f: Forest, t: Search)
    requires Sound(f, t) && AtItem(f, t)
    ensures var top, cur := t.states[|t.states| - 1], Current(f, t);
            && !From(f, t.maxDepth, top.(index := top.index + 1), cur)
            && !BelowCurrent(f, t, cur)
  {
    var top, cur := t.states[|t.states| - 1], Current(f, t);
    assert FrameOk(f, t, |t.states| - 1);
    forall i, d: nat | top.index <= i < |f.contents[top.container]|
      ensures !Within(f, f.contents[top.container][i], cur, d)
    {
      if Within(f, f.contents[top.container][i], cur, d) {
        WithinLevel(f, f.contents[top.container][i], cur, d);
      }
    }
  }

  /** One step of the search takes exactly the current item off what is still to come. */
  lemma MovedPending(f: Forest, t: Search, x: ItemId)
    requires Sound(f, t) && AtItem(f, t)
    ensures Pending(f, Moved(t, Current(f, t), Enters(f, t)), x) <==> Pending(f, t, x) && x != Current(f, t)
  {
    var n, cur := |t.states| - 1, Current(f, t);
    var t' := Moved(t, cur, Enters(f, t));
    TopSplit(f, t, x);
    EnteredBelow(f, t, x);
    TopGone(f, t);
    assert forall k | 0 <= k < n :: t'.states[k] == t.states[k];
    if x == cur {
      forall k | 0 <= k < n ensures !From(f, t.maxDepth, t.states[k], x) {
        CurrentGone(f, t, k);
      }
    } else if Pending(f, t, x) {
      var k :| 0 <= k < |t.states| && From(f, t.maxDepth, t.states[k], x);
      assert k < n ==> From(f, t.maxDepth, t'.states[k], x);
      assert k == n ==> From(f, t.maxDepth, t'.states[n], x)
                        || (Enters(f, t) && From(f, t.maxDepth, t'.states[n + 1], x));
    }
  }

  // ---------------------------------------------------------------- how long a search can go on

  /** The positions still to come in the frames of a stack. */
  ghost function FrameSizes(f: Forest, states: seq<Frame>): nat {
    if states == [] then 0
    else FrameSizes(f, states[..|states| - 1]) + FrameSize(f, states[|states| - 1])
  }

  ghost function FrameSize(f: Forest, s: Frame): nat {
    if s.container in f.contents && s.index < |f.contents[s.container]| then |f.contents[s.container]| - s.index else 0
  }

  ghost function Entry(c: ItemId, items: seq<ItemId>): int {
    |items|
  }

  /** The containers the search has not entered. */
  ghost function Unvisited(f: Forest, visited: set<ItemId>): map<ItemId, seq<ItemId>> {
    map c | c in f.contents && c !in visited :: f.contents[c]
  }

  /** The positions the search may still come to, in whatever state it is and whatever became of the containers. */
  ghost function Size(f: Forest, t: Search): int {
    FrameSizes(f, t.states) + Total(Unvisited(f, t.visited), Entry)
  }

  lemma SizeNat(f: Forest, t: Search)
    ensures Size(f, t) >= 0
  {
    TotalBounds(Unvisited(f, t.visited), Entry);
  }

  /** What `advance` enters: the current item, a container not empty, not too deep and not entered before. */
  ghost predicate EntersNew(f: Forest, t: Search)
    requires AtItem(f, t)
  {
    Enters(f, t) && Current(f, t) !in t.visited
  }

  /** Every step uses up one position. */
  lemma MovedSize(f: Forest, t: Search)
    requires AtItem(f, t)
    ensures Size(f, Moved(t, Current(f, t), EntersNew(f, t))) == Size(f, t) - 1
  {
    var n, cur := |t.states| - 1, Current(f, t);
    var top := t.states[n].(index := t.states[n].index + 1);
    var states := t.states[n := top];
    assert states[..n] == t.states[..n];
    assert FrameSizes(f, states) == FrameSizes(f, t.states) - 1;
    if EntersNew(f, t) {
      var into := Frame(cur, 0, t.states[n].depth + 1);
      assert (states + [into])[..n + 1] == states;
      assert Unvisited(f, t.visited + {cur}) == Unvisited(f, t.visited) - {cur};
      TotalDrop(Unvisited(f, t.visited), cur, Entry);
    }
  }

  /** `ContainerIterator`: the search over the containers as they are at each step. */
  class ContainerIterator {
    var forest: Forest
    const root: ItemId
    const maxDepth: nat
    var states: seq<Frame>
    var visited: set<ItemId>

    constructor (forest: Forest, root: ItemId, maxDepth: nat)
      requires root in forest.contents && maxDepth >= 1
      ensures this.forest == forest && this.root == root && this.maxDepth == maxDepth
      ensures WellFormed(forest) ==>
                Sound(forest, View()) && forall x :: Pending(forest, View(), x) <==> Within(forest, root, x, maxDepth)
    {
      this.forest, this.root, this.maxDepth := forest, root, maxDepth;
      states, visited := [Frame(root, 0, 1)], {root};
      new;
      forall x ensures Pending(forest, View(), x) <==> Within(forest, root, x, maxDepth) {
        assert Pending(forest, View(), x) <==> From(forest, maxDepth, states[0], x);
      }
    }

    ghost function View(): Search
      reads this
    {
      Search(root, maxDepth, states, visited)
    }

    /** `hasNext`: drop frames that are exhausted, or whose container is gone; is anything left? */
    method HasNext() returns (more: bool)
      modifies this`states
      ensures old(Sound(forest, View())) ==>
                Sound(forest, View()) && forall x :: Pending(forest, View(), x) <==> Pending(forest, old(View()), x)
      ensures old(Sound(forest, View())) ==> Left(forest, View()) == old(Left(forest, View()))
      ensures if more then AtItem(forest, View()) else states == []
      ensures Size(forest, View()) == old(Size(forest, View()))
    {
      while states != []
        invariant old(Sound(forest, View())) ==>
                    Sound(forest, View()) && forall x :: Pending(forest, View(), x) <==> Pending(forest, old(View()), x)
        invariant Size(forest, View()) == old(Size(forest, View()))
        decreases |states|
      {
        var top := states[|states| - 1];
        if top.container in forest.contents && top.index < |forest.contents[top.container]| {
          return true;
        }
        if old(Sound(forest, View())) {
          DropKeeps(forest, View());
        }
        states := states[..|states| - 1];
      }
      return false;
    }

    /** The item the search is at. */
    method Get() returns (item: ItemId)
      requires AtItem(forest, View())
      ensures item == Current(forest, View())
    {
      var top := states[|states| - 1];
      item := forest.contents[top.container][top.index];
    }

    /** `advance`: go past the current item, into it first if it is a container with something in it. */
    method Advance()
      requires AtItem(forest, View())
      modifies this`states, this`visited
      ensures old(Sound(forest, View())) ==> Sound(forest, View())
      ensures old(Sound(forest, View())) ==>
                forall x :: Pending(forest, View(), x)
                  <==> Pending(forest, old(View()), x) && x != old(Current(forest, View()))
      ensures old(Sound(forest, View())) ==>
              Left(forest, View()) == old(Left(forest, View())) - {old(Current(forest, View()))}
      ensures Size(forest, View()) == old(Size(forest, View())) - 1
    {
      ghost var t := View();
      MovedSize(forest, t);
      if Sound(forest, t) {
        MovedSound(forest, t);
        NotVisited(forest, t);
        forall x ensures Pending(forest, Moved(t, Current(forest, t), Enters(forest, t)), x)
                    <==> Pending(forest, t, x) && x != Current(forest, t) {
          MovedPending(forest, t, x);
        }
      }
      var n := |states| - 1;
      var top := states[n];
      var cur := forest.contents[top.container][top.index];
      states := states[n := top.(index := top.index + 1)];
      if cur in forest.contents && forest.contents[cur] != [] {
        var newDepth := top.depth + 1;
        if newDepth <= maxDepth && cur !in visited {
          states := states + [Frame(cur, 0, newDepth)];
          visited := visited + {cur};
        }
      }
      assert View() == Moved(t, Current(forest, t), EntersNew(forest, t));
    }

    /** The step of a `for` loop over the search: `advance`, then `hasNext`. */
    method Next() returns (more: bool)
      requires Sound(forest, View()) && AtItem(forest, View())
      modifies this`states, this`visited
      ensures Sound(forest, View())
      ensures if more then AtItem(forest, View()) else states == []
      ensures old(Current(forest, View())) in old(Left(forest, View()))
      ensures Left(forest, View()) == old(Left(forest, View())) - {old(Current(forest, View()))}
    {
      CurrentPending(forest, View());
      Advance();
      more := HasNext();
    }
  }

  /** Everything still to come of a search, as a finite set: its size bounds the steps left. */
  ghost function Left(f: Forest, t: Search): set<ItemId> {
    set x | x in f.level && Pending(f, t, x)
  }

  lemma PendingKnown(f: Forest, t: Search, x: ItemId)
    requires Sound(f, t) && Pending(f, t, x)
    ensures x in f.level
  {
    var k :| 0 <= k < |t.states| && From(f, t.maxDepth, t.states[k], x);
    assert FrameOk(f, t, k);
    var s := t.states[k];
    var i :| s.index <= i < |f.contents[s.container]|
             && (f.contents[s.container][i] == x
                 || (s.depth <= t.maxDepth && Within(f, f.contents[s.container][i], x, t.maxDepth - s.depth)));
    if f.contents[s.container][i] != x {
      WithinLevel(f, f.contents[s.container][i], x, t.maxDepth - s.depth);
    }
  }

  lemma CurrentPending(f: Forest, t: Search)
    requires Sound(f, t) && AtItem(f, t)
    ensures Pending(f, t, Current(f, t)) && Current(f, t) in Left(f, t)
  {
    var n := |t.states| - 1;
    assert From(f, t.maxDepth, t.states[n], Current(f, t));
    PendingKnown(f, t, Current(f, t));
  }

  lemma NoneLeft(f: Forest, t: Search)
    requires t.states == []
    ensures Left(f, t) == {}
  {
  }

  /** What a search of a container starts with. */
  ghost function Reachable(f: Forest, container: ItemId, maxDepth: nat): set<ItemId> {
    set x | x in f.level && Within(f, container, x, maxDepth)
  }

  /** The start of a `for` loop over a container. */
  method Iterator(forest: Forest, container: ItemId, maxDepth: nat) returns (it: ContainerIterator, more: bool)
    requires WellFormed(forest) && container in forest.contents && maxDepth >= 1
    ensures fresh(it) && it.forest == forest && Sound(forest, it.View())
    ensures if more then AtItem(forest, it.View()) else it.states == []
    ensures Left(forest, it.View()) == Reachable(forest, container, maxDepth)
  {
    it := new ContainerIterator(forest, container, maxDepth);
    more := it.HasNext();
  }

  /** `Container::isHoldingItem`: true exactly for what lies no deeper than the search limit. */
  method IsHoldingItem(forest: Forest, container: ItemId, item: ItemId, maxDepth: nat) returns (held: bool)
    requires WellFormed(forest) && container in forest.contents && maxDepth >= 1
    ensures held <==> Within(forest, container, item, maxDepth)
  {
    var it, more := Iterator(forest, container, maxDepth);
    KnownIfWithin(forest, container, item, maxDepth);
    while more
      invariant fresh(it) && it.forest == forest && Sound(forest, it.View())
      invariant if more then AtItem(forest, it.View()) else it.states == []
      invariant item in Left(forest, it.View()) <==> Within(forest, container, item, maxDepth)
      decreases Left(forest, it.View())
    {
      var compareItem := it.Get();
      if compareItem == item {
        CurrentPending(forest, it.View());
        return true;
      }
      more := it.Next();
    }
    NoneLeft(forest, it.View());
    return false;
  }

  lemma KnownIfWithin(f: Forest, c: ItemId, x: ItemId, depth: nat)
    requires WellFormed(f)
    ensures Within(f, c, x, depth) ==> x in f.level
  {
    if Within(f, c, x, depth) {
      WithinLevel(f, c, x, depth);
    }
  }

  /** `Container::getItemHoldingCount`: the items no deeper than the search limit, each counted once. */
  method ItemHoldingCount(forest: Forest, container: ItemId, maxDepth: nat) returns (counter: nat)
    requires WellFormed(forest) && container in forest.contents && maxDepth >= 1
    ensures counter == |Reachable(forest, container, maxDepth)|
  {
    counter := 0;
    var it, more := Iterator(forest, container, maxDepth);
    while more
      invariant fresh(it) && it.forest == forest && Sound(forest, it.View())
      invariant if more then AtItem(forest, it.View()) else it.states == []
      invariant counter + |Left(forest, it.View())| == |Reachable(forest, container, maxDepth)|
      decreases Left(forest, it.View())
    {
      counter := counter + 1;
      more := it.Next();
    }
    NoneLeft(forest, it.View());
  }
}
