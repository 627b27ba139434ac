/**
 Creatures, their masters and their summons. Removing a creature removes its summons, and theirs, over lists
 that setting a master may change while the walk is under way.
 */
module Creatures {
  import opened Common

  // ---------------------------------------------------------------- lists

  function RemoveFirst(s: seq<Creature>, x: Creature): seq<Creature> {
    if s == [] then []
    else if s[0] == x then s[1..]
    else [s[0]] + RemoveFirst(s[1..], x)
  }

  function Elements(s: seq<Creature>): set<Creature> {
    set x | x in s
  }

  lemma {:induction false} RemoveFirstKeeps(s: seq<Creature>, x: Creature)
    ensures forall y :: y in RemoveFirst(s, x) ==> y in s
    ensures forall i | 0 <= i < |RemoveFirst(s, x)| :: RemoveFirst(s, x)[i] in s
    ensures forall i | 0 <= i < |s| && s[i] != x :: s[i] in RemoveFirst(s, x)
    ensures Distinct(s) ==> Distinct(RemoveFirst(s, x)) && x !in RemoveFirst(s, x)
  {
    if s != [] {
      assert s == [s[0]] + s[1..];
      RemoveFirstKeeps(s[1..], x);
      var r := RemoveFirst(s, x);
      if s[0] != x && Distinct(s) {
        forall i, j | 0 <= i < j < |r| ensures r[i] != r[j] {
          if i == 0 {
            assert r[j] in RemoveFirst(s[1..], x);
          }
        }
      }
    }
  }

  /** `t` is `s` with one `x` taken out. */
  ghost predicate TakenOut(s: seq<Creature>, t: seq<Creature>, x: Creature) {
    exists i: nat :: i < |s| && s[i] == x && t == s[..i] + s[i + 1..]
  }

  lemma {:induction false} RemoveFirstTakesOut(s: seq<Creature>, x: Creature)
    requires x in s
    ensures TakenOut(s, RemoveFirst(s, x), x)
  {
    if s[0] == x {
      assert RemoveFirst(s, x) == s[..0] + s[1..];
    } else {
      var rest := s[1..];
      RemoveFirstTakesOut(rest, x);
      var i: nat :| i < |rest| && rest[i] == x && RemoveFirst(rest, x) == rest[..i] + rest[i + 1..];
      assert [s[0]] + rest[..i] == s[..i + 1] && rest[i + 1..] == s[i + 2..] && s[i + 1] == x;
    }
  }

  lemma {:induction false} RemoveFirstAppend(s: seq<Creature>, t: seq<Creature>, x: Creature)
    requires x in s
    ensures RemoveFirst(s + t, x) == RemoveFirst(s, x) + t
  {
    assert (s + t)[1..] == s[1..] + t;
    if s[0] != x {
      RemoveFirstAppend(s[1..], t, x);
    }
  }

  // ---------------------------------------------------------------- the state of a set of creatures

  datatype State = State(
    removed: set<Creature>,
    tiled: set<Creature>,
    summons: map<Creature, seq<Creature>>,
    master: map<Creature, Creature?>,
    skilled: set<Creature>,
    checked: set<Creature>,
    listed: set<Creature>,
    living: set<Creature>)

  /** What is recorded about the creatures in `all`. */
  ghost function Record(all: set<Creature>): State
    reads all
  {
    State(set c | c in all && c.removed, set c | c in all && c.hasTile,
          map c | c in all :: c.summons, map c | c in all :: c.master,
          set c | c in all && c.skillLoss, set c | c in all && c.checked,
          set c | c in all && c.listed, set c | c in all && c.alive)
  }

  /** The lists and masters name creatures of the set. */
  ghost predicate Closed(s: State) {
    && s.summons.Keys == s.master.Keys && s.removed <= s.summons.Keys && s.tiled <= s.summons.Keys
    && (forall m {:trigger s.summons[m]} :: m in s.summons ==> forall x <- s.summons[m] :: x in s.summons)
    && (forall x {:trigger s.master[x]} :: x in s.master && s.master[x] != null ==> s.master[x] in s.summons)
  }

  /** The masters and the lists agree, and nobody is listed twice. */
  ghost predicate Linked(s: State) {
    s.summons.Keys == s.master.Keys && forall m {:trigger Bound(s, m)} :: m in s.summons ==> Bound(s, m)
  }

  ghost predicate Bound(s: State, m: Creature)
    requires m in s.summons
  {
    && Distinct(s.summons[m])
    && (forall x :: x in s.summons[m] ==> x in s.master)
    && (forall x | x in s.master :: x in s.summons[m] <==> s.master[x] == m)
  }

  /** A creature the walk takes: not removed yet, and standing on a tile. */
  ghost predicate Live(s: State, c: Creature) {
    c in s.summons && c !in s.removed && c in s.tiled
  }

  /** From `a`, `b` is reached through `n` summons lists of live creatures. */
  ghost predicate Reach(s: State, a: Creature, b: Creature, n: nat) {
    Live(s, a) && if n == 0 then a == b else exists c :: c in s.summons[a] && Reach(s, c, b, n - 1)
  }

  ghost predicate Reached(s: State, a: Creature, b: Creature) {
    exists n: nat :: Reach(s, a, b, n)
  }

  /** `x` was dealt with: it is removed, or cannot be. */
  ghost predicate Done(s: State, x: Creature) {
    x in s.removed || x !in s.tiled
  }

  /**
   What any number of removals does: the lists of creatures already removed never change, other lists lose only
   creatures that are done, and everyone summoned by a creature removed meanwhile is done.
   */
  ghost predicate Walk(a: State, b: State) {
    && a.summons.Keys == b.summons.Keys && a.master.Keys == b.master.Keys
    && a.tiled == b.tiled && a.listed == b.listed && a.living == b.living && a.removed <= b.removed
       && b.removed - a.removed <= a.tiled
    && b.checked == a.checked - ((b.removed - a.removed) * a.listed)
    && (forall m {:trigger Listing(a, b, m)} :: m in a.summons ==> Listing(a, b, m))
    && (forall x {:trigger b.master[x]} :: x in a.master ==> b.master[x] == a.master[x] || b.master[x] == null)
  }

  ghost predicate Listing(a: State, b: State, m: Creature)
    requires m in a.summons && m in b.summons
  {
    && (m in a.removed ==> b.summons[m] == a.summons[m])
    && (forall x :: x in b.summons[m] ==> x in a.summons[m])
    && (forall x :: x in a.summons[m] && (x !in b.summons[m] || (m in b.removed && m !in a.removed)) ==> Done(b, x))
  }

  /** Only what is summoned by a creature removed meanwhile, or in `seen`, loses its skill-loss flag. */
  ghost predicate Skills(a: State, b: State, seen: set<Creature>) {
    b.skilled <= a.skilled && forall x | x in a.skilled :: x in b.skilled <==> x !in seen && !Orphaned(a, b, x)
  }

  /** Somebody removed meanwhile has `x` among its summons. */
  ghost predicate Orphaned(a: State, b: State, x: Creature) {
    exists m :: m in b.removed && m !in a.removed && m in b.summons && x in b.summons[m]
  }

  lemma WalkTrans(a: State, b: State, c: State)
    requires Walk(a, b) && Walk(b, c)
    ensures Walk(a, c)
  {
    forall m | m in a.summons ensures Listing(a, c, m) {
      assert Listing(a, b, m) && Listing(b, c, m);
    }
  }

  lemma SkillsTrans(a: State, b: State, c: State, seen: set<Creature>)
    requires Walk(a, b) && Walk(b, c)
    requires a.removed <= a.summons.Keys && b.removed <= b.summons.Keys
    requires Skills(a, b, seen) && Skills(b, c, {})
    ensures Skills(a, c, seen)
  {
    forall x ensures Orphaned(a, c, x) <==> Orphaned(a, b, x) || Orphaned(b, c, x) {
      if Orphaned(a, b, x) {
        var m :| m in b.removed && m !in a.removed && m in b.summons && x in b.summons[m];
        assert Listing(b, c, m);
      }
      if Orphaned(a, c, x) {
        var m :| m in c.removed && m !in a.removed && m in c.summons && x in c.summons[m];
        assert Listing(b, c, m);
      }
    }
  }

  /** Less is live and less is listed in `b` than in `a`. */
  ghost predicate Fewer(a: State, b: State) {
    && a.summons.Keys == b.summons.Keys && a.tiled == b.tiled && a.removed <= b.removed
    && forall m {:trigger b.summons[m]} :: m in a.summons ==> forall x :: x in b.summons[m] ==> x in a.summons[m]
  }

  /** Whatever is reached later was reachable before. */
  lemma {:induction false} ReachBefore(a: State, b: State, x: Creature, y: Creature, n: nat)
    requires Fewer(a, b) && Reach(b, x, y, n)
    ensures Reach(a, x, y, n)
  {
    if n > 0 {
      var c :| c in b.summons[x] && Reach(b, c, y, n - 1);
      ReachBefore(a, b, c, y, n - 1);
    }
  }

  lemma WalkFewer(a: State, b: State)
    requires Walk(a, b)
    ensures Fewer(a, b)
  {
    forall m | m in a.summons ensures Listing(a, b, m) {
    }
  }

  /** Everything reached from a creature removed meanwhile is removed. */
  lemma {:induction false} ReachRemoved(a: State, b: State, x: Creature, y: Creature, n: nat)
    requires Walk(a, b) && x in b.removed && Reach(a, x, y, n)
    ensures y in b.removed
  {
    assert Listing(a, b, x);
    if n > 0 {
      var c :| c in a.summons[x] && Reach(a, c, y, n - 1);
      assert Done(b, c);
      ReachRemoved(a, b, c, y, n - 1);
    }
  }

  /** What `removeCreature` does: everything live that is reached from `c` is removed, and nothing else. */
  ghost predicate Removal(a: State, b: State, c: Creature?) {
    && Walk(a, b) && Skills(a, b, {}) && (c != null ==> Done(b, c))
    && b.removed <= a.summons.Keys
    && forall x {:trigger x in b.removed} ::
       x in a.summons ==> (x in b.removed <==> x in a.removed || (c != null && Reached(a, c, x)))
  }

  /** `c` is marked removed, after leaving a master who is not; its summons are still to be dealt with. */
  ghost predicate Opened(a: State, b: State, c: Creature) {
    && Live(a, c) && Fewer(a, b) && a.master.Keys == b.master.Keys
    && b.removed == a.removed + {c} && b.listed == a.listed && b.living == a.living && b.skilled == a.skilled
    && b.checked == a.checked - ({c} * a.listed)
    && (forall m {:trigger a.summons[m]} :: m in a.summons ==>
          && (m in a.removed ==> b.summons[m] == a.summons[m])
          && (forall x :: x in a.summons[m] ==> x in b.summons[m] || x == c))
    && (forall x {:trigger b.master[x]} :: x in a.master ==> b.master[x] == a.master[x] || b.master[x] == null)
  }

  lemma LinkedSame(a: State, b: State)
    requires a.summons == b.summons && a.master == b.master
    ensures Linked(a) ==> Linked(b)
  {
    if Linked(a) {
      forall m | m in b.summons ensures Bound(b, m) {
        assert Bound(a, m);
      }
    }
  }

  /** One more summon, and everything under it, is dealt with. */
  lemma StepWalk(b: State, s: State, t: State, seen: set<Creature>, x: Creature)
    requires Walk(b, s) && Skills(b, s, seen) && b.removed <= b.summons.Keys && s.removed <= b.summons.Keys
    requires Removal(s.(skilled := s.skilled - {x}), t, x)
    ensures Walk(b, t) && Skills(b, t, seen + {x})
  {
    var s1 := s.(skilled := s.skilled - {x});
    forall m | m in b.summons ensures Listing(b, s1, m) {
      assert Listing(b, s, m);
    }
    assert forall y {:trigger Orphaned(b, s1, y)} :: Orphaned(b, s1, y) <==> Orphaned(b, s, y);
    WalkTrans(b, s1, t);
    SkillsTrans(b, s1, t, seen + {x});
  }

  /** `x` is reached from one of the summons of `c`. */
  ghost predicate Under(s: State, c: Creature, x: Creature)
    requires c in s.summons
  {
    exists y :: y in s.summons[c] && Reached(s, y, x)
  }

  /** The first `i` summons of `c`, removed already, are dealt with. */
  ghost predicate Swept(b: State, t: State, c: Creature, i: nat)
    requires c in b.summons && i <= |b.summons[c]|
  {
    && c in b.removed && b.removed <= b.summons.Keys && Closed(t) && Walk(b, t)
    && (Linked(b) ==> Linked(t) && SameLists(b, t))
    && (forall j | 0 <= j < i :: Done(t, b.summons[c][j]))
    && Skills(b, t, Elements(b.summons[c][..i]))
    && (forall x :: x in t.removed - b.removed ==> Under(b, c, x))
  }

  /** A summon whose master is removed stays on its list, so nothing changes. */
  lemma SummonStays(b: State, s: State, t: State, c: Creature, x: Creature)
    requires Linked(b) && SameLists(b, s) && Closed(s) && c in b.summons && x in b.summons[c] && c in s.removed
    requires x in s.summons && Leaves(s, t, x)
    ensures SameLists(b, t)
  {
    assert Bound(b, c);
  }

  lemma SweptStep(b: State, s: State, t: State, c: Creature, i: nat)
    requires c in b.summons && i < |b.summons[c]| && Swept(b, s, c, i) && Closed(t)
    requires var x := b.summons[c][i]; Removal(s.(skilled := s.skilled - {x}), t, x)
    requires Closed(s) && b.summons[c][i] in s.summons
    requires var x := b.summons[c][i];
             var s1 := s.(skilled := s.skilled - {x});
             Linked(s1) ==> Linked(t) && Leaves(s1, t, x)
    ensures Swept(b, t, c, i + 1)
  {
    var x := b.summons[c][i];
    LinkedSame(s, s.(skilled := s.skilled - {x}));
    if Linked(b) {
      SummonStays(b, s.(skilled := s.skilled - {x}), t, c, x);
    }
    StepWalk(b, s, t, Elements(b.summons[c][..i]), x);
    assert Elements(b.summons[c][..i + 1]) == Elements(b.summons[c][..i]) + {x};
    var s1 := s.(skilled := s.skilled - {x});
    WalkFewer(b, s);
    forall y | y in t.removed && y !in b.removed ensures Under(b, c, y) {
      if y !in s.removed {
        assert Reached(s1, x, y);
        var n: nat :| Reach(s1, x, y, n);
        ReachBefore(b, s1, x, y, n);
        assert x in b.summons[c];
      }
    }
  }

  /** Once all summons of `c` are dealt with, so is `c`. */
  lemma OpenedWalk(a: State, b: State, d: State, c: Creature)
    requires Opened(a, b, c) && Walk(b, d) && forall x <- d.summons[c] :: Done(d, x)
    ensures Walk(a, d)
  {
    forall m | m in a.summons ensures Listing(a, d, m) {
      assert Listing(b, d, m);
      forall x | x in a.summons[m] && (x !in d.summons[m] || (m in d.removed && m !in a.removed)) ensures Done(d, x) {
        assert x == c || x in b.summons[m];
      }
    }
  }

  lemma OpenedSkills(a: State, b: State, d: State, c: Creature)
    requires Opened(a, b, c) && Walk(b, d) && Skills(b, d, Elements(d.summons[c]))
    ensures Skills(a, d, {})
  {
    forall x | x in a.skilled ensures Orphaned(a, d, x) <==> Orphaned(b, d, x) || x in d.summons[c] {
    }
  }

  /** Nothing else than what is reached from `c` was removed, and all of that was. */
  lemma SweptAll(a: State, b: State, d: State, c: Creature)
    requires Opened(a, b, c) && Swept(b, d, c, |b.summons[c]|)
    ensures Removal(a, d, c)
  {
    assert Listing(b, d, c);
    assert b.summons[c][..|b.summons[c]|] == b.summons[c] == d.summons[c];
    OpenedWalk(a, b, d, c);
    OpenedSkills(a, b, d, c);
    assert Reach(a, c, c, 0);
    forall x | x in a.summons ensures x in d.removed <==> x in a.removed || Reached(a, c, x) {
      if Reached(a, c, x) {
        var n: nat :| Reach(a, c, x, n);
        ReachRemoved(a, d, c, x, n);
      }
      if x in d.removed && x !in b.removed {
        assert x in d.removed - b.removed;
        var y :| y in b.summons[c] && Reached(b, y, x);
        var n: nat :| Reach(b, y, x, n);
        ReachBefore(a, b, y, x, n);
        assert Reach(a, c, x, n + 1);
      }
    }
  }

  /**
   A removal, told of each creature. Whoever is removed meanwhile stands on a tile, and is `c` or on the list of
   somebody else removed meanwhile; and whoever such a creature lists is removed, or has no tile, and loses its
   skill-loss flag. The scheduler is told of everybody removed meanwhile that it has listed. Nobody else changes.
   */
  lemma RemovalExactly(a: State, b: State, c: Creature)
    requires Removal(a, b, c) && c in a.summons
    ensures c in a.removed || c !in a.tiled ==> b.removed == a.removed
    ensures c !in a.removed && c in a.tiled ==> c in b.removed
    ensures a.removed <= b.removed
    ensures forall x | x in b.removed && x !in a.removed ::
              x in a.tiled
              && (x == c || exists m :: m in b.removed && m !in a.removed && m in a.summons && x in a.summons[m])
    ensures forall m, x | m in b.removed && m !in a.removed && m in a.summons && x in a.summons[m] ::
              x in b.removed || x !in a.tiled
    ensures forall x :: x in b.checked <==> x in a.checked && !(x in b.removed && x !in a.removed && x in a.listed)
    ensures forall x :: x in b.skilled <==>
              x in a.skilled && !exists m :: m in b.removed && m !in a.removed && m in b.summons && x in b.summons[m]
    ensures b.listed == a.listed && b.living == a.living && b.tiled == a.tiled
  {
    if c in a.removed || c !in a.tiled {
      assert forall x, n: nat :: !Reach(a, c, x, n);
    } else {
      assert Reach(a, c, c, 0);
    }
    forall x | x in b.removed && x !in a.removed && x != c
      ensures exists m :: m in b.removed && m !in a.removed && m in a.summons && x in a.summons[m]
    {
      var n: nat :| Reach(a, c, x, n);
      var m := ReachLast(a, c, x, n);
      assert Reached(a, c, m);
      ReachLive(a, c, m, n - 1);
    }
    forall m, x | m in b.removed && m !in a.removed && m in a.summons && x in a.summons[m]
      ensures x in b.removed || x !in a.tiled
    {
      assert Listing(a, b, m) && Done(b, x);
    }
    forall x | x in a.skilled ensures x in b.skilled <==> !Orphaned(a, b, x) {
    }
  }

  lemma {:induction false} ReachLive(s: State, x: Creature, y: Creature, n: nat)
    requires Reach(s, x, y, n)
    ensures Live(s, y)
  {
    if n > 0 {
      var c :| c in s.summons[x] && Reach(s, c, y, n - 1);
      ReachLive(s, c, y, n - 1);
    }
  }

  /** Whoever is summoned by a removed creature is dealt with. */
  ghost predicate Orderly(s: State) {
    forall m {:trigger s.summons[m]} :: m in s.summons && m in s.removed ==> forall x <- s.summons[m] :: Done(s, x)
  }

  /** `b` is reached from `a` through `n` summons lists, whoever is on them. */
  ghost predicate Summoned(s: State, a: Creature, b: Creature, n: nat) {
    a in s.summons && if n == 0 then a == b else exists c :: c in s.summons[a] && Summoned(s, c, b, n - 1)
  }

  /**
   When everybody stands on a tile and removed creatures have only removed summons, removing `c` removes all
   that is reached from it, and the same holds again afterwards.
   */
  lemma AllSummonedRemoved(a: State, b: State, c: Creature, x: Creature, n: nat)
    requires Removal(a, b, c) && Closed(a) && Closed(b) && a.tiled == a.summons.Keys && Orderly(a)
    requires Summoned(a, c, x, n)
    ensures x in b.removed && Orderly(b)
  {
    forall m | m in b.summons && m in b.removed ensures forall x <- b.summons[m] :: Done(b, x) {
      assert Listing(a, b, m);
    }
    SummonedRemoved(a, b, c, x, n);
  }

  lemma {:induction false} SummonedRemoved(a: State, b: State, c: Creature, x: Creature, n: nat)
    requires Walk(a, b) && Orderly(a) && c in b.removed && a.tiled == a.summons.Keys && Closed(a)
    requires Summoned(a, c, x, n)
    ensures x in b.removed
  {
    assert Listing(a, b, c);
    if n > 0 {
      var y :| y in a.summons[c] && Summoned(a, y, x, n - 1);
      assert Done(b, y);
      SummonedRemoved(a, b, y, x, n - 1);
    }
  }

  // ---------------------------------------------------------------- creatures

  class Creature {
    const hasTile: bool
    var removed: bool
    var master: Creature?
    var summons: seq<Creature>
    var skillLoss: bool
    var alive: bool
    /** Whether the creature wants to think, and whether the scheduler has it on a list. */
    var checked: bool
    var listed: bool

    constructor (hasTile: bool)
      ensures this.hasTile == hasTile && alive && !removed
      ensures master == null && summons == [] && skillLoss && !checked && !listed
    {
      this.hasTile := hasTile;
      removed, master, summons, skillLoss, checked, listed, alive := false, null, [], true, false, false, true;
    }

    method Relist(summons: seq<Creature>, ghost all: set<Creature>)
      requires this in all
      modifies this`summons
      ensures Record(all) == old(Record(all)).(summons := old(Record(all)).summons[this := summons])
    {
      this.summons := summons;
    }

    /** `setMaster`. */
    method SetMaster(newMaster: Creature?, reload: bool, ghost all: set<Creature>) returns (changed: bool)
      requires this in all && Closed(Record(all)) && (newMaster != null ==> newMaster in all)
      modifies all
      ensures changed <==> newMaster != null || old(master) != null
      ensures !changed ==> Record(all) == old(Record(all))
      ensures changed ==> Record(all) == Mastered(old(Record(all)), this, newMaster, reload)
      ensures Closed(Record(all)) && (old(Linked(Record(all))) ==> Linked(Record(all)))
    {
      ghost var before := Record(all);
      assert before.master[this] == master;
      var oldMaster := master;
      if newMaster == null && oldMaster == null {
        return false;
      }
      if reload {
        LoseSkillLoss(all);
      }
      if newMaster != null {
        newMaster.Relist(newMaster.summons + [this], all);
      }
      Follow(newMaster, all);
      if oldMaster != null {
        oldMaster.Relist(RemoveFirst(oldMaster.summons, this), all);
      }
      MasteredKeeps(before, this, newMaster, reload);
      return true;
    }

    /** Leaves the master, if that is not removed itself. */
    method LeaveMaster(ghost all: set<Creature>)
      requires this in all && Closed(Record(all))
      modifies all
      ensures Closed(Record(all)) && (old(Linked(Record(all))) ==> Linked(Record(all)))
      ensures Record(all) == Left(old(Record(all)), this)
    {
      assert Record(all).master[this] == master;
      if master != null && !master.removed {
        var _ := SetMaster(null, false, all);
      }
    }

    method Follow(master: Creature?, ghost all: set<Creature>)
      requires this in all
      modifies this`master
      ensures Record(all) == old(Record(all)).(master := old(Record(all)).master[this := master])
    {
      this.master := master;
    }

    /** `setRemoved`, after which the scheduler drops the creature. */
    method SetRemoved(ghost all: set<Creature>)
      requires this in all
      modifies this`removed, this`checked
      ensures Record(all) == Marked(old(Record(all)), this)
    {
      removed := true;
      RemoveCreatureCheck();
    }

    /** `removeCreatureCheck`. */
    method RemoveCreatureCheck()
      modifies this`checked
      ensures checked == (old(checked) && !listed)
    {
      if listed {
        checked := false;
      }
    }

    /** `setSkillLoss(false)`. */
    method LoseSkillLoss(ghost all: set<Creature>)
      requires this in all
      modifies this`skillLoss
      ensures Record(all) == old(Record(all)).(skilled := old(Record(all)).skilled - {this})
    {
      skillLoss := false;
    }
  }

  /** `removeCreature`. */
  method RemoveCreature(creature: Creature?, ghost all: set<Creature>) returns (done: bool)
    requires Closed(Record(all)) && (creature != null ==> creature in all)
    modifies all
    ensures Closed(Record(all)) && Removal(old(Record(all)), Record(all), creature)
    ensures done <==> creature != null && old(Live(Record(all), creature))
    ensures done <==> creature != null && !old(creature.removed) && creature.hasTile
    ensures old(Linked(Record(all))) ==> Linked(Record(all))
    ensures old(Linked(Record(all))) ==>
              Leaves(old(Record(all)), Record(all), creature) && Unlisted(old(Record(all)), Record(all))
    ensures creature != null && !old(creature.removed) && old(creature.master == null || !creature.master.removed)
            ==> creature.master == null
    decreases all - Record(all).removed, 0
  {
    if creature == null || creature.removed {
      return false;
    }
    ghost var a := Record(all);
    creature.LeaveMaster(all);
    if !creature.hasTile {
      LeftIsRemoval(a, creature);
      return false;
    }
    LeftOpens(a, creature);
    creature.SetRemoved(all);
    ghost var b := Record(all);
    RemoveSummons(creature, all);
    SweptAll(a, b, Record(all), creature);
    if Linked(a) {
      NobodyListsRemoved(a, Record(all), creature);
    }
    return true;
  }

  /**
   The loop of `removeCreature`. It runs over the creature's own list, which stays the same all the while: a
   creature only ever leaves the list of a master that is not removed.
   */
  method RemoveSummons(creature: Creature, ghost all: set<Creature>)
    requires Closed(Record(all)) && creature in all && creature.removed
    modifies all
    ensures creature.summons == old(creature.summons)
    ensures Swept(old(Record(all)), Record(all), creature, |creature.summons|)
    decreases all - Record(all).removed, 1
  {
    ghost var b := Record(all);
    var i := 0;
    while i < |creature.summons|
      invariant 0 <= i <= |creature.summons| && creature.summons == b.summons[creature]
      invariant Swept(b, Record(all), creature, i)
    {
      ghost var s := Record(all);
      var summon := creature.summons[i];
      assert summon in s.summons[creature];
      summon.LoseSkillLoss(all);
      var _ := RemoveCreature(summon, all);
      SweptStep(b, s, Record(all), creature, i);
      assert Listing(b, Record(all), creature);
      i := i + 1;
    }
  }

  /** The state after `c` got another master, or none. */
  ghost function Mastered(s: State, c: Creature, m: Creature?, reload: bool): State
    requires Closed(s) && c in s.summons && (m != null ==> m in s.summons)
  {
    var s1 := if m == null then s.summons else s.summons[m := s.summons[m] + [c]];
    var o := s.master[c];
    s.(summons := if o == null then s1 else s1[o := RemoveFirst(s1[o], c)],
       master := s.master[c := m],
       skilled := if reload then s.skilled - {c} else s.skilled)
  }

  /** Setting a master keeps the masters and the lists in agreement, whether or not the master changes. */
  lemma MasteredKeeps(s: State, c: Creature, m: Creature?, reload: bool)
    requires Closed(s) && c in s.summons && (m != null ==> m in s.summons)
    ensures Closed(Mastered(s, c, m, reload))
    ensures Linked(s) ==> Linked(Mastered(s, c, m, reload))
  {
    var t := Mastered(s, c, m, reload);
    forall k | k in t.summons
      ensures forall x <- t.summons[k] :: x in t.summons
      ensures Linked(s) ==> Bound(t, k)
    {
      var o := s.master[c];
      var l := if k == m then s.summons[k] + [c] else s.summons[k];
      assert t.summons[k] == if k == o then RemoveFirst(l, c) else l;
      RemoveFirstKeeps(l, c);
      if Linked(s) {
        assert Bound(s, k);
        ListKeeps(s.summons[k], c, k == o, k == m);
        assert forall x <- l :: x == c || x in s.summons[k];
      }
    }
  }

  /** A creature leaves the old master's list and comes last on the new one's; nobody else is touched. */
  lemma MasteredExactly(s: State, c: Creature, m: Creature?, reload: bool)
    requires Closed(s) && Linked(s) && c in s.summons && (m != null ==> m in s.summons)
    ensures var t, o := Mastered(s, c, m, reload), s.master[c];
            && t.master.Keys == s.master.Keys && t.summons.Keys == s.summons.Keys
            && t == s.(master := t.master, summons := t.summons, skilled := t.skilled)
            && t.skilled == (if reload then s.skilled - {c} else s.skilled)
            && (forall x | x in s.master :: t.master[x] == if x == c then m else s.master[x])
            && (forall k | k in s.summons && k != m && k != o :: t.summons[k] == s.summons[k])
            && (o != null && o != m ==> TakenOut(s.summons[o], t.summons[o], c))
            && (m != null && o != m ==> t.summons[m] == s.summons[m] + [c])
            && (m != null && o == m ==> t.summons[m] != [] && t.summons[m][|t.summons[m]| - 1] == c
                                        && TakenOut(s.summons[m], t.summons[m][..|t.summons[m]| - 1], c))
  {
    var o := s.master[c];
    if o != null {
      assert Bound(s, o);
      RemoveFirstTakesOut(s.summons[o], c);
      RemoveFirstAppend(s.summons[o], [c], c);
    }
  }

  /** One list after `c` left it, entered it, or both. */
  lemma ListKeeps(list: seq<Creature>, c: Creature, leaves: bool, enters: bool)
    requires Distinct(list) && (c in list <==> leaves)
    ensures var l := if enters then list + [c] else list;
            var t := if leaves then RemoveFirst(l, c) else l;
            Distinct(t) && (c in t <==> enters) && (forall x | x in t :: x == c || x in list)
            && forall x | x in list :: x == c || x in t
  {
    RemoveFirstKeeps(list, c);
    if enters && leaves {
      RemoveFirstAppend(list, [c], c);
    }
  }

  /** The state after `c` left its master, if that is not removed. */
  ghost function Left(s: State, c: Creature): State
    requires Closed(s) && c in s.summons
  {
    if s.master[c] != null && s.master[c] !in s.removed then Mastered(s, c, null, false) else s
  }

  ghost predicate SameLists(a: State, b: State) {
    a.summons == b.summons && a.master == b.master
  }

  /** Of all masters and lists, only those that tie `c` to a master who is not removed change. */
  ghost predicate Leaves(a: State, b: State, c: Creature?)
    requires Closed(a) && (c != null ==> c in a.summons)
  {
    SameLists(if c != null && c !in a.removed then Left(a, c) else a, b)
  }

  /** Where `c` was taken off: its master's list, if that is not removed; every other list stays as it was. */
  lemma LeavesExactly(a: State, b: State, c: Creature)
    requires Closed(a) && Linked(a) && c in a.summons && Leaves(a, b, c) && b.summons.Keys == a.summons.Keys
    ensures forall m, x | m in a.summons ::
              x in b.summons[m] <==> x in a.summons[m] && (x != c || m in a.removed || c in a.removed)
    ensures forall m | m in a.summons && (c in a.removed || m in a.removed || m != a.master[c]) ::
              b.summons[m] == a.summons[m]
    ensures forall m | m in a.summons && m == a.master[c] && c !in a.removed && m !in a.removed ::
              Distinct(b.summons[m]) && TakenOut(a.summons[m], b.summons[m], c)
    ensures forall x | x in a.master ::
              b.master[x] == if x == c && c !in a.removed && a.master[c] !in a.removed then null else a.master[x]
  {
    forall m | m in a.summons
      ensures Distinct(b.summons[m])
      ensures m == a.master[c] && c !in a.removed && m !in a.removed ==> TakenOut(a.summons[m], b.summons[m], c)
      ensures forall x :: x in b.summons[m] <==> x in a.summons[m] && (x != c || m in a.removed || c in a.removed)
    {
      assert Bound(a, m);
      RemoveFirstKeeps(a.summons[m], c);
      if m == a.master[c] {
        RemoveFirstTakesOut(a.summons[m], c);
      }
    }
  }

  /** Nobody who is still there lists anybody removed meanwhile. */
  ghost predicate Unlisted(a: State, b: State) {
    forall m, x | m in b.summons && m !in b.removed && x in b.removed && x !in a.removed :: x !in b.summons[m]
  }

  lemma NobodyListsRemoved(a: State, b: State, c: Creature)
    requires Closed(a) && Linked(a) && c in a.summons && Leaves(a, b, c) && Removal(a, b, c)
    ensures Unlisted(a, b)
  {
    assert b.summons.Keys == a.summons.Keys;
    LeavesExactly(a, b, c);
    forall m, x | m in b.summons && m !in b.removed && x in b.removed && x !in a.removed ensures x !in b.summons[m] {
      var n: nat :| Reach(a, c, x, n);
      if n > 0 {
        var k := ReachLast(a, c, x, n);
        assert Bound(a, k) && Bound(a, m);
        assert Reached(a, c, k);
      }
    }
  }

  lemma {:induction false} ReachLast(s: State, c: Creature, x: Creature, n: nat) returns (k: Creature)
    requires n > 0 && Reach(s, c, x, n)
    ensures k in s.summons && Reach(s, c, k, n - 1) && x in s.summons[k]
  {
    var y :| y in s.summons[c] && Reach(s, y, x, n - 1);
    if n == 1 {
      k := c;
    } else {
      k := ReachLast(s, y, x, n - 1);
    }
  }

  /** The state after `c` is marked removed. */
  ghost function Marked(s: State, c: Creature): State {
    s.(removed := s.removed + {c}, checked := s.checked - ({c} * s.listed))
  }

  /** Leaving a master takes `c` off that list and changes nothing else. */
  lemma LeftLists(a: State, c: Creature, m: Creature)
    requires Closed(a) && c in a.summons && m in a.summons
    ensures var l := Left(a, c).summons[m];
            && (m in a.removed ==> l == a.summons[m])
            && (forall x :: x in l ==> x in a.summons[m])
            && (forall x :: x in a.summons[m] ==> x in l || x == c)
  {
    if m == a.master[c] && m !in a.removed {
      RemoveFirstKeeps(a.summons[m], c);
    }
  }

  /** Leaving a master opens `c` when it stands on a tile. */
  lemma LeftOpens(a: State, c: Creature)
    requires Closed(a) && Live(a, c)
    ensures Opened(a, Marked(Left(a, c), c), c) && Closed(Marked(Left(a, c), c))
    ensures Linked(a) ==> Linked(Marked(Left(a, c), c))
  {
    MasteredKeeps(a, c, null, false);
    LinkedSame(Left(a, c), Marked(Left(a, c), c));
    forall m | m in a.summons {
      LeftLists(a, c, m);
    }
  }

  /** Without a tile that is all there is. */
  lemma LeftIsRemoval(a: State, c: Creature)
    requires Closed(a) && c in a.summons && c !in a.removed && c !in a.tiled
    ensures Removal(a, Left(a, c), c)
  {
    forall m | m in a.summons ensures Listing(a, Left(a, c), m) {
      LeftLists(a, c, m);
    }
  }
}
