/**
 The lists of creatures that think in turn. A creature is put on a random one of ten lists by an event that
 runs later; every tick one list is swept, and whoever no longer wants to think is dropped from it.
 */
module Scheduler {
  import opened Creatures

  const EVENT_CREATURECOUNT: nat := 10

  /** An event waiting to put a creature on a list. */
  datatype Insert = Insert(index: nat, creature: Creature)

  /** What a creature may do, to itself or to others, while it thinks. */
  datatype Action =
    | AddCheck(creature: Creature, index: nat)
    | RemoveCheck(creature: Creature)
    | Die(creature: Creature)
    | Remove(creature: Creature)
    | Destroy(creature: Creature)

  // ---------------------------------------------------------------- what is on the lists

  ghost function Bag(lists: seq<seq<Creature>>): multiset<Creature> {
    if lists == [] then multiset{} else multiset(lists[0]) + Bag(lists[1..])
  }

  ghost function Waiting(pending: seq<Insert>): multiset<Creature> {
    if pending == [] then multiset{} else multiset{pending[0].creature} + Waiting(pending[1..])
  }

  /** Everything on a list or waiting to be. */
  ghost function Everyone(lists: seq<seq<Creature>>, pending: seq<Insert>): multiset<Creature> {
    Bag(lists) + Waiting(pending)
  }

  function Waiters(pending: seq<Insert>): set<Creature> {
    set p | p in pending :: p.creature
  }

  lemma {:induction false} BagSet(lists: seq<seq<Creature>>, i: nat, list: seq<Creature>)
    requires i < |lists|
    ensures Bag(lists[i := list]) + multiset(lists[i]) == Bag(lists) + multiset(list)
  {
    var after := lists[i := list];
    if i > 0 {
      BagSet(lists[1..], i - 1, list);
      assert after[1..] == lists[1..][i - 1 := list];
      assert lists[1..][i - 1] == lists[i];
      var first, rest := multiset(lists[0]), Bag(lists[1..]);
      assert Bag(after) == first + Bag(after[1..]);
      assert (first + Bag(after[1..])) + multiset(lists[i]) == first + (Bag(after[1..]) + multiset(lists[i]));
      assert (first + rest) + multiset(list) == first + (rest + multiset(list));
    } else {
      assert after[1..] == lists[1..];
      assert Bag(after) == multiset(list) + Bag(lists[1..]);
    }
  }

  lemma BagAdd(lists: seq<seq<Creature>>, i: nat, c: Creature)
    requires i < |lists|
    ensures Bag(lists[i := lists[i] + [c]]) == Bag(lists) + multiset{c}
  {
    BagSet(lists, i, lists[i] + [c]);
    var after := Bag(lists[i := lists[i] + [c]]);
    assert multiset(lists[i] + [c]) == multiset(lists[i]) + multiset{c};
    assert after + multiset(lists[i]) == (Bag(lists) + multiset{c}) + multiset(lists[i]);
    assert after == (after + multiset(lists[i])) - multiset(lists[i]);
  }

  lemma BagLess(lists: seq<seq<Creature>>, i: nat, list: seq<Creature>, less: multiset<Creature>)
    requires i < |lists| && multiset(list) + less == multiset(lists[i])
    ensures Bag(lists[i := list]) + less == Bag(lists)
  {
    BagSet(lists, i, list);
    var after, kept := Bag(lists[i := list]), multiset(list);
    assert (after + less) + kept == Bag(lists) + kept;
    assert after + less == ((after + less) + kept) - kept;
  }

  /** Somebody with one entry has it on one list. */
  lemma {:induction false} BagOne(lists: seq<seq<Creature>>, c: Creature) returns (b: nat)
    requires Bag(lists)[c] == 1
    ensures b < |lists| && forall i | 0 <= i < |lists| :: multiset(lists[i])[c] == if i == b then 1 else 0
  {
    if multiset(lists[0])[c] == 1 {
      b := 0;
      forall i | 1 <= i < |lists| ensures multiset(lists[i])[c] == 0 {
        BagHas(lists[1..], i - 1);
      }
    } else {
      b := BagOne(lists[1..], c);
      b := b + 1;
      assert forall i | 1 <= i < |lists| :: lists[i] == lists[1..][i - 1];
    }
  }

  lemma {:induction false} BagNone(lists: seq<seq<Creature>>)
    requires forall i | 0 <= i < |lists| :: lists[i] == []
    ensures Bag(lists) == multiset{}
  {
    if lists != [] {
      BagNone(lists[1..]);
    }
  }

  lemma {:induction false} BagHas(lists: seq<seq<Creature>>, i: nat)
    requires i < |lists|
    ensures multiset(lists[i]) <= Bag(lists)
  {
    if i > 0 {
      BagHas(lists[1..], i - 1);
    }
  }

  lemma {:induction false} WaitingAdd(pending: seq<Insert>, p: Insert)
    ensures Waiting(pending + [p]) == Waiting(pending) + multiset{p.creature}
  {
    if pending != [] {
      assert (pending + [p])[1..] == pending[1..] + [p];
      WaitingAdd(pending[1..], p);
    }
  }

  lemma {:induction false} WaitingHas(pending: seq<Insert>, c: Creature)
    ensures c in Waiting(pending) <==> c in Waiters(pending)
  {
    if pending != [] {
      assert Waiters(pending) == {pending[0].creature} + Waiters(pending[1..]);
      WaitingHas(pending[1..], c);
    }
  }

  lemma EntriesAdd(lists: seq<seq<Creature>>, pending: seq<Insert>, p: Insert)
    ensures Everyone(lists, pending + [p]) == Everyone(lists, pending) + multiset{p.creature}
  {
    WaitingAdd(pending, p);
  }

  lemma EntriesLess(lists: seq<seq<Creature>>, pending: seq<Insert>, i: nat, list: seq<Creature>,
                    less: multiset<Creature>)
    requires i < |lists| && multiset(list) + less == multiset(lists[i])
    ensures Everyone(lists[i := list], pending) == Everyone(lists, pending) - less
    ensures less <= Everyone(lists, pending)
  {
    BagLess(lists, i, list, less);
  }

  lemma EntriesMove(lists: seq<seq<Creature>>, pending: seq<Insert>)
    requires pending != [] && pending[0].index < |lists|
    ensures var p := pending[0];
            Everyone(lists[p.index := lists[p.index] + [p.creature]], pending[1..]) == Everyone(lists, pending)
  {
    BagAdd(lists, pending[0].index, pending[0].creature);
  }

  /** Nothing in the script takes away what makes `c` think. */
  ghost predicate Quiet(script: seq<Action>, c: Creature) {
    forall a <- script :: a.creature == c ==> a.AddCheck?
  }

  ghost predicate Steady(scripts: seq<seq<Action>>, c: Creature) {
    forall script <- scripts :: Quiet(script, c)
  }

  ghost predicate Untouched(script: seq<Action>, c: Creature) {
    forall a <- script :: a.creature != c
  }

  ghost predicate Asleep(scripts: seq<seq<Action>>, c: Creature) {
    forall script <- scripts :: Untouched(script, c)
  }

  ghost predicate About(script: seq<Action>, all: set<Creature>) {
    forall a <- script :: a.creature in all && (a.AddCheck? ==> a.index < EVENT_CREATURECOUNT)
  }

  // ---------------------------------------------------------------- what creatures do

  datatype Flags = Flags(checked: bool, listed: bool, alive: bool, removed: bool)

  /** What the scheduler knows of the creatures, and the events that wait. */
  datatype Minds = Minds(flags: map<Creature, Flags>, pending: seq<Insert>, expired: set<Creature>)

  ghost function Flagged(m: Minds, c: Creature, f: Flags): Minds {
    m.(flags := m.flags[c := f])
  }

  /** One action; a creature that no longer exists does nothing more. */
  ghost function Acted(m: Minds, a: Action): Minds {
    var c := a.creature;
    if c in m.expired || c !in m.flags then m
    else
      var f := m.flags[c];
      match a
      case AddCheck(_, i) =>
        if f.removed then m
        else if f.listed then Flagged(m, c, f.(checked := true))
        else Flagged(m, c, f.(checked := true, listed := true)).(pending := m.pending + [Insert(i, c)])
      case RemoveCheck(_) => Flagged(m, c, f.(checked := f.checked && !f.listed))
      case Die(_) => Flagged(m, c, f.(alive := false))
      case Remove(_) => Flagged(m, c, f.(removed := true, checked := f.checked && !f.listed))
      case Destroy(_) => if c in Waiters(m.pending) then m else m.(expired := m.expired + {c})
  }

  ghost function ActedAll(m: Minds, script: seq<Action>): Minds {
    if script == [] then m else Acted(ActedAll(m, script[..|script| - 1]), script[|script| - 1])
  }

  /** The creature exists, wants to think, and is alive. */
  ghost predicate Awake(m: Minds, c: Creature) {
    c in m.flags && m.flags[c].checked && m.flags[c].alive && c !in m.expired
  }

  ghost function Visited(m: Minds, c: Creature, script: seq<Action>): Minds {
    if Awake(m, c) then ActedAll(m, script)
    else if c in m.expired || c !in m.flags then m
    else Flagged(m, c, m.flags[c].(listed := false))
  }

  function ScriptAt(scripts: seq<seq<Action>>, i: nat): seq<Action> {
    if i < |scripts| then scripts[i] else []
  }

  /** After the first `i` entries of a list were visited. */
  ghost function MindsAfter(m: Minds, list: seq<Creature>, scripts: seq<seq<Action>>, i: nat): Minds
    requires i <= |list|
  {
    if i == 0 then m else Visited(MindsAfter(m, list, scripts, i - 1), list[i - 1], ScriptAt(scripts, i - 1))
  }

  /** Who thought by then. */
  ghost function Thought(m: Minds, list: seq<Creature>, scripts: seq<seq<Action>>, i: nat): seq<Creature>
    requires i <= |list|
  {
    if i == 0 then []
    else
      Thought(m, list, scripts, i - 1)
      + if Awake(MindsAfter(m, list, scripts, i - 1), list[i - 1]) then [list[i - 1]] else []
  }

  /** Mentioned where a sweep is followed step by step, and nowhere else. */
  ghost predicate Turn(i: nat) {
    true
  }

  /** A sweep has come to entry `i`, with this state and these thoughts. */
  ghost predicate SweptTo(m: Minds, list: seq<Creature>, scripts: seq<seq<Action>>, i: nat, now: Minds,
                          thought: seq<Creature>)
    requires i <= |list|
  {
    forall k {:trigger Turn(k)} :: Turn(k) && k == i ==>
      now == MindsAfter(m, list, scripts, k) && thought == Thought(m, list, scripts, k)
  }

  lemma SweepStarts(m: Minds, list: seq<Creature>, scripts: seq<seq<Action>>)
    ensures SweptTo(m, list, scripts, 0, m, [])
  {
  }

  lemma SweepIs(m: Minds, list: seq<Creature>, scripts: seq<seq<Action>>, i: nat, now: Minds, thought: seq<Creature>)
    requires i <= |list| && SweptTo(m, list, scripts, i, now, thought)
    ensures now == MindsAfter(m, list, scripts, i) && thought == Thought(m, list, scripts, i)
  {
    assert Turn(i);
  }

  /** Whoever is awake stays so when somebody else, or itself, is visited with a script that leaves it so. */
  lemma VisitedSteady(n: Minds, x: Creature, script: seq<Action>, c: Creature)
    requires Awake(n, c) && Quiet(script, c)
    ensures Awake(Visited(n, x, script), c)
  {
    ActedQuiet(n, script, c);
  }

  /** Two states are the same as far as `c` is concerned. */
  ghost predicate Alike(m: Minds, n: Minds, c: Creature) {
    c in m.flags && c in n.flags && n.flags[c] == m.flags[c] && (c in m.expired <==> c in n.expired)
  }

  lemma {:induction false} ActedQuiet(m: Minds, script: seq<Action>, c: Creature)
    requires c in m.flags
    ensures Quiet(script, c) && Awake(m, c) ==> Awake(ActedAll(m, script), c)
    ensures Untouched(script, c) ==> Alike(m, ActedAll(m, script), c)
    ensures c in ActedAll(m, script).flags
  {
    if script != [] {
      var n := |script| - 1;
      ActedQuiet(m, script[..n], c);
      assert script[n] in script;
    }
  }

  /** Whom no script disturbs, and who is awake at first, thinks as often as it is met. */
  lemma {:induction false} SweptSteady(m: Minds, list: seq<Creature>, scripts: seq<seq<Action>>, i: nat, c: Creature)
    requires i <= |list| && Steady(scripts, c) && Awake(m, c)
    ensures Awake(MindsAfter(m, list, scripts, i), c)
    ensures multiset(Thought(m, list, scripts, i))[c] == multiset(list[..i])[c]
  {
    if i > 0 {
      SweptSteady(m, list, scripts, i - 1, c);
      var n := MindsAfter(m, list, scripts, i - 1);
      assert Quiet(ScriptAt(scripts, i - 1), c);
      VisitedSteady(n, list[i - 1], ScriptAt(scripts, i - 1), c);
      OneMore(list, i - 1, Thought(m, list, scripts, i - 1), Awake(n, list[i - 1]), c);
    }
  }

  lemma OneMore(list: seq<Creature>, i: nat, thought: seq<Creature>, thinks: bool, c: Creature)
    requires i < |list| && multiset(thought)[c] == multiset(list[..i])[c] && (list[i] == c ==> thinks)
    ensures multiset(thought + if thinks then [list[i]] else [])[c] == multiset(list[..i + 1])[c]
  {
    assert list[..i + 1] == list[..i] + [list[i]];
  }

  /** Whom no script touches, and who exists but is not awake at first, does not think and loses its flag when met. */
  lemma {:induction false} SweptAsleep(m: Minds, list: seq<Creature>, scripts: seq<seq<Action>>, i: nat, c: Creature)
    requires i <= |list| && Asleep(scripts, c) && c in m.flags && !Awake(m, c) && c !in m.expired
    ensures var n := MindsAfter(m, list, scripts, i);
            && c in n.flags && c !in n.expired && (c in list[..i] ==> !n.flags[c].listed)
            && n.flags[c] == m.flags[c].(listed := n.flags[c].listed)
    ensures c !in Thought(m, list, scripts, i)
  {
    if i > 0 {
      SweptAsleep(m, list, scripts, i - 1, c);
      assert list[..i] == list[..i - 1] + [list[i - 1]];
      assert Untouched(ScriptAt(scripts, i - 1), c);
      ActedQuiet(MindsAfter(m, list, scripts, i - 1), ScriptAt(scripts, i - 1), c);
    }
  }

  /** Who thought stays on the list in the old order. */
  lemma {:induction false} ThoughtInOrder(m: Minds, list: seq<Creature>, scripts: seq<seq<Action>>, i: nat)
    returns (at: seq<nat>)
    requires i <= |list|
    ensures |at| == |Thought(m, list, scripts, i)| && forall k | 0 <= k < |at| :: at[k] < i
    ensures forall k, l | 0 <= k < l < |at| :: at[k] < at[l]
    ensures forall k | 0 <= k < |at| :: Thought(m, list, scripts, i)[k] == list[at[k]]
  {
    at := [];
    if i > 0 {
      at := ThoughtInOrder(m, list, scripts, i - 1);
      if Awake(MindsAfter(m, list, scripts, i - 1), list[i - 1]) {
        at := at + [i - 1];
      }
    }
  }

  /** A whole sweep, as it concerns those whom no script disturbs, or touches. */
  lemma Turned(was: Minds, s: Wheel, scripts: seq<seq<Action>>)
    requires |s.lists| == EVENT_CREATURECOUNT && s.index < EVENT_CREATURECOUNT
    ensures var list := s.lists[s.index];
            var now, thought := MindsAfter(was, list, scripts, |list|), Thought(was, list, scripts, |list|);
            && (forall c {:trigger Steady(scripts, c)} ::
                  c in was.flags && was.flags[c].checked && was.flags[c].alive && c !in was.expired
                    && Steady(scripts, c) ==>
                    && c in now.flags && now.flags[c].checked && now.flags[c].alive && c !in now.expired
                    && multiset(thought)[c] == multiset(list)[c]
                    && Steps(s, Wheel(s.lists[s.index := thought], Next(s.index)), Tick(thought), c))
            && (forall c {:trigger Asleep(scripts, c)} ::
                  c in was.flags && (!was.flags[c].checked || !was.flags[c].alive) && c !in was.expired
                  && Asleep(scripts, c) && c in list ==>
                    c !in thought && c in now.flags && !now.flags[c].listed)
  {
    var list := s.lists[s.index];
    assert list[..|list|] == list;
    forall c | Steady(scripts, c) && Awake(was, c)
      ensures Awake(MindsAfter(was, list, scripts, |list|), c)
      ensures multiset(Thought(was, list, scripts, |list|))[c] == multiset(list)[c]
    {
      SweptSteady(was, list, scripts, |list|, c);
    }
    forall c | Asleep(scripts, c) && c in was.flags && !Awake(was, c) && c !in was.expired && c in list
      ensures c !in Thought(was, list, scripts, |list|) && c in MindsAfter(was, list, scripts, |list|).flags
      ensures !MindsAfter(was, list, scripts, |list|).flags[c].listed
    {
      SweptAsleep(was, list, scripts, |list|, c);
    }
  }

  /** Whoever exists and is not removed is checked and has an entry after being added, and nobody else is touched. */
  lemma AddedIsChecked(m: Minds, c: Creature, i: nat)
    requires c in m.flags && c !in m.expired && !m.flags[c].removed
    ensures var n := Acted(m, AddCheck(c, i));
            && c in n.flags && n.flags[c] == m.flags[c].(checked := true, listed := true) && n.expired == m.expired
            && n.pending == m.pending + (if m.flags[c].listed then [] else [Insert(i, c)])
            && forall x | x in m.flags && x != c :: Alike(m, n, x)
  {
  }

  /** A creature switched off and on again during one turn is as if nothing had happened, and keeps its one entry. */
  lemma OffAndOn(m: Minds, c: Creature, i: nat)
    requires c in m.flags && c !in m.expired && !m.flags[c].removed && m.flags[c].listed && m.flags[c].checked
    ensures ActedAll(m, [RemoveCheck(c), AddCheck(c, i)]) == m
  {
    assert [RemoveCheck(c), AddCheck(c, i)][..1] == [RemoveCheck(c)];
    assert [RemoveCheck(c)][..0] == [];
    assert ActedAll(m, [RemoveCheck(c)]) == Acted(ActedAll(m, []), RemoveCheck(c));
    assert m.flags[c := m.flags[c].(checked := false)][c := m.flags[c]] == m.flags;
  }

  /** What takes away a creature's thinking: its entry stays, and is dropped when the sweep meets it. */
  lemma TakenOffIsAsleep(m: Minds, c: Creature)
    requires c in m.flags && c !in m.expired
    ensures Acted(m, RemoveCheck(c)).flags[c] == m.flags[c].(checked := m.flags[c].checked && !m.flags[c].listed)
    ensures Acted(m, Die(c)).flags[c] == m.flags[c].(alive := false)
    ensures Acted(m, Remove(c)).flags[c]
            == m.flags[c].(removed := true, checked := m.flags[c].checked && !m.flags[c].listed)
    ensures c in Acted(m, Destroy(c)).expired <==> forall p <- m.pending :: p.creature != c
  {
  }

  /** Nothing a removed creature is told makes it think again. */
  lemma RemovedStaysAsleep(m: Minds, a: Action, c: Creature)
    requires c in m.flags && m.flags[c].removed && !m.flags[c].checked
    ensures c in Acted(m, a).flags && Acted(m, a).flags[c].removed && !Acted(m, a).flags[c].checked
  {
  }

  // ---------------------------------------------------------------- ten ticks

  /** The list whose turn it is after `index`. */
  function Next(index: nat): (r: nat)
    ensures r < EVENT_CREATURECOUNT && (index < EVENT_CREATURECOUNT - 1 ==> r == index + 1)
    ensures index == EVENT_CREATURECOUNT - 1 ==> r == 0
  {
    (index + 1) % EVENT_CREATURECOUNT
  }

  datatype Wheel = Wheel(lists: seq<seq<Creature>>, index: nat)

  datatype Move = Tick(thought: seq<Creature>) | Other

  /** One step of the scheduler as it concerns a creature that goes on wanting to think. */
  ghost predicate Steps(s: Wheel, t: Wheel, move: Move, c: Creature) {
    && |s.lists| == |t.lists| == EVENT_CREATURECOUNT && s.index < EVENT_CREATURECOUNT
    && match move
       case Tick(thought) =>
         && t == Wheel(s.lists[s.index := thought], Next(s.index))
         && multiset(thought)[c] == multiset(s.lists[s.index])[c]
       case Other =>
         && t.index == s.index
         && forall b | 0 <= b < EVENT_CREATURECOUNT :: multiset(t.lists[b])[c] == multiset(s.lists[b])[c]
  }

  ghost predicate Run(states: seq<Wheel>, moves: seq<Move>, c: Creature) {
    && |states| == |moves| + 1
    && forall i | 0 <= i < |moves| :: Steps(states[i], states[i + 1], moves[i], c)
  }

  ghost function Ticks(moves: seq<Move>): nat {
    if moves == [] then 0 else (if moves[0].Tick? then 1 else 0) + Ticks(moves[1..])
  }

  /** How often `c` thinks. */
  ghost function Thoughts(moves: seq<Move>, c: Creature): nat {
    if moves == [] then 0 else (if moves[0].Tick? then multiset(moves[0].thought)[c] else 0) + Thoughts(moves[1..], c)
  }

  /** `c` is on list `b`, once, and on no other. */
  ghost predicate On(s: Wheel, c: Creature, b: nat) {
    && |s.lists| == EVENT_CREATURECOUNT && s.index < EVENT_CREATURECOUNT && b < EVENT_CREATURECOUNT
    && forall i | 0 <= i < EVENT_CREATURECOUNT :: multiset(s.lists[i])[c] == if i == b then 1 else 0
  }

  /** How many ticks until list `b` is swept. */
  ghost function Due(index: nat, b: nat): nat
    requires index < EVENT_CREATURECOUNT
  {
    if index <= b then b - index else b + EVENT_CREATURECOUNT - index
  }

  lemma DueNext(index: nat, b: nat)
    requires index < EVENT_CREATURECOUNT && b < EVENT_CREATURECOUNT
    ensures Due(index, b) == 0 <==> index == b
    ensures Due(Next(index), b) == if index == b then EVENT_CREATURECOUNT - 1 else Due(index, b) - 1
  {
  }

  lemma {:induction false} ThinksWhenDue(states: seq<Wheel>, moves: seq<Move>, c: Creature, b: nat)
    requires Run(states, moves, c) && On(states[0], c, b) && Ticks(moves) <= EVENT_CREATURECOUNT
    ensures Thoughts(moves, c) == if Due(states[0].index, b) < Ticks(moves) then 1 else 0
    ensures On(states[|moves|], c, b)
    decreases |moves|
  {
    if moves != [] {
      assert Steps(states[0], states[1], moves[0], c);
      DueNext(states[0].index, b);
      assert On(states[1], c, b);
      forall i | 0 <= i < |moves[1..]| ensures Steps(states[1..][i], states[1..][i + 1], moves[1..][i], c) {
        assert Steps(states[i + 1], states[i + 2], moves[i + 1], c);
      }
      ThinksWhenDue(states[1..], moves[1..], c, b);
    }
  }

  /** In any ten consecutive ticks, whatever happens in between, a creature on a list thinks exactly once. */
  lemma ThinksOnce(states: seq<Wheel>, moves: seq<Move>, c: Creature, b: nat)
    requires Run(states, moves, c) && On(states[0], c, b) && Ticks(moves) == EVENT_CREATURECOUNT
    ensures Thoughts(moves, c) == 1
  {
    ThinksWhenDue(states, moves, c, b);
  }

  lemma RunStep(states: seq<Wheel>, moves: seq<Move>, t: Wheel, move: Move, c: Creature)
    requires Run(states, moves, c) && Steps(states[|moves|], t, move, c) && Somewhere(states[|moves|], c)
    ensures Run(states + [t], moves + [move], c) && Somewhere(t, c)
  {
    var states', moves' := states + [t], moves + [move];
    forall i | 0 <= i < |moves'| ensures Steps(states'[i], states'[i + 1], moves'[i], c) {
      if i < |moves| {
        assert Steps(states[i], states[i + 1], moves[i], c);
      }
    }
    var b: nat :| On(states[|moves|], c, b);
    assert On(t, c, b);
  }

  lemma RunSteps(states: seq<Wheel>, moves: seq<Move>, t: Wheel, move: Move, thinkers: set<Creature>)
    requires |states| == |moves| + 1
    requires forall c <- thinkers :: Run(states, moves, c) && Somewhere(states[|moves|], c)
    requires forall c <- thinkers :: Steps(states[|moves|], t, move, c)
    ensures forall c <- thinkers :: Run(states + [t], moves + [move], c) && Somewhere(t, c)
  {
    forall c | c in thinkers ensures Run(states + [t], moves + [move], c) && Somewhere(t, c) {
      RunStep(states, moves, t, move, c);
    }
  }

  lemma ThinkOnce(states: seq<Wheel>, moves: seq<Move>, thinkers: set<Creature>)
    requires states != [] && Ticks(moves) == EVENT_CREATURECOUNT
    requires forall c <- thinkers :: Run(states, moves, c) && Somewhere(states[0], c)
    ensures forall c <- thinkers :: Thoughts(moves, c) == 1
  {
    forall c | c in thinkers ensures Thoughts(moves, c) == 1 {
      var b: nat :| On(states[0], c, b);
      ThinksOnce(states, moves, c, b);
    }
  }

  ghost predicate Somewhere(s: Wheel, c: Creature) {
    exists b: nat :: On(s, c, b)
  }

  lemma SomewhereInBag(s: Wheel, c: Creature)
    requires Somewhere(s, c)
    ensures c in Bag(s.lists)
  {
    var b: nat :| On(s, c, b);
    BagHas(s.lists, b);
    assert c in multiset(s.lists[b]);
  }

  /** What happens between ticks and in them: anything to a creature, a waiting event, or a sweep. */
  datatype Op = Doing(action: Action) | Inserting | Sweeping(scripts: seq<seq<Action>>)

  ghost predicate Allowed(op: Op, all: set<Creature>) {
    match op
    case Doing(a) => About([a], all)
    case Inserting => true
    case Sweeping(scripts) => forall script <- scripts :: About(script, all)
  }

  /** Nothing in an operation takes away what makes `c` think. */
  ghost predicate Spares(op: Op, c: Creature) {
    match op
    case Doing(a) => Quiet([a], c)
    case Inserting => true
    case Sweeping(scripts) => Steady(scripts, c)
  }

  ghost predicate AllSpare(ops: seq<Op>, c: Creature) {
    forall op <- ops :: Spares(op, c)
  }

  function Sweeps(ops: seq<Op>): nat {
    if ops == [] then 0 else (if ops[0].Sweeping? then 1 else 0) + Sweeps(ops[1..])
  }

  /** The ticks are the sweeps, as far as there are moves. */
  ghost predicate Matching(moves: seq<Move>, ops: seq<Op>) {
    |moves| <= |ops| && forall i | 0 <= i < |moves| :: moves[i].Tick? <==> ops[i].Sweeping?
  }

  lemma MatchingStep(moves: seq<Move>, ops: seq<Op>, move: Move)
    requires Matching(moves, ops) && |moves| < |ops| && (move.Tick? <==> ops[|moves|].Sweeping?)
    ensures Matching(moves + [move], ops)
  {
  }

  lemma {:induction false} TicksAreSweeps(moves: seq<Move>, ops: seq<Op>)
    requires |moves| == |ops| && Matching(moves, ops)
    ensures Ticks(moves) == Sweeps(ops)
  {
    if ops != [] {
      TicksAreSweeps(moves[1..], ops[1..]);
    }
  }

  /** Everything there is to the scheduler. */
  datatype Machine = Machine(minds: Minds, wheel: Wheel)

  /** The first waiting event, if any, has put its creature on its list. */
  ghost function Inserted(m: Machine): Machine {
    if m.minds.pending == [] || m.minds.pending[0].index >= |m.wheel.lists| then m
    else
      var p, lists := m.minds.pending[0], m.wheel.lists;
      Machine(m.minds.(pending := m.minds.pending[1..]),
              m.wheel.(lists := lists[p.index := lists[p.index] + [p.creature]]))
  }

  /** The event that waits longest puts its creature last on its list; the others go on waiting, and no flag changes. */
  lemma InsertedIsListed(m: Machine)
    requires m.minds.pending != [] && m.minds.pending[0].index < |m.wheel.lists|
    ensures var n, p := Inserted(m), m.minds.pending[0];
            && n.wheel.index == m.wheel.index && |n.wheel.lists| == |m.wheel.lists|
            && n.wheel.lists[p.index] == m.wheel.lists[p.index] + [p.creature]
            && (forall i | 0 <= i < |m.wheel.lists| && i != p.index :: n.wheel.lists[i] == m.wheel.lists[i])
            && m.minds.pending == [p] + n.minds.pending
            && n.minds.flags == m.minds.flags && n.minds.expired == m.minds.expired
  {
  }

  ghost function Operated(m: Machine, op: Op): (Machine, Move) {
    match op
    case Doing(a) => (m.(minds := Acted(m.minds, a)), Other)
    case Inserting => (Inserted(m), Other)
    case Sweeping(scripts) =>
      if m.wheel.index >= |m.wheel.lists| then (m, Other)
      else
        var list := m.wheel.lists[m.wheel.index];
        var thought := Thought(m.minds, list, scripts, |list|);
        (Machine(MindsAfter(m.minds, list, scripts, |list|),
                 Wheel(m.wheel.lists[m.wheel.index := thought], Next(m.wheel.index))), Tick(thought))
  }

  ghost function OperatedAll(m: Machine, ops: seq<Op>): (Machine, seq<Move>) {
    if ops == [] then (m, [])
    else
      var n := |ops| - 1;
      var before := OperatedAll(m, ops[..n]);
      var step := Operated(before.0, ops[n]);
      (step.0, before.1 + [step.1])
  }

  // ---------------------------------------------------------------- the scheduler

  /** The creatures that are flagged as being on a list. */
  ghost function Listed(all: set<Creature>): set<Creature>
    reads all
  {
    set c | c in all && c.listed
  }

  /** A creature that still exists is flagged exactly when it has its one entry, on a list or waiting. */
  ghost predicate Tally(all: set<Creature>, listed: set<Creature>, entries: multiset<Creature>,
                        dropped: multiset<Creature>, expired: set<Creature>) {
    && (forall c {:trigger entries[c]} :: c in entries ==> c in all)
    && (forall c {:trigger Counted(c, listed, entries, dropped)} ::
       c in all && c !in expired ==> Counted(c, listed, entries, dropped))
  }

  ghost predicate Counted(c: Creature, listed: set<Creature>, entries: multiset<Creature>,
                          dropped: multiset<Creature>) {
    entries[c] == (if c in listed then 1 else 0) + dropped[c]
  }

  /** Everybody on the list thought or was passed over. */
  ghost predicate Divided(list: seq<Creature>, thought: seq<Creature>, dropped: multiset<Creature>) {
    multiset(thought) + dropped == multiset(list)
  }

  lemma VisitedNext(was: Minds, list: seq<Creature>, scripts: seq<seq<Action>>, i: nat, thought: seq<Creature>,
                    passed: multiset<Creature>, dropped: multiset<Creature>)
    requires i < |list| && Divided(list[..i], thought, passed) && thought == Thought(was, list, scripts, i)
    requires dropped == if Awake(MindsAfter(was, list, scripts, i), list[i]) then passed else passed + multiset{list[i]}
    ensures Divided(list[..i + 1], Thought(was, list, scripts, i + 1), dropped)
    ensures Thought(was, list, scripts, i + 1)
            == if Awake(MindsAfter(was, list, scripts, i), list[i]) then thought + [list[i]] else thought
  {
    assert list[..i + 1] == list[..i] + [list[i]];
  }

  lemma TallyAdd(all: set<Creature>, listed: set<Creature>, entries: multiset<Creature>, dropped: multiset<Creature>,
                 expired: set<Creature>, x: Creature)
    requires Tally(all, listed, entries, dropped, expired) && x in all && x !in listed
    ensures Tally(all, listed + {x}, entries + multiset{x}, dropped, expired)
  {
    forall c | c in all && c !in expired ensures Counted(c, listed + {x}, entries + multiset{x}, dropped) {
      assert Counted(c, listed, entries, dropped);
    }
  }

  lemma TallyPass(all: set<Creature>, listed: set<Creature>, entries: multiset<Creature>, dropped: multiset<Creature>,
                  expired: set<Creature>, x: Creature)
    requires Tally(all, listed, entries, dropped, expired) && (x in expired || x in listed)
    ensures Tally(all, if x in expired then listed else listed - {x}, entries, dropped + multiset{x}, expired)
  {
    forall c | c in all && c !in expired
      ensures Counted(c, if x in expired then listed else listed - {x}, entries, dropped + multiset{x})
    {
      assert Counted(c, listed, entries, dropped);
    }
  }

  lemma TallyErase(all: set<Creature>, listed: set<Creature>, entries: multiset<Creature>, dropped: multiset<Creature>,
                   expired: set<Creature>)
    requires Tally(all, listed, entries, dropped, expired) && dropped <= entries
    ensures Tally(all, listed, entries - dropped, multiset{}, expired)
  {
    forall c | c in all && c !in expired ensures Counted(c, listed, entries - dropped, multiset{}) {
      assert Counted(c, listed, entries, dropped);
    }
    forall c | c in entries - dropped ensures c in all {
      assert c in entries;
    }
  }

  lemma EntriesErased(all: set<Creature>, listed: set<Creature>, entries: multiset<Creature>,
                      dropped: multiset<Creature>, expired: set<Creature>, lists: seq<seq<Creature>>,
                      pending: seq<Insert>, i: nat, list: seq<Creature>)
    returns (left: multiset<Creature>)
    requires Tally(all, listed, entries, dropped, expired) && entries == Everyone(lists, pending)
    requires i < |lists| && Divided(lists[i], list, dropped)
    ensures Tally(all, listed, left, multiset{}, expired) && left == Everyone(lists[i := list], pending)
  {
    EntriesLess(lists, pending, i, list, dropped);
    TallyErase(all, listed, entries, dropped, expired);
    left := entries - dropped;
  }

  lemma TallyExpire(all: set<Creature>, listed: set<Creature>, entries: multiset<Creature>, dropped: multiset<Creature>,
                    expired: set<Creature>, x: Creature)
    requires Tally(all, listed, entries, dropped, expired)
    ensures Tally(all, listed, entries, dropped, expired + {x})
  {
    forall c | c in all && c !in expired + {x} ensures Counted(c, listed, entries, dropped) {
    }
  }

  class CheckLists {
    var lists: seq<seq<Creature>>
    var pending: seq<Insert>
    var index: nat
    /** Creatures that no longer exist; the lists hold weak references. */
    var expired: set<Creature>
    /** Everything on a list or waiting to be. */
    ghost var entries: multiset<Creature>
    /** Entries the sweep under way has passed over and will erase at its end. */
    ghost var dropped: multiset<Creature>

    constructor (ghost all: set<Creature>)
      requires forall c <- all :: !c.listed
      ensures Valid(all) && dropped == multiset{} && entries == multiset{}
    {
      lists := seq(EVENT_CREATURECOUNT, _ => []);
      pending, index, expired, dropped, entries := [], 0, {}, multiset{}, multiset{};
      new;
      BagNone(lists);
    }

    function Now(): Wheel
      reads this`lists, this`index
    {
      Wheel(lists, index)
    }

    ghost predicate Valid(all: set<Creature>)
      reads this, all
    {
      && |lists| == EVENT_CREATURECOUNT && index < EVENT_CREATURECOUNT
      && (forall p <- pending :: p.index < EVENT_CREATURECOUNT && p.creature !in expired)
      && entries == Everyone(lists, pending)
      && Tally(all, Listed(all), entries, dropped, expired)
    }

    ghost function Mind(all: set<Creature>): Minds
      reads this`pending, this`expired, all
    {
      Minds(map c | c in all :: Flags(c.checked, c.listed, c.alive, c.removed), pending, expired)
    }

    ghost function Whole(all: set<Creature>): Machine
      reads this`pending, this`expired, this`lists, this`index, all
    {
      Machine(Mind(all), Now())
    }

    /** `addCreatureCheck`; which list is chosen is random. */
    method AddCreatureCheck(creature: Creature, index: nat, ghost all: set<Creature>)
      requires Valid(all) && creature in all && creature !in expired && index < EVENT_CREATURECOUNT
      modifies this`pending, this`entries, creature`checked, creature`listed
      ensures Valid(all) && Mind(all) == Acted(old(Mind(all)), AddCheck(creature, index))
      ensures if creature.removed then pending == old(pending) && unchanged(creature)
              else creature.checked && creature.listed
                   && pending == if old(creature.listed) then old(pending) else old(pending) + [Insert(index, creature)]
    {
      if creature.removed {
        return;
      }
      creature.checked := true;
      assert Listed(all) == old(Listed(all));
      if creature.listed {
        return;
      }
      creature.listed := true;
      EntriesAdd(lists, pending, Insert(index, creature));
      TallyAdd(all, old(Listed(all)), entries, dropped, expired, creature);
      assert Listed(all) == old(Listed(all)) + {creature};
      pending, entries := pending + [Insert(index, creature)], entries + multiset{creature};
    }

    /** `removeCreatureCheck`. */
    method RemoveCreatureCheck(creature: Creature, ghost all: set<Creature>)
      requires Valid(all) && creature in all && creature !in expired
      modifies creature`checked
      ensures Valid(all) && creature.checked == (old(creature.checked) && !creature.listed)
      ensures Mind(all) == Acted(old(Mind(all)), RemoveCheck(creature))
    {
      creature.RemoveCreatureCheck();
      assert Listed(all) == old(Listed(all));
    }

    /** The next waiting event runs: the creature is put on its list, whatever became of it meanwhile. */
    method RunInsert(ghost all: set<Creature>)
      requires Valid(all) && pending != []
      modifies this`lists, this`pending
      ensures Valid(all)
      ensures pending == old(pending)[1..]
      ensures var p := old(pending)[0]; lists == old(lists)[p.index := old(lists)[p.index] + [p.creature]]
      ensures forall c | c in all && c !in expired && c in Bag(old(lists)) && dropped[c] == 0 ::
              Steps(old(Now()), Now(), Other, c)
    {
      InsertSteps(all);
      Place(all);
    }

    method Place(ghost all: set<Creature>)
      requires Valid(all) && pending != []
      modifies this`lists, this`pending
      ensures Valid(all)
      ensures pending == old(pending)[1..]
      ensures var p := old(pending)[0]; lists == old(lists)[p.index := old(lists)[p.index] + [p.creature]]
    {
      var p := pending[0];
      EntriesMove(lists, pending);
      lists, pending := lists[p.index := lists[p.index] + [p.creature]], pending[1..];
      assert Listed(all) == old(Listed(all));
    }

    /** One thing a creature does while it thinks. */
    method Act(a: Action, ghost all: set<Creature>)
      requires Valid(all) && About([a], all)
      modifies this`pending, this`entries, this`expired, a.creature
      ensures Valid(all) && Mind(all) == Acted(old(Mind(all)), a)
    {
      assert a in [a];
      if a.creature in expired {
        return;
      }
      match a
      case AddCheck(c, i) => AddCreatureCheck(c, i, all);
      case RemoveCheck(c) => RemoveCreatureCheck(c, all);
      case Die(c) => Die(c, all);
      case Remove(c) => Remove(c, all);
      case Destroy(c) => Destroy(c, all);
    }

    method Die(creature: Creature, ghost all: set<Creature>)
      requires Valid(all) && creature in all && creature !in expired
      modifies creature`alive
      ensures Valid(all) && !creature.alive
      ensures Mind(all) == Acted(old(Mind(all)), Action.Die(creature))
    {
      creature.alive := false;
      assert Listed(all) == old(Listed(all));
    }

    /** The end of `removeCreature`. */
    method Remove(creature: Creature, ghost all: set<Creature>)
      requires Valid(all) && creature in all && creature !in expired
      modifies creature`removed, creature`checked
      ensures Valid(all) && creature.removed && creature.checked == (old(creature.checked) && !creature.listed)
      ensures Mind(all) == Acted(old(Mind(all)), Action.Remove(creature))
    {
      creature.removed := true;
      creature.RemoveCreatureCheck();
      assert Listed(all) == old(Listed(all));
    }

    /** The last reference goes; an event that waits still holds one. */
    method Destroy(creature: Creature, ghost all: set<Creature>)
      requires Valid(all) && creature in all && creature !in expired
      modifies this`expired
      ensures Valid(all)
      ensures expired == if creature in Waiters(pending) then old(expired) else old(expired) + {creature}
      ensures Mind(all) == Acted(old(Mind(all)), Action.Destroy(creature))
    {
      if creature !in Waiters(pending) {
        TallyExpire(all, Listed(all), entries, dropped, expired, creature);
        expired := expired + {creature};
      }
    }

    /** Everything a creature does while it thinks. */
    method Perform(script: seq<Action>, ghost all: set<Creature>)
      requires Valid(all) && About(script, all)
      modifies this`pending, this`entries, this`expired, all
      ensures Valid(all) && Mind(all) == ActedAll(old(Mind(all)), script)
    {
      var i := 0;
      while i < |script|
        invariant 0 <= i <= |script| && Valid(all) && Mind(all) == ActedAll(old(Mind(all)), script[..i])
      {
        assert script[i] in script && script[..i + 1][..i] == script[..i];
        Act(script[i], all);
        i := i + 1;
      }
      assert script[..i] == script;
    }

    /** The creatures that think, are on a list, and that nothing in `ops` disturbs. */
    ghost function Thinkers(ops: seq<Op>, all: set<Creature>): set<Creature>
      reads this, all
    {
      set c | c in all && c.checked && c.alive && c !in expired && Somewhere(Now(), c) && AllSpare(ops, c)
    }

    /** Any operations in a row: whoever nothing disturbs thinks exactly once in ten ticks. */
    method Drive(ops: seq<Op>, ghost all: set<Creature>) returns (moves: seq<Move>, ghost states: seq<Wheel>)
      requires Valid(all) && dropped == multiset{} && forall op <- ops :: Allowed(op, all)
      modifies this, all
      ensures Valid(all) && dropped == multiset{} && Ticks(moves) == Sweeps(ops)
      ensures (Whole(all), moves) == OperatedAll(old(Whole(all)), ops)
      ensures forall c <- old(Thinkers(ops, all)) ::
                c.checked && c.alive && c !in expired && Somewhere(Now(), c) && Run(states, moves, c)
      ensures states != [] && states[0] == old(Now()) && states[|states| - 1] == Now()
      ensures Sweeps(ops) == EVENT_CREATURECOUNT ==> forall c <- old(Thinkers(ops, all)) :: Thoughts(moves, c) == 1
    {
      ghost var thinkers := Thinkers(ops, all);
      moves, states := [], [Now()];
      var i := 0;
      while i < |ops|
        invariant 0 <= i <= |ops| && Valid(all) && dropped == multiset{}
        invariant |moves| == i && |states| == i + 1 && states[0] == old(Now()) && states[i] == Now()
        invariant Matching(moves, ops)
        invariant (Whole(all), moves) == OperatedAll(old(Whole(all)), ops[..i])
        invariant forall c <- thinkers ::
                  Awake(Mind(all), c) && c in all && Somewhere(Now(), c) && Run(states, moves, c)
      {
        assert Allowed(ops[i], all);
        forall c | c in thinkers ensures Spares(ops[i], c) {
          assert AllSpare(ops, c);
        }
        assert ops[..i + 1][..i] == ops[..i];
        var move := Operate(ops[i], all);
        RunSteps(states, moves, Now(), move, thinkers);
        MatchingStep(moves, ops, move);
        moves, states := moves + [move], states + [Now()];
        i := i + 1;
      }
      assert ops[..i] == ops;
      TicksAreSweeps(moves, ops);
      if Ticks(moves) == EVENT_CREATURECOUNT {
        ThinkOnce(states, moves, thinkers);
      }
    }

    method Operate(op: Op, ghost all: set<Creature>) returns (move: Move)
      requires Valid(all) && dropped == multiset{} && Allowed(op, all)
      modifies this, all
      ensures Valid(all) && dropped == multiset{} && (move.Tick? <==> op.Sweeping?)
      ensures (Whole(all), move) == Operated(old(Whole(all)), op)
      ensures forall c {:trigger Spares(op, c)} ::
              c in all && Awake(old(Mind(all)), c) && Somewhere(old(Now()), c) && Spares(op, c) ==>
                Awake(Mind(all), c) && Steps(old(Now()), Now(), move, c)
    {
      match op
      case Doing(a) =>
        ghost var was := Mind(all);
        Act(a, all);
        forall c | Spares(op, c) && c in all ensures Awake(was, c) ==> Awake(Mind(all), c) {
          assert [a][..0] == [];
          ActedQuiet(was, [a], c);
        }
        move := Other;
      case Inserting =>
        InsertNext(all);
        move := Other;
      case Sweeping(scripts) =>
        var thought := CheckCreatures(scripts, all);
        move := Tick(thought);
    }

    /** The next waiting event, if there is one, runs. */
    method InsertNext(ghost all: set<Creature>)
      requires Valid(all) && dropped == multiset{}
      modifies this`lists, this`pending
      ensures Valid(all) && Whole(all) == Inserted(old(Whole(all)))
      ensures forall c | c in all && c !in expired && Somewhere(old(Now()), c) :: Steps(old(Now()), Now(), Other, c)
    {
      if pending != [] {
        forall c | Somewhere(Now(), c) ensures c in Bag(lists) {
          SomewhereInBag(Now(), c);
        }
        RunInsert(all);
      }
    }

    /**
     `checkCreatures`: sweeps the list whose turn it is. A creature on it that is alive and checked thinks, and stays;
     every other is erased once the sweep is over. `scripts` says what the creatures do while they think.
     */
    method CheckCreatures(scripts: seq<seq<Action>>, ghost all: set<Creature>) returns (thought: seq<Creature>)
      requires Valid(all) && dropped == multiset{} && forall script <- scripts :: About(script, all)
      modifies this, all
      ensures Valid(all) && dropped == multiset{}
      ensures index == Next(old(index)) && lists == old(lists)[old(index) := thought]
      ensures multiset(thought) <= multiset(old(lists)[old(index)])
      ensures var list := old(lists[index]);
              Mind(all) == MindsAfter(old(Mind(all)), list, scripts, |list|)
              && thought == Thought(old(Mind(all)), list, scripts, |list|)
      ensures forall c {:trigger Steady(scripts, c)} ::
              c in all && old(c.checked && c.alive && c !in expired) && Steady(scripts, c) ==>
                c.checked && c.alive && c !in expired && Steps(old(Now()), Now(), Tick(thought), c)
                && multiset(thought)[c] == multiset(old(lists[index]))[c]
      ensures forall c {:trigger Asleep(scripts, c)} ::
              c in all && old(c !in expired && (!c.checked || !c.alive)) && Asleep(scripts, c)
                && c in old(lists[index]) ==>
                c !in thought && !c.listed
    {
      Turned(Mind(all), Now(), scripts);
      thought := SweepList(scripts, all);
    }

    /** The sweep, and the turn to the next list. */
    method SweepList(scripts: seq<seq<Action>>, ghost all: set<Creature>) returns (thought: seq<Creature>)
      requires Valid(all) && dropped == multiset{} && forall script <- scripts :: About(script, all)
      modifies this, all
      ensures Valid(all) && dropped == multiset{}
      ensures index == Next(old(index)) && lists == old(lists)[old(index) := thought]
      ensures multiset(thought) <= multiset(old(lists[index]))
      ensures var list := old(lists[index]);
              Mind(all) == MindsAfter(old(Mind(all)), list, scripts, |list|)
              && thought == Thought(old(Mind(all)), list, scripts, |list|)
    {
      ghost var was, list := Mind(all), lists[index];
      thought := Sweep(lists[index], scripts, all);
      SweepIs(was, list, scripts, |list|, Mind(all), thought);
      ghost var now := Mind(all);
      Erase(thought, all);
      assert Mind(all) == now;
    }

    method Sweep(list: seq<Creature>, scripts: seq<seq<Action>>, ghost all: set<Creature>)
      returns (thought: seq<Creature>)
      requires Valid(all) && dropped == multiset{} && list == lists[index]
      requires forall script <- scripts :: About(script, all)
      modifies this`pending, this`entries, this`expired, this`dropped, all
      ensures Valid(all) && Divided(list, thought, dropped)
      ensures SweptTo(old(Mind(all)), list, scripts, |list|, Mind(all), thought)
    {
      ghost var was := Mind(all);
      SweepStarts(was, list, scripts);
      var i := 0;
      thought := [];
      while i < |list|
        invariant 0 <= i <= |list| && Valid(all) && Divided(list[..i], thought, dropped)
        invariant SweptTo(was, list, scripts, i, Mind(all), thought)
      {
        assert i < |scripts| ==> scripts[i] in scripts;
        thought := VisitNext(was, list, scripts, i, thought, all);
        i := i + 1;
      }
      assert list[..i] == list;
    }

    /** The next entry of the list. */
    method VisitNext(ghost was: Minds, list: seq<Creature>, scripts: seq<seq<Action>>, i: nat, thought: seq<Creature>,
                     ghost all: set<Creature>)
      returns (thought': seq<Creature>)
      requires Valid(all) && list == lists[index] && i < |list| && Divided(list[..i], thought, dropped)
      requires SweptTo(was, list, scripts, i, Mind(all), thought)
      requires About(ScriptAt(scripts, i), all)
      modifies this`pending, this`entries, this`expired, this`dropped, all
      ensures Valid(all) && Divided(list[..i + 1], thought', dropped)
      ensures SweptTo(was, list, scripts, i + 1, Mind(all), thought')
    {
      SweepIs(was, list, scripts, i, Mind(all), thought);
      StillListed(list, i, thought, all);
      ghost var passed := dropped;
      var thinks := Visit(list[i], ScriptAt(scripts, i), all);
      thought' := if thinks then thought + [list[i]] else thought;
      VisitedNext(was, list, scripts, i, thought, passed, dropped);
    }

    /** One entry of the list: the creature thinks, or its entry is passed over. */
    method Visit(creature: Creature, script: seq<Action>, ghost all: set<Creature>) returns (thinks: bool)
      requires Valid(all) && creature in all && (creature !in expired ==> creature.listed) && About(script, all)
      modifies this`pending, this`entries, this`expired, this`dropped, all
      ensures Valid(all) && thinks == old(creature.checked && creature.alive && creature !in expired)
      ensures thinks == Awake(old(Mind(all)), creature)
      ensures dropped == if thinks then old(dropped) else old(dropped) + multiset{creature}
      ensures Mind(all) == Visited(old(Mind(all)), creature, script)
    {
      if creature !in expired && creature.checked && creature.alive {
        Perform(script, all);
        return true;
      }
      PassOver(creature, all);
      return false;
    }

    /** Whoever the sweep still has to come to is on the list, and not yet passed over. */
    lemma StillListed(list: seq<Creature>, i: nat, thought: seq<Creature>, all: set<Creature>)
      requires Valid(all) && list == lists[index] && i < |list| && Divided(list[..i], thought, dropped)
      ensures list[i] in all && (list[i] !in expired ==> list[i].listed)
    {
      var c := list[i];
      BagHas(lists, index);
      assert list == list[..i] + [c] + list[i + 1..];
      assert multiset(list) == multiset(list[..i]) + multiset{c} + multiset(list[i + 1..]);
      assert entries[c] >= dropped[c] + 1;
      assert c in entries;
      assert c !in expired ==> Counted(c, Listed(all), entries, dropped);
    }

    /** An entry the sweep erases; the creature, if there still is one, is told. */
    method PassOver(creature: Creature, ghost all: set<Creature>)
      requires Valid(all) && creature in all && (creature !in expired ==> creature.listed)
      modifies this`dropped, creature`listed
      ensures Valid(all) && dropped == old(dropped) + multiset{creature}
      ensures Mind(all) == if creature in expired then old(Mind(all))
                           else Flagged(old(Mind(all)), creature, old(Mind(all)).flags[creature].(listed := false))
    {
      TallyPass(all, Listed(all), entries, dropped, expired, creature);
      if creature !in expired {
        Unlist(creature, all);
      }
      dropped := dropped + multiset{creature};
    }

    method Unlist(creature: Creature, ghost all: set<Creature>)
      requires creature in all
      modifies creature`listed
      ensures Listed(all) == old(Listed(all)) - {creature}
      ensures Mind(all) == Flagged(old(Mind(all)), creature, old(Mind(all)).flags[creature].(listed := false))
    {
      creature.listed := false;
    }

    /** The end of the sweep. */
    method Erase(thought: seq<Creature>, ghost all: set<Creature>)
      requires Valid(all) && Divided(lists[index], thought, dropped)
      modifies this`lists, this`index, this`dropped, this`entries
      ensures Valid(all) && dropped == multiset{}
      ensures index == Next(old(index)) && lists == old(lists)[old(index) := thought]
    {
      ghost var left := EntriesErased(all, Listed(all), entries, dropped, expired, lists, pending, index, thought);
      Turn(thought, left, all);
    }

    method Turn(thought: seq<Creature>, ghost left: multiset<Creature>, ghost all: set<Creature>)
      requires |lists| == EVENT_CREATURECOUNT && index < EVENT_CREATURECOUNT
      requires forall p <- pending :: p.index < EVENT_CREATURECOUNT && p.creature !in expired
      requires Tally(all, Listed(all), left, multiset{}, expired) && left == Everyone(lists[index := thought], pending)
      modifies this`lists, this`index, this`dropped, this`entries
      ensures Valid(all) && dropped == multiset{}
      ensures index == Next(old(index)) && lists == old(lists)[old(index) := thought]
    {
      lists := lists[index := thought];
      entries, dropped := left, multiset{};
      index := Next(index);
      assert Listed(all) == old(Listed(all));
    }

    /** Between sweeps a creature is flagged if and only if it has exactly one entry, waiting or on one list. */
    lemma ListedOnce(all: set<Creature>, c: Creature)
      requires Valid(all) && dropped == multiset{} && c in all && c !in expired
      ensures c.listed <==> Waiting(pending)[c] + Bag(lists)[c] == 1
      ensures !c.listed <==> Waiting(pending)[c] + Bag(lists)[c] == 0
      ensures c.listed && c !in Waiters(pending) ==> exists b :: On(Now(), c, b)
    {
      assert Counted(c, Listed(all), entries, dropped);
      WaitingHas(pending, c);
      if c.listed && c !in Waiters(pending) {
        var b := BagOne(lists, c);
        assert On(Now(), c, b);
      }
    }

    /** Nobody who is on a list is waiting to be put on one. */
    lemma InsertSteps(all: set<Creature>)
      requires Valid(all) && pending != []
      ensures forall c | c in all && c !in expired && c in Bag(lists) && dropped[c] == 0 :: StepsTo(pending[0], c)
    {
      var p := pending[0];
      assert entries[p.creature] >= Bag(lists)[p.creature] + 1;
      assert Counted(p.creature, Listed(all), entries, dropped);
      forall c | c in all && c !in expired && c in Bag(lists) && dropped[c] == 0 ensures StepsTo(p, c) {
        assert Counted(c, Listed(all), entries, dropped);
        AddSteps(Now(), p.index, p.creature, c);
      }
    }

    ghost predicate StepsTo(p: Insert, c: Creature)
      requires p.index < |lists|
      reads this
    {
      Steps(Now(), Wheel(lists[p.index := lists[p.index] + [p.creature]], index), Other, c)
    }
  }

  /** Putting one creature on a list is no step for another. */
  lemma AddSteps(s: Wheel, i: nat, x: Creature, c: Creature)
    requires |s.lists| == EVENT_CREATURECOUNT && s.index < EVENT_CREATURECOUNT && i < EVENT_CREATURECOUNT && x != c
    ensures Steps(s, Wheel(s.lists[i := s.lists[i] + [x]], s.index), Other, c)
  {
  }
}
