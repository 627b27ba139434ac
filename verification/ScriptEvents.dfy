/**
 The script events registered with a creature: a list, and a 32-bit word that says which types are on it, so
 that events of other types are found missing without a look at the list.
 */
module ScriptEvents {
  import opened Common

  /** Event types index the bits of a 32-bit word. */
  type EventType = t: nat | t < 32

  /** An event; two events are the same when they have the same id. */
  datatype Event = Event(id: nat, eventType: EventType)

  /** A 32-bit word. */
  type Word = w: nat | w < U32

  /** `bits & (1 << t)` is not zero. */
  predicate IsSet(bits: nat, t: nat) {
    if t == 0 then bits % 2 == 1 else IsSet(bits / 2, t - 1)
  }

  /** `bits | (1 << t)`. */
  function SetBit(bits: nat, t: nat): nat {
    if t == 0 then bits / 2 * 2 + 1 else SetBit(bits / 2, t - 1) * 2 + bits % 2
  }

  /** `bits & ~(1 << t)`. */
  function ClearBit(bits: nat, t: nat): nat {
    if t == 0 then bits / 2 * 2 else ClearBit(bits / 2, t - 1) * 2 + bits % 2
  }

  /** Setting the bit of one type touches no other. */
  lemma {:induction false} SetBitIsSet(bits: nat, t: nat, u: nat)
    ensures IsSet(SetBit(bits, t), u) <==> u == t || IsSet(bits, u)
  {
    if t > 0 && u > 0 {
      SetBitIsSet(bits / 2, t - 1, u - 1);
      assert SetBit(bits, t) / 2 == SetBit(bits / 2, t - 1);
    } else if u > 0 {
      assert SetBit(bits, t) / 2 == bits / 2;
    }
  }

  /** Clearing the bit of one type touches no other. */
  lemma {:induction false} ClearBitIsSet(bits: nat, t: nat, u: nat)
    ensures IsSet(ClearBit(bits, t), u) <==> u != t && IsSet(bits, u)
  {
    if t > 0 && u > 0 {
      ClearBitIsSet(bits / 2, t - 1, u - 1);
      assert ClearBit(bits, t) / 2 == ClearBit(bits / 2, t - 1);
    } else if u > 0 {
      assert ClearBit(bits, t) / 2 == bits / 2;
    }
  }

  function Power(n: nat): nat {
    if n == 0 then 1 else 2 * Power(n - 1)
  }

  lemma {:induction false} PowerAdd(a: nat, b: nat)
    ensures Power(a + b) == Power(a) * Power(b)
  {
    if a > 0 {
      PowerAdd(a - 1, b);
    }
  }

  lemma WordPower()
    ensures Power(32) == U32
  {
    assert Power(4) == 16;
    PowerAdd(4, 4);
    PowerAdd(8, 8);
    PowerAdd(16, 16);
  }

  lemma {:induction false} NothingSet(t: nat)
    ensures !IsSet(0, t)
  {
    if t > 0 {
      NothingSet(t - 1);
    }
  }

  lemma {:induction false} WordStays(bits: nat, t: nat, n: nat)
    requires bits < Power(n) && t < n
    ensures SetBit(bits, t) < Power(n) && ClearBit(bits, t) < Power(n)
  {
    if t > 0 {
      WordStays(bits / 2, t - 1, n - 1);
    }
  }

  /** The bits of a type set and cleared in a word; the word stays one. */
  function WithBit(bits: Word, t: EventType): (r: Word)
    ensures forall u: EventType :: IsSet(r, u) <==> u == t || IsSet(bits, u)
  {
    WordPower();
    WordStays(bits, t, 32);
    assert forall u: EventType :: IsSet(SetBit(bits, t), u) <==> u == t || IsSet(bits, u) by {
      forall u: EventType {
        SetBitIsSet(bits, t, u);
      }
    }
    SetBit(bits, t)
  }

  function WithoutBit(bits: Word, t: EventType): (r: Word)
    ensures forall u: EventType :: IsSet(r, u) <==> u != t && IsSet(bits, u)
  {
    WordPower();
    WordStays(bits, t, 32);
    assert forall u: EventType :: IsSet(ClearBit(bits, t), u) <==> u != t && IsSet(bits, u) by {
      forall u: EventType {
        ClearBitIsSet(bits, t, u);
      }
    }
    ClearBit(bits, t)
  }

  /** The events of one type, in order. */
  function Filter(events: seq<Event>, t: EventType): seq<Event> {
    if events == [] then []
    else (if events[0].eventType == t then [events[0]] else []) + Filter(events[1..], t)
  }

  /** The events other than one, in order. */
  function Without(events: seq<Event>, event: Event): seq<Event> {
    if events == [] then []
    else (if events[0] == event then [] else [events[0]]) + Without(events[1..], event)
  }

  lemma {:induction false} FilterAdd(events: seq<Event>, e: Event, t: EventType)
    ensures Filter(events + [e], t) == Filter(events, t) + if e.eventType == t then [e] else []
  {
    if events != [] {
      assert (events + [e])[1..] == events[1..] + [e];
      FilterAdd(events[1..], e, t);
    }
  }

  lemma {:induction false} WithoutAdd(events: seq<Event>, e: Event, event: Event)
    ensures Without(events + [e], event) == Without(events, event) + if e == event then [] else [e]
  {
    if events != [] {
      assert (events + [e])[1..] == events[1..] + [e];
      WithoutAdd(events[1..], e, event);
    }
  }

  lemma {:induction false} WithoutHas(events: seq<Event>, event: Event)
    ensures forall e :: e in Without(events, event) <==> e in events && e != event
    ensures Distinct(events) ==> Distinct(Without(events, event))
  {
    if events != [] {
      WithoutHas(events[1..], event);
      if Distinct(events) {
        assert events[0] !in events[1..];
        var rest, r := Without(events[1..], event), Without(events, event);
        assert r == rest || r == [events[0]] + rest;
      }
    }
  }

  lemma {:induction false} FilterNone(events: seq<Event>, t: EventType)
    requires forall e <- events :: e.eventType != t
    ensures Filter(events, t) == []
  {
    if events != [] {
      FilterNone(events[1..], t);
    }
  }

  /** The types on a list are exactly the bits that are set. */
  ghost predicate Indexed(events: seq<Event>, bits: Word) {
    forall t: EventType {:trigger IsSet(bits, t)} :: IsSet(bits, t) <==> exists e <- events :: e.eventType == t
  }

  lemma RegisteredIndexed(events: seq<Event>, bits: Word, e: Event)
    requires Indexed(events, bits)
    ensures Indexed(events + [e], if IsSet(bits, e.eventType) then bits else WithBit(bits, e.eventType))
  {
    var after := if IsSet(bits, e.eventType) then bits else WithBit(bits, e.eventType);
    forall t: EventType ensures IsSet(after, t) <==> exists f <- events + [e] :: f.eventType == t {
      assert e in events + [e];
      assert IsSet(bits, t) <==> exists f <- events :: f.eventType == t;
    }
  }

  lemma RemovedIndexed(events: seq<Event>, bits: Word, e: Event)
    requires Indexed(events, bits)
    ensures var left := Without(events, e);
            Indexed(left, if forall f <- left :: f.eventType != e.eventType then WithoutBit(bits, e.eventType)
              else bits)
  {
    var left := Without(events, e);
    var after := if forall f <- left :: f.eventType != e.eventType then WithoutBit(bits, e.eventType) else bits;
    WithoutHas(events, e);
    forall t: EventType ensures IsSet(after, t) <==> exists f <- left :: f.eventType == t {
      assert IsSet(bits, t) <==> exists f <- events :: f.eventType == t;
      assert t != e.eventType ==> ((exists f <- left :: f.eventType == t) <==> exists f <- events :: f.eventType == t);
    }
  }

  class EventIndex {
    /** The events scripts have defined, by name. */
    const events: map<string, Event>
    var eventsList: seq<Event>
    var scriptEventsBitField: Word

    ghost predicate Valid()
      reads this
    {
      Distinct(eventsList) && Indexed(eventsList, scriptEventsBitField)
    }

    constructor (events: map<string, Event>)
      ensures this.events == events && eventsList == [] && Valid()
    {
      this.events, eventsList, scriptEventsBitField := events, [], 0;
      forall t: EventType ensures !IsSet(0, t) {
        NothingSet(t);
      }
    }

    /** `hasEventRegistered`. */
    predicate HasEventRegistered(t: EventType)
      reads this
    {
      IsSet(scriptEventsBitField, t)
    }

    /** `registerCreatureEvent`. */
    method RegisterCreatureEvent(name: string) returns (ok: bool)
      requires Valid()
      modifies this
      ensures Valid()
      ensures ok <==> name in events && events[name] !in old(eventsList)
      ensures eventsList == if ok then old(eventsList) + [events[name]] else old(eventsList)
    {
      if name !in events {
        return false;
      }
      var event := events[name];
      if HasEventRegistered(event.eventType) {
        var i := 0;
        while i < |eventsList|
          invariant 0 <= i <= |eventsList| && event !in eventsList[..i]
        {
          if eventsList[i] == event {
            return false;
          }
          i := i + 1;
        }
        assert eventsList[..i] == eventsList;
      } else {
        scriptEventsBitField := WithBit(scriptEventsBitField, event.eventType);
      }
      RegisteredIndexed(eventsList, old(scriptEventsBitField), event);
      eventsList := eventsList + [event];
      return true;
    }

    /** `unregisterCreatureEvent`. */
    method UnregisterCreatureEvent(name: string) returns (ok: bool)
      requires Valid()
      modifies this
      ensures Valid()
      ensures ok <==> name in events && exists e <- old(eventsList) :: e.eventType == events[name].eventType
      ensures eventsList == if ok then Without(old(eventsList), events[name]) else old(eventsList)
    {
      if name !in events {
        return false;
      }
      var event := events[name];
      if !HasEventRegistered(event.eventType) {
        return false;
      }
      var resetTypeBit := true;
      var list, i, kept := eventsList, 0, [];
      while i < |list|
        invariant eventsList == list && scriptEventsBitField == old(scriptEventsBitField)
        invariant 0 <= i <= |list| && kept == Without(list[..i], event)
        invariant resetTypeBit <==> forall e <- kept :: e.eventType != event.eventType
      {
        assert list[..i + 1] == list[..i] + [list[i]];
        WithoutAdd(list[..i], list[i], event);
        if list[i] != event {
          kept := kept + [list[i]];
          if list[i].eventType == event.eventType {
            resetTypeBit := false;
          }
        }
        i := i + 1;
      }
      assert list[..i] == list;
      WithoutHas(list, event);
      RemovedIndexed(list, scriptEventsBitField, event);
      eventsList := kept;
      if resetTypeBit {
        scriptEventsBitField := WithoutBit(scriptEventsBitField, event.eventType);
      }
      return true;
    }

    /** `getCreatureEvents`. */
    method GetCreatureEvents(t: EventType) returns (found: seq<Event>)
      requires Valid()
      ensures found == Filter(eventsList, t)
    {
      found := [];
      if !HasEventRegistered(t) {
        FilterNone(eventsList, t);
        return;
      }
      var i := 0;
      while i < |eventsList|
        invariant 0 <= i <= |eventsList| && found == Filter(eventsList[..i], t)
      {
        assert eventsList[..i + 1] == eventsList[..i] + [eventsList[i]];
        FilterAdd(eventsList[..i], eventsList[i], t);
        if eventsList[i].eventType == t {
          found := found + [eventsList[i]];
        }
        i := i + 1;
      }
      assert eventsList[..i] == eventsList;
    }
  }
}
