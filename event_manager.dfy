/** The publish/subscribe table (core/event_manager.py): for every event
    type, the callbacks registered for it, in registration order. Callbacks
    are opaque identities; invoking one is outside the model, so emitting
    an event yields the sequence of callbacks it invokes. */
module Events {

  datatype GameEvent =
    | PlayerDied
    | PlayerDamaged
    | EnemyKilled
    | BulletFired
    | GamePaused
    | GameResumed

  /** The payload handed to the callbacks. */
  datatype EventData = NoData | Health(health: int) | Position(x: int, y: int)

  /** One call of emit(event, data) made by an entity. */
  datatype Emission = Emission(event: GameEvent, data: EventData)

  /** The identity of a registered callable (a bound method or a function). */
  type Callback = nat

  type Table = map<GameEvent, seq<Callback>>

  /** The callbacks emit would invoke for e: none when e has no entry. */
  function ListenersOf(t: Table, e: GameEvent): seq<Callback>
  {
    if e in t then t[e] else []
  }

  /** list.remove(c): drops the first occurrence of c; the source only calls
      it once it knows c is present, and then it always removes one. */
  function RemoveFirst(s: seq<Callback>, c: Callback): (r: seq<Callback>)
    ensures c !in s ==> r == s
    ensures c in s ==> |r| == |s| - 1
  {
    if s == [] then []
    else if s[0] == c then s[1..]
    else [s[0]] + RemoveFirst(s[1..], c)
  }

  /** RemoveFirst drops exactly the first occurrence: everything before it and
      everything after it is kept, in order. */
  lemma {:induction false} RemoveFirstDropsFirstOccurrence(s: seq<Callback>, c: Callback, i: nat)
    requires i < |s| && s[i] == c && c !in s[..i]
    ensures RemoveFirst(s, c) == s[..i] + s[i + 1..]
  {
    if i > 0 {
      assert s[0] != c by { assert s[0] == s[..i][0]; }
      assert c !in s[1..][..i - 1] by { assert s[1..][..i - 1] == s[..i][1..]; }
      RemoveFirstDropsFirstOccurrence(s[1..], c, i - 1);
      assert s[1..][..i - 1] == s[1..i];
      assert s[1..][i..] == s[i + 1..];
      assert [s[0]] + s[1..i] == s[..i];
    }
  }

  /** Removing a callback takes away one registration of it and of nothing
      else. */
  lemma {:induction false} RemoveFirstMultiset(s: seq<Callback>, c: Callback)
    ensures multiset(RemoveFirst(s, c)) == multiset(s) - multiset{c}
  {
    if s != [] {
      assert s == [s[0]] + s[1..];
      if s[0] == c {
        assert multiset(s) == multiset{c} + multiset(s[1..]);
      } else {
        RemoveFirstMultiset(s[1..], c);
        assert RemoveFirst(s, c) == [s[0]] + RemoveFirst(s[1..], c);
      }
    }
  }

  /** Removing a callback just appended, from a list that did not already
      hold it, gives back the list. */
  lemma {:induction false} RemoveFirstAfterAppend(s: seq<Callback>, c: Callback)
    requires c !in s
    ensures RemoveFirst(s + [c], c) == s
  {
    if s != [] {
      assert (s + [c])[1..] == s[1..] + [c];
      RemoveFirstAfterAppend(s[1..], c);
    } else {
      assert [c][1..] == [];
    }
  }

  /** The table after subscribe(e, c). */
  function Subscribed(t: Table, e: GameEvent, c: Callback): (r: Table)
    ensures forall e' :: ListenersOf(r, e') == if e' == e then ListenersOf(t, e) + [c] else ListenersOf(t, e')
    ensures r.Keys == t.Keys + {e}
  {
    t[e := ListenersOf(t, e) + [c]]
  }

  /** The table after unsubscribe(e, c): only the first registration of c for
      e goes; an absent event or callback leaves the table as it was. */
  function Unsubscribed(t: Table, e: GameEvent, c: Callback): (r: Table)
    ensures ListenersOf(r, e) == RemoveFirst(ListenersOf(t, e), c)
    ensures e in t && c in t[e] ==> |ListenersOf(r, e)| == |ListenersOf(t, e)| - 1
    ensures !(e in t && c in t[e]) ==> r == t
    ensures forall e' :: e' != e ==> ListenersOf(r, e') == ListenersOf(t, e')
    ensures r.Keys == t.Keys
  {
    if e in t && c in t[e] then t[e := RemoveFirst(t[e], c)] else t
  }

  /** Subscribing a callback not yet registered for e and unsubscribing it
      again leaves every event's listeners as they were. The table itself is
      restored exactly only when e already had an entry: otherwise an empty
      list for e remains. */
  lemma SubscribeThenUnsubscribe(t: Table, e: GameEvent, c: Callback)
    requires c !in ListenersOf(t, e)
    ensures forall e' :: ListenersOf(Unsubscribed(Subscribed(t, e, c), e, c), e') == ListenersOf(t, e')
    ensures e in t ==> Unsubscribed(Subscribed(t, e, c), e, c) == t
    ensures e !in t ==> Unsubscribed(Subscribed(t, e, c), e, c) == t[e := []]
  {
    RemoveFirstAfterAppend(ListenersOf(t, e), c);
  }

  class EventManager {
    var listeners: Table

    constructor ()
      ensures listeners == map[]
    {
      listeners := map[];
    }

    method Subscribe(e: GameEvent, c: Callback)
      modifies this`listeners
      ensures listeners == Subscribed(old(listeners), e, c)
    {
      if e !in listeners {
        listeners := listeners[e := []];
      }
      listeners := listeners[e := listeners[e] + [c]];
    }

    method Unsubscribe(e: GameEvent, c: Callback)
      modifies this`listeners
      ensures listeners == Unsubscribed(old(listeners), e, c)
    {
      if e in listeners && c in listeners[e] {
        listeners := listeners[e := RemoveFirst(listeners[e], c)];
      }
    }

    /** emit(e): each callback registered for e is invoked once, in
        registration order; an event without listeners invokes nothing. */
    method Emit(e: GameEvent) returns (invoked: seq<Callback>)
      ensures invoked == ListenersOf(listeners, e)
      ensures e !in listeners ==> invoked == []
    {
      invoked := [];
      if e in listeners {
        var callbacks := listeners[e];
        for i := 0 to |callbacks|
          invariant invoked == callbacks[..i]
        {
          invoked := invoked + [callbacks[i]];
        }
      }
    }

    method Clear()
      modifies this`listeners
      ensures listeners == map[]
      ensures forall e :: ListenersOf(listeners, e) == []
    {
      listeners := map[];
    }
  }
}
