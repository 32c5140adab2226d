/** The game-state stack (core/game.py). States are opaque identities; the
    calls made on them (pause, enter, exit, resume) are returned in order as
    Hook values. */
module StateStack {
  import opened Options

  type StateId = nat

  datatype Hook = Enter(state: StateId) | Exit(state: StateId) | Pause(state: StateId) | Resume(state: StateId)

  /** The stack after an operation and the hooks it called, in order. */
  datatype Transition = Transition(stack: seq<StateId>, calls: seq<Hook>)

  function Top(st: seq<StateId>): StateId
    requires st != []
  {
    st[|st| - 1]
  }

  /** push_state(s): pause the old top, if any, then append s and enter it. */
  function Push(st: seq<StateId>, s: StateId): (t: Transition)
    ensures t.stack == st + [s] && Top(t.stack) == s
    ensures st == [] ==> t.calls == [Enter(s)]
    ensures st != [] ==> t.calls == [Pause(Top(st)), Enter(s)]
  {
    Transition(st + [s], (if st == [] then [] else [Pause(Top(st))]) + [Enter(s)])
  }

  /** pop_state(): on an empty stack nothing happens and None is returned;
      otherwise the top is removed, exited, the new top (if any) resumed, and
      the removed state returned. */
  function Pop(st: seq<StateId>): (r: (Transition, Option<StateId>))
    ensures st == [] ==> r == (Transition([], []), None)
    ensures st != [] ==> r.1 == Some(Top(st)) && r.0.stack == st[..|st| - 1]
    ensures |st| >= 2 ==> r.0.calls == [Exit(Top(st)), Resume(st[|st| - 2])]
    ensures |st| == 1 ==> r.0.calls == [Exit(Top(st))]
  {
    if st == [] then (Transition([], []), None)
    else
      var rest := st[..|st| - 1];
      (Transition(rest, [Exit(Top(st))] + (if rest == [] then [] else [Resume(Top(rest))])), Some(Top(st)))
  }

  /** The exit calls made by emptying the stack, top first. */
  function ExitsTopDown(st: seq<StateId>): (r: seq<Hook>)
    ensures |r| == |st|
  {
    if st == [] then [] else [Exit(Top(st))] + ExitsTopDown(st[..|st| - 1])
  }

  lemma {:induction false} ExitsTopDownAt(st: seq<StateId>, i: nat)
    requires i < |st|
    ensures ExitsTopDown(st)[i] == Exit(st[|st| - 1 - i])
  {
    if i > 0 {
      ExitsTopDownAt(st[..|st| - 1], i - 1);
    }
  }

  /** change_state(s): exit every state from the top down, then push s onto
      the empty stack, so s is entered and nothing is paused. */
  function Change(st: seq<StateId>, s: StateId): (t: Transition)
    ensures t.stack == [s]
    ensures |t.calls| == |st| + 1 && t.calls[|st|] == Enter(s)
    ensures forall i :: 0 <= i < |st| ==> t.calls[i] == Exit(st[|st| - 1 - i])
    ensures forall q :: Pause(q) !in t.calls && Resume(q) !in t.calls
  {
    var r := Transition([s], ExitsTopDown(st) + [Enter(s)]);
    forall i | 0 <= i < |st| ensures r.calls[i] == Exit(st[|st| - 1 - i]) {
      ExitsTopDownAt(st, i);
    }
    forall q ensures Pause(q) !in r.calls && Resume(q) !in r.calls {
      forall i | 0 <= i < |r.calls| ensures r.calls[i] != Pause(q) && r.calls[i] != Resume(q) {
        if i < |st| { ExitsTopDownAt(st, i); }
      }
    }
    r
  }

  /** Pushing a state and popping it returns that state and gives back the
      prior stack; the pushed state is entered and then exited, and the state
      below it paused and then resumed. */
  lemma PushThenPop(st: seq<StateId>, s: StateId)
    ensures Pop(Push(st, s).stack).1 == Some(s)
    ensures Pop(Push(st, s).stack).0.stack == st
    ensures st == [] ==> Push(st, s).calls + Pop(Push(st, s).stack).0.calls == [Enter(s), Exit(s)]
    ensures st != [] ==> Push(st, s).calls + Pop(Push(st, s).stack).0.calls
                           == [Pause(Top(st)), Enter(s), Exit(s), Resume(Top(st))]
  {
    assert (st + [s])[..|st|] == st;
  }

  class Game {
    var stateStack: seq<StateId>

    constructor ()
      ensures stateStack == []
    {
      stateStack := [];
    }

    /** current_state(): the top of the stack, None when it is empty. */
    function CurrentState(): (r: Option<StateId>)
      reads this
      ensures r.None? <==> stateStack == []
      ensures r.Some? ==> r.value == Top(stateStack)
    {
      if stateStack == [] then None else Some(Top(stateStack))
    }

    method PushState(s: StateId) returns (calls: seq<Hook>)
      modifies this
      ensures Transition(stateStack, calls) == Push(old(stateStack), s)
    {
      calls := [];
      if stateStack != [] {
        calls := calls + [Pause(Top(stateStack))];
      }
      stateStack := stateStack + [s];
      calls := calls + [Enter(s)];
    }

    method PopState() returns (popped: Option<StateId>, calls: seq<Hook>)
      modifies this
      ensures (Transition(stateStack, calls), popped) == Pop(old(stateStack))
    {
      if stateStack == [] {
        return None, [];
      }
      var state := Top(stateStack);
      stateStack := stateStack[..|stateStack| - 1];
      calls := [Exit(state)];
      if stateStack != [] {
        calls := calls + [Resume(Top(stateStack))];
      }
      popped := Some(state);
    }

    method ChangeState(s: StateId) returns (calls: seq<Hook>)
      modifies this
      ensures Transition(stateStack, calls) == Change(old(stateStack), s)
    {
      calls := [];
      while stateStack != []
        invariant calls + ExitsTopDown(stateStack) == ExitsTopDown(old(stateStack))
        decreases |stateStack|
      {
        var state := Top(stateStack);
        stateStack := stateStack[..|stateStack| - 1];
        calls := calls + [Exit(state)];
      }
      var pushCalls := PushState(s);
      calls := calls + pushCalls;
    }

    /** update(dt) forwards dt to the current state only: the result names the
        one state that receives it, or None when the stack is empty. */
    method Update(dt: real) returns (receiver: Option<StateId>)
      ensures receiver.None? <==> stateStack == []
      ensures receiver.Some? ==> receiver.value == Top(stateStack)
    {
      receiver := CurrentState();
    }
  }
}
