/** The device's finite-state-machine engine: a fixed table of states, each with
    a success successor, a failure successor and a work function; one call of
    ProcessState runs the current state's work function once and moves on
    according to the code it returns. */
module BuzzerFsm {

  // Return codes of the engine (enum ret_vals in BuzzerFSM.h).
  const Success: int := 0
  const Failure: int := 1
  const Repeat: int := 2

  // State ids declared by the engine (enum state_ids).
  const Setup: int := 0
  const OtherState: int := 1

  /** The number of slots the table declares, states[SETUP]. */
  const DeclaredSlots: int := Setup

  /** A state's work function pointer: null in a slot nobody registered. */
  datatype StateFunc = NullFunc | Func(run: int -> int)

  datatype State = State(nextStateSuccess: int, nextStateFailure: int, stateFunc: StateFunc)

  /** The value of a table slot in zero-initialised (static) storage. */
  const ZeroState: State := State(0, 0, NullFunc)

  /** The id the engine moves to from state `s`, current id `cur`, when the
      work function returned `ret`: the engine only follows the state's own
      edges, moves only on Success or Failure, and Success takes precedence. */
  function NextStateId(s: State, cur: int, ret: int): (next: int)
    ensures next == s.nextStateSuccess || next == s.nextStateFailure || next == cur
    ensures next != cur ==> ret == Success || ret == Failure
    ensures ret == Success ==> next == s.nextStateSuccess
  {
    if ret == Success then s.nextStateSuccess
    else if ret == Failure then s.nextStateFailure
    else cur
  }

  /** A slot ProcessState can run: in the table and holding a work function. */
  ghost predicate Runnable(table: seq<State>, cur: int)
  {
    0 <= cur < |table| && table[cur].stateFunc.Func?
  }

  /** Slot i, when registered, leads only to registered slots. */
  ghost predicate SlotClosed(table: seq<State>, i: int)
    requires 0 <= i < |table|
  {
    table[i].stateFunc.Func? ==>
      Runnable(table, table[i].nextStateSuccess) && Runnable(table, table[i].nextStateFailure)
  }

  /** Every registered slot of the table leads only to registered slots. */
  ghost predicate Closed(table: seq<State>)
  {
    forall i :: 0 <= i < |table| ==> SlotClosed(table, i)
  }

  /** One ProcessState on table `table` from state `cur`, where the work
      function returned `ret`. Work functions read the modem, the backend's
      replies and the globals, so `ret` may differ from tick to tick. In a
      closed table the next state is again runnable, whatever the code. */
  function Step(table: seq<State>, cur: int, ret: int): (next: int)
    requires Runnable(table, cur)
    ensures Closed(table) ==> Runnable(table, next)
  {
    assert Closed(table) ==> SlotClosed(table, cur);
    NextStateId(table[cur], cur, ret)
  }

  /** The state reached after one call of ProcessState per code in `codes`,
      the work functions' results in order. A closed table never leads the
      engine into an unregistered (null) slot, whatever the codes are. */
  function Run(table: seq<State>, cur: int, codes: seq<int>): (final: int)
    requires Closed(table) && Runnable(table, cur)
    ensures Runnable(table, final)
    decreases |codes|
  {
    if |codes| == 0 then cur else Run(table, Step(table, cur, codes[0]), codes[1..])
  }

  /** A state whose work function answers neither Success nor Failure on
      every tick (Repeat, or a foreign code such as the callbacks' TIMEOUT)
      is never left: this version of the engine has no forced transition. */
  lemma {:induction false} NoMoveStaysPut(table: seq<State>, cur: int, codes: seq<int>)
    requires Closed(table) && Runnable(table, cur)
    requires forall i :: 0 <= i < |codes| ==> codes[i] != Success && codes[i] != Failure
    ensures Run(table, cur, codes) == cur
    decreases |codes|
  {
    if |codes| > 0 {
      assert Step(table, cur, codes[0]) == cur;
      NoMoveStaysPut(table, cur, codes[1..]);
    }
  }

  /** Running the ticks of `a` and then those of `b` is running `a + b`. */
  lemma {:induction false} RunSplit(table: seq<State>, cur: int, a: seq<int>, b: seq<int>)
    requires Closed(table) && Runnable(table, cur)
    ensures Run(table, cur, a + b) == Run(table, Run(table, cur, a), b)
    decreases |a|
  {
    if |a| > 0 {
      assert (a + b)[0] == a[0];
      assert (a + b)[1..] == a[1..] + b;
      RunSplit(table, Step(table, cur, a[0]), a[1..], b);
    } else {
      assert a + b == b;
    }
  }

  /** The as-written table, states[SETUP] with SETUP = 0: this only unfolds
      DeclaredSlots to 0, and records that no id indexes such a table. */
  lemma DeclaredTableHasNoSlot(id: int)
    ensures !(0 <= id < DeclaredSlots)
  {
  }

  class Fsm {
    var elapsedTimeInCurrState: int
    var currStateId: int
    const states: array<State>

    /** Nothing ever writes the elapsed time: it keeps its initial 0. */
    ghost predicate Valid()
      reads this
    {
      elapsedTimeInCurrState == 0
    }

    /** The table holds `capacity` slots (the source declares none; see
        DeclaredTableHasNoSlot). Unregistered slots are zero-initialised. */
    constructor (capacity: nat, initialState: State, initialStateId: int)
      requires 0 <= initialStateId < capacity
      ensures Valid() && fresh(states)
      ensures states.Length == capacity
      ensures currStateId == initialStateId
      ensures states[initialStateId] == initialState
      ensures forall i :: 0 <= i < capacity && i != initialStateId ==> states[i] == ZeroState
    {
      elapsedTimeInCurrState := 0;
      currStateId := initialStateId;
      var table := new State[capacity](_ => ZeroState);
      table[initialStateId] := initialState;
      states := table;
    }

    /** Runs the current state's work function on the elapsed time, which
        nothing ever writes: every work function is handed 0. */
    method DoState() returns (ret: int)
      requires Valid() && Runnable(states[..], currStateId)
      ensures ret == states[currStateId].stateFunc.run(0)
    {
      ret := states[currStateId].stateFunc.run(elapsedTimeInCurrState);
    }

    /** Success moves to the success successor, Failure to the failure
        successor, anything else keeps the current state. */
    method TransitionToNextState(doStateRetVal: int)
      requires 0 <= currStateId < states.Length
      modifies this`currStateId
      ensures doStateRetVal == Success ==> currStateId == old(states[currStateId]).nextStateSuccess
      ensures doStateRetVal == Failure ==> currStateId == old(states[currStateId]).nextStateFailure
      ensures doStateRetVal != Success && doStateRetVal != Failure ==> currStateId == old(currStateId)
      ensures currStateId == NextStateId(old(states[currStateId]), old(currStateId), doStateRetVal)
    {
      if doStateRetVal == Success {
        currStateId := states[currStateId].nextStateSuccess;
      }
      if doStateRetVal == Failure {
        currStateId := states[currStateId].nextStateFailure;
      } else {
        currStateId := currStateId;
      }
    }

    /** Registers a state: overwrites exactly slot stateId. */
    method AddState(stateToAdd: State, stateId: int)
      requires 0 <= stateId < states.Length
      modifies states
      ensures states[..] == old(states[..])[stateId := stateToAdd]
      ensures currStateId == old(currStateId) && elapsedTimeInCurrState == old(elapsedTimeInCurrState)
    {
      states[stateId] := stateToAdd;
    }

    /** One tick: runs the current work function once, with elapsed time 0,
        and applies the successor its code selects; the table is untouched. */
    method ProcessState()
      requires Valid() && Runnable(states[..], currStateId)
      modifies this`currStateId
      ensures Valid()
      ensures currStateId == Step(old(states[..]), old(currStateId), states[old(currStateId)].stateFunc.run(0))
      ensures states[..] == old(states[..])
      ensures Closed(states[..]) ==> Runnable(states[..], currStateId)
    {
      var retVal := DoState();
      TransitionToNextState(retVal);
    }
  }
}
