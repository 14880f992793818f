/** What a jQuery Deferred promises: callbacks wait in a queue per side, settling picks the side, and the queue of that
    side runs from the front while the running callbacks may add to it, for ever if they like. */
module DeferredModel {
  import opened Bytes

  type Value = int

  /** A function that was handed in, known by a number. */
  type Callback = nat

  datatype Side = Done | Fail

  /** deferred.done, deferred.fail, deferred.resolve and deferred.reject; callbacks are the functions among the
      arguments of done or fail, nested arrays flattened. */
  datatype Action = Add(side: Side, callbacks: seq<Callback>) | Settle(side: Side, value: Value)

  datatype Outcome = Pending | Settled(side: Side, value: Value)

  /** A run of a callback, with the arguments it got. */
  datatype Run = Run(callback: Callback, side: Side, value: Value)

  /** ran records the callbacks that were called, with what. */
  datatype State = State(outcome: Outcome, done: seq<Callback>, fail: seq<Callback>, ran: seq<Run>)

  function Init(): State { State(Pending, [], [], []) }

  function Queue(s: State, side: Side): seq<Callback> { if side.Done? then s.done else s.fail }

  /** A settled Deferred has no use for callbacks of the other side. */
  predicate Takes(s: State, side: Side) { s.outcome.Pending? || s.outcome.side == side }

  function WithAdded(s: State, side: Side, cs: seq<Callback>): State {
    if !Takes(s, side) then s
    else if side.Done? then s.(done := s.done + cs)
    else s.(fail := s.fail + cs)
  }

  /** The first settlement counts, and drops the queue of the other side. */
  function WithOutcome(s: State, side: Side, value: Value): State {
    if s.outcome.Settled? then s
    else
      s.(outcome := Settled(side, value),
         done := if side.Done? then s.done else [],
         fail := if side.Done? then [] else s.fail)
  }

  function Perform(s: State, a: Action): State {
    match a
    case Add(side, callbacks) => WithAdded(s, side, callbacks)
    case Settle(side, value) => WithOutcome(s, side, value)
  }

  function PerformAll(s: State, actions: seq<Action>): State
    decreases |actions|
  {
    if actions == [] then s else PerformAll(Perform(s, actions[0]), actions[1..])
  }

  // ---------- running ----------

  predicate CanRun(s: State) { s.outcome.Settled? && Queue(s, s.outcome.side) != [] }

  function PopFront(s: State): State
    requires CanRun(s)
  {
    var o := s.outcome;
    var t := s.(ran := s.ran + [Run(Queue(s, o.side)[0], o.side, o.value)]);
    if o.side.Done? then t.(done := s.done[1..]) else t.(fail := s.fail[1..])
  }

  /** The callback in front runs, and calls the given actions. */
  function Turn(s: State, actions: seq<Action>): State
    requires CanRun(s)
  {
    PerformAll(PopFront(s), actions)
  }

  /** The next callbacks run, as long as any waits; turns says what each of them calls. */
  function Turns(s: State, turns: seq<seq<Action>>): State
    decreases |turns|
  {
    if turns == [] || !CanRun(s) then s else Turns(Turn(s, turns[0]), turns[1..])
  }

  lemma {:induction false} TurnsConcat(s: State, a: seq<seq<Action>>, b: seq<seq<Action>>)
    ensures Turns(s, a + b) == Turns(Turns(s, a), b)
    decreases |a|
  {
    hide Turn, CanRun;
    if a == [] {
      assert a + b == b;
    } else if CanRun(s) {
      assert (a + b)[1..] == a[1..] + b;
      TurnsConcat(Turn(s, a[0]), a[1..], b);
    }
  }

  // ---------- the order ----------

  function Runs(cs: seq<Callback>, side: Side, value: Value): (r: seq<Run>)
    ensures |r| == |cs| && forall i :: 0 <= i < |r| ==> r[i] == Run(cs[i], side, value)
  {
    seq(|cs|, i requires 0 <= i < |cs| => Run(cs[i], side, value))
  }

  function OfSide<T>(side: Side, forDone: T, forFail: T): T { if side.Done? then forDone else forFail }

  /** While pending nothing has run and everything waits; once settled, what ran and what waits are the callbacks of the
      winning side in the order of their addition. toDone and toFail are what was added so far. */
  predicate InOrder(s: State, toDone: seq<Callback>, toFail: seq<Callback>) {
    match s.outcome
    case Pending => s.ran == [] && s.done == toDone && s.fail == toFail
    case Settled(side, value) =>
      && s.ran + Runs(Queue(s, side), side, value) == Runs(OfSide(side, toDone, toFail), side, value)
      && (side.Done? ==> s.fail == []) && (side.Fail? ==> s.done == [])
  }

  lemma RunsConcat(cs: seq<Callback>, more: seq<Callback>, side: Side, value: Value)
    ensures Runs(cs + more, side, value) == Runs(cs, side, value) + Runs(more, side, value)
  {
  }

  lemma RunsFront(cs: seq<Callback>, side: Side, value: Value)
    requires cs != []
    ensures Runs(cs, side, value) == [Run(cs[0], side, value)] + Runs(cs[1..], side, value)
  {
  }

  /** The callbacks that a call adds to a side. */
  function Adding(a: Action, side: Side): seq<Callback> { if a.Add? && a.side == side then a.callbacks else [] }

  lemma PerformInOrder(s: State, toDone: seq<Callback>, toFail: seq<Callback>, a: Action)
    requires InOrder(s, toDone, toFail)
    ensures InOrder(Perform(s, a), toDone + Adding(a, Done), toFail + Adding(a, Fail))
  {
    assert toDone + [] == toDone && toFail + [] == toFail;
    if s.outcome.Settled? && a.Add? && a.side == s.outcome.side {
      var o := s.outcome;
      RunsConcat(Queue(s, o.side), a.callbacks, o.side, o.value);
      RunsConcat(OfSide(o.side, toDone, toFail), a.callbacks, o.side, o.value);
      Associate(s.ran, Runs(Queue(s, o.side), o.side, o.value), Runs(a.callbacks, o.side, o.value));
    } else if s.outcome.Pending? && a.Settle? {
      assert [] + Runs(Queue(s, a.side), a.side, a.value) == Runs(Queue(s, a.side), a.side, a.value);
    }
  }

  lemma PopInOrder(s: State, toDone: seq<Callback>, toFail: seq<Callback>)
    requires InOrder(s, toDone, toFail) && CanRun(s)
    ensures InOrder(PopFront(s), toDone, toFail)
  {
    hide Runs;
    var o := s.outcome;
    var q := Queue(s, o.side);
    RunsFront(q, o.side, o.value);
    Associate(s.ran, [Run(q[0], o.side, o.value)], Runs(q[1..], o.side, o.value));
  }

  // ---------- runs ----------

  /** Either something is called, from outside or by the running callback, or the next waiting callback starts. */
  datatype Step = Calls(action: Action) | Starts

  predicate Possible(s: State, step: Step) { step.Starts? ==> CanRun(s) }

  function After(s: State, step: Step): State
    requires Possible(s, step)
  {
    match step
    case Calls(a) => Perform(s, a)
    case Starts => PopFront(s)
  }

  predicate IsRun(s: State, steps: seq<Step>)
    decreases |steps|
  {
    steps == [] || (Possible(s, steps[0]) && IsRun(After(s, steps[0]), steps[1..]))
  }

  function AfterSteps(s: State, steps: seq<Step>): State
    requires IsRun(s, steps)
    decreases |steps|
  {
    if steps == [] then s else AfterSteps(After(s, steps[0]), steps[1..])
  }

  /** The first settling call decides. */
  function Settling(steps: seq<Step>): Outcome
    decreases |steps|
  {
    if steps == [] then Pending
    else if steps[0].Calls? && steps[0].action.Settle? then Settled(steps[0].action.side, steps[0].action.value)
    else Settling(steps[1..])
  }

  /** All callbacks that the calls add to a side, in order. */
  function AddedTo(side: Side, steps: seq<Step>): seq<Callback>
    decreases |steps|
  {
    if steps == [] then []
    else (if steps[0].Calls? then Adding(steps[0].action, side) else []) + AddedTo(side, steps[1..])
  }

  /** A Deferred leaves the pending state with its first settling call, and never changes again. */
  lemma {:induction false} SettledOnce(s: State, steps: seq<Step>)
    requires IsRun(s, steps)
    ensures AfterSteps(s, steps).outcome == if s.outcome.Settled? then s.outcome else Settling(steps)
    decreases |steps|
  {
    if steps != [] {
      SettledOnce(After(s, steps[0]), steps[1..]);
    }
  }

  lemma {:induction false} StepsInOrder(s: State, toDone: seq<Callback>, toFail: seq<Callback>, steps: seq<Step>)
    requires InOrder(s, toDone, toFail) && IsRun(s, steps)
    ensures InOrder(AfterSteps(s, steps), toDone + AddedTo(Done, steps), toFail + AddedTo(Fail, steps))
    decreases |steps|
  {
    hide InOrder, Adding, Perform;
    if steps == [] {
      assert toDone + [] == toDone && toFail + [] == toFail;
    } else {
      var t, rest := After(s, steps[0]), steps[1..];
      match steps[0] {
        case Calls(a) =>
          PerformInOrder(s, toDone, toFail, a);
          StepsInOrder(t, toDone + Adding(a, Done), toFail + Adding(a, Fail), rest);
          Associate(toDone, Adding(a, Done), AddedTo(Done, rest));
          Associate(toFail, Adding(a, Fail), AddedTo(Fail, rest));
        case Starts =>
          PopInOrder(s, toDone, toFail);
          StepsInOrder(t, toDone, toFail, rest);
          assert [] + AddedTo(Done, rest) == AddedTo(Done, rest) && [] + AddedTo(Fail, rest) == AddedTo(Fail, rest);
      }
    }
  }

  lemma FromInit(steps: seq<Step>)
    requires IsRun(Init(), steps)
    ensures InOrder(AfterSteps(Init(), steps), AddedTo(Done, steps), AddedTo(Fail, steps))
    ensures AfterSteps(Init(), steps).outcome == Settling(steps)
  {
    StepsInOrder(Init(), [], [], steps);
    SettledOnce(Init(), steps);
    hide InOrder, AddedTo;
    assert [] + AddedTo(Done, steps) == AddedTo(Done, steps) && [] + AddedTo(Fail, steps) == AddedTo(Fail, steps);
  }

  /** At every moment, whatever callbacks call and for how long: before the first settling call none has run; after it,
      those that have run are the first ones added to its side, each once per addition, in the order of addition, with
      the value of that call, and the next ones wait in that order. */
  lemma AtEveryMoment(steps: seq<Step>)
    requires IsRun(Init(), steps)
    ensures var s, o := AfterSteps(Init(), steps), Settling(steps);
            && (o.Pending? ==> s.ran == [])
            && (o.Settled? ==>
                  && s.ran <= Runs(AddedTo(o.side, steps), o.side, o.value)
                  && Runs(Queue(s, o.side), o.side, o.value)
                     == Runs(AddedTo(o.side, steps), o.side, o.value)[|s.ran|..])
  {
    FromInit(steps);
    var s, o := AfterSteps(Init(), steps), Settling(steps);
    hide IsRun, AfterSteps, Settling, AddedTo, Runs;
    if o.Settled? {
      var waiting := Runs(Queue(s, o.side), o.side, o.value);
      assert (s.ran + waiting)[|s.ran|..] == waiting;
    }
  }

  /** Whenever no callback is left to run: before the first settling call none has run; after it, exactly the callbacks
      added to its side have run, each once per addition, in the order of addition, with the value of that call. */
  lemma EveryCallbackOnce(steps: seq<Step>)
    requires IsRun(Init(), steps) && !CanRun(AfterSteps(Init(), steps))
    ensures var s, o := AfterSteps(Init(), steps), Settling(steps);
            s.ran == if o.Settled? then Runs(AddedTo(o.side, steps), o.side, o.value) else []
  {
    FromInit(steps);
  }

  // ---------- the firing loop ----------

  function CallSteps(actions: seq<Action>): (steps: seq<Step>)
    ensures |steps| == |actions| && forall i :: 0 <= i < |steps| ==> steps[i] == Calls(actions[i])
  {
    seq(|actions|, i requires 0 <= i < |actions| => Calls(actions[i]))
  }

  lemma {:induction false} CallsAreSteps(s: State, actions: seq<Action>, more: seq<Step>)
    requires IsRun(PerformAll(s, actions), more)
    ensures IsRun(s, CallSteps(actions) + more)
    ensures AfterSteps(s, CallSteps(actions) + more) == AfterSteps(PerformAll(s, actions), more)
    decreases |actions|
  {
    hide Perform;
    var steps := CallSteps(actions) + more;
    if actions == [] {
      assert steps == more;
    } else {
      assert steps[0] == Calls(actions[0]) && steps[1..] == CallSteps(actions[1..]) + more;
      CallsAreSteps(Perform(s, actions[0]), actions[1..], more);
    }
  }

  /** The firing loop makes such steps. */
  lemma {:induction false} TurnsAreSteps(s: State, turns: seq<seq<Action>>) returns (steps: seq<Step>)
    ensures IsRun(s, steps) && AfterSteps(s, steps) == Turns(s, turns)
    decreases |turns|
  {
    if turns == [] || !CanRun(s) {
      steps := [];
    } else {
      var more := TurnsAreSteps(Turn(s, turns[0]), turns[1..]);
      hide CanRun, PopFront, PerformAll;
      CallsAreSteps(PopFront(s), turns[0], more);
      steps := [Starts] + (CallSteps(turns[0]) + more);
      assert steps[1..] == CallSteps(turns[0]) + more;
    }
  }

  /** How many callbacks the actions add to a side. */
  function Adds(actions: seq<Action>, side: Side): nat
    decreases |actions|
  {
    if actions == [] then 0
    else (if actions[0].Add? && actions[0].side == side then |actions[0].callbacks| else 0) + Adds(actions[1..], side)
  }

  function AllAdds(turns: seq<seq<Action>>, side: Side): nat
    decreases |turns|
  {
    if turns == [] then 0 else Adds(turns[0], side) + AllAdds(turns[1..], side)
  }

  lemma {:induction false} ActionsAdd(s: State, actions: seq<Action>)
    requires s.outcome.Settled?
    ensures var t, side := PerformAll(s, actions), s.outcome.side;
            t.outcome == s.outcome && |Queue(t, side)| == |Queue(s, side)| + Adds(actions, side) && t.ran == s.ran
    decreases |actions|
  {
    if actions != [] {
      ActionsAdd(Perform(s, actions[0]), actions[1..]);
    }
  }

  /** After so many turns callbacks have outnumbered those that ran. */
  ghost predicate Outnumbered(waiting: nat, turns: seq<seq<Action>>, side: Side, n: nat)
    requires n <= |turns|
  {
    waiting + AllAdds(turns[..n], side) > n
  }

  /** The list goes on firing exactly as long as, after each turn, more callbacks were added than have run. */
  lemma {:induction false} FiringGoesOn(s: State, turns: seq<seq<Action>>)
    requires s.outcome.Settled?
    ensures var side := s.outcome.side;
            CanRun(Turns(s, turns)) <==>
            forall n :: 0 <= n <= |turns| ==> Outnumbered(|Queue(s, side)|, turns, side, n)
    decreases |turns|
  {
    var side := s.outcome.side;
    var waiting := |Queue(s, side)|;
    assert Outnumbered(waiting, turns, side, 0) <==> CanRun(s);
    if CanRun(s) && turns != [] {
      var t := Turn(s, turns[0]);
      ActionsAdd(PopFront(s), turns[0]);
      var later := |Queue(t, side)|;
      assert later == waiting - 1 + Adds(turns[0], side);
      FiringGoesOn(t, turns[1..]);
      hide PopFront, PerformAll, Turns, Adds, Queue;
      forall n | 1 <= n <= |turns|
        ensures Outnumbered(waiting, turns, side, n) <==> Outnumbered(later, turns[1..], side, n - 1)
      {
        assert turns[..n][0] == turns[0] && turns[..n][1..] == turns[1..][..n - 1];
      }
      if forall n :: 0 <= n <= |turns| ==> Outnumbered(waiting, turns, side, n) {
        forall m | 0 <= m <= |turns[1..]|
          ensures Outnumbered(later, turns[1..], side, m)
        {
          assert Outnumbered(waiting, turns, side, m + 1);
        }
      }
    }
  }

  lemma OneAction(s: State, a: Action)
    ensures PerformAll(s, [a]) == Perform(s, a)
  {
    assert [a][1..] == [];
  }

  lemma SelfAddingTurn(s: State, c: Callback)
    requires s.outcome.Settled? && Queue(s, s.outcome.side) == [c]
    ensures var t := Turn(s, [Add(s.outcome.side, [c])]);
            t.outcome == s.outcome && Queue(t, s.outcome.side) == [c] && |t.ran| == |s.ran| + 1
  {
    OneAction(PopFront(s), Add(s.outcome.side, [c]));
  }

  function Repeat(actions: seq<Action>, turns: nat): seq<seq<Action>> {
    if turns == 0 then [] else [actions] + Repeat(actions, turns - 1)
  }

  /** A callback that adds itself again keeps the list firing: after any number of turns it is waiting. */
  lemma {:induction false} SelfAddingGoesOn(s: State, c: Callback, turns: nat)
    requires s.outcome.Settled? && Queue(s, s.outcome.side) == [c]
    ensures var t := Turns(s, Repeat([Add(s.outcome.side, [c])], turns));
            t.outcome == s.outcome && Queue(t, s.outcome.side) == [c] && |t.ran| == |s.ran| + turns
    decreases turns
  {
    if turns != 0 {
      var again := [Add(s.outcome.side, [c])];
      SelfAddingTurn(s, c);
      hide Turn, Queue;
      assert Repeat(again, turns)[1..] == Repeat(again, turns - 1);
      SelfAddingGoesOn(Turn(s, again), c, turns - 1);
    }
  }
}
