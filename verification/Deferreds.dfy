/** jQuery.Deferred over two jQuery.Callbacks("once memory") lists: firing indices, memory, and the three entries with
    which each list starts. It does what DeferredModel says, also when callbacks call it while they run.
    Where callbacks may run, turns gives what each of the next ones calls; a loop that outlasts it is left midway. */
module Deferreds {
  import opened Sequences
  import opened DeferredModel

  /** The first three entries set the state, disable the other list and lock progress. */
  datatype Entry = SetState | DisableOther | LockProgress | User(callback: Callback)

  datatype StateName = StillPending | Resolved | Rejected

  function Intro(): seq<Entry> { [SetState, DisableOther, LockProgress] }

  function Users(cs: seq<Callback>): (r: seq<Entry>)
    ensures |r| == |cs| && forall i :: 0 <= i < |r| ==> r[i] == User(cs[i])
  {
    seq(|cs|, i requires 0 <= i < |cs| => User(cs[i]))
  }

  /** What is left of a list when k entries of the intro have run. */
  function Rest(k: nat, queue: seq<Callback>): seq<Entry>
    requires k <= 3
  {
    Intro()[k..] + Users(queue)
  }

  lemma RestEnd()
    ensures Rest(0, []) == Intro() && Rest(3, []) == []
  {
  }

  lemma RestIsOver(k: nat, queue: seq<Callback>)
    requires k <= 3 && Rest(k, queue) == []
    ensures k == 3 && queue == []
  {
  }

  lemma RestPush(k: nat, queue: seq<Callback>, cs: seq<Callback>)
    requires k <= 3
    ensures Rest(k, queue) + Users(cs) == Rest(k, queue + cs)
  {
  }

  lemma RestFront(k: nat, queue: seq<Callback>)
    requires k <= 3 && Rest(k, queue) != []
    ensures k < 3 ==> Rest(k, queue) == [Intro()[k]] + Rest(k + 1, queue)
    ensures k == 3 ==> queue != [] && Rest(k, queue) == [User(queue[0])] + Rest(3, queue[1..])
  {
  }

  lemma Shift(list: seq<Entry>, i: nat, e: Entry, rest: seq<Entry>)
    requires i < |list| && list[i..] == [e] + rest
    ensures list[i] == e && list[i + 1..] == rest
  {
    assert list[i] == list[i..][0];
    assert list[i + 1..] == list[i..][1..];
  }

  lemma PushShift(list: seq<Entry>, more: seq<Entry>, i: nat)
    requires i <= |list|
    ensures (list + more)[i..] == list[i..] + more
  {
  }

  /** jQuery.Callbacks; list is undefined once disabled. A "once" list has no stack. */
  class Callbacks {
    var list: Option<seq<Entry>>
    var memory: Option<Value>
    var fired: bool
    var firing: bool
    var firingLength: nat
    var firingIndex: nat
    var firingStart: nat

    constructor ()
      ensures Waiting([])
    {
      RestEnd();
      list, memory, fired, firing := Some(Intro()), None, false, false;
      firingLength, firingIndex, firingStart := 0, 0, 0;
    }

    /** Not fired yet. */
    ghost predicate Waiting(queue: seq<Callback>)
      reads this
    {
      list == Some(Rest(0, queue)) && memory.None? && !fired && !firing && firingStart == 0
    }

    /** Fired, and all its callbacks have run. */
    ghost predicate Spent(value: Value)
      reads this
    {
      list == Some([]) && memory == Some(value) && fired && !firing && firingStart == 0
    }

    ghost predicate Disabled()
      reads this
    {
      list.None? && memory.None? && !firing
    }

    /** Firing; from the given place on come the last entries of the intro and then the queue. */
    ghost predicate Firing(value: Value, from: nat, k: nat, queue: seq<Callback>)
      reads this
    {
      && firing && fired && memory == Some(value) && firingStart == 0
      && list.Some? && from <= |list.value| == firingLength
      && k <= 3 && list.value[from..] == Rest(k, queue)
    }

    method Disable()
      requires !firing
      modifies this
      ensures Disabled()
    {
      list, memory := None, None;
    }

    /** The part of add that makes the list longer. */
    method Push(cs: seq<Callback>)
      requires list.Some?
      modifies `list
      ensures list == Some(old(list).value + Users(cs))
    {
      list := Some(list.value + Users(cs));
    }
  }

  function Other(side: Side): Side { if side.Done? then Fail else Done }

  lemma LongerQueue(s: State, side: Side, cs: seq<Callback>)
    ensures var t := WithAdded(s, side, cs);
            && t.outcome == s.outcome && t.ran == s.ran && Queue(t, Other(side)) == Queue(s, Other(side))
            && Queue(t, side) == if Takes(s, side) then Queue(s, side) + cs else Queue(s, side)
  {
  }

  class Deferred {
    const done: Callbacks
    const fail: Callbacks
    var state: StateName
    var progressLocked: bool
    // the callbacks called so far, with what, and what the model says
    ghost var calls: seq<Run>
    ghost var s: State

    function ListOf(side: Side): Callbacks { if side.Done? then done else fail }

    function NameOf(side: Side): StateName { if side.Done? then Resolved else Rejected }

    /** No callback is running. */
    ghost predicate Quiet()
      reads this, done, fail
    {
      done != fail && calls == s.ran &&
      match s.outcome
      case Pending =>
        && state.StillPending? && !progressLocked
        && done.Waiting(Queue(s, Done)) && fail.Waiting(Queue(s, Fail))
      case Settled(side, value) =>
        && state == NameOf(side) && progressLocked
        && ListOf(side).Spent(value) && ListOf(Other(side)).Disabled() && Queue(s, side) == []
    }

    /** A callback is running. */
    ghost predicate Busy()
      reads this, done, fail
    {
      && done != fail && calls == s.ran && s.outcome.Settled?
      && var side := s.outcome.side;
         && state == NameOf(side) && progressLocked && ListOf(Other(side)).Disabled()
         && ListOf(side).Firing(s.outcome.value, ListOf(side).firingIndex + 1, 3, Queue(s, side))
    }

    /** fire has the entries from the given place on before it; k entries of the intro are done. */
    ghost predicate Looping(side: Side, value: Value, k: nat, from: nat)
      reads this, done, fail
    {
      && done != fail && calls == s.ran && s.outcome == Settled(side, value)
      && ListOf(side).Firing(value, from, k, Queue(s, side))
      && (k >= 1 ==> state == NameOf(side)) && (k >= 3 ==> progressLocked)
      && (if k >= 2 then ListOf(Other(side)).Disabled() else !ListOf(Other(side)).firing)
    }

    /** fire may start: for the first time, or for callbacks added after it. */
    ghost predicate MayFire(side: Side, value: Value, k: nat)
      reads this, done, fail
    {
      var l := ListOf(side);
      && done != fail && calls == s.ran && s.outcome == Settled(side, value)
      && !l.firing && l.firingStart == 0 && (k == 0 || k == 3) && l.list == Some(Rest(k, Queue(s, side)))
      && (k == 3 ==> state == NameOf(side) && progressLocked && ListOf(Other(side)).Disabled())
      && !ListOf(Other(side)).firing
    }

    constructor ()
      ensures Quiet() && s == Init() && fresh(done) && fresh(fail)
    {
      done := new Callbacks();
      fail := new Callbacks();
      state, progressLocked, calls, s := StillPending, false, [], Init();
    }

    /** Between two turns of the firing loop. */
    ghost predicate Midway()
      reads this, done, fail
    {
      s.outcome.Settled? && Looping(s.outcome.side, s.outcome.value, 3, ListOf(s.outcome.side).firingIndex)
    }

    /** The firing loop has ended, or goes on with the next callback. */
    ghost predicate AtRest()
      reads this, done, fail
    {
      if CanRun(s) then Midway() else Quiet()
    }

    /** done and fail, called from outside or by a running callback; turns says what the callbacks call that run now. */
    method Add(ghost inside: bool, side: Side, cs: seq<Callback>, turns: seq<seq<Action>>)
      requires if inside then Busy() else Quiet()
      modifies this, done, fail
      ensures inside ==> Busy() && s == WithAdded(old(s), side, cs)
      ensures inside ==> ListOf(s.outcome.side).firingIndex == old(ListOf(s.outcome.side).firingIndex)
      ensures !inside ==> AtRest() && s == Turns(WithAdded(old(s), side, cs), turns)
      decreases if inside then 0 else 1, 1
    {
      hide Rest, Turns, WithAdded, Queue;
      var l := ListOf(side);
      LongerQueue(s, side, cs);
      s := WithAdded(s, side, cs);
      NoTurns(s, turns);
      RestEnd();
      RestPush(0, old(Queue(s, side)), cs);
      RestPush(3, old(Queue(s, side)), cs);
      if l.list.Some? {
        var start := |l.list.value|;
        PushShift(l.list.value, Users(cs), if inside then l.firingIndex + 1 else 0);
        l.Push(cs);
        if l.firing {
          l.firingLength := |l.list.value|;
        } else if l.memory.Some? {
          l.firingStart := start;
          Fire(side, l.memory.value, 3, turns);
        }
      }
    }

    /** fireWith, for resolve and reject. */
    method FireWith(ghost inside: bool, side: Side, value: Value, turns: seq<seq<Action>>)
      requires if inside then Busy() else Quiet()
      modifies this, done, fail
      ensures inside ==> Busy() && s == WithOutcome(old(s), side, value)
      ensures inside ==> ListOf(s.outcome.side).firingIndex == old(ListOf(s.outcome.side).firingIndex)
      ensures !inside ==> AtRest() && s == Turns(WithOutcome(old(s), side, value), turns)
      ensures old(s.outcome.Pending?) ==> state == if side.Done? then Resolved else Rejected
      decreases if inside then 0 else 1, 1
    {
      var l := ListOf(side);
      hide Rest, Turns;
      s := WithOutcome(s, side, value);
      NoTurns(s, turns);
      if l.list.Some? && !l.fired {
        Fire(side, value, 0, turns);
      }
    }

    /** fire, up to its loop. */
    method Fire(side: Side, value: Value, ghost k: nat, turns: seq<seq<Action>>)
      requires MayFire(side, value, k)
      modifies this, done, fail
      ensures AtRest() && s == Turns(old(s), turns) && s.outcome == old(s.outcome)
      decreases 0, 7
    {
      hide Rest, Turns;
      var l := ListOf(side);
      l.memory := Some(value);
      l.fired := true;
      l.firingIndex := l.firingStart;
      l.firingStart := 0;
      l.firingLength := |l.list.value|;
      l.firing := true;
      FireLoop(side, value, k, turns);
    }

    /** The loop of fire, which may be watched for as many callbacks as turns tells the calls of. */
    method FireLoop(side: Side, value: Value, ghost k0: nat, turns: seq<seq<Action>>)
      requires Looping(side, value, k0, ListOf(side).firingIndex)
      modifies this, done, fail
      ensures AtRest() && s == Turns(old(s), turns) && s.outcome == old(s.outcome)
      decreases 0, 6
    {
      hide Rest, Turn, Turns;
      var l := ListOf(side);
      ghost var k := k0;
      var rest := turns;
      while l.list.Some? && l.firingIndex < l.firingLength
        invariant Looping(side, value, k, l.firingIndex)
        invariant Turns(s, rest) == Turns(old(s), turns)
        decreases 3 - k, |rest|
      {
        var e := l.list.value[l.firingIndex];
        UnfoldTurns(s, rest);
        if e.User? && rest == [] {
          FrontEntry(side, value, k);
          return;
        }
        RunEntry(side, value, e, k, if rest == [] then [] else rest[0]);
        if e.User? {
          rest := rest[1..];
        } else {
          k := k + 1;
        }
        l.firingIndex := l.firingIndex + 1;
      }
      RestIsOver(k, Queue(s, side));
      NoTurns(s, rest);
      l.firing := false;
      if l.list.Some? {
        assert l.memory.Some?;
        l.list := Some([]);
      }
    }

    /** An entry of the intro. */
    method RunIntro(side: Side, value: Value, e: Entry, ghost k: nat)
      requires k < 3 && Looping(side, value, k, ListOf(side).firingIndex)
      requires ListOf(side).firingIndex < ListOf(side).firingLength
      requires e == Intro()[k] && ListOf(side).list.value[ListOf(side).firingIndex + 1..] == Rest(k + 1, Queue(s, side))
      modifies `state, `progressLocked, ListOf(Other(side))
      ensures Looping(side, value, k + 1, ListOf(side).firingIndex + 1)
    {
      hide Rest;
      match e
      case SetState => state := NameOf(side);
      case DisableOther => ListOf(Other(side)).Disable();
      case LockProgress => progressLocked := true;
    }

    /** A callback of the user, which makes the given calls. */
    method RunUser(side: Side, value: Value, c: Callback, actions: seq<Action>)
      requires Looping(side, value, 3, ListOf(side).firingIndex) && CanRun(s) && c == Queue(s, side)[0]
      requires ListOf(side).firingIndex < ListOf(side).firingLength
      requires ListOf(side).list.value[ListOf(side).firingIndex + 1..] == Rest(3, Queue(s, side)[1..])
      modifies this, done, fail
      ensures Looping(side, value, 3, ListOf(side).firingIndex + 1)
      ensures ListOf(side).firingIndex == old(ListOf(side).firingIndex) && s == Turn(old(s), actions)
      decreases 0, 4
    {
      hide Rest;
      calls := calls + [Run(c, side, value)];
      s := PopFront(s);
      ActionsAdd(s, actions);
      ActAll(actions);
    }

    lemma FrontEntry(side: Side, value: Value, k: nat)
      requires Looping(side, value, k, ListOf(side).firingIndex)
      requires ListOf(side).firingIndex < ListOf(side).firingLength
      ensures var i, l, q := ListOf(side).firingIndex, ListOf(side).list.value, Queue(s, side);
              if k < 3 then l[i] == Intro()[k] && l[i + 1..] == Rest(k + 1, q)
              else q != [] && l[i] == User(q[0]) && l[i + 1..] == Rest(3, q[1..])
    {
      hide Rest;
      var l, q := ListOf(side), Queue(s, side);
      RestFront(k, q);
      Shift(l.list.value, l.firingIndex, if k < 3 then Intro()[k] else User(q[0]),
            if k < 3 then Rest(k + 1, q) else Rest(3, q[1..]));
    }

    method RunEntry(side: Side, value: Value, e: Entry, ghost k: nat, actions: seq<Action>)
      requires Looping(side, value, k, ListOf(side).firingIndex)
      requires ListOf(side).firingIndex < ListOf(side).firingLength
      requires e == ListOf(side).list.value[ListOf(side).firingIndex]
      modifies this, done, fail
      ensures Looping(side, value, if e.User? then k else k + 1, ListOf(side).firingIndex + 1)
      ensures ListOf(side).firingIndex == old(ListOf(side).firingIndex)
      ensures if e.User? then k == 3 && CanRun(old(s)) && s == Turn(old(s), actions) else k < 3 && s == old(s)
      decreases 0, 5
    {
      hide Rest, Turn;
      FrontEntry(side, value, k);
      match e
      case User(c) => RunUser(side, value, c, actions);
      case _ => RunIntro(side, value, e, k);
    }

    /** The calls of a running callback. */
    method ActAll(actions: seq<Action>)
      requires Busy()
      modifies this, done, fail
      ensures Busy() && s == PerformAll(old(s), actions) && s.outcome == old(s.outcome)
      ensures ListOf(s.outcome.side).firingIndex == old(ListOf(s.outcome.side).firingIndex)
      decreases 0, 3
    {
      for i := 0 to |actions|
        invariant Busy() && s.outcome == old(s.outcome)
        invariant PerformAll(s, actions[i..]) == PerformAll(old(s), actions)
        invariant ListOf(s.outcome.side).firingIndex == old(ListOf(s.outcome.side).firingIndex)
      {
        assert actions[i..][1..] == actions[i + 1..];
        Act(true, actions[i], []);
      }
    }

    /** One call of done, fail, resolve or reject. */
    method Act(ghost inside: bool, a: Action, turns: seq<seq<Action>>)
      requires if inside then Busy() else Quiet()
      modifies this, done, fail
      ensures inside ==> Busy() && s == Perform(old(s), a) && s.outcome == old(s.outcome)
      ensures inside ==> ListOf(s.outcome.side).firingIndex == old(ListOf(s.outcome.side).firingIndex)
      ensures !inside ==> AtRest() && s == Turns(Perform(old(s), a), turns)
      decreases if inside then 0 else 1, 2
    {
      hide Turns;
      match a
      case Add(side, callbacks) => Add(inside, side, callbacks, turns);
      case Settle(side, value) => FireWith(inside, side, value, turns);
    }

    /** More of a firing loop that was left midway. */
    method GoOn(turns: seq<seq<Action>>)
      requires Midway()
      modifies this, done, fail
      ensures AtRest() && s == Turns(old(s), turns)
    {
      hide Turns;
      var side := if state.Resolved? then Done else Fail;
      FireLoop(side, ListOf(side).memory.value, 3, turns);
    }
  }

  lemma UnfoldTurns(s: State, turns: seq<seq<Action>>)
    ensures CanRun(s) && turns != [] ==> Turns(s, turns) == Turns(Turn(s, turns[0]), turns[1..])
    ensures turns == [] ==> Turns(s, turns) == s
  {
  }

  lemma NoTurns(s: State, turns: seq<seq<Action>>)
    ensures !CanRun(s) ==> Turns(s, turns) == s
  {
  }
}
