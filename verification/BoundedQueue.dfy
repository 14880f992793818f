/** muduo::BoundedBlockingQueue as steps over its mutex and two condition variables. A step is what one thread does
    between taking the mutex and giving it up again, by returning or by waiting; waits may end spuriously. */
module BoundedQueue {
  type Thread = nat

  /** One side of the queue: the threads inside wait(), and those woken that do not have the mutex yet. */
  datatype Side = Side(waiting: set<Thread>, woken: set<Thread>)

  /** pending holds the items of the threads that wait in put. */
  datatype State<T> = State(
    capacity: nat,
    queue: seq<T>,
    takers: Side,
    putters: Side,
    pending: map<Thread, T>)

  /** notified is the waiting thread that the step's notify() wakes, when there is one. */
  datatype Event<T> =
    | Put(thread: Thread, item: T, notified: Thread)
    | Take(thread: Thread, notified: Thread)
    | Spurious(thread: Thread)

  function Init<T>(capacity: nat): State<T> { State(capacity, [], Side({}, {}), Side({}, {}), map[]) }

  predicate Outside(side: Side, t: Thread) { t !in side.waiting && t !in side.woken }

  /** notify() wakes one waiting thread, if any. */
  predicate MayNotify(side: Side, w: Thread) { side.waiting != {} ==> w in side.waiting }

  function Wake(side: Side, w: Thread): Side {
    if w in side.waiting then Side(side.waiting - {w}, side.woken + {w}) else side
  }

  /** The thread has the mutex again. */
  function Awake(side: Side, t: Thread): Side { side.(woken := side.woken - {t}) }

  function Wait(side: Side, t: Thread): Side { Side(side.waiting + {t}, side.woken - {t}) }

  /** A thread starts an operation when it is in none, and continues one when it was woken. */
  ghost predicate Enabled<T>(s: State<T>, e: Event<T>) {
    match e
    case Put(t, x, w) =>
      Outside(s.takers, t) && MayNotify(s.takers, w)
      && (Outside(s.putters, t) || (t in s.putters.woken && t in s.pending && s.pending[t] == x))
    case Take(t, w) =>
      Outside(s.putters, t) && MayNotify(s.putters, w) && t !in s.takers.waiting
    case Spurious(t) => t in s.takers.waiting || t in s.putters.waiting
  }

  /** One step: the loop test, then either wait() or the transfer and notify(). */
  ghost function Apply<T>(s: State<T>, e: Event<T>): State<T> {
    match e
    case Put(t, x, w) =>
      if |s.queue| == s.capacity then s.(putters := Wait(s.putters, t), pending := s.pending[t := x])
      else
        s.(queue := s.queue + [x], putters := Awake(s.putters, t), takers := Wake(s.takers, w))
    case Take(t, w) =>
      if |s.queue| == 0 then s.(takers := Wait(s.takers, t))
      else
        s.(queue := s.queue[1..], takers := Awake(s.takers, t), putters := Wake(s.putters, w))
    case Spurious(t) => s.(takers := Wake(s.takers, t), putters := Wake(s.putters, t))
  }

  // ---------- the invariant ----------

  /** While a thread waits, each of the n chances to go on has a thread of its own that is already awake. */
  predicate Covered(side: Side, n: int) { side.waiting != {} ==> n <= |side.woken| }

  predicate Separate(side: Side) { side.waiting !! side.woken }

  /** No thread is in both operations. */
  predicate Apart(a: Side, b: Side) { a.waiting + a.woken !! b.waiting + b.woken }

  ghost predicate Inv<T>(s: State<T>) { Safe(s) && Apart(s.takers, s.putters) }

  ghost predicate Safe<T>(s: State<T>) {
    && Separate(s.takers) && Separate(s.putters)
    && |s.queue| <= s.capacity
    && Covered(s.takers, |s.queue|) && Covered(s.putters, s.capacity - |s.queue|)
  }

  lemma WithinCapacity<T>(s: State<T>)
    requires Inv(s)
    ensures |s.queue| <= s.capacity
  {
  }

  lemma WakeCovers(side: Side, w: Thread, n: int)
    requires Separate(side) && MayNotify(side, w) && Covered(side, n)
    ensures Separate(Wake(side, w)) && Covered(Wake(side, w), n + 1)
  {
    if w in side.waiting {
      assert |side.woken + {w}| == |side.woken| + 1;
    }
  }

  lemma SpuriousCovers(side: Side, w: Thread, n: int)
    requires Separate(side) && Covered(side, n)
    ensures Separate(Wake(side, w)) && Covered(Wake(side, w), n)
  {
    if w in side.waiting {
      assert |side.woken + {w}| == |side.woken| + 1;
    }
  }

  lemma AwakeCovers(side: Side, t: Thread, n: int)
    requires Separate(side) && Covered(side, n)
    ensures Separate(Awake(side, t)) && Covered(Awake(side, t), n - 1)
  {
    if t in side.woken {
      assert side.woken == (side.woken - {t}) + {t};
    } else {
      assert side.woken - {t} == side.woken;
    }
  }

  lemma WaitCovers(side: Side, t: Thread, n: int)
    requires Separate(side) && n <= 0
    ensures Separate(Wait(side, t)) && Covered(Wait(side, t), n)
  {
  }

  lemma StepStaysApart<T>(s: State<T>, e: Event<T>)
    requires Apart(s.takers, s.putters) && Enabled(s, e)
    ensures Apart(Apply(s, e).takers, Apply(s, e).putters)
  {
  }

  lemma PutKeepsCover<T>(s: State<T>, t: Thread, x: T, w: Thread)
    requires Inv(s) && Enabled(s, Put(t, x, w))
    ensures Safe(Apply(s, Put(t, x, w)))
  {
    hide Separate, Covered, Wake, Awake, Wait, Outside, Apart;
    var n, free := |s.queue|, s.capacity - |s.queue|;
    if n == s.capacity {
      WaitCovers(s.putters, t, free);
    } else {
      WakeCovers(s.takers, w, n);
      AwakeCovers(s.putters, t, free);
    }
  }

  lemma TakeKeepsCover<T>(s: State<T>, t: Thread, w: Thread)
    requires Inv(s) && Enabled(s, Take(t, w))
    ensures Safe(Apply(s, Take(t, w)))
  {
    hide Separate, Covered, Wake, Awake, Wait, Outside, Apart;
    var n, free := |s.queue|, s.capacity - |s.queue|;
    if n == 0 {
      WaitCovers(s.takers, t, n);
    } else {
      AwakeCovers(s.takers, t, n);
      WakeCovers(s.putters, w, free);
    }
  }

  lemma SpuriousKeepsCover<T>(s: State<T>, t: Thread)
    requires Inv(s) && Enabled(s, Spurious(t))
    ensures Safe(Apply(s, Spurious(t)))
  {
    hide Separate, Covered, Wake, Outside, Apart;
    SpuriousCovers(s.takers, t, |s.queue|);
    SpuriousCovers(s.putters, t, s.capacity - |s.queue|);
  }

  lemma StepKeepsInv<T>(s: State<T>, e: Event<T>)
    requires Inv(s) && Enabled(s, e)
    ensures Inv(Apply(s, e)) && Apply(s, e).capacity == s.capacity
  {
    StepStaysApart(s, e);
    hide Safe, Apart, Wake, Awake, Wait, Enabled;
    match e
    case Put(t, x, w) => PutKeepsCover(s, t, x, w);
    case Take(t, w) => TakeKeepsCover(s, t, w);
    case Spurious(t) => SpuriousKeepsCover(s, t);
  }

  /** An operation ends with its thread outside, or with the thread in the wait of its own condition. */
  lemma EndsOrWaits<T>(s: State<T>, e: Event<T>)
    requires Inv(s) && Enabled(s, e)
    ensures var t := Apply(s, e);
            && (e.Put? ==>
                  if |s.queue| < s.capacity then Outside(t.putters, e.thread)
                  else e.thread in t.putters.waiting && e.thread in t.pending && t.pending[e.thread] == e.item)
            && (e.Take? ==> if s.queue != [] then Outside(t.takers, e.thread) else e.thread in t.takers.waiting)
  {
    hide Covered;
  }

  // ---------- runs ----------

  ghost predicate IsRun<T>(s: State<T>, es: seq<Event<T>>)
    decreases |es|
  {
    es == [] || (Enabled(s, es[0]) && IsRun(Apply(s, es[0]), es[1..]))
  }

  ghost function After<T>(s: State<T>, es: seq<Event<T>>): State<T>
    decreases |es|
  {
    if es == [] then s else After(Apply(s, es[0]), es[1..])
  }

  lemma {:induction false} RunKeepsInv<T>(s: State<T>, es: seq<Event<T>>)
    requires Inv(s) && IsRun(s, es)
    ensures Inv(After(s, es)) && After(s, es).capacity == s.capacity
    decreases |es|
  {
    hide Inv, Enabled, Apply;
    if es != [] {
      StepKeepsInv(s, es[0]);
      RunKeepsInv(Apply(s, es[0]), es[1..]);
    }
  }

  /** The item that a put brings, when it finds room. */
  ghost function PutBy<T>(s: State<T>, e: Event<T>): seq<T> {
    if e.Put? && |s.queue| < s.capacity then [e.item] else []
  }

  /** The front item, when a take finds one. */
  ghost function TakenBy<T>(s: State<T>, e: Event<T>): seq<T> {
    if e.Take? && s.queue != [] then [s.queue[0]] else []
  }

  ghost function ItemsPut<T>(s: State<T>, es: seq<Event<T>>): seq<T>
    decreases |es|
  {
    if es == [] then [] else PutBy(s, es[0]) + ItemsPut(Apply(s, es[0]), es[1..])
  }

  ghost function ItemsTaken<T>(s: State<T>, es: seq<Event<T>>): seq<T>
    decreases |es|
  {
    if es == [] then [] else TakenBy(s, es[0]) + ItemsTaken(Apply(s, es[0]), es[1..])
  }

  /** A step does nothing else to the queue. */
  lemma StepConserves<T>(s: State<T>, e: Event<T>)
    requires |s.queue| <= s.capacity
    ensures TakenBy(s, e) + Apply(s, e).queue == s.queue + PutBy(s, e)
  {
  }

  lemma {:induction false} RunConserves<T>(s: State<T>, es: seq<Event<T>>)
    requires Inv(s) && IsRun(s, es)
    ensures ItemsTaken(s, es) + After(s, es).queue == s.queue + ItemsPut(s, es)
    decreases |es|
  {
    hide Inv, Enabled, Apply, PutBy, TakenBy;
    if es != [] {
      var t := Apply(s, es[0]);
      StepKeepsInv(s, es[0]);
      WithinCapacity(s);
      StepConserves(s, es[0]);
      RunConserves(t, es[1..]);
      var left, more := After(t, es[1..]).queue, ItemsPut(t, es[1..]);
      assert TakenBy(s, es[0]) + ItemsTaken(t, es[1..]) + left == TakenBy(s, es[0]) + (ItemsTaken(t, es[1..]) + left);
      assert TakenBy(s, es[0]) + (t.queue + more) == (TakenBy(s, es[0]) + t.queue) + more;
      assert (s.queue + PutBy(s, es[0])) + more == s.queue + (PutBy(s, es[0]) + more);
    }
  }

  /** In every run the items that were put and found room come out in this order, and the others are inside, at most
      capacity of them; while a taker waits every item has an awake taker of its own, and while a putter waits every
      free slot an awake putter. */
  lemma EveryRun<T>(capacity: nat, es: seq<Event<T>>)
    requires IsRun(Init<T>(capacity), es)
    ensures var s := After(Init<T>(capacity), es);
            && ItemsTaken(Init<T>(capacity), es) + s.queue == ItemsPut(Init<T>(capacity), es) && |s.queue| <= capacity
            && (s.takers.waiting != {} ==> |s.queue| <= |s.takers.woken|)
            && (s.putters.waiting != {} ==> capacity - |s.queue| <= |s.putters.woken|)
  {
    RunKeepsInv(Init<T>(capacity), es);
    RunConserves(Init<T>(capacity), es);
    hide IsRun, After, Apply, ItemsPut, ItemsTaken;
    assert [] + ItemsPut(Init<T>(capacity), es) == ItemsPut(Init<T>(capacity), es);
  }

  /** No wakeup is lost: when nobody is on its way, a waiting taker means an empty queue and a waiting putter a full
      one, so with room for one item takers and putters never wait at the same time. */
  lemma NoLostWakeup<T>(capacity: nat, es: seq<Event<T>>)
    requires IsRun(Init<T>(capacity), es) && capacity >= 1
    ensures var s := After(Init<T>(capacity), es);
            s.takers.woken == {} && s.putters.woken == {} ==>
              && (s.takers.waiting != {} ==> s.queue == [])
              && (s.putters.waiting != {} ==> |s.queue| == capacity)
              && (s.takers.waiting == {} || s.putters.waiting == {})
  {
    RunKeepsInv(Init<T>(capacity), es);
  }

  /** Whenever a taker waits although there is an item, some woken taker can take the front item next. */
  lemma ItemIsTaken<T>(capacity: nat, es: seq<Event<T>>) returns (e: Event<T>)
    requires IsRun(Init<T>(capacity), es)
    requires var s := After(Init<T>(capacity), es);
             s.takers.waiting != {} && s.queue != []
    ensures var s := After(Init<T>(capacity), es);
            Enabled(s, e) && e.Take? && e.thread in s.takers.woken && Apply(s, e).queue == s.queue[1..]
  {
    RunKeepsInv(Init<T>(capacity), es);
    var s := After(Init<T>(capacity), es);
    assert s.takers.woken != {};
    var t :| t in s.takers.woken;
    var w := 0;
    if s.putters.waiting != {} {
      w :| w in s.putters.waiting;
    }
    e := Take(t, w);
  }

  /** Every thread inside put brings an item. */
  ghost predicate Laden<T>(s: State<T>) {
    forall t :: t in s.putters.waiting || t in s.putters.woken ==> t in s.pending
  }

  lemma StepStaysLaden<T>(s: State<T>, e: Event<T>)
    requires Laden(s) && Enabled(s, e)
    ensures Laden(Apply(s, e))
  {
  }

  lemma {:induction false} RunStaysLaden<T>(s: State<T>, es: seq<Event<T>>)
    requires Laden(s) && IsRun(s, es)
    ensures Laden(After(s, es))
    decreases |es|
  {
    hide Laden, Enabled, Apply;
    if es != [] {
      StepStaysLaden(s, es[0]);
      RunStaysLaden(Apply(s, es[0]), es[1..]);
    }
  }

  /** Whenever a putter waits although there is a free slot, some woken putter can put the item it brings next. */
  lemma ItemIsPut<T>(capacity: nat, es: seq<Event<T>>) returns (e: Event<T>)
    requires IsRun(Init<T>(capacity), es)
    requires var s := After(Init<T>(capacity), es);
             s.putters.waiting != {} && |s.queue| < capacity
    ensures var s := After(Init<T>(capacity), es);
            && Enabled(s, e) && e.Put? && e.thread in s.putters.woken
            && e.thread in s.pending && e.item == s.pending[e.thread] && Apply(s, e).queue == s.queue + [e.item]
  {
    RunKeepsInv(Init<T>(capacity), es);
    RunStaysLaden(Init<T>(capacity), es);
    var s := After(Init<T>(capacity), es);
    assert s.putters.woken != {};
    var t :| t in s.putters.woken;
    var w := 0;
    if s.takers.waiting != {} {
      w :| w in s.takers.waiting;
    }
    e := Put(t, s.pending[t], w);
  }

  /** The capacity of at least one is needed: into a queue without room nothing ever gets, in any run. */
  lemma {:induction false} NothingThroughNoRoom<T>(s: State<T>, es: seq<Event<T>>)
    requires IsRun(s, es) && s.capacity == 0 && s.queue == []
    ensures ItemsPut(s, es) == [] && ItemsTaken(s, es) == [] && After(s, es).queue == []
    decreases |es|
  {
    if es != [] {
      NothingThroughNoRoom(Apply(s, es[0]), es[1..]);
    }
  }

  // ---------- the class ----------

  class BoundedBlockingQueue<T> {
    const capacity: nat
    var queue: seq<T>
    // the wait sets of notEmpty_ and notFull_ with the threads leaving them, and what the waiting putters bring
    var takers: Side
    var putters: Side
    var pending: map<Thread, T>

    constructor (maxSize: nat)
      ensures View() == Init<T>(maxSize)
    {
      capacity, queue := maxSize, [];
      takers, putters, pending := Side({}, {}), Side({}, {}), map[];
    }

    ghost function View(): State<T>
      reads this
    {
      State(capacity, queue, takers, putters, pending)
    }

    /** put, from the mutex to the return or to notFull_.wait(). */
    method PutStep(t: Thread, x: T, notified: Thread) returns (done: bool)
      requires Inv(View()) && Enabled(View(), Put(t, x, notified))
      modifies this
      ensures View() == Apply(old(View()), Put(t, x, notified)) && Inv(View())
      ensures done <==> |old(queue)| < capacity
      ensures queue == if done then old(queue) + [x] else old(queue)
      ensures if done then Outside(putters, t) else t in putters.waiting && t in pending && pending[t] == x
    {
      hide Inv, Enabled, Wait, Wake, Awake, Outside;
      assert |queue| <= capacity by { WithinCapacity(View()); }
      StepKeepsInv(View(), Put(t, x, notified));
      EndsOrWaits(View(), Put(t, x, notified));
      if |queue| == capacity {
        putters, pending := Wait(putters, t), pending[t := x];
        return false;
      }
      putters := Awake(putters, t);
      queue := queue + [x];
      takers := Wake(takers, notified);
      done := true;
    }

    /** take, from the mutex to the return or to notEmpty_.wait(). */
    method TakeStep(t: Thread, notified: Thread) returns (done: bool, front: seq<T>)
      requires Inv(View()) && Enabled(View(), Take(t, notified))
      modifies this
      ensures View() == Apply(old(View()), Take(t, notified)) && Inv(View())
      ensures done <==> old(queue) != []
      ensures front + queue == old(queue) && |front| == if done then 1 else 0
      ensures if done then Outside(takers, t) else t in takers.waiting
    {
      hide Inv, Enabled, Wait, Wake, Awake, Outside;
      StepKeepsInv(View(), Take(t, notified));
      EndsOrWaits(View(), Take(t, notified));
      if |queue| == 0 {
        takers := Wait(takers, t);
        return false, [];
      }
      takers := Awake(takers, t);
      front := [queue[0]];
      queue := queue[1..];
      putters := Wake(putters, notified);
      done := true;
    }

    /** A wait that ends without a notification. */
    method SpuriousWake(t: Thread)
      requires Inv(View()) && Enabled(View(), Spurious(t))
      modifies this
      ensures View() == Apply(old(View()), Spurious(t)) && Inv(View())
    {
      hide Inv, Enabled, Wait, Wake, Awake;
      StepKeepsInv(View(), Spurious(t));
      takers, putters := Wake(takers, t), Wake(putters, t);
    }
  }
}
