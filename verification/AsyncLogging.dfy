/** muduo::AsyncLogging: producers and one writer thread exchange buffers under a mutex. A step is what one thread does
    while it holds the mutex, or a piece of the writer's work outside of it; the steps interleave in any order. */
module AsyncLogging {
  import opened Bytes
  import opened Sequences

  type Line = bytes

  const CAPACITY: nat := 4000 * 1000
  const MOST_BUFFERS: nat := 25

  /** Where the writer is: at the loop test, inside the timed wait, past the exchange, having written some of its
      buffers, and past the loop. */
  datatype Phase = Top | Waiting | Taken | Writing(next: nat) | Stopped

  /** What the log file receives: the bytes of one buffer, or the notice that a number of buffers was dropped. */
  datatype Item = Text(text: bytes) | Notice(buffers: nat)

  type Content = seq<Line>

  /** current, spare, full and the writer's free1, free2 and toWrite are the buffers, each as the lines it holds.
      logged, batches and taken record the lines that fit a buffer, the finished batches and the batch in work. */
  datatype State = State(
    running: bool,
    current: Content,
    spare: Option<Content>,
    full: seq<Content>,
    phase: Phase,
    free1: Option<Content>,
    free2: Option<Content>,
    toWrite: seq<Content>,
    output: seq<Item>,
    logged: seq<Line>,
    batches: seq<seq<Content>>,
    taken: seq<Content>)

  datatype Event = Append(line: Line) | Stop | Enter | Wake | Trim | Write | Refill

  function Init(): State {
    State(true, [], Some([]), [], Top, Some([]), Some([]), [], [], [], [], [])
  }

  predicate Fits(buffer: Content, line: Line) { CAPACITY - |Flat(buffer)| > |line| }

  /** FixedBuffer::append: a line without room is left out. */
  function Put(buffer: Content, line: Line): Content { if Fits(buffer, line) then buffer + [line] else buffer }

  /** The exchange under the mutex. */
  function Swap(s: State): State {
    s.(full := [],
       current := if s.free1.Some? then s.free1.value else [],
       free1 := None,
       spare := if s.spare.None? then s.free2 else s.spare,
       free2 := if s.spare.None? then None else s.free2,
       toWrite := s.full + [s.current],
       taken := s.full + [s.current],
       phase := Taken)
  }

  /** More than 25 buffers are cut down to two. */
  function Kept(batch: seq<Content>): seq<Content> { if |batch| > MOST_BUFFERS then batch[..2] else batch }

  function Notices(batch: seq<Content>): seq<Item> {
    if |batch| > MOST_BUFFERS then [Notice(|batch| - 2)] else []
  }

  function AppendLine(s: State, line: Line): State {
    if Fits(s.current, line) then s.(current := s.current + [line])
    else
      s.(full := s.full + [s.current],
         current := Put(if s.spare.Some? then s.spare.value else [], line),
         spare := None)
  }

  /** The writer's spare buffers come from the back of what it has written, emptied. */
  function RefillBuffers(s: State): State {
    s.(free1 := Some([]), free2 := Some([]), toWrite := [],
       phase := Top, batches := s.batches + [s.taken], taken := [])
  }

  predicate Enabled(s: State, e: Event) {
    match e
    case Append(_) => true
    case Stop => true
    case Enter => s.phase.Top?
    case Wake => s.phase.Waiting?
    case Trim => s.phase.Taken?
    case Write => s.phase.Writing? && s.phase.next < |s.toWrite|
    case Refill => s.phase.Writing? && s.phase.next >= |s.toWrite|
  }

  function Apply(s: State, e: Event): State
    requires Enabled(s, e)
  {
    match e
    case Append(line) =>
      AppendLine(s, line).(logged := if |line| < CAPACITY then s.logged + [line] else s.logged)
    case Stop => s.(running := false)
    case Enter =>
      if !s.running then s.(phase := Stopped) else if s.full == [] then s.(phase := Waiting) else Swap(s)
    case Wake => Swap(s)
    case Trim => s.(toWrite := Kept(s.toWrite), output := s.output + Notices(s.toWrite), phase := Writing(0))
    case Write =>
      s.(output := s.output + [Text(Flat(s.toWrite[s.phase.next]))], phase := Writing(s.phase.next + 1))
    case Refill => RefillBuffers(s)
  }

  // ---------- what the log file holds ----------

  function Texts(buffers: seq<Content>): (r: seq<Item>)
    ensures |r| == |buffers| && forall i :: 0 <= i < |r| ==> r[i] == Text(Flat(buffers[i]))
  {
    seq(|buffers|, i requires 0 <= i < |buffers| => Text(Flat(buffers[i])))
  }

  /** A batch as it is written: all of it, or a notice and the first two buffers. */
  function Written(batch: seq<Content>): seq<Item> { Notices(batch) + Texts(Kept(batch)) }

  function AllWritten(batches: seq<seq<Content>>): seq<Item> {
    if batches == [] then [] else AllWritten(batches[..|batches| - 1]) + Written(batches[|batches| - 1])
  }

  /** The part of the batch in work that the log file already holds. */
  function Part(s: State): seq<Item> {
    if s.phase.Writing? && s.phase.next <= |s.toWrite| then Notices(s.taken) + Texts(s.toWrite[..s.phase.next]) else []
  }

  // ---------- the invariant ----------

  predicate Empty(b: Option<Content>) { b == Some([]) }

  /** What the asserts of both threads rely on. */
  predicate SparesReady(s: State) {
    && (s.spare.None? ==> s.full != [])
    && (s.spare.Some? ==> s.spare.value == [])
    && match s.phase
       case Taken => s.free1.None? && s.toWrite == s.taken != [] && FreeOrTwo(s)
       case Writing(k) => s.free1.None? && s.toWrite == Kept(s.taken) != [] && k <= |s.toWrite| && FreeOrTwo(s)
       case _ => Empty(s.free1) && Empty(s.free2) && s.toWrite == s.taken == []
  }

  /** The second free buffer was given away only when two buffers were taken in return. */
  predicate FreeOrTwo(s: State) { Empty(s.free2) || (s.free2.None? && |s.toWrite| >= 2) }

  /** Every line is in one place, in order. */
  predicate Accounted(s: State) {
    Flat(Flat(s.batches)) + Flat(s.taken) + Flat(s.full) + s.current == s.logged
  }

  predicate OutputSpells(s: State) { s.output == AllWritten(s.batches) + Part(s) }

  predicate Inv(s: State) { SparesReady(s) && Accounted(s) && OutputSpells(s) }

  lemma ReadyKept(s: State, e: Event)
    requires SparesReady(s) && Enabled(s, e)
    ensures SparesReady(Apply(s, e))
  {
  }

  lemma UnfoldAppend(s: State, line: Line)
    ensures Apply(s, Append(line)) == AppendLine(s, line).(
      logged := if |line| < CAPACITY then s.logged + [line] else s.logged)
  {
  }

  lemma Fresh(line: Line)
    ensures Fits([], line) <==> |line| < CAPACITY
  {
  }

  lemma AppendAccounted(s: State, line: Line)
    requires SparesReady(s) && Accounted(s)
    ensures Accounted(Apply(s, Append(line)))
  {
    Fresh(line);
    var before := Flat(Flat(s.batches)) + Flat(s.taken) + Flat(s.full);
    if Fits(s.current, line) {
      Associate(before, s.current, [line]);
    } else {
      FlatAppend(s.full, s.current);
      Associate(Flat(Flat(s.batches)) + Flat(s.taken), Flat(s.full), s.current);
    }
  }

  lemma SwapAccounted(s: State)
    requires SparesReady(s) && Accounted(s) && (s.phase.Top? || s.phase.Waiting?)
    ensures Accounted(Swap(s))
  {
    FlatAppend(s.full, s.current);
    var done := Flat(Flat(s.batches));
    assert done + (Flat(s.full) + s.current) == done + Flat(s.full) + s.current;
  }

  lemma FlatNothing()
    ensures Flat<Line>([]) == []
  {
  }

  lemma RefillAccounted(s: State)
    requires SparesReady(s) && Accounted(s) && Enabled(s, Refill)
    ensures Accounted(Apply(s, Refill))
  {
    hide Flat, SparesReady;
    FlatAppend(s.batches, s.taken);
    FlatConcat(Flat(s.batches), s.taken);
    FlatNothing();
    var done := Flat(Flat(s.batches)) + Flat(s.taken);
    assert done + [] + Flat(s.full) == done + Flat(s.full);
  }

  lemma TrimSpells(s: State)
    requires SparesReady(s) && OutputSpells(s) && Enabled(s, Trim)
    ensures OutputSpells(Apply(s, Trim))
  {
    hide AllWritten, Notices, Kept, Flat;
    assert Texts(Kept(s.taken)[..0]) == [];
  }

  lemma WriteSpells(s: State)
    requires SparesReady(s) && OutputSpells(s) && Enabled(s, Write)
    ensures OutputSpells(Apply(s, Write))
  {
    hide Notices, Kept, SparesReady, AllWritten, Flat;
    var k := s.phase.next;
    assert s.toWrite[..k + 1] == s.toWrite[..k] + [s.toWrite[k]];
    assert Texts(s.toWrite[..k + 1]) == Texts(s.toWrite[..k]) + [Text(Flat(s.toWrite[k]))];
    Associate(AllWritten(s.batches), Part(s), [Text(Flat(s.toWrite[k]))]);
    Associate(Notices(s.taken), Texts(s.toWrite[..k]), [Text(Flat(s.toWrite[k]))]);
  }

  lemma RefillSpells(s: State)
    requires SparesReady(s) && OutputSpells(s) && Enabled(s, Refill)
    ensures OutputSpells(Apply(s, Refill))
  {
    hide Notices, Kept, Texts;
    assert s.toWrite[..s.phase.next] == s.toWrite;
    assert (s.batches + [s.taken])[..|s.batches|] == s.batches;
  }

  lemma OutputKept(s: State, e: Event)
    requires SparesReady(s) && OutputSpells(s) && Enabled(s, e)
    ensures OutputSpells(Apply(s, e))
  {
    if e.Write? {
      WriteSpells(s);
    } else if e.Refill? {
      RefillSpells(s);
    } else if e.Trim? {
      TrimSpells(s);
    } else {
      hide AllWritten, Notices, Kept, Texts, Fits, Put, Flat;
    }
  }

  lemma AccountedKept(s: State, e: Event)
    requires SparesReady(s) && Accounted(s) && Enabled(s, e)
    ensures Accounted(Apply(s, e))
  {
    match e
    case Append(line) => AppendAccounted(s, line);
    case Enter => SwapAccounted(s);
    case Wake => SwapAccounted(s);
    case Refill => RefillAccounted(s);
    case _ =>
  }

  lemma StepKeepsInv(s: State, e: Event)
    requires Inv(s) && Enabled(s, e)
    ensures Inv(Apply(s, e))
  {
    hide SparesReady, Accounted, OutputSpells, Apply, Enabled;
    ReadyKept(s, e);
    AccountedKept(s, e);
    OutputKept(s, e);
  }

  // ---------- runs ----------

  predicate IsRun(s: State, es: seq<Event>)
    decreases |es|
  {
    es == [] || (Enabled(s, es[0]) && IsRun(Apply(s, es[0]), es[1..]))
  }

  function After(s: State, es: seq<Event>): State
    requires IsRun(s, es)
    decreases |es|
  {
    if es == [] then s else After(Apply(s, es[0]), es[1..])
  }

  /** The appended lines, without those too long for an empty buffer. */
  function Lines(es: seq<Event>): seq<Line> {
    if es == [] then []
    else if es[0].Append? && |es[0].line| < CAPACITY then [es[0].line] + Lines(es[1..])
    else Lines(es[1..])
  }

  lemma {:induction false} RunKeepsInv(s: State, es: seq<Event>)
    requires Inv(s) && IsRun(s, es)
    ensures Inv(After(s, es)) && After(s, es).logged == s.logged + Lines(es)
    decreases |es|
  {
    hide Inv, Apply, Enabled;
    if es != [] {
      StepKeepsInv(s, es[0]);
      LoggedOnce(s, es[0]);
      RunKeepsInv(Apply(s, es[0]), es[1..]);
    }
  }

  lemma InitInv()
    ensures Inv(Init())
  {
  }

  lemma LoggedOnce(s: State, e: Event)
    requires Enabled(s, e)
    ensures Apply(s, e).logged == s.logged + (if e.Append? && |e.line| < CAPACITY then [e.line] else [])
  {
    hide Fits, Put, Flat;
  }

  /** In every interleaving the finished batches, the batch in work, the full buffers and the current one hold the
      appended lines, whole and in order; the log file holds the batches, each of more than 25 buffers as a notice and
      its first two; and the asserts of both threads hold. */
  lemma EveryRun(es: seq<Event>)
    requires IsRun(Init(), es)
    ensures var s := After(Init(), es);
            && Flat(Flat(s.batches)) + Flat(s.taken) + Flat(s.full) + s.current == Lines(es)
            && s.output == AllWritten(s.batches) + Part(s)
            && SparesReady(s)
  {
    RunKeepsInv(Init(), es);
  }

  // ---------- the bytes in the log file ----------

  function Spoken(items: seq<Item>): bytes {
    if items == [] then []
    else Spoken(items[..|items| - 1]) + (if items[|items| - 1].Text? then items[|items| - 1].text else [])
  }

  /** What is left of the batches after the cuts. */
  function Survivors(batches: seq<seq<Content>>): seq<Content> {
    if batches == [] then [] else Survivors(batches[..|batches| - 1]) + Kept(batches[|batches| - 1])
  }

  function Announced(items: seq<Item>): nat {
    if items == [] then 0
    else Announced(items[..|items| - 1]) + (if items[|items| - 1].Notice? then items[|items| - 1].buffers else 0)
  }

  function BytesOf(buffers: seq<Content>): bytes { Flat(Flat(buffers)) }

  /** The buffers of the batch in work that are still to be written. */
  function Unwritten(s: State): seq<Content> {
    if s.phase.Taken? then Kept(s.toWrite)
    else if s.phase.Writing? && s.phase.next <= |s.toWrite| then s.toWrite[s.phase.next..]
    else []
  }

  lemma {:induction false} SpokenConcat(a: seq<Item>, b: seq<Item>)
    ensures Spoken(a + b) == Spoken(a) + Spoken(b) && Announced(a + b) == Announced(a) + Announced(b)
    decreases |b|
  {
    if b == [] {
      assert a + b == a;
    } else {
      assert (a + b)[..|a + b| - 1] == a + b[..|b| - 1];
      SpokenConcat(a, b[..|b| - 1]);
    }
  }

  lemma {:induction false} SpokenTexts(buffers: seq<Content>)
    ensures Spoken(Texts(buffers)) == BytesOf(buffers) && Announced(Texts(buffers)) == 0
  {
    if buffers != [] {
      var front, last := buffers[..|buffers| - 1], buffers[|buffers| - 1];
      SpokenTexts(front);
      assert Texts(buffers)[..|front|] == Texts(front);
      assert buffers == front + [last];
      FlatConcat(Flat(front), last);
    } else {
      assert Texts(buffers) == [];
    }
  }

  lemma SpokenNotices(batch: seq<Content>)
    ensures Spoken(Notices(batch)) == [] && Announced(Notices(batch)) == |batch| - |Kept(batch)|
  {
  }

  lemma SpokenWritten(batch: seq<Content>)
    ensures Spoken(Written(batch)) == BytesOf(Kept(batch)) && Announced(Written(batch)) == |batch| - |Kept(batch)|
  {
    hide Notices, Kept, Texts, Spoken, Announced, BytesOf;
    SpokenConcat(Notices(batch), Texts(Kept(batch)));
    SpokenNotices(batch);
    SpokenTexts(Kept(batch));
  }

  lemma BytesConcat(a: seq<Content>, b: seq<Content>)
    ensures BytesOf(a + b) == BytesOf(a) + BytesOf(b)
  {
    FlatConcat(a, b);
    FlatConcat(Flat(a), Flat(b));
  }

  /** Each buffer missing from the log file is announced in it. */
  lemma {:induction false} SpokenBatches(batches: seq<seq<Content>>)
    ensures Spoken(AllWritten(batches)) == BytesOf(Survivors(batches))
    ensures Announced(AllWritten(batches)) == |Flat(batches)| - |Survivors(batches)|
  {
    hide Written, Kept, Spoken, Announced, BytesOf;
    if batches == [] {
      Nothing();
    } else {
      var front, last := batches[..|batches| - 1], batches[|batches| - 1];
      SpokenBatches(front);
      SpokenConcat(AllWritten(front), Written(last));
      SpokenWritten(last);
      BytesConcat(Survivors(front), Kept(last));
    }
  }

  lemma Nothing()
    ensures Spoken([]) == BytesOf([]) == Flat<byte>([]) == [] && Announced([]) == 0
  {
  }

  /** The batch in work: what the log file holds of it, and what is still to come. */
  lemma SpokenPart(s: State)
    requires SparesReady(s)
    ensures Spoken(Part(s)) + BytesOf(Unwritten(s)) == BytesOf(Kept(s.taken))
    ensures Announced(Part(s)) == if s.phase.Writing? then |s.taken| - |Kept(s.taken)| else 0
  {
    hide Notices, Texts, Spoken, Announced, BytesOf;
    Nothing();
    if s.phase.Writing? {
      var k := s.phase.next;
      SpokenConcat(Notices(s.taken), Texts(s.toWrite[..k]));
      SpokenNotices(s.taken);
      SpokenTexts(s.toWrite[..k]);
      BytesConcat(s.toWrite[..k], s.toWrite[k..]);
      assert s.toWrite == s.toWrite[..k] + s.toWrite[k..];
    }
  }

  /** In every interleaving the log file, then what the writer still has to write, spell the batches after the cuts; and
      the notices in the log file count the buffers that were cut off. */
  lemma LogSpellsSurvivors(es: seq<Event>)
    requires IsRun(Init(), es)
    ensures var s := After(Init(), es);
            Spoken(s.output) + BytesOf(Unwritten(s)) == BytesOf(Survivors(s.batches + [s.taken]))
    ensures var s := After(Init(), es); !s.phase.Taken? ==>
            Announced(s.output) == |Flat(s.batches + [s.taken])| - |Survivors(s.batches + [s.taken])|
  {
    EveryRun(es);
    var s := After(Init(), es);
    hide IsRun, After, Part, Unwritten, Spoken, Announced, BytesOf, Flat, Survivors, AllWritten;
    SpokenConcat(AllWritten(s.batches), Part(s));
    SpokenBatches(s.batches);
    SpokenPart(s);
    BytesConcat(Survivors(s.batches), Kept(s.taken));
    SurvivorsAppend(s.batches, s.taken);
    FlatAppend(s.batches, s.taken);
    Associate(Spoken(AllWritten(s.batches)), Spoken(Part(s)), BytesOf(Unwritten(s)));
  }

  lemma SurvivorsAppend(batches: seq<seq<Content>>, last: seq<Content>)
    ensures Survivors(batches + [last]) == Survivors(batches) + Kept(last)
  {
    assert (batches + [last])[..|batches|] == batches;
  }

  ghost predicate NoneCut(batches: seq<seq<Content>>) {
    forall i :: 0 <= i < |batches| ==> |batches[i]| <= MOST_BUFFERS
  }

  lemma {:induction false} AllSurvive(batches: seq<seq<Content>>)
    requires NoneCut(batches)
    ensures Survivors(batches) == Flat(batches)
  {
    if batches != [] {
      AllSurvive(batches[..|batches| - 1]);
    }
  }

  /** While the writer keeps up, the log file and the buffers on their way spell the appended lines, byte for byte. */
  lemma NothingLost(es: seq<Event>)
    requires IsRun(Init(), es)
    requires var s := After(Init(), es); NoneCut(s.batches + [s.taken])
    ensures var s := After(Init(), es);
            Spoken(s.output) + BytesOf(Unwritten(s)) + BytesOf(s.full) + Flat(s.current) == Flat(Lines(es))
  {
    EveryRun(es);
    LogSpellsSurvivors(es);
    var s := After(Init(), es);
    hide IsRun, After, Part, Unwritten, Spoken, Survivors, AllWritten;
    AllSurvive(s.batches + [s.taken]);
    FlatAppend(s.batches, s.taken);
    FlatConcat(Flat(s.batches), s.taken);
    FlatConcat(Flat(Flat(s.batches)) + Flat(s.taken), Flat(s.full));
    FlatConcat(Flat(Flat(s.batches)) + Flat(s.taken) + Flat(s.full), s.current);
  }

  /** stop() while the writer is at its loop test loses what the buffers hold. */
  lemma LineLostAtStop(line: Line) returns (es: seq<Event>)
    requires |line| < CAPACITY
    ensures IsRun(Init(), es) && Lines(es) == [line]
    ensures After(Init(), es).phase.Stopped? && After(Init(), es).output == []
  {
    Fresh(line);
    var s1 := Apply(Init(), Append(line));
    var s2 := Apply(s1, Stop);
    var s3 := Apply(s2, Enter);
    es := [Append(line), Stop, Enter];
    assert es[1..] == [Stop, Enter] && es[1..][1..] == [Enter] && es[1..][1..][1..] == [];
    assert IsRun(s3, []) && After(s3, []) == s3;
    assert IsRun(s2, [Enter]) && After(s2, [Enter]) == s3;
    assert IsRun(s1, [Stop, Enter]) && After(s1, [Stop, Enter]) == s3;
    assert Lines([Enter]) == [] && Lines([Stop, Enter]) == [];
  }

  /** When the writer has stopped, having kept up, the log file holds all appended lines if and only if no bytes are
      left in the full buffers and in the current one. */
  lemma StopLosesNothing(es: seq<Event>)
    requires IsRun(Init(), es)
    requires var s := After(Init(), es); s.phase.Stopped? && NoneCut(s.batches)
    ensures var s := After(Init(), es);
            Spoken(s.output) == Flat(Lines(es)) <==> BytesOf(s.full) == [] && Flat(s.current) == []
  {
    EveryRun(es);
    var s := After(Init(), es);
    assert NoneCut(s.batches + [s.taken]);
    NothingLost(es);
    hide IsRun, After, Spoken, Flat, BytesOf, Lines, AllWritten, Part, NoneCut;
    Nothing();
    assert Unwritten(s) == [];
    assert Spoken(s.output) + [] + BytesOf(s.full) + Flat(s.current) == Flat(Lines(es));
    assert |Flat(Lines(es))| == |Spoken(s.output)| + |BytesOf(s.full)| + |Flat(s.current)|;
  }

  /** stop() finds the writer in its wait, from which it takes the buffers once more, or finds no bytes in them. */
  predicate LeavesNothing(s: State) { s.phase.Waiting? || (BytesOf(s.full) == [] && Flat(s.current) == []) }

  /** No batch was cut, nor would be the one that a waiting writer takes. */
  ghost predicate KeptUp(s: State) {
    NoneCut(s.batches + [s.taken]) && (s.phase.Waiting? ==> |s.full| < MOST_BUFFERS)
  }

  lemma NoneCutAppend(batches: seq<seq<Content>>, last: seq<Content>)
    ensures NoneCut(batches + [last]) <==> NoneCut(batches) && |last| <= MOST_BUFFERS
  {
    if NoneCut(batches + [last]) {
      assert (batches + [last])[|batches|] == last;
      forall i | 0 <= i < |batches|
        ensures |batches[i]| <= MOST_BUFFERS
      {
        assert (batches + [last])[i] == batches[i];
      }
    }
  }

  /** Without appends, each step of the writer after stop() keeps both. */
  lemma StoppingStep(s: State, e: Event)
    requires SparesReady(s) && Enabled(s, e) && !e.Append? && (!s.running || e.Stop?)
    ensures !Apply(s, e).running
    ensures LeavesNothing(Apply(s, e)) <==> LeavesNothing(s)
    ensures KeptUp(Apply(s, e)) <==> KeptUp(s)
  {
    hide NoneCut, Flat, BytesOf;
    Nothing();
    FlatNothing();
    NoneCutAppend(s.batches, s.taken);
    NoneCutAppend(s.batches, s.full + [s.current]);
    NoneCutAppend(s.batches + [s.taken], []);
  }

  lemma {:induction false} StoppingRun(s: State, es: seq<Event>)
    requires Inv(s) && IsRun(s, es) && (!s.running || (es != [] && es[0].Stop?))
    requires forall i :: 0 <= i < |es| ==> !es[i].Append?
    ensures LeavesNothing(After(s, es)) <==> LeavesNothing(s)
    ensures KeptUp(After(s, es)) <==> KeptUp(s)
    ensures Lines(es) == []
    decreases |es|
  {
    hide Apply, Enabled, SparesReady, Accounted, OutputSpells, LeavesNothing, KeptUp;
    if es != [] {
      StepKeepsInv(s, es[0]);
      StoppingStep(s, es[0]);
      StoppingRun(Apply(s, es[0]), es[1..]);
    }
  }

  lemma {:induction false} RunSplits(s: State, a: seq<Event>, b: seq<Event>)
    requires IsRun(s, a + b)
    ensures IsRun(s, a) && IsRun(After(s, a), b) && After(s, a + b) == After(After(s, a), b)
    ensures Lines(a + b) == Lines(a) + Lines(b)
    decreases |a|
  {
    hide Apply, Enabled;
    if a == [] {
      assert a + b == b;
    } else {
      assert (a + b)[1..] == a[1..] + b;
      RunSplits(Apply(s, a[0]), a[1..], b);
    }
  }

  /** What stop() finds decides: when nothing is appended afterwards and the writer has kept up, it stops with all
      appended lines in the log file if and only if it was waiting or the buffers held no bytes. */
  lemma StopDecides(before: seq<Event>, after: seq<Event>)
    requires IsRun(Init(), before + ([Stop] + after)) && After(Init(), before + ([Stop] + after)).phase.Stopped?
    requires forall i :: 0 <= i < |after| ==> !after[i].Append?
    requires IsRun(Init(), before) && KeptUp(After(Init(), before))
    ensures Spoken(After(Init(), before + ([Stop] + after)).output) == Flat(Lines(before)) <==>
            LeavesNothing(After(Init(), before))
  {
    hide Spoken, Lines, KeptUp, Apply, Enabled, Inv;
    var es := before + ([Stop] + after);
    RunSplits(Init(), before, [Stop] + after);
    InitInv();
    RunKeepsInv(Init(), before);
    StoppingRun(After(Init(), before), [Stop] + after);
    assert Lines(before) + [] == Lines(before);
    var s := After(Init(), es);
    assert NoneCut(s.batches) by { KeptUpIsUncut(s); }
    StopLosesNothing(es);
  }

  lemma KeptUpIsUncut(s: State)
    requires KeptUp(s)
    ensures NoneCut(s.batches)
  {
    NoneCutAppend(s.batches, s.taken);
  }

  /** A stopped writer writes nothing more, whatever is appended. */
  lemma {:induction false} StoppedStaysStopped(s: State, es: seq<Event>)
    requires s.phase.Stopped? && IsRun(s, es)
    ensures After(s, es).phase.Stopped? && After(s, es).output == s.output
    decreases |es|
  {
    if es != [] {
      StoppedStaysStopped(Apply(s, es[0]), es[1..]);
    }
  }

  // ---------- the class ----------

  /** muduo's FixedBuffer; lines are the lines whose bytes it holds. */
  class Buffer {
    var data: bytes
    ghost var lines: Content

    ghost predicate Valid()
      reads this
    {
      data == Flat(lines)
    }

    constructor ()
      ensures Valid() && lines == []
    {
      data, lines := [], [];
    }

    function Avail(): int
      reads this
    {
      CAPACITY - |data|
    }

    method Append(line: Line)
      requires Valid()
      modifies this
      ensures Valid() && lines == Put(old(lines), line)
    {
      if Avail() > |line| {
        FlatAppend(lines, line);
        data := data + line;
        lines := lines + [line];
      }
    }

    method Reset()
      modifies this
      ensures Valid() && lines == []
    {
      data, lines := [], [];
    }
  }

  ghost function ContentOf(b: Buffer?): Option<Content>
    reads b
  {
    if b == null then None else Some(b.lines)
  }

  ghost function Contents(bs: seq<Buffer>): (r: seq<Content>)
    reads bs
    ensures |r| == |bs| && forall i :: 0 <= i < |r| ==> r[i] == bs[i].lines
  {
    if bs == [] then [] else Contents(bs[..|bs| - 1]) + [bs[|bs| - 1].lines]
  }

  lemma ContentsAppend(bs: seq<Buffer>, b: Buffer)
    ensures Contents(bs + [b]) == Contents(bs) + [b.lines]
  {
    assert (bs + [b])[..|bs|] == bs;
  }

  lemma ContentsTake(bs: seq<Buffer>, k: nat)
    requires k <= |bs|
    ensures Contents(bs[..k]) == Contents(bs)[..k]
    ensures forall b :: b in bs[..k] ==> b in bs
    ensures Distinct(bs) ==> Distinct(bs[..k])
  {
  }

  predicate Distinct(bs: seq<Buffer>) { forall i, j :: 0 <= i < j < |bs| ==> bs[i] != bs[j] }

  class AsyncLogger {
    // under the mutex
    var running: bool
    var currentBuffer: Buffer
    var nextBuffer: Buffer?
    var buffers: seq<Buffer>
    // of the writer thread
    var phase: Phase
    var newBuffer1: Buffer?
    var newBuffer2: Buffer?
    var buffersToWrite: seq<Buffer>
    var output: seq<Item>
    ghost var logged: seq<Line>
    ghost var batches: seq<seq<Content>>
    ghost var taken: seq<Content>

    ghost function View(): State
      reads this, currentBuffer, nextBuffer, buffers, newBuffer1, newBuffer2, buffersToWrite
    {
      State(running, currentBuffer.lines, ContentOf(nextBuffer), Contents(buffers), phase,
            ContentOf(newBuffer1), ContentOf(newBuffer2), Contents(buffersToWrite),
            output, logged, batches, taken)
    }

    /** Each buffer has one owner. */
    ghost predicate OneOwner()
      reads `currentBuffer, `nextBuffer, `buffers, `newBuffer1, `newBuffer2, `buffersToWrite
    {
      && Distinct(buffers) && Distinct(buffersToWrite) && (forall b :: b in buffers ==> b !in buffersToWrite)
      && currentBuffer !in buffers + buffersToWrite
      && (nextBuffer != null ==> nextBuffer !in buffers + buffersToWrite)
      && (newBuffer1 != null ==> newBuffer1 !in buffers + buffersToWrite)
      && (newBuffer2 != null ==> newBuffer2 !in buffers + buffersToWrite)
      && currentBuffer != nextBuffer && currentBuffer != newBuffer1 && currentBuffer != newBuffer2
      && (nextBuffer != null ==> nextBuffer != newBuffer1 && nextBuffer != newBuffer2)
      && (newBuffer1 != null ==> newBuffer1 != newBuffer2)
    }

    ghost predicate Whole()
      reads `currentBuffer, `nextBuffer, `buffers, `newBuffer1, `newBuffer2, `buffersToWrite
      reads currentBuffer, nextBuffer, buffers, newBuffer1, newBuffer2, buffersToWrite
    {
      && currentBuffer.Valid() && (nextBuffer != null ==> nextBuffer.Valid())
      && (newBuffer1 != null ==> newBuffer1.Valid()) && (newBuffer2 != null ==> newBuffer2.Valid())
      && (forall b :: b in buffers ==> b.Valid()) && (forall b :: b in buffersToWrite ==> b.Valid())
    }

    ghost predicate Valid()
      reads this, currentBuffer, nextBuffer, buffers, newBuffer1, newBuffer2, buffersToWrite
    {
      OneOwner() && Whole() && Inv(View())
    }

    constructor ()
      ensures Valid() && View() == Init()
    {
      hide Inv, Flat, Contents;
      var current := new Buffer();
      var next := new Buffer();
      var free1 := new Buffer();
      var free2 := new Buffer();
      currentBuffer, nextBuffer, newBuffer1, newBuffer2 := current, next, free1, free2;
      running, buffers, phase, buffersToWrite, output := true, [], Top, [], [];
      logged, batches, taken := [], [], [];
      InitInv();
    }

    method AppendToCurrent(line: Line)
      requires OneOwner() && Whole()
      modifies currentBuffer
      ensures OneOwner() && Whole()
      ensures View() == old(View()).(current := Put(old(View().current), line))
    {
      hide Put, Flat, Contents;
      currentBuffer.Append(line);
    }

    /** The current buffer goes to the full ones, and the spare or a new one takes its place. */
    method PutAside()
      requires OneOwner() && Whole()
      modifies this
      ensures OneOwner() && Whole()
      ensures currentBuffer == old(nextBuffer) || fresh(currentBuffer)
      ensures View() == old(View()).(
        full := old(View().full) + [old(View().current)], spare := None,
        current := if old(View().spare).None? then [] else old(View().spare.value))
    {
      hide Flat, Contents;
      ContentsAppend(buffers, currentBuffer);
      buffers := buffers + [currentBuffer];
      if nextBuffer != null {
        currentBuffer := nextBuffer;
        nextBuffer := null;
      } else {
        currentBuffer := new Buffer();
      }
    }

    lemma RoomInCurrent(line: Line)
      requires Whole()
      ensures currentBuffer.Avail() > |line| <==> Fits(View().current, line)
    {
    }

    method Append(line: Line)
      requires Valid()
      modifies this, currentBuffer, nextBuffer
      ensures View() == Apply(old(View()), Event.Append(line)) && Valid()
    {
      hide Inv, Apply, OneOwner, Whole, Fits, Flat, Contents, View;
      StepKeepsInv(View(), Event.Append(line));
      UnfoldAppend(View(), line);
      RoomInCurrent(line);
      if !(currentBuffer.Avail() > |line|) {
        PutAside();
      }
      AppendToCurrent(line);
      if |line| < CAPACITY {
        NoteLogged(line);
      }
    }

    ghost method NoteLogged(line: Line)
      modifies `logged
      ensures View() == old(View()).(logged := old(View().logged) + [line])
    {
      logged := logged + [line];
    }

    method Stop()
      requires Valid()
      modifies this
      ensures View() == Apply(old(View()), Event.Stop) && Valid()
    {
      hide Inv, OneOwner, Whole, Contents;
      StepKeepsInv(View(), Event.Stop);
      running := false;
    }

    /** The current buffer joins the full ones; the first free buffer takes its place. */
    method RetireCurrent()
      requires OneOwner() && Whole() && newBuffer1 != null
      modifies `currentBuffer, `newBuffer1, `buffers
      ensures OneOwner() && Whole()
      ensures var v := old(View());
              View() == v.(full := v.full + [v.current], current := v.free1.value, free1 := None)
    {
      hide Flat, Contents;
      ContentsAppend(buffers, currentBuffer);
      buffers := buffers + [currentBuffer];
      currentBuffer := newBuffer1;
      newBuffer1 := null;
    }

    /** The full buffers all go to the writer. */
    method TakeFull()
      requires OneOwner() && Whole() && buffersToWrite == []
      modifies `buffers, `buffersToWrite, `phase, `taken
      ensures OneOwner() && Whole() && buffersToWrite == old(buffers)
      ensures var v := old(View()); View() == v.(full := [], toWrite := v.full, phase := Taken, taken := v.full)
    {
      hide Flat, Contents;
      buffersToWrite, buffers := buffers, buffersToWrite;
      phase := Taken;
      taken := Contents(buffersToWrite);
    }

    /** A missing spare is replaced from the writer's second free buffer. */
    method GiveSpare()
      requires OneOwner() && Whole()
      modifies `nextBuffer, `newBuffer2
      ensures OneOwner() && Whole()
      ensures var v := old(View());
              View() == if v.spare.None? then v.(spare := v.free2, free2 := None) else v
    {
      hide Flat, Contents;
      if nextBuffer == null {
        nextBuffer := newBuffer2;
        newBuffer2 := null;
      }
    }

    lemma FirstFree()
      ensures newBuffer1 != null ==> View().free1.Some?
    {
    }

    /** The exchange, under the mutex. */
    method Exchange()
      requires OneOwner() && Whole() && newBuffer1 != null && buffersToWrite == []
      modifies this
      ensures OneOwner() && Whole() && View() == Swap(old(View()))
    {
      hide Flat, Contents, OneOwner, Whole, View;
      FirstFree();
      RetireCurrent();
      TakeFull();
      GiveSpare();
    }

    /** The loop test; then, with the mutex, the exchange or first the timed wait. */
    method EnterLoop()
      requires Valid() && phase.Top?
      modifies this
      ensures View() == Apply(old(View()), Enter) && Valid()
    {
      hide Inv, OneOwner, Whole, Flat, Contents;
      StepKeepsInv(View(), Enter);
      FreeBuffersReady();
      if !running {
        phase := Stopped;
        return;
      }
      assert newBuffer1 != null && newBuffer1.lines == [];
      assert newBuffer2 != null && newBuffer2.lines == [];
      assert buffersToWrite == [];
      if buffers == [] {
        phase := Waiting;
      } else {
        Exchange();
      }
    }

    /** The wait ends, with or without a notification. */
    method LeaveWait()
      requires Valid() && phase.Waiting?
      modifies this
      ensures View() == Apply(old(View()), Wake) && Valid()
    {
      hide Inv, OneOwner, Whole, Flat, Contents;
      StepKeepsInv(View(), Wake);
      FreeBuffersReady();
      Exchange();
    }

    lemma FreeBuffersReady()
      requires Inv(View()) && (phase.Top? || phase.Waiting?)
      ensures newBuffer1 != null && newBuffer1.lines == [] && newBuffer2 != null && newBuffer2.lines == []
      ensures buffersToWrite == []
    {
    }

    method Shorten(k: nat)
      requires OneOwner() && Whole() && k <= |buffersToWrite|
      modifies `buffersToWrite
      ensures OneOwner() && Whole() && buffersToWrite == old(buffersToWrite)[..k]
      ensures View() == old(View()).(toWrite := old(View().toWrite)[..k])
    {
      hide Flat, Contents, Distinct;
      ContentsTake(buffersToWrite, k);
      buffersToWrite := buffersToWrite[..k];
    }

    method TrimBatch()
      requires Valid() && phase.Taken?
      modifies this
      ensures View() == Apply(old(View()), Trim) && Valid()
    {
      hide Inv, Flat, Contents, OneOwner, Whole;
      StepKeepsInv(View(), Trim);
      assert buffersToWrite != [] by { BatchNotEmpty(); }
      if |buffersToWrite| > MOST_BUFFERS {
        output := output + [Notice(|buffersToWrite| - 2)];
        Shorten(2);
      }
      phase := Writing(0);
    }

    lemma BatchNotEmpty()
      requires Inv(View()) && phase.Taken?
      ensures buffersToWrite != []
    {
    }

    method WriteBuffer()
      requires Valid() && Enabled(View(), Write)
      modifies this
      ensures View() == Apply(old(View()), Write) && Valid()
    {
      hide Inv, Flat, Contents, OneOwner;
      StepKeepsInv(View(), Write);
      assert buffersToWrite[phase.next] in buffersToWrite;
      output := output + [Text(buffersToWrite[phase.next].data)];
      phase := Writing(phase.next + 1);
    }

    lemma EnoughToRefill()
      requires Inv(View()) && phase.Writing?
      ensures newBuffer1 == null && buffersToWrite != [] && (newBuffer2 == null ==> |buffersToWrite| >= 2)
      ensures newBuffer2 != null ==> View().free2 == Some([])
    {
    }

    method RefillFirst()
      requires OneOwner() && Whole() && buffersToWrite != [] && newBuffer1 == null
      modifies `newBuffer1, `buffersToWrite, buffersToWrite
      ensures OneOwner() && Whole() && buffersToWrite == old(buffersToWrite)[..old(|buffersToWrite|) - 1]
      ensures View() == old(View()).(free1 := Some([]), toWrite := old(View().toWrite)[..old(|buffersToWrite|) - 1])
    {
      hide Flat, Contents;
      var last := |buffersToWrite| - 1;
      assert buffersToWrite[last] in buffersToWrite;
      ContentsTake(buffersToWrite, last);
      newBuffer1, buffersToWrite := buffersToWrite[last], buffersToWrite[..last];
      newBuffer1.Reset();
    }

    method RefillSecond()
      requires OneOwner() && Whole() && buffersToWrite != [] && newBuffer2 == null
      modifies `newBuffer2, `buffersToWrite, buffersToWrite
      ensures OneOwner() && Whole() && buffersToWrite == old(buffersToWrite)[..old(|buffersToWrite|) - 1]
      ensures View() == old(View()).(free2 := Some([]), toWrite := old(View().toWrite)[..old(|buffersToWrite|) - 1])
    {
      hide Flat, Contents;
      var last := |buffersToWrite| - 1;
      assert buffersToWrite[last] in buffersToWrite;
      ContentsTake(buffersToWrite, last);
      newBuffer2, buffersToWrite := buffersToWrite[last], buffersToWrite[..last];
      newBuffer2.Reset();
    }

    method Finish()
      requires OneOwner() && Whole()
      modifies `buffersToWrite, `batches, `taken, `phase
      ensures OneOwner() && Whole()
      ensures View() == old(View()).(toWrite := [], batches := old(batches) + [old(taken)], taken := [], phase := Top)
    {
      hide Contents;
      buffersToWrite := [];
      batches, taken := batches + [taken], [];
      phase := Top;
    }

    lemma UnfoldRefill()
      requires Enabled(View(), Refill)
      ensures phase.Writing?
      ensures Apply(View(), Refill) == View().(free1 := Some([]), free2 := Some([]), toWrite := [],
                                               phase := Top, batches := batches + [taken], taken := [])
    {
    }

    /** The spare buffers come from the back of what was written. */
    method RefillFreeBuffers()
      requires Valid() && Enabled(View(), Refill)
      modifies this, buffersToWrite
      ensures View() == Apply(old(View()), Refill) && Valid()
    {
      hide Inv, Flat, OneOwner, Whole, Contents, View, Apply, Enabled;
      UnfoldRefill();
      StepKeepsInv(View(), Refill);
      EnoughToRefill();
      if |buffersToWrite| > 2 {
        Shorten(2);
      }
      if newBuffer1 == null {
        assert buffersToWrite != [];
        RefillFirst();
      }
      if newBuffer2 == null {
        assert buffersToWrite != [];
        RefillSecond();
      }
      Finish();
    }
  }
}
