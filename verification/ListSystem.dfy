/** Any number of threads running on one list. A configuration keeps the log of every heap so far and
    the write that led from each to the next, so that "at some moment during the call" can be said. */
module ListSystem {
  import opened ListHeap
  import opened ListThreads

  datatype Event = Event(tid: nat, act: Act)

  datatype Config = Config(log: seq<Heap>, events: seq<Event>, threads: map<nat, Thread>)

  function Latest(log: seq<Heap>): Heap {
    if |log| > 0 then log[|log| - 1] else map[]
  }

  function Now(c: Config): Heap {
    Latest(c.log)
  }

  /** One scheduling decision: which thread moves, and what the environment chooses for it. */
  datatype Move = Move(tid: nat, choice: Choice)

  predicate Enabled(c: Config, m: Move) {
    |c.log| > 0 && m.tid in c.threads && Allowed(Now(c), m.choice)
  }

  function Step(c: Config, m: Move): Config
    requires m.tid in c.threads && |c.log| > 0
  {
    var (a, t) := StepThread(Now(c), c.threads[m.tid], |c.log| - 1, m.choice);
    Config(c.log + [Apply(Now(c), a)], c.events + [Event(m.tid, a)], c.threads[m.tid := t])
  }

  predicate Initial(c: Config) {
    c.log == [EMPTY] && c.events == [] && forall i :: i in c.threads ==> c.threads[i].pc.Idle?
  }

  ghost predicate IsRun(cs: seq<Config>, ms: seq<Move>) {
    && |cs| == |ms| + 1 && Initial(cs[0])
    && forall i :: 0 <= i < |ms| ==> Enabled(cs[i], ms[i]) && cs[i + 1] == Step(cs[i], ms[i])
  }

  /** Every logged write was legal when it was made and kept the heap invariant. */
  ghost predicate LogInv(log: seq<Heap>, events: seq<Event>) {
    && |log| == |events| + 1 && log[0] == EMPTY
    && (forall i {:trigger HeapInv(log[i])} :: 0 <= i < |log| ==> HeapInv(log[i]))
    && (forall i {:trigger Legal(log[i], events[i].act)} :: 0 <= i < |events| ==>
          Legal(log[i], events[i].act) && log[i + 1] == Apply(log[i], events[i].act))
  }

  ghost predicate ThreadsInv(h: Heap, threads: map<nat, Thread>) {
    forall i {:trigger threads[i]} :: i in threads ==> ThreadInv(h, threads[i])
  }

  ghost predicate Sound(c: Config) {
    LogInv(c.log, c.events) && HeapInv(Now(c)) && ThreadsInv(Now(c), c.threads)
  }

  lemma InitialSound(c: Config)
    requires Initial(c)
    ensures Sound(c)
  {
    EmptyInv();
  }

  /** One thread's own step is legal, and leaves its knowledge true unless the check of `try_flag`
      misfires. */
  lemma OwnStep(h: Heap, t: Thread, now: nat, c: Choice)
    requires HeapInv(h) && ThreadInv(h, t) && Allowed(h, c)
    ensures var (a, t') := StepThread(h, t, now, c);
            Legal(h, a) && (ThreadInv(Apply(h, a), t') <==> !Misfires(h, t))
  {
    var (a, t') := StepThread(h, t, now, c);
    if Resting(t.pc) {
      StartInv(h, c.op, now);
    } else if Searching(t.pc) {
      SearchStepInv(h, t, c);
      ActEvolves(h, a);
      ThreadInvEvolves(h, Apply(h, a), t');
    } else if Inserting(t.pc) {
      InsertStepInv(h, t, now, c);
      ActEvolves(h, a);
      ThreadInvEvolves(h, Apply(h, a), t');
    } else if Flagging(t.pc) {
      FlagStepInv(h, t, now, c);
      if a.Flag? {
        FlagCasInv(h, t, now, c);
      }
    } else {
      HelpStepLegal(h, t, c);
      HelpStepInv(h, t, c);
    }
  }

  lemma StartInv(h: Heap, op: Op, now: nat)
    requires HeapInv(h) && KEY_MIN < op.key < KEY_MAX
    ensures ThreadInv(h, Start(op, now))
  {
  }

  lemma OtherThreads(h: Heap, a: Act, threads: map<nat, Thread>, tid: nat, t: Thread)
    requires HeapInv(h) && Legal(h, a) && ThreadsInv(h, threads) && tid in threads
    ensures ThreadsInv(Apply(h, a), threads[tid := t]) <==> ThreadInv(Apply(h, a), t)
  {
    var threads' := threads[tid := t];
    ActEvolves(h, a);
    forall i | i in threads' && i != tid
      ensures ThreadInv(Apply(h, a), threads'[i])
    {
      ThreadInvEvolves(h, Apply(h, a), threads[i]);
    }
    assert threads'[tid] == t;
  }

  /** A step keeps every invariant of the list exactly when it is not a misfiring check. */
  lemma StepSound(c: Config, m: Move)
    requires Sound(c) && Enabled(c, m)
    ensures Sound(Step(c, m)) <==> !Misfires(Now(c), c.threads[m.tid])
    ensures LogInv(Step(c, m).log, Step(c, m).events)
  {
    var h := Now(c);
    var t := c.threads[m.tid];
    var (a, t') := StepThread(h, t, |c.log| - 1, m.choice);
    OwnStep(h, t, |c.log| - 1, m.choice);
    ActKeeps(h, a);
    LogGrows(c.log, c.events, Event(m.tid, a));
    OtherThreads(h, a, c.threads, m.tid, t');
    assert Now(Step(c, m)) == Apply(h, a);
  }

  lemma LogGrows(log: seq<Heap>, events: seq<Event>, e: Event)
    requires LogInv(log, events) && Legal(log[|log| - 1], e.act)
    requires HeapInv(Apply(log[|log| - 1], e.act))
    ensures LogInv(log + [Apply(log[|log| - 1], e.act)], events + [e])
  {
    var log', events' := log + [Apply(log[|log| - 1], e.act)], events + [e];
    forall i | 0 <= i < |log'|
      ensures HeapInv(log'[i])
    {
      assert i < |log| ==> HeapInv(log[i]);
    }
    forall i | 0 <= i < |events'|
      ensures Legal(log'[i], events'[i].act) && log'[i + 1] == Apply(log'[i], events'[i].act)
    {
      assert i < |events| ==> Legal(log[i], events[i].act);
    }
  }

  ghost predicate MisfiresAt(cs: seq<Config>, ms: seq<Move>, i: nat)
    requires i < |cs| && i < |ms|
  {
    ms[i].tid in cs[i].threads && Misfires(Now(cs[i]), cs[i].threads[ms[i].tid])
  }

  /** The first `n` configurations of a run are sound. */
  ghost predicate SoundUpTo(cs: seq<Config>, n: nat)
    requires n <= |cs|
  {
    forall i {:trigger cs[i]} :: 0 <= i < n ==> Sound(cs[i])
  }

  ghost predicate CalmUpTo(cs: seq<Config>, ms: seq<Move>, n: nat)
    requires n <= |cs| && n <= |ms|
  {
    forall i :: 0 <= i < n ==> !MisfiresAt(cs, ms, i)
  }

  lemma {:induction false} RunSoundUpTo(cs: seq<Config>, ms: seq<Move>, n: nat)
    requires IsRun(cs, ms) && n <= |ms|
    ensures SoundUpTo(cs, n + 1) <==> CalmUpTo(cs, ms, n)
  {
    if n == 0 {
      InitialSound(cs[0]);
    } else {
      RunSoundUpTo(cs, ms, n - 1);
      assert Enabled(cs[n - 1], ms[n - 1]) && cs[n] == Step(cs[n - 1], ms[n - 1]);
      if SoundUpTo(cs, n) {
        StepSound(cs[n - 1], ms[n - 1]);
        assert CalmUpTo(cs, ms, n) <==> !MisfiresAt(cs, ms, n - 1);
      } else {
        assert !CalmUpTo(cs, ms, n - 1);
      }
    }
  }

  /** In every run, of any number of threads, the list keeps its invariant at every moment exactly
      when no check of `try_flag` misfires. */
  lemma RunSound(cs: seq<Config>, ms: seq<Move>)
    requires IsRun(cs, ms)
    ensures (forall i {:trigger cs[i]} :: 0 <= i < |cs| ==> Sound(cs[i])) <==>
            (forall i :: 0 <= i < |ms| ==> !MisfiresAt(cs, ms, i))
  {
    RunSoundUpTo(cs, ms, |ms|);
    assert SoundUpTo(cs, |cs|) <==> CalmUpTo(cs, ms, |ms|);
  }

  // ---- What soundness means for one configuration ----

  /** The node a thread is about to dereference. */
  function Dereferenced(pc: Pc): Id {
    match pc
    case Idle => HEAD
    case LoadNext(curr) => curr
    case NextMarked(curr, next) => next
    case CurrMarked(curr, next) => curr
    case CurrLink(curr, next) => curr
    case StillNext(curr, next) => curr
    case ReadNext(curr, next) => next
    case CasNext(curr, next, beyond) => curr
    case Reload(curr) => curr
    case ReadPrev(prev, next) => prev
    case CasInsert(prev, next) => prev
    case InsertFailed(prev) => prev
    case Walk(prev) => prev
    case Back(prev) => prev
    case CheckNode(prev, target) => prev
    case CheckMark(prev, target) => prev
    case CheckFlag(prev, target) => prev
    case CasFlag(prev, target) => prev
    case FlagFailed(prev, target) => prev
    case WriteBack(prev, del) => del
    case IsMarked(prev, del) => del
    case ReadSucc(prev, del) => del
    case CasMark(prev, del, next) => del
    case MarkResult(prev, del) => del
    case MarkLoop(prev, del) => del
    case ReadMarked(prev, del) => del
    case CasUnlink(prev, del, beyond) => prev
    case Done(ok) => HEAD
  }

  /** No thread follows a null or wild pointer; in particular every backlink it takes is set, and
      leads to a strictly smaller key. */
  lemma NoWildAccess(c: Config, i: nat)
    requires Sound(c) && i in c.threads
    ensures Dereferenced(c.threads[i].pc) in Now(c)
    ensures var pc := c.threads[i].pc;
            pc.Back? ==> Now(c)[pc.prev].backlink in Now(c) &&
                         Now(c)[Now(c)[pc.prev].backlink].key < Now(c)[pc.prev].key
  {
    var h := Now(c);
    var pc := c.threads[i].pc;
    assert ThreadInv(h, c.threads[i]);
    if pc.Back? {
      assert NodeInv(h, pc.prev);
    }
  }
}
