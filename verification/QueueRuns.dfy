/** Whole runs of the concurrent queue: what went in comes out, once and in order, and every answer was
    true at some moment during its call. */
module QueueRuns {
  import opened MemoryPools
  import opened QueueProtocol

  datatype Event = Event(tid: nat, act: Act)

  datatype Config = Config(log: seq<Shared>, events: seq<Event>, threads: map<nat, Thread>)

  datatype Move = Move(tid: nat, choice: Choice)

  function Now(c: Config): Shared
    requires |c.log| > 0
  {
    c.log[|c.log| - 1]
  }

  predicate Enabled(c: Config, m: Move) {
    |c.log| > 0 && m.tid in c.threads && Allowed(Now(c), m.choice)
  }

  function Step(c: Config, m: Move): Config
    requires |c.log| > 0 && m.tid in c.threads
  {
    var (a, t) := StepThread(Now(c), c.threads[m.tid], |c.log| - 1, m.choice);
    Config(c.log + [Apply(Now(c), a)], c.events + [Event(m.tid, a)], c.threads[m.tid := t])
  }

  /** What `queue_create` leaves: one spent node, which is both head and tail. */
  function Fresh(n: Id): Shared {
    Shared(map[n := QNode(Link(0, NONE), [])], Link(0, n), Link(0, n), [n], 0, 0)
  }

  predicate Initial(c: Config) {
    && |c.log| == 1 && c.log[0].head.frag != NONE && c.log[0] == Fresh(c.log[0].head.frag) && c.events == []
    && forall i :: i in c.threads ==> c.threads[i].pc.Idle?
  }

  ghost predicate IsRun(cs: seq<Config>, ms: seq<Move>) {
    && |cs| == |ms| + 1 && Initial(cs[0])
    && forall i :: 0 <= i < |ms| ==> Enabled(cs[i], ms[i]) && cs[i + 1] == Step(cs[i], ms[i])
  }

  ghost predicate LogInv(log: seq<Shared>, events: seq<Event>) {
    && |log| == |events| + 1 && log[0] == Fresh(log[0].head.frag)
    && (forall i {:trigger ShapeInv(log[i])} :: 0 <= i < |log| ==> ShapeInv(log[i]))
    && (forall i {:trigger Legal(log[i], events[i].act)} :: 0 <= i < |events| ==>
          Legal(log[i], events[i].act) && log[i + 1] == Apply(log[i], events[i].act))
  }

  // ---- Answers ----

  /** No value was queued at moment `i`. */
  ghost predicate EmptyAt(log: seq<Shared>, i: nat) {
    i < |log| && log[i].first + 1 == |log[i].order|
  }

  /** What a finished call's answer says of the moments since it began: a success is its own write
      (and the value returned is the one that write removed), ENOENT a moment with nothing queued. */
  ghost predicate Outcome(log: seq<Shared>, events: seq<Event>, tid: nat, t: Thread, ok: bool, val: Val) {
    if ok then
      && t.born <= t.cas < |events| && events[t.cas].tid == tid
      && match t.op
         case Enqueue(v) => events[t.cas].act.LinkNode? && events[t.cas].act.val == v
         case Dequeue => events[t.cas].act.SwingHead? && events[t.cas].act.val == val
    else t.op.Dequeue? && t.born <= t.read && EmptyAt(log, t.read)
  }

  ghost predicate Hist(log: seq<Shared>, events: seq<Event>, tid: nat, t: Thread) {
    && (!t.pc.Idle? ==> t.born < |log|)
    && (t.pc.RecheckHead? && t.pc.next.frag == NONE ==> t.born <= t.read && EmptyAt(log, t.read))
    && (t.pc.CasLinked? ==> Outcome(log, events, tid, t, true, []))
    && (t.pc.Done? ==> Outcome(log, events, tid, t, t.pc.ok, t.pc.val))
  }

  ghost predicate Sound(c: Config) {
    && LogInv(c.log, c.events) && ShapeInv(Now(c))
    && (forall i {:trigger c.threads[i]} :: i in c.threads ==> ThreadInv(Now(c), c.threads[i]))
    && (forall i {:trigger Hist(c.log, c.events, i, c.threads[i])} ::
          i in c.threads ==> Hist(c.log, c.events, i, c.threads[i]))
  }

  lemma InitialSound(c: Config)
    requires Initial(c)
    ensures Sound(c)
  {
  }

  lemma HistGrows(log: seq<Shared>, log': seq<Shared>, events: seq<Event>, events': seq<Event>, tid: nat, t: Thread)
    requires log <= log' && events <= events' && Hist(log, events, tid, t)
    ensures Hist(log', events', tid, t)
  {
  }

  lemma LogGrows(log: seq<Shared>, events: seq<Event>, e: Event)
    requires LogInv(log, events) && Legal(log[|log| - 1], e.act) && ShapeInv(Apply(log[|log| - 1], e.act))
    ensures LogInv(log + [Apply(log[|log| - 1], e.act)], events + [e])
  {
    var log', events' := log + [Apply(log[|log| - 1], e.act)], events + [e];
    forall i | 0 <= i < |log'|
      ensures ShapeInv(log'[i])
    {
      assert i < |log| ==> ShapeInv(log[i]);
    }
    forall i | 0 <= i < |events'|
      ensures Legal(log'[i], events'[i].act) && log'[i + 1] == Apply(log'[i], events'[i].act)
    {
      assert i < |events| ==> Legal(log[i], events[i].act);
    }
  }

  lemma OwnStep(s: Shared, t: Thread, now: nat, c: Choice)
    requires ShapeInv(s) && ThreadInv(s, t) && Allowed(s, c)
    ensures var (a, t') := StepThread(s, t, now, c);
            Legal(s, a) && ThreadInv(Apply(s, a), t')
  {
    if Enqueueing(t.pc) {
      EnqueueStepInv(s, t, now, c);
    } else if !Resting(t.pc) {
      DequeueStepInv(s, t, now, c);
    }
  }

  lemma OwnHist(log: seq<Shared>, events: seq<Event>, tid: nat, t: Thread, c: Choice)
    requires LogInv(log, events) && ShapeInv(log[|log| - 1])
    requires ThreadInv(log[|log| - 1], t) && Hist(log, events, tid, t)
    ensures var (a, t') := StepThread(log[|log| - 1], t, |log| - 1, c);
            Hist(log + [Apply(log[|log| - 1], a)], events + [Event(tid, a)], tid, t')
  {
    if t.pc.LoadHeadNext? {
      var s := log[|log| - 1];
      assert NodeOk(s, t.pc.h.pos);
      assert t.pc.h.pos + 1 < |s.order| ==> NodeOk(s, t.pc.h.pos + 1);
    }
  }

  function ActOf(c: Config, m: Move): Act
    requires Enabled(c, m)
  {
    StepThread(Now(c), c.threads[m.tid], |c.log| - 1, m.choice).0
  }

  lemma StepSound(c: Config, m: Move)
    requires Sound(c) && Enabled(c, m)
    ensures Sound(Step(c, m))
  {
    var c' := Step(c, m);
    assert ThreadInv(Now(c), c.threads[m.tid]) && Hist(c.log, c.events, m.tid, c.threads[m.tid]);
    StepOwn(c, m);
    LogGrows(c.log, c.events, Event(m.tid, ActOf(c, m)));
    forall i | i in c'.threads
      ensures ThreadInv(Now(c'), c'.threads[i]) && Hist(c'.log, c'.events, i, c'.threads[i])
    {
      if i != m.tid {
        assert ThreadInv(Now(c), c.threads[i]) && Hist(c.log, c.events, i, c.threads[i]);
        OtherStep(c.log, c.events, Event(m.tid, ActOf(c, m)), i, c.threads[i]);
      }
    }
  }

  lemma StepOwn(c: Config, m: Move)
    requires Enabled(c, m) && LogInv(c.log, c.events) && ShapeInv(Now(c))
    requires ThreadInv(Now(c), c.threads[m.tid]) && Hist(c.log, c.events, m.tid, c.threads[m.tid])
    ensures var c' := Step(c, m);
            && Legal(Now(c), ActOf(c, m)) && ShapeInv(Now(c')) && Now(c') == Apply(Now(c), ActOf(c, m))
            && ThreadInv(Now(c'), c'.threads[m.tid]) && Hist(c'.log, c'.events, m.tid, c'.threads[m.tid])
  {
    OwnStep(Now(c), c.threads[m.tid], |c.log| - 1, m.choice);
    ActKeepsShape(Now(c), ActOf(c, m));
    OwnHist(c.log, c.events, m.tid, c.threads[m.tid], m.choice);
  }

  lemma OtherStep(log: seq<Shared>, events: seq<Event>, e: Event, tid: nat, t: Thread)
    requires |log| > 0 && ShapeInv(log[|log| - 1]) && Legal(log[|log| - 1], e.act)
    requires ThreadInv(log[|log| - 1], t) && Hist(log, events, tid, t)
    ensures ThreadInv(Apply(log[|log| - 1], e.act), t)
    ensures Hist(log + [Apply(log[|log| - 1], e.act)], events + [e], tid, t)
  {
    var s := log[|log| - 1];
    ActExtends(s, e.act);
    ThreadInvExtends(s, Apply(s, e.act), t);
    HistGrows(log, log + [Apply(s, e.act)], events, events + [e], tid, t);
  }

  lemma {:induction false} RunSound(cs: seq<Config>, ms: seq<Move>, n: nat)
    requires IsRun(cs, ms) && n < |cs|
    ensures Sound(cs[n])
  {
    if n == 0 {
      InitialSound(cs[0]);
    } else {
      RunSound(cs, ms, n - 1);
      assert Enabled(cs[n - 1], ms[n - 1]) && cs[n] == Step(cs[n - 1], ms[n - 1]);
      StepSound(cs[n - 1], ms[n - 1]);
    }
  }

  // ---- First in, first out ----

  /** The values put in by the first `n` writes, in the order of their linking. */
  ghost function PutIn(events: seq<Event>, n: nat): seq<Val>
    requires n <= |events|
  {
    if n == 0 then []
    else PutIn(events, n - 1) + if events[n - 1].act.LinkNode? then [events[n - 1].act.val] else []
  }

  /** The values taken out by the first `n` writes, as the dequeuers had copied them beforehand. */
  ghost function TakenOut(events: seq<Event>, n: nat): seq<Val>
    requires n <= |events|
  {
    if n == 0 then []
    else TakenOut(events, n - 1) + if events[n - 1].act.SwingHead? then [events[n - 1].act.val] else []
  }

  lemma {:induction false} FifoUpTo(log: seq<Shared>, events: seq<Event>, n: nat)
    requires LogInv(log, events) && n < |log|
    ensures log[n].first < |log[n].order|
    ensures PutIn(events, n) == TakenOut(events, n) + Contents(log[n])
  {
    assert ShapeInv(log[n]);
    if n > 0 {
      FifoUpTo(log, events, n - 1);
      assert Legal(log[n - 1], events[n - 1].act) && ShapeInv(log[n - 1]);
      FifoStep(log[n - 1], events[n - 1].act, PutIn(events, n - 1), TakenOut(events, n - 1));
    }
  }

  lemma FifoStep(s: Shared, a: Act, put: seq<Val>, taken: seq<Val>)
    requires ShapeInv(s) && Legal(s, a) && put == taken + Contents(s)
    ensures ShapeInv(Apply(s, a))
    ensures put + (if a.LinkNode? then [a.val] else []) ==
            taken + (if a.SwingHead? then [a.val] else []) + Contents(Apply(s, a))
  {
    ActRefinesFifo(s, a);
    if a.SwingHead? {
      assert Contents(s) == [a.val] + Contents(Apply(s, a));
    }
  }

  /** In every run of any number of threads, at every moment, the values enqueued are, in order, those
      dequeued followed by those still queued. */
  lemma Fifo(cs: seq<Config>, ms: seq<Move>, n: nat)
    requires IsRun(cs, ms) && n < |cs|
    ensures var c := cs[n];
            && |c.log| > 0 && Now(c).first < |Now(c).order|
            && PutIn(c.events, |c.events|) == TakenOut(c.events, |c.events|) + Contents(Now(c))
  {
    RunSound(cs, ms, n);
    FifoUpTo(cs[n].log, cs[n].events, |cs[n].events|);
  }

  /** And every call that has returned answered truly: a success stands for one write of its own, made
      during the call; ENOENT for a moment of the call at which nothing was queued. */
  lemma EveryAnswerWasTrue(cs: seq<Config>, ms: seq<Move>, n: nat, i: nat)
    requires IsRun(cs, ms) && n < |cs| && i in cs[n].threads && cs[n].threads[i].pc.Done?
    ensures var t := cs[n].threads[i];
            Outcome(cs[n].log, cs[n].events, i, t, t.pc.ok, t.pc.val)
    ensures !cs[n].threads[i].pc.ok ==>
              var r := cs[n].threads[i].read;
              r < |cs[n].log| && cs[n].log[r].first < |cs[n].log[r].order| && Contents(cs[n].log[r]) == []
  {
    RunSound(cs, ms, n);
    assert Hist(cs[n].log, cs[n].events, i, cs[n].threads[i]);
  }
}
