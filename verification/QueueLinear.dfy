/** The concurrent queue is linearizable: every finished call has a moment of its own interval at which
    it can be taken to have happened at once, and the contents change at those moments only. */
module QueueLinear {
  import opened QueueProtocol
  import opened QueueRuns

  // ---- Calls and the writes they own ----

  /** The writes that win: a call makes at most one of them. */
  predicate WinsBy(e: Event, tid: nat) {
    e.tid == tid && (e.act.LinkNode? || e.act.SwingHead?)
  }

  /** The call has succeeded, or has only tail left to tidy. */
  predicate Winning(t: Thread) {
    t.pc.CasLinked? || (t.pc.Done? && t.pc.ok)
  }

  /** What the program point alone tells of the operation. */
  predicate Control(t: Thread) {
    && (Enqueueing(t.pc) && !t.pc.CasTail? ==> t.op.Enqueue?)
    && (!Enqueueing(t.pc) && !Resting(t.pc) ==> t.op.Dequeue?)
    && (t.pc.Done? && (t.op.Enqueue? || !t.pc.ok) ==> t.pc.val == [])
  }

  predicate OwnAct(t: Thread, a: Act) {
    match t.op
    case Enqueue(v) => a.LinkNode? && a.val == v
    case Dequeue => a.SwingHead? && t.pc.Done? && a.val == t.pc.val
  }

  /** Since a call began its thread has made a winning write exactly if the call is winning, and then
      just one, the one it remembers. */
  ghost predicate CallInv(events: seq<Event>, tid: nat, t: Thread) {
    !t.pc.Idle? ==>
      && Control(t) && t.born < |events|
      && (forall e {:trigger WinsBy(events[e], tid)} ::
            t.born <= e < |events| && WinsBy(events[e], tid) ==> e == t.cas && Winning(t))
      && (Winning(t) ==> t.born <= t.cas < |events| && events[t.cas].tid == tid && OwnAct(t, events[t.cas].act))
  }

  predicate WinKept(t: Thread, a: Act, t': Thread, now: nat) {
    && t'.born == t.born && t'.op == t.op && !t'.pc.Idle? && Control(t')
    && if a.LinkNode? || a.SwingHead? then !Winning(t) && Winning(t') && t'.cas == now && OwnAct(t', a)
       else t'.cas == t.cas && (Winning(t') <==> Winning(t)) && (Winning(t) ==> t.op.Enqueue?)
  }

  lemma WinStep(s: Shared, t: Thread, now: nat, c: Choice)
    requires Control(t) && !Resting(t.pc)
    ensures var (a, t') := StepThread(s, t, now, c);
            WinKept(t, a, t', now)
  {
  }

  lemma OwnCall(s: Shared, events: seq<Event>, tid: nat, t: Thread, c: Choice)
    requires CallInv(events, tid, t)
    ensures var (a, t') := StepThread(s, t, |events|, c);
            CallInv(events + [Event(tid, a)], tid, t')
  {
    var (a, t') := StepThread(s, t, |events|, c);
    var events' := events + [Event(tid, a)];
    if !Resting(t.pc) {
      WinStep(s, t, |events|, c);
      forall e | t'.born <= e < |events'| && WinsBy(events'[e], tid)
        ensures e == t'.cas && Winning(t')
      {
        assert e < |events| ==> WinsBy(events[e], tid);
      }
    }
  }

  lemma OtherCall(events: seq<Event>, e: Event, tid: nat, t: Thread)
    requires CallInv(events, tid, t) && e.tid != tid
    ensures CallInv(events + [e], tid, t)
  {
    var events' := events + [e];
    if !t.pc.Idle? {
      forall i | t.born <= i < |events'| && WinsBy(events'[i], tid)
        ensures i == t.cas && Winning(t)
      {
        assert i < |events| ==> WinsBy(events[i], tid);
      }
    }
  }

  ghost predicate CallsInv(c: Config) {
    && |c.log| == |c.events| + 1
    && forall i {:trigger c.threads[i]} :: i in c.threads ==> CallInv(c.events, i, c.threads[i])
  }

  lemma StepCalls(c: Config, m: Move)
    requires CallsInv(c) && Enabled(c, m)
    ensures CallsInv(Step(c, m))
  {
    var c' := Step(c, m);
    forall i | i in c'.threads
      ensures CallInv(c'.events, i, c'.threads[i])
    {
      if i == m.tid {
        OwnCall(Now(c), c.events, i, c.threads[i], m.choice);
      } else {
        OtherCall(c.events, c'.events[|c.events|], i, c.threads[i]);
      }
    }
  }

  lemma {:induction false} RunCalls(cs: seq<Config>, ms: seq<Move>, n: nat)
    requires IsRun(cs, ms) && n < |cs|
    ensures CallsInv(cs[n]) && |cs[n].events| == n
  {
    if n > 0 {
      RunCalls(cs, ms, n - 1);
      assert Enabled(cs[n - 1], ms[n - 1]) && cs[n] == Step(cs[n - 1], ms[n - 1]);
      StepCalls(cs[n - 1], ms[n - 1]);
    }
  }

  lemma {:induction false} EventsGrow(cs: seq<Config>, ms: seq<Move>, k: nat, n: nat)
    requires IsRun(cs, ms) && k <= n < |cs|
    ensures cs[k].events <= cs[n].events && cs[k].log <= cs[n].log && cs[k].threads.Keys == cs[n].threads.Keys
    decreases n
  {
    if k < n {
      EventsGrow(cs, ms, k, n - 1);
      assert Enabled(cs[n - 1], ms[n - 1]) && cs[n] == Step(cs[n - 1], ms[n - 1]);
    }
  }

  lemma KeepsCall(c: Config, m: Move, i: nat)
    requires CallsInv(c) && Enabled(c, m) && i in c.threads && !c.threads[i].pc.Idle?
    ensures var t, t' := c.threads[i], Step(c, m).threads[i];
            && !t'.pc.Idle?
            && if t'.born == t.born then
                 (Resting(t.pc) ==> t' == t) && (Winning(t) ==> Winning(t') && t'.cas == t.cas)
               else t.pc.Done? && t'.born == |c.events|
  {
    var t := c.threads[i];
    assert CallInv(c.events, i, t);
    if i == m.tid && !Resting(t.pc) {
      WinStep(Now(c), t, |c.events|, m.choice);
    }
  }

  /** A call seen at moment `k` is later still the same call, or has ended in the meantime. */
  lemma {:induction false} CallGoesOn(cs: seq<Config>, ms: seq<Move>, k: nat, n: nat, i: nat)
    requires IsRun(cs, ms) && k <= n < |cs| && i in cs[k].threads && !cs[k].threads[i].pc.Idle?
    ensures i in cs[n].threads && !cs[n].threads[i].pc.Idle?
    ensures var t, t' := cs[k].threads[i], cs[n].threads[i];
            if t'.born == t.born then
              (Resting(t.pc) ==> t' == t) && (Winning(t) ==> Winning(t') && t'.cas == t.cas)
            else t'.born >= k
    decreases n
  {
    if k < n {
      CallGoesOn(cs, ms, k, n - 1, i);
      RunCalls(cs, ms, k);
      RunCalls(cs, ms, n - 1);
      assert Enabled(cs[n - 1], ms[n - 1]) && cs[n] == Step(cs[n - 1], ms[n - 1]);
      KeepsCall(cs[n - 1], ms[n - 1], i);
      assert CallInv(cs[k].events, i, cs[k].threads[i]);
    }
  }

  /** The operation a thread is at is the one it was asked for when its call began. */
  predicate MadeAs(ms: seq<Move>, i: nat, t: Thread) {
    !t.pc.Idle? ==> t.born < |ms| && ms[t.born].tid == i && ms[t.born].choice.op == t.op
  }

  lemma {:induction false} RunMade(cs: seq<Config>, ms: seq<Move>, n: nat)
    requires IsRun(cs, ms) && n < |cs|
    ensures forall i {:trigger cs[n].threads[i]} :: i in cs[n].threads ==> MadeAs(ms, i, cs[n].threads[i])
  {
    if n > 0 {
      RunMade(cs, ms, n - 1);
      RunCalls(cs, ms, n - 1);
      var c, m := cs[n - 1], ms[n - 1];
      assert Enabled(c, m) && cs[n] == Step(c, m);
      forall i | i in cs[n].threads
        ensures MadeAs(ms, i, cs[n].threads[i])
      {
        assert CallInv(c.events, i, c.threads[i]);
        StepMade(c, m, ms, n - 1, i);
      }
    }
  }

  lemma StepMade(c: Config, m: Move, ms: seq<Move>, n: nat, i: nat)
    requires Enabled(c, m) && |c.log| == n + 1 && |c.events| == n < |ms| && ms[n] == m && i in c.threads
    requires CallInv(c.events, i, c.threads[i]) && MadeAs(ms, i, c.threads[i])
    ensures MadeAs(ms, i, Step(c, m).threads[i])
  {
    var t := c.threads[i];
    if i == m.tid && !Resting(t.pc) {
      WinStep(Now(c), t, n, m.choice);
    }
  }

  /** Thread `i` as it stood at moment `k`: at the end of a call, or, if `k` is the last moment, in a
      call that has made its winning write. */
  ghost predicate Call(cs: seq<Config>, n: nat, k: nat, i: nat) {
    && k <= n < |cs| && i in cs[k].threads
    && (cs[k].threads[i].pc.Done? || (k == n && Winning(cs[k].threads[i])))
  }

  lemma {:induction false} WinnerSucceeds(cs: seq<Config>, ms: seq<Move>, n: nat, e: nat) returns (k: nat)
    requires IsRun(cs, ms) && n < |cs| && e < n && e < |cs[n].events| && WinsBy(cs[n].events[e], cs[n].events[e].tid)
    ensures var i := cs[n].events[e].tid;
            e < k && Call(cs, n, k, i) && Winning(cs[k].threads[i]) && cs[k].threads[i].cas == e
    decreases n
  {
    var i := cs[n].events[e].tid;
    RunCalls(cs, ms, n - 1);
    RunCalls(cs, ms, n);
    assert Enabled(cs[n - 1], ms[n - 1]) && cs[n] == Step(cs[n - 1], ms[n - 1]);
    if e == n - 1 {
      WinnerNow(cs[n - 1], ms[n - 1]);
      k := n;
    } else {
      assert cs[n].events[e] == cs[n - 1].events[e];
      k := WinnerSucceeds(cs, ms, n - 1, e);
      k := WinnerStays(cs, ms, n - 1, i, k);
    }
  }

  lemma WinnerNow(c: Config, m: Move)
    requires CallsInv(c) && Enabled(c, m) && WinsBy(Step(c, m).events[|c.events|], m.tid)
    ensures Winning(Step(c, m).threads[m.tid]) && Step(c, m).threads[m.tid].cas == |c.events|
  {
    var t := c.threads[m.tid];
    assert CallInv(c.events, m.tid, t);
    if !Resting(t.pc) {
      WinStep(Now(c), t, |c.events|, m.choice);
    }
  }

  lemma WinnerStays(cs: seq<Config>, ms: seq<Move>, n: nat, i: nat, k: nat) returns (k': nat)
    requires IsRun(cs, ms) && n + 1 < |cs| && CallsInv(cs[n])
    requires Call(cs, n, k, i) && Winning(cs[k].threads[i])
    ensures k <= k' && Call(cs, n + 1, k', i) && Winning(cs[k'].threads[i]) && cs[k'].threads[i].cas == cs[k].threads[i].cas
  {
    k' := k;
    if k == n {
      assert Enabled(cs[k], ms[k]) && cs[n + 1] == Step(cs[k], ms[k]);
      KeepsCall(cs[k], ms[k], i);
      if cs[n + 1].threads[i].born == cs[k].threads[i].born {
        k' := n + 1;
      }
    }
  }

  // ---- Linearization points ----

  ghost function Queued(s: Shared): (q: seq<Val>) {
    if s.first < |s.order| then Contents(s) else []
  }

  /** What an operation answers, and what it makes of the queue, when nothing else is going on. */
  function Sequential(op: Op, q: seq<Val>): (bool, Val, seq<Val>) {
    match op
    case Enqueue(v) => (true, [], q + [v])
    case Dequeue => if q == [] then (false, [], q) else (true, q[0], q[1..])
  }

  function Returned(t: Thread): Val {
    if t.pc.Done? then t.pc.val else []
  }

  /** The call can be taken to have happened at moment `p`: if it wins, its own write there changes
      the queue as the operation does; otherwise the queue at `p` gives the answer and stays. */
  ghost predicate PointOf(log: seq<Shared>, events: seq<Event>, t: Thread, p: nat) {
    && t.born <= p && |log| == |events| + 1
    && if Winning(t) then
         p == t.cas < |events| && Sequential(t.op, Queued(log[p])) == (true, Returned(t), Queued(log[p + 1]))
       else
         t.pc.Done? && p < |log| && Sequential(t.op, Queued(log[p])) == (false, t.pc.val, Queued(log[p]))
  }

  ghost predicate Explained(cs: seq<Config>, n: nat, k: nat, i: nat, p: nat) {
    Call(cs, n, k, i) && p <= k && PointOf(cs[n].log, cs[n].events, cs[k].threads[i], p)
  }

  lemma WinnerExplained(cs: seq<Config>, ms: seq<Move>, n: nat, k: nat, i: nat)
    requires IsRun(cs, ms) && Call(cs, n, k, i) && Winning(cs[k].threads[i])
    ensures Explained(cs, n, k, i, cs[k].threads[i].cas) && cs[k].threads[i].cas < k
    ensures cs[k].threads[i].cas < |cs[n].events| && WinsBy(cs[n].events[cs[k].threads[i].cas], i)
  {
    var t := cs[k].threads[i];
    var p := t.cas;
    RunSound(cs, ms, n);
    RunCalls(cs, ms, k);
    RunCalls(cs, ms, n);
    EventsGrow(cs, ms, k, n);
    var log, es := cs[n].log, cs[n].events;
    assert CallInv(cs[k].events, i, t) && cs[k].events[p] == es[p];
    assert Legal(log[p], es[p].act) && ShapeInv(log[p]) && ShapeInv(log[p + 1]);
    ActRefinesFifo(log[p], es[p].act);
  }

  lemma FailureExplained(cs: seq<Config>, ms: seq<Move>, n: nat, k: nat, i: nat) returns (p: nat)
    requires IsRun(cs, ms) && Call(cs, n, k, i) && cs[k].threads[i].pc.Done? && !cs[k].threads[i].pc.ok
    ensures Explained(cs, n, k, i, p)
  {
    var t := cs[k].threads[i];
    EveryAnswerWasTrue(cs, ms, k, i);
    RunCalls(cs, ms, k);
    RunCalls(cs, ms, n);
    EventsGrow(cs, ms, k, n);
    assert CallInv(cs[k].events, i, t);
    p := t.read;
    assert cs[n].log[p] == cs[k].log[p];
  }

  ghost predicate Changes(log: seq<Shared>, p: nat) {
    p + 1 < |log| && Queued(log[p + 1]) != Queued(log[p])
  }

  lemma ChangeExplained(cs: seq<Config>, ms: seq<Move>, n: nat, p: nat) returns (k: nat, i: nat)
    requires IsRun(cs, ms) && n < |cs| && Changes(cs[n].log, p)
    ensures Explained(cs, n, k, i, p) && Winning(cs[k].threads[i])
  {
    var log, es := cs[n].log, cs[n].events;
    RunSound(cs, ms, n);
    RunCalls(cs, ms, n);
    assert Legal(log[p], es[p].act) && ShapeInv(log[p]) && ShapeInv(log[p + 1]);
    ActRefinesFifo(log[p], es[p].act);
    i := es[p].tid;
    k := WinnerSucceeds(cs, ms, n, p);
    WinnerExplained(cs, ms, n, k, i);
  }

  /** At one moment one call wins. */
  lemma PointsApart(cs: seq<Config>, ms: seq<Move>, n: nat, k: nat, i: nat, l: nat, j: nat, p: nat)
    requires IsRun(cs, ms) && Explained(cs, n, k, i, p) && Winning(cs[k].threads[i])
    requires Explained(cs, n, l, j, p) && Winning(cs[l].threads[j])
    ensures i == j && cs[k].threads[i].born == cs[l].threads[j].born
  {
    WinnerExplained(cs, ms, n, k, i);
    WinnerExplained(cs, ms, n, l, j);
    if k <= l {
      CallGoesOn(cs, ms, k, l, i);
    } else {
      CallGoesOn(cs, ms, l, k, i);
    }
  }

  /** Linearizability: in every run of any number of threads every thread is at the operation it was asked
      for; the queue is empty at first; every finished call has a moment within its own interval at which
      the sequential operation, applied to the queue of that moment, gives the call's answer and value and
      the queue of the next; no two calls win at the same moment; and the queue never changes but at the
      point of a winning call. */
  lemma Linearizable(cs: seq<Config>, ms: seq<Move>, n: nat)
    requires IsRun(cs, ms) && n < |cs|
    ensures |cs[n].log| == n + 1 && Queued(cs[n].log[0]) == []
    ensures forall i {:trigger cs[n].threads[i]} :: i in cs[n].threads ==> MadeAs(ms, i, cs[n].threads[i])
    ensures forall k: nat, i: nat :: Call(cs, n, k, i) && cs[k].threads[i].pc.Done? ==>
              exists p: nat :: Explained(cs, n, k, i, p)
    ensures forall k: nat, i: nat, l: nat, j: nat, p: nat ::
              Explained(cs, n, k, i, p) && Winning(cs[k].threads[i]) && Explained(cs, n, l, j, p) && Winning(cs[l].threads[j]) ==>
                i == j && cs[k].threads[i].born == cs[l].threads[j].born
    ensures forall p: nat :: Changes(cs[n].log, p) ==>
              exists k: nat, i: nat :: Explained(cs, n, k, i, p) && Winning(cs[k].threads[i])
  {
    RunSound(cs, ms, n);
    RunCalls(cs, ms, n);
    RunMade(cs, ms, n);
    forall k: nat, i: nat | Call(cs, n, k, i) && cs[k].threads[i].pc.Done?
      ensures exists p: nat :: Explained(cs, n, k, i, p)
    {
      if cs[k].threads[i].pc.ok {
        WinnerExplained(cs, ms, n, k, i);
      } else {
        var p := FailureExplained(cs, ms, n, k, i);
      }
    }
    forall k: nat, i: nat, l: nat, j: nat, p: nat |
      Explained(cs, n, k, i, p) && Winning(cs[k].threads[i]) && Explained(cs, n, l, j, p) && Winning(cs[l].threads[j])
      ensures i == j && cs[k].threads[i].born == cs[l].threads[j].born
    {
      PointsApart(cs, ms, n, k, i, l, j, p);
    }
    forall p: nat | Changes(cs[n].log, p)
      ensures exists k: nat, i: nat :: Explained(cs, n, k, i, p) && Winning(cs[k].threads[i])
    {
      var k, i := ChangeExplained(cs, ms, n, p);
    }
  }
}
