/** Calls and the writes they own: which call inserted a node, which call won the deletion of one, and
    what a call that answered failure has not done. */
module ListCalls {
  import opened ListHeap
  import opened ListThreads
  import opened ListSystem
  import opened ListHistory

  /** The writes that win: a call makes at most one of them. */
  predicate WinsBy(e: Event, tid: nat) {
    e.tid == tid && (e.act.Insert? || e.act.Flag?)
  }

  /** The call has answered success to an insertion or a deletion, or is bound to. */
  predicate Winning(t: Thread) {
    (t.pc == Done(true) && !t.op.Find?) || (Helping(t.pc) && t.after == Finish(true))
  }

  /** What the program point alone tells of the operation. */
  predicate Control(t: Thread) {
    && (!Resting(t.pc) ==>
          match t.goal
          case Answer => t.op.Find?
          case Place => t.op.Insert_?
          case Pick => t.op.Delete?
          case Confirm(_) => t.op.Delete?)
    && (Inserting(t.pc) ==> t.goal.Place? || (t.goal.Confirm? && (t.pc.Walk? || t.pc.Back?)))
    && (Flagging(t.pc) ==> t.op.Delete?)
    && (Helping(t.pc) ==> !t.op.Find? && (t.after.Finish? <==> t.op.Delete?))
  }

  /** Since a call began its thread has made a winning write exactly if the call is winning, and then
      just one, the one it remembers. */
  ghost predicate CallInv(events: seq<Event>, tid: nat, t: Thread) {
    if t.pc.Idle? then forall e :: 0 <= e < |events| ==> events[e].tid != tid
    else
      && Control(t) && t.born < |events|
      && (forall e {:trigger WinsBy(events[e], tid)} ::
            t.born <= e < |events| && WinsBy(events[e], tid) ==> e == t.cas && Winning(t))
      && (Winning(t) ==>
            && t.born <= t.cas < |events| && WinsBy(events[t.cas], tid)
            && (events[t.cas].act.Insert? <==> t.op.Insert_?)
            && (t.op.Insert_? ==> events[t.cas].act.key == t.op.key))
  }

  lemma ControlStep(h: Heap, t: Thread, now: nat, c: Choice)
    requires Control(t) || t.pc.Idle?
    ensures Control(StepThread(h, t, now, c).1)
  {
    if Resting(t.pc) {
    } else if Searching(t.pc) {
      ControlSearch(h, t, c);
    } else if Inserting(t.pc) || Flagging(t.pc) {
      ControlPlace(h, t, now, c);
    }
  }

  /** Where a search can take its caller: on, back to it, or to an answer, and only a find can answer yes. */
  predicate SearchNext(t: Thread, t': Thread) {
    && t' == t.(pc := t'.pc)
    && (Searching(t'.pc) || (t'.pc.Done? && (t'.pc.ok ==> t.op.Find?)) || (t'.pc.ReadPrev? && t.goal.Place?)
        || (t'.pc.CheckNode? && t.op.Delete?))
  }

  lemma FoundNext(h: Heap, t: Thread, curr: Id, next: Id)
    requires Control(t) && Searching(t.pc)
    ensures SearchNext(t, Found(h, t, curr, next))
  {
  }

  lemma SearchGoes(h: Heap, t: Thread, c: Choice)
    requires Control(t) && Searching(t.pc)
    ensures SearchNext(t, SearchStep(h, t, c).1) && !SearchStep(h, t, c).0.Insert? && !SearchStep(h, t, c).0.Flag?
  {
    var curr := t.pc.curr;
    if t.pc.LoadNext? {
      FoundNext(h, t, curr, At(h, curr).succ.node);
    } else if t.pc.NextMarked? || t.pc.CurrLink? {
      FoundNext(h, t, curr, t.pc.next);
    }
  }

  lemma ControlSearch(h: Heap, t: Thread, c: Choice)
    requires Control(t) && Searching(t.pc)
    ensures Control(SearchStep(h, t, c).1)
  {
    SearchGoes(h, t, c);
  }

  lemma ControlPlace(h: Heap, t: Thread, now: nat, c: Choice)
    requires Control(t)
    ensures Inserting(t.pc) ==> Control(InsertStep(h, t, now, c).1)
    ensures Flagging(t.pc) ==> Control(FlagStep(h, t, now, c).1)
  {
  }

  /** A thread's step makes a winning write exactly if it makes a call winning. */
  predicate WinKept(t: Thread, a: Act, t': Thread, now: nat) {
    && t'.born == t.born && t'.op == t.op && !t'.pc.Idle?
    && if a.Insert? || a.Flag? then
         && !Winning(t) && Winning(t') && t'.cas == now
         && (a.Insert? <==> t.op.Insert_?) && (a.Insert? ==> a.key == t.op.key)
       else t'.cas == t.cas && (Winning(t') <==> Winning(t))
  }

  lemma WinStep(h: Heap, t: Thread, now: nat, c: Choice)
    requires Control(t) && !Resting(t.pc)
    ensures var (a, t') := StepThread(h, t, now, c);
            WinKept(t, a, t', now)
  {
    if Searching(t.pc) {
      WinSearch(h, t, now, c);
    } else if Inserting(t.pc) || Flagging(t.pc) {
      WinPlace(h, t, now, c);
    } else {
      WinHelp(h, t, now, c);
    }
  }

  lemma WinSearch(h: Heap, t: Thread, now: nat, c: Choice)
    requires Control(t) && Searching(t.pc)
    ensures WinKept(t, SearchStep(h, t, c).0, SearchStep(h, t, c).1, now)
  {
    SearchGoes(h, t, c);
  }

  lemma WinPlace(h: Heap, t: Thread, now: nat, c: Choice)
    requires Control(t)
    ensures Inserting(t.pc) ==> WinKept(t, InsertStep(h, t, now, c).0, InsertStep(h, t, now, c).1, now)
    ensures Flagging(t.pc) ==> WinKept(t, FlagStep(h, t, now, c).0, FlagStep(h, t, now, c).1, now)
  {
  }

  lemma WinHelp(h: Heap, t: Thread, now: nat, c: Choice)
    requires Control(t) && Helping(t.pc)
    ensures WinKept(t, HelpStep(h, t, c).0, HelpStep(h, t, c).1, now)
  {
  }

  lemma OwnCall(h: Heap, events: seq<Event>, tid: nat, t: Thread, c: Choice)
    requires CallInv(events, tid, t)
    ensures var (a, t') := StepThread(h, t, |events|, c);
            CallInv(events + [Event(tid, a)], tid, t')
  {
    var (a, t') := StepThread(h, t, |events|, c);
    var events' := events + [Event(tid, a)];
    ControlStep(h, t, |events|, c);
    if !Resting(t.pc) {
      WinStep(h, t, |events|, c);
      forall e | t'.born <= e < |events'| && WinsBy(events'[e], tid)
        ensures e == t'.cas && Winning(t')
      {
        assert e < |events| ==> WinsBy(events[e], tid);
      }
    }
  }

  lemma OtherCall(events: seq<Event>, e: Event, tid: nat, t: Thread)
    requires CallInv(events, tid, t) && e.tid != tid
    ensures CallInv(events + [e], tid, t)
  {
    var events' := events + [e];
    if !t.pc.Idle? {
      forall i | t.born <= i < |events'| && WinsBy(events'[i], tid)
        ensures i == t.cas && Winning(t)
      {
        assert i < |events| ==> WinsBy(events[i], tid);
      }
    }
  }

  ghost predicate CallsInv(c: Config) {
    && |c.log| == |c.events| + 1
    && forall i {:trigger c.threads[i]} :: i in c.threads ==> CallInv(c.events, i, c.threads[i])
  }

  lemma StepCalls(c: Config, m: Move)
    requires CallsInv(c) && Enabled(c, m)
    ensures CallsInv(Step(c, m))
  {
    var c' := Step(c, m);
    forall i | i in c'.threads
      ensures CallInv(c'.events, i, c'.threads[i])
    {
      if i == m.tid {
        OwnCall(Now(c), c.events, i, c.threads[i], m.choice);
      } else {
        OtherCall(c.events, c'.events[|c.events|], i, c.threads[i]);
      }
    }
  }

  /** In every run, misfires or not. */
  lemma {:induction false} RunCalls(cs: seq<Config>, ms: seq<Move>, n: nat)
    requires IsRun(cs, ms) && n < |cs|
    ensures CallsInv(cs[n]) && |cs[n].events| == n
  {
    if n > 0 {
      RunCalls(cs, ms, n - 1);
      assert Enabled(cs[n - 1], ms[n - 1]) && cs[n] == Step(cs[n - 1], ms[n - 1]);
      StepCalls(cs[n - 1], ms[n - 1]);
    }
  }

  /** In every run, a call that has answered failure inserted no node and won no deletion; one that
      has answered success to an insertion or a deletion made exactly one winning write. */
  lemma AnswersOwnWrites(cs: seq<Config>, ms: seq<Move>, n: nat, i: nat)
    requires IsRun(cs, ms) && n < |cs| && i in cs[n].threads && cs[n].threads[i].pc.Done?
    ensures var t, es := cs[n].threads[i], cs[n].events;
            && t.born < |es|
            && (t.pc.ok && !t.op.Find? <==> exists e :: t.born <= e < |es| && WinsBy(es[e], i))
            && (forall e, f :: t.born <= e < |es| && WinsBy(es[e], i) && t.born <= f < |es| && WinsBy(es[f], i) ==> e == f)
  {
    RunCalls(cs, ms, n);
    var t, es := cs[n].threads[i], cs[n].events;
    assert CallInv(es, i, t);
    if t.pc.ok && !t.op.Find? {
      assert Winning(t) && WinsBy(es[t.cas], i);
    }
  }

  // ---- The operation asked for ----

  /** The operation a thread is at is the one it was asked for when its call began. */
  predicate MadeAs(ms: seq<Move>, i: nat, t: Thread) {
    !t.pc.Idle? ==> t.born < |ms| && ms[t.born].tid == i && ms[t.born].choice.op == t.op
  }

  lemma {:induction false} RunMade(cs: seq<Config>, ms: seq<Move>, n: nat)
    requires IsRun(cs, ms) && n < |cs|
    ensures forall i {:trigger cs[n].threads[i]} :: i in cs[n].threads ==> MadeAs(ms, i, cs[n].threads[i])
  {
    if n > 0 {
      RunMade(cs, ms, n - 1);
      RunCalls(cs, ms, n - 1);
      var c, m := cs[n - 1], ms[n - 1];
      assert Enabled(c, m) && cs[n] == Step(c, m);
      forall i | i in cs[n].threads
        ensures MadeAs(ms, i, cs[n].threads[i])
      {
        assert CallInv(c.events, i, c.threads[i]);
        StepMade(c, m, ms, n - 1, i);
      }
    }
  }

  lemma StepMade(c: Config, m: Move, ms: seq<Move>, n: nat, i: nat)
    requires Enabled(c, m) && |c.log| == n + 1 && |c.events| == n < |ms| && ms[n] == m && i in c.threads
    requires CallInv(c.events, i, c.threads[i]) && MadeAs(ms, i, c.threads[i])
    ensures MadeAs(ms, i, Step(c, m).threads[i])
  {
    var t := c.threads[i];
    if i == m.tid && !Resting(t.pc) {
      WinStep(Now(c), t, n, m.choice);
    }
  }

  // ---- Calls of one thread follow one another ----

  lemma {:induction false} EventsGrow(cs: seq<Config>, ms: seq<Move>, k: nat, n: nat)
    requires IsRun(cs, ms) && k <= n < |cs|
    ensures cs[k].events <= cs[n].events && cs[k].log <= cs[n].log && cs[k].threads.Keys == cs[n].threads.Keys
    decreases n
  {
    if k < n {
      EventsGrow(cs, ms, k, n - 1);
      assert Enabled(cs[n - 1], ms[n - 1]) && cs[n] == Step(cs[n - 1], ms[n - 1]);
    }
  }

  lemma KeepsCall(c: Config, m: Move, i: nat)
    requires CallsInv(c) && Enabled(c, m) && i in c.threads && !c.threads[i].pc.Idle?
    ensures var t, t' := c.threads[i], Step(c, m).threads[i];
            && !t'.pc.Idle?
            && if t'.born == t.born then
                 t'.op == t.op && (Resting(t.pc) ==> t' == t) && (Winning(t) ==> Winning(t') && t'.cas == t.cas)
               else t.pc.Done? && t'.born == |c.events|
  {
    var t := c.threads[i];
    assert CallInv(c.events, i, t);
    if i == m.tid {
      NextOfCall(Now(c), t, |c.events|, m.choice);
    }
  }

  lemma NextOfCall(h: Heap, t: Thread, now: nat, c: Choice)
    requires Control(t)
    ensures var t' := StepThread(h, t, now, c).1;
            && !t'.pc.Idle?
            && if Resting(t.pc) then t'.born == now
               else t'.born == t.born && t'.op == t.op && (Winning(t) ==> Winning(t') && t'.cas == t.cas)
  {
    if !Resting(t.pc) {
      WinStep(h, t, now, c);
    }
  }

  /** A call seen at moment `k` is later still the same call, or has ended in the meantime; a finished
      call stays as it is until the thread begins another. */
  lemma {:induction false} CallGoesOn(cs: seq<Config>, ms: seq<Move>, k: nat, n: nat, i: nat)
    requires IsRun(cs, ms) && k <= n < |cs| && i in cs[k].threads && !cs[k].threads[i].pc.Idle?
    ensures i in cs[n].threads && !cs[n].threads[i].pc.Idle?
    ensures var t, t' := cs[k].threads[i], cs[n].threads[i];
            if t'.born == t.born then
              t'.op == t.op && (Resting(t.pc) ==> t' == t) && (Winning(t) ==> Winning(t') && t'.cas == t.cas)
            else t'.born >= k
    decreases n
  {
    if k < n {
      CallGoesOn(cs, ms, k, n - 1, i);
      KeepsInRun(cs, ms, n - 1, i);
      RunCalls(cs, ms, k);
      assert CallInv(cs[k].events, i, cs[k].threads[i]);
    }
  }

  lemma KeepsInRun(cs: seq<Config>, ms: seq<Move>, n: nat, i: nat)
    requires IsRun(cs, ms) && n + 1 < |cs| && i in cs[n].threads && !cs[n].threads[i].pc.Idle?
    ensures i in cs[n + 1].threads && !cs[n + 1].threads[i].pc.Idle?
    ensures var t, t' := cs[n].threads[i], cs[n + 1].threads[i];
            if t'.born == t.born then
              t'.op == t.op && (Resting(t.pc) ==> t' == t) && (Winning(t) ==> Winning(t') && t'.cas == t.cas)
            else t.pc.Done? && t'.born == n
  {
    RunCalls(cs, ms, n);
    assert Enabled(cs[n], ms[n]) && cs[n + 1] == Step(cs[n], ms[n]);
    KeepsCall(cs[n], ms[n], i);
  }

  /** The call that made the winning write `e`: found at moment `k`, where it has answered success or,
      if `k` is the last moment, is bound to. */
  ghost predicate Winner(cs: seq<Config>, n: nat, e: nat, i: nat, k: nat) {
    && e < k <= n < |cs| && i in cs[k].threads
    && var t := cs[k].threads[i];
       t.born <= e && t.cas == e && Winning(t) && (k < n ==> t.pc == Done(true))
  }

  /** In every run, every insertion and every flagging lies in a call that has answered success, or
      that can give no other answer. */
  lemma {:induction false} WinnerSucceeds(cs: seq<Config>, ms: seq<Move>, n: nat, e: nat) returns (k: nat)
    requires IsRun(cs, ms) && n < |cs| && e < n && e < |cs[n].events| && WinsBy(cs[n].events[e], cs[n].events[e].tid)
    ensures Winner(cs, n, e, cs[n].events[e].tid, k)
    decreases n
  {
    RunCalls(cs, ms, n - 1);
    RunCalls(cs, ms, n);
    if e == n - 1 {
      WinnerLast(cs, ms, n);
      k := n;
    } else {
      EventsGrow(cs, ms, n - 1, n);
      k := WinnerSucceeds(cs, ms, n - 1, e);
      k := WinnerStays(cs, ms, n - 1, e, cs[n].events[e].tid, k);
    }
  }

  lemma WinnerLast(cs: seq<Config>, ms: seq<Move>, n: nat)
    requires IsRun(cs, ms) && 0 < n < |cs| && CallsInv(cs[n - 1]) && |cs[n - 1].events| == n - 1 && |cs[n].events| == n
    requires WinsBy(cs[n].events[n - 1], cs[n].events[n - 1].tid)
    ensures Winner(cs, n, n - 1, cs[n].events[n - 1].tid, n)
  {
    assert Enabled(cs[n - 1], ms[n - 1]) && cs[n] == Step(cs[n - 1], ms[n - 1]);
    WinnerNow(cs[n - 1], ms[n - 1]);
  }

  lemma WinnerNow(c: Config, m: Move)
    requires CallsInv(c) && Enabled(c, m)
    requires WinsBy(Step(c, m).events[|c.events|], m.tid)
    ensures var t' := Step(c, m).threads[m.tid];
            Winning(t') && t'.cas == |c.events| && t'.born <= |c.events|
  {
    StepCalls(c, m);
    var c' := Step(c, m);
    assert CallInv(c'.events, m.tid, c'.threads[m.tid]);
    StartsAtOwnStep(c, m);
  }

  lemma WinnerStays(cs: seq<Config>, ms: seq<Move>, n: nat, e: nat, i: nat, k: nat) returns (k': nat)
    requires IsRun(cs, ms) && n + 1 < |cs| && CallsInv(cs[n]) && Winner(cs, n, e, i, k)
    ensures Winner(cs, n + 1, e, i, k')
  {
    k' := k;
    if k == n {
      var t := cs[k].threads[i];
      assert !t.pc.Idle?;
      KeepsInRun(cs, ms, k, i);
      if cs[n + 1].threads[i].born == t.born {
        k' := n + 1;
      }
    }
  }

  /** A thread whose step is a winning write began its call no later than that step. */
  lemma StartsAtOwnStep(c: Config, m: Move)
    requires CallsInv(c) && Enabled(c, m)
    ensures m.tid in Step(c, m).threads && Step(c, m).threads[m.tid].born <= |c.events|
  {
    var t := c.threads[m.tid];
    assert CallInv(c.events, m.tid, t);
    if !Resting(t.pc) {
      WinStep(Now(c), t, |c.events|, m.choice);
    }
  }

  /** One call makes a winning write: two finders of the same write found the same call. */
  lemma OneWinner(cs: seq<Config>, ms: seq<Move>, n: nat, e: nat, i: nat, k: nat, j: nat, l: nat)
    requires IsRun(cs, ms) && Winner(cs, n, e, i, k) && Winner(cs, n, e, j, l)
    ensures i == j && cs[k].threads[i].born == cs[l].threads[j].born
  {
    RunCalls(cs, ms, k);
    RunCalls(cs, ms, l);
    EventsGrow(cs, ms, k, n);
    EventsGrow(cs, ms, l, n);
    assert CallInv(cs[k].events, i, cs[k].threads[i]) && CallInv(cs[l].events, j, cs[l].threads[j]);
    assert cs[k].events[e] == cs[n].events[e] == cs[l].events[e];
    if k <= l {
      CallGoesOn(cs, ms, k, l, i);
    } else {
      CallGoesOn(cs, ms, l, k, i);
    }
  }

  // ---- Who removes a node ----

  /** In every run, up to and including the first misfire, every node that is marked was won by exactly
      one deletion: one that has answered success or can give no other answer. */
  lemma MarkHasWinner(cs: seq<Config>, ms: seq<Move>, n: nat, m: nat) returns (f: nat, k: nat)
    requires IsRun(cs, ms) && n < |cs| && CalmUpTo(cs, ms, if n > 0 then n - 1 else 0)
    requires m < n && m < |cs[n].events| && cs[n].events[m].act.Mark?
    ensures f < m && f < |cs[n].events| && FlagsNode(cs[n].events[f], cs[n].events[m].act.del)
    ensures Winner(cs, n, f, cs[n].events[f].tid, k) && cs[k].threads[cs[n].events[f].tid].op.Delete?
    ensures forall g :: 0 <= g < |cs[n].events| && FlagsNode(cs[n].events[g], cs[n].events[m].act.del) ==> g == f
  {
    var es := cs[n].events;
    var d := es[m].act.del;
    EveryRun(cs, ms, n);
    assert MarksNode(es[m], d);
    f :| 0 <= f < m && FlagsNode(es[f], d);
    k := WinnerSucceeds(cs, ms, n, f);
    RunCalls(cs, ms, k);
    EventsGrow(cs, ms, k, n);
    var i := es[f].tid;
    assert CallInv(cs[k].events, i, cs[k].threads[i]);
    assert cs[k].events[f] == es[f];
    WinningOps(cs[k].threads[i]);
  }

  lemma WinningOps(t: Thread)
    requires Control(t) && Winning(t)
    ensures t.op.Insert_? || t.op.Delete?
  {
  }

  /** In every run, up to and including the first misfire, a deletion that has answered failure has
      removed nothing: every node marked since it began, even by its own hand, was won by another call. */
  lemma FailureRemovesNothing(cs: seq<Config>, ms: seq<Move>, n: nat, i: nat, m: nat)
    requires IsRun(cs, ms) && n < |cs| && CalmUpTo(cs, ms, if n > 0 then n - 1 else 0)
    requires i in cs[n].threads && cs[n].threads[i].pc == Done(false)
    requires m < n && m < |cs[n].events| && cs[n].events[m].act.Mark?
    ensures exists f, k ::
              && 0 <= f < m && FlagsNode(cs[n].events[f], cs[n].events[m].act.del)
              && Winner(cs, n, f, cs[n].events[f].tid, k)
              && (cs[n].events[f].tid == i ==> f < cs[n].threads[i].born)
  {
    var f, k := MarkHasWinner(cs, ms, n, m);
    RunCalls(cs, ms, n);
    assert CallInv(cs[n].events, i, cs[n].threads[i]);
    assert cs[n].events[f].tid == i ==> WinsBy(cs[n].events[f], i);
  }
}
