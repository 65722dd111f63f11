/** The list is linearizable: every finished call has a moment of its own interval at which it can be
    taken to have happened at once, and the key set changes at those moments and at no others. */
module ListLinear {
  import opened ListHeap
  import opened ListThreads
  import opened ListSystem
  import opened ListHistory
  import opened ListHindsight
  import opened ListCalls

  /** What an operation answers, and what it makes of the set, when nothing else is going on. */
  function Sequential(op: Op, s: set<int>): (bool, set<int>) {
    match op
    case Find(k) => (k in s, s)
    case Insert_(k) => (k !in s, s + {k})
    case Delete(k) => (k in s, s - {k})
  }

  /** The call can be taken to have happened at moment `p`: if it wins, its own write there changes
      the set as the operation does; otherwise the set at `p` gives the answer and stays. */
  ghost predicate PointOf(log: seq<Heap>, events: seq<Event>, t: Thread, p: nat) {
    && t.born <= p && |log| == |events| + 1
    && if Winning(t) then
         && p < |events| && t.cas < |events|
         && (if t.op.Insert_? then p == t.cas else MarksNode(events[p], Deleted(events[t.cas].act)))
         && Sequential(t.op, KeySet(log[p])) == (true, KeySet(log[p + 1]))
       else
         t.pc.Done? && p < |log| && Sequential(t.op, KeySet(log[p])) == (t.pc.ok, KeySet(log[p]))
  }

  lemma PointLater(log: seq<Heap>, log': seq<Heap>, events: seq<Event>, events': seq<Event>, t: Thread, p: nat)
    requires log <= log' && events <= events' && |log'| == |events'| + 1 && PointOf(log, events, t, p)
    ensures PointOf(log', events', t, p)
  {
  }

  /** A true answer yields a point. */
  lemma OutcomePoint(log: seq<Heap>, events: seq<Event>, tid: nat, t: Thread) returns (p: nat)
    requires LogInv(log, events) && t.pc.Done? && Outcome(log, events, tid, t, t.pc.ok)
    ensures PointOf(log, events, t, p)
  {
    var k := t.op.key;
    if Winning(t) {
      p := OutcomeChangesSet(log, events, tid, t);
    } else if t.op.Insert_? || (t.op.Find? && t.pc.ok) {
      p :| t.born <= p && HasKey(log, p, k);
      assert KeySet(log[p]) + {k} == KeySet(log[p]);
    } else {
      p :| t.born <= p && LacksKey(log, p, k);
      assert KeySet(log[p]) - {k} == KeySet(log[p]);
    }
  }

  /** Thread `i` as it stood at moment `k`: at the end of a call, or, if `k` is the last moment, in a
      call that is bound to succeed. */
  ghost predicate Call(cs: seq<Config>, n: nat, k: nat, i: nat) {
    && k <= n < |cs| && i in cs[k].threads
    && (cs[k].threads[i].pc.Done? || (k == n && Winning(cs[k].threads[i])))
  }

  ghost predicate Explained(cs: seq<Config>, n: nat, k: nat, i: nat, p: nat) {
    Call(cs, n, k, i) && p <= k && PointOf(cs[n].log, cs[n].events, cs[k].threads[i], p)
  }

  lemma FinishedExplained(cs: seq<Config>, ms: seq<Move>, n: nat, k: nat, i: nat) returns (p: nat)
    requires IsRun(cs, ms) && n < |cs| && CalmUpTo(cs, ms, n) && Call(cs, n, k, i) && cs[k].threads[i].pc.Done?
    ensures Explained(cs, n, k, i, p)
  {
    EveryAnswerWasTrue(cs, ms, k);
    RunLog(cs, ms, k);
    RunLog(cs, ms, n);
    EventsGrow(cs, ms, k, n);
    p := OutcomePoint(cs[k].log, cs[k].events, i, cs[k].threads[i]);
    PointLater(cs[k].log, cs[n].log, cs[k].events, cs[n].events, cs[k].threads[i], p);
  }

  /** The call that won a node, and the key of that node. */
  lemma WinnerKey(cs: seq<Config>, ms: seq<Move>, k: nat, i: nat)
    requires IsRun(cs, ms) && k < |cs| && CalmUpTo(cs, ms, k) && i in cs[k].threads
    requires Winning(cs[k].threads[i]) && cs[k].threads[i].op.Delete?
    ensures var t := cs[k].threads[i];
            && t.cas < |cs[k].events| && FlagsNode(cs[k].events[t.cas], Deleted(cs[k].events[t.cas].act))
            && var d := Deleted(cs[k].events[t.cas].act);
               d in Now(cs[k]) && Now(cs[k])[d].key == t.op.key
  {
    var t, c := cs[k].threads[i], cs[k];
    EveryAnswerWasTrue(cs, ms, k);
    RunSoundUpTo(cs, ms, k);
    RunLog(cs, ms, k);
    assert Sound(c) && ThreadInv(Now(c), t) && Hist(c.log, c.events, i, t);
    if t.pc.Done? {
      var d := Deleted(c.events[t.cas].act);
      assert Legal(c.log[t.cas], c.events[t.cas].act);
      EvolvesLater(c.log, c.events, t.cas, |c.log| - 1, d);
    }
  }

  ghost predicate Changes(log: seq<Heap>, p: nat) {
    p + 1 < |log| && KeySet(log[p + 1]) != KeySet(log[p])
  }

  /** The write that changes the set at `p` is the point of a call. */
  lemma ChangeExplained(cs: seq<Config>, ms: seq<Move>, n: nat, p: nat) returns (k: nat, i: nat)
    requires IsRun(cs, ms) && n < |cs| && CalmUpTo(cs, ms, n) && p < n
    requires Changes(cs[n].log, p)
    ensures Explained(cs, n, k, i, p) && Winning(cs[k].threads[i])
  {
    var log, es := cs[n].log, cs[n].events;
    RunLog(cs, ms, n);
    assert Legal(log[p], es[p].act) && HeapInv(log[p]);
    ActRefinesSet(log[p], es[p].act);
    if es[p].act.Insert? {
      i := es[p].tid;
      k := WinnerSucceeds(cs, ms, n, p);
      InsertPoint(cs, ms, n, p, i, k);
    } else {
      var f: nat;
      f, k := MarkHasWinner(cs, ms, n, p);
      i := es[f].tid;
      if k < n {
        MarkBeforeEnd(cs, ms, n, p, f, i, k);
      }
      DeletePoint(cs, ms, n, p, f, i, k);
    }
  }

  /** A deletion answers success only after its node was marked. */
  lemma MarkBeforeEnd(cs: seq<Config>, ms: seq<Move>, n: nat, p: nat, f: nat, i: nat, k: nat)
    requires IsRun(cs, ms) && n < |cs| && CalmUpTo(cs, ms, n) && LogInv(cs[n].log, cs[n].events)
    requires Winner(cs, n, f, i, k) && cs[k].threads[i].pc == Done(true) && cs[k].threads[i].op.Delete?
    requires f < p < |cs[n].events| && cs[n].events[p].act.Mark?
    requires FlagsNode(cs[n].events[f], cs[n].events[p].act.del)
    ensures p < k
  {
    var t, d := cs[k].threads[i], cs[n].events[p].act.del;
    EveryAnswerWasTrue(cs, ms, k);
    RunCalls(cs, ms, k);
    EventsGrow(cs, ms, k, n);
    assert Outcome(cs[k].log, cs[k].events, i, t, true);
    assert cs[k].events[f] == cs[n].events[f];
    var m: nat :| f < m < |cs[k].events| && cs[k].events[m].act.Mark? && cs[k].events[m].act.del == d;
    assert cs[k].events[m] == cs[n].events[m];
    var g := MarkedOnceAfterFlag(cs[n].log, cs[n].events, p, m, d);
  }

  lemma InsertPoint(cs: seq<Config>, ms: seq<Move>, n: nat, p: nat, i: nat, k: nat)
    requires IsRun(cs, ms) && Winner(cs, n, p, i, k) && LogInv(cs[n].log, cs[n].events) && p < |cs[n].events|
    requires cs[n].events[p].act.Insert?
    ensures Explained(cs, n, k, i, p)
  {
    RunCalls(cs, ms, k);
    EventsGrow(cs, ms, k, n);
    assert CallInv(cs[k].events, i, cs[k].threads[i]);
    assert Legal(cs[n].log[p], cs[n].events[p].act) && HeapInv(cs[n].log[p]);
    ActRefinesSet(cs[n].log[p], cs[n].events[p].act);
  }

  lemma DeletePoint(cs: seq<Config>, ms: seq<Move>, n: nat, p: nat, f: nat, i: nat, k: nat)
    requires IsRun(cs, ms) && n < |cs| && CalmUpTo(cs, ms, n) && LogInv(cs[n].log, cs[n].events)
    requires Winner(cs, n, f, i, k) && f < p < |cs[n].events| && cs[n].events[p].act.Mark?
    requires FlagsNode(cs[n].events[f], cs[n].events[p].act.del) && cs[k].threads[i].op.Delete?
    requires p < k || k == n
    ensures Explained(cs, n, k, i, p)
  {
    var log, es, t := cs[n].log, cs[n].events, cs[k].threads[i];
    var d := es[p].act.del;
    RunCalls(cs, ms, k);
    RunCalls(cs, ms, n);
    EventsGrow(cs, ms, k, n);
    WinnerKey(cs, ms, k, i);
    assert Legal(log[p], es[p].act) && HeapInv(log[p]);
    ActRefinesSet(log[p], es[p].act);
    assert cs[k].events[t.cas] == es[f];
    EvolvesLater(log, es, k, n, d);
    EvolvesLater(log, es, p, n, d);
  }

  /** At one moment one call wins. */
  lemma PointsApart(cs: seq<Config>, ms: seq<Move>, n: nat, k: nat, i: nat, l: nat, j: nat, p: nat)
    requires IsRun(cs, ms) && n < |cs| && LogInv(cs[n].log, cs[n].events) && |cs[n].events| == n
    requires Explained(cs, n, k, i, p) && Winning(cs[k].threads[i])
    requires Explained(cs, n, l, j, p) && Winning(cs[l].threads[j])
    ensures i == j && cs[k].threads[i].born == cs[l].threads[j].born
  {
    var t, u, es := cs[k].threads[i], cs[l].threads[j], cs[n].events;
    WinnerOf(cs, ms, n, k, i);
    WinnerOf(cs, ms, n, l, j);
    if t.op.Insert_? || u.op.Insert_? {
      assert t.cas == u.cas;
    } else {
      FlaggedOnce(cs[n].log, es, t.cas, u.cas, es[p].act.del);
    }
    OneWinner(cs, ms, n, t.cas, i, k, j, l);
  }

  lemma WinnerOf(cs: seq<Config>, ms: seq<Move>, n: nat, k: nat, i: nat)
    requires IsRun(cs, ms) && Call(cs, n, k, i) && Winning(cs[k].threads[i])
    ensures var t := cs[k].threads[i];
            && Winner(cs, n, t.cas, i, k) && t.cas < |cs[n].events| && WinsBy(cs[n].events[t.cas], i)
            && (cs[n].events[t.cas].act.Insert? <==> t.op.Insert_?)
  {
    RunCalls(cs, ms, k);
    EventsGrow(cs, ms, k, n);
    assert CallInv(cs[k].events, i, cs[k].threads[i]);
  }

  /** Every finished call has a moment within its own interval at which the sequential operation, applied
      to the set of that moment, gives the call's answer and the set of the next. */
  ghost predicate CallsExplained(cs: seq<Config>, n: nat) {
    forall k: nat, i: nat {:trigger Call(cs, n, k, i)} ::
      Call(cs, n, k, i) && cs[k].threads[i].pc.Done? ==> exists p: nat :: Explained(cs, n, k, i, p)
  }

  ghost predicate Wins(cs: seq<Config>, n: nat, k: nat, i: nat, p: nat) {
    Explained(cs, n, k, i, p) && Winning(cs[k].threads[i])
  }

  /** No two calls win at the same moment. */
  ghost predicate WinsApart(cs: seq<Config>, n: nat) {
    forall k: nat, i: nat, l: nat, j: nat, p: nat {:trigger Wins(cs, n, k, i, p), Wins(cs, n, l, j, p)} ::
      Wins(cs, n, k, i, p) && Wins(cs, n, l, j, p) ==> i == j && cs[k].threads[i].born == cs[l].threads[j].born
  }

  /** The set never changes but at the point of a winning call. */
  ghost predicate ChangesExplained(cs: seq<Config>, n: nat)
    requires n < |cs|
  {
    forall p: nat {:trigger Changes(cs[n].log, p)} ::
      Changes(cs[n].log, p) ==> exists k: nat, i: nat :: Wins(cs, n, k, i, p)
  }

  ghost predicate Linearized(cs: seq<Config>, n: nat) {
    && n < |cs| && |cs[n].log| == n + 1 && KeySet(cs[n].log[0]) == {}
    && CallsExplained(cs, n) && WinsApart(cs, n) && ChangesExplained(cs, n)
  }

  /** In every run, until a check misfires, the list is linearizable, and every thread is at the operation
      it was asked for. */
  lemma Linearizable(cs: seq<Config>, ms: seq<Move>, n: nat)
    requires IsRun(cs, ms) && n < |cs| && CalmUpTo(cs, ms, n)
    ensures Linearized(cs, n)
    ensures forall i {:trigger cs[n].threads[i]} :: i in cs[n].threads ==> MadeAs(ms, i, cs[n].threads[i])
  {
    RunMade(cs, ms, n);
    RunLog(cs, ms, n);
    forall k: nat, i: nat | Call(cs, n, k, i) && cs[k].threads[i].pc.Done?
      ensures exists p: nat :: Explained(cs, n, k, i, p)
    {
      var p := FinishedExplained(cs, ms, n, k, i);
    }
    forall k: nat, i: nat, l: nat, j: nat, p: nat | Wins(cs, n, k, i, p) && Wins(cs, n, l, j, p)
      ensures i == j && cs[k].threads[i].born == cs[l].threads[j].born
    {
      PointsApart(cs, ms, n, k, i, l, j, p);
    }
    forall p: nat | Changes(cs[n].log, p)
      ensures exists k: nat, i: nat :: Wins(cs, n, k, i, p)
    {
      var k, i := ChangeExplained(cs, ms, n, p);
      assert Wins(cs, n, k, i, p);
    }
  }
}
