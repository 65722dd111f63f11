/** What the backlinks of deleted nodes are worth, in the runs in which no check of `try_flag` sees a
    flag at another node while its target is linked: every helper of a linked node writes the same one,
    and it leads to a node that was in the list after the marking. */
module ListBacklinks {
  import opened ListHeap
  import opened ListThreads
  import opened ListSystem
  import opened ListHistory
  import opened ListCalls

  /** At moment `i`, `d` was marked and `p` was in the list. */
  predicate BackAt(log: seq<Heap>, i: nat, d: Id, p: Id) {
    UnmarkedAt(log, i, p) && d in log[i] && log[i][d].succ.mark
  }

  ghost predicate BackSeen(log: seq<Heap>, d: Id, p: Id) {
    exists i: nat :: BackAt(log, i, d, p)
  }

  /** The node that the backlink of a marked node leads to was in the list after that node was marked. */
  lemma BacklinkSince(log: seq<Heap>, events: seq<Event>, i: nat, j: nat, n: Id, p: Id) returns (e: nat)
    requires LogInv(log, events) && i <= j < |log| && UnmarkedAt(log, i, n) && BackSeen(log[..j + 1], n, p)
    ensures i <= e <= j && UnmarkedAt(log, e, p)
  {
    e :| BackAt(log[..j + 1], e, n, p);
    if e < i {
      EvolvesLater(log, events, e, i, n);
    }
  }

  // ---- Wrong backlinks ----

  /** The check strays while its target is linked, so a linked node will get a backlink to a node that
      was not flagged at it. */
  ghost predicate Diverts(h: Heap, t: Thread) {
    Strays(h, t) && t.pc.target in h && Linked(h, t.pc.target)
  }

  ghost predicate DivertsAt(cs: seq<Config>, ms: seq<Move>, i: nat)
    requires i < |cs| && i < |ms|
  {
    ms[i].tid in cs[i].threads && Diverts(Now(cs[i]), cs[i].threads[ms[i].tid])
  }

  ghost predicate TrueUpTo(cs: seq<Config>, ms: seq<Move>, n: nat)
    requires n <= |cs| && n <= |ms|
  {
    forall i :: 0 <= i < n ==> !DivertsAt(cs, ms, i)
  }

  lemma TrueIsCalm(cs: seq<Config>, ms: seq<Move>, n: nat)
    requires n <= |cs| && n <= |ms| && TrueUpTo(cs, ms, n)
    ensures CalmUpTo(cs, ms, n)
  {
    forall i | 0 <= i < n
      ensures !MisfiresAt(cs, ms, i)
    {
      assert !DivertsAt(cs, ms, i);
    }
  }

  /** `p` is flagged at `d`, or `d` is out of the list and its backlink of no more use. */
  ghost predicate TrueHelp(h: Heap, d: Id, p: Id) {
    FlaggedAt(h, p, d) || (d in h && !Linked(h, d))
  }

  ghost predicate TrueClaim(h: Heap, d: Id, p: Id) {
    TrueHelp(h, d, p) && d in h && (Linked(h, d) ==> h[d].backlink == p)
  }

  /** A marked node under a flagged predecessor has that predecessor as its backlink. */
  predicate BackOk(h: Heap, p: Id, d: Id) {
    FlaggedAt(h, p, d) && h[d].succ.mark ==> h[d].backlink == p
  }

  ghost predicate BackHeap(h: Heap) {
    forall p, d {:trigger BackOk(h, p, d)} :: BackOk(h, p, d)
  }

  ghost predicate BackThread(h: Heap, t: Thread) {
    Helping(t.pc) ==>
      && (if t.pc.WriteBack? then TrueHelp(h, t.pc.del, t.pc.prev) else TrueClaim(h, t.pc.del, t.pc.prev))
      && forall f :: f in t.stack ==> TrueClaim(h, f.del, f.prev)
  }

  /** The write gives a linked node no backlink but the node flagged at it, and marks none without. */
  ghost predicate TrueAct(h: Heap, a: Act) {
    && (a.SetBacklink? ==> TrueHelp(h, a.del, a.prev))
    && (a.Mark? ==> a.del in h && FlaggedAt(h, h[a.del].backlink, a.del))
  }

  /** All threads that help delete a node still linked name the same predecessor. */
  lemma HelpersAgree(h: Heap, d: Id, p: Id, q: Id)
    requires HeapInv(h) && TrueHelp(h, d, p) && TrueHelp(h, d, q) && d in h && Linked(h, d)
    ensures p == q
  {
    assert NodeInv(h, p) && NodeInv(h, q);
    OnePredecessor(h, p, q);
  }

  lemma TrueHelpLater(h: Heap, a: Act, d: Id, p: Id)
    requires HeapInv(h) && Legal(h, a) && TrueHelp(h, d, p)
    ensures TrueHelp(Apply(h, a), d, p)
  {
    FlaggedAtAfter(h, a, p, d);
    LinkedAfter(h, a, d);
  }

  lemma TrueClaimLater(h: Heap, a: Act, d: Id, p: Id)
    requires HeapInv(h) && Legal(h, a) && TrueAct(h, a) && TrueClaim(h, d, p)
    ensures TrueClaim(Apply(h, a), d, p)
  {
    TrueHelpLater(h, a, d, p);
    LinkedAfter(h, a, d);
    if Linked(h, d) && a.SetBacklink? && a.del == d {
      HelpersAgree(h, d, p, a.prev);
    }
  }

  lemma BackOkLater(h: Heap, a: Act, p: Id, d: Id)
    requires HeapInv(h) && Legal(h, a) && TrueAct(h, a) && BackOk(h, p, d)
    ensures BackOk(Apply(h, a), p, d)
  {
    if FlaggedAt(Apply(h, a), p, d) && d in h {
      FlaggedAtAfter(h, a, p, d);
      if a.Flag? && a.del == d {
        NotLeaving(h, a.prev, d);
      } else if a.SetBacklink? && a.del == d {
        assert Flagged(h, d);
        HelpersAgree(h, d, p, a.prev);
      } else if a.Mark? && a.del == d {
        HelpersAgree(h, d, p, h[d].backlink);
      }
    }
  }

  lemma OtherTrue(h: Heap, a: Act, t: Thread)
    requires HeapInv(h) && Legal(h, a) && TrueAct(h, a) && BackThread(h, t)
    ensures BackThread(Apply(h, a), t)
  {
    if Helping(t.pc) {
      TrueHelpLater(h, a, t.pc.del, t.pc.prev);
      if !t.pc.WriteBack? {
        TrueClaimLater(h, a, t.pc.del, t.pc.prev);
      }
      forall f | f in t.stack
        ensures TrueClaim(Apply(h, a), f.del, f.prev)
      {
        TrueClaimLater(h, a, f.del, f.prev);
      }
    }
  }

  lemma OwnAct(h: Heap, t: Thread, now: nat, c: Choice)
    requires HeapInv(h) && ThreadInv(h, t) && BackThread(h, t)
    ensures TrueAct(h, StepThread(h, t, now, c).0)
  {
  }

  ghost predicate Enters(h: Heap, t: Thread) {
    t.pc.WriteBack? && t.stack == [] && TrueHelp(h, t.pc.del, t.pc.prev)
  }

  lemma EntersFromInsert(h: Heap, t: Thread, now: nat, c: Choice)
    requires HeapInv(h) && InsertInv(h, t) && Inserting(t.pc) && Helping(InsertStep(h, t, now, c).1.pc)
    ensures InsertStep(h, t, now, c).0 == Nop && Enters(h, InsertStep(h, t, now, c).1)
  {
    assert NodeInv(h, t.pc.prev);
  }

  lemma EntersFromFlag(h: Heap, t: Thread, now: nat, c: Choice)
    requires HeapInv(h) && FlagInv(h, t) && Flagging(t.pc) && !Diverts(h, t) && Helping(FlagStep(h, t, now, c).1.pc)
    ensures Enters(Apply(h, FlagStep(h, t, now, c).0), FlagStep(h, t, now, c).1)
  {
    assert NodeInv(h, t.pc.prev);
  }

  lemma SearchGivesNoHelp(h: Heap, t: Thread, c: Choice)
    requires Searching(t.pc)
    ensures !Helping(SearchStep(h, t, c).1.pc)
  {
  }

  /** A thread begins to help where it sees the flag, or strays. */
  lemma OwnEnters(h: Heap, t: Thread, now: nat, c: Choice)
    requires HeapInv(h) && ThreadInv(h, t) && !Helping(t.pc) && !Diverts(h, t)
    requires Helping(StepThread(h, t, now, c).1.pc)
    ensures Enters(Apply(h, StepThread(h, t, now, c).0), StepThread(h, t, now, c).1)
  {
    if Searching(t.pc) {
      SearchGivesNoHelp(h, t, c);
    } else if Inserting(t.pc) {
      EntersFromInsert(h, t, now, c);
    } else if Flagging(t.pc) {
      EntersFromFlag(h, t, now, c);
    }
  }

  lemma OwnHelp(h: Heap, t: Thread, c: Choice)
    requires HeapInv(h) && HelpInv(h, t) && Helping(t.pc) && BackThread(h, t)
    requires BackThread(Apply(h, HelpStep(h, t, c).0), t)
    ensures BackThread(Apply(h, HelpStep(h, t, c).0), HelpStep(h, t, c).1)
  {
    var (a, t') := HelpStep(h, t, c);
    if Helping(t'.pc) {
      if t.pc.CasUnlink? {
        assert t.stack[|t.stack| - 1] in t.stack;
        assert forall f :: f in t'.stack ==> f in t.stack;
      } else if t.pc.MarkResult? && t'.pc.WriteBack? {
        assert NodeInv(h, t.pc.del);
        assert forall f :: f in t'.stack ==> f in t.stack || f == Frame(t.pc.prev, t.pc.del);
      } else {
        assert t'.stack == t.stack;
      }
    }
  }

  lemma OwnTrue(h: Heap, t: Thread, now: nat, c: Choice)
    requires HeapInv(h) && ThreadInv(h, t) && BackThread(h, t) && !Diverts(h, t) && Allowed(h, c)
    ensures var (a, t') := StepThread(h, t, now, c);
            Legal(h, a) && TrueAct(h, a) && BackThread(Apply(h, a), t')
  {
    var (a, t') := StepThread(h, t, now, c);
    OwnStep(h, t, now, c);
    OwnAct(h, t, now, c);
    if Helping(t.pc) {
      OtherTrue(h, a, t);
      OwnHelp(h, t, c);
    } else if Helping(t'.pc) {
      OwnEnters(h, t, now, c);
    }
  }

  // ---- Where backlinks lead ----

  predicate MarkedNow(log: seq<Heap>, n: Id) {
    n in Latest(log) && Latest(log)[n].succ.mark
  }

  ghost predicate Backs(log: seq<Heap>) {
    forall n {:trigger MarkedNow(log, n)} :: MarkedNow(log, n) ==> BackSeen(log, n, Latest(log)[n].backlink)
  }

  /** What a thread about to write a backlink knows of the node it will write. */
  ghost predicate BackHist(log: seq<Heap>, t: Thread) {
    t.pc.WriteBack? ==> FlaggedAt(Latest(log), t.pc.prev, t.pc.del) || BackSeen(log, t.pc.del, t.pc.prev)
  }

  ghost predicate BacksInv(c: Config) {
    && Backs(c.log) && BackHeap(Now(c))
    && forall i {:trigger c.threads[i]} :: i in c.threads ==> BackHist(c.log, c.threads[i]) && BackThread(Now(c), c.threads[i])
  }

  lemma BackSeenGrows(log: seq<Heap>, log': seq<Heap>, d: Id, p: Id)
    requires log <= log' && BackSeen(log, d, p)
    ensures BackSeen(log', d, p)
  {
    var i: nat :| BackAt(log, i, d, p);
    assert BackAt(log', i, d, p);
  }

  lemma OtherBack(log: seq<Heap>, a: Act, t: Thread)
    requires |log| > 0 && HeapInv(Latest(log)) && Legal(Latest(log), a) && BackHist(log, t)
    ensures BackHist(log + [Apply(Latest(log), a)], t)
  {
    if t.pc.WriteBack? {
      var h, prev, del := Latest(log), t.pc.prev, t.pc.del;
      var log' := log + [Apply(h, a)];
      if BackSeen(log, del, prev) {
        BackSeenGrows(log, log', del, prev);
      } else if !FlaggedAt(Apply(h, a), prev, del) {
        assert NodeInv(h, prev);
        FlaggedAtAfter(h, a, prev, del);
        assert BackAt(log', |log| - 1, del, prev);
      }
    }
  }

  lemma OwnBack(log: seq<Heap>, t: Thread, now: nat, c: Choice)
    requires |log| > 0 && HeapInv(Latest(log)) && ThreadInv(Latest(log), t) && !Diverts(Latest(log), t)
    ensures var (a, t') := StepThread(Latest(log), t, now, c);
            BackHist(log + [Apply(Latest(log), a)], t')
  {
    var h := Latest(log);
    var (a, t') := StepThread(h, t, now, c);
    if t'.pc.WriteBack? {
      assert NodeInv(h, t.pc.prev);
      if t.pc.CheckFlag? && h[t.pc.prev].succ.node != t.pc.target {
        assert BackAt(log + [Apply(h, a)], |log| - 1, t.pc.target, t.pc.prev);
      } else if t.pc.MarkResult? {
        assert NodeInv(h, t.pc.del);
      }
    }
  }

  lemma ActBacks(log: seq<Heap>, a: Act)
    requires |log| > 0 && HeapInv(Latest(log)) && Legal(Latest(log), a) && TrueAct(Latest(log), a) && Backs(log)
    requires a.SetBacklink? && !FlaggedAt(Latest(log), a.prev, a.del) ==> BackSeen(log, a.del, a.prev)
    ensures Backs(log + [Apply(Latest(log), a)])
  {
    var h := Latest(log);
    var log' := log + [Apply(h, a)];
    forall n | MarkedNow(log', n)
      ensures BackSeen(log', n, Latest(log')[n].backlink)
    {
      var p := Latest(log')[n].backlink;
      if a.Mark? && a.del == n {
        assert NodeInv(h, p);
        assert BackAt(log', |log|, n, p);
      } else if a.SetBacklink? && a.del == n && FlaggedAt(h, a.prev, n) {
        assert NodeInv(h, p);
        assert BackAt(log', |log| - 1, n, p);
      } else {
        assert MarkedNow(log, n);
        BackSeenGrows(log, log', n, p);
      }
    }
  }

  lemma StepBacks(c: Config, m: Move)
    requires Sound(c) && BacksInv(c) && Enabled(c, m) && !Diverts(Now(c), c.threads[m.tid])
    ensures BacksInv(Step(c, m))
  {
    var c' := Step(c, m);
    var h, t := Now(c), c.threads[m.tid];
    var a := StepThread(h, t, |c.log| - 1, m.choice).0;
    assert ThreadInv(h, t) && BackHist(c.log, t) && BackThread(h, t);
    OwnTrue(h, t, |c.log| - 1, m.choice);
    HelpWrites(h, t, |c.log| - 1, m.choice);
    ActBacks(c.log, a);
    forall p, d
      ensures BackOk(Now(c'), p, d)
    {
      assert BackOk(h, p, d);
      BackOkLater(h, a, p, d);
    }
    forall i | i in c'.threads
      ensures BackHist(c'.log, c'.threads[i]) && BackThread(Now(c'), c'.threads[i])
    {
      if i == m.tid {
        OwnBack(c.log, t, |c.log| - 1, m.choice);
      } else {
        assert BackHist(c.log, c.threads[i]) && BackThread(h, c.threads[i]);
        OtherBack(c.log, a, c.threads[i]);
        OtherTrue(h, a, c.threads[i]);
      }
    }
  }

  lemma HelpWrites(h: Heap, t: Thread, now: nat, c: Choice)
    ensures var a := StepThread(h, t, now, c).0;
            a.SetBacklink? ==> t.pc == WriteBack(a.prev, a.del)
  {
  }

  /** In every run, as long as no check strays from a linked target, the backlink of every marked node
      leads to a node that was in the list at some moment after the marking. */
  lemma {:induction false} RunBacks(cs: seq<Config>, ms: seq<Move>, n: nat)
    requires IsRun(cs, ms) && n < |cs| && TrueUpTo(cs, ms, n)
    ensures BacksInv(cs[n]) && Sound(cs[n])
  {
    TrueIsCalm(cs, ms, n);
    RunSoundUpTo(cs, ms, n);
    assert Sound(cs[n]);
    if n > 0 {
      RunBacks(cs, ms, n - 1);
      assert Enabled(cs[n - 1], ms[n - 1]) && cs[n] == Step(cs[n - 1], ms[n - 1]);
      assert !DivertsAt(cs, ms, n - 1);
      StepBacks(cs[n - 1], ms[n - 1]);
    }
  }

  /** The `i`th write of a run, as its thread made it. */
  lemma WriteOf(cs: seq<Config>, ms: seq<Move>, n: nat, i: nat)
    requires IsRun(cs, ms) && i < n < |cs|
    ensures |cs[i].log| == i + 1 && |cs[n].events| == n && |cs[n].log| == n + 1 && cs[n].log[i] == Now(cs[i])
    ensures Enabled(cs[i], ms[i])
    ensures cs[n].events[i].act == StepThread(Now(cs[i]), cs[i].threads[ms[i].tid], i, ms[i].choice).0
  {
    RunCalls(cs, ms, i);
    RunCalls(cs, ms, n);
    EventsGrow(cs, ms, i, n);
    EventsGrow(cs, ms, i + 1, n);
    assert Enabled(cs[i], ms[i]) && cs[i + 1] == Step(cs[i], ms[i]);
  }

  lemma TrueWrite(cs: seq<Config>, ms: seq<Move>, n: nat, i: nat)
    requires IsRun(cs, ms) && i < n < |cs| && TrueUpTo(cs, ms, n)
    ensures |cs[n].events| == n && |cs[n].log| == n + 1 && LogInv(cs[n].log, cs[n].events)
    ensures Legal(cs[n].log[i], cs[n].events[i].act) && TrueAct(cs[n].log[i], cs[n].events[i].act)
  {
    RunBacks(cs, ms, i);
    WriteOf(cs, ms, n, i);
    TrueIsCalm(cs, ms, n);
    RunLog(cs, ms, n);
    var c, t := cs[i], cs[i].threads[ms[i].tid];
    assert ThreadInv(Now(c), t) && BackThread(Now(c), t) && !DivertsAt(cs, ms, i);
    OwnTrue(Now(c), t, i, ms[i].choice);
  }

  /** In every run, until a check strays from a linked target, whoever writes the backlink of a linked
      node writes the predecessor that was flagged at it; once it is unlinked it may be another, which
      still has a smaller key. */
  lemma BacklinkWrites(cs: seq<Config>, ms: seq<Move>, n: nat, i: nat)
    requires IsRun(cs, ms) && i < n < |cs| && TrueUpTo(cs, ms, n)
    requires i < |cs[n].events| && i < |cs[n].log| && cs[n].events[i].act.SetBacklink?
    ensures var a, h := cs[n].events[i].act, cs[n].log[i];
            && a.del in h && a.prev in h && h[a.prev].key < h[a.del].key
            && (Linked(h, a.del) ==> FlaggedAt(h, a.prev, a.del) && FlaggedBefore(cs[n].events, i, a.prev, a.del))
  {
    TrueWrite(cs, ms, n, i);
    var a := cs[n].events[i].act;
    if FlaggedAt(cs[n].log[i], a.prev, a.del) {
      var f := FlagPrecedes(cs[n].log, cs[n].events, i, a.del, a.prev);
      assert cs[n].events[f].act == Flag(a.prev, a.del);
    }
  }

  /** And whoever marks a node does so when its backlink is the predecessor that was flagged at it. */
  lemma MarkedFromBacklink(cs: seq<Config>, ms: seq<Move>, n: nat, i: nat)
    requires IsRun(cs, ms) && i < n < |cs| && TrueUpTo(cs, ms, n)
    requires i < |cs[n].events| && i < |cs[n].log| && cs[n].events[i].act.Mark?
    ensures var d, h := cs[n].events[i].act.del, cs[n].log[i];
            d in h && FlaggedAt(h, h[d].backlink, d) && FlaggedBefore(cs[n].events, i, h[d].backlink, d)
  {
    TrueWrite(cs, ms, n, i);
    var d := cs[n].events[i].act.del;
    var p := cs[n].log[i][d].backlink;
    var f := FlagPrecedes(cs[n].log, cs[n].events, i, d, p);
    assert cs[n].events[f].act == Flag(p, d);
  }

  // ---- Runs in which no check strays, harmful or not ----

  ghost predicate StraightUpTo(cs: seq<Config>, ms: seq<Move>, n: nat)
    requires n <= |cs| && n <= |ms|
  {
    forall i :: 0 <= i < n ==> ms[i].tid in cs[i].threads ==> !Strays(Now(cs[i]), cs[i].threads[ms[i].tid])
  }

  ghost predicate FlaggedBefore(events: seq<Event>, n: nat, p: Id, d: Id) {
    exists f: nat :: f < n && f < |events| && events[f].act == Flag(p, d)
  }

  /** Who writes `p` as the backlink of `d` does so after `p` was flagged at `d`. */
  ghost predicate WritesFlagged(events: seq<Event>, i: nat)
    requires i < |events|
  {
    events[i].act.SetBacklink? ==> FlaggedBefore(events, i, events[i].act.prev, events[i].act.del)
  }

  ghost predicate HelpsFlagged(events: seq<Event>, t: Thread) {
    t.pc.WriteBack? ==> FlaggedBefore(events, |events|, t.pc.prev, t.pc.del)
  }

  lemma OwnFlagged(log: seq<Heap>, events: seq<Event>, tid: nat, t: Thread, c: Choice)
    requires LogInv(log, events) && HeapInv(Latest(log)) && ThreadInv(Latest(log), t) && !Strays(Latest(log), t)
    ensures var (a, t') := StepThread(Latest(log), t, |log| - 1, c);
            HelpsFlagged(events + [Event(tid, a)], t')
  {
    var h := Latest(log);
    var (a, t') := StepThread(h, t, |log| - 1, c);
    var events' := events + [Event(tid, a)];
    if t'.pc.WriteBack? {
      var prev, del := t'.pc.prev, t'.pc.del;
      assert NodeInv(h, t.pc.prev);
      if t.pc.MarkResult? {
        assert NodeInv(h, t.pc.del);
      }
      if a.Flag? {
        assert events'[|events|].act == Flag(prev, del);
      } else {
        var f := FlagPrecedes(log, events, |log| - 1, del, prev);
        assert events'[f].act == Flag(prev, del);
      }
    }
  }

  lemma {:induction false} RunFlagged(cs: seq<Config>, ms: seq<Move>, n: nat)
    requires IsRun(cs, ms) && n < |cs| && StraightUpTo(cs, ms, n)
    ensures CalmUpTo(cs, ms, n)
    ensures forall i {:trigger WritesFlagged(cs[n].events, i)} :: 0 <= i < |cs[n].events| ==> WritesFlagged(cs[n].events, i)
    ensures forall i {:trigger cs[n].threads[i]} :: i in cs[n].threads ==> HelpsFlagged(cs[n].events, cs[n].threads[i])
  {
    if n > 0 {
      RunFlagged(cs, ms, n - 1);
      RunSoundUpTo(cs, ms, n - 1);
      assert Enabled(cs[n - 1], ms[n - 1]) && cs[n] == Step(cs[n - 1], ms[n - 1]);
      assert Sound(cs[n - 1]);
      StepFlagged(cs[n - 1], ms[n - 1]);
    }
  }

  lemma StepFlagged(c: Config, m: Move)
    requires Sound(c) && Enabled(c, m) && !Strays(Now(c), c.threads[m.tid])
    requires forall i {:trigger WritesFlagged(c.events, i)} :: 0 <= i < |c.events| ==> WritesFlagged(c.events, i)
    requires forall i {:trigger c.threads[i]} :: i in c.threads ==> HelpsFlagged(c.events, c.threads[i])
    ensures var c' := Step(c, m);
            && (forall i {:trigger WritesFlagged(c'.events, i)} :: 0 <= i < |c'.events| ==> WritesFlagged(c'.events, i))
            && (forall i {:trigger c'.threads[i]} :: i in c'.threads ==> HelpsFlagged(c'.events, c'.threads[i]))
  {
    var c' := Step(c, m);
    var t := c.threads[m.tid];
    OwnFlagged(c.log, c.events, m.tid, t, m.choice);
    forall i | 0 <= i < |c'.events|
      ensures WritesFlagged(c'.events, i)
    {
      if i < |c.events| {
        assert WritesFlagged(c.events, i);
      } else {
        assert HelpsFlagged(c.events, t);
      }
      if c'.events[i].act.SetBacklink? {
        var f: nat :| f < i && f < |c.events| && c.events[f].act == Flag(c'.events[i].act.prev, c'.events[i].act.del);
        assert c'.events[f] == c.events[f];
      }
    }
    forall i | i in c'.threads
      ensures HelpsFlagged(c'.events, c'.threads[i])
    {
      if i != m.tid && c.threads[i].pc.WriteBack? {
        var pc := c.threads[i].pc;
        assert HelpsFlagged(c.events, c.threads[i]);
        var f: nat :| f < |c.events| && c.events[f].act == Flag(pc.prev, pc.del);
        assert c'.events[f] == c.events[f];
      }
    }
  }

  /** In every run, until the check sees a flag at another node, all threads that ever help delete a
      node write the same predecessor as its backlink, even long after it was unlinked. */
  lemma SameBacklink(cs: seq<Config>, ms: seq<Move>, n: nat, i: nat, j: nat)
    requires IsRun(cs, ms) && n < |cs| && StraightUpTo(cs, ms, n)
    requires i < |cs[n].events| && j < |cs[n].events|
    requires cs[n].events[i].act.SetBacklink? && cs[n].events[j].act.SetBacklink?
    requires cs[n].events[i].act.del == cs[n].events[j].act.del
    ensures cs[n].events[i].act.prev == cs[n].events[j].act.prev
  {
    var es := cs[n].events;
    var d := es[i].act.del;
    RunFlagged(cs, ms, n);
    RunLog(cs, ms, n);
    assert WritesFlagged(es, i) && WritesFlagged(es, j);
    var f: nat :| f < |es| && es[f].act == Flag(es[i].act.prev, d);
    var g: nat :| g < |es| && es[g].act == Flag(es[j].act.prev, d);
    FlaggedOnce(cs[n].log, es, f, g, d);
  }
}
