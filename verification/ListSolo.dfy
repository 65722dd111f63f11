/** One thread of the machine run alone: it takes, access by access, the course of the methods that
    model the operations run alone, and leaves the same heap. */
module ListSolo {
  import opened ListHeap
  import opened ListThreads
  import opened ListSystem
  import opened ListHistory
  import opened ListHelping

  /** A thread alone with the heap. */
  datatype Solo = Solo(heap: Heap, thread: Thread, now: nat)

  function Next(s: Solo, c: Choice): Solo {
    var (a, t) := StepThread(s.heap, s.thread, s.now, c);
    Solo(Apply(s.heap, a), t, s.now + 1)
  }

  /** The environment may choose `c`, and the thread takes its step. */
  predicate SoloStep(p: seq<Solo>, c: Choice, i: int)
    requires 0 <= i < |p| - 1
  {
    Allowed(p[i].heap, c) && p[i + 1] == Next(p[i], c)
  }

  ghost predicate SoloPath(p: seq<Solo>, c: Choice) {
    |p| > 0 && forall i {:trigger SoloStep(p, c, i)} :: 0 <= i < |p| - 1 ==> SoloStep(p, c, i)
  }

  function End(p: seq<Solo>): Solo
    requires |p| > 0
  {
    p[|p| - 1]
  }

  /** Run alone, the thread gets from `s` to `s'`. */
  ghost predicate Leads(s: Solo, s': Solo, c: Choice) {
    exists p :: SoloPath(p, c) && p[0] == s && p[|p| - 1] == s'
  }

  lemma LeadsStep(s: Solo, s': Solo, c: Choice)
    requires Allowed(s.heap, c) && s' == Next(s, c)
    ensures Leads(s, s', c)
  {
    var p := [s, s'];
    assert SoloStep(p, c, 0);
    assert SoloPath(p, c);
  }

  lemma StepInPart(p: seq<Solo>, q: seq<Solo>, c: Choice, i: int, j: int)
    requires 0 <= i < |p| - 1 && 0 <= j < |q| - 1 && p[i] == q[j] && p[i + 1] == q[j + 1] && SoloStep(p, c, i)
    ensures SoloStep(q, c, j)
  {
  }

  lemma LeadsTrans(s: Solo, s': Solo, s'': Solo, c: Choice)
    requires Leads(s, s', c) && Leads(s', s'', c)
    ensures Leads(s, s'', c)
  {
    var p :| SoloPath(p, c) && p[0] == s && p[|p| - 1] == s';
    var q :| SoloPath(q, c) && q[0] == s' && q[|q| - 1] == s'';
    var r := p + q[1..];
    forall i | 0 <= i < |r| - 1
      ensures SoloStep(r, c, i)
    {
      if i < |p| - 1 {
        StepInPart(p, r, c, i, i);
      } else {
        StepInPart(q, r, c, i - (|p| - 1), i);
      }
    }
    assert SoloPath(r, c);
  }

  // ---- Helping ----

  lemma HelpStepNext(s: Solo, c: Choice)
    requires Helping(s.thread.pc) && Allowed(s.heap, c)
    ensures var (a, t) := HelpStep(s.heap, s.thread, c);
            Leads(s, Solo(Apply(s.heap, a), t, s.now + 1), c)
  {
    LeadsStep(s, Next(s, c), c);
  }

  /** The thread is at `pc` and the heap is `h`, with nothing else changed since `s` but the time. */
  ghost predicate Comes(s: Solo, h: Heap, t: Thread, c: Choice) {
    exists now: nat :: Leads(s, Solo(h, t, now), c)
  }

  lemma ComesStep(s: Solo, h: Heap, t: Thread, c: Choice)
    requires Comes(s, h, t, c) && Helping(t.pc) && Allowed(h, c)
    ensures var (a, t') := HelpStep(h, t, c);
            Comes(s, Apply(h, a), t', c)
  {
    var now: nat :| Leads(s, Solo(h, t, now), c);
    var (a, t') := HelpStep(h, t, c);
    HelpStepNext(Solo(h, t, now), c);
    LeadsTrans(s, Solo(h, t, now), Solo(Apply(h, a), t', now + 1), c);
  }

  lemma MarkTail(s: Solo, h: Heap, t: Thread, c: Choice, prev: Id, del: Id)
    requires Comes(s, h, t, c) && Allowed(h, c) && !c.spurious
    requires del in h && !h[del].succ.mark && !h[del].succ.flag && t.pc == ReadSucc(prev, del)
    ensures Comes(s, Apply(h, Mark(del, h[del].succ.node)), Goto(t, ReadMarked(prev, del)), c)
  {
    var h' := Apply(h, Mark(del, h[del].succ.node));
    ComesStep(s, h, t, c);
    ComesStep(s, h, Goto(t, CasMark(prev, del, h[del].succ.node)), c);
    ComesStep(s, h', Goto(t, MarkResult(prev, del)), c);
    SeesMark(s, h', Goto(t, MarkLoop(prev, del)), c, prev, del);
  }

  lemma UnlinkTail(s: Solo, h: Heap, t: Thread, c: Choice, prev: Id, del: Id)
    requires Comes(s, h, Goto(t, ReadMarked(prev, del)), c) && Allowed(h, c) && !c.spurious
    requires del in h && prev in h && h[del].succ.mark
    ensures Comes(s, if FlaggedAt(h, prev, del) then Apply(h, Unlink(prev, del, h[del].succ.node)) else h, Helped(t), c)
  {
    ComesStep(s, h, Goto(t, ReadMarked(prev, del)), c);
    var t' := Goto(t, CasUnlink(prev, del, h[del].succ.node));
    ComesStep(s, h, t', c);
    assert Helped(t') == Helped(t);
  }

  lemma WriteHead(s: Solo, h: Heap, t: Thread, c: Choice, prev: Id, del: Id)
    requires Comes(s, h, t, c) && Allowed(h, c) && t.pc == WriteBack(prev, del)
    ensures Comes(s, Apply(h, SetBacklink(del, prev)), Goto(t, IsMarked(prev, del)), c)
  {
    ComesStep(s, h, t, c);
  }

  lemma SeesMark(s: Solo, h: Heap, t: Thread, c: Choice, prev: Id, del: Id)
    requires Comes(s, h, t, c) && Allowed(h, c) && del in h
    requires t.pc == IsMarked(prev, del) || t.pc == MarkLoop(prev, del)
    ensures Comes(s, h, Goto(t, if h[del].succ.mark then ReadMarked(prev, del) else ReadSucc(prev, del)), c)
  {
    ComesStep(s, h, t, c);
  }

  /** Before it can mark `del` the thread turns to the node behind it, and suspends the deletion at hand. */
  lemma NestHead(s: Solo, h: Heap, t: Thread, c: Choice, prev: Id, del: Id)
    requires Comes(s, h, t, c) && Allowed(h, c)
    requires del in h && !h[del].succ.mark && h[del].succ.flag && t.pc == IsMarked(prev, del)
    ensures Comes(s, h, t.(pc := WriteBack(del, h[del].succ.node), stack := t.stack + [Frame(prev, del)]), c)
  {
    SeesMark(s, h, t, c, prev, del);
    ComesStep(s, h, Goto(t, ReadSucc(prev, del)), c);
    ComesStep(s, h, Goto(t, CasMark(prev, del, h[del].succ.node)), c);
    ComesStep(s, h, Goto(t, MarkResult(prev, del)), c);
  }

  /** When the nested help returns, the thread is back in the suspended frame. */
  lemma NestTail(t: Thread, prev: Id, del: Id, pc: Pc)
    ensures Helped(t.(pc := pc, stack := t.stack + [Frame(prev, del)])) == Goto(t, MarkLoop(prev, del))
  {
    var stack := t.stack + [Frame(prev, del)];
    assert stack[..|t.stack|] == t.stack;
  }

  /** `try_mark` run alone in the machine ends, and leaves what the method leaves. */
  lemma {:induction false} MarkRuns(s: Solo, h: Heap, t: Thread, c: Choice, prev: Id, del: Id)
    requires HeapInv(h) && Comes(s, h, t, c) && Allowed(h, c) && !c.spurious
    requires del in h && del != TAIL && !h[del].succ.mark && t.pc == IsMarked(prev, del)
    ensures Comes(s, MarkedHeap(h, del), Goto(t, ReadMarked(prev, del)), c)
    decreases Beyond(h, h[del].key), 0
  {
    if !h[del].succ.flag {
      SeesMark(s, h, t, c, prev, del);
      MarkTail(s, h, Goto(t, ReadSucc(prev, del)), c, prev, del);
    } else {
      var n := h[del].succ.node;
      assert NodeInv(h, del);
      assert n in Beyond(h, h[del].key) && n !in Beyond(h, h[n].key);
      NestHead(s, h, t, c, prev, del);
      HelpRuns(s, h, t.(pc := WriteBack(del, n), stack := t.stack + [Frame(prev, del)]), c, del, n);
      NestTail(t, prev, del, WriteBack(del, n));
      HelpedFacts(h, del, n);
      SeesMark(s, HelpedHeap(h, del, n), Goto(t, MarkLoop(prev, del)), c, prev, del);
      MarkTail(s, HelpedHeap(h, del, n), Goto(t, ReadSucc(prev, del)), c, prev, del);
    }
  }

  /** `help_flagged` run alone in the machine ends at any depth, and leaves what the method leaves. */
  lemma {:induction false} HelpRuns(s: Solo, h: Heap, t: Thread, c: Choice, prev: Id, del: Id)
    requires HeapInv(h) && Comes(s, h, t, c) && Allowed(h, c) && !c.spurious
    requires FlaggedAt(h, prev, del) && t.pc == WriteBack(prev, del)
    ensures Comes(s, HelpedHeap(h, prev, del), Helped(t), c)
    decreases Beyond(h, h[del].key), 1
  {
    assert NodeInv(h, prev) && NodeInv(h, del);
    SameBeyondAfter(h, SetBacklink(del, prev), h[del].key);
    ActHelps(h, SetBacklink(del, prev));
    var h1, t1 := Apply(h, SetBacklink(del, prev)), Goto(t, IsMarked(prev, del));
    WriteHead(s, h, t, c, prev, del);
    if h[del].succ.mark {
      SeesMark(s, h1, t1, c, prev, del);
      UnlinkTail(s, h1, t, c, prev, del);
    } else {
      MarkRuns(s, h1, t1, c, prev, del);
      MarkedFacts(h1, prev, del);
      UnlinkTail(s, MarkedHeap(h1, del), t, c, prev, del);
    }
  }

  // ---- Part of a run ----

  function Part(c: Config, tid: nat): Solo
    requires tid in c.threads && |c.log| > 0
  {
    Solo(Now(c), c.threads[tid], |c.log| - 1)
  }

  function ActOf(s: Solo, c: Choice): Act {
    StepThread(s.heap, s.thread, s.now, c).0
  }

  lemma RunGrows(cs: seq<Config>, ms: seq<Move>, m: Move)
    requires IsRun(cs, ms) && Enabled(cs[|ms|], m)
    ensures IsRun(cs + [Step(cs[|ms|], m)], ms + [m])
  {
    var cs', ms' := cs + [Step(cs[|ms|], m)], ms + [m];
    forall i | 0 <= i < |ms'|
      ensures Enabled(cs'[i], ms'[i]) && cs'[i + 1] == Step(cs'[i], ms'[i])
    {
      if i < |ms| {
        assert Enabled(cs[i], ms[i]) && cs[i + 1] == Step(cs[i], ms[i]);
      }
    }
  }

  /** What follows when thread `tid` goes on alone, as far along the path as `k` steps. */
  ghost predicate Follows(c: Config, c': Config, tid: nat, p: seq<Solo>, ch: Choice, k: nat) {
    && k < |p| && tid in c.threads
    && |c'.log| == |c.log| + k && |c'.log| > 0 && Now(c') == p[k].heap
    && c'.threads == c.threads[tid := p[k].thread]
    && |c'.events| == |c.events| + k && c.events <= c'.events
    && forall i :: 0 <= i < k ==> c'.events[|c.events| + i] == Event(tid, ActOf(p[i], ch))
  }

  lemma FollowsOn(c: Config, c': Config, tid: nat, p: seq<Solo>, ch: Choice, k: nat)
    requires |c.log| > 0 && tid in c.threads && SoloPath(p, ch) && p[0] == Part(c, tid)
    requires Follows(c, c', tid, p, ch, k) && k + 1 < |p| && p[k].now == |c'.log| - 1
    ensures Enabled(c', Move(tid, ch)) && Follows(c, Step(c', Move(tid, ch)), tid, p, ch, k + 1)
    ensures p[k + 1].now == |c'.log|
  {
    assert SoloStep(p, ch, k);
    assert Part(c', tid) == p[k];
    var c'' := Step(c', Move(tid, ch));
    assert Part(c'', tid) == p[k + 1];
    assert c.threads[tid := p[k].thread][tid := p[k + 1].thread] == c.threads[tid := p[k + 1].thread];
  }

  /** A path of one thread alone continues any run it starts from. */
  lemma {:induction false} Continue(cs: seq<Config>, ms: seq<Move>, tid: nat, p: seq<Solo>, ch: Choice, k: nat)
      returns (cs': seq<Config>, ms': seq<Move>)
    requires IsRun(cs, ms) && |cs[|ms|].log| > 0 && tid in cs[|ms|].threads
    requires SoloPath(p, ch) && p[0] == Part(cs[|ms|], tid) && k < |p|
    ensures IsRun(cs', ms') && |ms'| == |ms| + k && cs <= cs' && ms <= ms'
    ensures forall i :: |ms| <= i < |ms'| ==> ms'[i].tid == tid
    ensures Follows(cs[|ms|], cs'[|ms'|], tid, p, ch, k) && p[k].now == |cs'[|ms'|].log| - 1
  {
    if k == 0 {
      cs', ms' := cs, ms;
      assert cs[|ms|].threads[tid := p[0].thread] == cs[|ms|].threads;
    } else {
      cs', ms' := Continue(cs, ms, tid, p, ch, k - 1);
      FollowsOn(cs[|ms|], cs'[|ms'|], tid, p, ch, k - 1);
      RunGrows(cs', ms', Move(tid, ch));
      cs', ms' := cs' + [Step(cs'[|ms'|], Move(tid, ch))], ms' + [Move(tid, ch)];
    }
  }
}
