/** The three loads of the check in `try_flag` are not one snapshot. When its third load sees a flag
    that was set at another node, the list is lost exactly if the target is in it and unflagged. */
module ListMisfire {
  import opened ListHeap
  import opened ListThreads
  import opened ListSystem
  import opened ListHistory
  import opened ListHelping
  import opened ListSolo
  import opened ListCalls

  /** Had the three loads seen one and the same word, the check could not misfire. */
  lemma OneWordSuffices(h: Heap, h': Heap, h'': Heap, t: Thread, now: nat, c: Choice, c': Choice)
    requires HeapInv(h) && GoalInv(h, t) && FlagInv(h, t) && t.pc.CheckNode? && t.pc.prev in h' && t.pc.prev in h''
    requires h[t.pc.prev].succ == h'[t.pc.prev].succ == h''[t.pc.prev].succ
    ensures !Misfires(h'', FlagStep(h', FlagStep(h, t, now, c).1, now + 1, c').1)
  {
  }

  // ---- What the deleter does next ----

  lemma StrayHead(s: Solo, h: Heap, t: Thread, c: Choice)
    requires Comes(s, h, t, c) && Allowed(h, c) && Strays(h, t)
    ensures Comes(s, h, Help(t, t.pc.prev, t.pc.target, Finish(false)), c)
  {
    var now: nat :| Leads(s, Solo(h, t, now), c);
    var s1 := Solo(h, Help(t, t.pc.prev, t.pc.target, Finish(false)), now + 1);
    LeadsStep(Solo(h, t, now), s1, c);
    LeadsTrans(s, Solo(h, t, now), s1, c);
  }

  lemma SameLinks(h: Heap, d: Id, p: Id, n: Id)
    requires d in h && n in h
    ensures Linked(Apply(h, SetBacklink(d, p)), n) <==> Linked(h, n)
  {
    var h' := Apply(h, SetBacklink(d, p));
    assert forall q :: FlaggedAt(h', q, n) <==> FlaggedAt(h, q, n);
  }

  lemma BacklinkFree(h: Heap, d: Id, p: Id)
    requires HeapInv(h) && d in h && !h[d].succ.mark
    ensures HeapInv(Apply(h, SetBacklink(d, p)))
  {
    var h' := Apply(h, SetBacklink(d, p));
    forall n | n in h'
      ensures NodeInv(h', n)
    {
      assert NodeInv(h, n);
      SameLinks(h, d, p, n);
      if n != TAIL {
        SameLinks(h, d, p, h[n].succ.node);
      }
    }
    forall m, n | m in h' && n in h'
      ensures Gapless(h', m, n)
    {
      assert Gapless(h, m, n);
      SameLinks(h, d, p, m);
      SameLinks(h, d, p, n);
    }
  }

  /** What helping leaves in front of a node that is not marked yet: everything as it was. */
  lemma MarkedBehind(h: Heap, d: Id)
    requires HeapInv(h) && d in h && d != TAIL && !h[d].succ.mark
    ensures var h' := MarkedHeap(h, d);
            && h'.Keys == h.Keys && h'[d].key == h[d].key && h'[d].succ.mark && h'[d].backlink == h[d].backlink
            && (forall n :: n in h && n != d && h[n].key <= h[d].key ==> h'[n] == h[n])
            && (forall n :: n in h && n != d && h[n].succ.mark ==> h'[n].succ == h[n].succ)
            && (forall n :: n in h ==> h'[n].key == h[n].key)
            && (forall p :: FlaggedAt(h', p, d) ==> FlaggedAt(h, p, d))
            && KeySet(h') <= KeySet(h) && (forall k :: k in KeySet(h) && k !in KeySet(h') && k != h[d].key ==> PendingKey(h, k))
  {
    assert NodeInv(h, d);
    var h1 := h;
    HelpsSelf(h);
    if h[d].succ.flag {
      FlagHelpable(h, d);
      HelpedFacts(h, d, h[d].succ.node);
      h1 := HelpedHeap(h, d, h[d].succ.node);
    }
    forall n | n in h
      ensures n in h1 && h1[n].key == h[n].key && (h[n].succ.mark ==> h1[n].succ == h[n].succ)
    {
      assert HelpsNode(h, h1, n);
    }
    forall p | FlaggedAt(MarkedHeap(h, d), p, d)
      ensures FlaggedAt(h, p, d)
    {
      assert FlagEvolves(h, h1, d, p);
    }
    HelpsKeys(h, h1);
    LostWerePending(h, h1);
    MarkDrops(h1, d);
  }

  lemma MarkDrops(h: Heap, d: Id)
    requires d in h
    ensures var h' := Apply(h, Mark(d, h[d].succ.node));
            KeySet(h') <= KeySet(h) && forall k :: k in KeySet(h) && k !in KeySet(h') ==> k == h[d].key
  {
    var h' := Apply(h, Mark(d, h[d].succ.node));
    forall k
      ensures k in KeySet(h') ==> k in KeySet(h)
      ensures k in KeySet(h) && k !in KeySet(h') ==> k == h[d].key
    {
      KeySetIff(h, k);
      KeySetIff(h', k);
      if n :| Holds(h', n, k) {
        assert Holds(h, n, k);
      }
      if n :| Holds(h, n, k) {
        assert n != d ==> Holds(h', n, k);
      }
    }
  }

  /** The deleter that strayed runs on as if `prev` were flagged at the target, and answers -1. */
  lemma StrayRuns(s: Solo, h: Heap, t: Thread, c: Choice)
    requires HeapInv(h) && Comes(s, h, t, c) && Allowed(h, c) && !c.spurious && Strays(h, t)
    requires t.pc.prev in h && t.pc.target in h && h[t.pc.prev].key < h[t.pc.target].key && t.pc.target != TAIL
    ensures Comes(s, HelpedHeap(h, t.pc.prev, t.pc.target), Goto(Help(t, t.pc.prev, t.pc.target, Finish(false)), Done(false)), c)
  {
    var prev, d := t.pc.prev, t.pc.target;
    var t1 := Help(t, prev, d, Finish(false));
    var h1 := Apply(h, SetBacklink(d, prev));
    SameBeyondAfter(h, SetBacklink(d, prev), h[d].key);
    StrayHead(s, h, t, c);
    WriteHead(s, h, t1, c, prev, d);
    if h[d].succ.mark {
      SeesMark(s, h1, Goto(t1, IsMarked(prev, d)), c, prev, d);
      UnlinkTail(s, h1, t1, c, prev, d);
    } else {
      BacklinkFree(h, d, prev);
      MarkRuns(s, h1, Goto(t1, IsMarked(prev, d)), c, prev, d);
      MarkedBehind(h1, d);
      UnlinkTail(s, MarkedHeap(h1, d), t1, c, prev, d);
    }
  }

  // ---- What becomes of the list ----

  /** A linked node that some linked node points to. */
  lemma Predecessor(h: Heap, a: Id, n: Id) returns (p: Id)
    requires HeapInv(h) && a in h && n in h && Linked(h, a) && Linked(h, n) && h[a].key < h[n].key
    ensures p in h && Linked(h, p) && p != TAIL && h[p].succ.node == n && h[p].key < h[n].key
    decreases Beyond(h, h[a].key)
  {
    assert Gapless(h, a, n) && NodeInv(h, a) && NodeInv(h, n) && NodeInv(h, TAIL);
    p := a;
    var s := h[a].succ.node;
    if s != n {
      assert Gapless(h, s, n) && s in Beyond(h, h[a].key) && s !in Beyond(h, h[s].key);
      p := Predecessor(h, s, n);
    }
  }

  /** The heap after: the target marked, with a backlink to `prev`, all in front of it as it was. */
  lemma StrayHeap(h: Heap, prev: Id, d: Id)
    requires HeapInv(h) && prev in h && d in h && d != TAIL && h[prev].key < h[d].key && h[prev].succ.node != d
    ensures var h' := HelpedHeap(h, prev, d);
            && h'.Keys == h.Keys && h'[d].succ.mark && h'[d].backlink == prev
            && (forall n :: n in h ==> h'[n].key == h[n].key)
            && (forall n :: n in h && n != d && h[n].key <= h[d].key ==> h'[n] == h[n])
            && (forall p :: FlaggedAt(h', p, d) ==> FlaggedAt(h, p, d))
            && KeySet(h') <= KeySet(h) && (forall k :: k in KeySet(h) && k !in KeySet(h') && k != h[d].key ==> PendingKey(h, k))
            && h' == var h1 := Apply(h, SetBacklink(d, prev)); if h[d].succ.mark then h1 else MarkedHeap(h1, d)
  {
    var h1 := Apply(h, SetBacklink(d, prev));
    SameBeyondAfter(h, SetBacklink(d, prev), h[d].key);
    assert forall p :: FlaggedAt(h1, p, d) ==> FlaggedAt(h, p, d);
    SameKeySet(h, d, prev);
    if !h[d].succ.mark {
      BacklinkFree(h, d, prev);
      MarkedBehind(h1, d);
    }
  }

  lemma SameKeySet(h: Heap, d: Id, p: Id)
    requires d in h
    ensures var h' := Apply(h, SetBacklink(d, p));
            KeySet(h') == KeySet(h) && forall k :: PendingKey(h', k) ==> PendingKey(h, k)
  {
    var h' := Apply(h, SetBacklink(d, p));
    forall k
      ensures k in KeySet(h') <==> k in KeySet(h)
      ensures PendingKey(h', k) ==> PendingKey(h, k)
    {
      KeySetIff(h, k);
      KeySetIff(h', k);
      assert forall n :: Holds(h', n, k) <==> Holds(h, n, k);
      assert forall q, n :: FlaggedAt(h', q, n) ==> FlaggedAt(h, q, n);
    }
  }

  /** Marking a node that some predecessor is flagged at is sound, whatever its backlink. */
  lemma MarkedSound(h: Heap, d: Id)
    requires HeapInv(h) && d in h && !h[d].succ.mark && Flagged(h, d) && Backed(h, d)
    ensures HeapInv(MarkedHeap(h, d))
  {
    var p :| FlaggedAt(h, p, d);
    assert NodeInv(h, p) && NodeInv(h, d) && NodeInv(h, TAIL);
    var h1 := h;
    if h[d].succ.flag {
      FlagHelpable(h, d);
      HelpedFacts(h, d, h[d].succ.node);
      h1 := HelpedHeap(h, d, h[d].succ.node);
      assert HelpsNode(h, h1, h[d].backlink) && HelpsNode(h, h1, d);
    }
    assert FlaggedAt(h1, p, d);
    ActKeeps(h1, Mark(d, h1[d].succ.node));
  }

  /** The list keeps its invariant exactly if the deletion of the target had already been won. */
  lemma StrayBreaks(h: Heap, prev: Id, d: Id)
    requires HeapInv(h) && prev in h && d in h && d != TAIL && d != HEAD
    requires h[prev].key < h[d].key && h[prev].succ.node != d
    ensures HeapInv(HelpedHeap(h, prev, d)) <==> Leaving(h, d)
  {
    var h1 := Apply(h, SetBacklink(d, prev));
    StrayHeap(h, prev, d);
    if Leaving(h, d) {
      ActKeeps(h, SetBacklink(d, prev));
      FlaggedAfter(h, SetBacklink(d, prev), d);
      if !h[d].succ.mark {
        MarkedSound(h1, d);
      }
    } else {
      BreaksUnflagged(h, HelpedHeap(h, prev, d), d);
    }
  }

  lemma BreaksUnflagged(h: Heap, h': Heap, d: Id)
    requires HeapInv(h) && d in h && d != TAIL && d != HEAD && !Leaving(h, d)
    requires h'.Keys == h.Keys && h'[d].succ.mark && forall p :: FlaggedAt(h', p, d) ==> FlaggedAt(h, p, d)
    requires forall n :: n in h && n != d && h[n].key <= h[d].key ==> h'[n] == h[n]
    ensures !HeapInv(h')
  {
    assert NodeInv(h, d) && NodeInv(h, HEAD);
    var p := Predecessor(h, HEAD, d);
    assert NodeInv(h, p) && !Linked(h', d);
    if h[p].succ.mark {
      var q :| FlaggedAt(h, q, p);
      assert NodeInv(h, q);
      assert FlaggedAt(h', q, p);
    }
    assert Linked(h', p);
    assert !NodeInv(h', p);
  }

  /** An unmarked node is the only one to hold its key, which is pending exactly if it is flagged. */
  lemma OnlyTarget(h: Heap, d: Id)
    requires HeapInv(h) && d in h && d != TAIL && d != HEAD && !h[d].succ.mark
    ensures h[d].key in KeySet(h) && (PendingKey(h, h[d].key) <==> Flagged(h, d))
    ensures forall n :: Holds(h, n, h[d].key) ==> n == d
  {
    var k := h[d].key;
    assert Holds(h, d, k);
    KeySetIff(h, k);
    forall n | Holds(h, n, k)
      ensures n == d
    {
      UnmarkedKeysDistinct(h, n, d);
    }
  }

  /** A key that nobody was deleting is lost exactly if the deletion of the target had not been won. */
  lemma StrayKeys(h: Heap, prev: Id, d: Id)
    requires HeapInv(h) && prev in h && d in h && d != TAIL && d != HEAD
    requires h[prev].key < h[d].key && h[prev].succ.node != d
    ensures var h' := HelpedHeap(h, prev, d);
            && KeySet(h') <= KeySet(h)
            && (!h[d].succ.mark ==> h[d].key in KeySet(h) && h[d].key !in KeySet(h'))
            && ((forall k :: k in KeySet(h) && k !in KeySet(h') ==> PendingKey(h, k)) <==> Leaving(h, d))
  {
    StrayHeap(h, prev, d);
    if h[d].succ.mark {
      SameKeySet(h, d, prev);
    } else {
      OnlyTarget(h, d);
      TargetLost(h, HelpedHeap(h, prev, d), d);
    }
  }

  lemma TargetLost(h: Heap, h': Heap, d: Id)
    requires d in h && d != TAIL && d != HEAD && forall n :: Holds(h, n, h[d].key) ==> n == d
    requires d in h' && h'[d].succ.mark && KeySet(h') <= KeySet(h) && h'.Keys == h.Keys
    requires forall n :: n in h && n != d && h[n].key <= h[d].key ==> h'[n] == h[n]
    requires forall n :: n in h ==> h'[n].key == h[n].key
    ensures h[d].key !in KeySet(h')
  {
    var k := h[d].key;
    KeySetIff(h', k);
    forall n
      ensures !Holds(h', n, k)
    {
      assert n in h && n != d && h[n].key == k ==> h'[n] == h[n] && !Holds(h, n, k);
    }
  }

  /** From any sound heap a deleter whose third load strays, run alone, ends with the answer -1. If the
      deletion of its target had already been won it leaves a sound list, and takes no key that was not
      being deleted; otherwise it leaves a broken list, and has taken the key of its target. */
  lemma MisfireRuins(s: Solo, c: Choice) returns (end: Solo)
    requires HeapInv(s.heap) && ThreadInv(s.heap, s.thread) && Strays(s.heap, s.thread)
    requires Allowed(s.heap, c) && !c.spurious
    ensures Leads(s, end, c) && end.thread.pc == Done(false) && end.thread.born == s.thread.born
    ensures HeapInv(end.heap) <==> !Misfires(s.heap, s.thread)
    ensures (forall k :: k in KeySet(s.heap) && k !in KeySet(end.heap) ==> PendingKey(s.heap, k)) <==> !Misfires(s.heap, s.thread)
    ensures KeySet(end.heap) <= KeySet(s.heap)
    ensures s.thread.pc.target in end.heap && end.heap[s.thread.pc.target].succ.mark
    ensures Misfires(s.heap, s.thread) ==> s.thread.op.key in KeySet(s.heap) && s.thread.op.key !in KeySet(end.heap)
  {
    var h, t := s.heap, s.thread;
    var prev, d := t.pc.prev, t.pc.target;
    assert NodeInv(h, HEAD) && NodeInv(h, TAIL) && NodeInv(h, d);
    LeadsSelf(s, c);
    StrayRuns(s, h, t, c);
    StrayHeap(h, prev, d);
    StrayBreaks(h, prev, d);
    StrayKeys(h, prev, d);
    var t' := Goto(Help(t, prev, d, Finish(false)), Done(false));
    var now: nat :| Leads(s, Solo(HelpedHeap(h, prev, d), t', now), c);
    end := Solo(HelpedHeap(h, prev, d), t', now);
  }

  lemma LeadsSelf(s: Solo, c: Choice)
    ensures Comes(s, s.heap, s.thread, c)
  {
    assert SoloPath([s], c);
    assert Leads(s, Solo(s.heap, s.thread, s.now), c);
  }

  // ---- The condition is exact ----

  /** A thread alone never misfires once its loads agree: it makes all three on one word. */
  predicate LoadsAgree(h: Heap, t: Thread) {
    t.pc.CheckMark? || t.pc.CheckFlag? ==> At(h, t.pc.prev).succ.node == t.pc.target
  }

  lemma AgreeStep(h: Heap, t: Thread, now: nat, c: Choice)
    requires LoadsAgree(h, t) || t.pc.CheckFlag?
    ensures var (a, t') := StepThread(h, t, now, c);
            LoadsAgree(Apply(h, a), t')
  {
  }

  lemma {:induction false} AloneSafe(p: seq<Solo>, c: Choice, i: nat)
    requires SoloPath(p, c) && i < |p| && HeapInv(p[0].heap) && ThreadInv(p[0].heap, p[0].thread)
    requires !Misfires(p[0].heap, p[0].thread)
    requires LoadsAgree(p[0].heap, p[0].thread) || p[0].thread.pc.CheckFlag?
    ensures HeapInv(p[i].heap) && ThreadInv(p[i].heap, p[i].thread)
    ensures i > 0 ==> LoadsAgree(p[i].heap, p[i].thread)
  {
    if i > 0 {
      AloneSafe(p, c, i - 1);
      assert SoloStep(p, c, i - 1);
      SafeStep(p[i - 1], c);
    }
  }

  lemma SafeStep(s: Solo, c: Choice)
    requires HeapInv(s.heap) && ThreadInv(s.heap, s.thread) && !Misfires(s.heap, s.thread) && Allowed(s.heap, c)
    requires LoadsAgree(s.heap, s.thread) || s.thread.pc.CheckFlag?
    ensures HeapInv(Next(s, c).heap) && ThreadInv(Next(s, c).heap, Next(s, c).thread)
    ensures LoadsAgree(Next(s, c).heap, Next(s, c).thread)
  {
    OwnStep(s.heap, s.thread, s.now, c);
    ActKeeps(s.heap, ActOf(s, c));
    AgreeStep(s.heap, s.thread, s.now, c);
  }

  /** The thread, left to itself, can break the list. */
  ghost predicate Dooms(s: Solo) {
    exists s', c :: Leads(s, s', c) && !HeapInv(s'.heap)
  }

  lemma FreshNode(h: Heap) returns (n: Id)
    ensures n !in h && n != NULL
  {
    n := 0;
    var below: set<Id> := {};
    while n in h
      invariant n >= 0 && below <= h.Keys && forall m :: m in below ==> m < n
      decreases h.Keys - below
    {
      below := below + {n};
      n := n + 1;
    }
  }

  /** At its third load a deleter dooms a sound list exactly if the check misfires. */
  lemma MisfireDooms(s: Solo)
    requires HeapInv(s.heap) && ThreadInv(s.heap, s.thread) && s.thread.pc.CheckFlag?
    ensures Dooms(s) <==> Misfires(s.heap, s.thread)
  {
    if Misfires(s.heap, s.thread) {
      var n := FreshNode(s.heap);
      var c := Choice(Find(0), n, false);
      var end := MisfireRuins(s, c);
      assert Leads(s, end, c) && !HeapInv(end.heap);
    } else {
      forall s', c | Leads(s, s', c)
        ensures HeapInv(s'.heap)
      {
        var p :| SoloPath(p, c) && p[0] == s && p[|p| - 1] == s';
        AloneSafe(p, c, |p| - 1);
      }
    }
  }

  /** The `i`th step of the run is a third load that dooms the list. */
  ghost predicate DoomedAt(cs: seq<Config>, ms: seq<Move>, i: nat)
    requires i < |cs| && i < |ms|
  {
    && |cs[i].log| > 0 && ms[i].tid in cs[i].threads && cs[i].threads[ms[i].tid].pc.CheckFlag?
    && Dooms(Part(cs[i], ms[i].tid))
  }

  ghost predicate UndoomedUpTo(cs: seq<Config>, ms: seq<Move>, n: nat)
    requires n <= |cs| && n <= |ms|
  {
    forall i :: 0 <= i < n ==> !DoomedAt(cs, ms, i)
  }

  lemma DoomedIff(cs: seq<Config>, ms: seq<Move>, i: nat)
    requires IsRun(cs, ms) && i < |ms| && CalmUpTo(cs, ms, i)
    ensures DoomedAt(cs, ms, i) <==> MisfiresAt(cs, ms, i)
  {
    RunSoundUpTo(cs, ms, i);
    var c, tid := cs[i], ms[i].tid;
    assert Enabled(c, ms[i]) && Sound(c) && ThreadInv(Now(c), c.threads[tid]);
    if c.threads[tid].pc.CheckFlag? {
      MisfireDooms(Part(c, tid));
    }
  }

  lemma {:induction false} RunUndoomed(cs: seq<Config>, ms: seq<Move>, n: nat)
    requires IsRun(cs, ms) && n <= |ms|
    ensures UndoomedUpTo(cs, ms, n) <==> CalmUpTo(cs, ms, n)
  {
    if n > 0 {
      RunUndoomed(cs, ms, n - 1);
      if CalmUpTo(cs, ms, n - 1) {
        DoomedIff(cs, ms, n - 1);
      }
    }
  }

  /** In every run: no third load dooms the list exactly when no check misfires, and then the list is
      sound at every moment. */
  lemma RunSafe(cs: seq<Config>, ms: seq<Move>)
    requires IsRun(cs, ms)
    ensures UndoomedUpTo(cs, ms, |ms|) <==> CalmUpTo(cs, ms, |ms|)
    ensures CalmUpTo(cs, ms, |ms|) ==> forall i {:trigger cs[i]} :: 0 <= i < |cs| ==> HeapInv(Now(cs[i]))
  {
    RunUndoomed(cs, ms, |ms|);
    RunSoundUpTo(cs, ms, |ms|);
    if CalmUpTo(cs, ms, |ms|) {
      forall i {:trigger cs[i]} | 0 <= i < |cs|
        ensures HeapInv(Now(cs[i]))
      {
        assert Sound(cs[i]);
      }
    }
  }

  /** Every run goes on from its first misfire, with no other thread moving, to an end at which the
      list is broken, the key of the target is gone, and the deleter has answered -1. */
  lemma MisfireRun(cs: seq<Config>, ms: seq<Move>, i: nat) returns (cs': seq<Config>, ms': seq<Move>)
    requires IsRun(cs, ms) && CalmUpTo(cs, ms, |ms|)
    requires i in cs[|ms|].threads && Misfires(Now(cs[|ms|]), cs[|ms|].threads[i])
    ensures IsRun(cs', ms') && cs <= cs' && ms <= ms' && forall j :: |ms| <= j < |ms'| ==> ms'[j].tid == i
    ensures var c, c' := cs[|ms|], cs'[|ms'|];
            && i in c'.threads && c'.threads[i].pc == Done(false) && c'.threads[i].born == c.threads[i].born
            && !HeapInv(Now(c')) && c.threads[i].op.key in KeySet(Now(c)) && c.threads[i].op.key !in KeySet(Now(c'))
            && c.threads[i].pc.target in Now(c') && Now(c')[c.threads[i].pc.target].succ.mark
  {
    var c := cs[|ms|];
    RunSoundUpTo(cs, ms, |ms|);
    assert Sound(c) && ThreadInv(Now(c), c.threads[i]);
    var p, ch := MisfirePath(Part(c, i));
    cs', ms' := Continue(cs, ms, i, p, ch, |p| - 1);
  }

  lemma MisfirePath(s: Solo) returns (p: seq<Solo>, c: Choice)
    requires HeapInv(s.heap) && ThreadInv(s.heap, s.thread) && Misfires(s.heap, s.thread)
    ensures SoloPath(p, c) && p[0] == s
    ensures !HeapInv(End(p).heap) && End(p).thread.pc == Done(false)
    ensures s.thread.op.key in KeySet(s.heap) && s.thread.op.key !in KeySet(End(p).heap)
    ensures End(p).thread.born == s.thread.born
    ensures s.thread.pc.target in End(p).heap && End(p).heap[s.thread.pc.target].succ.mark
  {
    var n := FreshNode(s.heap);
    c := Choice(Find(0), n, false);
    var end := MisfireRuins(s, c);
    p :| SoloPath(p, c) && p[0] == s && p[|p| - 1] == end;
  }

  // ---- A deletion that fails and yet removes ----

  lemma {:induction false} MarkFound(cs: seq<Config>, ms: seq<Move>, j: nat, n: nat, d: Id) returns (m: nat)
    requires IsRun(cs, ms) && j <= n < |cs| && d in Now(cs[j]) && !Now(cs[j])[d].succ.mark
    requires d in Now(cs[n]) && Now(cs[n])[d].succ.mark
    ensures j <= m < n && m < |cs[n].events| && MarksNode(cs[n].events[m], d)
    decreases n
  {
    RunCalls(cs, ms, n - 1);
    assert Enabled(cs[n - 1], ms[n - 1]) && cs[n] == Step(cs[n - 1], ms[n - 1]);
    NodeStays(cs, ms, j, n - 1, d);
    if Now(cs[n - 1])[d].succ.mark {
      m := MarkFound(cs, ms, j, n - 1, d);
    } else {
      StepMarks(cs[n - 1], ms[n - 1], d);
      m := n - 1;
    }
  }

  lemma StepMarks(c: Config, m: Move, d: Id)
    requires Enabled(c, m) && d in Now(c) && !Now(c)[d].succ.mark
    ensures d in Now(Step(c, m))
    ensures Now(Step(c, m))[d].succ.mark ==> MarksNode(Step(c, m).events[|c.events|], d)
  {
    OnlyMarksMark(Now(c), c.threads[m.tid], |c.log| - 1, m.choice, d);
  }

  lemma OnlyMarksMark(h: Heap, t: Thread, now: nat, c: Choice, d: Id)
    requires d in h && !h[d].succ.mark
    ensures var a := StepThread(h, t, now, c).0;
            d in Apply(h, a) && (Apply(h, a)[d].succ.mark ==> a.Mark? && a.del == d)
  {
  }

  lemma {:induction false} NodeStays(cs: seq<Config>, ms: seq<Move>, j: nat, n: nat, d: Id)
    requires IsRun(cs, ms) && j <= n < |cs| && d in Now(cs[j])
    ensures d in Now(cs[n]) && Now(cs[n])[d].key == Now(cs[j])[d].key
    ensures Now(cs[j])[d].succ.mark ==> Now(cs[n])[d].succ.mark
    decreases n
  {
    if j < n {
      NodeStays(cs, ms, j, n - 1, d);
      RunCalls(cs, ms, n - 1);
      assert Enabled(cs[n - 1], ms[n - 1]) && cs[n] == Step(cs[n - 1], ms[n - 1]);
      StepKeeps(cs[n - 1], ms[n - 1], d);
    }
  }

  /** Every step, misfire or not, keeps the key of a node, and its mark. */
  lemma StepKeeps(c: Config, m: Move, d: Id)
    requires Enabled(c, m) && d in Now(c)
    ensures d in Now(Step(c, m)) && Now(Step(c, m))[d].key == Now(c)[d].key
    ensures Now(c)[d].succ.mark ==> Now(Step(c, m))[d].succ.mark
  {
    ActKeepsNode(Now(c), c.threads[m.tid], |c.log| - 1, m.choice, d);
  }

  lemma ActKeepsNode(h: Heap, t: Thread, now: nat, c: Choice, d: Id)
    requires d in h && Allowed(h, c)
    ensures var h' := Apply(h, StepThread(h, t, now, c).0);
            d in h' && h'[d].key == h[d].key && (h[d].succ.mark ==> h'[d].succ.mark)
  {
  }

  /** What a misfire makes possible, and nothing else does: a deletion that answers failure although it
      marked, with its own hand, a node that no call ever flagged. */
  lemma FailureRemoves(cs: seq<Config>, ms: seq<Move>, i: nat) returns (cs': seq<Config>, ms': seq<Move>, m: nat)
    requires IsRun(cs, ms) && CalmUpTo(cs, ms, |ms|)
    requires i in cs[|ms|].threads && Misfires(Now(cs[|ms|]), cs[|ms|].threads[i])
    ensures IsRun(cs', ms') && cs <= cs' && ms <= ms'
    ensures var d, c' := cs[|ms|].threads[i].pc.target, cs'[|ms'|];
            && i in c'.threads && c'.threads[i].pc == Done(false) && c'.threads[i].born <= m < |c'.events|
            && MarksNode(c'.events[m], d) && c'.events[m].tid == i
            && forall g :: 0 <= g < |c'.events| ==> !FlagsNode(c'.events[g], d)
  {
    var c, d := cs[|ms|], cs[|ms|].threads[i].pc.target;
    cs', ms' := MisfireRun(cs, ms, i);
    var c' := cs'[|ms'|];
    m := MarkFound(cs', ms', |ms|, |ms'|, d);
    RunCalls(cs, ms, |ms|);
    RunCalls(cs', ms', |ms'|);
    EventsGrow(cs', ms', |ms|, |ms'|);
    assert CallInv(c.events, i, c.threads[i]) && CallInv(c'.events, i, c'.threads[i]);
    forall g | |ms| <= g < |ms'|
      ensures c'.events[g].tid == i
    {
      MoverOwns(cs', ms', g, |ms'|);
    }
    forall g | 0 <= g < |c'.events|
      ensures !FlagsNode(c'.events[g], d)
    {
      if g < |ms| {
        assert c'.events[g] == c.events[g];
        NeverFlagged(cs, ms, g, d);
      } else {
        assert !WinsBy(c'.events[g], i);
      }
    }
  }

  /** Nobody has flagged a node that is neither marked nor flagged. */
  lemma NeverFlagged(cs: seq<Config>, ms: seq<Move>, g: nat, d: Id)
    requires IsRun(cs, ms) && CalmUpTo(cs, ms, |ms|) && g < |ms| && !Leaving(Now(cs[|ms|]), d)
    ensures g < |cs[|ms|].events| && !FlagsNode(cs[|ms|].events[g], d)
  {
    RunLog(cs, ms, |ms|);
    var log, es := cs[|ms|].log, cs[|ms|].events;
    assert Legal(log[g], es[g].act) && log[g + 1] == Apply(log[g], es[g].act);
    if FlagsNode(es[g], d) {
      assert FlaggedAt(log[g + 1], es[g].act.prev, d);
      LeavingLater(log, es, g + 1, |ms|, d);
    }
  }

  lemma MoverOwns(cs: seq<Config>, ms: seq<Move>, g: nat, n: nat)
    requires IsRun(cs, ms) && g < n < |cs|
    ensures g < |cs[n].events| && cs[n].events[g].tid == ms[g].tid
  {
    RunCalls(cs, ms, g);
    RunCalls(cs, ms, n);
    EventsGrow(cs, ms, g + 1, n);
    assert Enabled(cs[g], ms[g]) && cs[g + 1] == Step(cs[g], ms[g]);
  }
}
