/** Whole calls of the machine run alone: from any sound heap, whatever deletions other threads have
    left half done, each of them ends, and ends as the methods that model it do. */
module ListSoloCalls {
  import opened ListHeap
  import opened ListThreads
  import opened ListHistory
  import opened ListHelping
  import opened ListSolo
  import opened ListAlone

  // ---- Single steps ----

  lemma ComesTo(s: Solo, h: Heap, t: Thread, c: Choice) returns (now: nat)
    requires Comes(s, h, t, c) && Allowed(h, c)
    ensures var (a, t') := StepThread(h, t, now, c);
            Comes(s, Apply(h, a), t', c)
  {
    now :| Leads(s, Solo(h, t, now), c);
    var s' := Next(Solo(h, t, now), c);
    LeadsStep(Solo(h, t, now), s', c);
    LeadsTrans(s, Solo(h, t, now), s', c);
    assert s' == Solo(s'.heap, s'.thread, s'.now);
  }

  lemma ComesSearching(s: Solo, h: Heap, t: Thread, c: Choice)
    requires Comes(s, h, t, c) && Allowed(h, c) && Searching(t.pc)
    ensures var (a, t') := SearchStep(h, t, c);
            Comes(s, Apply(h, a), t', c)
  {
    var now := ComesTo(s, h, t, c);
  }

  lemma ComesInserting(s: Solo, h: Heap, t: Thread, c: Choice) returns (now: nat)
    requires Comes(s, h, t, c) && Allowed(h, c) && Inserting(t.pc)
    ensures var (a, t') := InsertStep(h, t, now, c);
            Comes(s, Apply(h, a), t', c)
  {
    now := ComesTo(s, h, t, c);
  }

  lemma ComesFlagging(s: Solo, h: Heap, t: Thread, c: Choice) returns (now: nat)
    requires Comes(s, h, t, c) && Allowed(h, c) && Flagging(t.pc)
    ensures var (a, t') := FlagStep(h, t, now, c);
            Comes(s, Apply(h, a), t', c)
  {
    now := ComesTo(s, h, t, c);
  }

  // ---- Searching ----

  /** A search about to leave `curr` for the marked `next` unlinks it instead. */
  lemma UnlinkInPassing(s: Solo, h: Heap, t: Thread, c: Choice, curr: Id, next: Id)
    requires Comes(s, h, Goto(t, NextMarked(curr, next)), c) && Allowed(h, c) && !c.spurious
    requires FlaggedAt(h, curr, next) && h[next].succ.mark && curr != next
    ensures var h' := Apply(h, Unlink(curr, next, h[next].succ.node));
            Comes(s, h', Goto(t, NextMarked(curr, h[next].succ.node)), c)
  {
    var beyond := h[next].succ.node;
    ComesSearching(s, h, Goto(t, NextMarked(curr, next)), c);
    ComesSearching(s, h, Goto(t, CurrMarked(curr, next)), c);
    ComesSearching(s, h, Goto(t, StillNext(curr, next)), c);
    ComesSearching(s, h, Goto(t, ReadNext(curr, next)), c);
    ComesSearching(s, h, Goto(t, CasNext(curr, next, beyond)), c);
    ComesSearching(s, Apply(h, Unlink(curr, next, beyond)), Goto(t, Reload(curr)), c);
  }

  lemma FoundAnywhere(h: Heap, t: Thread, pc: Pc, curr: Id, next: Id)
    ensures Found(h, Goto(t, pc), curr, next) == Found(h, t, curr, next)
  {
  }

  lemma StepOn(s: Solo, h: Heap, t: Thread, c: Choice, curr: Id, next: Id)
    requires Comes(s, h, Goto(t, NextMarked(curr, next)), c) && Allowed(h, c) && next in h && !h[next].succ.mark
    ensures if h[next].key <= t.skey then Comes(s, h, Goto(t, LoadNext(next)), c)
            else Comes(s, h, Found(h, t, curr, next), c)
  {
    ComesSearching(s, h, Goto(t, NextMarked(curr, next)), c);
    FoundAnywhere(h, t, NextMarked(curr, next), curr, next);
  }

  lemma LoadOn(s: Solo, h: Heap, t: Thread, c: Choice, curr: Id)
    requires Comes(s, h, Goto(t, LoadNext(curr)), c) && Allowed(h, c) && curr in h && h[curr].succ.node in h
    ensures var next := h[curr].succ.node;
            if h[next].key <= t.skey then Comes(s, h, Goto(t, NextMarked(curr, next)), c)
            else Comes(s, h, Found(h, t, curr, next), c)
  {
    ComesSearching(s, h, Goto(t, LoadNext(curr)), c);
    FoundAnywhere(h, t, LoadNext(curr), curr, h[curr].succ.node);
  }

  lemma SearchStands(h: Heap, key: int, curr: Id)
    requires HeapInv(h) && curr in h && h[curr].key <= key && h[curr].succ.node in h && key < h[h[curr].succ.node].key
    ensures SearchEnds(h, h, key, curr, h[curr].succ.node)
  {
    HelpsSelf(h);
  }

  lemma SearchEndsLater(h: Heap, h1: Heap, h': Heap, key: int, curr: Id, next: Id)
    requires Helps(h, h1) && KeySet(h1) == KeySet(h) && SearchEnds(h1, h', key, curr, next)
    ensures SearchEnds(h, h', key, curr, next)
  {
    HelpsTrans(h, h1, h');
  }

  /** `search_from` run alone in the machine, from its inner loop on. */
  lemma {:induction false} SearchRuns(s: Solo, h: Heap, t: Thread, c: Choice, curr: Id, next: Id)
      returns (h': Heap, curr': Id, next': Id)
    requires HeapInv(h) && Comes(s, h, Goto(t, NextMarked(curr, next)), c) && Allowed(h, c) && !c.spurious
    requires curr in h && curr != TAIL && !h[curr].succ.mark && h[curr].succ.node == next
    requires h[curr].key <= t.skey < KEY_MAX
    ensures Comes(s, h', Found(h', t, curr', next'), c) && Allowed(h', c)
    ensures SearchEnds(h, h', t.skey, curr', next') && !h'[curr'].succ.mark
    decreases Beyond(h, h[curr].key), Right(h, h[curr].key), 0
  {
    assert NodeInv(h, curr) && NodeInv(h, next) && NodeInv(h, TAIL);
    if h[next].succ.mark {
      UnlinkInPassing(s, h, t, c, curr, next);
      var h1 := Apply(h, Unlink(curr, next, h[next].succ.node));
      PassFacts(h, curr, next);
      h', curr', next' := SearchRuns(s, h1, t, c, curr, h[next].succ.node);
      SearchEndsLater(h, h1, h', t.skey, curr', next');
    } else {
      StepOn(s, h, t, c, curr, next);
      h', curr', next' := h, curr, next;
      if h[next].key <= t.skey {
        assert next in Beyond(h, h[curr].key) && next !in Beyond(h, h[next].key);
        LoadOn(s, h, t, c, next);
        h', curr', next' := SearchFromNode(s, h, t, c, next);
      } else {
        SearchStands(h, t.skey, curr);
      }
    }
  }

  lemma PassFacts(h: Heap, curr: Id, next: Id)
    requires HeapInv(h) && FlaggedAt(h, curr, next) && h[next].succ.mark
    ensures var h' := Apply(h, Unlink(curr, next, h[next].succ.node));
            && HeapInv(h') && Helps(h, h') && KeySet(h') == KeySet(h)
            && h'[curr].key == h[curr].key && Beyond(h', h[curr].key) == Beyond(h, h[curr].key)
            && Right(h', h[curr].key) < Right(h, h[curr].key)
  {
    var h' := Apply(h, Unlink(curr, next, h[next].succ.node));
    assert NodeInv(h, curr) && NodeInv(h, next);
    UnlinkFacts(h, curr, next);
    SameKeys(h, curr, next);
    SameBeyond(h, h', h[curr].key);
    RightShrinks(h, h', h[curr].key, h[curr].key);
    assert next in Right(h, h[curr].key) && next !in Right(h', h[curr].key);
  }

  lemma {:induction false} SearchFromNode(s: Solo, h: Heap, t: Thread, c: Choice, curr: Id)
      returns (h': Heap, curr': Id, next': Id)
    requires HeapInv(h) && Allowed(h, c) && !c.spurious && curr in h && curr != TAIL && !h[curr].succ.mark
    requires h[curr].key <= t.skey < KEY_MAX && h[curr].succ.node in h
    requires if h[h[curr].succ.node].key <= t.skey then Comes(s, h, Goto(t, NextMarked(curr, h[curr].succ.node)), c)
             else Comes(s, h, Found(h, t, curr, h[curr].succ.node), c)
    ensures Comes(s, h', Found(h', t, curr', next'), c) && Allowed(h', c)
    ensures SearchEnds(h, h', t.skey, curr', next') && !h'[curr'].succ.mark
    decreases Beyond(h, h[curr].key), Right(h, h[curr].key), 1
  {
    var next := h[curr].succ.node;
    if h[next].key <= t.skey {
      h', curr', next' := SearchRuns(s, h, t, c, curr, next);
    } else {
      SearchStands(h, t.skey, curr);
      h', curr', next' := h, curr, next;
    }
  }

  /** `search_from` run alone in the machine, from its first load on. */
  lemma WholeSearch(s: Solo, h: Heap, t: Thread, c: Choice, start: Id) returns (h': Heap, curr: Id, next: Id)
    requires HeapInv(h) && Comes(s, h, Goto(t, LoadNext(start)), c) && Allowed(h, c) && !c.spurious
    requires start in h && !h[start].succ.mark && h[start].key <= t.skey < KEY_MAX
    ensures Comes(s, h', Found(h', t, curr, next), c) && Allowed(h', c)
    ensures SearchEnds(h, h', t.skey, curr, next) && !h'[curr].succ.mark
  {
    assert NodeInv(h, start) && NodeInv(h, TAIL);
    LoadOn(s, h, t, c, start);
    h', curr, next := SearchFromNode(s, h, t, c, start);
  }

  lemma Starts(s: Solo, c: Choice)
    requires HeapInv(s.heap) && Resting(s.thread.pc) && Allowed(s.heap, c)
    ensures Comes(s, s.heap, Goto(Start(c.op, s.now), LoadNext(HEAD)), c)
  {
    LeadsStep(s, Next(s, c), c);
    assert Next(s, c) == Solo(s.heap, Goto(Start(c.op, s.now), LoadNext(HEAD)), s.now + 1);
  }

  // ---- The operations ----

  lemma FindRuns(s: Solo, c: Choice) returns (h': Heap, t': Thread)
    requires HeapInv(s.heap) && Resting(s.thread.pc) && Allowed(s.heap, c) && !c.spurious && c.op.Find?
    ensures Comes(s, h', t', c) && HeapInv(h') && Helps(s.heap, h') && KeySet(h') == KeySet(s.heap)
    ensures t'.pc == Done(c.op.key in KeySet(s.heap))
  {
    var t := Start(c.op, s.now);
    Starts(s, c);
    var curr: Id, next: Id;
    h', curr, next := WholeSearch(s, s.heap, t, c, HEAD);
    FoundAlone(h', curr, next, c.op.key);
    t' := Found(h', t, curr, next);
  }

  /** The check of `try_flag`, alone, sees one word three times. */
  lemma CheckRuns(s: Solo, h: Heap, t: Thread, c: Choice, prev: Id, del: Id)
    requires Comes(s, h, Goto(t, CheckNode(prev, del)), c) && Allowed(h, c)
    requires prev in h && h[prev].succ.node == del && !h[prev].succ.mark
    ensures Comes(s, h, Goto(t, CheckFlag(prev, del)), c)
  {
    var now := ComesFlagging(s, h, Goto(t, CheckNode(prev, del)), c);
    now := ComesFlagging(s, h, Goto(t, CheckMark(prev, del)), c);
  }

  lemma FlagRuns(s: Solo, h: Heap, t: Thread, c: Choice, prev: Id, del: Id) returns (t': Thread)
    requires HeapInv(h) && Comes(s, h, Goto(t, CheckFlag(prev, del)), c) && Allowed(h, c) && !c.spurious && t.stack == []
    requires prev in h && del in h && h[prev].succ.node == del && !h[prev].succ.mark
    ensures var won := !h[prev].succ.flag;
            Comes(s, if won then Apply(h, Flag(prev, del)) else h, t', c) && t'.pc == WriteBack(prev, del) && Helped(t').pc == Done(won)
  {
    var now := ComesFlagging(s, h, Goto(t, CheckFlag(prev, del)), c);
    if h[prev].succ.flag {
      t' := Help(t, prev, del, Finish(false));
    } else {
      now := ComesFlagging(s, h, Goto(t, CasFlag(prev, del)), c);
      t' := Help(t, prev, del, Finish(true)).(cas := now);
    }
  }

  lemma DeleteRuns(s: Solo, c: Choice) returns (h': Heap, t': Thread)
    requires HeapInv(s.heap) && Resting(s.thread.pc) && Allowed(s.heap, c) && !c.spurious && c.op.Delete?
    ensures Comes(s, h', t', c) && t'.pc.Done? && DeleteEnds(s.heap, h', c.op.key, t'.pc.ok)
  {
    var t, k := Start(c.op, s.now), c.op.key;
    Starts(s, c);
    var h, prev, del := WholeSearch(s, s.heap, t, c, HEAD);
    assert NodeInv(h, TAIL) && NodeInv(h, prev);
    LostWerePending(s.heap, h);
    if h[del].key != k {
      GapMeansAbsent(h, prev, del, k);
      h', t' := h, Found(h, t, prev, del);
    } else {
      CheckRuns(s, h, t, c, prev, del);
      var t1 := FlagRuns(s, h, t, c, prev, del);
      h' := FlaggedThenHelped(s, s.heap, h, t1, c, prev, del, k);
      t' := Helped(t1);
    }
  }

  lemma FlaggedThenHelped(s: Solo, h0: Heap, h: Heap, t: Thread, c: Choice, prev: Id, del: Id, k: int) returns (h': Heap)
    requires HeapInv(h0) && SearchEnds(h0, h, k - 1, prev, del) && !h[prev].succ.mark && h[del].key == k
    requires KEY_MIN < k < KEY_MAX && Allowed(h, c) && !c.spurious && t.pc == WriteBack(prev, del)
    requires Comes(s, if !h[prev].succ.flag then Apply(h, Flag(prev, del)) else h, t, c)
    ensures Comes(s, h', Helped(t), c) && DeleteEnds(h0, h', k, !h[prev].succ.flag)
  {
    var won := !h[prev].succ.flag;
    var h2 := if won then Apply(h, Flag(prev, del)) else h;
    assert NodeInv(h, prev) && NodeInv(h, del) && NodeInv(h, TAIL);
    if won {
      ActKeeps(h, Flag(prev, del));
    }
    HelpRuns(s, h2, t, c, prev, del);
    HelpedFacts(h2, prev, del);
    h' := HelpedHeap(h2, prev, del);
    HelpsSelf(h);
    DeleteEffect(h0, h, h, h2, h', prev, del, k, won, prev);
  }

  /** An insertion that has found its place: it links its node, after helping where it must. */
  lemma {:induction false} InsertRuns(s: Solo, h0: Heap, h: Heap, t: Thread, c: Choice, prev: Id, next: Id)
      returns (h': Heap, t': Thread)
    requires HeapInv(h) && Helps(h0, h) && Comes(s, h, Goto(t, ReadPrev(prev, next)), c) && Allowed(h, c) && !c.spurious
    requires t.goal == Place && t.skey == t.op.key && KEY_MIN < t.op.key < KEY_MAX
    requires prev in h && !h[prev].succ.mark && h[prev].succ.node == next && next in h
    requires h[prev].key < t.op.key < h[next].key && t.op.key !in KeySet(h)
    ensures Comes(s, h', t', c) && t'.pc == Done(true) && HeapInv(h')
    ensures t.op.key in KeySet(h') && KeySet(h') <= KeySet(h0) + {t.op.key}
    ensures forall k :: k in KeySet(h0) && k !in KeySet(h') ==> PendingKey(h0, k)
    decreases AllLinked(h)
  {
    assert NodeInv(h, prev) && NodeInv(h, next) && NodeInv(h, TAIL);
    var now := ComesInserting(s, h, Goto(t, ReadPrev(prev, next)), c);
    if h[prev].succ.flag {
      var h1: Heap, t1: Thread;
      h1, t1 := HelpAndReturn(s, h0, h, t, c, prev, next, now);
      var h2, prev', next' := WholeSearch(s, h1, t1, c, prev);
      HelpsTrans(h0, h1, h2);
      HelpsKeys(h, h1);
      FewerLinked(h, h1, next);
      NoMoreLinked(h1, h2);
      FoundAlone(h2, prev', next', t.op.key);
      FoundPlace(h2, t1, prev', next');
      h', t' := InsertRuns(s, h0, h2, t1, c, prev', next');
    } else {
      now := ComesInserting(s, h, Goto(t, CasInsert(prev, next)), c);
      var a := Insert(prev, next, c.unused, t.op.key);
      ActKeeps(h, a);
      ActRefinesSet(h, a);
      HelpsKeys(h0, h);
      LostWerePending(h0, h);
      h', t' := Apply(h, a), Goto(t, Done(true)).(cas := now);
    }
  }

  lemma FoundPlace(h: Heap, t: Thread, prev: Id, next: Id)
    requires t.goal == Place && prev in h && h[prev].key != t.op.key
    ensures Found(h, t, prev, next) == Goto(t, ReadPrev(prev, next))
  {
  }

  lemma HelpAndReturn(s: Solo, h0: Heap, h: Heap, t: Thread, c: Choice, prev: Id, next: Id, now: nat)
      returns (h': Heap, t': Thread)
    requires HeapInv(h) && Helps(h0, h) && FlaggedAt(h, prev, next) && Allowed(h, c) && !c.spurious
    requires Comes(s, h, Help(t, prev, next, Research(prev)).(base := now), c)
    ensures HeapInv(h') && Helps(h0, h') && Helps(h, h') && Allowed(h', c) && !Linked(h', next) && Linked(h, next)
    ensures h'[prev].key == h[prev].key && !h'[prev].succ.mark
    ensures Comes(s, h', Goto(t', LoadNext(prev)), c)
    ensures t'.goal == t.goal && t'.skey == t.skey && t'.op == t.op
  {
    assert NodeInv(h, prev);
    var t1 := Help(t, prev, next, Research(prev)).(base := now);
    HelpRuns(s, h, t1, c, prev, next);
    HelpedFacts(h, prev, next);
    h', t' := HelpedHeap(h, prev, next), t1;
    HelpsTrans(h0, h, h');
  }

  lemma InsertCallRuns(s: Solo, c: Choice) returns (h': Heap, t': Thread)
    requires HeapInv(s.heap) && Resting(s.thread.pc) && Allowed(s.heap, c) && !c.spurious && c.op.Insert_?
    ensures Comes(s, h', t', c) && t'.pc.Done? && InsertEnds(s.heap, h', c.op.key, t'.pc.ok)
  {
    var t, k := Start(c.op, s.now), c.op.key;
    Starts(s, c);
    var h, prev, next := WholeSearch(s, s.heap, t, c, HEAD);
    FoundAlone(h, prev, next, k);
    LostWerePending(s.heap, h);
    if h[prev].key == k {
      h', t' := h, Found(h, t, prev, next);
    } else {
      FoundPlace(h, t, prev, next);
      h', t' := InsertRuns(s, s.heap, h, t, c, prev, next);
    }
  }

  /** Solo completion: from any sound heap, with any number of deletions half done, a call that no
      other thread disturbs and no compare-and-swap fails spuriously ends, and its answer and the heap
      it leaves are those that the methods promise. */
  lemma CallCompletes(s: Solo, c: Choice) returns (h': Heap, t': Thread)
    requires HeapInv(s.heap) && Resting(s.thread.pc) && Allowed(s.heap, c) && !c.spurious
    ensures Comes(s, h', t', c) && t'.pc.Done? && HeapInv(h')
    ensures match c.op
            case Find(k) => KeySet(h') == KeySet(s.heap) && (t'.pc.ok <==> k in KeySet(s.heap))
            case Insert_(k) => InsertEnds(s.heap, h', k, t'.pc.ok)
            case Delete(k) => DeleteEnds(s.heap, h', k, t'.pc.ok)
  {
    match c.op
    case Find(k) => h', t' := FindRuns(s, c);
    case Insert_(k) => h', t' := InsertCallRuns(s, c);
    case Delete(k) => h', t' := DeleteRuns(s, c);
  }
}
