/** A thread suspended anywhere in a call, among the half-done work of others, and then left alone: it
    ends its call, and breaks the list only where the check of `try_flag` is about to misfire. */
module ListSoloResume {
  import opened ListHeap
  import opened ListThreads
  import opened ListSystem
  import opened ListHistory
  import opened ListHelping
  import opened ListSolo
  import opened ListAlone
  import opened ListSoloCalls
  import opened ListMisfire

  /** Alone since `s`, the thread has come to `t`, the heap is sound, and what the thread knows holds. */
  ghost predicate Reached(s: Solo, h: Heap, t: Thread, c: Choice) {
    Comes(s, h, t, c) && HeapInv(h) && ThreadInv(h, t) && Allowed(h, c)
  }

  ghost predicate Ended(s: Solo, h: Heap, t: Thread, c: Choice) {
    Comes(s, h, t, c) && HeapInv(h) && t.pc.Done?
  }

  lemma StepReached(s: Solo, h: Heap, t: Thread, c: Choice) returns (now: nat)
    requires Reached(s, h, t, c) && !Misfires(h, t)
    ensures var (a, t') := StepThread(h, t, now, c);
            && Comes(s, Apply(h, a), t', c) && HeapInv(Apply(h, a)) && ThreadInv(Apply(h, a), t')
            && (!a.Insert? ==> Reached(s, Apply(h, a), t', c))
  {
    now := ComesTo(s, h, t, c);
    OwnStep(h, t, now, c);
    ActKeeps(h, StepThread(h, t, now, c).0);
  }

  // ---- Searching ----

  /** The next node in hand is no longer the successor of the node the search stands on. */
  predicate Stale(h: Heap, pc: Pc) {
    HasNextPc(pc) && At(h, pc.curr).succ.node != pc.next
  }

  predicate HasNextPc(pc: Pc) {
    pc.NextMarked? || pc.CurrMarked? || pc.CurrLink? || pc.StillNext? || pc.ReadNext? || pc.CasNext?
  }

  /** How far a search is from its next progress; a compare-and-swap that cannot succeed is a detour. */
  function Rank(h: Heap, pc: Pc): nat {
    var base: nat :=
      match pc
      case LoadNext(_) => 9
      case Reload(_) => 8
      case NextMarked(_, _) => 7
      case CurrMarked(_, _) => 6
      case CurrLink(_, _) => 5
      case StillNext(_, _) => 4
      case ReadNext(_, _) => 3
      case CasNext(_, _, _) => 2
      case _ => 0;
    if Stale(h, pc) || ((pc.StillNext? || pc.ReadNext? || pc.CasNext?) && At(h, pc.curr).succ.mark) then base + 10 else base
  }

  /** A search step that does not end the search passes a node, unlinks one, or comes nearer to that. */
  ghost predicate Nearer(h: Heap, pc: Pc, h': Heap, pc': Pc)
    requires Searching(pc) && Searching(pc')
  {
    var k, k' := At(h, pc.curr).key, At(h', pc'.curr).key;
    || Beyond(h', k') < Beyond(h, k)
    || (Beyond(h', k') == Beyond(h, k) && Right(h', k') < Right(h, k))
    || (Beyond(h', k') == Beyond(h, k) && Right(h', k') == Right(h, k) && Rank(h', pc') < Rank(h, pc))
  }

  lemma PassesOn(h: Heap, t: Thread, curr: Id, next: Id)
    requires HeapInv(h) && GoalInv(h, t) && Pair(h, curr, next, t.skey) && Searching(t.pc) && t.pc.curr == curr
    ensures var t' := Advance(h, t, curr, next);
            Searching(t'.pc) ==> Nearer(h, t.pc, h, t'.pc)
  {
    if h[next].key <= t.skey {
      assert next in Beyond(h, h[curr].key) && next !in Beyond(h, h[next].key);
    }
  }

  lemma CasProgress(h: Heap, t: Thread, c: Choice)
    requires HeapInv(h) && SearchInv(h, t) && t.pc.CasNext? && !c.spurious
    ensures var (a, t') := SearchStep(h, t, c);
            Nearer(h, t.pc, Apply(h, a), t'.pc)
  {
    var curr, next := t.pc.curr, t.pc.next;
    assert NodeInv(h, curr);
    if FlaggedAt(h, curr, next) {
      PassFacts(h, curr, next);
    }
  }

  lemma SearchProgress(h: Heap, t: Thread, c: Choice)
    requires HeapInv(h) && GoalInv(h, t) && SearchInv(h, t) && Searching(t.pc) && !c.spurious
    ensures var (a, t') := SearchStep(h, t, c);
            Searching(t'.pc) ==> Nearer(h, t.pc, Apply(h, a), t'.pc)
  {
    assert NodeInv(h, t.pc.curr) && NodeInv(h, TAIL);
    if t.pc.CasNext? {
      CasProgress(h, t, c);
    } else if t.pc.NextMarked? || t.pc.CurrLink? {
      PassesOn(h, t, t.pc.curr, t.pc.next);
    }
  }

  /** A search resumed anywhere ends. */
  lemma {:induction false} SearchResumes(s: Solo, h: Heap, t: Thread, c: Choice) returns (h': Heap, t': Thread)
    requires Reached(s, h, t, c) && Searching(t.pc) && !c.spurious
    ensures Reached(s, h', t', c) && (t'.pc.Done? || (t'.goal == Place && t'.pc.ReadPrev?) || t'.pc.CheckNode?)
    decreases Beyond(h, At(h, t.pc.curr).key), Right(h, At(h, t.pc.curr).key), Rank(h, t.pc)
  {
    SearchStepInv(h, t, c);
    SearchProgress(h, t, c);
    ComesSearching(s, h, t, c);
    var (a, t1) := SearchStep(h, t, c);
    ActKeeps(h, a);
    SearchLeads(h, t, c);
    h', t' := Apply(h, a), t1;
    if Searching(t1.pc) {
      h', t' := SearchResumes(s, h', t', c);
    }
  }

  lemma SearchLeads(h: Heap, t: Thread, c: Choice)
    requires GoalInv(h, t) && Searching(t.pc)
    ensures var t' := SearchStep(h, t, c).1;
            Searching(t'.pc) || t'.pc.Done? || (t'.goal == Place && t'.pc.ReadPrev?) || t'.pc.CheckNode?
    ensures !SearchStep(h, t, c).0.Insert?
  {
  }

  // ---- Helping ----

  lemma EvolvesSelf(h: Heap)
    ensures Evolves(h, h)
  {
  }

  lemma EvolvesTrans(h: Heap, h': Heap, h'': Heap)
    requires Evolves(h, h') && Evolves(h', h'')
    ensures Evolves(h, h'')
  {
    forall n | n in h
      ensures NodeEvolves(h, h'', n)
    {
      assert NodeEvolves(h, h', n) && NodeEvolves(h', h'', n);
    }
    forall d, p
      ensures FlagEvolves(h, h'', d, p)
    {
      assert FlagEvolves(h, h', d, p) && FlagEvolves(h', h'', d, p);
    }
  }

  lemma HelpsEvolves(h: Heap, h': Heap)
    requires Helps(h, h')
    ensures Evolves(h, h')
  {
    forall n | n in h
      ensures NodeEvolves(h, h', n)
    {
      assert HelpsNode(h, h', n);
    }
  }

  /** The heap with `d` marked, by `try_mark` if it was not. */
  ghost function WithMark(h: Heap, d: Id): Heap
    requires d in h
  {
    if h[d].succ.mark then h else MarkedHeap(h, d)
  }

  lemma WithMarkSound(h: Heap, d: Id)
    requires HeapInv(h) && Leaving(h, d) && Backed(h, d)
    ensures var h' := WithMark(h, d);
            HeapInv(h') && Evolves(h, h') && h'.Keys == h.Keys && h'[d].succ.mark
  {
    EvolvesSelf(h);
    if !h[d].succ.mark {
      MarkedSound(h, d);
      var p :| FlaggedAt(h, p, d);
      assert NodeInv(h, p) && NodeInv(h, d) && NodeInv(h, TAIL);
      MarkedBehind(h, d);
      var h1 := h;
      if h[d].succ.flag {
        FlagHelpable(h, d);
        HelpedFacts(h, d, h[d].succ.node);
        h1 := HelpedHeap(h, d, h[d].succ.node);
        HelpsEvolves(h, h1);
        assert HelpsNode(h, h1, h[d].backlink) && HelpsNode(h, h1, d);
      }
      assert FlaggedAt(h1, p, d);
      ActEvolves(h1, Mark(d, h1[d].succ.node));
      EvolvesTrans(h, h1, MarkedHeap(h, d));
    }
  }

  /** From the result of a failed attempt to mark a flagged node: its own deletion behind it first. */
  lemma NestedMark(s: Solo, h: Heap, t: Thread, c: Choice, prev: Id, del: Id)
    requires HeapInv(h) && Comes(s, h, Goto(t, MarkResult(prev, del)), c) && Allowed(h, c) && !c.spurious
    requires del in h && del != TAIL && !h[del].succ.mark && h[del].succ.flag
    ensures Comes(s, MarkedHeap(h, del), Goto(t, ReadMarked(prev, del)), c)
  {
    var n := h[del].succ.node;
    assert NodeInv(h, del);
    assert n in Beyond(h, h[del].key) && n !in Beyond(h, h[n].key);
    ComesStep(s, h, Goto(t, MarkResult(prev, del)), c);
    HelpRuns(s, h, t.(pc := WriteBack(del, n), stack := t.stack + [Frame(prev, del)]), c, del, n);
    NestTail(t, prev, del, WriteBack(del, n));
    HelpedFacts(h, del, n);
    SeesMark(s, HelpedHeap(h, del, n), Goto(t, MarkLoop(prev, del)), c, prev, del);
    MarkTail(s, HelpedHeap(h, del, n), Goto(t, ReadSucc(prev, del)), c, prev, del);
  }

  lemma FromReadSucc(s: Solo, h: Heap, t: Thread, c: Choice, prev: Id, del: Id)
    requires HeapInv(h) && Comes(s, h, Goto(t, ReadSucc(prev, del)), c) && Allowed(h, c) && !c.spurious
    requires del in h && del != TAIL
    ensures Comes(s, WithMark(h, del), Goto(t, ReadMarked(prev, del)), c)
  {
    if h[del].succ.mark || h[del].succ.flag {
      ComesStep(s, h, Goto(t, ReadSucc(prev, del)), c);
      ComesStep(s, h, Goto(t, CasMark(prev, del, h[del].succ.node)), c);
      if h[del].succ.mark {
        ComesStep(s, h, Goto(t, MarkResult(prev, del)), c);
        SeesMark(s, h, Goto(t, MarkLoop(prev, del)), c, prev, del);
      } else {
        NestedMark(s, h, t, c, prev, del);
      }
    } else {
      MarkTail(s, h, Goto(t, ReadSucc(prev, del)), c, prev, del);
    }
  }

  lemma FromLoop(s: Solo, h: Heap, t: Thread, c: Choice, prev: Id, del: Id)
    requires HeapInv(h) && Comes(s, h, t, c) && Allowed(h, c) && !c.spurious && del in h && del != TAIL
    requires t.pc == IsMarked(prev, del) || t.pc == MarkLoop(prev, del)
    ensures Comes(s, WithMark(h, del), Goto(t, ReadMarked(prev, del)), c)
  {
    SeesMark(s, h, t, c, prev, del);
    if !h[del].succ.mark {
      FromReadSucc(s, h, t, c, prev, del);
    }
  }

  lemma FromResult(s: Solo, h: Heap, t: Thread, c: Choice, prev: Id, del: Id)
    requires HeapInv(h) && Comes(s, h, Goto(t, MarkResult(prev, del)), c) && Allowed(h, c) && !c.spurious
    requires del in h && del != TAIL
    ensures Comes(s, WithMark(h, del), Goto(t, ReadMarked(prev, del)), c)
  {
    if !h[del].succ.mark && h[del].succ.flag {
      NestedMark(s, h, t, c, prev, del);
    } else {
      ComesStep(s, h, Goto(t, MarkResult(prev, del)), c);
      FromLoop(s, h, Goto(t, MarkLoop(prev, del)), c, prev, del);
    }
  }

  /** Wherever `try_mark` is resumed, it ends with the node marked. */
  lemma MarkResumes(s: Solo, h: Heap, t: Thread, c: Choice) returns (h': Heap)
    requires Reached(s, h, t, c) && !c.spurious
    requires t.pc.IsMarked? || t.pc.ReadSucc? || t.pc.CasMark? || t.pc.MarkResult? || t.pc.MarkLoop?
    ensures Comes(s, h', Goto(t, ReadMarked(t.pc.prev, t.pc.del)), c) && Allowed(h', c)
    ensures HeapInv(h') && Evolves(h, h') && t.pc.del in h' && h'[t.pc.del].succ.mark
  {
    var prev, del := t.pc.prev, t.pc.del;
    HelpableBounds(h, del, prev);
    WithMarkSound(h, del);
    h' := WithMark(h, del);
    if t.pc.CasMark? {
      ComesStep(s, h, t, c);
      h' := CasThenMark(s, h, t, c);
    } else if t.pc.ReadSucc? {
      FromReadSucc(s, h, t, c, prev, del);
    } else if t.pc.MarkResult? {
      FromResult(s, h, t, c, prev, del);
    } else {
      FromLoop(s, h, t, c, prev, del);
    }
  }

  lemma CasThenMark(s: Solo, h: Heap, t: Thread, c: Choice) returns (h': Heap)
    requires Reached(s, h, t, c) && !c.spurious && t.pc.CasMark?
    requires Comes(s, Apply(h, HelpStep(h, t, c).0), Goto(t, MarkResult(t.pc.prev, t.pc.del)), c)
    ensures Comes(s, h', Goto(t, ReadMarked(t.pc.prev, t.pc.del)), c) && Allowed(h', c)
    ensures HeapInv(h') && Evolves(h, h') && t.pc.del in h' && h'[t.pc.del].succ.mark
  {
    var prev, del := t.pc.prev, t.pc.del;
    HelpStepLegal(h, t, c);
    var a := HelpStep(h, t, c).0;
    var h1 := Apply(h, a);
    ActKeeps(h, a);
    ActEvolves(h, a);
    assert FlagEvolves(h, h1, del, prev);
    HelpableBounds(h1, del, prev);
    FromResult(s, h1, t, c, prev, del);
    WithMarkSound(h1, del);
    h' := WithMark(h1, del);
    EvolvesTrans(h, h1, h');
  }

  /** `help_marked` at the end of a help: it unlinks if it still can. */
  lemma UnlinkResumes(s: Solo, h: Heap, t: Thread, c: Choice, prev: Id, del: Id) returns (h': Heap)
    requires HeapInv(h) && Comes(s, h, Goto(t, ReadMarked(prev, del)), c) && Allowed(h, c) && !c.spurious
    requires del in h && prev in h && h[del].succ.mark
    ensures Comes(s, h', Helped(t), c) && HeapInv(h') && Evolves(h, h') && Allowed(h', c)
  {
    UnlinkTail(s, h, t, c, prev, del);
    EvolvesSelf(h);
    h' := h;
    if FlaggedAt(h, prev, del) {
      assert NodeInv(h, del);
      var a := Unlink(prev, del, h[del].succ.node);
      ActKeeps(h, a);
      ActEvolves(h, a);
      h' := Apply(h, a);
    }
  }

  lemma CasUnlinkResumes(s: Solo, h: Heap, t: Thread, c: Choice) returns (h': Heap)
    requires Reached(s, h, t, c) && !c.spurious && t.pc.CasUnlink?
    ensures Comes(s, h', Helped(t), c) && HeapInv(h') && Evolves(h, h') && Allowed(h', c)
  {
    ComesStep(s, h, t, c);
    HelpStepLegal(h, t, c);
    var a := HelpStep(h, t, c).0;
    ActKeeps(h, a);
    ActEvolves(h, a);
    h' := Apply(h, a);
  }

  /** One help, resumed anywhere, ends and returns to its caller. */
  lemma HelpResumes(s: Solo, h: Heap, t: Thread, c: Choice) returns (h': Heap)
    requires Reached(s, h, t, c) && !c.spurious && Helping(t.pc)
    ensures Comes(s, h', Helped(t), c) && HeapInv(h') && Evolves(h, h') && Allowed(h', c)
    ensures t.pc.del in h' && h'[t.pc.del].succ.mark
  {
    var prev, del := t.pc.prev, t.pc.del;
    HelpableBounds(h, del, prev);
    var h1 := h;
    EvolvesSelf(h);
    if t.pc.CasUnlink? {
      h' := CasUnlinkResumes(s, h, t, c);
    } else {
      if t.pc.WriteBack? {
        h1 := WriteResumes(s, h, t, c);
      } else if !t.pc.ReadMarked? {
        h1 := MarkResumes(s, h, t, c);
      }
      assert NodeEvolves(h, h1, prev);
      h' := UnlinkResumes(s, h1, t, c, prev, del);
      EvolvesTrans(h, h1, h');
    }
    assert NodeEvolves(h1, h', del);
  }

  lemma WriteResumes(s: Solo, h: Heap, t: Thread, c: Choice) returns (h': Heap)
    requires Reached(s, h, t, c) && !c.spurious && t.pc.WriteBack?
    ensures Comes(s, h', Goto(t, ReadMarked(t.pc.prev, t.pc.del)), c) && Allowed(h', c)
    ensures HeapInv(h') && Evolves(h, h') && t.pc.del in h' && h'[t.pc.del].succ.mark
  {
    var prev, del := t.pc.prev, t.pc.del;
    var a := SetBacklink(del, prev);
    var h1 := Apply(h, a);
    HelpableBounds(h, del, prev);
    WriteHead(s, h, t, c, prev, del);
    ActKeeps(h, a);
    ActEvolves(h, a);
    assert FlagEvolves(h, h1, del, prev);
    FromLoop(s, h1, Goto(t, IsMarked(prev, del)), c, prev, del);
    WithMarkSound(h1, del);
    h' := WithMark(h1, del);
    EvolvesTrans(h, h1, h');
  }

  /** What the caller of a help knows when it is back. */
  lemma ReturnInv(h: Heap, t: Thread, h': Heap)
    requires ThreadInv(h, t) && Helping(t.pc) && HeapInv(h) && HeapInv(h') && Evolves(h, h')
    requires t.pc.del in h' && h'[t.pc.del].succ.mark
    ensures ThreadInv(h', Helped(t))
  {
    var prev, del := t.pc.prev, t.pc.del;
    var t1 := Goto(t, CasUnlink(prev, del, h'[del].succ.node));
    GoalInvEvolves(h, h', t);
    HelpInvEvolves(h, h', t);
    assert NodeInv(h', del);
    HelpedInv(h', t1);
    assert Helped(t1) == Helped(t);
  }

  /** All the helps a thread is nested in end, and the operation goes on. */
  lemma {:induction false} AllHelpsResume(s: Solo, h: Heap, t: Thread, c: Choice) returns (h': Heap, t': Thread)
    requires Reached(s, h, t, c) && !c.spurious && Helping(t.pc)
    ensures Reached(s, h', t', c) && t'.goal == t.goal
    ensures match t.after
            case Research(prev) => t'.pc == LoadNext(prev)
            case Unwind(prev) => t'.pc == Walk(prev)
            case Finish(won) => t'.pc == Done(won)
    decreases |t.stack|
  {
    h' := HelpResumes(s, h, t, c);
    ReturnInv(h, t, h');
    t' := Helped(t);
    if t.stack != [] {
      h', t' := AllHelpsResume(s, h', t', c);
    }
  }

  /** An outermost help that finds its flag in place leaves what `help_flagged` leaves. */
  lemma WholeHelp(s: Solo, h: Heap, t: Thread, c: Choice) returns (h': Heap)
    requires Reached(s, h, t, c) && !c.spurious && t.pc.WriteBack? && FlaggedAt(h, t.pc.prev, t.pc.del)
    ensures t.pc.prev in h && t.pc.del in h && h' == HelpedHeap(h, t.pc.prev, t.pc.del)
    ensures Reached(s, h', Helped(t), c) && Evolves(h, h')
  {
    var prev, del := t.pc.prev, t.pc.del;
    assert NodeInv(h, prev);
    HelpRuns(s, h, t, c, prev, del);
    HelpedFacts(h, prev, del);
    h' := HelpedHeap(h, prev, del);
    HelpsEvolves(h, h');
    ReturnInv(h, t, h');
  }

  // ---- Leaving marked nodes ----

  /** The loops at 1012 and 1065 go back along the backlinks, to the first node that is not marked. */
  lemma {:induction false} WalkResumes(s: Solo, h: Heap, t: Thread, c: Choice) returns (t': Thread)
    requires Reached(s, h, t, c) && (t.pc.Walk? || t.pc.Back?)
    ensures t.pc.prev in h && t'.pc == LoadNext(Unwound(h, t.pc.prev))
    ensures Reached(s, h, t', c) && t'.goal == t.goal && t'.stack == t.stack
    decreases h[t.pc.prev].key - KEY_MIN, t.pc.Walk?
  {
    var now := ComesInserting(s, h, t, c);
    InsertStepInv(h, t, now, c);
    assert NodeInv(h, t.pc.prev);
    t' := InsertStep(h, t, now, c).1;
    if t.pc.Back? {
      assert NodeInv(h, h[t.pc.prev].backlink);
      t' := WalkResumes(s, h, t', c);
    } else if h[t.pc.prev].succ.mark {
      t' := WalkResumes(s, h, t', c);
    }
  }

  // ---- The operations ----

  lemma PlaceEnds(s: Solo, h: Heap, t: Thread, c: Choice) returns (h': Heap, t': Thread)
    requires Reached(s, h, t, c) && !c.spurious && t.goal == Place && t.pc.LoadNext? && !h[t.pc.curr].succ.mark
    ensures Ended(s, h', t', c)
  {
    assert NodeInv(h, t.pc.curr) && NodeInv(h, TAIL);
    assert t == Goto(t, LoadNext(t.pc.curr));
    var h1, curr, next := WholeSearch(s, h, t, c, t.pc.curr);
    FoundAlone(h1, curr, next, t.op.key);
    if h1[curr].key == t.op.key {
      h', t' := h1, Found(h1, t, curr, next);
    } else {
      FoundPlace(h1, t, curr, next);
      HelpsSelf(h1);
      h', t' := InsertRuns(s, h1, h1, t, c, curr, next);
    }
  }

  lemma WonFlagEnds(s: Solo, h: Heap, t: Thread, c: Choice) returns (h': Heap, t': Thread)
    requires Reached(s, h, t, c) && !c.spurious && Helping(t.pc) && t.after.Finish?
    ensures Ended(s, h', t', c)
  {
    h', t' := AllHelpsResume(s, h, t, c);
  }

  /** The rest of `try_flag` once its compare-and-swap is at hand on a word that was just read. */
  lemma ConfirmEnds(s: Solo, h: Heap, t: Thread, c: Choice) returns (h': Heap, t': Thread)
    requires Reached(s, h, t, c) && !c.spurious && t.goal.Confirm? && t.pc.LoadNext? && !h[t.pc.curr].succ.mark
    ensures Ended(s, h', t', c)
  {
    var target := t.goal.target;
    assert NodeInv(h, t.pc.curr) && NodeInv(h, TAIL);
    assert t == Goto(t, LoadNext(t.pc.curr));
    var h1, curr, next := WholeSearch(s, h, t, c, t.pc.curr);
    t' := Found(h1, t, curr, next);
    h' := h1;
    if next == target {
      FreshCheckInv(h, h1, t, curr, target);
      var now := ComesFlagging(s, h1, t', c);
      now := ComesFlagging(s, h1, Goto(t, CheckMark(curr, target)), c);
      FreshCheckInv(h, h1, t, curr, target);
      h', t' := ThirdLoadEnds(s, h1, Goto(t, CheckFlag(curr, target)), c);
    }
  }

  lemma FreshCheckInv(h: Heap, h': Heap, t: Thread, curr: Id, target: Id)
    requires ThreadInv(h, t) && Searching(t.pc) && t.goal == Confirm(target) && HeapInv(h') && Helps(h, h')
    requires curr in h' && !h'[curr].succ.mark && h'[curr].key <= t.skey && target in h'
    ensures ThreadInv(h', Goto(t, CheckFlag(curr, target)))
  {
    assert HelpsNode(h, h', target);
  }

  /** The third load and all that follows it, when it does not misfire. */
  lemma ThirdLoadEnds(s: Solo, h: Heap, t: Thread, c: Choice) returns (h': Heap, t': Thread)
    requires Reached(s, h, t, c) && !c.spurious && t.pc.CheckFlag? && !Misfires(h, t)
    requires At(h, t.pc.prev).succ.flag || At(h, t.pc.prev).succ == Ref(t.pc.target, false, false)
    ensures Ended(s, h', t', c)
  {
    var now := StepReached(s, h, t, c);
    t' := FlagStep(h, t, now, c).1;
    if !h[t.pc.prev].succ.flag {
      h', t' := CasFlagEnds(s, h, t', c);
    } else {
      h', t' := WonFlagEnds(s, h, t', c);
    }
  }

  lemma CasFlagEnds(s: Solo, h: Heap, t: Thread, c: Choice) returns (h': Heap, t': Thread)
    requires Reached(s, h, t, c) && !c.spurious && t.pc.CasFlag?
    requires At(h, t.pc.prev).succ == Ref(t.pc.target, false, false)
    ensures Ended(s, h', t', c)
  {
    var now := StepReached(s, h, t, c);
    var (a, t1) := FlagStep(h, t, now, c);
    h', t' := WonFlagEnds(s, Apply(h, a), t1, c);
  }

  /** A flag that was lost: to a deletion of the same target, which is helped, or else the search goes on
      from the node that the backlinks lead to. */
  lemma LostFlag(s: Solo, h: Heap, t: Thread, c: Choice) returns (h': Heap, t': Thread)
    requires Reached(s, h, t, c) && !c.spurious && t.pc.FlagFailed?
    ensures Reached(s, h', t', c) && t.pc.prev in h && t.pc.target in h
    ensures if h[t.pc.prev].succ == Ref(t.pc.target, false, true)
            then h' == HelpedHeap(h, t.pc.prev, t.pc.target) && t'.pc == Done(false)
            else h' == h && t'.pc == LoadNext(Unwound(h, t.pc.prev)) && t'.goal == Confirm(t.pc.target)
  {
    var now := StepReached(s, h, t, c);
    h', t' := h, FlagStep(h, t, now, c).1;
    if t'.pc.Walk? {
      t' := WalkResumes(s, h, t', c);
    } else {
      h' := WholeHelp(s, h, t', c);
      t' := Helped(t');
    }
  }

  lemma FlagFailedEnds(s: Solo, h: Heap, t: Thread, c: Choice) returns (h': Heap, t': Thread)
    requires Reached(s, h, t, c) && !c.spurious && t.pc.FlagFailed?
    ensures Ended(s, h', t', c)
  {
    h', t' := LostFlag(s, h, t, c);
    if t'.pc.LoadNext? {
      h', t' := ConfirmEnds(s, h', t', c);
    }
  }

  lemma CasFlagResumes(s: Solo, h: Heap, t: Thread, c: Choice) returns (h': Heap, t': Thread)
    requires Reached(s, h, t, c) && !c.spurious && t.pc.CasFlag?
    ensures Ended(s, h', t', c)
  {
    if At(h, t.pc.prev).succ == Ref(t.pc.target, false, false) {
      h', t' := CasFlagEnds(s, h, t, c);
    } else {
      var now := StepReached(s, h, t, c);
      h', t' := FlagFailedEnds(s, h, FlagStep(h, t, now, c).1, c);
    }
  }

  /** Whether the check at hand is bound to misfire if the thread goes on alone. */
  ghost predicate WillMisfire(h: Heap, t: Thread) {
    (t.pc.CheckMark? || t.pc.CheckFlag?) && Misfires(h, Goto(t, CheckFlag(t.pc.prev, t.pc.target)))
  }

  lemma {:induction false} CheckResumes(s: Solo, h: Heap, t: Thread, c: Choice) returns (h': Heap, t': Thread)
    requires Reached(s, h, t, c) && !c.spurious && Flagging(t.pc) && !WillMisfire(h, t)
    ensures Ended(s, h', t', c)
    decreases if t.pc.CheckNode? then 3 else if t.pc.CheckMark? then 2 else if t.pc.CheckFlag? then 1 else 0
  {
    if t.pc.CasFlag? {
      h', t' := CasFlagResumes(s, h, t, c);
    } else if t.pc.FlagFailed? {
      h', t' := FlagFailedEnds(s, h, t, c);
    } else {
      var now := StepReached(s, h, t, c);
      var t1 := CheckGoes(h, t, now, c);
      if Flagging(t1.pc) {
        h', t' := CheckResumes(s, h, t1, c);
      } else {
        h', t' := WonFlagEnds(s, h, t1, c);
      }
    }
  }

  lemma CheckGoes(h: Heap, t: Thread, now: nat, c: Choice) returns (t': Thread)
    requires HeapInv(h) && FlagInv(h, t) && !WillMisfire(h, t) && (t.pc.CheckNode? || t.pc.CheckMark? || t.pc.CheckFlag?)
    ensures StepThread(h, t, now, c) == (Nop, t') && !WillMisfire(h, t')
    ensures t'.pc.CasFlag? || (t.pc.CheckNode? && t'.pc.CheckMark?) || (t.pc.CheckMark? && t'.pc.CheckFlag?)
            || (t.pc.CheckFlag? && Helping(t'.pc) && t'.after.Finish?)
  {
    t' := FlagStep(h, t, now, c).1;
  }

  /** An insertion whose compare-and-swap failed helps the deletion that flagged the word, if one did,
      and searches again from the node that the backlinks lead to. */
  lemma LostInsert(s: Solo, h: Heap, t: Thread, c: Choice) returns (h': Heap, t': Thread)
    requires Reached(s, h, t, c) && !c.spurious && t.goal == Place && t.pc.InsertFailed?
    ensures Reached(s, h', t', c) && t'.goal == Place && t.pc.prev in h && t.pc.prev in h'
    ensures var r := h[t.pc.prev].succ;
            if r.flag && !r.mark then r.node in h && h' == HelpedHeap(h, t.pc.prev, r.node) else h' == h
    ensures t'.pc == LoadNext(Unwound(h', t.pc.prev))
  {
    var now := StepReached(s, h, t, c);
    h', t' := h, InsertStep(h, t, now, c).1;
    if Helping(t'.pc) {
      FlagHelpable(h, t.pc.prev);
      h' := WholeHelp(s, h, t', c);
      assert NodeEvolves(h, h', t.pc.prev);
      t' := Helped(t');
    }
    t' := WalkResumes(s, h', t', c);
  }

  lemma InsertFailedEnds(s: Solo, h: Heap, t: Thread, c: Choice) returns (h': Heap, t': Thread)
    requires Reached(s, h, t, c) && !c.spurious && t.goal == Place && t.pc.InsertFailed?
    ensures Ended(s, h', t', c)
  {
    h', t' := LostInsert(s, h, t, c);
    h', t' := PlaceEnds(s, h', t', c);
  }

  lemma CasInsertResumes(s: Solo, h: Heap, t: Thread, c: Choice) returns (h': Heap, t': Thread)
    requires Reached(s, h, t, c) && !c.spurious && t.pc.CasInsert?
    ensures Ended(s, h', t', c)
  {
    var now := StepReached(s, h, t, c);
    var (a, t1) := InsertStep(h, t, now, c);
    h', t' := Apply(h, a), t1;
    if t1.pc.InsertFailed? {
      h', t' := InsertFailedEnds(s, h, t1, c);
    }
  }

  lemma ReadPrevResumes(s: Solo, h: Heap, t: Thread, c: Choice) returns (h': Heap, t': Thread)
    requires Reached(s, h, t, c) && !c.spurious && t.pc.ReadPrev?
    ensures Ended(s, h', t', c)
  {
    var now := StepReached(s, h, t, c);
    var t1 := InsertStep(h, t, now, c).1;
    if t1.pc.CasInsert? {
      h', t' := CasInsertResumes(s, h, t1, c);
    } else {
      FlagHelpable(h, t.pc.prev);
      h', t' := ResearchEnds(s, h, t1, c);
    }
  }

  lemma ResearchEnds(s: Solo, h: Heap, t: Thread, c: Choice) returns (h': Heap, t': Thread)
    requires Reached(s, h, t, c) && !c.spurious && t.goal == Place && t.stack == []
    requires t.pc.WriteBack? && t.after == Research(t.pc.prev) && FlaggedAt(h, t.pc.prev, t.pc.del)
    ensures Ended(s, h', t', c)
  {
    h' := WholeHelp(s, h, t, c);
    HelpedFacts(h, t.pc.prev, t.pc.del);
    h', t' := PlaceEnds(s, h', Helped(t), c);
  }

  lemma InsertResumes(s: Solo, h: Heap, t: Thread, c: Choice) returns (h': Heap, t': Thread)
    requires Reached(s, h, t, c) && !c.spurious && Inserting(t.pc)
    ensures Ended(s, h', t', c)
  {
    if t.pc.ReadPrev? {
      h', t' := ReadPrevResumes(s, h, t, c);
    } else if t.pc.CasInsert? {
      h', t' := CasInsertResumes(s, h, t, c);
    } else if t.pc.InsertFailed? {
      h', t' := InsertFailedEnds(s, h, t, c);
    } else {
      t' := WalkResumes(s, h, t, c);
      if t'.goal == Place {
        h', t' := PlaceEnds(s, h, t', c);
      } else {
        h', t' := ConfirmEnds(s, h, t', c);
      }
    }
  }

  lemma SearchThenEnds(s: Solo, h: Heap, t: Thread, c: Choice) returns (h': Heap, t': Thread)
    requires Reached(s, h, t, c) && !c.spurious && Searching(t.pc)
    ensures Ended(s, h', t', c)
  {
    h', t' := SearchResumes(s, h, t, c);
    if t'.pc.ReadPrev? {
      h', t' := ReadPrevResumes(s, h', t', c);
    } else if t'.pc.CheckNode? {
      h', t' := CheckResumes(s, h', t', c);
    }
  }

  /** A help resumed in an operation that goes on after it. */
  lemma HelpThenEnds(s: Solo, h: Heap, t: Thread, c: Choice) returns (h': Heap, t': Thread)
    requires Reached(s, h, t, c) && !c.spurious && Helping(t.pc)
    ensures Ended(s, h', t', c)
  {
    h', t' := AllHelpsResume(s, h, t, c);
    if Searching(t'.pc) {
      h', t' := SearchThenEnds(s, h', t', c);
    } else if Inserting(t'.pc) {
      h', t' := InsertResumes(s, h', t', c);
    }
  }

  lemma SoundEnds(s: Solo, c: Choice) returns (h': Heap, t': Thread)
    requires HeapInv(s.heap) && ThreadInv(s.heap, s.thread) && Allowed(s.heap, c) && !c.spurious
    requires !WillMisfire(s.heap, s.thread)
    ensures Ended(s, h', t', c)
  {
    var h, t := s.heap, s.thread;
    LeadsSelf(s, c);
    if Resting(t.pc) {
      h', t' := CallCompletes(s, c);
    } else if Searching(t.pc) {
      h', t' := SearchThenEnds(s, h, t, c);
    } else if Inserting(t.pc) {
      h', t' := InsertResumes(s, h, t, c);
    } else if Flagging(t.pc) {
      h', t' := CheckResumes(s, h, t, c);
    } else {
      h', t' := HelpThenEnds(s, h, t, c);
    }
  }

  /** The deleter bound to misfire ends too. */
  lemma MisfireEnds(s: Solo, c: Choice) returns (h': Heap, t': Thread)
    requires HeapInv(s.heap) && ThreadInv(s.heap, s.thread) && Allowed(s.heap, c) && !c.spurious
    requires WillMisfire(s.heap, s.thread)
    ensures Comes(s, h', t', c) && t'.pc == Done(false) && !HeapInv(h')
  {
    var h, t := s.heap, s.thread;
    LeadsSelf(s, c);
    var t1 := Goto(t, CheckFlag(t.pc.prev, t.pc.target));
    assert NodeInv(h, t.pc.prev);
    if t.pc.CheckMark? {
      var now := ComesFlagging(s, h, t, c);
    }
    assert NodeInv(h, HEAD) && NodeInv(h, TAIL) && NodeInv(h, t.pc.target);
    StrayRuns(s, h, t1, c);
    StrayBreaks(h, t.pc.prev, t.pc.target);
    h', t' := HelpedHeap(h, t.pc.prev, t.pc.target), Goto(Help(t1, t.pc.prev, t.pc.target, Finish(false)), Done(false));
  }

  /** Solo completion from anywhere: a thread of a sound list, suspended at any point of any operation
      and then left alone, ends its call; and it leaves the list sound if and only if it did not stand
      inside a check of `try_flag` that is bound to misfire. */
  lemma CallResumes(s: Solo, c: Choice) returns (h': Heap, t': Thread)
    requires HeapInv(s.heap) && ThreadInv(s.heap, s.thread) && Allowed(s.heap, c) && !c.spurious
    ensures Comes(s, h', t', c) && t'.pc.Done? && (HeapInv(h') <==> !WillMisfire(s.heap, s.thread))
  {
    if WillMisfire(s.heap, s.thread) {
      h', t' := MisfireEnds(s, c);
    } else {
      h', t' := SoundEnds(s, c);
    }
  }
}
