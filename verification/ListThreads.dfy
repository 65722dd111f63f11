/** One thread of the lock-free list as a machine over its atomic accesses: every program point below
    makes at most one load or compare-and-swap of shared memory. */
module ListThreads {
  import opened ListHeap

  datatype Op = Find(key: int) | Insert_(key: int) | Delete(key: int)

  /** What the caller of `search_from` does with the pair it returns. */
  datatype Goal =
    | Answer                // list_search, list_update
    | Place                 // list_insert
    | Pick                  // list_delete, before try_flag
    | Confirm(target: Id)   // the search inside try_flag

  /** What follows the outermost `help_flagged`. */
  datatype After =
    | Research(prev: Id)    // list_insert searches again from prev
    | Unwind(prev: Id)      // list_insert first leaves marked nodes
    | Finish(won: bool)     // list_delete returns

  /** A `try_mark` suspended in the `help_flagged` it called. */
  datatype Frame = Frame(prev: Id, del: Id)

  /** Program points, named by the access they are about to make; the source line is beside each. */
  datatype Pc =
    | Idle
    | LoadNext(curr: Id)                            // 849, 864
    | NextMarked(curr: Id, next: Id)                // 852
    | CurrMarked(curr: Id, next: Id)                // 853
    | CurrLink(curr: Id, next: Id)                  // 854
    | StillNext(curr: Id, next: Id)                 // 856
    | ReadNext(curr: Id, next: Id)                  // 833
    | CasNext(curr: Id, next: Id, beyond: Id)       // 831
    | Reload(curr: Id)                              // 859
    | ReadPrev(prev: Id, next: Id)                  // 994
    | CasInsert(prev: Id, next: Id)                 // 1001
    | InsertFailed(prev: Id)                        // 1008
    | Walk(prev: Id)                                // 1012, 1065
    | Back(prev: Id)                                // 1013, 1066
    | CheckNode(prev: Id, target: Id)               // 1042
    | CheckMark(prev: Id, target: Id)               // 1043
    | CheckFlag(prev: Id, target: Id)               // 1044
    | CasFlag(prev: Id, target: Id)                 // 1051
    | FlagFailed(prev: Id, target: Id)              // 1059
    | WriteBack(prev: Id, del: Id)                  // 958
    | IsMarked(prev: Id, del: Id)                   // 960
    | ReadSucc(prev: Id, del: Id)                   // 936
    | CasMark(prev: Id, del: Id, next: Id)          // 939
    | MarkResult(prev: Id, del: Id)                 // 943
    | MarkLoop(prev: Id, del: Id)                   // 947
    | ReadMarked(prev: Id, del: Id)                 // 833
    | CasUnlink(prev: Id, del: Id, beyond: Id)      // 831
    | Done(ok: bool)

  /** `born` and `base` are moments of the log: the call began at `born`, and at `base` the node the
      current search started from was seen unmarked. `cas` is the moment of the thread's own
      successful insertion or flagging. All three only record; no step reads them. */
  datatype Thread = Thread(op: Op, pc: Pc, goal: Goal, skey: int, stack: seq<Frame>, after: After,
                           born: nat, base: nat, cas: nat)

  /** What the environment decides: which operation an idle thread starts, which fresh node an
      insertion links, and whether a weak compare-and-swap fails spuriously. */
  datatype Choice = Choice(op: Op, unused: Id, spurious: bool)

  predicate Allowed(h: Heap, c: Choice) {
    KEY_MIN < c.op.key < KEY_MAX && c.unused !in h && c.unused != NULL
  }

  function Goto(t: Thread, pc: Pc): Thread {
    t.(pc := pc)
  }

  /** `search_from` returns (curr, next). */
  function Found(h: Heap, t: Thread, curr: Id, next: Id): Thread {
    match t.goal
    case Answer => Goto(t, Done(At(h, curr).key == t.op.key))
    case Place => Goto(t, if At(h, curr).key == t.op.key then Done(false) else ReadPrev(curr, next))
    case Pick => Goto(t, if At(h, next).key != t.op.key then Done(false) else CheckNode(curr, next))
    case Confirm(target) => Goto(t, if next != target then Done(false) else CheckNode(curr, target))
  }

  /** Lines 851 and 862: `next` has just been loaded from a node whose key is small enough. */
  function Loaded(h: Heap, t: Thread, curr: Id, next: Id): Thread {
    if At(h, next).key <= t.skey then Goto(t, NextMarked(curr, next)) else Found(h, t, curr, next)
  }

  /** The inner loop of `search_from` ends: step to `next` unless it already lies beyond the key. */
  function Advance(h: Heap, t: Thread, curr: Id, next: Id): Thread {
    if At(h, next).key <= t.skey then Goto(t, LoadNext(next)) else Found(h, t, curr, next)
  }

  function Help(t: Thread, prev: Id, del: Id, after: After): Thread {
    t.(pc := WriteBack(prev, del), stack := [], after := after)
  }

  /** `help_flagged` returns. */
  function Helped(t: Thread): Thread {
    if t.stack != [] then
      var top := t.stack[|t.stack| - 1];
      t.(pc := MarkLoop(top.prev, top.del), stack := t.stack[..|t.stack| - 1])
    else match t.after
      case Research(prev) => Goto(t, LoadNext(prev))
      case Unwind(prev) => Goto(t, Walk(prev))
      case Finish(won) => Goto(t, Done(won))
  }

  function Start(op: Op, now: nat): Thread {
    match op
    case Find(key) => Thread(op, LoadNext(HEAD), Answer, key, [], Finish(false), now, now, now)
    case Insert_(key) => Thread(op, LoadNext(HEAD), Place, key, [], Finish(false), now, now, now)
    case Delete(key) => Thread(op, LoadNext(HEAD), Pick, key - 1, [], Finish(false), now, now, now)
  }

  function SearchStep(h: Heap, t: Thread, c: Choice): (Act, Thread) {
    match t.pc
    case LoadNext(curr) => (Nop, Loaded(h, t, curr, At(h, curr).succ.node))
    case NextMarked(curr, next) =>
      (Nop, if At(h, next).succ.mark then Goto(t, CurrMarked(curr, next)) else Advance(h, t, curr, next))
    case CurrMarked(curr, next) =>
      (Nop, Goto(t, if At(h, curr).succ.mark then CurrLink(curr, next) else StillNext(curr, next)))
    case CurrLink(curr, next) =>
      (Nop, if At(h, curr).succ.node != next then Goto(t, StillNext(curr, next)) else Advance(h, t, curr, next))
    case StillNext(curr, next) =>
      (Nop, Goto(t, if At(h, curr).succ.node == next then ReadNext(curr, next) else Reload(curr)))
    case ReadNext(curr, next) => (Nop, Goto(t, CasNext(curr, next, At(h, next).succ.node)))
    case CasNext(curr, next, beyond) =>
      (if At(h, curr).succ == Ref(next, false, true) && !c.spurious then Unlink(curr, next, beyond) else Nop,
       Goto(t, Reload(curr)))
    case Reload(curr) => (Nop, Goto(t, NextMarked(curr, At(h, curr).succ.node)))
    case _ => (Nop, t)
  }

  function InsertStep(h: Heap, t: Thread, now: nat, c: Choice): (Act, Thread) {
    match t.pc
    case ReadPrev(prev, next) =>
      (Nop, if At(h, prev).succ.flag
            then Help(t, prev, At(h, prev).succ.node, Research(prev)).(base := now)
            else Goto(t, CasInsert(prev, next)))
    case CasInsert(prev, next) =>
      if At(h, prev).succ == Ref(next, false, false) && !c.spurious then
        (Insert(prev, next, c.unused, t.op.key), Goto(t, Done(true)).(cas := now))
      else (Nop, Goto(t, InsertFailed(prev)))
    case InsertFailed(prev) =>
      var r := At(h, prev).succ;
      (Nop, if !r.mark && r.flag then Help(t, prev, r.node, Unwind(prev)) else Goto(t, Walk(prev)))
    case Walk(prev) =>
      (Nop, if At(h, prev).succ.mark then Goto(t, Back(prev))
            else match t.goal
              case Confirm(target) => t.(pc := LoadNext(prev), base := now, skey := At(h, target).key - 1)
              case _ => t.(pc := LoadNext(prev), base := now, skey := t.op.key))
    case Back(prev) => (Nop, Goto(t, Walk(At(h, prev).backlink)))
    case _ => (Nop, t)
  }

  function FlagStep(h: Heap, t: Thread, now: nat, c: Choice): (Act, Thread) {
    match t.pc
    case CheckNode(prev, target) =>
      (Nop, Goto(t, if At(h, prev).succ.node == target then CheckMark(prev, target) else CasFlag(prev, target)))
    case CheckMark(prev, target) =>
      (Nop, Goto(t, if !At(h, prev).succ.mark then CheckFlag(prev, target) else CasFlag(prev, target)))
    case CheckFlag(prev, target) =>
      (Nop, if At(h, prev).succ.flag then Help(t, prev, target, Finish(false))
            else Goto(t, CasFlag(prev, target)))
    case CasFlag(prev, target) =>
      if At(h, prev).succ == Ref(target, false, false) && !c.spurious then
        (Flag(prev, target), Help(t, prev, target, Finish(true)).(cas := now))
      else (Nop, Goto(t, FlagFailed(prev, target)))
    case FlagFailed(prev, target) =>
      (Nop, if At(h, prev).succ == Ref(target, false, true) then Help(t, prev, target, Finish(false))
            else t.(pc := Walk(prev), goal := Confirm(target)))
    case _ => (Nop, t)
  }

  function HelpStep(h: Heap, t: Thread, c: Choice): (Act, Thread) {
    match t.pc
    case WriteBack(prev, del) => (SetBacklink(del, prev), Goto(t, IsMarked(prev, del)))
    case IsMarked(prev, del) =>
      (Nop, Goto(t, if At(h, del).succ.mark then ReadMarked(prev, del) else ReadSucc(prev, del)))
    case ReadSucc(prev, del) => (Nop, Goto(t, CasMark(prev, del, At(h, del).succ.node)))
    case CasMark(prev, del, next) =>
      (if At(h, del).succ == Ref(next, false, false) && !c.spurious then Mark(del, next) else Nop,
       Goto(t, MarkResult(prev, del)))
    case MarkResult(prev, del) =>
      var r := At(h, del).succ;
      (Nop, if !r.mark && r.flag
            then t.(pc := WriteBack(del, r.node), stack := t.stack + [Frame(prev, del)])
            else Goto(t, MarkLoop(prev, del)))
    case MarkLoop(prev, del) =>
      (Nop, Goto(t, if At(h, del).succ.mark then ReadMarked(prev, del) else ReadSucc(prev, del)))
    case ReadMarked(prev, del) => (Nop, Goto(t, CasUnlink(prev, del, At(h, del).succ.node)))
    case CasUnlink(prev, del, beyond) =>
      (if At(h, prev).succ == Ref(del, false, true) && !c.spurious then Unlink(prev, del, beyond) else Nop,
       Helped(t))
    case _ => (Nop, t)
  }

  predicate Searching(pc: Pc) {
    pc.LoadNext? || pc.NextMarked? || pc.CurrMarked? || pc.CurrLink? || pc.StillNext? || pc.ReadNext? ||
    pc.CasNext? || pc.Reload?
  }

  predicate Inserting(pc: Pc) {
    pc.ReadPrev? || pc.CasInsert? || pc.InsertFailed? || pc.Walk? || pc.Back?
  }

  predicate Flagging(pc: Pc) {
    pc.CheckNode? || pc.CheckMark? || pc.CheckFlag? || pc.CasFlag? || pc.FlagFailed?
  }

  predicate Resting(pc: Pc) {
    pc.Idle? || pc.Done?
  }

  /** One step of one thread: the write it makes to shared memory and its next local state. */
  function StepThread(h: Heap, t: Thread, now: nat, c: Choice): (Act, Thread) {
    if Resting(t.pc) then (Nop, Start(c.op, now))
    else if Searching(t.pc) then SearchStep(h, t, c)
    else if Inserting(t.pc) then InsertStep(h, t, now, c)
    else if Flagging(t.pc) then FlagStep(h, t, now, c)
    else HelpStep(h, t, c)
  }

  // ---- What a thread knows ----

  predicate GoalInv(h: Heap, t: Thread) {
    && KEY_MIN < t.op.key < KEY_MAX
    && match t.goal
       case Answer => t.op.Find? && t.skey == t.op.key
       case Place => t.op.Insert_? && t.skey == t.op.key
       case Pick => t.op.Delete? && t.skey == t.op.key - 1
       case Confirm(target) => t.op.Delete? && t.skey == t.op.key - 1 && target in h && h[target].key == t.op.key
  }

  /** `n` is a node that a search for `k` may start from or stand on. */
  predicate Before(h: Heap, n: Id, k: int) {
    n in h && h[n].key <= k
  }

  predicate Pair(h: Heap, curr: Id, next: Id, k: int) {
    Before(h, curr, k) && next in h && h[curr].key < h[next].key
  }

  predicate Stopped(h: Heap, n: Id) {
    n in h && h[n].succ.mark
  }

  predicate SearchInv(h: Heap, t: Thread) {
    match t.pc
    case LoadNext(curr) => Before(h, curr, t.skey)
    case NextMarked(curr, next) => Pair(h, curr, next, t.skey)
    case CurrMarked(curr, next) => Pair(h, curr, next, t.skey) && Stopped(h, next)
    case CurrLink(curr, next) => Pair(h, curr, next, t.skey) && Stopped(h, next) && Stopped(h, curr)
    case StillNext(curr, next) => Pair(h, curr, next, t.skey) && Stopped(h, next)
    case ReadNext(curr, next) => Pair(h, curr, next, t.skey) && Stopped(h, next)
    case CasNext(curr, next, beyond) =>
      Pair(h, curr, next, t.skey) && Stopped(h, next) && h[next].succ.node == beyond
    case Reload(curr) => Before(h, curr, t.skey)
    case _ => true
  }

  predicate InsertInv(h: Heap, t: Thread) {
    match t.pc
    case ReadPrev(prev, next) =>
      t.goal == Place && Before(h, prev, t.op.key - 1) && next in h && t.op.key < h[next].key
    case CasInsert(prev, next) =>
      t.goal == Place && Before(h, prev, t.op.key - 1) && next in h && t.op.key < h[next].key
    case InsertFailed(prev) => t.goal == Place && Before(h, prev, t.op.key - 1)
    case Walk(prev) => (t.goal == Place || t.goal.Confirm?) && Before(h, prev, t.op.key - 1)
    case Back(prev) => (t.goal == Place || t.goal.Confirm?) && Before(h, prev, t.op.key - 1) && Stopped(h, prev)
    case _ => true
  }

  predicate FlagInv(h: Heap, t: Thread) {
    Flagging(t.pc) ==>
      && (t.goal == Pick || t.goal == Confirm(t.pc.target))
      && Before(h, t.pc.prev, t.op.key - 1) && t.pc.target in h && h[t.pc.target].key == t.op.key
  }

  predicate AfterInv(h: Heap, t: Thread, outermost: Id) {
    match t.after
    case Research(prev) => t.goal == Place && Before(h, prev, t.op.key - 1)
    case Unwind(prev) => t.goal == Place && Before(h, prev, t.op.key - 1)
    case Finish(won) => t.op.Delete? && outermost in h && h[outermost].key == t.op.key
  }

  predicate Helping(pc: Pc) {
    pc.WriteBack? || pc.IsMarked? || pc.ReadSucc? || pc.CasMark? || pc.MarkResult? || pc.MarkLoop? ||
    pc.ReadMarked? || pc.CasUnlink?
  }

  ghost predicate HelpInv(h: Heap, t: Thread) {
    Helping(t.pc) ==>
      && (if t.pc.WriteBack? then Helpable(h, t.pc.del, t.pc.prev) else Claimed(h, t.pc.del, t.pc.prev))
      && (t.pc.ReadMarked? || t.pc.CasUnlink? ==> Stopped(h, t.pc.del))
      && (t.pc.CasUnlink? ==> h[t.pc.del].succ.node == t.pc.beyond)
      && (forall f :: f in t.stack ==> Claimed(h, f.del, f.prev))
      && AfterInv(h, t, if t.stack == [] then t.pc.del else t.stack[0].del)
  }

  ghost predicate ThreadInv(h: Heap, t: Thread) {
    !Resting(t.pc) ==> GoalInv(h, t) && SearchInv(h, t) && InsertInv(h, t) && FlagInv(h, t) && HelpInv(h, t)
  }

  /** The check at 1042-1044 makes three loads, and the third sees a flag in a word that by now names
      another node. */
  predicate Strays(h: Heap, t: Thread) {
    t.pc.CheckFlag? && At(h, t.pc.prev).succ.flag && At(h, t.pc.prev).succ.node != t.pc.target
  }

  /** That is a misfire when the target is in the list and nobody has flagged it. */
  ghost predicate Misfires(h: Heap, t: Thread) {
    Strays(h, t) && t.pc.target in h && !h[t.pc.target].succ.mark && !Flagged(h, t.pc.target)
  }

  // ---- Steps of other threads ----

  lemma ThreadInvEvolves(h: Heap, h': Heap, t: Thread)
    requires Evolves(h, h') && ThreadInv(h, t)
    ensures ThreadInv(h', t)
  {
    if !Resting(t.pc) {
      GoalInvEvolves(h, h', t);
      SearchInvEvolves(h, h', t);
      InsertFlagInvEvolves(h, h', t);
      HelpInvEvolves(h, h', t);
    }
  }

  lemma GoalInvEvolves(h: Heap, h': Heap, t: Thread)
    requires Evolves(h, h') && GoalInv(h, t)
    ensures GoalInv(h', t)
  {
    if t.goal.Confirm? {
      assert NodeEvolves(h, h', t.goal.target);
    }
  }

  lemma SearchInvEvolves(h: Heap, h': Heap, t: Thread)
    requires Evolves(h, h') && SearchInv(h, t)
    ensures SearchInv(h', t)
  {
    if Searching(t.pc) {
      assert NodeEvolves(h, h', t.pc.curr);
      if !t.pc.LoadNext? && !t.pc.Reload? {
        assert NodeEvolves(h, h', t.pc.next);
      }
    }
  }

  lemma InsertFlagInvEvolves(h: Heap, h': Heap, t: Thread)
    requires Evolves(h, h') && InsertInv(h, t) && FlagInv(h, t)
    ensures InsertInv(h', t) && FlagInv(h', t)
  {
    if Inserting(t.pc) {
      assert NodeEvolves(h, h', t.pc.prev);
      if t.pc.ReadPrev? || t.pc.CasInsert? {
        assert NodeEvolves(h, h', t.pc.next);
      }
    } else if Flagging(t.pc) {
      assert NodeEvolves(h, h', t.pc.prev) && NodeEvolves(h, h', t.pc.target);
    }
  }

  lemma HelpInvEvolves(h: Heap, h': Heap, t: Thread)
    requires Evolves(h, h') && HelpInv(h, t)
    ensures HelpInv(h', t)
  {
    if Helping(t.pc) {
      assert FlagEvolves(h, h', t.pc.del, t.pc.prev) && NodeEvolves(h, h', t.pc.del);
      forall f | f in t.stack
        ensures Claimed(h', f.del, f.prev)
      {
        assert FlagEvolves(h, h', f.del, f.prev);
      }
      var outermost := if t.stack == [] then t.pc.del else t.stack[0].del;
      assert t.stack != [] ==> Claimed(h, t.stack[0].del, t.stack[0].prev);
      assert NodeEvolves(h, h', outermost);
      if !t.after.Finish? {
        assert NodeEvolves(h, h', t.after.prev);
      }
    }
  }

  // ---- A thread's own steps ----

  lemma FoundInv(h: Heap, t: Thread, curr: Id, next: Id)
    requires HeapInv(h) && GoalInv(h, t) && Pair(h, curr, next, t.skey) && t.skey < h[next].key
    ensures ThreadInv(h, Found(h, t, curr, next))
  {
  }

  /** Wherever a search goes with a next node in hand, its knowledge holds there. */
  lemma AdvanceInv(h: Heap, t: Thread, curr: Id, next: Id)
    requires HeapInv(h) && GoalInv(h, t) && Pair(h, curr, next, t.skey)
    ensures ThreadInv(h, Advance(h, t, curr, next)) && ThreadInv(h, Loaded(h, t, curr, next))
  {
    if t.skey < h[next].key {
      FoundInv(h, t, curr, next);
    }
  }

  lemma SearchMoveInv(h: Heap, t: Thread, c: Choice)
    requires HeapInv(h) && GoalInv(h, t) && SearchInv(h, t)
    requires t.pc.LoadNext? || t.pc.NextMarked? || t.pc.CurrLink?
    ensures var (a, t') := SearchStep(h, t, c);
            a == Nop && ThreadInv(h, t')
  {
    var curr := t.pc.curr;
    assert NodeInv(h, curr) && NodeInv(h, TAIL);
    AdvanceInv(h, t, curr, if t.pc.LoadNext? then h[curr].succ.node else t.pc.next);
  }

  lemma SearchStepInv(h: Heap, t: Thread, c: Choice)
    requires HeapInv(h) && GoalInv(h, t) && SearchInv(h, t) && Searching(t.pc)
    ensures var (a, t') := SearchStep(h, t, c);
            Legal(h, a) && ThreadInv(h, t')
  {
    if t.pc.LoadNext? || t.pc.NextMarked? || t.pc.CurrLink? {
      SearchMoveInv(h, t, c);
    } else {
      assert NodeInv(h, t.pc.curr) && NodeInv(h, TAIL);
      if !t.pc.Reload? {
        assert NodeInv(h, t.pc.next);
      }
    }
  }

  lemma InsertStepInv(h: Heap, t: Thread, now: nat, c: Choice)
    requires HeapInv(h) && GoalInv(h, t) && InsertInv(h, t) && Inserting(t.pc) && Allowed(h, c)
    ensures var (a, t') := InsertStep(h, t, now, c);
            Legal(h, a) && (t'.pc.Done? || ThreadInv(h, t'))
  {
    assert NodeInv(h, t.pc.prev) && NodeInv(h, TAIL);
    if h[t.pc.prev].succ.flag {
      FlagHelpable(h, t.pc.prev);
    }
  }

  lemma ThirdLoadInv(h: Heap, t: Thread, now: nat, c: Choice)
    requires HeapInv(h) && GoalInv(h, t) && FlagInv(h, t) && t.pc.CheckFlag?
    ensures FlagStep(h, t, now, c).0 == Nop
    ensures ThreadInv(h, FlagStep(h, t, now, c).1) <==> !Misfires(h, t)
  {
    if h[t.pc.prev].succ.flag {
      FlagHelpable(h, t.pc.prev);
    }
  }

  /** The check of `try_flag` is right about its target exactly when it does not misfire. */
  lemma FlagStepInv(h: Heap, t: Thread, now: nat, c: Choice)
    requires HeapInv(h) && GoalInv(h, t) && FlagInv(h, t) && Flagging(t.pc)
    ensures var (a, t') := FlagStep(h, t, now, c);
            Legal(h, a) && (a == Nop ==> (ThreadInv(h, t') <==> !Misfires(h, t)))
  {
    if t.pc.CheckFlag? {
      ThirdLoadInv(h, t, now, c);
    } else if t.pc.FlagFailed? && h[t.pc.prev].succ.flag {
      FlagHelpable(h, t.pc.prev);
    } else {
      assert NodeInv(h, t.pc.prev) && NodeInv(h, t.pc.target) && NodeInv(h, TAIL);
    }
  }

  lemma FlagCasInv(h: Heap, t: Thread, now: nat, c: Choice)
    requires HeapInv(h) && GoalInv(h, t) && FlagInv(h, t) && Flagging(t.pc)
    requires FlagStep(h, t, now, c).0.Flag?
    ensures ThreadInv(Apply(h, FlagStep(h, t, now, c).0), FlagStep(h, t, now, c).1)
  {
    assert FlaggedAt(Apply(h, FlagStep(h, t, now, c).0), t.pc.prev, t.pc.target);
  }

  lemma HelpStepLegal(h: Heap, t: Thread, c: Choice)
    requires HeapInv(h) && HelpInv(h, t) && Helping(t.pc)
    ensures Legal(h, HelpStep(h, t, c).0)
  {
    assert NodeInv(h, t.pc.del);
    HelpableBounds(h, t.pc.del, t.pc.prev);
  }

  /** When `help_flagged` returns, its caller finds what it left. */
  lemma HelpedInv(h: Heap, t: Thread)
    requires HeapInv(h) && GoalInv(h, t) && HelpInv(h, t) && t.pc.CasUnlink?
    ensures ThreadInv(h, Helped(t))
  {
    if t.stack != [] {
      var top := t.stack[|t.stack| - 1];
      assert top in t.stack;
      var rest := t.stack[..|t.stack| - 1];
      assert forall f :: f in rest ==> f in t.stack;
      assert rest != [] ==> rest[0] == t.stack[0];
    }
  }

  lemma NestedHelpInv(h: Heap, t: Thread, prev: Id, del: Id)
    requires HeapInv(h) && GoalInv(h, t) && HelpInv(h, t) && t.pc == MarkResult(prev, del) && h[del].succ.flag
    ensures ThreadInv(h, t.(pc := WriteBack(del, h[del].succ.node), stack := t.stack + [Frame(prev, del)]))
  {
    HelpableBounds(h, del, prev);
    FlagHelpable(h, del);
    var stack := t.stack + [Frame(prev, del)];
    assert forall f :: f in stack ==> f in t.stack || f == Frame(prev, del);
    assert stack[0].del == if t.stack == [] then del else t.stack[0].del;
  }

  /** After a helping step the thread's knowledge holds of the heap it leaves. */
  lemma HelpStepInv(h: Heap, t: Thread, c: Choice)
    requires HeapInv(h) && GoalInv(h, t) && HelpInv(h, t) && Helping(t.pc)
    ensures var (a, t') := HelpStep(h, t, c);
            ThreadInv(Apply(h, a), t')
  {
    HelpStepLegal(h, t, c);
    var a := HelpStep(h, t, c).0;
    var h' := Apply(h, a);
    ActKeeps(h, a);
    ActEvolves(h, a);
    GoalInvEvolves(h, h', t);
    HelpInvEvolves(h, h', t);
    if t.pc.CasUnlink? {
      HelpedInv(h', t);
    } else if t.pc.MarkResult? && h[t.pc.del].succ.flag {
      NestedHelpInv(h, t, t.pc.prev, t.pc.del);
    } else if t.pc.WriteBack? || t.pc.CasMark? {
      HelpWriteInv(h, t, c);
    } else {
      HelpReadInv(h, t, c);
    }
  }

  lemma HelpWriteInv(h: Heap, t: Thread, c: Choice)
    requires HeapInv(h) && HelpInv(h, t) && (t.pc.WriteBack? || t.pc.CasMark?)
    requires var h' := Apply(h, HelpStep(h, t, c).0);
             GoalInv(h', t) && HelpInv(h', t)
    ensures ThreadInv(Apply(h, HelpStep(h, t, c).0), HelpStep(h, t, c).1)
  {
  }

  lemma HelpReadInv(h: Heap, t: Thread, c: Choice)
    requires HeapInv(h) && GoalInv(h, t) && HelpInv(h, t) && Helping(t.pc)
    requires !t.pc.CasUnlink? && !t.pc.WriteBack? && !t.pc.CasMark?
    requires !(t.pc.MarkResult? && h[t.pc.del].succ.flag)
    ensures HelpStep(h, t, c).0 == Nop && ThreadInv(h, HelpStep(h, t, c).1)
  {
  }
}
