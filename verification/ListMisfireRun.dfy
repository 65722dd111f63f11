/** A run of four threads in which the check of `try_flag` misfires: a node that nobody flagged is
    marked, the deletion that marked it reports failure, and a later search never ends. */
module ListMisfireRun {
  import opened ListHeap
  import opened ListThreads
  import opened ListSystem
  import opened ListSolo

  predicate FlagOf(a: Act, d: Id) {
    a.Flag? && a.del == d
  }

  /** A run that ends with this heap and these threads, in which `d` was never flagged. */
  ghost predicate Path(cs: seq<Config>, ms: seq<Move>, h: Heap, ts: map<nat, Thread>, d: Id) {
    && IsRun(cs, ms)
    && var c := cs[|ms|];
       && |c.log| == |ms| + 1 && |c.events| == |ms| && Now(c) == h && c.threads == ts
       && forall i :: 0 <= i < |ms| ==> !FlagOf(c.events[i].act, d)
  }

  /** A thread's path on which it never flags `d`. */
  ghost predicate Spares(p: seq<Solo>, c: Choice, d: Id) {
    && SoloPath(p, c)
    && forall i {:trigger ActOf(p[i], c)} :: 0 <= i < |p| - 1 ==> !FlagOf(ActOf(p[i], c), d)
  }

  lemma Begin(h: Heap, t: Thread, now: nat, c: Choice, d: Id) returns (p: seq<Solo>)
    ensures p == [Solo(h, t, now)] && Spares(p, c, d)
  {
    p := [Solo(h, t, now)];
  }

  /** The path goes on by one step, which makes the write `a`. */
  lemma Then(p: seq<Solo>, c: Choice, d: Id, a: Act, h: Heap, t: Thread) returns (q: seq<Solo>)
    requires Spares(p, c, d) && Allowed(End(p).heap, c)
    requires StepThread(End(p).heap, End(p).thread, End(p).now, c) == (a, t)
    requires h == Apply(End(p).heap, a) && !FlagOf(a, d)
    ensures Spares(q, c, d) && |q| == |p| + 1 && q[0] == p[0] && End(q) == Solo(h, t, End(p).now + 1)
  {
    q := p + [Solo(h, t, End(p).now + 1)];
    forall i | 0 <= i < |q| - 1
      ensures SoloStep(q, c, i) && !FlagOf(ActOf(q[i], c), d)
    {
      if i < |p| - 1 {
        assert !FlagOf(ActOf(p[i], c), d);
        StepInPart(p, q, c, i, i);
      }
    }
  }

  // The same, by the part of the operation the thread is in.

  lemma ThenStart(p: seq<Solo>, c: Choice, d: Id, a: Act, h: Heap, t: Thread) returns (q: seq<Solo>)
    requires Spares(p, c, d) && Allowed(End(p).heap, c) && Resting(End(p).thread.pc)
    requires (Nop, Start(c.op, End(p).now)) == (a, t)
    requires h == Apply(End(p).heap, a) && !FlagOf(a, d)
    ensures Spares(q, c, d) && |q| == |p| + 1 && q[0] == p[0] && End(q) == Solo(h, t, End(p).now + 1)
  {
    q := Then(p, c, d, a, h, t);
  }

  lemma ThenSearch(p: seq<Solo>, c: Choice, d: Id, a: Act, h: Heap, t: Thread) returns (q: seq<Solo>)
    requires Spares(p, c, d) && Allowed(End(p).heap, c) && Searching(End(p).thread.pc)
    requires SearchStep(End(p).heap, End(p).thread, c) == (a, t)
    requires h == Apply(End(p).heap, a) && !FlagOf(a, d)
    ensures Spares(q, c, d) && |q| == |p| + 1 && q[0] == p[0] && End(q) == Solo(h, t, End(p).now + 1)
  {
    q := Then(p, c, d, a, h, t);
  }

  lemma ThenInsert(p: seq<Solo>, c: Choice, d: Id, a: Act, h: Heap, t: Thread) returns (q: seq<Solo>)
    requires Spares(p, c, d) && Allowed(End(p).heap, c) && Inserting(End(p).thread.pc)
    requires InsertStep(End(p).heap, End(p).thread, End(p).now, c) == (a, t)
    requires h == Apply(End(p).heap, a) && !FlagOf(a, d)
    ensures Spares(q, c, d) && |q| == |p| + 1 && q[0] == p[0] && End(q) == Solo(h, t, End(p).now + 1)
  {
    q := Then(p, c, d, a, h, t);
  }

  lemma ThenFlag(p: seq<Solo>, c: Choice, d: Id, a: Act, h: Heap, t: Thread) returns (q: seq<Solo>)
    requires Spares(p, c, d) && Allowed(End(p).heap, c) && Flagging(End(p).thread.pc)
    requires FlagStep(End(p).heap, End(p).thread, End(p).now, c) == (a, t)
    requires h == Apply(End(p).heap, a) && !FlagOf(a, d)
    ensures Spares(q, c, d) && |q| == |p| + 1 && q[0] == p[0] && End(q) == Solo(h, t, End(p).now + 1)
  {
    q := Then(p, c, d, a, h, t);
  }

  lemma ThenHelp(p: seq<Solo>, c: Choice, d: Id, a: Act, h: Heap, t: Thread) returns (q: seq<Solo>)
    requires Spares(p, c, d) && Allowed(End(p).heap, c) && Helping(End(p).thread.pc)
    requires HelpStep(End(p).heap, End(p).thread, c) == (a, t)
    requires h == Apply(End(p).heap, a) && !FlagOf(a, d)
    ensures Spares(q, c, d) && |q| == |p| + 1 && q[0] == p[0] && End(q) == Solo(h, t, End(p).now + 1)
  {
    q := Then(p, c, d, a, h, t);
  }

  /** A stage of the run: one thread goes its path. */
  lemma Stage(cs: seq<Config>, ms: seq<Move>, h: Heap, ts: map<nat, Thread>, d: Id, tid: nat, p: seq<Solo>, c: Choice)
      returns (cs': seq<Config>, ms': seq<Move>)
    requires Path(cs, ms, h, ts, d) && tid in ts && Spares(p, c, d) && p[0] == Solo(h, ts[tid], |ms|)
    ensures |ms'| == |ms| + |p| - 1 && Path(cs', ms', End(p).heap, ts[tid := End(p).thread], d)
  {
    var k := |p| - 1;
    cs', ms' := Continue(cs, ms, tid, p, c, k);
    var es, es' := cs[|ms|].events, cs'[|ms'|].events;
    forall i | 0 <= i < |ms'|
      ensures !FlagOf(es'[i].act, d)
    {
      if i < |ms| {
        assert es'[i] == es[i];
      } else {
        assert es'[|es| + (i - |es|)] == Event(tid, ActOf(p[i - |es|], c));
      }
    }
  }

  // The two nodes of the run: 10 is deleted by thread 1; 5 is inserted by 2 and deleted by 3.
  const TEN: Id := 2
  const FIVE: Id := 3

  const IDLE := Thread(Find(0), Idle, Answer, 0, [], Finish(false), 0, 0, 0)

  /** A thread whose call began at moment `at`. */
  function Busy(op: Op, pc: Pc, at: nat, goal: Goal, skey: int): Thread {
    Thread(op, pc, goal, skey, [], Finish(false), at, at, at)
  }

  const FIND_TEN := Choice(Find(10), 4, false)
  const INSERT_TEN := Choice(Insert_(10), TEN, false)
  const INSERT_FIVE := Choice(Insert_(5), FIVE, false)
  const DELETE_TEN := Choice(Delete(10), 4, false)
  const DELETE_FIVE := Choice(Delete(5), 4, false)

  const HEAP1: Heap := EMPTY[HEAD := Node(KEY_MIN, Ref(TEN, false, false), NULL)]
                            [TEN := Node(10, Ref(TAIL, false, false), NULL)]
  const HEAP2: Heap := HEAP1[HEAD := Node(KEY_MIN, Ref(FIVE, false, false), NULL)]
                            [FIVE := Node(5, Ref(TEN, false, false), NULL)]
  const HEAP3: Heap := HEAP2[HEAD := Node(KEY_MIN, Ref(FIVE, false, true), NULL)]
  const HEAP4: Heap := HEAP3[TEN := Node(10, Ref(TAIL, false, false), HEAD)]
  const HEAP5: Heap := HEAP4[TEN := Node(10, Ref(TAIL, true, false), HEAD)]

  const FOUR: map<nat, Thread> := map[0 := IDLE, 1 := IDLE, 2 := IDLE, 3 := IDLE]

  function Deleter(op: Op, pc: Pc, at: nat, key: int): Thread {
    Busy(op, pc, at, Pick, key - 1)
  }

  /** Thread 0 inserts 10. */
  lemma TenInserted() returns (cs: seq<Config>, ms: seq<Move>, ts: map<nat, Thread>)
    ensures |ms| == 4 && Path(cs, ms, HEAP1, ts, TEN) && ts.Keys == FOUR.Keys
    ensures ts[0].pc == Done(true) && ts[1] == ts[2] == ts[3] == IDLE
  {
    var c := INSERT_TEN;
    var p := Begin(EMPTY, IDLE, 0, c, TEN);
    p := ThenStart(p, c, TEN, Nop, EMPTY, Busy(c.op, LoadNext(HEAD), 0, Place, 10));
    p := ThenSearch(p, c, TEN, Nop, EMPTY, Busy(c.op, ReadPrev(HEAD, TAIL), 0, Place, 10));
    p := ThenInsert(p, c, TEN, Nop, EMPTY, Busy(c.op, CasInsert(HEAD, TAIL), 0, Place, 10));
    p := ThenInsert(p, c, TEN, Insert(HEAD, TAIL, TEN, 10), HEAP1, Busy(c.op, Done(true), 0, Place, 10).(cas := 3));
    cs, ms := Stage([Config([EMPTY], [], FOUR)], [], EMPTY, FOUR, TEN, 0, p, c);
    ts := FOUR[0 := End(p).thread];
  }

  /** Thread 1 starts to delete 10 and makes the first of the three loads. */
  lemma FirstLoadMade() returns (cs: seq<Config>, ms: seq<Move>, ts: map<nat, Thread>)
    ensures |ms| == 7 && Path(cs, ms, HEAP1, ts, TEN) && ts.Keys == FOUR.Keys
    ensures ts[0].pc == Done(true) && ts[1] == Deleter(Delete(10), CheckMark(HEAD, TEN), 4, 10) && ts[2] == ts[3] == IDLE
  {
    cs, ms, ts := TenInserted();
    var c := DELETE_TEN;
    var p := Begin(HEAP1, IDLE, 4, c, TEN);
    p := ThenStart(p, c, TEN, Nop, HEAP1, Deleter(c.op, LoadNext(HEAD), 4, 10));
    p := ThenSearch(p, c, TEN, Nop, HEAP1, Deleter(c.op, CheckNode(HEAD, TEN), 4, 10));
    p := ThenFlag(p, c, TEN, Nop, HEAP1, Deleter(c.op, CheckMark(HEAD, TEN), 4, 10));
    cs, ms := Stage(cs, ms, HEAP1, ts, TEN, 1, p, c);
    ts := ts[1 := End(p).thread];
  }

  /** Thread 2 inserts 5 between head and 10. */
  lemma FiveInserted() returns (cs: seq<Config>, ms: seq<Move>, ts: map<nat, Thread>)
    ensures |ms| == 11 && Path(cs, ms, HEAP2, ts, TEN) && ts.Keys == FOUR.Keys
    ensures ts[0].pc == Done(true) && ts[1] == Deleter(Delete(10), CheckMark(HEAD, TEN), 4, 10) && ts[3] == IDLE
  {
    cs, ms, ts := FirstLoadMade();
    var c := INSERT_FIVE;
    var p := Begin(HEAP1, IDLE, 7, c, TEN);
    p := ThenStart(p, c, TEN, Nop, HEAP1, Busy(c.op, LoadNext(HEAD), 7, Place, 5));
    p := ThenSearch(p, c, TEN, Nop, HEAP1, Busy(c.op, ReadPrev(HEAD, TEN), 7, Place, 5));
    p := ThenInsert(p, c, TEN, Nop, HEAP1, Busy(c.op, CasInsert(HEAD, TEN), 7, Place, 5));
    p := ThenInsert(p, c, TEN, Insert(HEAD, TEN, FIVE, 5), HEAP2, Busy(c.op, Done(true), 7, Place, 5).(cas := 10));
    cs, ms := Stage(cs, ms, HEAP1, ts, TEN, 2, p, c);
    ts := ts[2 := End(p).thread];
  }

  /** Thread 3 finds 5 behind head, to delete it. */
  lemma FiveFound() returns (cs: seq<Config>, ms: seq<Move>, ts: map<nat, Thread>)
    ensures |ms| == 14 && Path(cs, ms, HEAP2, ts, TEN) && ts.Keys == FOUR.Keys && ts[0].pc == Done(true)
    ensures ts[1] == Deleter(Delete(10), CheckMark(HEAD, TEN), 4, 10)
    ensures ts[3] == Deleter(Delete(5), CheckMark(HEAD, FIVE), 11, 5)
  {
    cs, ms, ts := FiveInserted();
    var c := DELETE_FIVE;
    var p := Begin(HEAP2, IDLE, 11, c, TEN);
    p := ThenStart(p, c, TEN, Nop, HEAP2, Deleter(c.op, LoadNext(HEAD), 11, 5));
    p := ThenSearch(p, c, TEN, Nop, HEAP2, Deleter(c.op, CheckNode(HEAD, FIVE), 11, 5));
    p := ThenFlag(p, c, TEN, Nop, HEAP2, Deleter(c.op, CheckMark(HEAD, FIVE), 11, 5));
    cs, ms := Stage(cs, ms, HEAP2, ts, TEN, 3, p, c);
    ts := ts[3 := End(p).thread];
  }

  lemma FlagPath(h: Heap) returns (p: seq<Solo>)
    requires HEAD in h && FIVE in h && 4 !in h && h[HEAD].succ == Ref(FIVE, false, false)
    ensures Spares(p, DELETE_FIVE, TEN) && |p| == 4 && p[0] == Solo(h, Deleter(Delete(5), CheckMark(HEAD, FIVE), 11, 5), 14)
    ensures End(p).heap == h[HEAD := h[HEAD].(succ := Ref(FIVE, false, true))]
  {
    var c := DELETE_FIVE;
    p := Begin(h, Deleter(c.op, CheckMark(HEAD, FIVE), 11, 5), 14, c, TEN);
    p := ThenFlag(p, c, TEN, Nop, h, Deleter(c.op, CheckFlag(HEAD, FIVE), 11, 5));
    p := ThenFlag(p, c, TEN, Nop, h, Deleter(c.op, CasFlag(HEAD, FIVE), 11, 5));
    var t := Help(Deleter(c.op, CasFlag(HEAD, FIVE), 11, 5), HEAD, FIVE, Finish(true)).(cas := 16);
    p := ThenFlag(p, c, TEN, Flag(HEAD, FIVE), Apply(h, Flag(HEAD, FIVE)), t);
  }

  /** Thread 3 flags 5, in the successor word of head. */
  lemma FiveFlagged() returns (cs: seq<Config>, ms: seq<Move>, ts: map<nat, Thread>)
    ensures |ms| == 17 && Path(cs, ms, HEAP3, ts, TEN) && ts.Keys == FOUR.Keys && ts[0].pc == Done(true)
    ensures ts[1] == Deleter(Delete(10), CheckMark(HEAD, TEN), 4, 10)
  {
    cs, ms, ts := FiveFound();
    var c := DELETE_FIVE;
    var p := FlagPath(HEAP2);
    cs, ms := Stage(cs, ms, HEAP2, ts, TEN, 3, p, c);
    ts := ts[3 := End(p).thread];
  }

  /** Thread 1 makes the second load; the third will misfire. */
  lemma SecondLoadMade() returns (cs: seq<Config>, ms: seq<Move>, ts: map<nat, Thread>)
    ensures |ms| == 18 && Path(cs, ms, HEAP3, ts, TEN) && ts.Keys == FOUR.Keys && ts[0].pc == Done(true)
    ensures ts[1] == Deleter(Delete(10), CheckFlag(HEAD, TEN), 4, 10) && Misfires(HEAP3, ts[1])
  {
    cs, ms, ts := FiveFlagged();
    var c := DELETE_TEN;
    var p := Begin(HEAP3, Deleter(c.op, CheckMark(HEAD, TEN), 4, 10), 17, c, TEN);
    p := ThenFlag(p, c, TEN, Nop, HEAP3, Deleter(c.op, CheckFlag(HEAD, TEN), 4, 10));
    cs, ms := Stage(cs, ms, HEAP3, ts, TEN, 1, p, c);
    ts := ts[1 := End(p).thread];
  }

  lemma ThirdLoadPath(h: Heap) returns (p: seq<Solo>)
    requires HEAD in h && TEN in h && 4 !in h && h[HEAD].succ == Ref(FIVE, false, true)
    ensures Spares(p, DELETE_TEN, TEN) && |p| == 3 && p[0] == Solo(h, Deleter(Delete(10), CheckFlag(HEAD, TEN), 4, 10), 18)
    ensures End(p).heap == h[TEN := h[TEN].(backlink := HEAD)]
    ensures End(p).thread == Deleter(Delete(10), IsMarked(HEAD, TEN), 4, 10)
  {
    var c := DELETE_TEN;
    p := Begin(h, Deleter(c.op, CheckFlag(HEAD, TEN), 4, 10), 18, c, TEN);
    p := ThenFlag(p, c, TEN, Nop, h, Deleter(c.op, WriteBack(HEAD, TEN), 4, 10));
    p := ThenHelp(p, c, TEN, SetBacklink(TEN, HEAD), Apply(h, SetBacklink(TEN, HEAD)), Deleter(c.op, IsMarked(HEAD, TEN), 4, 10));
  }

  /** Thread 1 makes the third load and believes 10 is flagged. */
  lemma BacklinkWritten() returns (cs: seq<Config>, ms: seq<Move>, ts: map<nat, Thread>)
    ensures |ms| == 20 && Path(cs, ms, HEAP4, ts, TEN) && ts.Keys == FOUR.Keys && ts[0].pc == Done(true)
    ensures ts[1] == Deleter(Delete(10), IsMarked(HEAD, TEN), 4, 10)
  {
    cs, ms, ts := SecondLoadMade();
    var c := DELETE_TEN;
    var p := ThirdLoadPath(HEAP3);
    cs, ms := Stage(cs, ms, HEAP3, ts, TEN, 1, p, c);
    ts := ts[1 := End(p).thread];
  }

  lemma MarkPath(h: Heap) returns (p: seq<Solo>)
    requires TEN in h && 4 !in h && h[TEN].succ == Ref(TAIL, false, false)
    ensures Spares(p, DELETE_TEN, TEN) && |p| == 4 && p[0] == Solo(h, Deleter(Delete(10), IsMarked(HEAD, TEN), 4, 10), 20)
    ensures End(p).heap == h[TEN := h[TEN].(succ := Ref(TAIL, true, false))]
    ensures End(p).thread == Deleter(Delete(10), MarkResult(HEAD, TEN), 4, 10)
  {
    var c := DELETE_TEN;
    p := Begin(h, Deleter(c.op, IsMarked(HEAD, TEN), 4, 10), 20, c, TEN);
    p := ThenHelp(p, c, TEN, Nop, h, Deleter(c.op, ReadSucc(HEAD, TEN), 4, 10));
    p := ThenHelp(p, c, TEN, Nop, h, Deleter(c.op, CasMark(HEAD, TEN, TAIL), 4, 10));
    p := ThenHelp(p, c, TEN, Mark(TEN, TAIL), Apply(h, Mark(TEN, TAIL)), Deleter(c.op, MarkResult(HEAD, TEN), 4, 10));
  }

  /** So it marks 10. */
  lemma TenMarked() returns (cs: seq<Config>, ms: seq<Move>, ts: map<nat, Thread>)
    ensures |ms| == 23 && Path(cs, ms, HEAP5, ts, TEN) && ts.Keys == FOUR.Keys && ts[0].pc == Done(true)
    ensures ts[1] == Deleter(Delete(10), MarkResult(HEAD, TEN), 4, 10)
  {
    cs, ms, ts := BacklinkWritten();
    var c := DELETE_TEN;
    var p := MarkPath(HEAP4);
    cs, ms := Stage(cs, ms, HEAP4, ts, TEN, 1, p, c);
    ts := ts[1 := End(p).thread];
  }

  lemma FailurePath(h: Heap) returns (p: seq<Solo>)
    requires HEAD in h && TEN in h && 4 !in h && h[TEN].succ == Ref(TAIL, true, false)
    requires h[HEAD].succ == Ref(FIVE, false, true)
    ensures Spares(p, DELETE_TEN, TEN) && |p| == 5 && p[0] == Solo(h, Deleter(Delete(10), MarkResult(HEAD, TEN), 4, 10), 23)
    ensures End(p).heap == h && End(p).thread == Deleter(Delete(10), Done(false), 4, 10)
  {
    var c := DELETE_TEN;
    p := Begin(h, Deleter(c.op, MarkResult(HEAD, TEN), 4, 10), 23, c, TEN);
    p := ThenHelp(p, c, TEN, Nop, h, Deleter(c.op, MarkLoop(HEAD, TEN), 4, 10));
    p := ThenHelp(p, c, TEN, Nop, h, Deleter(c.op, ReadMarked(HEAD, TEN), 4, 10));
    p := ThenHelp(p, c, TEN, Nop, h, Deleter(c.op, CasUnlink(HEAD, TEN, TAIL), 4, 10));
    p := ThenHelp(p, c, TEN, Nop, h, Deleter(c.op, Done(false), 4, 10));
  }

  /** It fails to unlink 10 and reports that its deletion failed. */
  lemma FailureReported() returns (cs: seq<Config>, ms: seq<Move>, ts: map<nat, Thread>)
    ensures |ms| == 27 && Path(cs, ms, HEAP5, ts, TEN) && ts.Keys == FOUR.Keys && ts[0].pc == Done(true)
    ensures ts[1] == Deleter(Delete(10), Done(false), 4, 10)
  {
    cs, ms, ts := TenMarked();
    var c := DELETE_TEN;
    var p := FailurePath(HEAP5);
    cs, ms := Stage(cs, ms, HEAP5, ts, TEN, 1, p, c);
    ts := ts[1 := End(p).thread];
  }

  lemma BrokenHeap()
    ensures 10 !in KeySet(HEAP5) && !HeapInv(HEAP5)
  {
    assert FIVE in HEAP5 && !NodeInv(HEAP5, FIVE);
    forall n
      ensures !Holds(HEAP5, n, 10)
    {
    }
    KeySetIff(HEAP5, 10);
  }

  /** So it is false of this code that no node is marked without having been flagged, that a deletion
      reporting failure leaves the list as it is, and that the heap keeps its invariant in every run. */
  lemma MarkedWithoutFlag() returns (cs: seq<Config>, ms: seq<Move>)
    ensures IsRun(cs, ms)
    ensures var c := cs[|ms|];
            && TEN in Now(c) && Now(c)[TEN].key == 10 && Now(c)[TEN].succ.mark && 10 !in KeySet(Now(c))
            && |c.events| == |ms|
            && (forall i :: 0 <= i < |ms| ==> !FlagOf(c.events[i].act, TEN))
            && 1 in c.threads && c.threads[1].op == Delete(10) && c.threads[1].pc == Done(false)
            && !HeapInv(Now(c))
  {
    var ts: map<nat, Thread>;
    cs, ms, ts := FailureReported();
    BrokenHeap();
  }

  // ---- What the marked node does to searches ----

  /** The points of the inner loop of `search_from` while it stands before a marked node. */
  predicate Spins(pc: Pc, curr: Id, d: Id) {
    || pc == NextMarked(curr, d) || pc == CurrMarked(curr, d) || pc == StillNext(curr, d)
    || pc == ReadNext(curr, d) || (pc.CasNext? && pc.curr == curr && pc.next == d) || pc == Reload(curr)
  }

  /** A search that meets a marked node behind an unmarked, unflagged one never leaves it when run
      alone, and never changes anything. */
  lemma {:induction false} SearchSpins(p: seq<Solo>, c: Choice, curr: Id, d: Id, i: nat)
    requires SoloPath(p, c) && i < |p| && curr in p[0].heap && d in p[0].heap
    requires p[0].heap[curr].succ == Ref(d, false, false) && p[0].heap[d].succ.mark
    requires Spins(p[0].thread.pc, curr, d)
    ensures p[i].heap == p[0].heap && Spins(p[i].thread.pc, curr, d)
  {
    if i > 0 {
      SearchSpins(p, c, curr, d, i - 1);
      assert SoloStep(p, c, i - 1);
    }
  }

  /** Thread 0 searches for 10, and comes to stand before it. */
  lemma SearchArrives() returns (cs: seq<Config>, ms: seq<Move>, ts: map<nat, Thread>)
    ensures |ms| == 31 && Path(cs, ms, HEAP5, ts, TEN) && 0 in ts
    ensures ts[0] == Busy(Find(10), NextMarked(FIVE, TEN), 27, Answer, 10)
  {
    cs, ms, ts := FailureReported();
    var c := FIND_TEN;
    var p := Begin(HEAP5, ts[0], 27, c, TEN);
    p := ThenStart(p, c, TEN, Nop, HEAP5, Busy(c.op, LoadNext(HEAD), 27, Answer, 10));
    p := ThenSearch(p, c, TEN, Nop, HEAP5, Busy(c.op, NextMarked(HEAD, FIVE), 27, Answer, 10));
    p := ThenSearch(p, c, TEN, Nop, HEAP5, Busy(c.op, LoadNext(FIVE), 27, Answer, 10));
    p := ThenSearch(p, c, TEN, Nop, HEAP5, Busy(c.op, NextMarked(FIVE, TEN), 27, Answer, 10));
    cs, ms := Stage(cs, ms, HEAP5, ts, TEN, 0, p, c);
    ts := ts[0 := End(p).thread];
  }

  /** There is a run after which a search for 10, however long it is left to run alone, never returns. */
  lemma SearchNeverEnds() returns (cs: seq<Config>, ms: seq<Move>)
    ensures IsRun(cs, ms) && |cs[|ms|].log| > 0 && 0 in cs[|ms|].threads && cs[|ms|].threads[0].op == Find(10)
    ensures forall s, c :: Leads(Part(cs[|ms|], 0), s, c) ==> Searching(s.thread.pc) && s.heap == Now(cs[|ms|])
  {
    var ts: map<nat, Thread>;
    cs, ms, ts := SearchArrives();
    var start := Part(cs[|ms|], 0);
    forall s, c | Leads(start, s, c)
      ensures Searching(s.thread.pc) && s.heap == Now(cs[|ms|])
    {
      var p :| SoloPath(p, c) && p[0] == start && p[|p| - 1] == s;
      SearchSpins(p, c, FIVE, TEN, |p| - 1);
    }
  }
}
