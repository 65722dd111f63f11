/** Every answer of a list operation was true at some moment during the call, although searches take
    no lock and the nodes they return may be marked or unlinked by the time they return. */
module ListHindsight {
  import opened ListHeap
  import opened ListThreads
  import opened ListSystem
  import opened ListHistory

  ghost predicate Seen(log: seq<Heap>, since: nat, n: Id) {
    exists i: nat :: since <= i < |log| && UnmarkedAt(log, i, n)
  }

  ghost predicate Joined(log: seq<Heap>, since: nat, curr: Id, next: Id) {
    exists i: nat :: since <= i < |log| && EdgeAt(log, i, curr, next)
  }

  ghost predicate HasKey(log: seq<Heap>, i: nat, k: int) {
    i < |log| && k in KeySet(log[i])
  }

  ghost predicate LacksKey(log: seq<Heap>, i: nat, k: int) {
    i < |log| && k !in KeySet(log[i])
  }

  /** At some moment since `since` the key was in the list. */
  ghost predicate PresentSince(log: seq<Heap>, since: nat, k: int) {
    exists i: nat :: since <= i && HasKey(log, i, k)
  }

  ghost predicate AbsentSince(log: seq<Heap>, since: nat, k: int) {
    exists i: nat :: since <= i && LacksKey(log, i, k)
  }

  /** What a deleter knows of its target: it was in the list during the call, or the key was not. */
  ghost predicate Met(log: seq<Heap>, since: nat, target: Id, k: int) {
    Seen(log, since, target) || AbsentSince(log, since, k)
  }

  /** The thread's own flagging of `d`, made since the call began. */
  ghost predicate WonFlag(events: seq<Event>, tid: nat, t: Thread, d: Id) {
    && t.born <= t.cas < |events|
    && events[t.cas].tid == tid && events[t.cas].act.Flag? && events[t.cas].act.del == d
  }

  function Deleted(a: Act): Id {
    if a.Flag? then a.del else NULL
  }

  ghost predicate MarkedAfter(events: seq<Event>, i: nat, d: Id) {
    exists m: nat :: i < m < |events| && events[m].act.Mark? && events[m].act.del == d
  }

  /** What the answer of a finished call says about the moments since it began. */
  ghost predicate Outcome(log: seq<Heap>, events: seq<Event>, tid: nat, t: Thread, ok: bool) {
    match t.op
    case Find(k) => if ok then PresentSince(log, t.born, k) else AbsentSince(log, t.born, k)
    case Insert_(k) =>
      if ok then
        && t.born <= t.cas < |events| && events[t.cas].tid == tid
        && events[t.cas].act.Insert? && events[t.cas].act.key == k
      else PresentSince(log, t.born, k)
    case Delete(k) =>
      if ok then
        && t.cas < |events| && WonFlag(events, tid, t, Deleted(events[t.cas].act))
        && t.cas < |log| && At(log[t.cas], Deleted(events[t.cas].act)).key == k
        && MarkedAfter(events, t.cas, Deleted(events[t.cas].act))
      else AbsentSince(log, t.born, k)
  }

  predicate HasNext(pc: Pc) {
    Searching(pc) && !pc.LoadNext? && !pc.Reload?
  }

  function Outermost(t: Thread): Id
    requires Helping(t.pc)
  {
    if t.stack == [] then t.pc.del else t.stack[0].del
  }

  ghost predicate SearchHist(log: seq<Heap>, t: Thread) {
    Searching(t.pc) ==>
      && Seen(log, t.base, t.pc.curr)
      && (HasNext(t.pc) ==> Joined(log, t.base, t.pc.curr, t.pc.next))
      && (t.goal.Confirm? ==> t.base < |log| && t.goal.target in log[t.base])
  }

  ghost predicate TargetHist(log: seq<Heap>, t: Thread) {
    && (t.goal.Confirm? && (Searching(t.pc) || Inserting(t.pc)) ==> Met(log, t.born, t.goal.target, t.op.key))
    && (Flagging(t.pc) ==> Met(log, t.born, t.pc.target, t.op.key))
  }

  ghost predicate HelpHist(log: seq<Heap>, events: seq<Event>, tid: nat, t: Thread) {
    Helping(t.pc) ==>
      match t.after
      case Research(prev) => Seen(log, t.base, prev)
      case Unwind(prev) => true
      case Finish(won) =>
        Met(log, t.born, Outermost(t), t.op.key) && (won ==> WonFlag(events, tid, t, Outermost(t)))
  }

  ghost predicate Hist(log: seq<Heap>, events: seq<Event>, tid: nat, t: Thread) {
    !t.pc.Idle? ==>
      && t.born <= t.base < |log|
      && SearchHist(log, t) && TargetHist(log, t) && HelpHist(log, events, tid, t)
      && (t.pc.Done? ==> Outcome(log, events, tid, t, t.pc.ok))
  }

  // ---- Moments stay in the log ----

  lemma SeenGrows(log: seq<Heap>, log': seq<Heap>, since: nat, since': nat, n: Id)
    requires log <= log' && since' <= since && Seen(log, since, n)
    ensures Seen(log', since', n)
  {
    var i: nat :| since <= i < |log| && UnmarkedAt(log, i, n);
    assert UnmarkedAt(log', i, n);
  }

  lemma JoinedGrows(log: seq<Heap>, log': seq<Heap>, since: nat, curr: Id, next: Id)
    requires log <= log' && Joined(log, since, curr, next)
    ensures Joined(log', since, curr, next)
  {
    var i: nat :| since <= i < |log| && EdgeAt(log, i, curr, next);
    assert EdgeAt(log', i, curr, next);
  }

  lemma KeysGrow(log: seq<Heap>, log': seq<Heap>, since: nat, k: int)
    requires log <= log'
    ensures PresentSince(log, since, k) ==> PresentSince(log', since, k)
    ensures AbsentSince(log, since, k) ==> AbsentSince(log', since, k)
  {
    if i: nat :| since <= i && HasKey(log, i, k) {
      assert HasKey(log', i, k);
    }
    if i: nat :| since <= i && LacksKey(log, i, k) {
      assert LacksKey(log', i, k);
    }
  }

  lemma MetGrows(log: seq<Heap>, log': seq<Heap>, since: nat, target: Id, k: int)
    requires log <= log' && Met(log, since, target, k)
    ensures Met(log', since, target, k)
  {
    KeysGrow(log, log', since, k);
    if Seen(log, since, target) {
      SeenGrows(log, log', since, since, target);
    }
  }

  lemma OutcomeGrows(log: seq<Heap>, log': seq<Heap>, events: seq<Event>, events': seq<Event>, tid: nat, t: Thread, ok: bool)
    requires log <= log' && events <= events' && Outcome(log, events, tid, t, ok)
    ensures Outcome(log', events', tid, t, ok)
  {
    KeysGrow(log, log', t.born, t.op.key);
    if t.op.Delete? && ok {
      var d := Deleted(events[t.cas].act);
      var m: nat :| t.cas < m < |events| && events[m].act.Mark? && events[m].act.del == d;
      assert events'[m] == events[m] && events'[t.cas] == events[t.cas];
    }
  }

  lemma HistGrows(log: seq<Heap>, log': seq<Heap>, events: seq<Event>, events': seq<Event>, tid: nat, t: Thread)
    requires log <= log' && events <= events' && Hist(log, events, tid, t)
    ensures Hist(log', events', tid, t)
  {
    if t.pc.Done? {
      OutcomeGrows(log, log', events, events', tid, t, t.pc.ok);
    } else if Searching(t.pc) {
      SearchHistGrows(log, log', t);
    } else if Flagging(t.pc) {
      MetGrows(log, log', t.born, t.pc.target, t.op.key);
    } else if Inserting(t.pc) && t.goal.Confirm? {
      MetGrows(log, log', t.born, t.goal.target, t.op.key);
    } else if Helping(t.pc) {
      HelpHistGrows(log, log', events, events', tid, t);
    }
  }

  lemma SearchHistGrows(log: seq<Heap>, log': seq<Heap>, t: Thread)
    requires log <= log' && Searching(t.pc) && SearchHist(log, t) && TargetHist(log, t)
    ensures SearchHist(log', t) && TargetHist(log', t)
  {
    SeenGrows(log, log', t.base, t.base, t.pc.curr);
    if HasNext(t.pc) {
      JoinedGrows(log, log', t.base, t.pc.curr, t.pc.next);
    }
    if t.goal.Confirm? {
      MetGrows(log, log', t.born, t.goal.target, t.op.key);
    }
  }

  lemma HelpHistGrows(log: seq<Heap>, log': seq<Heap>, events: seq<Event>, events': seq<Event>, tid: nat, t: Thread)
    requires log <= log' && events <= events' && HelpHist(log, events, tid, t)
    ensures HelpHist(log', events', tid, t)
  {
    if Helping(t.pc) {
      match t.after
      case Research(prev) => SeenGrows(log, log', t.base, t.base, prev);
      case Unwind(prev) =>
      case Finish(won) => MetGrows(log, log', t.born, Outermost(t), t.op.key);
    }
  }

  // ---- Reading the past ----

  lemma JoinedNow(log: seq<Heap>, events: seq<Event>, since: nat, curr: Id)
    requires LogInv(log, events) && Seen(log, since, curr) && curr != TAIL
    ensures var h := log[|log| - 1];
            && curr in h && Joined(log, since, curr, h[curr].succ.node)
            && (h[curr].succ.mark ==> Seen(log, since, h[curr].succ.node))
  {
    var i: nat :| since <= i < |log| && UnmarkedAt(log, i, curr);
    var e := EdgeSince(log, events, i, |log| - 1, curr);
    var next := log[|log| - 1][curr].succ.node;
    assert EdgeAt(log, e, curr, next);
  }

  /** A node seen in the list with key `k` shows `k` present. */
  lemma SeenMeansPresent(log: seq<Heap>, events: seq<Event>, since: nat, n: Id)
    requires LogInv(log, events) && Seen(log, since, n)
    requires n in log[|log| - 1] && KEY_MIN < log[|log| - 1][n].key < KEY_MAX
    ensures PresentSince(log, since, log[|log| - 1][n].key)
  {
    var i: nat :| since <= i < |log| && UnmarkedAt(log, i, n);
    assert HeapInv(log[i]) && HeapInv(log[|log| - 1]);
    var k := log[|log| - 1][n].key;
    EvolvesLater(log, events, i, |log| - 1, n);
    assert Holds(log[i], n, k);
    KeySetIff(log[i], k);
    assert HasKey(log, i, k);
  }

  /** Nodes joined across `k` show `k` absent. */
  lemma JoinedMeansAbsent(log: seq<Heap>, events: seq<Event>, since: nat, curr: Id, next: Id, k: int)
    requires LogInv(log, events) && Joined(log, since, curr, next)
    requires Pair(log[|log| - 1], curr, next, k - 1) && k < log[|log| - 1][next].key
    ensures AbsentSince(log, since, k)
  {
    var i: nat :| since <= i < |log| && EdgeAt(log, i, curr, next);
    assert HeapInv(log[i]) && HeapInv(log[|log| - 1]);
    assert NodeInv(log[i], curr) && NodeInv(log[|log| - 1], TAIL);
    EvolvesLater(log, events, i, |log| - 1, curr);
    EvolvesLater(log, events, i, |log| - 1, next);
    GapMeansAbsent(log[i], curr, next, k);
    assert LacksKey(log, i, k);
  }

  /** The right neighbour found by a search was in the list, or its key was not. */
  lemma JoinedMeansMet(log: seq<Heap>, events: seq<Event>, since: nat, curr: Id, next: Id)
    requires LogInv(log, events) && Joined(log, since, curr, next) && curr != TAIL
    requires next in log[|log| - 1]
    ensures Met(log, since, next, log[|log| - 1][next].key)
  {
    var i: nat :| since <= i < |log| && EdgeAt(log, i, curr, next);
    assert HeapInv(log[i]) && NodeInv(log[i], curr);
    EvolvesLater(log, events, i, |log| - 1, next);
    if log[i][next].succ.mark {
      MarkedMeansAbsent(log[i], next);
      assert LacksKey(log, i, log[i][next].key);
    } else {
      assert UnmarkedAt(log, i, next);
    }
  }

  /** A target that is marked now shows its key absent at some moment since it was met. */
  lemma MetAndMarked(log: seq<Heap>, events: seq<Event>, since: nat, d: Id, k: int)
    requires LogInv(log, events) && Met(log, since, d, k) && Stopped(log[|log| - 1], d)
    requires log[|log| - 1][d].key == k
    ensures AbsentSince(log, since, k)
  {
    if Seen(log, since, d) {
      var i: nat :| since <= i < |log| && UnmarkedAt(log, i, d);
      var m := MarkEvent(log, events, i, |log| - 1, d);
      assert Legal(log[m], events[m].act) && log[m + 1] == Apply(log[m], events[m].act);
      EvolvesLater(log, events, m, |log| - 1, d);
      assert HeapInv(log[m]) && HeapInv(log[m + 1]);
      LinkedAfter(log[m], events[m].act, d);
      MarkedMeansAbsent(log[m + 1], d);
      assert LacksKey(log, m + 1, k);
    }
  }

  /** If a search that starts after the target was in the list passes it by, the target is gone. */
  lemma PassedByMeansMarked(log: seq<Heap>, events: seq<Event>, since: nat, curr: Id, next: Id, target: Id)
    requires LogInv(log, events) && Joined(log, since, curr, next) && next != target
    requires since < |log| && target in log[since]
    requires Pair(log[|log| - 1], curr, next, log[since][target].key - 1)
    requires log[since][target].key <= log[|log| - 1][next].key
    ensures Stopped(log[|log| - 1], target)
  {
    var i: nat :| since <= i < |log| && EdgeAt(log, i, curr, next);
    assert HeapInv(log[i]) && HeapInv(log[|log| - 1]);
    assert NodeInv(log[i], curr) && NodeInv(log[|log| - 1], TAIL);
    EvolvesLater(log, events, i, |log| - 1, curr);
    EvolvesLater(log, events, i, |log| - 1, next);
    EvolvesLater(log, events, since, i, target);
    EvolvesLater(log, events, i, |log| - 1, target);
    assert Gapless(log[i], curr, target) && Gapless(log[i], next, target);
  }

  // ---- A thread's own steps ----

  ghost predicate Ready(log: seq<Heap>, events: seq<Event>, t: Thread) {
    && LogInv(log, events) && HeapInv(log[|log| - 1])
    && t.born <= t.base < |log| && GoalInv(log[|log| - 1], t)
  }

  /** What the pair a search returns says about its own key. */
  lemma FoundFacts(log: seq<Heap>, events: seq<Event>, t: Thread, curr: Id, next: Id)
    requires Ready(log, events, t) && Pair(log[|log| - 1], curr, next, t.skey)
    requires t.skey < log[|log| - 1][next].key
    requires Seen(log, t.base, curr) && Joined(log, t.base, curr, next)
    ensures log[|log| - 1][curr].key == t.op.key ==> PresentSince(log, t.born, t.op.key)
    ensures log[|log| - 1][curr].key < t.op.key < log[|log| - 1][next].key ==> AbsentSince(log, t.born, t.op.key)
    ensures log[|log| - 1][next].key == t.op.key ==> Met(log, t.born, next, t.op.key)
  {
    var h := log[|log| - 1];
    assert NodeInv(h, TAIL);
    if h[curr].key == t.op.key {
      SeenMeansPresent(log, events, t.born, curr);
    } else if h[curr].key < t.op.key < h[next].key {
      AbsentEarlier(log, events, t, curr, next);
    } else if h[next].key == t.op.key {
      MetEarlier(log, events, t, curr, next);
    }
  }

  lemma PassedBy(log: seq<Heap>, events: seq<Event>, t: Thread, curr: Id, next: Id)
    requires Ready(log, events, t) && Pair(log[|log| - 1], curr, next, t.skey)
    requires t.skey < log[|log| - 1][next].key && Joined(log, t.base, curr, next)
    requires t.goal.Confirm? && next != t.goal.target
    requires t.goal.target in log[t.base] && Met(log, t.born, t.goal.target, t.op.key)
    ensures AbsentSince(log, t.born, t.op.key)
  {
    EvolvesLater(log, events, t.base, |log| - 1, t.goal.target);
    PassedByMeansMarked(log, events, t.base, curr, next, t.goal.target);
    MetAndMarked(log, events, t.born, t.goal.target, t.op.key);
  }

  /** A search that returns (curr, next) either answers its caller truly or hands over what it saw. */
  lemma FoundHist(log: seq<Heap>, events: seq<Event>, tid: nat, t: Thread, curr: Id, next: Id)
    requires Ready(log, events, t) && Pair(log[|log| - 1], curr, next, t.skey)
    requires t.skey < log[|log| - 1][next].key
    requires Seen(log, t.base, curr) && Joined(log, t.base, curr, next)
    requires t.goal.Confirm? ==> t.goal.target in log[t.base] && Met(log, t.born, t.goal.target, t.op.key)
    ensures Hist(log, events, tid, Found(log[|log| - 1], t, curr, next))
  {
    FoundFacts(log, events, t, curr, next);
    if t.goal.Confirm? && next != t.goal.target {
      PassedBy(log, events, t, curr, next);
    }
    FoundGivenFacts(log[|log| - 1], log, events, tid, t, curr, next);
  }

  lemma FoundGivenFacts(h: Heap, log: seq<Heap>, events: seq<Event>, tid: nat, t: Thread, curr: Id, next: Id)
    requires t.born <= t.base < |log| && GoalInv(h, t)
    requires Pair(h, curr, next, t.skey) && t.skey < h[next].key
    requires h[curr].key == t.op.key ==> PresentSince(log, t.born, t.op.key)
    requires h[curr].key < t.op.key < h[next].key ==> AbsentSince(log, t.born, t.op.key)
    requires h[next].key == t.op.key ==> Met(log, t.born, next, t.op.key)
    requires t.goal.Confirm? ==>
               if next == t.goal.target then Met(log, t.born, t.goal.target, t.op.key)
               else AbsentSince(log, t.born, t.op.key)
    ensures Hist(log, events, tid, Found(h, t, curr, next))
  {
  }

  lemma AbsentEarlier(log: seq<Heap>, events: seq<Event>, t: Thread, curr: Id, next: Id)
    requires Ready(log, events, t) && Pair(log[|log| - 1], curr, next, t.op.key - 1)
    requires t.op.key < log[|log| - 1][next].key && Joined(log, t.base, curr, next)
    ensures AbsentSince(log, t.born, t.op.key)
  {
    JoinedMeansAbsent(log, events, t.base, curr, next, t.op.key);
    var i: nat :| t.base <= i && LacksKey(log, i, t.op.key);
  }

  lemma MetEarlier(log: seq<Heap>, events: seq<Event>, t: Thread, curr: Id, next: Id)
    requires Ready(log, events, t) && Joined(log, t.base, curr, next) && curr != TAIL
    requires next in log[|log| - 1] && log[|log| - 1][next].key == t.op.key
    ensures Met(log, t.born, next, t.op.key)
  {
    JoinedMeansMet(log, events, t.base, curr, next);
    if Seen(log, t.base, next) {
      SeenGrows(log, log, t.base, t.born, next);
    } else {
      var i: nat :| t.base <= i && LacksKey(log, i, t.op.key);
    }
  }

  lemma AdvanceHist(log: seq<Heap>, events: seq<Event>, tid: nat, t: Thread, curr: Id, next: Id)
    requires Ready(log, events, t) && Pair(log[|log| - 1], curr, next, t.skey)
    requires Seen(log, t.base, curr) && Joined(log, t.base, curr, next)
    requires t.goal.Confirm? ==> t.goal.target in log[t.base] && Met(log, t.born, t.goal.target, t.op.key)
    ensures Hist(log, events, tid, Loaded(log[|log| - 1], t, curr, next))
    ensures Seen(log, t.base, next) ==> Hist(log, events, tid, Advance(log[|log| - 1], t, curr, next))
  {
    if t.skey < log[|log| - 1][next].key {
      FoundHist(log, events, tid, t, curr, next);
    }
  }

  lemma SearchMoveHist(log: seq<Heap>, events: seq<Event>, tid: nat, t: Thread, c: Choice)
    requires Ready(log, events, t) && SearchInv(log[|log| - 1], t) && Hist(log, events, tid, t)
    requires t.pc.LoadNext? || t.pc.NextMarked? || t.pc.CurrLink?
    ensures Hist(log, events, tid, SearchStep(log[|log| - 1], t, c).1)
  {
    var h := log[|log| - 1];
    var curr := t.pc.curr;
    assert NodeInv(h, curr) && NodeInv(h, TAIL);
    JoinedNow(log, events, t.base, curr);
    var next := if t.pc.LoadNext? then h[curr].succ.node else t.pc.next;
    if !h[next].succ.mark {
      assert UnmarkedAt(log, |log| - 1, next);
    }
    AdvanceHist(log, events, tid, t, curr, next);
  }

  lemma ReloadHist(log: seq<Heap>, events: seq<Event>, tid: nat, t: Thread, c: Choice)
    requires Ready(log, events, t) && SearchInv(log[|log| - 1], t) && t.pc.Reload?
    requires Hist(log, events, tid, t)
    ensures Hist(log, events, tid, SearchStep(log[|log| - 1], t, c).1)
  {
    assert NodeInv(log[|log| - 1], TAIL);
    JoinedNow(log, events, t.base, t.pc.curr);
  }

  lemma SearchWaitHist(h: Heap, log: seq<Heap>, events: seq<Event>, tid: nat, t: Thread, c: Choice)
    requires Hist(log, events, tid, t)
    requires t.pc.CurrMarked? || t.pc.StillNext? || t.pc.ReadNext? || t.pc.CasNext?
    ensures Hist(log, events, tid, SearchStep(h, t, c).1)
  {
  }

  lemma SearchStepHist(log: seq<Heap>, events: seq<Event>, tid: nat, t: Thread, c: Choice)
    requires Ready(log, events, t) && SearchInv(log[|log| - 1], t) && Searching(t.pc)
    requires Hist(log, events, tid, t)
    ensures Hist(log, events, tid, SearchStep(log[|log| - 1], t, c).1)
  {
    if t.pc.LoadNext? || t.pc.NextMarked? || t.pc.CurrLink? {
      SearchMoveHist(log, events, tid, t, c);
    } else if t.pc.Reload? {
      ReloadHist(log, events, tid, t, c);
    } else {
      SearchWaitHist(log[|log| - 1], log, events, tid, t, c);
    }
  }

  lemma InsertCasHist(log: seq<Heap>, events: seq<Event>, tid: nat, t: Thread, c: Choice)
    requires Ready(log, events, t) && InsertInv(log[|log| - 1], t) && t.pc.CasInsert?
    requires Hist(log, events, tid, t)
    ensures var (a, t') := InsertStep(log[|log| - 1], t, |log| - 1, c);
            Hist(log, if a == Nop then events else events + [Event(tid, a)], tid, t')
  {
  }

  lemma WalkHist(log: seq<Heap>, events: seq<Event>, tid: nat, t: Thread, c: Choice)
    requires Ready(log, events, t) && InsertInv(log[|log| - 1], t) && (t.pc.Walk? || t.pc.Back?)
    requires Hist(log, events, tid, t)
    ensures Hist(log, events, tid, InsertStep(log[|log| - 1], t, |log| - 1, c).1)
  {
    var prev := t.pc.prev;
    if !log[|log| - 1][prev].succ.mark {
      assert UnmarkedAt(log, |log| - 1, prev);
    }
  }

  lemma InsertReadHist(log: seq<Heap>, events: seq<Event>, tid: nat, t: Thread, c: Choice)
    requires Ready(log, events, t) && InsertInv(log[|log| - 1], t) && (t.pc.ReadPrev? || t.pc.InsertFailed?)
    requires Hist(log, events, tid, t)
    ensures InsertStep(log[|log| - 1], t, |log| - 1, c).0 == Nop
    ensures Hist(log, events, tid, InsertStep(log[|log| - 1], t, |log| - 1, c).1)
  {
    var prev := t.pc.prev;
    assert NodeInv(log[|log| - 1], prev) && NodeInv(log[|log| - 1], TAIL);
    if !log[|log| - 1][prev].succ.mark {
      assert UnmarkedAt(log, |log| - 1, prev);
    }
  }

  lemma InsertStepHist(log: seq<Heap>, events: seq<Event>, tid: nat, t: Thread, c: Choice)
    requires Ready(log, events, t) && InsertInv(log[|log| - 1], t) && Inserting(t.pc)
    requires Hist(log, events, tid, t)
    ensures var (a, t') := InsertStep(log[|log| - 1], t, |log| - 1, c);
            Hist(log, if a == Nop then events else events + [Event(tid, a)], tid, t')
  {
    if t.pc.CasInsert? {
      InsertCasHist(log, events, tid, t, c);
    } else if t.pc.Walk? || t.pc.Back? {
      WalkHist(log, events, tid, t, c);
    } else {
      InsertReadHist(log, events, tid, t, c);
    }
  }

  lemma CheckHist(h: Heap, log: seq<Heap>, events: seq<Event>, tid: nat, t: Thread, now: nat, c: Choice)
    requires Hist(log, events, tid, t) && t.op.Delete? && (t.pc.CheckNode? || t.pc.CheckMark? || t.pc.CheckFlag?)
    ensures FlagStep(h, t, now, c).0 == Nop && Hist(log, events, tid, FlagStep(h, t, now, c).1)
  {
  }

  lemma FlagCasHist(log: seq<Heap>, events: seq<Event>, tid: nat, t: Thread, c: Choice)
    requires Ready(log, events, t) && FlagInv(log[|log| - 1], t) && (t.pc.CasFlag? || t.pc.FlagFailed?)
    requires Hist(log, events, tid, t)
    ensures var (a, t') := FlagStep(log[|log| - 1], t, |log| - 1, c);
            Hist(log, if a == Nop then events else events + [Event(tid, a)], tid, t')
  {
  }

  lemma FlagStepHist(log: seq<Heap>, events: seq<Event>, tid: nat, t: Thread, c: Choice)
    requires Ready(log, events, t) && FlagInv(log[|log| - 1], t) && Flagging(t.pc)
    requires Hist(log, events, tid, t)
    ensures var (a, t') := FlagStep(log[|log| - 1], t, |log| - 1, c);
            Hist(log, if a == Nop then events else events + [Event(tid, a)], tid, t')
  {
    if t.pc.CasFlag? || t.pc.FlagFailed? {
      FlagCasHist(log, events, tid, t, c);
    } else {
      CheckHist(log[|log| - 1], log, events, tid, t, |log| - 1, c);
    }
  }

  /** When `list_delete` returns, its target is marked. */
  lemma FinishHist(log: seq<Heap>, events: seq<Event>, tid: nat, t: Thread)
    requires Ready(log, events, t) && HelpInv(log[|log| - 1], t) && Hist(log, events, tid, t)
    requires t.pc.CasUnlink? && t.stack == [] && t.after.Finish?
    ensures Outcome(log, events, tid, t, t.after.won)
  {
    var d := t.pc.del;
    if t.after.won {
      assert Legal(log[t.cas], events[t.cas].act);
      assert HeapInv(log[t.cas]) && NodeInv(log[t.cas], events[t.cas].act.prev);
      EvolvesLater(log, events, t.cas, |log| - 1, d);
      var m := MarkEvent(log, events, t.cas, |log| - 1, d);
      assert events[m].act.Mark?;
    } else {
      MetAndMarked(log, events, t.born, d, t.op.key);
    }
  }

  lemma HelpStepHist(log: seq<Heap>, events: seq<Event>, tid: nat, t: Thread, c: Choice)
    requires Ready(log, events, t) && HelpInv(log[|log| - 1], t) && Helping(t.pc)
    requires Hist(log, events, tid, t)
    ensures Hist(log, events, tid, HelpStep(log[|log| - 1], t, c).1)
  {
    var t' := HelpStep(log[|log| - 1], t, c).1;
    if t.pc.CasUnlink? && t.stack == [] {
      HelpedHist(log, events, tid, t);
    } else {
      HelpGoesOn(log[|log| - 1], t, c);
      HelpSameHist(log, events, tid, t, t'.pc, t'.stack);
    }
  }

  lemma HelpGoesOn(h: Heap, t: Thread, c: Choice)
    requires Helping(t.pc) && !(t.pc.CasUnlink? && t.stack == [])
    ensures var t' := HelpStep(h, t, c).1;
            Helping(t'.pc) && Outermost(t') == Outermost(t) && t' == t.(pc := t'.pc, stack := t'.stack)
  {
  }

  lemma HelpSameHist(log: seq<Heap>, events: seq<Event>, tid: nat, t: Thread, pc: Pc, stack: seq<Frame>)
    requires Hist(log, events, tid, t) && Helping(t.pc) && Helping(pc)
    requires Outermost(t.(pc := pc, stack := stack)) == Outermost(t)
    ensures Hist(log, events, tid, t.(pc := pc, stack := stack))
  {
  }

  lemma HelpedHist(log: seq<Heap>, events: seq<Event>, tid: nat, t: Thread)
    requires Ready(log, events, t) && HelpInv(log[|log| - 1], t)
    requires Hist(log, events, tid, t) && t.pc.CasUnlink? && t.stack == []
    ensures Hist(log, events, tid, Helped(t))
  {
    match t.after
    case Finish(won) => FinishHist(log, events, tid, t);
    case _ =>
  }

  lemma OwnHist(log: seq<Heap>, events: seq<Event>, tid: nat, t: Thread, c: Choice)
    requires LogInv(log, events) && ThreadInv(log[|log| - 1], t) && Hist(log, events, tid, t)
    ensures var (a, t') := StepThread(log[|log| - 1], t, |log| - 1, c);
            Hist(log + [Apply(log[|log| - 1], a)], events + [Event(tid, a)], tid, t')
  {
    var h := log[|log| - 1];
    assert HeapInv(h);
    var (a, t') := StepThread(h, t, |log| - 1, c);
    var log', events' := log + [Apply(h, a)], events + [Event(tid, a)];
    var mid := if a == Nop || Searching(t.pc) || Helping(t.pc) then events else events';
    if Resting(t.pc) {
      assert UnmarkedAt(log, |log| - 1, HEAD);
    } else if Searching(t.pc) {
      SearchStepHist(log, events, tid, t, c);
    } else if Inserting(t.pc) {
      InsertStepHist(log, events, tid, t, c);
    } else if Flagging(t.pc) {
      FlagStepHist(log, events, tid, t, c);
    } else {
      HelpStepHist(log, events, tid, t, c);
    }
    HistGrows(log, log', mid, events', tid, t');
  }

  // ---- Runs ----

  ghost predicate ThreadsHist(c: Config) {
    forall i {:trigger c.threads[i]} :: i in c.threads ==> Hist(c.log, c.events, i, c.threads[i])
  }

  lemma StepHist(c: Config, m: Move)
    requires Sound(c) && ThreadsHist(c) && Enabled(c, m)
    ensures ThreadsHist(Step(c, m))
  {
    var c' := Step(c, m);
    forall i | i in c'.threads
      ensures Hist(c'.log, c'.events, i, c'.threads[i])
    {
      assert c.threads[i] == c.threads[i];
      if i == m.tid {
        OwnHist(c.log, c.events, i, c.threads[i], m.choice);
      } else {
        HistGrows(c.log, c'.log, c.events, c'.events, i, c.threads[i]);
      }
    }
  }

  /** In every run, for as long as no check of `try_flag` has misfired, every call that has returned
      gave an answer that was true at some moment since the call began. */
  lemma {:induction false} EveryAnswerWasTrue(cs: seq<Config>, ms: seq<Move>, n: nat)
    requires IsRun(cs, ms) && n < |cs| && CalmUpTo(cs, ms, n)
    ensures ThreadsHist(cs[n])
    ensures forall i {:trigger cs[n].threads[i]} :: i in cs[n].threads && cs[n].threads[i].pc.Done? ==>
              Outcome(cs[n].log, cs[n].events, i, cs[n].threads[i], cs[n].threads[i].pc.ok)
  {
    if n > 0 {
      EveryAnswerWasTrue(cs, ms, n - 1);
      RunSoundUpTo(cs, ms, n - 1);
      assert Enabled(cs[n - 1], ms[n - 1]) && cs[n] == Step(cs[n - 1], ms[n - 1]);
      assert Sound(cs[n - 1]);
      StepHist(cs[n - 1], ms[n - 1]);
    }
  }

  // ---- What the outcomes mean for the set of keys ----

  /** A successful insertion added its key during the call; a successful deletion's node left the set
      during the call, after this very thread had flagged it. */
  lemma OutcomeChangesSet(log: seq<Heap>, events: seq<Event>, tid: nat, t: Thread) returns (m: nat)
    requires LogInv(log, events) && !t.op.Find? && Outcome(log, events, tid, t, true)
    ensures t.born <= m && m + 1 < |log|
    ensures if t.op.Insert_? then m == t.cas else t.cas < m && MarksNode(events[m], Deleted(events[t.cas].act))
    ensures t.op.Insert_? ==> t.op.key !in KeySet(log[m]) && KeySet(log[m + 1]) == KeySet(log[m]) + {t.op.key}
    ensures t.op.Delete? ==> t.op.key in KeySet(log[m]) && KeySet(log[m + 1]) == KeySet(log[m]) - {t.op.key}
  {
    if t.op.Insert_? {
      m := t.cas;
    } else {
      var d := Deleted(events[t.cas].act);
      m :| t.cas < m < |events| && events[m].act.Mark? && events[m].act.del == d;
      assert Legal(log[t.cas], events[t.cas].act);
      EvolvesLater(log, events, t.cas, m, d);
    }
    assert Legal(log[m], events[m].act);
    assert HeapInv(log[m]);
    ActRefinesSet(log[m], events[m].act);
  }

  /** Two calls that succeed in deleting delete different nodes. */
  lemma WinnersDiffer(log: seq<Heap>, events: seq<Event>, i: nat, j: nat, t: Thread, u: Thread)
    requires LogInv(log, events)
    requires t.op.Delete? && Outcome(log, events, i, t, true) && u.op.Delete? && Outcome(log, events, j, u, true)
    requires Deleted(events[t.cas].act) == Deleted(events[u.cas].act)
    ensures i == j && t.cas == u.cas
  {
    FlaggedOnce(log, events, t.cas, u.cas, Deleted(events[t.cas].act));
  }

  /** `search_from` returns a pair that straddles its key and was, at some moment since the node it
      started from was seen in the list, an unmarked node linked directly to its successor. */
  lemma SearchReturns(c: Config, m: Move) returns (curr: Id, next: Id)
    requires Sound(c) && ThreadsHist(c) && Enabled(c, m)
    requires Searching(c.threads[m.tid].pc) && !Searching(Step(c, m).threads[m.tid].pc)
    ensures var t := c.threads[m.tid];
            && Step(c, m).threads[m.tid] == Found(Now(c), t, curr, next)
            && curr in Now(c) && next in Now(c) && Now(c)[curr].key <= t.skey < Now(c)[next].key
            && Joined(c.log, t.base, curr, next)
  {
    var h, t := Now(c), c.threads[m.tid];
    assert ThreadInv(h, t) && Hist(c.log, c.events, m.tid, t);
    curr := t.pc.curr;
    next := if t.pc.LoadNext? then h[curr].succ.node else if HasNext(t.pc) then t.pc.next else curr;
    assert NodeInv(h, curr) && NodeInv(h, TAIL);
    JoinedNow(c.log, c.events, t.base, curr);
  }
}
