/** The work-stealing thread pool: any number of workers and of outside submitters, with the mutex and
    every queue operation, counter update and condition-variable step of their critical sections. */
module ThreadPool {

  /** A submission, named by the ticket `thrdpool_add` draws for it. */
  type Job = nat

  const MAX_JOBS := 32

  /** A bounded queue of jobs with its history: all it ever took in and all it ever gave out. */
  datatype Queue = Queue(items: seq<Job>, put: seq<Job>, got: seq<Job>)

  datatype Pc =
    // worker
    | WantLock           // 185
    | Seek               // 158
    | PopOwn             // 159
    | Steal(i: nat)      // 143-146
    | Uncount            // 160, a local job in hand
    | PopGlobal          // 164
    | Wait               // 187
    | Blocked            // asleep in pthread_cond_wait
    | Woken              // wants the mutex back to return from it
    | Leave              // 189, a job in hand
    | Run                // 196
    // thrdpool_add
    | Out                // outside the pool
    | AddLock(j: Job)    // 311
    | AddPush(j: Job)    // 313, 318
    | AddCount(j: Job)   // 315
    | Broadcast(j: Job, ok: bool)  // 320
    | AddUnlock(j: Job, ok: bool)  // 321

  /** A thread and the job it holds, if any. */
  datatype Thread = Thread(pc: Pc, hand: seq<Job>)

  /** Where a submission that was accepted is now; a record that no step reads. */
  datatype Place = Queued(q: nat) | Held(tid: nat) | Finished

  /** Where a queue took a submission in: the `i`th job that queue `q` ever accepted. */
  datatype Entry = Entry(q: nat, i: nat)

  datatype Record = Record(place: map<Job, Place>, entry: map<Job, Entry>)

  const FREE := -1

  /** Threads below `workers` are the workers, the others submit from outside. Queue `i` is the local
      queue of worker `i`; queue `workers` is the global one. */
  datatype State = State(workers: nat, owner: int, queues: seq<Queue>, numLocal: int, threads: map<nat, Thread>,
                         next: Job, record: Record)

  function Push(q: Queue, j: Job): Queue {
    q.(items := q.items + [j], put := q.put + [j])
  }

  function Pop(q: Queue): Queue
    requires q.items != []
  {
    q.(items := q.items[1..], got := q.got + [q.items[0]])
  }

  function Goto(s: State, t: nat, pc: Pc): State
    requires t in s.threads
  {
    s.(threads := s.threads[t := s.threads[t].(pc := pc)])
  }

  /** A successful `queue_dequeue` from queue `q` into the hand of thread `t`. */
  function Take(s: State, t: nat, q: nat, pc: Pc): State
    requires t in s.threads && q < |s.queues| && s.queues[q].items != []
  {
    var j := s.queues[q].items[0];
    s.(queues := s.queues[q := Pop(s.queues[q])], threads := s.threads[t := Thread(pc, [j])],
       record := s.record.(place := s.record.place[j := Held(t)]))
  }

  function Accept(s: State, t: nat, q: nat, j: Job, pc: Pc): State
    requires t in s.threads && q < |s.queues|
  {
    s.(queues := s.queues[q := Push(s.queues[q], j)], threads := s.threads[t := s.threads[t].(pc := pc)],
       record := Record(s.record.place[j := Queued(q)], s.record.entry[j := Entry(q, |s.queues[q].put|)]))
  }

  function Wake(th: Thread): Thread {
    if th.pc.Blocked? then th.(pc := Woken) else th
  }

  function WakeAll(threads: map<nat, Thread>): map<nat, Thread> {
    map t | t in threads :: Wake(threads[t])
  }

  predicate Enabled(s: State, t: nat) {
    && t in s.threads && |s.queues| == s.workers + 1
    && var pc := s.threads[t].pc;
       (pc.WantLock? || pc.Woken? || pc.AddLock? ==> s.owner == FREE)
  }

  function StepWorker(s: State, t: nat): State
    requires Enabled(s, t)
  {
    var th := s.threads[t];
    match th.pc
    case WantLock => Goto(s, t, Seek).(owner := t)
    case Woken => Goto(s, t, Seek).(owner := t)
    case Seek => Goto(s, t, if s.numLocal > 0 then PopOwn else PopGlobal)
    case PopOwn =>
      if t < s.workers && s.queues[t].items != [] then Take(s, t, t, Uncount) else Goto(s, t, Steal(0))
    case Steal(i) =>
      if i >= s.workers then Goto(s, t, PopGlobal)
      else if i != t && s.queues[i].items != [] then Take(s, t, i, Uncount)
      else Goto(s, t, Steal(i + 1))
    case Uncount => Goto(s, t, Leave).(numLocal := s.numLocal - 1)
    case PopGlobal =>
      if s.queues[s.workers].items != [] then Take(s, t, s.workers, Leave) else Goto(s, t, Wait)
    case Wait => Goto(s, t, Blocked).(owner := FREE)
    case Blocked => Goto(s, t, Woken)
    case Leave => Goto(s, t, Run).(owner := FREE)
    case _ => s
  }

  /** `submit` says whether a running job, or an outside thread, submits now; else the job returns. */
  function StepAdd(s: State, t: nat, submit: bool): State
    requires Enabled(s, t)
  {
    var th := s.threads[t];
    match th.pc
    case Run =>
      if submit then Goto(s, t, AddLock(s.next)).(next := s.next + 1)
      else if th.hand != [] then
        s.(threads := s.threads[t := Thread(WantLock, [])], record := s.record.(place := s.record.place[th.hand[0] := Finished]))
      else s
    case Out => if submit then Goto(s, t, AddLock(s.next)).(next := s.next + 1) else s
    case AddLock(j) => Goto(s, t, AddPush(j)).(owner := t)
    case AddPush(j) =>
      var q := if t < s.workers then t else s.workers;
      if |s.queues[q].items| >= MAX_JOBS then Goto(s, t, Broadcast(j, false))
      else Accept(s, t, q, j, if t < s.workers then AddCount(j) else Broadcast(j, true))
    case AddCount(j) => Goto(s, t, Broadcast(j, true)).(numLocal := s.numLocal + 1)
    case Broadcast(j, ok) => s.(threads := WakeAll(s.threads[t := th.(pc := AddUnlock(j, ok))]))
    case AddUnlock(j, ok) => Goto(s, t, if t < s.workers then Run else Out).(owner := FREE)
    case _ => s
  }

  predicate Seeking(pc: Pc) {
    pc.WantLock? || pc.Woken? || pc.Seek? || pc.PopOwn? || pc.Steal? || pc.Uncount? || pc.PopGlobal? ||
    pc.Wait? || pc.Blocked? || pc.Leave?
  }

  function Step(s: State, t: nat, submit: bool): State
    requires Enabled(s, t)
  {
    if Seeking(s.threads[t].pc) then StepWorker(s, t) else StepAdd(s, t, submit)
  }

  // ---- Invariants ----

  predicate InCritical(pc: Pc) {
    pc.Seek? || pc.PopOwn? || pc.Steal? || pc.Uncount? || pc.PopGlobal? || pc.Wait? || pc.Leave? ||
    pc.AddPush? || pc.AddCount? || pc.Broadcast? || pc.AddUnlock?
  }

  /** Jobs waiting in the first `n` queues. */
  function Waiting(queues: seq<Queue>, n: nat): nat
    requires n <= |queues|
  {
    if n == 0 then 0 else Waiting(queues, n - 1) + |queues[n - 1].items|
  }

  /** How far the shared counter is ahead of the local queues while its owner is mid-way. */
  function Ahead(s: State): int {
    if s.owner in s.threads.Keys then
      var pc := s.threads[s.owner].pc;
      if pc.Uncount? then 1 else if pc.AddCount? then -1 else 0
    else 0
  }

  /** What a thread's program point tells of the pool. */
  predicate Knows(s: State, t: nat)
    requires t in s.threads && |s.queues| == s.workers + 1
  {
    var pc := s.threads[t].pc;
    && (InCritical(pc) <==> s.owner == t)
    && (Seeking(pc) || pc.Run? || pc.AddCount? ==> t < s.workers)
    && (pc.Out? ==> t >= s.workers)
    && (pc.Steal? ==> pc.i <= s.workers && Waiting(s.queues, pc.i) == 0 && s.queues[t].items == [])
    && (pc.PopGlobal? ==> Waiting(s.queues, s.workers) == 0)
    && (pc.Wait? ==> Waiting(s.queues, s.workers + 1) == 0)
  }

  /** The mutex, what threads know, and the shared counter, which is exact but for the update its
      owner is in the middle of. */
  ghost predicate CoreInv(s: State) {
    && |s.queues| == s.workers + 1
    && (s.owner == FREE || (s.owner >= 0 && s.owner in s.threads))
    && (forall t {:trigger Knows(s, t)} :: t in s.threads ==> Knows(s, t))
    && s.numLocal == Waiting(s.queues, s.workers) + Ahead(s)
  }

  /** A push that has not been broadcast yet. */
  predicate Announcing(s: State) {
    s.owner in s.threads.Keys && (s.threads[s.owner].pc.AddCount? || s.threads[s.owner].pc.Broadcast?)
  }

  predicate Asleep(s: State, t: nat) {
    t in s.threads && s.threads[t].pc.Blocked?
  }

  /** No worker sleeps while a job waits, but for the moment between a push and its broadcast. */
  ghost predicate WakeInv(s: State)
    requires |s.queues| == s.workers + 1
  {
    forall t :: Asleep(s, t) ==> Waiting(s.queues, s.workers + 1) == 0 || Announcing(s)
  }

  lemma {:induction false} WaitingUpdate(queues: seq<Queue>, q: nat, x: Queue, n: nat)
    requires q < |queues| && n <= |queues|
    ensures Waiting(queues[q := x], n) == Waiting(queues, n) + if q < n then |x.items| - |queues[q].items| else 0
  {
    if n > 0 {
      WaitingUpdate(queues, q, x, n - 1);
    }
  }

  lemma {:induction false} WaitingZero(queues: seq<Queue>, n: nat)
    requires n <= |queues|
    ensures Waiting(queues, n) == 0 <==> forall i :: 0 <= i < n ==> queues[i].items == []
  {
    if n > 0 {
      WaitingZero(queues, n - 1);
    }
  }

  lemma GotoCore(s: State, t: nat, pc: Pc, owner: int, numLocal: int, next: Job)
    requires CoreInv(s) && t in s.threads
    requires s.owner == t || s.owner == FREE || owner == s.owner
    requires owner == FREE || owner == t || owner == s.owner
    requires var s' := Goto(s, t, pc).(owner := owner, numLocal := numLocal, next := next);
             Knows(s', t) && numLocal == Waiting(s.queues, s.workers) + Ahead(s')
    ensures CoreInv(Goto(s, t, pc).(owner := owner, numLocal := numLocal, next := next))
  {
    var s' := Goto(s, t, pc).(owner := owner, numLocal := numLocal, next := next);
    forall u | u in s'.threads
      ensures Knows(s', u)
    {
      assert Knows(s, u);
    }
  }

  lemma TakeCore(s: State, t: nat, q: nat, pc: Pc)
    requires CoreInv(s) && t in s.threads && s.owner == t && t < s.workers
    requires q < |s.queues| && s.queues[q].items != []
    requires (pc.Uncount? && q < s.workers && Ahead(s) == 0) || (pc.Leave? && q == s.workers && Ahead(s) == 0)
    ensures CoreInv(Take(s, t, q, pc))
  {
    var s' := Take(s, t, q, pc);
    WaitingUpdate(s.queues, q, Pop(s.queues[q]), s.workers);
    forall u | u in s'.threads
      ensures Knows(s', u)
    {
      assert Knows(s, u);
    }
  }

  lemma AcceptCore(s: State, t: nat, q: nat, j: Job, pc: Pc)
    requires CoreInv(s) && t in s.threads && s.owner == t && q < |s.queues| && Ahead(s) == 0
    requires if t < s.workers then q == t && pc == AddCount(j) else q == s.workers && pc == Broadcast(j, true)
    ensures CoreInv(Accept(s, t, q, j, pc))
  {
    var s' := Accept(s, t, q, j, pc);
    WaitingUpdate(s.queues, q, Push(s.queues[q], j), s.workers);
    forall u | u in s'.threads
      ensures Knows(s', u)
    {
      assert Knows(s, u);
    }
  }

  lemma SearchCore(s: State, t: nat)
    requires CoreInv(s) && Enabled(s, t)
    requires s.threads[t].pc.PopOwn? || s.threads[t].pc.Steal? || s.threads[t].pc.PopGlobal?
    ensures CoreInv(StepWorker(s, t))
  {
    assert Knows(s, t);
    var pc := s.threads[t].pc;
    var s' := StepWorker(s, t);
    if pc.PopOwn? && s.queues[t].items != [] {
      TakeCore(s, t, t, Uncount);
    } else if pc.Steal? && pc.i < s.workers && pc.i != t && s.queues[pc.i].items != [] {
      TakeCore(s, t, pc.i, Uncount);
    } else if pc.PopGlobal? && s.queues[s.workers].items != [] {
      TakeCore(s, t, s.workers, Leave);
    } else {
      GotoCore(s, t, s'.threads[t].pc, s.owner, s.numLocal, s.next);
    }
  }

  lemma StepWorkerCore(s: State, t: nat)
    requires CoreInv(s) && Enabled(s, t) && Seeking(s.threads[t].pc)
    ensures CoreInv(StepWorker(s, t))
  {
    assert Knows(s, t);
    var pc := s.threads[t].pc;
    if pc.PopOwn? || pc.Steal? || pc.PopGlobal? {
      SearchCore(s, t);
    } else {
      var s' := StepWorker(s, t);
      GotoCore(s, t, s'.threads[t].pc, s'.owner, s'.numLocal, s.next);
    }
  }

  lemma PushCore(s: State, t: nat, submit: bool)
    requires CoreInv(s) && Enabled(s, t) && s.threads[t].pc.AddPush?
    ensures CoreInv(StepAdd(s, t, submit))
  {
    assert Knows(s, t);
    var pc := s.threads[t].pc;
    var q := if t < s.workers then t else s.workers;
    if |s.queues[q].items| >= MAX_JOBS {
      GotoCore(s, t, Broadcast(pc.j, false), s.owner, s.numLocal, s.next);
    } else {
      AcceptCore(s, t, q, pc.j, if t < s.workers then AddCount(pc.j) else Broadcast(pc.j, true));
    }
  }

  lemma WakeCore(s: State, t: nat, submit: bool)
    requires CoreInv(s) && Enabled(s, t) && (s.threads[t].pc.Broadcast? || (s.threads[t].pc.Run? && !submit))
    ensures CoreInv(StepAdd(s, t, submit))
  {
    assert Knows(s, t);
    ThreadsCore(s, t, StepAdd(s, t, submit));
  }

  lemma EnterLeaveCore(s: State, t: nat, submit: bool)
    requires CoreInv(s) && Enabled(s, t) && (s.threads[t].pc.AddLock? || s.threads[t].pc.AddUnlock? || s.threads[t].pc.AddCount?)
    ensures CoreInv(StepAdd(s, t, submit))
  {
    assert Knows(s, t);
    var s' := StepAdd(s, t, submit);
    GotoCore(s, t, s'.threads[t].pc, s'.owner, s'.numLocal, s'.next);
  }

  lemma StepAddCore(s: State, t: nat, submit: bool)
    requires CoreInv(s) && Enabled(s, t) && !Seeking(s.threads[t].pc)
    ensures CoreInv(StepAdd(s, t, submit))
  {
    var pc := s.threads[t].pc;
    if pc.AddPush? {
      PushCore(s, t, submit);
    } else if pc.Broadcast? || (pc.Run? && !submit) {
      WakeCore(s, t, submit);
    } else if pc.AddLock? || pc.AddUnlock? || pc.AddCount? {
      EnterLeaveCore(s, t, submit);
    } else {
      assert Knows(s, t);
      GotoCore(s, t, if submit then AddLock(s.next) else pc, s.owner, s.numLocal, StepAdd(s, t, submit).next);
    }
  }

  /** Steps that change threads but neither the mutex, the queues nor the counter. */
  lemma ThreadsCore(s: State, t: nat, s': State)
    requires CoreInv(s) && t in s.threads && s'.threads.Keys == s.threads.Keys
    requires s'.workers == s.workers && s'.owner == s.owner && s'.queues == s.queues && s'.numLocal == s.numLocal
    requires Ahead(s') == Ahead(s) && Knows(s', t)
    requires forall u :: u in s.threads && u != t ==>
               s'.threads[u].pc == s.threads[u].pc || s'.threads[u].pc == Wake(s.threads[u]).pc
    ensures CoreInv(s')
  {
    forall u | u in s'.threads
      ensures Knows(s', u)
    {
      assert Knows(s, u);
    }
  }

  lemma StepCore(s: State, t: nat, submit: bool)
    requires CoreInv(s) && Enabled(s, t)
    ensures CoreInv(Step(s, t, submit))
  {
    if Seeking(s.threads[t].pc) {
      StepWorkerCore(s, t);
    } else {
      StepAddCore(s, t, submit);
    }
  }

  // ---- No lost wakeup ----

  lemma StepWake(s: State, t: nat, submit: bool)
    requires CoreInv(s) && WakeInv(s) && Enabled(s, t)
    ensures |Step(s, t, submit).queues| == s.workers + 1 && WakeInv(Step(s, t, submit))
  {
    assert Knows(s, t);
    var s' := Step(s, t, submit);
    forall u | Asleep(s', u)
      ensures Waiting(s'.queues, s.workers + 1) == 0 || Announcing(s')
    {
      assert u != t ==> Asleep(s, u);
      StepQuiet(s, t, submit);
    }
  }

  /** A step that ends with nothing announced either leaves the queues no fuller, or woke everyone. */
  lemma StepQuiet(s: State, t: nat, submit: bool)
    requires CoreInv(s) && Enabled(s, t)
    ensures var s' := Step(s, t, submit);
            && |s'.queues| == s.workers + 1
            && (Announcing(s') || s.threads[t].pc.Broadcast? || !Announcing(s))
            && (Announcing(s') || Waiting(s'.queues, s.workers + 1) <= Waiting(s.queues, s.workers + 1))
  {
    assert Knows(s, t);
    var s' := Step(s, t, submit);
    if s'.queues != s.queues {
      var q :| 0 <= q < |s.queues| && s'.queues == s.queues[q := s'.queues[q]];
      WaitingUpdate(s.queues, q, s'.queues[q], s.workers + 1);
    }
  }

  // ---- Exactly-once dispatch ----

  /** What a queue took in is what it gave out followed by what it holds. */
  predicate QueueOk(s: State, q: nat)
    requires q < |s.queues|
  {
    s.queues[q].put == s.queues[q].got + s.queues[q].items && |s.queues[q].items| <= MAX_JOBS
  }

  /** No job is ever taken in twice, by this or another queue. */
  predicate PutOk(s: State, q: nat, i: nat)
    requires q < |s.queues| && i < |s.queues[q].put|
  {
    var j := s.queues[q].put[i];
    j in s.record.entry && s.record.entry[j] == Entry(q, i)
  }

  predicate EntryOk(s: State, j: Job)
    requires j in s.record.entry
  {
    var e := s.record.entry[j];
    j in s.record.place && e.q < |s.queues| && e.i < |s.queues[e.q].put| && s.queues[e.q].put[e.i] == j
  }

  predicate ItemOk(s: State, q: nat, i: nat)
    requires q < |s.queues| && i < |s.queues[q].items|
  {
    var j := s.queues[q].items[i];
    j in s.record.place && s.record.place[j] == Queued(q)
  }

  predicate ItemsApart(s: State, q: nat, i: nat, k: nat)
    requires q < |s.queues| && i < |s.queues[q].items| && k < |s.queues[q].items|
  {
    s.queues[q].items[i] == s.queues[q].items[k] ==> i == k
  }

  /** Whether a thread at this point holds a job. */
  predicate Holding(s: State, t: nat, pc: Pc) {
    pc.Uncount? || pc.Leave? || pc.Run? || (t < s.workers && !Seeking(pc))
  }

  predicate HandOk(s: State, t: nat)
    requires t in s.threads
  {
    var th := s.threads[t];
    && |th.hand| == (if Holding(s, t, th.pc) then 1 else 0)
    && (th.hand != [] ==> th.hand[0] in s.record.place && s.record.place[th.hand[0]] == Held(t))
  }

  predicate PlaceOk(s: State, j: Job)
    requires j in s.record.place
  {
    && j < s.next && j in s.record.entry
    && match s.record.place[j]
       case Queued(q) => q < |s.queues| && j in s.queues[q].items
       case Held(t) => t in s.threads && s.threads[t].hand == [j]
       case Finished => true
  }

  /** The ticket of a submission under way is drawn but not yet accepted, and no one else's. */
  predicate Pending(pc: Pc) {
    pc.AddLock? || pc.AddPush? || (pc.Broadcast? && !pc.ok) || (pc.AddUnlock? && !pc.ok)
  }

  /** `thrdpool_add` is about to answer 0. */
  predicate Accepted(pc: Pc) {
    pc.AddCount? || (pc.Broadcast? && pc.ok) || (pc.AddUnlock? && pc.ok)
  }

  predicate TicketOk(s: State, t: nat)
    requires t in s.threads
  {
    && (Pending(s.threads[t].pc) ==> s.threads[t].pc.j < s.next && s.threads[t].pc.j !in s.record.place)
    && (Accepted(s.threads[t].pc) ==> s.threads[t].pc.j in s.record.place)
  }

  predicate TicketsApart(s: State, t: nat, u: nat)
    requires t in s.threads && u in s.threads
  {
    t != u && Pending(s.threads[t].pc) && Pending(s.threads[u].pc) ==> s.threads[t].pc.j != s.threads[u].pc.j
  }

  ghost predicate JobInv(s: State) {
    && (forall q {:trigger QueueOk(s, q)} :: 0 <= q < |s.queues| ==> QueueOk(s, q))
    && (forall q, i {:trigger PutOk(s, q, i)} :: 0 <= q < |s.queues| && 0 <= i < |s.queues[q].put| ==> PutOk(s, q, i))
    && (forall j {:trigger EntryOk(s, j)} :: j in s.record.entry ==> EntryOk(s, j))
    && (forall q, i {:trigger ItemOk(s, q, i)} :: 0 <= q < |s.queues| && 0 <= i < |s.queues[q].items| ==> ItemOk(s, q, i))
    && (forall q, i, k {:trigger ItemsApart(s, q, i, k)} ::
          0 <= q < |s.queues| && 0 <= i < |s.queues[q].items| && 0 <= k < |s.queues[q].items| ==> ItemsApart(s, q, i, k))
    && (forall t {:trigger HandOk(s, t)} :: t in s.threads ==> HandOk(s, t))
    && (forall j {:trigger PlaceOk(s, j)} :: j in s.record.place ==> PlaceOk(s, j))
    && (forall t {:trigger TicketOk(s, t)} :: t in s.threads ==> TicketOk(s, t))
    && (forall t, u {:trigger TicketsApart(s, t, u)} :: t in s.threads && u in s.threads ==> TicketsApart(s, t, u))
  }

  /** A step that moves no job: one thread changes its program point, and perhaps draws the next
      ticket; sleepers may be woken. */
  ghost predicate MovesNone(s: State, s': State, t: nat) {
    && s'.queues == s.queues && s'.record == s.record && s'.workers == s.workers
    && s'.threads.Keys == s.threads.Keys && t in s.threads && s.next <= s'.next
    && (forall u :: u in s.threads && u != t ==> s'.threads[u] == s.threads[u] || s'.threads[u] == Wake(s.threads[u]))
    && s'.threads[t].hand == s.threads[t].hand
    && var pc, pc' := s.threads[t].pc, s'.threads[t].pc;
       && (Holding(s, t, pc') <==> Holding(s, t, pc))
       && (Pending(pc') ==> if Pending(pc) then pc'.j == pc.j else pc'.j == s.next < s'.next)
       && (Accepted(pc') ==> Accepted(pc) && pc'.j == pc.j)
  }

  lemma SameItems(s: State, s': State)
    requires JobInv(s) && s'.queues == s.queues && s'.record == s.record
    ensures forall q :: 0 <= q < |s'.queues| ==> QueueOk(s', q)
    ensures forall q, i :: 0 <= q < |s'.queues| && 0 <= i < |s'.queues[q].put| ==> PutOk(s', q, i)
    ensures forall l :: l in s'.record.entry ==> EntryOk(s', l)
    ensures forall q, i :: 0 <= q < |s'.queues| && 0 <= i < |s'.queues[q].items| ==> ItemOk(s', q, i)
    ensures forall q, i, k :: 0 <= q < |s'.queues| && 0 <= i < |s'.queues[q].items| && 0 <= k < |s'.queues[q].items| ==>
              ItemsApart(s', q, i, k)
  {
    forall q | 0 <= q < |s'.queues|
      ensures QueueOk(s', q)
    {
      assert QueueOk(s, q);
    }
    forall q, i | 0 <= q < |s'.queues| && 0 <= i < |s'.queues[q].put|
      ensures PutOk(s', q, i)
    {
      assert PutOk(s, q, i);
    }
    forall l | l in s'.record.entry
      ensures EntryOk(s', l)
    {
      assert EntryOk(s, l);
    }
    forall q, i | 0 <= q < |s'.queues| && 0 <= i < |s'.queues[q].items|
      ensures ItemOk(s', q, i)
    {
      assert ItemOk(s, q, i);
    }
    forall q, i, k | 0 <= q < |s'.queues| && 0 <= i < |s'.queues[q].items| && 0 <= k < |s'.queues[q].items|
      ensures ItemsApart(s', q, i, k)
    {
      assert ItemsApart(s, q, i, k);
    }
  }

  lemma SameTickets(s: State, s': State, t: nat)
    requires JobInv(s) && MovesNone(s, s', t)
    ensures forall u, v :: u in s'.threads && v in s'.threads ==> TicketsApart(s', u, v)
  {
    forall u, v | u in s'.threads && v in s'.threads
      ensures TicketsApart(s', u, v)
    {
      assert TicketsApart(s, u, v) && TicketOk(s, u) && TicketOk(s, v);
    }
  }

  lemma MoveJobs(s: State, s': State, t: nat)
    requires JobInv(s) && MovesNone(s, s', t)
    ensures JobInv(s')
  {
    SameItems(s, s');
    forall u | u in s'.threads
      ensures HandOk(s', u) && TicketOk(s', u)
    {
      assert HandOk(s, u) && TicketOk(s, u);
      assert s.next in s.record.place ==> PlaceOk(s, s.next);
    }
    forall j | j in s'.record.place
      ensures PlaceOk(s', j)
    {
      assert PlaceOk(s, j);
    }
    SameTickets(s, s', t);
  }

  lemma TakePuts(s: State, t: nat, q: nat, pc: Pc)
    requires JobInv(s) && t in s.threads && q < |s.queues| && s.queues[q].items != []
    ensures var s' := Take(s, t, q, pc);
            && (forall p :: 0 <= p < |s'.queues| ==> QueueOk(s', p))
            && (forall p, i :: 0 <= p < |s'.queues| && 0 <= i < |s'.queues[p].put| ==> PutOk(s', p, i))
            && (forall l :: l in s'.record.entry ==> EntryOk(s', l))
  {
    var s' := Take(s, t, q, pc);
    var j := s.queues[q].items[0];
    forall p | 0 <= p < |s'.queues|
      ensures QueueOk(s', p)
    {
      assert QueueOk(s, p);
      assert s.queues[q].items == [j] + s.queues[q].items[1..];
    }
    forall p, i | 0 <= p < |s'.queues| && 0 <= i < |s'.queues[p].put|
      ensures PutOk(s', p, i)
    {
      assert PutOk(s, p, i);
    }
    forall l | l in s'.record.entry
      ensures EntryOk(s', l)
    {
      assert EntryOk(s, l);
    }
  }

  lemma TakeJobs(s: State, t: nat, q: nat, pc: Pc)
    requires JobInv(s) && t in s.threads && q < |s.queues| && s.queues[q].items != []
    requires s.threads[t].hand == [] && Holding(s, t, pc) && !Pending(pc) && !Accepted(pc)
    ensures JobInv(Take(s, t, q, pc))
  {
    var s' := Take(s, t, q, pc);
    var j := s.queues[q].items[0];
    assert ItemOk(s, q, 0) && PlaceOk(s, j);
    TakePuts(s, t, q, pc);
    forall p, i | 0 <= p < |s'.queues| && 0 <= i < |s'.queues[p].items|
      ensures ItemOk(s', p, i)
    {
      assert ItemOk(s, p, if p == q then i + 1 else i);
      assert p == q ==> ItemsApart(s, q, 0, i + 1);
    }
    forall p, i, k | 0 <= p < |s'.queues| && 0 <= i < |s'.queues[p].items| && 0 <= k < |s'.queues[p].items|
      ensures ItemsApart(s', p, i, k)
    {
      assert ItemsApart(s, p, if p == q then i + 1 else i, if p == q then k + 1 else k);
    }
    forall u | u in s'.threads
      ensures HandOk(s', u) && TicketOk(s', u)
    {
      assert HandOk(s, u) && TicketOk(s, u);
    }
    forall l | l in s'.record.place
      ensures PlaceOk(s', l)
    {
      assert PlaceOk(s, l);
      if l != j && s.record.place[l] == Queued(q) {
        var i: nat :| i < |s.queues[q].items| && s.queues[q].items[i] == l;
        assert s'.queues[q].items[i - 1] == l;
      }
    }
    forall u, v | u in s'.threads && v in s'.threads
      ensures TicketsApart(s', u, v)
    {
      assert TicketsApart(s, u, v);
    }
  }

  lemma AcceptPuts(s: State, t: nat, q: nat, j: Job, pc: Pc)
    requires JobInv(s) && t in s.threads && q < |s.queues| && |s.queues[q].items| < MAX_JOBS && j !in s.record.place
    ensures var s' := Accept(s, t, q, j, pc);
            && (forall p :: 0 <= p < |s'.queues| ==> QueueOk(s', p))
            && (forall p, i :: 0 <= p < |s'.queues| && 0 <= i < |s'.queues[p].put| ==> PutOk(s', p, i))
            && (forall l :: l in s'.record.entry ==> EntryOk(s', l))
  {
    var s' := Accept(s, t, q, j, pc);
    assert j in s.record.entry ==> EntryOk(s, j);
    forall p | 0 <= p < |s'.queues|
      ensures QueueOk(s', p)
    {
      assert QueueOk(s, p);
    }
    forall p, i | 0 <= p < |s'.queues| && 0 <= i < |s'.queues[p].put|
      ensures PutOk(s', p, i)
    {
      assert i < |s.queues[p].put| ==> PutOk(s, p, i);
    }
    forall l | l in s'.record.entry
      ensures EntryOk(s', l)
    {
      assert l != j ==> EntryOk(s, l);
    }
  }

  lemma AcceptJobs(s: State, t: nat, q: nat, j: Job, pc: Pc)
    requires JobInv(s) && t in s.threads && q < |s.queues| && |s.queues[q].items| < MAX_JOBS
    requires s.threads[t].pc == AddPush(j) && Accepted(pc) && pc.j == j && (Holding(s, t, pc) <==> Holding(s, t, s.threads[t].pc))
    ensures JobInv(Accept(s, t, q, j, pc))
  {
    var s' := Accept(s, t, q, j, pc);
    assert TicketOk(s, t);
    AcceptPuts(s, t, q, j, pc);
    forall p, i | 0 <= p < |s'.queues| && 0 <= i < |s'.queues[p].items|
      ensures ItemOk(s', p, i)
    {
      assert i < |s.queues[p].items| ==> ItemOk(s, p, i);
    }
    forall p, i, k | 0 <= p < |s'.queues| && 0 <= i < |s'.queues[p].items| && 0 <= k < |s'.queues[p].items|
      ensures ItemsApart(s', p, i, k)
    {
      if i < |s.queues[p].items| && k < |s.queues[p].items| {
        assert ItemsApart(s, p, i, k);
      } else if i < |s.queues[p].items| {
        assert ItemOk(s, p, i);
      } else if k < |s.queues[p].items| {
        assert ItemOk(s, p, k);
      }
    }
    forall u | u in s'.threads
      ensures HandOk(s', u) && TicketOk(s', u)
    {
      assert HandOk(s, u) && TicketOk(s, u) && TicketsApart(s, t, u);
    }
    forall l | l in s'.record.place
      ensures PlaceOk(s', l)
    {
      assert l != j ==> PlaceOk(s, l);
      assert s'.queues[q].items[|s.queues[q].items|] == j;
    }
    forall u, v | u in s'.threads && v in s'.threads
      ensures TicketsApart(s', u, v)
    {
      assert TicketsApart(s, u, v);
    }
  }

  lemma FinishJobs(s: State, t: nat)
    requires JobInv(s) && t in s.threads && s.threads[t].pc.Run? && s.threads[t].hand != []
    ensures JobInv(s.(threads := s.threads[t := Thread(WantLock, [])],
                      record := s.record.(place := s.record.place[s.threads[t].hand[0] := Finished])))
  {
    var j := s.threads[t].hand[0];
    var s' := s.(threads := s.threads[t := Thread(WantLock, [])], record := s.record.(place := s.record.place[j := Finished]));
    assert HandOk(s, t) && PlaceOk(s, j);
    forall q | 0 <= q < |s'.queues|
      ensures QueueOk(s', q)
    {
      assert QueueOk(s, q);
    }
    forall q, i | 0 <= q < |s'.queues| && 0 <= i < |s'.queues[q].put|
      ensures PutOk(s', q, i)
    {
      assert PutOk(s, q, i);
    }
    forall l | l in s'.record.entry
      ensures EntryOk(s', l)
    {
      assert EntryOk(s, l);
    }
    forall q, i | 0 <= q < |s'.queues| && 0 <= i < |s'.queues[q].items|
      ensures ItemOk(s', q, i)
    {
      assert ItemOk(s, q, i);
    }
    forall q, i, k | 0 <= q < |s'.queues| && 0 <= i < |s'.queues[q].items| && 0 <= k < |s'.queues[q].items|
      ensures ItemsApart(s', q, i, k)
    {
      assert ItemsApart(s, q, i, k);
    }
    forall u | u in s'.threads
      ensures HandOk(s', u) && TicketOk(s', u)
    {
      assert HandOk(s, u) && TicketOk(s, u);
    }
    forall l | l in s'.record.place
      ensures PlaceOk(s', l)
    {
      assert PlaceOk(s, l);
    }
    forall u, v | u in s'.threads && v in s'.threads
      ensures TicketsApart(s', u, v)
    {
      assert TicketsApart(s, u, v);
    }
  }

  lemma SeekMovesNone(s: State, t: nat)
    requires Enabled(s, t) && Seeking(s.threads[t].pc) && t < s.workers
    requires StepWorker(s, t).queues == s.queues
    ensures MovesNone(s, StepWorker(s, t), t)
  {
    var pc' := StepWorker(s, t).threads[t].pc;
    assert StepWorker(s, t) == Goto(s, t, pc').(owner := StepWorker(s, t).owner, numLocal := StepWorker(s, t).numLocal);
  }

  lemma AddMovesNone(s: State, t: nat, submit: bool)
    requires Enabled(s, t) && !Seeking(s.threads[t].pc)
    requires (s.threads[t].pc.Run? || s.threads[t].pc.AddCount? ==> t < s.workers) && (s.threads[t].pc.Out? ==> t >= s.workers)
    requires StepAdd(s, t, submit).record == s.record && StepAdd(s, t, submit).queues == s.queues
    requires s.threads[t].pc.Run? && !submit ==> s.threads[t].hand == []
    ensures MovesNone(s, StepAdd(s, t, submit), t)
  {
  }

  lemma StepWorkerJobs(s: State, t: nat)
    requires Enabled(s, t) && Knows(s, t) && JobInv(s) && Seeking(s.threads[t].pc)
    ensures JobInv(StepWorker(s, t))
  {
    assert HandOk(s, t);
    var pc := s.threads[t].pc;
    if pc.PopOwn? && s.queues[t].items != [] {
      TakeJobs(s, t, t, Uncount);
    } else if pc.Steal? && pc.i < s.workers && pc.i != t && s.queues[pc.i].items != [] {
      TakeJobs(s, t, pc.i, Uncount);
    } else if pc.PopGlobal? && s.queues[s.workers].items != [] {
      TakeJobs(s, t, s.workers, Leave);
    } else {
      SeekMovesNone(s, t);
      MoveJobs(s, StepWorker(s, t), t);
    }
  }

  lemma StepAddJobs(s: State, t: nat, submit: bool)
    requires Enabled(s, t) && Knows(s, t) && JobInv(s) && !Seeking(s.threads[t].pc)
    ensures JobInv(StepAdd(s, t, submit))
  {
    assert HandOk(s, t);
    var pc := s.threads[t].pc;
    var q := if t < s.workers then t else s.workers;
    if pc.AddPush? && |s.queues[q].items| < MAX_JOBS {
      AcceptJobs(s, t, q, pc.j, if t < s.workers then AddCount(pc.j) else Broadcast(pc.j, true));
    } else if pc.Run? && !submit && s.threads[t].hand != [] {
      FinishJobs(s, t);
    } else {
      AddMovesNone(s, t, submit);
      MoveJobs(s, StepAdd(s, t, submit), t);
    }
  }

  // ---- Runs ----

  ghost predicate Inv(s: State) {
    CoreInv(s) && WakeInv(s) && JobInv(s)
  }

  /** The pool built by `thrdpool_create`: `workers` workers about to seek, everyone else outside. */
  ghost predicate Initial(s: State) {
    && s.queues == seq(s.workers + 1, _ => Queue([], [], []))
    && s.owner == FREE && s.numLocal == 0 && s.record == Record(map[], map[])
    && (forall t :: 0 <= t < s.workers ==> t in s.threads)
    && forall t :: t in s.threads ==> s.threads[t] == Thread(if t < s.workers then WantLock else Out, [])
  }

  /** A run: which thread moves at each step, and whether it submits where it may. */
  ghost predicate IsRun(ss: seq<State>, ms: seq<(nat, bool)>) {
    && |ss| == |ms| + 1 && Initial(ss[0])
    && forall i :: 0 <= i < |ms| ==> Enabled(ss[i], ms[i].0) && ss[i + 1] == Step(ss[i], ms[i].0, ms[i].1)
  }

  lemma InitialInv(s: State)
    requires Initial(s)
    ensures Inv(s)
  {
    WaitingZero(s.queues, s.workers);
    WaitingZero(s.queues, s.workers + 1);
  }

  lemma StepInv(s: State, t: nat, submit: bool)
    requires Inv(s) && Enabled(s, t)
    ensures Inv(Step(s, t, submit))
  {
    StepCore(s, t, submit);
    StepWake(s, t, submit);
    assert Knows(s, t);
    if Seeking(s.threads[t].pc) {
      StepWorkerJobs(s, t);
    } else {
      StepAddJobs(s, t, submit);
    }
  }

  lemma {:induction false} RunInv(ss: seq<State>, ms: seq<(nat, bool)>, n: nat)
    requires IsRun(ss, ms) && n < |ss|
    ensures Inv(ss[n])
  {
    if n == 0 {
      InitialInv(ss[0]);
    } else {
      RunInv(ss, ms, n - 1);
      assert Enabled(ss[n - 1], ms[n - 1].0) && ss[n] == Step(ss[n - 1], ms[n - 1].0, ms[n - 1].1);
      StepInv(ss[n - 1], ms[n - 1].0, ms[n - 1].1);
    }
  }

  /** In every run, whenever the mutex is free and a worker sleeps, no queue holds a job. */
  lemma NoLostWakeup(ss: seq<State>, ms: seq<(nat, bool)>, n: nat, t: nat)
    requires IsRun(ss, ms) && n < |ss| && ss[n].owner == FREE && Asleep(ss[n], t)
    ensures forall q :: 0 <= q < |ss[n].queues| ==> ss[n].queues[q].items == []
  {
    RunInv(ss, ms, n);
    WaitingZero(ss[n].queues, ss[n].workers + 1);
  }

  /** In every run, whenever the mutex is free the shared counter is the number of local jobs. */
  lemma CounterExact(ss: seq<State>, ms: seq<(nat, bool)>, n: nat)
    requires IsRun(ss, ms) && n < |ss| && ss[n].owner == FREE
    ensures |ss[n].queues| == ss[n].workers + 1
    ensures ss[n].numLocal == Waiting(ss[n].queues, ss[n].workers)
  {
    RunInv(ss, ms, n);
  }

  /** In every run, a search gives up only when every queue is empty, at most one thread is inside the
      critical section, and each queue has given out exactly what it took in less what it holds. */
  lemma SearchComplete(ss: seq<State>, ms: seq<(nat, bool)>, n: nat, t: nat)
    requires IsRun(ss, ms) && n < |ss| && t in ss[n].threads
    ensures ss[n].threads[t].pc.Wait? ==> forall q :: 0 <= q < |ss[n].queues| ==> ss[n].queues[q].items == []
    ensures InCritical(ss[n].threads[t].pc) <==> ss[n].owner == t
    ensures forall q :: 0 <= q < |ss[n].queues| ==>
              ss[n].queues[q].put == ss[n].queues[q].got + ss[n].queues[q].items
  {
    RunInv(ss, ms, n);
    assert Knows(ss[n], t);
    WaitingZero(ss[n].queues, ss[n].workers + 1);
    forall q | 0 <= q < |ss[n].queues|
      ensures ss[n].queues[q].put == ss[n].queues[q].got + ss[n].queues[q].items
    {
      assert QueueOk(ss[n], q);
    }
  }

  ghost predicate InQueue(s: State, j: Job, q: nat, i: nat) {
    q < |s.queues| && i < |s.queues[q].items| && s.queues[q].items[i] == j
  }

  ghost predicate InPut(s: State, j: Job, q: nat, i: nat) {
    q < |s.queues| && i < |s.queues[q].put| && s.queues[q].put[i] == j
  }

  ghost predicate InGot(s: State, j: Job, q: nat, i: nat) {
    q < |s.queues| && i < |s.queues[q].got| && s.queues[q].got[i] == j
  }

  ghost predicate InHand(s: State, j: Job, t: nat) {
    t in s.threads && s.threads[t].hand == [j]
  }

  /** In every run, every accepted job was taken in exactly once, by exactly one queue, and given out at
      most once; it has been given out exactly when it is held or finished. At any moment it is in
      exactly one position of exactly one queue, or in the hand of exactly one thread, or finished; a
      job never accepted is nowhere; and `thrdpool_add` answers 0 exactly for the jobs accepted. */
  lemma ExactlyOnce(ss: seq<State>, ms: seq<(nat, bool)>, n: nat, j: Job)
    requires IsRun(ss, ms) && n < |ss|
    ensures var s := ss[n];
            && (forall q, i, p, k :: InQueue(s, j, q, i) && InQueue(s, j, p, k) ==> q == p && i == k)
            && (forall t, u :: InHand(s, j, t) && InHand(s, j, u) ==> t == u)
            && (forall q, i, t :: !(InQueue(s, j, q, i) && InHand(s, j, t)))
            && (j in s.record.place ==>
                  match s.record.place[j]
                  case Queued(q) => exists i :: InQueue(s, j, q, i)
                  case Held(t) => InHand(s, j, t)
                  case Finished => (forall q, i :: !InQueue(s, j, q, i)) && (forall t :: !InHand(s, j, t)))
            && (j !in s.record.place ==> (forall q, i :: !InQueue(s, j, q, i)) && (forall t :: !InHand(s, j, t)))
    ensures var s := ss[n];
            && (forall q, i, p, k :: InPut(s, j, q, i) && InPut(s, j, p, k) ==> q == p && i == k)
            && (forall q, i, p, k :: InGot(s, j, q, i) && InGot(s, j, p, k) ==> q == p && i == k)
            && (j in s.record.place <==> exists q, i :: InPut(s, j, q, i))
            && (j in s.record.place && !s.record.place[j].Queued? <==> exists q, i :: InGot(s, j, q, i))
    ensures forall t :: t in ss[n].threads && ss[n].threads[t].pc.AddUnlock? && ss[n].threads[t].pc.j == j ==>
              (ss[n].threads[t].pc.ok <==> j in ss[n].record.place)
  {
    var s := ss[n];
    RunInv(ss, ms, n);
    PlacesAgree(s, j);
    EntriesAgree(s, j);
    forall t | t in s.threads && s.threads[t].pc.AddUnlock? && s.threads[t].pc.j == j
      ensures s.threads[t].pc.ok <==> j in s.record.place
    {
      assert TicketOk(s, t);
    }
  }

  lemma EntriesAgree(s: State, j: Job)
    requires JobInv(s)
    ensures forall q, i :: InPut(s, j, q, i) ==> j in s.record.entry && s.record.entry[j] == Entry(q, i)
    ensures forall q, i :: InGot(s, j, q, i) ==> InPut(s, j, q, i)
    ensures j in s.record.place <==> exists q, i :: InPut(s, j, q, i)
    ensures j in s.record.place && !s.record.place[j].Queued? <==> exists q, i :: InGot(s, j, q, i)
  {
    forall q, i | InPut(s, j, q, i)
      ensures j in s.record.entry && s.record.entry[j] == Entry(q, i)
    {
      assert PutOk(s, q, i);
    }
    forall q, i | InGot(s, j, q, i)
      ensures InPut(s, j, q, i)
    {
      assert QueueOk(s, q);
    }
    if j in s.record.place {
      assert PlaceOk(s, j) && EntryOk(s, j);
      var e := s.record.entry[j];
      assert InPut(s, j, e.q, e.i) && QueueOk(s, e.q);
      GivenOut(s, j, e.q, e.i);
      if q, i :| InGot(s, j, q, i) {
        assert InPut(s, j, q, i);
      }
    }
    assert j in s.record.entry ==> EntryOk(s, j);
  }

  /** What a queue took in as its `i`th job it has given out exactly if the job is no longer queued. */
  lemma GivenOut(s: State, j: Job, q: nat, i: nat)
    requires JobInv(s) && j in s.record.place && InPut(s, j, q, i)
    ensures i < |s.queues[q].got| <==> !s.record.place[j].Queued?
    ensures i < |s.queues[q].got| ==> InGot(s, j, q, i)
  {
    var g := |s.queues[q].got|;
    assert QueueOk(s, q) && PutOk(s, q, i) && PlaceOk(s, j);
    if i >= g {
      assert s.queues[q].items[i - g] == j && ItemOk(s, q, i - g);
    }
    if s.record.place[j].Queued? {
      QueuedEntry(s, j);
    }
  }

  lemma QueuedEntry(s: State, j: Job)
    requires JobInv(s) && j in s.record.place && s.record.place[j].Queued?
    ensures j in s.record.entry && s.record.entry[j].q == s.record.place[j].q < |s.queues|
    ensures s.record.entry[j].i >= |s.queues[s.record.place[j].q].got|
  {
    assert PlaceOk(s, j);
    var p := s.record.place[j].q;
    var k: nat :| k < |s.queues[p].items| && s.queues[p].items[k] == j;
    var l := |s.queues[p].got| + k;
    assert QueueOk(s, p) && s.queues[p].put[l] == j;
    assert PutOk(s, p, l);
  }

  lemma PlacesAgree(s: State, j: Job)
    requires JobInv(s)
    ensures forall q, i, p, k :: InQueue(s, j, q, i) && InQueue(s, j, p, k) ==> q == p && i == k
    ensures forall q, i :: InQueue(s, j, q, i) ==> j in s.record.place && s.record.place[j] == Queued(q)
    ensures forall t :: InHand(s, j, t) ==> j in s.record.place && s.record.place[j] == Held(t)
    ensures j in s.record.place && s.record.place[j].Queued? ==> exists i :: InQueue(s, j, s.record.place[j].q, i)
    ensures j in s.record.place && s.record.place[j].Held? ==> InHand(s, j, s.record.place[j].tid)
  {
    forall q, i | InQueue(s, j, q, i)
      ensures j in s.record.place && s.record.place[j] == Queued(q)
    {
      assert ItemOk(s, q, i);
    }
    forall t | InHand(s, j, t)
      ensures j in s.record.place && s.record.place[j] == Held(t)
    {
      assert HandOk(s, t);
    }
    forall q, i, p, k | InQueue(s, j, q, i) && InQueue(s, j, p, k)
      ensures q == p && i == k
    {
      assert ItemOk(s, q, i) && ItemOk(s, p, k) && ItemsApart(s, q, i, k);
    }
    if j in s.record.place {
      assert PlaceOk(s, j);
      if s.record.place[j].Queued? {
        var i: nat :| i < |s.queues[s.record.place[j].q].items| && s.queues[s.record.place[j].q].items[i] == j;
        assert InQueue(s, j, s.record.place[j].q, i);
      }
    }
  }

  // ---- Every finished job was run, once ----

  predicate HeldBy(s: State, j: Job, t: nat) {
    j in s.record.place && s.record.place[j] == Held(t)
  }

  predicate Done(s: State, j: Job) {
    j in s.record.place && s.record.place[j].Finished?
  }

  /** A job changes hands only from a queue to a thread, and from a thread at its running to its end. */
  lemma PlaceStep(s: State, t: nat, submit: bool, j: Job)
    requires CoreInv(s) && JobInv(s) && Enabled(s, t)
    ensures var s' := Step(s, t, submit);
            && (Done(s, j) ==> Done(s', j))
            && (forall u :: HeldBy(s, j, u) ==> HeldBy(s', j, u) || Done(s', j))
            && (forall u :: HeldBy(s', j, u) && !HeldBy(s, j, u) ==> j in s.record.place && s.record.place[j].Queued?)
            && (Done(s', j) && !Done(s, j) ==> HeldBy(s, j, t) && s.threads[t].pc.Run? && !submit)
  {
    assert Knows(s, t) && HandOk(s, t) && TicketOk(s, t);
    if Seeking(s.threads[t].pc) {
      SeekPlace(s, t, j);
    } else {
      AddPlace(s, t, submit, j);
    }
  }

  /** The first job of queue `q` has passed into the hand of `t`. */
  predicate TakenFrom(s: State, s': State, t: nat, q: nat) {
    && q < |s.queues| && s.queues[q].items != []
    && var j := s.queues[q].items[0];
       j in s.record.place && s.record.place[j].Queued? && s'.record.place == s.record.place[j := Held(t)]
  }

  lemma SeekPlace(s: State, t: nat, j: Job)
    requires JobInv(s) && Enabled(s, t) && Seeking(s.threads[t].pc)
    ensures var s' := StepWorker(s, t);
            s'.record == s.record || exists q: nat :: TakenFrom(s, s', t, q)
  {
    forall q | 0 <= q < |s.queues| && s.queues[q].items != []
      ensures s.queues[q].items[0] in s.record.place && s.record.place[s.queues[q].items[0]].Queued?
    {
      assert ItemOk(s, q, 0);
    }
    var pc := s.threads[t].pc;
    var q := if pc.PopOwn? then t else if pc.Steal? then pc.i else s.workers;
    assert StepWorker(s, t).record == s.record || TakenFrom(s, StepWorker(s, t), t, q);
  }

  lemma AddPlace(s: State, t: nat, submit: bool, j: Job)
    requires Enabled(s, t) && !Seeking(s.threads[t].pc) && HandOk(s, t) && TicketOk(s, t)
    ensures var s' := StepAdd(s, t, submit);
            || s'.record == s.record
            || (exists l: Job, q: nat :: l !in s.record.place && s'.record.place == s.record.place[l := Queued(q)])
            || (s.threads[t].pc.Run? && !submit && s.threads[t].hand != [] && HeldBy(s, s.threads[t].hand[0], t)
                && s'.record.place == s.record.place[s.threads[t].hand[0] := Finished])
  {
    var s' := StepAdd(s, t, submit);
    if s.threads[t].pc.AddPush? && s'.record != s.record {
      var q := if t < s.workers then t else s.workers;
      assert s'.record.place == s.record.place[s.threads[t].pc.j := Queued(q)];
    }
  }

  /** Up to moment `n` the job has been in the hand of `t` from moment `a` on, and in no other. */
  ghost predicate HeldSince(ss: seq<State>, n: nat, j: Job, t: nat, a: nat) {
    n < |ss| && a <= n && forall k, u {:trigger HeldBy(ss[k], j, u)} :: 0 <= k <= n ==> (HeldBy(ss[k], j, u) <==> u == t && a <= k)
  }

  /** The job was in the hand of `t` from moment `a` to moment `b`, in no other and at no other time, and
      at `b` the thread had run it and returned. */
  ghost predicate Ran(ss: seq<State>, ms: seq<(nat, bool)>, n: nat, j: Job, t: nat, a: nat, b: nat) {
    && n < |ss| && a <= b < n && b < |ms| && ms[b] == (t, false) && t in ss[b].threads && ss[b].threads[t].pc.Run?
    && forall k, u {:trigger HeldBy(ss[k], j, u)} :: 0 <= k <= n ==> (HeldBy(ss[k], j, u) <==> u == t && a <= k <= b)
  }

  ghost predicate NeverHeld(ss: seq<State>, n: nat, j: Job) {
    n < |ss| && forall k, u {:trigger HeldBy(ss[k], j, u)} :: 0 <= k <= n ==> !HeldBy(ss[k], j, u)
  }

  ghost predicate Story(ss: seq<State>, ms: seq<(nat, bool)>, n: nat, j: Job)
    requires n < |ss|
  {
    if Done(ss[n], j) then exists t, a, b :: Ran(ss, ms, n, j, t, a, b)
    else if j in ss[n].record.place && ss[n].record.place[j].Held? then exists a :: HeldSince(ss, n, j, ss[n].record.place[j].tid, a)
    else NeverHeld(ss, n, j)
  }

  lemma RunPlaceStep(ss: seq<State>, ms: seq<(nat, bool)>, n: nat, j: Job)
    requires IsRun(ss, ms) && n < |ms|
    ensures var s, s', t := ss[n], ss[n + 1], ms[n].0;
            && t in s.threads && (Done(s, j) ==> Done(s', j))
            && (forall u :: HeldBy(s, j, u) ==> HeldBy(s', j, u) || Done(s', j))
            && (forall u :: HeldBy(s', j, u) && !HeldBy(s, j, u) ==> j in s.record.place && s.record.place[j].Queued?)
            && (Done(s', j) && !Done(s, j) ==> HeldBy(s, j, t) && s.threads[t].pc.Run? && !ms[n].1)
  {
    RunInv(ss, ms, n);
    assert Enabled(ss[n], ms[n].0) && ss[n + 1] == Step(ss[n], ms[n].0, ms[n].1);
    PlaceStep(ss[n], ms[n].0, ms[n].1, j);
  }

  lemma StoryGoesOn(ss: seq<State>, ms: seq<(nat, bool)>, n: nat, j: Job)
    requires IsRun(ss, ms) && n < |ms| && Story(ss, ms, n, j)
    ensures Story(ss, ms, n + 1, j)
  {
    var s, s', t := ss[n], ss[n + 1], ms[n].0;
    RunPlaceStep(ss, ms, n, j);
    if Done(s, j) {
      var u, a, b :| Ran(ss, ms, n, j, u, a, b);
      assert Ran(ss, ms, n + 1, j, u, a, b);
    } else if j in s.record.place && s.record.place[j].Held? {
      var u := s.record.place[j].tid;
      assert HeldBy(s, j, u);
      var a :| HeldSince(ss, n, j, u, a);
      if Done(s', j) {
        assert Ran(ss, ms, n + 1, j, u, a, n);
      } else {
        assert HeldSince(ss, n + 1, j, u, a);
      }
    } else if j in s'.record.place && s'.record.place[j].Held? {
      var u := s'.record.place[j].tid;
      assert HeldBy(s', j, u);
      assert HeldSince(ss, n + 1, j, u, n + 1);
    }
  }

  lemma {:induction false} RunStory(ss: seq<State>, ms: seq<(nat, bool)>, n: nat, j: Job)
    requires IsRun(ss, ms) && n < |ss|
    ensures Story(ss, ms, n, j)
  {
    if n > 0 {
      RunStory(ss, ms, n - 1, j);
      StoryGoesOn(ss, ms, n - 1, j);
    }
  }

  /** In every run, every finished job was in the hand of one thread, for one stretch of the run and at no
      other moment, and at the end of it that thread was running it and returned from it. */
  lemma RunOnce(ss: seq<State>, ms: seq<(nat, bool)>, n: nat, j: Job) returns (t: nat, a: nat, b: nat)
    requires IsRun(ss, ms) && n < |ss| && Done(ss[n], j)
    ensures a <= b < n && b < |ms| && ms[b] == (t, false) && t in ss[b].threads && ss[b].threads[t] == Thread(Run, [j])
    ensures forall k, u {:trigger InHand(ss[k], j, u)} :: 0 <= k <= n && k < |ss| ==> (InHand(ss[k], j, u) <==> u == t && a <= k <= b)
  {
    RunStory(ss, ms, n, j);
    t, a, b :| Ran(ss, ms, n, j, t, a, b);
    forall k, u | 0 <= k <= n
      ensures InHand(ss[k], j, u) <==> u == t && a <= k <= b
    {
      RunInv(ss, ms, k);
      PlacesAgree(ss[k], j);
      assert HeldBy(ss[k], j, u) <==> u == t && a <= k <= b;
    }
    assert InHand(ss[b], j, t);
  }
}
