/** What one holder of the pool's mutex does: the loops of `work_steal` and `job_seeking`, and
    `thrdpool_add`, on the queues themselves. */
module JobSeeking {
  import opened ThreadPool

  datatype Sought = Nothing | Job(job: Job, from: nat)

  function Total(queues: seq<seq<Job>>, n: nat): nat
    requires n <= |queues|
  {
    if n == 0 then 0 else Total(queues, n - 1) + |queues[n - 1]|
  }

  /** The queue a seeker takes from, and `|local|` for the global one: its own queue first, then the
      first other worker that has a job, and the global queue only when no local queue has one. */
  predicate Preferred(local: seq<seq<Job>>, self: nat, from: nat)
    requires self < |local|
  {
    if local[self] != [] then from == self
    else if exists i :: 0 <= i < |local| && local[i] != [] then
      from < |local| && local[from] != [] && forall i :: 0 <= i < from ==> local[i] == []
    else from == |local|
  }

  lemma {:induction false} TotalZero(queues: seq<seq<Job>>, n: nat)
    requires n <= |queues|
    ensures Total(queues, n) == 0 <==> forall i :: 0 <= i < n ==> queues[i] == []
  {
    if n > 0 {
      TotalZero(queues, n - 1);
    }
  }

  lemma {:induction false} TotalUpdate(queues: seq<seq<Job>>, i: nat, q: seq<Job>, n: nat)
    requires i < |queues| && n <= |queues|
    ensures Total(queues[i := q], n) == Total(queues, n) + if i < n then |q| - |queues[i]| else 0
  {
    if n > 0 {
      TotalUpdate(queues, i, q, n - 1);
    }
  }

  /** The jobs waiting in the first `n` queues. */
  ghost function Bag(queues: seq<seq<Job>>, n: nat): multiset<Job>
    requires n <= |queues|
  {
    if n == 0 then multiset{} else Bag(queues, n - 1) + multiset(queues[n - 1])
  }

  lemma {:induction false} BagUnchanged(queues: seq<seq<Job>>, i: nat, q: seq<Job>, n: nat)
    requires n <= i < |queues|
    ensures Bag(queues[i := q], n) == Bag(queues, n)
  {
    if n > 0 {
      BagUnchanged(queues, i, q, n - 1);
    }
  }

  /** Popping one queue removes just its first job from the bag. */
  lemma {:induction false} BagPop(queues: seq<seq<Job>>, i: nat, n: nat)
    requires i < n <= |queues| && queues[i] != []
    ensures Bag(queues[i := queues[i][1..]], n) + multiset{queues[i][0]} == Bag(queues, n)
  {
    var queues' := queues[i := queues[i][1..]];
    if i < n - 1 {
      BagPop(queues, i, n - 1);
    } else {
      BagUnchanged(queues, i, queues[i][1..], i);
      assert queues[i] == [queues[i][0]] + queues[i][1..];
    }
  }

  /** `r` is the oldest job of the queue it was taken from, and no other queue changed. */
  predicate PoppedFrom(before: seq<seq<Job>>, after: seq<seq<Job>>, r: Sought) {
    && r.Job? && r.from < |before| && before[r.from] != [] && r.job == before[r.from][0]
    && after == before[r.from := before[r.from][1..]]
  }

  lemma PopFacts(before: seq<seq<Job>>, after: seq<seq<Job>>, r: Sought)
    requires PoppedFrom(before, after, r)
    ensures |after| == |before| && Total(after, |after|) == Total(before, |before|) - 1
    ensures Bag(after, |after|) + multiset{r.job} == Bag(before, |before|)
    ensures forall i :: 0 <= i < |after| ==> |after[i]| <= |before[i]|
  {
    TotalUpdate(before, r.from, before[r.from][1..], |before|);
    BagPop(before, r.from, |before|);
  }

  /** The result of a search and the queues it leaves: it fails only when all are empty, and otherwise
      takes the oldest job of the preferred queue and nothing else. */
  predicate SeekResult(local: seq<seq<Job>>, global: seq<Job>, local': seq<seq<Job>>, global': seq<Job>,
                       self: nat, r: Sought)
    requires self < |local|
  {
    match r
    case Nothing => local' == local && global' == global == [] && forall i :: 0 <= i < |local| ==> local[i] == []
    case Job(job, from) =>
      && Preferred(local, self, from)
      && if from < |local| then PoppedFrom(local, local', r) && global' == global
         else local' == local && global != [] && job == global[0] && global' == global[1..]
  }

  /** A search fails exactly when nothing is pending; a success lowers the number pending by one and
      removes just its own job. */
  lemma SeekConserves(local: seq<seq<Job>>, global: seq<Job>, local': seq<seq<Job>>, global': seq<Job>,
                      self: nat, r: Sought)
    requires self < |local| && SeekResult(local, global, local', global', self, r)
    ensures r.Nothing? <==> Total(local, |local|) + |global| == 0
    ensures r.Job? ==> Total(local', |local'|) + |global'| == Total(local, |local|) + |global| - 1
    ensures Bag(local', |local'|) + multiset(global') + (if r.Job? then multiset{r.job} else multiset{}) ==
            Bag(local, |local|) + multiset(global)
  {
    TotalZero(local, |local|);
    if r.Job? && r.from < |local| {
      PopFacts(local, local', r);
    } else if r.Job? {
      assert global == [global[0]] + global[1..];
    }
  }

  /** A submission by worker `self`, or from outside when there is none: it is refused exactly when the
      one queue concerned holds 32 jobs, and goes to the end of that queue otherwise. */
  predicate AddResult(local: seq<seq<Job>>, global: seq<Job>, local': seq<seq<Job>>, global': seq<Job>,
                      self: int, j: Job, ok: bool)
    requires self < |local|
  {
    && (ok <==> |if self >= 0 then local[self] else global| < 32)
    && local' == (if ok && self >= 0 then local[self := local[self] + [j]] else local)
    && global' == (if ok && self < 0 then global + [j] else global)
  }

  class Pool {
    var local: seq<seq<Job>>
    var global: seq<Job>
    var numLocal: nat

    /** The shared counter is exact whenever the mutex is free. */
    ghost predicate Valid()
      reads this
    {
      && numLocal == Total(local, |local|)
      && |global| <= MAX_JOBS && forall i :: 0 <= i < |local| ==> |local[i]| <= MAX_JOBS
    }

    ghost function Pending(): nat
      reads this
    {
      Total(local, |local|) + |global|
    }

    ghost function Jobs(): multiset<Job>
      reads this
    {
      Bag(local, |local|) + multiset(global)
    }

    constructor (workers: nat)
      ensures Valid() && Pending() == 0 && |local| == workers
    {
      local := seq(workers, _ => []);
      global := [];
      numLocal := 0;
      new;
      TotalZero(local, workers);
    }

    method DequeueLocal(i: nat) returns (r: Sought)
      requires i < |local|
      modifies this`local
      ensures if old(local)[i] == [] then r == Nothing && local == old(local)
              else PoppedFrom(old(local), local, r) && r.from == i
    {
      if local[i] == [] {
        return Nothing;
      }
      r := Sought.Job(local[i][0], i);
      local := local[i := local[i][1..]];
    }

    /** `work_steal`: the colleagues in turn, but not the thief itself. */
    method WorkSteal(self: nat) returns (r: Sought)
      requires self < |local|
      modifies this`local
      ensures r.Nothing? ==> local == old(local) && forall i :: 0 <= i < |local| && i != self ==> local[i] == []
      ensures r.Job? ==>
                && PoppedFrom(old(local), local, r) && r.from != self
                && forall i :: 0 <= i < r.from && i != self ==> old(local)[i] == []
    {
      var i := 0;
      while i < |local|
        invariant i <= |local| && local == old(local)
        invariant forall k :: 0 <= k < i && k != self ==> local[k] == []
      {
        if i != self {
          r := DequeueLocal(i);
          if r.Job? {
            return;
          }
        }
        i := i + 1;
      }
      return Nothing;
    }

    method Seek(self: nat) returns (r: Sought)
      requires Valid() && self < |local|
      modifies this
      ensures Valid() && |local| == |old(local)|
      ensures SeekResult(old(local), old(global), local, global, self, r)
    {
      TotalZero(local, |local|);
      if numLocal > 0 {
        r := DequeueLocal(self);
        if r.Nothing? {
          r := WorkSteal(self);
        }
        if r.Job? {
          PopFacts(old(local), local, r);
          numLocal := numLocal - 1;
          return;
        }
      }
      if global == [] {
        return Nothing;
      }
      r := Sought.Job(global[0], |local|);
      global := global[1..];
    }

    /** A search, told by what it does to the jobs pending. */
    method SeekOne(self: nat) returns (r: Sought)
      requires Valid() && self < |local|
      modifies this
      ensures Valid() && |local| == |old(local)|
      ensures r.Nothing? <==> old(Pending()) == 0
      ensures old(Pending()) == Pending() + if r.Job? then 1 else 0
      ensures old(Jobs()) == Jobs() + if r.Job? then multiset{r.job} else multiset{}
    {
      r := Seek(self);
      SeekConserves(old(local), old(global), local, global, self, r);
    }

    /** `thrdpool_add` by worker `self`, or from outside when there is none. */
    method Add(self: int, j: Job) returns (ok: bool)
      requires Valid() && -1 <= self < |local|
      modifies this
      ensures Valid() && |local| == |old(local)|
      ensures AddResult(old(local), old(global), local, global, self, j, ok)
      ensures Pending() == old(Pending()) + if ok then 1 else 0
    {
      if self >= 0 {
        ok := |local[self]| < MAX_JOBS;
        if ok {
          TotalUpdate(local, self, local[self] + [j], |local|);
          local := local[self := local[self] + [j]];
          numLocal := numLocal + 1;
        }
      } else {
        ok := |global| < MAX_JOBS;
        if ok {
          global := global + [j];
        }
      }
    }
  }

  /** Searches by any workers, in any order, while no job is submitted, up to the first that fails: as
      many succeed as jobs were pending, each job is taken once, and then the pool is empty. */
  method WorkUntilIdle(p: Pool) returns (jobs: seq<Job>)
    requires p.Valid() && |p.local| > 0
    modifies p
    ensures p.Valid() && p.Pending() == 0 && |jobs| == old(p.Pending())
    ensures multiset(jobs) + p.Jobs() == old(p.Jobs())
  {
    jobs := [];
    var self: nat :| self < |p.local|;
    var r := p.SeekOne(self);
    while r.Job?
      invariant p.Valid() && |p.local| == |old(p.local)|
      invariant |jobs| + p.Pending() + (if r.Job? then 1 else 0) == old(p.Pending())
      invariant r.Nothing? ==> p.Pending() == 0
      invariant multiset(jobs) + (p.Jobs() + if r.Job? then multiset{r.job} else multiset{}) == old(p.Jobs())
      decreases p.Pending(), r.Job?
    {
      assert multiset(jobs + [r.job]) == multiset(jobs) + multiset{r.job};
      jobs := jobs + [r.job];
      self :| self < |p.local|;
      r := p.SeekOne(self);
    }
  }

  // ---- The same search in the machine ----

  /** The queues as one holder of the mutex sees them. */
  function Local(s: State): (l: seq<seq<Job>>)
    requires |s.queues| == s.workers + 1
    ensures |l| == s.workers && forall i :: 0 <= i < s.workers ==> l[i] == s.queues[i].items
  {
    seq(s.workers, i requires 0 <= i < s.workers => s.queues[i].items)
  }

  function Global(s: State): seq<Job>
    requires |s.queues| == s.workers + 1
  {
    s.queues[s.workers].items
  }

  /** The holder of the mutex takes `n` steps; no other thread can touch the queues meanwhile. */
  ghost function RunOwner(s: State, t: nat, n: nat): State
    decreases n
  {
    if n == 0 || !Enabled(s, t) then s else RunOwner(Step(s, t, false), t, n - 1)
  }

  /** The search that began with queues `local` and `global` has ended as the method does. */
  ghost predicate Found(local: seq<seq<Job>>, global: seq<Job>, t: nat, s': State) {
    && |s'.queues| == s'.workers + 1 && t in s'.threads && t < |local|
    && (if s'.threads[t].pc.Leave? then
          |s'.threads[t].hand| == 1 &&
          exists from :: SeekResult(local, global, Local(s'), Global(s'), t, Sought.Job(s'.threads[t].hand[0], from))
        else s'.threads[t].pc.Wait? && SeekResult(local, global, Local(s'), Global(s'), t, Nothing))
  }

  /** The first `n` queues are empty. */
  predicate EmptyBefore(local: seq<seq<Job>>, n: nat)
    requires n <= |local|
  {
    forall i :: 0 <= i < n ==> local[i] == []
  }

  lemma LocalAfterTake(s: State, t: nat, q: nat, pc: ThreadPool.Pc)
    requires |s.queues| == s.workers + 1 && t in s.threads && q < s.workers && s.queues[q].items != []
    ensures |Take(s, t, q, pc).queues| == s.workers + 1
    ensures Local(Take(s, t, q, pc)) == Local(s)[q := s.queues[q].items[1..]]
    ensures Global(Take(s, t, q, pc)) == Global(s)
  {
  }

  lemma TakeRun(s: State, t: nat, q: nat)
    requires |s.queues| == s.workers + 1 && t in s.threads && t < s.workers && q < s.workers && s.queues[q].items != []
    requires Preferred(Local(s), t, q)
    ensures Found(Local(s), Global(s), t, RunOwner(Take(s, t, q, Uncount), t, 1))
  {
    var s1 := Take(s, t, q, Uncount);
    LocalAfterTake(s, t, q, Uncount);
    assert RunOwner(s1, t, 1) == Step(s1, t, false);
    var s2 := Step(s1, t, false);
    assert Local(s2) == Local(s1);
    assert SeekResult(Local(s), Global(s), Local(s2), Global(s2), t, Sought.Job(s2.threads[t].hand[0], q));
  }

  lemma GlobalRun(s: State, t: nat)
    requires |s.queues| == s.workers + 1 && t in s.threads && t < s.workers && s.threads[t].pc.PopGlobal?
    requires EmptyBefore(Local(s), s.workers)
    ensures Found(Local(s), Global(s), t, RunOwner(s, t, 1))
  {
    assert RunOwner(s, t, 1) == Step(s, t, false);
    var s' := Step(s, t, false);
    assert Local(s') == Local(s);
    if Global(s) != [] {
      assert SeekResult(Local(s), Global(s), Local(s'), Global(s'), t, Sought.Job(s'.threads[t].hand[0], s.workers));
    }
  }

  lemma {:induction false} StealRun(s: State, t: nat, i: nat) returns (n: nat)
    requires |s.queues| == s.workers + 1 && t in s.threads && t < s.workers && s.threads[t].pc == Steal(i)
    requires i <= s.workers && EmptyBefore(Local(s), i) && Local(s)[t] == []
    ensures Found(Local(s), Global(s), t, RunOwner(s, t, n))
    decreases s.workers - i
  {
    var s' := Step(s, t, false);
    if i < s.workers && s.queues[i].items != [] {
      TakeRun(s, t, i);
      n := 2;
    } else {
      assert Local(s') == Local(s) && Global(s') == Global(s);
      if i == s.workers {
        GlobalRun(s', t);
        n := 2;
      } else {
        n := StealRun(s', t, i + 1);
        n := n + 1;
      }
    }
  }

  /** In the machine, where a search is many steps, the holder of the mutex gets from its first step to
      its last with the result that the method `Seek` promises. */
  lemma SeekRun(s: State, t: nat) returns (n: nat)
    requires CoreInv(s) && t in s.threads && s.threads[t].pc.Seek?
    ensures t < s.workers && Found(Local(s), Global(s), t, RunOwner(s, t, n))
  {
    assert Knows(s, t);
    var s' := Step(s, t, false);
    WaitingZero(s.queues, s.workers);
    assert Local(s') == Local(s) && Global(s') == Global(s);
    if s.numLocal <= 0 {
      GlobalRun(s', t);
      n := 2;
    } else if s.queues[t].items != [] {
      TakeRun(s', t, t);
      assert Step(s', t, false) == Take(s', t, t, Uncount);
      assert RunOwner(s, t, 3) == RunOwner(s', t, 2) == RunOwner(Take(s', t, t, Uncount), t, 1);
      n := 3;
    } else {
      var s'' := Step(s', t, false);
      assert Local(s'') == Local(s) && Global(s'') == Global(s);
      n := StealRun(s'', t, 0);
      assert RunOwner(s, t, n + 2) == RunOwner(s', t, n + 1) == RunOwner(s'', t, n);
      n := n + 2;
    }
  }

  lemma {:induction false} RunAdd(s: State, t: nat, m: nat, n: nat)
    ensures RunOwner(s, t, m + n) == RunOwner(RunOwner(s, t, m), t, n)
    decreases m
  {
    if m > 0 {
      var s' := StepFirst(s, t, m, n);
      RunAdd(s', t, m - 1, n);
    }
  }

  lemma StepFirst(s: State, t: nat, m: nat, n: nat) returns (s': State)
    requires m > 0
    ensures RunOwner(s, t, m) == RunOwner(s', t, m - 1)
    ensures RunOwner(s, t, m + n) == RunOwner(s', t, m + n - 1)
  {
    s' := if Enabled(s, t) then Step(s, t, false) else s;
  }

  // ---- The same submission in the machine ----

  function Self(s: State, t: nat): int {
    if t < s.workers then t else -1
  }

  /** The submission of `j` that found the queues `local` and `global` has been answered with `ok`. */
  ghost predicate Answered(local: seq<seq<Job>>, global: seq<Job>, self: int, s': State, j: Job, ok: bool)
    requires self < |local|
  {
    |s'.queues| == s'.workers + 1 && AddResult(local, global, Local(s'), Global(s'), self, j, ok)
  }

  lemma PushRun(s: State, t: nat, j: Job)
    requires |s.queues| == s.workers + 1 && t in s.threads && s.threads[t].pc == AddPush(j)
    ensures var s' := Step(s, t, false);
            var ok := s'.threads[t].pc != Broadcast(j, false);
            && s'.workers == s.workers && s'.owner == s.owner && s'.next == s.next && s'.threads.Keys == s.threads.Keys
            && Answered(Local(s), Global(s), Self(s, t), s', j, ok)
            && s'.threads[t] == s.threads[t].(pc := if ok && t < s.workers then AddCount(j) else Broadcast(j, ok))
  {
    var s' := Step(s, t, false);
    if t < s.workers {
      assert s'.queues != s.queues ==> Local(s') == Local(s)[t := s.queues[t].items + [j]];
      assert s'.queues == s.queues ==> Local(s') == Local(s);
    } else {
      assert Local(s') == Local(s);
    }
  }

  lemma SameQueues(s: State, s': State)
    requires |s.queues| == s.workers + 1 && s'.queues == s.queues && s'.workers == s.workers
    ensures Local(s') == Local(s) && Global(s') == Global(s)
  {
  }

  /** From the push, or the update of the counter after it, to the answer, the mutex given back. */
  lemma AnswerRun(s: State, t: nat, j: Job, ok: bool) returns (n: nat)
    requires |s.queues| == s.workers + 1 && t in s.threads
    requires s.threads[t].pc == AddCount(j) || s.threads[t].pc == Broadcast(j, ok)
    requires s.threads[t].pc.AddCount? ==> ok
    ensures var s' := RunOwner(s, t, n);
            && s'.owner == FREE && s'.workers == s.workers && s'.queues == s.queues && s'.next == s.next
            && t in s'.threads && s'.threads[t].pc == (if t < s.workers then ThreadPool.Run else Out)
            && s'.threads[t].hand == s.threads[t].hand
    decreases s.threads[t].pc.AddCount?
  {
    var s' := Step(s, t, false);
    if s.threads[t].pc.AddCount? {
      n := AnswerRun(s', t, j, ok);
      n := n + 1;
    } else {
      var s'' := Step(s', t, false);
      assert RunOwner(s, t, 2) == RunOwner(s', t, 1) == RunOwner(s'', t, 0);
      n := 2;
    }
  }

  /** In the machine, the thread that holds the mutex and is about to push answers as `Add` does. */
  lemma AddRun(s: State, t: nat, j: Job) returns (n: nat, ok: bool)
    requires |s.queues| == s.workers + 1 && t in s.threads && s.threads[t].pc == AddPush(j)
    ensures var s' := RunOwner(s, t, n);
            && Answered(Local(s), Global(s), Self(s, t), s', j, ok) && s'.owner == FREE && s'.next == s.next
            && t in s'.threads && s'.threads[t] == s.threads[t].(pc := if t < s.workers then ThreadPool.Run else Out)
  {
    var s1 := Step(s, t, false);
    PushRun(s, t, j);
    ok := s1.threads[t].pc != Broadcast(j, false);
    n := AnswerRun(s1, t, j, ok);
    SameQueues(s1, RunOwner(s1, t, n));
    n := n + 1;
  }

  /** A whole submission, when the mutex is free and no other thread moves: a new ticket is drawn, the
      queues change as `Add` says, and the thread goes on where it was, the mutex free again. */
  lemma SubmitRun(s: State, t: nat) returns (n: nat, ok: bool)
    requires CoreInv(s) && s.owner == FREE && t in s.threads && (s.threads[t].pc.Run? || s.threads[t].pc.Out?)
    ensures var s' := RunOwner(Step(s, t, true), t, n);
            && Answered(Local(s), Global(s), Self(s, t), s', s.next, ok) && s'.next == s.next + 1
            && s'.owner == FREE && t in s'.threads && s'.threads[t] == s.threads[t]
  {
    assert Knows(s, t);
    var s1 := Step(s, t, true);
    var s2 := Step(s1, t, false);
    SameQueues(s, s2);
    n, ok := AddRun(s2, t, s.next);
    assert RunOwner(s1, t, n + 1) == RunOwner(s2, t, n);
    n := n + 1;
  }

  // ---- The round of a worker ----

  /** The worker that found the queues `local` and `global` has a job to run, or sleeps, and the mutex is free. */
  ghost predicate TurnTaken(local: seq<seq<Job>>, global: seq<Job>, t: nat, s': State) {
    && t < |local| && |s'.queues| == s'.workers + 1 && s'.owner == FREE && t in s'.threads
    && (if s'.threads[t].pc.Run? then
          |s'.threads[t].hand| == 1 &&
          exists from :: SeekResult(local, global, Local(s'), Global(s'), t, Sought.Job(s'.threads[t].hand[0], from))
        else s'.threads[t].pc.Blocked? && SeekResult(local, global, Local(s'), Global(s'), t, Nothing))
  }

  lemma LeaveRun(s: State, t: nat)
    requires |s.queues| == s.workers + 1 && t in s.threads && (s.threads[t].pc.Leave? || s.threads[t].pc.Wait?)
    ensures var s' := RunOwner(s, t, 1);
            && s'.owner == FREE && s'.workers == s.workers && s'.queues == s.queues && t in s'.threads
            && s'.threads[t] == s.threads[t].(pc := if s.threads[t].pc.Leave? then ThreadPool.Run else Blocked)
  {
    assert RunOwner(s, t, 1) == Step(s, t, false);
  }

  /** A worker that wants the mutex, or is woken while it sleeps, when the mutex is free and no other
      thread moves, searches as `Seek` does: it goes to run the job it found, or to sleep with every
      queue empty, the mutex free again. */
  lemma {:induction false} WorkRun(s: State, t: nat) returns (n: nat)
    requires CoreInv(s) && s.owner == FREE && t in s.threads
    requires s.threads[t].pc.WantLock? || s.threads[t].pc.Woken? || s.threads[t].pc.Blocked?
    ensures n > 0 && |s.queues| == s.workers + 1 && TurnTaken(Local(s), Global(s), t, RunOwner(s, t, n))
    decreases s.threads[t].pc.Blocked?
  {
    assert Knows(s, t);
    var s1 := Step(s, t, false);
    StepCore(s, t, false);
    SameQueues(s, s1);
    if s.threads[t].pc.Blocked? {
      n := WorkRun(s1, t);
      assert RunOwner(s, t, 1 + n) == RunOwner(s1, t, n);
      n := n + 1;
    } else {
      n := TurnRun(s1, t);
      assert RunOwner(s, t, 1 + n) == RunOwner(s1, t, n);
      n := n + 1;
    }
  }

  lemma TurnRun(s: State, t: nat) returns (n: nat)
    requires CoreInv(s) && t in s.threads && s.threads[t].pc.Seek?
    ensures n > 0 && |s.queues| == s.workers + 1 && TurnTaken(Local(s), Global(s), t, RunOwner(s, t, n))
  {
    var k := SeekRun(s, t);
    var s' := RunOwner(s, t, k);
    LeaveRun(s', t);
    SameQueues(s', RunOwner(s', t, 1));
    RunAdd(s, t, k, 1);
    n := k + 1;
  }

  /** A job that returns is finished, and its worker wants the mutex again. */
  lemma ReturnRun(s: State, t: nat)
    requires Enabled(s, t) && s.threads[t].pc.Run? && s.threads[t].hand != []
    ensures var s', j := Step(s, t, false), s.threads[t].hand[0];
            && s'.threads[t] == Thread(WantLock, []) && s'.queues == s.queues && s'.owner == s.owner
            && s'.record.place == s.record.place[j := Finished]
  {
  }
}
