/** One thread of the concurrent queue run alone: whatever the others have left, a lagging tail included,
    its call ends, and does what was asked of it. */
module QueueSolo {
  import opened MemoryPools
  import opened QueueProtocol
  import opened QueueRuns
  import opened QueueLinear

  /** A thread alone with the shared words. */
  datatype Solo = Solo(shared: Shared, thread: Thread, now: nat)

  function Next(s: Solo, c: Choice): Solo {
    var (a, t) := StepThread(s.shared, s.thread, s.now, c);
    Solo(Apply(s.shared, a), t, s.now + 1)
  }

  function Asks(op: Op, unused: Id): Choice {
    Choice(op, unused, false)
  }

  /** One step of the thread, asked for `op` if it rests, given a fresh node if it needs one. */
  ghost predicate SoloStep(s: Solo, s': Solo, op: Op) {
    exists n :: Allowed(s.shared, Asks(op, n)) && s' == Next(s, Asks(op, n))
  }

  ghost predicate SoloPath(p: seq<Solo>, op: Op) {
    |p| > 0 && forall i :: 0 <= i < |p| - 1 ==> SoloStep(p[i], p[i + 1], op)
  }

  /** Run alone, the thread gets from `s` to `s'`. */
  ghost predicate Leads(s: Solo, s': Solo, op: Op) {
    exists p :: SoloPath(p, op) && p[0] == s && p[|p| - 1] == s'
  }

  lemma FreshNode(s: Shared) returns (n: Id)
    ensures n !in s.nodes && n != NONE
  {
    n := 0;
    var below: set<Id> := {};
    while n in s.nodes
      invariant n >= 0 && below <= s.nodes.Keys && forall m :: m in below ==> m < n
      decreases s.nodes.Keys - below
    {
      below := below + {n};
      n := n + 1;
    }
  }

  lemma LeadsStep(s: Solo, op: Op, n: Id)
    requires Allowed(s.shared, Asks(op, n))
    ensures Leads(s, Next(s, Asks(op, n)), op)
  {
    var p := [s, Next(s, Asks(op, n))];
    assert SoloStep(p[0], p[1], op);
    assert SoloPath(p, op);
  }

  lemma LeadsTrans(s: Solo, s': Solo, s'': Solo, op: Op)
    requires Leads(s, s', op) && Leads(s', s'', op)
    ensures Leads(s, s'', op)
  {
    var p :| SoloPath(p, op) && p[0] == s && p[|p| - 1] == s';
    var q :| SoloPath(q, op) && q[0] == s' && q[|q| - 1] == s'';
    var r := p + q[1..];
    forall i | 0 <= i < |r| - 1
      ensures SoloStep(r[i], r[i + 1], op)
    {
      if i < |p| - 1 {
        assert SoloStep(p[i], p[i + 1], op);
      } else {
        var j := i - (|p| - 1);
        assert SoloStep(q[j], q[j + 1], op) && r[i] == q[j] && r[i + 1] == q[j + 1];
      }
    }
    assert SoloPath(r, op);
  }

  // ---- How far a call is from its end ----

  /** What the thread has loaded is still so, as far as its next compare-and-swap is concerned. */
  predicate StillSo(s: Shared, pc: Pc) {
    match pc
    case LoadTailNext(t) => t.word == s.tail
    case RecheckTail(t, next) => t.word == s.tail && next == NodeAt(s, s.tail.frag).next
    case CasLink(t, next) => next == NodeAt(s, t.word.frag).next
    case CasTail(t, next) => t.word == s.tail
    case LoadTailToo(h) => h.word == s.head
    case LoadHeadNext(h, t) => h.word == s.head && t.word == s.tail
    case RecheckHead(h, t, next) => h.word == s.head && t.word == s.tail
    case Copy(h, t, next) => h.word == s.head
    case CasHead(h, t, next, val) => h.word == s.head
    case _ => true
  }

  function Rank(s: Shared, pc: Pc): nat {
    var step: nat :=
      match pc
      case LoadTail => 6
      case LoadTailNext(_) => 5
      case RecheckTail(_, _) => 4
      case CasLink(_, _) => 3
      case CasTail(_, _) => 3
      case LoadHead => 9
      case LoadTailToo(_) => 8
      case LoadHeadNext(_, _) => 7
      case RecheckHead(_, _, _) => 6
      case Copy(_, _, _) => 5
      case CasHead(_, _, _, _) => 4
      case _ => 0;
    if pc.CasLinked? then 1
    else if StillSo(s, pc) then (if |s.order| == s.last + 1 then step else 10 + step) else 20 + step
  }

  lemma EnqueueNearer(s: Shared, t: Thread, now: nat, c: Choice)
    requires ShapeInv(s) && ThreadInv(s, t) && Enqueueing(t.pc) && Allowed(s, c) && !c.spurious
    ensures var (a, t') := EnqueueStep(s, t, now, c);
            t'.pc.Done? || Rank(Apply(s, a), t'.pc) < Rank(s, t.pc)
  {
    EnqueueStepInv(s, t, now, c);
    assert NodeOk(s, s.last);
    if !t.pc.LoadTail? {
      var pos := t.pc.t.pos;
      assert NodeOk(s, pos) && Distinct(s.order, pos, s.last);
    }
  }

  lemma DequeueNearer(s: Shared, t: Thread, now: nat, c: Choice)
    requires ShapeInv(s) && ThreadInv(s, t) && !Enqueueing(t.pc) && !Resting(t.pc) && !c.spurious
    ensures var (a, t') := DequeueStep(s, t, now, c);
            t'.pc.Done? || Rank(Apply(s, a), t'.pc) < Rank(s, t.pc)
  {
    DequeueStepInv(s, t, now, c);
    assert NodeOk(s, s.first) && NodeOk(s, s.last);
  }

  // ---- What the call does ----

  /** A dequeue that has seen the queue empty and is about to say so, although values may have come since. */
  predicate SawEmpty(s: Shared, t: Thread) {
    && t.pc.RecheckHead? && t.pc.h.word == s.head && t.pc.h.word.frag == t.pc.t.word.frag
    && t.pc.next.frag == NONE
  }

  /** How a call ends that has come so far: as the sequential operation on the queue now, unless it has
      made its write already, or has already seen the queue empty. */
  ghost predicate EndsAs(s: Shared, t: Thread, e: Solo) {
    && e.thread.pc.Done? && e.thread.op == t.op && ShapeInv(e.shared)
    && (var q, q' := Queued(s), Queued(e.shared);
        if Winning(t) then q' == q && e.thread.pc.ok && e.thread.pc.val == Returned(t)
        else if SawEmpty(s, t) then q' == q && !e.thread.pc.ok && e.thread.pc.val == []
        else (e.thread.pc.ok, e.thread.pc.val, q') == Sequential(t.op, q))
  }

  lemma EnqueueOutcome(s: Shared, t: Thread, now: nat, c: Choice, e: Solo)
    requires ShapeInv(s) && ThreadInv(s, t) && Enqueueing(t.pc) && Allowed(s, c)
    requires var (a, t') := EnqueueStep(s, t, now, c);
             if t'.pc.Done? then e == Solo(Apply(s, a), t', now + 1) else EndsAs(Apply(s, a), t', e)
    ensures EndsAs(s, t, e)
  {
    var (a, t') := EnqueueStep(s, t, now, c);
    EnqueueStepInv(s, t, now, c);
    ActRefinesFifo(s, a);
  }

  lemma DequeueOutcome(s: Shared, t: Thread, now: nat, c: Choice, e: Solo)
    requires ShapeInv(s) && ThreadInv(s, t) && !Enqueueing(t.pc) && !Resting(t.pc)
    requires var (a, t') := DequeueStep(s, t, now, c);
             if t'.pc.Done? then e == Solo(Apply(s, a), t', now + 1) else EndsAs(Apply(s, a), t', e)
    ensures EndsAs(s, t, e)
  {
    var (a, t') := DequeueStep(s, t, now, c);
    DequeueStepInv(s, t, now, c);
    ActRefinesFifo(s, a);
    assert NodeOk(s, s.first) && (s.first + 1 < |s.order| ==> NodeOk(s, s.first + 1));
  }

  /** A call suspended anywhere, with tail lagging or not, ends when it is left alone; and it ends as the
      sequential operation, unless its end was already settled. */
  lemma {:induction false} CallResumes(s: Solo, op: Op) returns (e: Solo)
    requires ShapeInv(s.shared) && ThreadInv(s.shared, s.thread) && !Resting(s.thread.pc)
    ensures Leads(s, e, op) && EndsAs(s.shared, s.thread, e)
    decreases Rank(s.shared, s.thread.pc)
  {
    var n := FreshNode(s.shared);
    var c := Asks(op, n);
    e := Next(s, c);
    LeadsStep(s, op, n);
    NextNearer(s, c);
    if !e.thread.pc.Done? {
      var s1 := e;
      e := CallResumes(s1, op);
      LeadsTrans(s, s1, e, op);
    }
    if Enqueueing(s.thread.pc) {
      EnqueueOutcome(s.shared, s.thread, s.now, c, e);
    } else {
      DequeueOutcome(s.shared, s.thread, s.now, c, e);
    }
  }

  lemma NextNearer(s: Solo, c: Choice)
    requires ShapeInv(s.shared) && ThreadInv(s.shared, s.thread) && !Resting(s.thread.pc)
    requires Allowed(s.shared, c) && !c.spurious
    ensures var e := Next(s, c);
            && ShapeInv(e.shared) && ThreadInv(e.shared, e.thread) && !e.thread.pc.Idle?
            && (e.thread.pc.Done? || Rank(e.shared, e.thread.pc) < Rank(s.shared, s.thread.pc))
  {
    var (a, t) := StepThread(s.shared, s.thread, s.now, c);
    OwnStep(s.shared, s.thread, s.now, c);
    ActKeepsShape(s.shared, a);
    if Enqueueing(s.thread.pc) {
      EnqueueNearer(s.shared, s.thread, s.now, c);
    } else {
      DequeueNearer(s.shared, s.thread, s.now, c);
    }
  }

  /** Solo completion: a call made of any queue that other threads may have left, and run alone, ends
      with the answer, the value and the queue that the operation asked for gives by itself. */
  lemma CallCompletes(s: Solo, op: Op) returns (e: Solo)
    requires ShapeInv(s.shared) && Resting(s.thread.pc)
    ensures Leads(s, e, op) && e.thread.pc.Done? && ShapeInv(e.shared)
    ensures (e.thread.pc.ok, e.thread.pc.val, Queued(e.shared)) == Sequential(op, Queued(s.shared))
  {
    var n := FreshNode(s.shared);
    var s1 := Next(s, Asks(op, n));
    LeadsStep(s, op, n);
    e := CallResumes(s1, op);
    LeadsTrans(s, s1, e, op);
  }
}
