/** Any number of threads enqueueing and dequeueing at once, one atomic access a step, on nodes that are
    not reused while anyone may still hold them. */
module QueueProtocol {
  import opened MemoryPools

  type Id = int
  type Val = seq<Byte>

  datatype QNode = QNode(next: Link, val: Val)

  /** The shared words, with the history of linking: `order` lists the nodes as they were linked,
      `first` and `last` count the swings of head and tail. No step reads the history. */
  datatype Shared = Shared(nodes: map<Id, QNode>, head: Link, tail: Link, order: seq<Id>, first: nat, last: nat)

  datatype Act =
    | Nop
    | LinkNode(at: Id, node: Id, val: Val)
    | SwingTail(to: Id)
    | SwingHead(to: Id, val: Val)

  function NodeAt(s: Shared, n: Id): QNode {
    if n in s.nodes then s.nodes[n] else QNode(Link(0, NONE), [])
  }

  function Apply(s: Shared, a: Act): Shared {
    match a
    case Nop => s
    case LinkNode(at, node, val) =>
      s.(nodes := s.nodes[at := QNode(Link(Tag(NodeAt(s, at).next.count), node), NodeAt(s, at).val)]
                         [node := QNode(Link(0, NONE), val)],
         order := s.order + [node])
    case SwingTail(to) => s.(tail := Link(Tag(s.tail.count), to), last := s.last + 1)
    case SwingHead(to, val) => s.(head := Link(Tag(s.head.count), to), first := s.first + 1)
  }

  // ---- Shape ----

  predicate NodeOk(s: Shared, i: int)
    requires 0 <= i < |s.order|
  {
    && s.order[i] in s.nodes && s.order[i] != NONE
    && s.nodes[s.order[i]].next.frag == if i + 1 < |s.order| then s.order[i + 1] else NONE
  }

  predicate Distinct(order: seq<Id>, i: int, j: int)
    requires 0 <= i < |order| && 0 <= j < |order|
  {
    order[i] == order[j] ==> i == j
  }

  /** Only the last node of the chain has a null link; every node was linked exactly once; head never
      passes tail, and tail is the last node or the one before it. */
  ghost predicate ShapeInv(s: Shared) {
    && (forall i {:trigger NodeOk(s, i)} :: 0 <= i < |s.order| ==> NodeOk(s, i))
    && (forall i, j {:trigger Distinct(s.order, i, j)} ::
          0 <= i < |s.order| && 0 <= j < |s.order| ==> Distinct(s.order, i, j))
    && s.first <= s.last < |s.order| <= s.last + 2
    && s.head.frag == s.order[s.first] && s.tail.frag == s.order[s.last]
  }

  /** The values queued: those of the nodes behind head. */
  ghost function Contents(s: Shared): seq<Val>
    requires s.first < |s.order|
  {
    ValuesFrom(s, s.first + 1)
  }

  ghost function ValuesFrom(s: Shared, i: nat): seq<Val>
    requires i <= |s.order|
    decreases |s.order| - i
  {
    if i == |s.order| then [] else [NodeAt(s, s.order[i]).val] + ValuesFrom(s, i + 1)
  }

  predicate Legal(s: Shared, a: Act) {
    match a
    case Nop => true
    case LinkNode(at, node, val) =>
      && |s.order| == s.last + 1 && at == s.order[s.last]
      && node !in s.nodes && node != NONE
    case SwingTail(to) => s.last + 1 < |s.order| && to == s.order[s.last + 1]
    case SwingHead(to, val) =>
      && s.first + 1 <= s.last < |s.order| && to == s.order[s.first + 1]
      && val == NodeAt(s, to).val
  }

  lemma ActKeepsShape(s: Shared, a: Act)
    requires ShapeInv(s) && Legal(s, a)
    ensures ShapeInv(Apply(s, a))
  {
    var s' := Apply(s, a);
    forall i | 0 <= i < |s'.order|
      ensures NodeOk(s', i)
    {
      if i < |s.order| {
        assert NodeOk(s, i) && Distinct(s.order, i, s.last);
      }
    }
    forall i, j | 0 <= i < |s'.order| && 0 <= j < |s'.order|
      ensures Distinct(s'.order, i, j)
    {
      if i < |s.order| && j < |s.order| {
        assert Distinct(s.order, i, j);
      } else if i < |s.order| {
        assert NodeOk(s, i);
      } else if j < |s.order| {
        assert NodeOk(s, j);
      }
    }
  }

  /** Linking appends the value, swinging head removes the value it carries, swinging tail is silent. */
  lemma ActRefinesFifo(s: Shared, a: Act)
    requires ShapeInv(s) && Legal(s, a)
    ensures ShapeInv(Apply(s, a))
    ensures Contents(Apply(s, a)) ==
            match a
            case LinkNode(_, _, val) => Contents(s) + [val]
            case SwingHead(_, val) => Contents(s)[1..]
            case _ => Contents(s)
    ensures a.SwingHead? ==> Contents(s) != [] && Contents(s)[0] == a.val
  {
    ActKeepsShape(s, a);
    if a.LinkNode? {
      LinkAppends(s, a, s.first + 1);
    } else {
      SameValues(s, Apply(s, a), Apply(s, a).first + 1);
    }
  }

  lemma {:induction false} LinkAppends(s: Shared, a: Act, i: nat)
    requires ShapeInv(s) && Legal(s, a) && a.LinkNode? && i <= |s.order|
    ensures ValuesFrom(Apply(s, a), i) == ValuesFrom(s, i) + [a.val]
    decreases |s.order| - i
  {
    var s' := Apply(s, a);
    if i < |s.order| {
      assert NodeOk(s, i) && s'.order[i] == s.order[i];
      LinkAppends(s, a, i + 1);
    } else {
      assert ValuesFrom(s', i + 1) == [];
    }
  }

  lemma {:induction false} SameValues(s: Shared, s': Shared, i: nat)
    requires s'.order == s.order && s'.nodes == s.nodes && i <= |s.order|
    ensures ValuesFrom(s', i) == ValuesFrom(s, i)
    decreases |s.order| - i
  {
    if i < |s.order| {
      SameValues(s, s', i + 1);
    }
  }

  // ---- Threads ----

  datatype Op = Enqueue(val: Val) | Dequeue

  /** A load of head or tail; `pos` records which node of the linking history it saw. */
  datatype Snap = Snap(word: Link, pos: nat)

  /** Program points, named by the access about to be made; the source line is beside each. */
  datatype Pc =
    | Idle
    | LoadTail                                   // 581
    | LoadTailNext(t: Snap)                      // 582
    | RecheckTail(t: Snap, next: Link)           // 584
    | CasLink(t: Snap, next: Link)               // 588
    | CasTail(t: Snap, next: Link)               // 594, 636
    | CasLinked(t: Snap, node: Id)               // 600
    | LoadHead                                   // 623
    | LoadTailToo(h: Snap)                       // 624
    | LoadHeadNext(h: Snap, t: Snap)             // 625
    | RecheckHead(h: Snap, t: Snap, next: Link)  // 628
    | Copy(h: Snap, t: Snap, next: Link)         // 639
    | CasHead(h: Snap, t: Snap, next: Link, val: Val)  // 643
    | Done(ok: bool, val: Val)

  /** `born`, `read` and `cas` record the moments the call began, the last load of a link, and the
      call's own successful compare-and-swap. */
  datatype Thread = Thread(op: Op, pc: Pc, born: nat, read: nat, cas: nat)

  datatype Choice = Choice(op: Op, unused: Id, spurious: bool)

  predicate Allowed(s: Shared, c: Choice) {
    c.unused !in s.nodes && c.unused != NONE
  }

  function Begin(op: Op): Pc {
    if op.Enqueue? then LoadTail else LoadHead
  }

  function EnqueueStep(s: Shared, t: Thread, now: nat, c: Choice): (Act, Thread) {
    match t.pc
    case LoadTail => (Nop, t.(pc := LoadTailNext(Snap(s.tail, s.last))))
    case LoadTailNext(snap) => (Nop, t.(pc := RecheckTail(snap, NodeAt(s, snap.word.frag).next), read := now))
    case RecheckTail(snap, next) =>
      (Nop, t.(pc := if snap.word != s.tail then LoadTail
                     else if next.frag == NONE then CasLink(snap, next) else CasTail(snap, next)))
    case CasLink(snap, next) =>
      if NodeAt(s, snap.word.frag).next == next && !c.spurious && t.op.Enqueue? then
        (LinkNode(snap.word.frag, c.unused, t.op.val), t.(pc := CasLinked(snap, c.unused), cas := now))
      else (Nop, t.(pc := LoadTail))
    case CasTail(snap, next) =>
      (if s.tail == snap.word && !c.spurious then SwingTail(next.frag) else Nop, t.(pc := Begin(t.op)))
    case CasLinked(snap, node) =>
      (if s.tail == snap.word && !c.spurious then SwingTail(node) else Nop, t.(pc := Done(true, [])))
    case _ => (Nop, t)
  }

  function DequeueStep(s: Shared, t: Thread, now: nat, c: Choice): (Act, Thread) {
    match t.pc
    case LoadHead => (Nop, t.(pc := LoadTailToo(Snap(s.head, s.first))))
    case LoadTailToo(h) => (Nop, t.(pc := LoadHeadNext(h, Snap(s.tail, s.last))))
    case LoadHeadNext(h, u) => (Nop, t.(pc := RecheckHead(h, u, NodeAt(s, h.word.frag).next), read := now))
    case RecheckHead(h, u, next) =>
      (Nop, t.(pc := if h.word != s.head then LoadHead
                     else if h.word.frag != u.word.frag then Copy(h, u, next)
                     else if next.frag == NONE then Done(false, []) else CasTail(u, next)))
    case Copy(h, u, next) => (Nop, t.(pc := CasHead(h, u, next, NodeAt(s, next.frag).val)))
    case CasHead(h, u, next, val) =>
      if s.head == h.word && !c.spurious then (SwingHead(next.frag, val), t.(pc := Done(true, val), cas := now))
      else (Nop, t.(pc := LoadHead))
    case _ => (Nop, t)
  }

  predicate Enqueueing(pc: Pc) {
    pc.LoadTail? || pc.LoadTailNext? || pc.RecheckTail? || pc.CasLink? || pc.CasTail? || pc.CasLinked?
  }

  predicate Resting(pc: Pc) {
    pc.Idle? || pc.Done?
  }

  function StepThread(s: Shared, t: Thread, now: nat, c: Choice): (Act, Thread) {
    if Resting(t.pc) then (Nop, Thread(c.op, Begin(c.op), now, now, now))
    else if Enqueueing(t.pc) then EnqueueStep(s, t, now, c)
    else DequeueStep(s, t, now, c)
  }

  // ---- What a thread knows ----

  predicate Saw(s: Shared, snap: Snap, limit: nat) {
    snap.pos <= limit && snap.pos < |s.order| && s.order[snap.pos] == snap.word.frag
  }

  /** `next` was loaded from the node at `pos`. */
  predicate Follows(s: Shared, pos: nat, next: Link) {
    next.frag != NONE ==> pos + 1 < |s.order| && s.order[pos + 1] == next.frag
  }

  predicate ThreadInv(s: Shared, t: Thread) {
    match t.pc
    case LoadTail => t.op.Enqueue?
    case LoadTailNext(snap) => t.op.Enqueue? && Saw(s, snap, s.last)
    case RecheckTail(snap, next) => t.op.Enqueue? && Saw(s, snap, s.last) && Follows(s, snap.pos, next)
    case CasLink(snap, next) => t.op.Enqueue? && Saw(s, snap, s.last) && next.frag == NONE
    case CasTail(snap, next) => Saw(s, snap, s.last) && next.frag != NONE && Follows(s, snap.pos, next)
    case CasLinked(snap, node) =>
      t.op.Enqueue? && Saw(s, snap, s.last) && node != NONE && Follows(s, snap.pos, Link(0, node))
    case LoadHead => t.op.Dequeue?
    case LoadTailToo(h) => t.op.Dequeue? && Saw(s, h, s.first)
    case LoadHeadNext(h, u) => t.op.Dequeue? && Saw(s, h, s.first) && Saw(s, u, s.last) && h.pos <= u.pos
    case RecheckHead(h, u, next) =>
      && t.op.Dequeue? && Saw(s, h, s.first) && Saw(s, u, s.last) && h.pos <= u.pos
      && Follows(s, h.pos, next) && (next.frag == NONE ==> h.pos == u.pos)
    case Copy(h, u, next) =>
      && t.op.Dequeue? && Saw(s, h, s.first) && Saw(s, u, s.last) && h.pos < u.pos
      && next.frag != NONE && Follows(s, h.pos, next)
    case CasHead(h, u, next, val) =>
      && t.op.Dequeue? && Saw(s, h, s.first) && Saw(s, u, s.last) && h.pos < u.pos
      && next.frag != NONE && Follows(s, h.pos, next) && val == NodeAt(s, next.frag).val
    case _ => true
  }

  /** What no write undoes. */
  predicate Extends(s: Shared, s': Shared) {
    && s.order <= s'.order && s.first <= s'.first && s.last <= s'.last
    && forall n :: n in s.nodes ==> n in s'.nodes && s'.nodes[n].val == s.nodes[n].val
  }

  lemma ActExtends(s: Shared, a: Act)
    requires ShapeInv(s) && Legal(s, a)
    ensures Extends(s, Apply(s, a))
  {
    if a.LinkNode? {
      assert NodeOk(s, s.last);
    }
  }

  lemma ThreadInvExtends(s: Shared, s': Shared, t: Thread)
    requires ShapeInv(s) && Extends(s, s') && ThreadInv(s, t)
    ensures ThreadInv(s', t)
  {
    if t.pc.CasHead? {
      assert NodeOk(s, t.pc.h.pos + 1);
    }
  }

  lemma EnqueueStepInv(s: Shared, t: Thread, now: nat, c: Choice)
    requires ShapeInv(s) && ThreadInv(s, t) && Enqueueing(t.pc) && Allowed(s, c)
    ensures var (a, t') := EnqueueStep(s, t, now, c);
            Legal(s, a) && ThreadInv(Apply(s, a), t')
  {
    if !t.pc.LoadTail? {
      var pos := t.pc.t.pos;
      assert NodeOk(s, pos) && Distinct(s.order, pos, s.last);
      assert pos + 1 < |s.order| ==> NodeOk(s, pos + 1);
    }
  }

  lemma DequeueStepInv(s: Shared, t: Thread, now: nat, c: Choice)
    requires ShapeInv(s) && ThreadInv(s, t) && !Enqueueing(t.pc) && !Resting(t.pc)
    ensures var (a, t') := DequeueStep(s, t, now, c);
            Legal(s, a) && ThreadInv(Apply(s, a), t')
  {
    if !t.pc.LoadHead? {
      var pos := t.pc.h.pos;
      assert NodeOk(s, pos) && Distinct(s.order, pos, s.first);
      assert pos + 1 < |s.order| ==> NodeOk(s, pos + 1);
      if t.pc.RecheckHead? {
        assert Distinct(s.order, pos, t.pc.t.pos);
      }
    }
  }
}
