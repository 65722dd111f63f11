/** The shared memory of the lock-free sorted list: nodes, the words that threads compare and swap,
    and what every such write keeps. */
module ListHeap {

  /** A node address. Every node in a heap has been published: a node enters the heap at the
      compare-and-swap that links it, already holding its key and its successor. */
  type Id = int

  const NULL: Id := -1
  const HEAD: Id := 0
  const TAIL: Id := 1

  /** INTPTR_MIN and INTPTR_MAX, the keys of the two sentinels. */
  const KEY_MIN: int := -0x8000_0000_0000_0000
  const KEY_MAX: int := 0x7FFF_FFFF_FFFF_FFFF

  /** One successor word: the pointer with its mark and its flag, always read and written together. */
  datatype Ref = Ref(node: Id, mark: bool, flag: bool)

  datatype Node = Node(key: int, succ: Ref, backlink: Id)

  type Heap = map<Id, Node>

  /** What a wild dereference would yield; `NoWildAccess` shows that no thread ever sees it. */
  const WILD := Node(0, Ref(NULL, false, false), NULL)

  function At(h: Heap, n: Id): Node {
    if n in h then h[n] else WILD
  }

  /** The list built by `list_create`: head linked to tail. */
  const EMPTY: Heap := map[HEAD := Node(KEY_MIN, Ref(TAIL, false, false), NULL),
                           TAIL := Node(KEY_MAX, Ref(NULL, false, false), NULL)]

  /** `p` says that its successor `d` is to be deleted. */
  predicate FlaggedAt(h: Heap, p: Id, d: Id) {
    p in h && d in h && h[p].succ == Ref(d, false, true)
  }

  ghost predicate Flagged(h: Heap, d: Id) {
    exists p :: FlaggedAt(h, p, d)
  }

  /** A marked node stays linked until the compare-and-swap at the predecessor flagged at it. */
  ghost predicate Linked(h: Heap, n: Id)
    requires n in h
  {
    !h[n].succ.mark || Flagged(h, n)
  }

  /** Some thread has won the deletion of `d`. */
  ghost predicate Leaving(h: Heap, d: Id) {
    d in h && (h[d].succ.mark || Flagged(h, d))
  }

  /** It is safe to help delete `d`, and to make `p` its backlink. */
  ghost predicate Helpable(h: Heap, d: Id, p: Id) {
    Leaving(h, d) && p in h && h[p].key < h[d].key
  }

  /** The backlink is set, and leads to a smaller key. */
  predicate Backed(h: Heap, d: Id) {
    d in h && h[d].backlink in h && h[h[d].backlink].key < h[d].key
  }

  predicate Sentinels(h: Heap) {
    && NULL !in h && HEAD in h && TAIL in h
    && h[HEAD].key == KEY_MIN && !h[HEAD].succ.mark
    && h[TAIL].key == KEY_MAX && h[TAIL].succ == Ref(NULL, false, false)
  }

  /** Keys increase strictly along every successor pointer, even those of unlinked nodes, and
      decrease along the backlinks of marked nodes. */
  predicate Ordered(h: Heap, n: Id)
    requires n in h
  {
    && (n == HEAD || n == TAIL || KEY_MIN < h[n].key < KEY_MAX)
    && (n != TAIL ==>
          && h[n].succ.node in h && h[n].key < h[h[n].succ.node].key
          && !(h[n].succ.mark && h[n].succ.flag)
          && (h[n].succ.flag ==> h[n].succ.node != TAIL))
    && (h[n].succ.mark ==> Backed(h, n))
  }

  /** The successor of a linked node is linked, and is marked only under a flag. */
  ghost predicate Closed(h: Heap, n: Id)
    requires n in h
  {
    n != TAIL && Linked(h, n) ==>
      var s := h[n].succ.node;
      s in h && Linked(h, s) && (h[s].succ.mark ==> h[n].succ.flag)
  }

  ghost predicate NodeInv(h: Heap, n: Id)
    requires n in h
  {
    Ordered(h, n) && Closed(h, n)
  }

  /** No linked node lies strictly between a linked node and its successor; linked keys are distinct. */
  ghost predicate Gapless(h: Heap, a: Id, b: Id)
    requires a in h && b in h
  {
    Linked(h, a) && Linked(h, b) ==>
      && (h[a].key == h[b].key ==> a == b)
      && (a != TAIL && h[a].key < h[b].key ==> At(h, h[a].succ.node).key <= h[b].key)
  }

  ghost predicate HeapInv(h: Heap) {
    && Sentinels(h)
    && (forall n {:trigger NodeInv(h, n)} :: n in h ==> NodeInv(h, n))
    && (forall a, b {:trigger Gapless(h, a, b)} :: a in h && b in h ==> Gapless(h, a, b))
  }

  /** The writes a thread can make to shared list memory, with the operands of the write. */
  datatype Act =
    | Nop
    | Insert(prev: Id, next: Id, node: Id, key: int)
    | Flag(prev: Id, del: Id)
    | Mark(del: Id, next: Id)
    | Unlink(prev: Id, del: Id, next: Id)
    | SetBacklink(del: Id, prev: Id)

  function WithSucc(h: Heap, n: Id, r: Ref): Heap {
    if n in h then h[n := h[n].(succ := r)] else h
  }

  function Apply(h: Heap, a: Act): Heap {
    match a
    case Nop => h
    case Insert(prev, next, node, key) =>
      WithSucc(h, prev, Ref(node, false, false))[node := Node(key, Ref(next, false, false), NULL)]
    case Flag(prev, del) => WithSucc(h, prev, Ref(del, false, true))
    case Mark(del, next) => WithSucc(h, del, Ref(next, true, false))
    case Unlink(prev, del, next) => WithSucc(h, prev, Ref(next, false, false))
    case SetBacklink(del, prev) => if del in h then h[del := h[del].(backlink := prev)] else h
  }

  /** What must hold of the heap when a thread makes the write, beyond the word it expects. */
  ghost predicate Legal(h: Heap, a: Act) {
    match a
    case Nop => true
    case Insert(prev, next, node, key) =>
      && prev in h && next in h && node !in h && node != NULL
      && h[prev].succ == Ref(next, false, false) && h[prev].key < key < h[next].key
    case Flag(prev, del) => prev in h && h[prev].succ == Ref(del, false, false) && del in h && del != TAIL
    case Mark(del, next) => del in h && h[del].succ == Ref(next, false, false) && Flagged(h, del) && Backed(h, del)
    case Unlink(prev, del, next) =>
      && prev in h && h[prev].succ == Ref(del, false, true)
      && del in h && h[del].succ == Ref(next, true, false)
    case SetBacklink(del, prev) => Helpable(h, del, prev)
  }

  lemma EmptyInv()
    ensures HeapInv(EMPTY)
    ensures EMPTY[HEAD].key == -0x8000_0000_0000_0000 && EMPTY[TAIL].key == 0x7FFF_FFFF_FFFF_FFFF
  {
  }

  /** A linked node has one linked predecessor. */
  lemma OnePredecessor(h: Heap, a: Id, b: Id)
    requires HeapInv(h) && a in h && b in h && a != TAIL && b != TAIL
    requires Linked(h, a) && Linked(h, b) && h[a].succ.node == h[b].succ.node
    ensures a == b
  {
    assert NodeInv(h, a) && NodeInv(h, b);
    assert Gapless(h, a, b) && Gapless(h, b, a);
  }

  /** Who is flagged at whom after a write. */
  lemma FlaggedAtAfter(h: Heap, a: Act, p: Id, d: Id)
    requires HeapInv(h) && Legal(h, a) && d in h
    ensures FlaggedAt(Apply(h, a), p, d) <==> a == Flag(p, d) || (FlaggedAt(h, p, d) && !(a.Unlink? && a.del == d))
  {
    assert p in h ==> NodeInv(h, p);
    if a.Unlink? && a.del == d && FlaggedAt(h, p, d) {
      assert NodeInv(h, a.prev);
      OnePredecessor(h, p, a.prev);
    }
  }

  lemma FlaggedAfter(h: Heap, a: Act, d: Id)
    requires HeapInv(h) && Legal(h, a) && d in h
    ensures Flagged(Apply(h, a), d) <==> (a.Flag? && a.del == d) || (Flagged(h, d) && !(a.Unlink? && a.del == d))
  {
    var h' := Apply(h, a);
    if p :| FlaggedAt(h', p, d) {
      FlaggedAtAfter(h, a, p, d);
    }
    if p :| FlaggedAt(h, p, d) {
      FlaggedAtAfter(h, a, p, d);
    }
    if a.Flag? {
      assert FlaggedAt(h', a.prev, a.del);
    }
  }

  /** Only the unlinking of a node ends its being linked. */
  lemma LinkedAfter(h: Heap, a: Act, n: Id)
    requires HeapInv(h) && Legal(h, a) && n in h
    ensures n in Apply(h, a) && (Linked(Apply(h, a), n) <==> Linked(h, n) && !(a.Unlink? && a.del == n))
  {
    FlaggedAfter(h, a, n);
    if a.Flag? {
      assert NodeInv(h, a.prev);
    }
  }

  lemma InsertKeeps(h: Heap, prev: Id, next: Id, node: Id, key: int)
    requires HeapInv(h) && Legal(h, Insert(prev, next, node, key))
    ensures HeapInv(Apply(h, Insert(prev, next, node, key)))
  {
    var a := Insert(prev, next, node, key);
    var h' := Apply(h, a);
    assert NodeInv(h, prev) && NodeInv(h, next);
    forall n | n in h'
      ensures NodeInv(h', n)
    {
      if n != node {
        assert NodeInv(h, n);
        LinkedAfter(h, a, n);
        if n != TAIL {
          LinkedAfter(h, a, h[n].succ.node);
        }
      } else {
        LinkedAfter(h, a, next);
      }
    }
    forall m, n | m in h' && n in h'
      ensures Gapless(h', m, n)
    {
      InsertKeepsGapless(h, prev, next, node, key, m, n);
    }
  }

  lemma InsertKeepsGapless(h: Heap, prev: Id, next: Id, node: Id, key: int, m: Id, n: Id)
    requires HeapInv(h) && Legal(h, Insert(prev, next, node, key))
    requires m in Apply(h, Insert(prev, next, node, key)) && n in Apply(h, Insert(prev, next, node, key))
    ensures Gapless(Apply(h, Insert(prev, next, node, key)), m, n)
  {
    var a := Insert(prev, next, node, key);
    assert NodeInv(h, prev) && NodeInv(h, next);
    if m != node {
      assert NodeInv(h, m);
      LinkedAfter(h, a, m);
    }
    if n != node {
      assert NodeInv(h, n);
      LinkedAfter(h, a, n);
    }
    if m != node && n != node {
      assert Gapless(h, m, n);
    } else if m != node {
      assert Gapless(h, m, prev) && Gapless(h, prev, m);
    } else if n != node {
      assert Gapless(h, n, prev) && Gapless(h, prev, n);
    }
  }

  /** The invariant's pairwise half, for the writes that move no node but the one they may unlink. */
  lemma KeepsGapless(h: Heap, a: Act)
    requires HeapInv(h) && Legal(h, a) && !a.Insert?
    ensures forall m, n :: m in Apply(h, a) && n in Apply(h, a) ==> Gapless(Apply(h, a), m, n)
  {
    var h' := Apply(h, a);
    forall m, n | m in h' && n in h'
      ensures Gapless(h', m, n)
    {
      assert Gapless(h, m, n);
      LinkedAfter(h, a, m);
      LinkedAfter(h, a, n);
      if a.Unlink? && a.prev == m {
        assert Gapless(h, a.del, n) && NodeInv(h, m);
      }
    }
  }

  lemma FlagKeeps(h: Heap, prev: Id, del: Id)
    requires HeapInv(h) && Legal(h, Flag(prev, del))
    ensures HeapInv(Apply(h, Flag(prev, del)))
  {
    var a := Flag(prev, del);
    var h' := Apply(h, a);
    assert NodeInv(h, prev);
    forall n | n in h'
      ensures NodeInv(h', n)
    {
      assert NodeInv(h, n);
      LinkedAfter(h, a, n);
      if n != TAIL {
        LinkedAfter(h, a, h[n].succ.node);
      }
    }
    KeepsGapless(h, a);
  }

  lemma MarkKeeps(h: Heap, del: Id, next: Id)
    requires HeapInv(h) && Legal(h, Mark(del, next))
    ensures HeapInv(Apply(h, Mark(del, next)))
  {
    var a := Mark(del, next);
    var h' := Apply(h, a);
    var prev :| FlaggedAt(h, prev, del);
    assert NodeInv(h, del) && NodeInv(h, prev);
    forall n | n in h'
      ensures NodeInv(h', n)
    {
      assert NodeInv(h, n);
      LinkedAfter(h, a, n);
      if n != TAIL {
        LinkedAfter(h, a, h[n].succ.node);
        if n != prev && Linked(h, n) && h[n].succ.node == del {
          OnePredecessor(h, n, prev);
        }
      }
    }
    KeepsGapless(h, a);
  }

  lemma UnlinkKeeps(h: Heap, prev: Id, del: Id, next: Id)
    requires HeapInv(h) && Legal(h, Unlink(prev, del, next))
    ensures HeapInv(Apply(h, Unlink(prev, del, next)))
    ensures !Linked(Apply(h, Unlink(prev, del, next)), del)
  {
    var a := Unlink(prev, del, next);
    var h' := Apply(h, a);
    assert NodeInv(h, prev) && NodeInv(h, del) && NodeInv(h, next);
    LinkedAfter(h, a, del);
    assert FlaggedAt(h, prev, del);
    forall n | n in h'
      ensures NodeInv(h', n)
    {
      assert NodeInv(h, n);
      LinkedAfter(h, a, n);
      LinkedAfter(h, a, next);
      if n != TAIL {
        LinkedAfter(h, a, h[n].succ.node);
        if n != prev && Linked(h, n) && h[n].succ.node == del {
          OnePredecessor(h, n, prev);
        }
      }
    }
    KeepsGapless(h, a);
  }

  lemma SetBacklinkKeeps(h: Heap, del: Id, prev: Id)
    requires HeapInv(h) && Legal(h, SetBacklink(del, prev))
    ensures HeapInv(Apply(h, SetBacklink(del, prev)))
  {
    var a := SetBacklink(del, prev);
    var h' := Apply(h, a);
    HelpableBounds(h, del, prev);
    forall n | n in h'
      ensures NodeInv(h', n)
    {
      assert NodeInv(h, n);
      LinkedAfter(h, a, n);
      if n != TAIL {
        LinkedAfter(h, a, h[n].succ.node);
      }
    }
    KeepsGapless(h, a);
  }

  lemma ActKeeps(h: Heap, a: Act)
    requires HeapInv(h) && Legal(h, a)
    ensures HeapInv(Apply(h, a))
  {
    match a
    case Nop =>
    case Insert(prev, next, node, key) => InsertKeeps(h, prev, next, node, key);
    case Flag(prev, del) => FlagKeeps(h, prev, del);
    case Mark(del, next) => MarkKeeps(h, del, next);
    case Unlink(prev, del, next) => UnlinkKeeps(h, prev, del, next);
    case SetBacklink(del, prev) => SetBacklinkKeeps(h, del, prev);
  }

  // ---- What no write ever undoes ----

  /** Helping to delete `d` from `p` is safe, and the backlink of `d` has been written. */
  ghost predicate Claimed(h: Heap, d: Id, p: Id) {
    Helpable(h, d, p) && Backed(h, d)
  }

  lemma HelpableBounds(h: Heap, d: Id, p: Id)
    requires HeapInv(h) && Helpable(h, d, p)
    ensures d != HEAD && d != TAIL && p != TAIL && h[p].key < h[d].key
  {
    assert NodeInv(h, p) && NodeInv(h, d);
    assert NodeInv(h, HEAD);
    if q :| FlaggedAt(h, q, d) {
      assert NodeInv(h, q);
    }
  }

  lemma FlagHelpable(h: Heap, p: Id)
    requires HeapInv(h) && p in h && h[p].succ.flag
    ensures var d := h[p].succ.node;
            FlaggedAt(h, p, d) && Flagged(h, d) && Helpable(h, d, p)
  {
    assert NodeInv(h, p) && NodeInv(h, TAIL);
    assert FlaggedAt(h, p, h[p].succ.node);
  }

  /** Keys stay; a mark stays, with its successor; a node once unlinked stays so. */
  ghost predicate NodeEvolves(h: Heap, h': Heap, n: Id)
    requires n in h
  {
    && n in h' && h'[n].key == h[n].key
    && (h[n].succ.mark ==> h'[n].succ == h[n].succ)
    && (Linked(h', n) ==> Linked(h, n))
  }

  ghost predicate FlagEvolves(h: Heap, h': Heap, d: Id, p: Id) {
    (Helpable(h, d, p) ==> Helpable(h', d, p)) && (Claimed(h, d, p) ==> Claimed(h', d, p))
  }

  ghost predicate Evolves(h: Heap, h': Heap) {
    && (forall n {:trigger NodeEvolves(h, h', n)} :: n in h ==> NodeEvolves(h, h', n))
    && (forall d, p {:trigger FlagEvolves(h, h', d, p)} :: FlagEvolves(h, h', d, p))
  }

  lemma ActEvolvesNode(h: Heap, a: Act, n: Id)
    requires HeapInv(h) && Legal(h, a) && n in h
    ensures NodeEvolves(h, Apply(h, a), n)
  {
    assert NodeInv(h, n);
    LinkedAfter(h, a, n);
  }

  lemma ActEvolvesFlag(h: Heap, a: Act, d: Id, p: Id)
    requires HeapInv(h) && Legal(h, a)
    ensures FlagEvolves(h, Apply(h, a), d, p)
  {
    if Helpable(h, d, p) {
      ActEvolvesNode(h, a, d);
      ActEvolvesNode(h, a, p);
      FlaggedAfter(h, a, d);
      if Backed(h, d) {
        ActEvolvesNode(h, a, h[d].backlink);
      }
    }
  }

  lemma ActEvolves(h: Heap, a: Act)
    requires HeapInv(h) && Legal(h, a)
    ensures Evolves(h, Apply(h, a))
  {
    forall n | n in h
      ensures NodeEvolves(h, Apply(h, a), n)
    {
      ActEvolvesNode(h, a, n);
    }
    forall d, p
      ensures FlagEvolves(h, Apply(h, a), d, p)
    {
      ActEvolvesFlag(h, a, d, p);
    }
  }

  // ---- The abstract set ----

  /** The keys of the list: those of its unmarked nodes. */
  ghost function KeySet(h: Heap): set<int> {
    set n | n in h && n != HEAD && n != TAIL && !h[n].succ.mark :: h[n].key
  }

  ghost predicate Holds(h: Heap, n: Id, k: int) {
    n in h && n != HEAD && n != TAIL && !h[n].succ.mark && h[n].key == k
  }

  /** The effect of a write on the abstract set, given the key of the node it names. */
  function SetAfter(s: set<int>, a: Act, key: int): set<int> {
    match a
    case Insert(_, _, _, _) => s + {key}
    case Mark(_, _) => s - {key}
    case _ => s
  }

  function KeyOf(h: Heap, a: Act): int {
    match a
    case Insert(_, _, _, key) => key
    case Mark(del, _) => At(h, del).key
    case _ => 0
  }

  lemma KeySetIff(h: Heap, k: int)
    ensures k in KeySet(h) <==> exists n :: Holds(h, n, k)
  {
    if k in KeySet(h) {
      var n :| n in h && n != HEAD && n != TAIL && !h[n].succ.mark && h[n].key == k;
      assert Holds(h, n, k);
    }
    if n :| Holds(h, n, k) {
      assert h[n].key in KeySet(h);
    }
  }

  /** The key under an insertion is absent; the key of a node being marked is present, once. */
  lemma InsertIsFresh(h: Heap, a: Act, n: Id)
    requires HeapInv(h) && Legal(h, a) && a.Insert? && n in h && !h[n].succ.mark
    ensures h[n].key != a.key && n != a.node
  {
    assert NodeInv(h, a.prev);
    assert Gapless(h, a.prev, n);
  }

  lemma UnmarkedKeysDistinct(h: Heap, m: Id, n: Id)
    requires HeapInv(h) && m in h && n in h && !h[m].succ.mark && !h[n].succ.mark && h[m].key == h[n].key
    ensures m == n
  {
    assert Gapless(h, m, n);
  }

  /** Insertion adds an absent key, marking removes a present one, no other write changes the set. */
  lemma ActRefinesSet(h: Heap, a: Act)
    requires HeapInv(h) && Legal(h, a)
    ensures KeySet(Apply(h, a)) == SetAfter(KeySet(h), a, KeyOf(h, a))
    ensures a.Insert? ==> a.key !in KeySet(h)
    ensures a.Mark? ==> h[a.del].key in KeySet(h)
  {
    var h' := Apply(h, a);
    var s := SetAfter(KeySet(h), a, KeyOf(h, a));
    if a.Mark? {
      HelpableBounds(h, a.del, h[a.del].backlink);
      assert Holds(h, a.del, h[a.del].key);
      KeySetIff(h, h[a.del].key);
    }
    if a.Insert? {
      KeySetIff(h, a.key);
      if n :| Holds(h, n, a.key) {
        InsertIsFresh(h, a, n);
      }
    }
    forall k
      ensures k in KeySet(h') <==> k in s
    {
      KeyRefines(h, a, k);
    }
  }

  lemma KeyRefines(h: Heap, a: Act, k: int)
    requires HeapInv(h) && Legal(h, a)
    ensures k in KeySet(Apply(h, a)) <==> k in SetAfter(KeySet(h), a, KeyOf(h, a))
  {
    var h' := Apply(h, a);
    KeySetIff(h, k);
    KeySetIff(h', k);
    if n :| Holds(h, n, k) {
      if a.Mark? && a.del != n && h[a.del].key == k {
        UnmarkedKeysDistinct(h, a.del, n);
      }
      assert (a.Mark? && a.del == n) || Holds(h', n, k);
    }
    if n :| Holds(h', n, k) {
      assert (a.Insert? && a.node == n) || Holds(h, n, k);
      if a.Mark? && h[a.del].key == k {
        UnmarkedKeysDistinct(h, a.del, n);
      }
    }
    if a.Insert? && a.key == k {
      assert a.node != HEAD && a.node != TAIL;
      assert Holds(h', a.node, k);
    }
  }

  // ---- Reachability ----

  /** The node reached from `n` by following `steps` successor pointers. */
  ghost function Hop(h: Heap, n: Id, steps: nat): Id
    decreases steps
  {
    if steps == 0 then n else Hop(h, At(h, n).succ.node, steps - 1)
  }

  ghost function Beyond(h: Heap, k: int): set<Id> {
    set n | n in h && h[n].key > k
  }

  lemma LinkedReachableFrom(h: Heap, a: Id, n: Id) returns (steps: nat)
    requires HeapInv(h) && a in h && n in h && Linked(h, a) && Linked(h, n) && h[a].key <= h[n].key
    ensures Hop(h, a, steps) == n
    decreases Beyond(h, h[a].key)
  {
    assert Gapless(h, a, n) && NodeInv(h, a) && NodeInv(h, n);
    if a == n {
      steps := 0;
    } else {
      var s := h[a].succ.node;
      assert s in Beyond(h, h[a].key) && s !in Beyond(h, h[s].key);
      steps := LinkedReachableFrom(h, s, n);
      steps := steps + 1;
    }
  }

  /** Every inserted node that is not yet marked is reachable from the head. */
  lemma UnmarkedReachable(h: Heap, n: Id)
    requires HeapInv(h) && n in h && !h[n].succ.mark
    ensures exists steps: nat :: Hop(h, HEAD, steps) == n
  {
    assert NodeInv(h, n);
    var steps := LinkedReachableFrom(h, HEAD, n);
  }

  /** A marked node that is still linked hangs between one unmarked predecessor flagged at it and an
      unmarked successor. */
  lemma MarkedStillLinked(h: Heap, d: Id) returns (p: Id)
    requires HeapInv(h) && d in h && h[d].succ.mark && Linked(h, d)
    ensures FlaggedAt(h, p, d) && !h[p].succ.mark && h[p].key < h[d].key
    ensures forall q :: FlaggedAt(h, q, d) ==> q == p
    ensures h[d].succ.node in h && !h[h[d].succ.node].succ.mark
  {
    p :| FlaggedAt(h, p, d);
    assert NodeInv(h, d) && NodeInv(h, p);
    forall q | FlaggedAt(h, q, d)
      ensures q == p
    {
      assert NodeInv(h, q);
      OnePredecessor(h, q, p);
    }
  }

  /** Following backlinks from any node ends at an unmarked node at or after the head. */
  ghost function Unwound(h: Heap, n: Id): (r: Id)
    requires HeapInv(h) && n in h
    ensures r in h && !h[r].succ.mark && h[r].key <= h[n].key && KEY_MIN <= h[r].key
    decreases h[n].key - KEY_MIN
  {
    assert NodeInv(h, n);
    if h[n].succ.mark then
      assert NodeInv(h, h[n].backlink);
      Unwound(h, h[n].backlink)
    else n
  }
}
