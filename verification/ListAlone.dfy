/** The list operations run alone from any heap that other threads may have left behind, with their
    deletions half done: every one of them terminates and does what it promises. */
module ListAlone {
  import opened ListHeap
  import opened ListHistory
  import opened ListHelping
  import opened MemoryPools

  class AloneList {
    var heap: Heap
    const faults: Faults

    constructor (f: Faults)
      ensures faults == f && heap == EMPTY && HeapInv(heap)
    {
      faults := f;
      heap := EMPTY;
      EmptyInv();
    }

    /** `help_marked`. Its compare-and-swap is taken not to fail spuriously. */
    method HelpMarked(prev: Id, del: Id)
      requires HeapInv(heap) && prev in heap && del in heap && heap[del].succ.mark
      modifies this`heap
      ensures HeapInv(heap) && Helps(old(heap), heap)
      ensures heap == if old(heap)[prev].succ == Ref(del, false, true)
                      then Apply(old(heap), Unlink(prev, del, old(heap)[del].succ.node)) else old(heap)
      ensures old(heap)[prev].succ == Ref(del, false, true) ==> !Linked(heap, del)
    {
      HelpsSelf(heap);
      var beyond := heap[del].succ.node;
      if heap[prev].succ == Ref(del, false, true) {
        assert NodeInv(heap, del) && NodeInv(heap, prev);
        ActHelps(heap, Unlink(prev, del, beyond));
        UnlinkKeeps(heap, prev, del, beyond);
        heap := Apply(heap, Unlink(prev, del, beyond));
      }
    }

    /** `search_from`, alone: the pair it returns is linked at that very moment, and it only tidies. */
    method SearchFrom(key: int, start: Id) returns (curr: Id, next: Id)
      requires HeapInv(heap) && start in heap && heap[start].key <= key < KEY_MAX
      modifies this`heap
      ensures SearchEnds(old(heap), heap, key, curr, next)
      ensures !old(heap)[start].succ.mark ==> !heap[curr].succ.mark
    {
      HelpsSelf(heap);
      curr := start;
      assert NodeInv(heap, curr);
      next := heap[curr].succ.node;
      while heap[next].key <= key
        invariant HeapInv(heap) && Helps(old(heap), heap) && KeySet(heap) == KeySet(old(heap))
        invariant curr in heap && heap[curr].succ.node == next && next in heap
        invariant heap[curr].key <= key && curr != TAIL
        invariant !old(heap)[start].succ.mark ==> !heap[curr].succ.mark
        decreases Beyond(heap, heap[curr].key), heap[next].key <= key
      {
        ghost var h0 := heap;
        while heap[next].succ.mark && (!heap[curr].succ.mark || heap[curr].succ.node != next)
          invariant HeapInv(heap) && Helps(old(heap), heap) && Helps(h0, heap) && KeySet(heap) == KeySet(old(heap))
          invariant curr in heap && heap[curr].succ.node == next && next in heap
          invariant heap[curr].key <= key && curr != TAIL && heap[curr].key == h0[curr].key
          invariant heap[curr].succ.mark == h0[curr].succ.mark
          decreases Right(heap, heap[curr].key)
        {
          ghost var h1 := heap;
          assert NodeInv(heap, curr);
          RightStep(heap, curr);
          if heap[curr].succ.node == next {
            HelpMarked(curr, next);
            SameKeys(h1, curr, next);
          }
          HelpsTrans(old(heap), h1, heap);
          HelpsTrans(h0, h1, heap);
          RightShrinks(h1, heap, heap[curr].key, heap[curr].key);
          assert next in Right(h1, h1[curr].key) && next !in Right(heap, heap[curr].key);
          assert NodeInv(heap, curr);
          next := heap[curr].succ.node;
        }
        SameBeyond(h0, heap, h0[curr].key);
        if heap[next].key <= key {
          assert NodeInv(heap, curr) && NodeInv(heap, next);
          assert next in Beyond(heap, heap[curr].key) && next !in Beyond(heap, heap[next].key);
          curr := next;
          next := heap[curr].succ.node;
        }
      }
    }

    /** `try_mark`: marks `del`, first finishing any deletion that was under way behind it. */
    method TryMark(ghost prev: Id, del: Id)
      requires HeapInv(heap) && FlaggedAt(heap, prev, del) && heap[del].backlink == prev && !heap[del].succ.mark
      modifies this`heap, faults
      ensures heap == MarkedHeap(old(heap), del)
      ensures HeapInv(heap) && Helps(old(heap), heap)
      ensures heap[del].succ.mark && heap[del].backlink == prev && Below(old(heap), heap, old(heap)[del].key)
      ensures if old(heap)[del].succ.flag then
                var s := old(heap)[del].succ.node;
                s in heap && heap[s].succ.mark && !Linked(heap, s)
              else heap == Apply(old(heap), Mark(del, old(heap)[del].succ.node))
      ensures faults.budget <= old(faults.budget)
      decreases Right(heap, heap[del].key), 0
    {
      ghost var h := heap;
      MarkedFacts(h, prev, del);
      assert NodeInv(h, del) && NodeInv(h, prev);
      while true
        invariant heap == h || (h[del].succ.flag && heap == HelpedHeap(h, del, h[del].succ.node))
        invariant HeapInv(heap) && Helps(h, heap) && FlaggedAt(heap, prev, del) && !heap[del].succ.mark
        invariant heap != h ==> !heap[del].succ.flag
        invariant faults.budget <= old(faults.budget)
        decreases faults.budget, heap[del].succ.flag
      {
        ghost var h0 := heap;
        var next := heap[del].succ.node;
        var fail := faults.Strike();
        if heap[del].succ == Ref(next, false, false) && !fail {
          heap := Apply(heap, Mark(del, next));
        }
        var result := heap[del].succ;
        if !result.mark && result.flag {
          RightShrinks(h, heap, h[del].key, heap[del].key);
          RightStep(heap, del);
          HelpFlagged(del, result.node);
        }
        if heap[del].succ.mark {
          return;
        }
      }
    }

    /** `help_flagged`: from any heap in which `prev` is flagged at `del`, ends with `del` marked and
        unlinked, and nothing in front of `prev` changed. */
    method HelpFlagged(prev: Id, del: Id)
      requires HeapInv(heap) && FlaggedAt(heap, prev, del)
      modifies this`heap, faults
      ensures heap == HelpedHeap(old(heap), prev, del) && Completes(old(heap), heap, prev, del)
      ensures var h := old(heap);
              !h[del].succ.mark && !h[del].succ.flag ==>
                heap == h[del := h[del].(succ := Ref(h[del].succ.node, true, false), backlink := prev)]
                         [prev := h[prev].(succ := Ref(h[del].succ.node, false, false))]
      ensures faults.budget <= old(faults.budget)
      decreases Right(heap, heap[del].key), 1
    {
      assert NodeInv(heap, prev) && NodeInv(heap, del);
      ghost var h := heap;
      HelpedFacts(h, prev, del);
      ActHelps(h, SetBacklink(del, prev));
      heap := Apply(heap, SetBacklink(del, prev));
      RightShrinks(h, heap, h[del].key, h[del].key);
      if !heap[del].succ.mark {
        TryMark(prev, del);
      }
      HelpMarked(prev, del);
    }

    /** The loops that leave marked nodes along their backlinks. */
    method Unwind(start: Id) returns (prev: Id)
      requires HeapInv(heap) && start in heap
      ensures prev in heap && !heap[prev].succ.mark && heap[prev].key <= heap[start].key
      ensures !heap[start].succ.mark ==> prev == start
    {
      prev := start;
      while heap[prev].succ.mark
        invariant prev in heap && heap[prev].key <= heap[start].key
        invariant !heap[start].succ.mark ==> prev == start
        decreases heap[prev].key - KEY_MIN
      {
        assert NodeInv(heap, prev) && NodeInv(heap, heap[prev].backlink);
        prev := heap[prev].backlink;
      }
    }

    /** `try_flag`: flags the predecessor of `target`, or finds it flagged, or finds `target` gone. */
    method TryFlag(start: Id, target: Id) returns (won: bool, result: Id, ghost mid: Heap)
      requires HeapInv(heap) && start in heap && target in heap
      requires heap[start].key < heap[target].key && KEY_MIN < heap[target].key < KEY_MAX
      modifies this`heap, faults
      ensures HeapInv(heap) && HeapInv(mid) && Helps(old(heap), mid)
      ensures heap == if won then Apply(mid, Flag(result, target)) else mid
      ensures won ==> Legal(mid, Flag(result, target))
      ensures result != NULL ==> result in heap && heap[result].succ == Ref(target, false, true)
      ensures result == NULL ==> !won && heap[target].succ.mark
    {
      HelpsSelf(heap);
      mid := heap;
      var prev := start;
      while true
        invariant HeapInv(heap) && Helps(old(heap), heap) && mid == heap
        invariant prev in heap && target in heap
        invariant heap[prev].key < heap[target].key && KEY_MIN < heap[target].key < KEY_MAX
        decreases faults.budget, heap[prev].succ.mark || heap[prev].succ.node != target
      {
        if heap[prev].succ.node == target && !heap[prev].succ.mark && heap[prev].succ.flag {
          assert NodeInv(heap, prev);
          return false, prev, heap;
        }
        assert NodeInv(heap, TAIL);
        var fail := faults.Strike();
        if heap[prev].succ == Ref(target, false, false) && !fail {
          ActKeeps(heap, Flag(prev, target));
          heap := Apply(heap, Flag(prev, target));
          return true, prev, mid;
        }
        prev := Unwind(prev);
        var del: Id;
        prev, del := SearchFrom(heap[target].key - 1, prev);
        assert HelpsNode(mid, heap, target);
        HelpsTrans(old(heap), mid, heap);
        mid := heap;
        if del != target {
          assert NodeInv(heap, prev) && Gapless(heap, prev, target) && Gapless(heap, del, target);
          return false, NULL, heap;
        }
      }
    }

    /** The loop of `list_insert`: links `node` unless it finds the key in the list. */
    method InsertFrom(key: int, start: Id, after: Id, node: Id) returns (ok: bool, ghost mid: Heap, ghost act: Act)
      requires HeapInv(heap) && start in heap && after in heap && node !in heap && node != NULL
      requires heap[start].key < key < heap[after].key && KEY_MIN < key < KEY_MAX
      modifies this`heap, faults
      ensures HeapInv(heap) && HeapInv(mid) && Helps(old(heap), mid)
      ensures ok ==> act.Insert? && act.node == node && act.key == key && Legal(mid, act) && heap == Apply(mid, act)
      ensures !ok ==> heap == mid && key in KeySet(heap)
    {
      HelpsSelf(heap);
      mid, act := heap, Nop;
      var prev, next := start, after;
      while true
        invariant HeapInv(heap) && Helps(old(heap), heap) && mid == heap && act == Nop
        invariant prev in heap && next in heap && heap[prev].key < key < heap[next].key
        decreases faults.budget, AllLinked(heap), heap[prev].succ.mark || heap[prev].succ.node != next
      {
        assert NodeInv(heap, prev) && NodeInv(heap, TAIL);
        if heap[prev].succ.flag {
          HelpFlagged(prev, heap[prev].succ.node);
          FewerLinked(mid, heap, mid[prev].succ.node);
        } else {
          var fail := faults.Strike();
          if heap[prev].succ == Ref(next, false, false) && !fail {
            act := Act.Insert(prev, next, node, key);
            assert node !in heap.Keys;
            ActKeeps(heap, act);
            heap := Apply(heap, Act.Insert(prev, next, node, key));
            return true, mid, act;
          }
          prev := Unwind(prev);
          HelpsSelf(heap);
        }
        ghost var h1 := heap;
        assert HelpsNode(mid, h1, prev);
        prev, next := SearchFrom(key, prev);
        NoMoreLinked(h1, heap);
        HelpsTrans(mid, h1, heap);
        HelpsTrans(old(heap), mid, heap);
        mid := heap;
        if heap[prev].key == key {
          assert Holds(heap, prev, key);
          KeySetIff(heap, key);
          return false, heap, Nop;
        }
      }
    }

    /** A search alone is right about the key at the moment it ends. */
    method Find(key: int) returns (node: Id)
      requires HeapInv(heap) && KEY_MIN < key < KEY_MAX
      modifies this`heap
      ensures HeapInv(heap) && Helps(old(heap), heap) && KeySet(heap) == KeySet(old(heap))
      ensures if key in KeySet(heap) then Holds(heap, node, key) else node == NULL
    {
      var curr, next := SearchFrom(key, HEAD);
      FoundAlone(heap, curr, next, key);
      return if heap[curr].key == key then curr else NULL;
    }

    /** An insertion alone succeeds exactly when the key is absent. */
    method Insert(key: int, node: Id) returns (ok: bool)
      requires HeapInv(heap) && KEY_MIN < key < KEY_MAX && node !in heap && node != NULL && node != HEAD && node != TAIL
      modifies this`heap, faults
      ensures InsertEnds(old(heap), heap, key, ok)
    {
      ghost var h0 := heap;
      var prev, next := SearchFrom(key, HEAD);
      FoundAlone(heap, prev, next, key);
      if heap[prev].key == key {
        return false;
      }
      ghost var h1 := heap;
      ghost var mid: Heap, act: Act;
      assert node !in heap.Keys;
      ok, mid, act := InsertFrom(key, prev, next, node);
      HelpsTrans(h0, h1, mid);
      HelpsKeys(h1, mid);
      LostWerePending(h0, mid);
      assert ok;
      ActRefinesSet(mid, act);
    }

    /** A deletion alone removes the key, and reports success exactly when the key was present and no
        other thread had already won its deletion. */
    method Delete(key: int) returns (won: bool)
      requires HeapInv(heap) && KEY_MIN < key < KEY_MAX
      modifies this`heap, faults
      ensures DeleteEnds(old(heap), heap, key, won)
    {
      ghost var h0 := heap;
      var prev, del := SearchFrom(key - 1, HEAD);
      ghost var h1 := heap;
      assert NodeInv(heap, TAIL) && NodeInv(heap, prev);
      FoundAlone(heap, prev, del, key - 1);
      LostWerePending(h0, h1);
      if heap[del].key != key {
        GapMeansAbsent(heap, prev, del, key);
        return false;
      }
      var result: Id;
      ghost var mid: Heap;
      won, result, mid := TryFlag(prev, del);
      HelpsTrans(h0, h1, mid);
      ghost var h2 := heap;
      HelpsSelf(h2);
      if result != NULL {
        HelpFlagged(result, del);
      }
      DeleteEffect(h0, h1, mid, h2, heap, prev, del, key, won, result);
    }
  }

  /** How a search ends: with a pair that is linked now and straddles the key, the keys untouched. */
  ghost predicate SearchEnds(h: Heap, h': Heap, key: int, curr: Id, next: Id) {
    && HeapInv(h') && Helps(h, h') && KeySet(h') == KeySet(h)
    && curr in h' && h'[curr].succ.node == next && next in h' && h'[curr].key <= key < h'[next].key
  }

  /** How an insertion ends: the key is there, and was not exactly if the answer is success; other keys
      are lost only to deletions under way. */
  ghost predicate InsertEnds(h: Heap, h': Heap, key: int, ok: bool) {
    && HeapInv(h') && (ok <==> key !in KeySet(h)) && key in KeySet(h') && KeySet(h') <= KeySet(h) + {key}
    && forall k :: k in KeySet(h) && k !in KeySet(h') ==> PendingKey(h, k)
  }

  /** How a deletion ends: the key is gone, and success means that it was there and no deletion of it
      under way; other keys are lost only to deletions under way. */
  ghost predicate DeleteEnds(h: Heap, h': Heap, key: int, won: bool) {
    && HeapInv(h') && key !in KeySet(h') && KeySet(h') <= KeySet(h)
    && (won <==> key in KeySet(h) && !PendingKey(h, key))
    && forall k :: k in KeySet(h) && k !in KeySet(h') && k != key ==> PendingKey(h, k)
  }

  lemma FoundAlone(h: Heap, curr: Id, next: Id, key: int)
    requires HeapInv(h) && curr in h && next in h && !h[curr].succ.mark && h[curr].succ.node == next
    requires h[curr].key <= key < h[next].key && KEY_MIN <= key < KEY_MAX
    ensures KEY_MIN < key ==> (key in KeySet(h) <==> h[curr].key == key)
    ensures KEY_MIN < key && h[curr].key == key ==> Holds(h, curr, key)
  {
    KeySetIff(h, key);
    if h[curr].key < key {
      GapMeansAbsent(h, curr, next, key);
    } else if KEY_MIN < key {
      assert Holds(h, curr, key);
    }
  }

  /** The right neighbour of a search for `k - 1` is the only node that can hold `k`. */
  lemma OnlyHolder(h: Heap, prev: Id, del: Id, k: int, n: Id)
    requires HeapInv(h) && prev in h && del in h && !h[prev].succ.mark && h[prev].succ.node == del
    requires h[prev].key < k == h[del].key && Holds(h, n, k)
    ensures n == del
  {
    assert NodeInv(h, prev) && Gapless(h, n, del);
  }

  lemma DeleteEffect(h0: Heap, h1: Heap, mid: Heap, h2: Heap, h3: Heap, prev: Id, del: Id, k: int, won: bool, result: Id)
    requires HeapInv(h0) && HeapInv(h1) && HeapInv(mid) && HeapInv(h2) && HeapInv(h3)
    requires Helps(h0, h1) && Helps(h1, mid) && Helps(h0, mid) && Helps(h2, h3) && KeySet(h1) == KeySet(h0)
    requires prev in h1 && del in h1 && !h1[prev].succ.mark && h1[prev].succ.node == del && h1[prev].key < k == h1[del].key
    requires KEY_MIN < k < KEY_MAX
    requires h2 == if won then Apply(mid, Flag(result, del)) else mid
    requires won ==> Legal(mid, Flag(result, del))
    requires result != NULL ==> result in h2 && h2[result].succ == Ref(del, false, true)
    requires result == NULL ==> !won && del in h2 && h2[del].succ.mark
    requires del in h3 && h3[del].succ.mark
    ensures k !in KeySet(h3) && KeySet(h3) <= KeySet(h0)
    ensures won <==> k in KeySet(h0) && !PendingKey(h0, k)
    ensures forall j :: j in KeySet(h0) && j !in KeySet(h3) && j != k ==> PendingKey(h0, j)
  {
    HelpsKeys(h0, mid);
    HelpsKeys(h1, mid);
    HelpsKeys(h2, h3);
    if won {
      ActRefinesSet(mid, Flag(result, del));
    }
    assert KeySet(h2) == KeySet(mid);
    assert HelpsNode(h1, mid, del);
    NothingHolds(h1, mid, h2, h3, prev, del, k, won, result);
    WonIff(h0, h1, mid, prev, del, k, won, result);
    forall j | j in KeySet(h0) && j !in KeySet(h3) && j != k
      ensures PendingKey(h0, j)
    {
      LostLater(h0, mid, h2, h3, del, k, won, result, j);
    }
  }

  lemma NothingHolds(h1: Heap, mid: Heap, h2: Heap, h3: Heap, prev: Id, del: Id, k: int, won: bool, result: Id)
    requires HeapInv(h1) && Helps(h1, mid) && Helps(h2, h3)
    requires prev in h1 && del in h1 && !h1[prev].succ.mark && h1[prev].succ.node == del && h1[prev].key < k == h1[del].key
    requires h2 == if won then Apply(mid, Flag(result, del)) else mid
    requires won ==> Legal(mid, Flag(result, del))
    requires del in h3 && h3[del].succ.mark
    ensures k !in KeySet(h3)
  {
    KeySetIff(h3, k);
    forall n
      ensures !Holds(h3, n, k)
    {
      if n in h3 && n != del {
        assert HelpsNode(h2, h3, n) && HelpsNode(h1, mid, n);
        if Holds(h1, n, k) {
          OnlyHolder(h1, prev, del, k, n);
        }
      }
    }
  }

  lemma WonIff(h0: Heap, h1: Heap, mid: Heap, prev: Id, del: Id, k: int, won: bool, result: Id)
    requires HeapInv(h0) && HeapInv(h1) && HeapInv(mid)
    requires Helps(h0, h1) && Helps(h1, mid) && Helps(h0, mid) && KeySet(h1) == KeySet(h0)
    requires prev in h1 && del in h1 && !h1[prev].succ.mark && h1[prev].succ.node == del && h1[prev].key < k == h1[del].key
    requires KEY_MIN < k < KEY_MAX
    requires won ==> Legal(mid, Flag(result, del))
    requires !won ==> FlaggedAt(mid, result, del) || (del in mid && mid[del].succ.mark)
    ensures won <==> k in KeySet(h0) && !PendingKey(h0, k)
  {
    assert HelpsNode(h0, h1, del) && HelpsNode(h1, mid, del) && HelpsNode(h0, mid, del);
    KeySetIff(h0, k);
    KeySetIff(h1, k);
    if won {
      assert NodeInv(mid, result);
      assert Holds(h0, del, k);
      forall n, p
        ensures !(Holds(h0, n, k) && FlaggedAt(h0, p, n))
      {
        if Holds(h0, n, k) {
          UnmarkedKeysDistinct(h0, n, del);
          assert FlagEvolves(h0, mid, del, p);
          NotLeaving(mid, result, del);
          assert p in h0 ==> NodeInv(h0, p);
        }
      }
    } else if k in KeySet(h0) {
      var n :| Holds(h1, n, k);
      OnlyHolder(h1, prev, del, k, n);
      assert Holds(h0, del, k);
      var p := if mid[del].succ.mark then mid[del].backlink else result;
      assert FlagEvolves(h0, mid, del, p);
      assert FlaggedAt(h0, p, del);
    }
  }

  lemma LostLater(h0: Heap, mid: Heap, h2: Heap, h3: Heap, del: Id, k: int, won: bool, result: Id, j: int)
    requires HeapInv(h0) && HeapInv(mid) && HeapInv(h2) && Helps(h0, mid) && Helps(h2, h3)
    requires h2 == if won then Apply(mid, Flag(result, del)) else mid
    requires won ==> Legal(mid, Flag(result, del))
    requires del in mid && mid[del].key == k && j != k && j in KeySet(h0) && j !in KeySet(h3)
    ensures PendingKey(h0, j)
  {
    KeySetIff(h0, j);
    KeySetIff(h3, j);
    var n :| Holds(h0, n, j);
    assert HelpsNode(h0, mid, n) && HelpsNode(h2, h3, n);
    assert !Holds(h3, n, j);
    if !mid[n].succ.mark {
      var p := h3[n].backlink;
      assert FlaggedAt(h2, p, n);
      if won && !FlaggedAt(mid, p, n) {
        FlagIsNew(mid, Flag(result, del), n, p);
      }
      assert FlagEvolves(h0, mid, n, p);
    }
  }

  ghost function AllLinked(h: Heap): set<Id> {
    set n | n in h && Linked(h, n)
  }

  lemma NoMoreLinked(h: Heap, h': Heap)
    requires Helps(h, h')
    ensures AllLinked(h') <= AllLinked(h)
  {
    forall n | n in AllLinked(h')
      ensures n in AllLinked(h)
    {
      assert HelpsNode(h, h', n);
    }
  }

  lemma FewerLinked(h: Heap, h': Heap, d: Id)
    requires HeapInv(h) && Helps(h, h') && d in h && Linked(h, d) && !Linked(h', d)
    ensures AllLinked(h') < AllLinked(h)
  {
    NoMoreLinked(h, h');
    assert d in AllLinked(h) && d !in AllLinked(h');
  }
}
