/** Helping: what a thread does to finish the deletions that others have begun, when it runs alone. */
module ListHelping {
  import opened ListHeap
  import opened ListHistory

  /** What helping may do to a heap: finish deletions that others had flagged, and nothing else. */
  ghost predicate Helps(h: Heap, h': Heap) {
    && h'.Keys == h.Keys
    && (forall n {:trigger HelpsNode(h, h', n)} :: n in h ==> HelpsNode(h, h', n))
    && (forall d, p {:trigger FlagEvolves(h, h', d, p)} ::
          FlagEvolves(h, h', d, p) && (FlaggedAt(h', p, d) ==> FlaggedAt(h, p, d)))
  }

  ghost predicate HelpsNode(h: Heap, h': Heap, n: Id)
    requires n in h
  {
    && NodeEvolves(h, h', n)
    && (h'[n].succ.mark && !h[n].succ.mark ==> FlaggedAt(h, h'[n].backlink, n))
    && (h'[n].backlink != h[n].backlink ==> FlaggedAt(h, h'[n].backlink, n))
  }

  lemma HelpsSelf(h: Heap)
    ensures Helps(h, h)
  {
  }

  lemma HelpsTrans(h: Heap, h': Heap, h'': Heap)
    requires Helps(h, h') && Helps(h', h'')
    ensures Helps(h, h'')
  {
    forall n | n in h
      ensures HelpsNode(h, h'', n)
    {
      assert HelpsNode(h, h', n) && HelpsNode(h', h'', n);
      assert FlagEvolves(h, h', n, h''[n].backlink);
    }
    forall d, p
      ensures FlagEvolves(h, h'', d, p) && (FlaggedAt(h'', p, d) ==> FlaggedAt(h, p, d))
    {
      assert FlagEvolves(h, h', d, p) && FlagEvolves(h', h'', d, p);
    }
  }

  lemma ActHelps(h: Heap, a: Act)
    requires HeapInv(h) && Legal(h, a) && !a.Insert? && !a.Flag?
    requires a.SetBacklink? ==> FlaggedAt(h, a.prev, a.del)
    requires a.Mark? ==> FlaggedAt(h, h[a.del].backlink, a.del)
    ensures HeapInv(Apply(h, a)) && Helps(h, Apply(h, a))
  {
    var h' := Apply(h, a);
    ActKeeps(h, a);
    forall n | n in h
      ensures HelpsNode(h, h', n)
    {
      ActEvolvesNode(h, a, n);
      assert NodeInv(h, n);
      if a.SetBacklink? {
        assert NodeInv(h, a.prev);
      }
    }
    forall d, p
      ensures FlagEvolves(h, h', d, p) && (FlaggedAt(h', p, d) ==> FlaggedAt(h, p, d))
    {
      ActEvolvesFlag(h, a, d, p);
      if FlaggedAt(h', p, d) && !FlaggedAt(h, p, d) {
        FlagIsNew(h, a, d, p);
      }
    }
  }

  /** The linked nodes to the right of a key: what bounds every loop and recursion. */
  ghost function Right(h: Heap, k: int): set<Id> {
    set n | n in h && Linked(h, n) && h[n].key > k
  }

  lemma RightShrinks(h: Heap, h': Heap, k: int, k': int)
    requires Helps(h, h') && k <= k'
    ensures Right(h', k') <= Right(h, k)
  {
    forall n | n in Right(h', k')
      ensures n in Right(h, k)
    {
      assert HelpsNode(h, h', n);
    }
  }

  lemma SameBeyond(h: Heap, h': Heap, k: int)
    requires Helps(h, h')
    ensures Beyond(h', k) == Beyond(h, k)
  {
    forall n | n in h
      ensures n in Beyond(h', k) <==> n in Beyond(h, k)
    {
      assert HelpsNode(h, h', n);
    }
  }

  lemma RightStep(h: Heap, curr: Id)
    requires HeapInv(h) && curr in h && curr != TAIL && Linked(h, curr)
    ensures h[curr].succ.node in Right(h, h[curr].key)
    ensures Right(h, At(h, h[curr].succ.node).key) < Right(h, h[curr].key)
  {
    assert NodeInv(h, curr);
    var s := h[curr].succ.node;
    assert s in Right(h, h[curr].key) && s !in Right(h, h[s].key);
  }

  /** Helping changes the set of keys only by finishing deletions. */
  lemma HelpsKeys(h: Heap, h': Heap)
    requires Helps(h, h')
    ensures KeySet(h') <= KeySet(h)
    ensures (forall d, p :: !FlaggedAt(h, p, d)) ==> KeySet(h') == KeySet(h)
  {
    forall k | k in KeySet(h')
      ensures k in KeySet(h)
    {
      KeySetIff(h', k);
      var n :| Holds(h', n, k);
      assert HelpsNode(h, h', n);
      assert Holds(h, n, k);
      KeySetIff(h, k);
    }
    if forall d, p :: !FlaggedAt(h, p, d) {
      forall k | k in KeySet(h)
        ensures k in KeySet(h')
      {
        KeySetIff(h, k);
        var n :| Holds(h, n, k);
        assert HelpsNode(h, h', n);
        assert Holds(h', n, k);
        KeySetIff(h', k);
      }
    }
  }

  /** Nodes below a key are as they were. */
  ghost predicate Below(h: Heap, h': Heap, k: int) {
    forall n :: n in h && h[n].key < k ==> n in h' && h'[n] == h[n]
  }

  lemma SameKeys(h: Heap, prev: Id, del: Id)
    requires HeapInv(h) && prev in h && del in h && h[prev].succ == Ref(del, false, true) && h[del].succ.mark
    ensures KeySet(Apply(h, Unlink(prev, del, h[del].succ.node))) == KeySet(h)
  {
    assert NodeInv(h, del);
    ActRefinesSet(h, Unlink(prev, del, h[del].succ.node));
  }

  /** A key whose node some thread has flagged and not yet marked. */
  ghost predicate PendingKey(h: Heap, k: int) {
    exists n, p :: Holds(h, n, k) && FlaggedAt(h, p, n)
  }

  lemma LostWerePending(h: Heap, h': Heap)
    requires Helps(h, h')
    ensures forall k :: k in KeySet(h) && k !in KeySet(h') ==> PendingKey(h, k)
  {
    forall k | k in KeySet(h) && k !in KeySet(h')
      ensures PendingKey(h, k)
    {
      KeySetIff(h, k);
      KeySetIff(h', k);
      var n :| Holds(h, n, k);
      assert HelpsNode(h, h', n);
      assert !Holds(h', n, k);
    }
  }

  // ---- The heap that helping leaves ----

  lemma SameBeyondAfter(h: Heap, a: Act, k: int)
    requires !a.Insert?
    ensures Beyond(Apply(h, a), k) == Beyond(h, k)
  {
  }

  /** What `help_flagged` leaves. */
  ghost function HelpedHeap(h: Heap, prev: Id, del: Id): Heap
    requires prev in h && del in h
    decreases Beyond(h, h[del].key), 1
  {
    SameBeyondAfter(h, SetBacklink(del, prev), h[del].key);
    var h1 := Apply(h, SetBacklink(del, prev));
    var h2 := if h1[del].succ.mark then h1 else MarkedHeap(h1, del);
    if FlaggedAt(h2, prev, del) then Apply(h2, Unlink(prev, del, h2[del].succ.node)) else h2
  }

  /** What `try_mark` leaves: the deletion behind `del`, if one is under way, is finished first. */
  ghost function MarkedHeap(h: Heap, del: Id): Heap
    requires del in h
    decreases Beyond(h, h[del].key), 0
  {
    var s := h[del].succ.node;
    if !h[del].succ.flag || s !in h || h[s].key <= h[del].key then Apply(h, Mark(del, s))
    else
      assert s in Beyond(h, h[del].key) && s !in Beyond(h, h[s].key);
      var h' := HelpedHeap(h, del, s);
      Apply(h', Mark(del, At(h', del).succ.node))
  }

  /** What helping to delete `del` from `prev` achieves, whatever other deletions it meets behind `del`. */
  ghost predicate Completes(h: Heap, h': Heap, prev: Id, del: Id)
    requires prev in h && del in h
  {
    && HeapInv(h') && Helps(h, h')
    && del in h' && h'[del].succ.mark && !Linked(h', del) && h'[del].backlink == prev
    && prev in h' && h'[prev] == h[prev].(succ := Ref(h'[del].succ.node, false, false))
    && forall n :: n in h && n != prev && h[n].key < h[del].key ==> n in h' && h'[n] == h[n]
  }

  lemma {:induction false} HelpedFacts(h: Heap, prev: Id, del: Id)
    requires HeapInv(h) && FlaggedAt(h, prev, del)
    ensures Completes(h, HelpedHeap(h, prev, del), prev, del)
    ensures !h[del].succ.mark && !h[del].succ.flag ==>
              HelpedHeap(h, prev, del) ==
              h[del := h[del].(succ := Ref(h[del].succ.node, true, false), backlink := prev)]
               [prev := h[prev].(succ := Ref(h[del].succ.node, false, false))]
    decreases Beyond(h, h[del].key), 1
  {
    assert NodeInv(h, prev) && NodeInv(h, del);
    SameBeyondAfter(h, SetBacklink(del, prev), h[del].key);
    ActHelps(h, SetBacklink(del, prev));
    var h1 := Apply(h, SetBacklink(del, prev));
    var h2 := if h1[del].succ.mark then h1 else MarkedHeap(h1, del);
    HelpsSelf(h1);
    if !h1[del].succ.mark {
      MarkedFacts(h1, prev, del);
    }
    HelpsTrans(h, h1, h2);
    UnlinkFacts(h2, prev, del);
    HelpsTrans(h, h2, HelpedHeap(h, prev, del));
  }

  lemma UnlinkFacts(h: Heap, prev: Id, del: Id)
    requires HeapInv(h) && FlaggedAt(h, prev, del) && h[del].succ.mark
    ensures var h' := Apply(h, Unlink(prev, del, h[del].succ.node));
            HeapInv(h') && Helps(h, h') && !Linked(h', del)
  {
    assert NodeInv(h, prev) && NodeInv(h, del);
    ActHelps(h, Unlink(prev, del, h[del].succ.node));
    UnlinkKeeps(h, prev, del, h[del].succ.node);
  }

  lemma {:induction false} MarkedFacts(h: Heap, prev: Id, del: Id)
    requires HeapInv(h) && FlaggedAt(h, prev, del) && h[del].backlink == prev && !h[del].succ.mark
    ensures var h' := MarkedHeap(h, del);
            && HeapInv(h') && Helps(h, h') && h'[del].succ.mark && h'[del].backlink == prev
            && Below(h, h', h[del].key)
            && (if h[del].succ.flag then
                  var s := h[del].succ.node;
                  s in h' && h'[s].succ.mark && !Linked(h', s)
                else h' == Apply(h, Mark(del, h[del].succ.node)))
    decreases Beyond(h, h[del].key), 0
  {
    assert NodeInv(h, del) && NodeInv(h, prev);
    if !h[del].succ.flag {
      ActHelps(h, Mark(del, h[del].succ.node));
    } else {
      var s := h[del].succ.node;
      assert s in Beyond(h, h[del].key) && s !in Beyond(h, h[s].key);
      HelpedFacts(h, del, s);
      MarkAfterHelp(h, HelpedHeap(h, del, s), prev, del, s);
    }
  }

  lemma MarkAfterHelp(h: Heap, h1: Heap, prev: Id, del: Id, s: Id)
    requires HeapInv(h) && FlaggedAt(h, prev, del) && h[del].backlink == prev
    requires FlaggedAt(h, del, s) && h[prev].key < h[del].key && Completes(h, h1, del, s)
    ensures var h' := Apply(h1, Mark(del, h1[del].succ.node));
            && HeapInv(h') && Helps(h, h') && h'[del].succ.mark && h'[del].backlink == prev
            && Below(h, h', h[del].key) && h'[s].succ.mark && !Linked(h', s)
  {
    assert NodeInv(h, del) && NodeInv(h1, del);
    assert h1[prev] == h[prev] && FlaggedAt(h1, prev, del);
    var a := Mark(del, h1[del].succ.node);
    ActHelps(h1, a);
    HelpsTrans(h, h1, Apply(h1, a));
    ActEvolvesNode(h1, a, s);
  }
}
