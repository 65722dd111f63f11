/** Facts about whole histories of the list: which writes can happen, how often, and in what order. */
module ListHistory {
  import opened ListHeap
  import opened ListSystem

  lemma EvolvesLater(log: seq<Heap>, events: seq<Event>, i: nat, j: nat, n: Id)
    requires LogInv(log, events) && i <= j < |log| && n in log[i]
    ensures NodeEvolves(log[i], log[j], n)
    decreases j
  {
    if i < j {
      EvolvesLater(log, events, i, j - 1, n);
      assert Legal(log[j - 1], events[j - 1].act);
      ActEvolvesNode(log[j - 1], events[j - 1].act, n);
    }
  }

  lemma LeavingLater(log: seq<Heap>, events: seq<Event>, i: nat, j: nat, d: Id)
    requires LogInv(log, events) && i <= j < |log| && Leaving(log[i], d)
    ensures Leaving(log[j], d)
    decreases j
  {
    if i < j {
      LeavingLater(log, events, i, j - 1, d);
      assert Legal(log[j - 1], events[j - 1].act);
      ActEvolvesNode(log[j - 1], events[j - 1].act, d);
      FlaggedAfter(log[j - 1], events[j - 1].act, d);
    }
  }

  // ---- Single winner ----

  /** Each node is flagged for deletion by at most one compare-and-swap over the whole run. */
  lemma FlaggedOnce(log: seq<Heap>, events: seq<Event>, i: nat, j: nat, d: Id)
    requires LogInv(log, events) && i < |events| && j < |events|
    requires events[i].act.Flag? && events[i].act.del == d && events[j].act.Flag? && events[j].act.del == d
    ensures i == j
  {
    if i < j {
      NotFlaggedAgain(log, events, i, j, d);
    } else if j < i {
      NotFlaggedAgain(log, events, j, i, d);
    }
  }

  lemma NotFlaggedAgain(log: seq<Heap>, events: seq<Event>, i: nat, j: nat, d: Id)
    requires LogInv(log, events) && i < j < |events|
    requires events[i].act.Flag? && events[i].act.del == d
    ensures !(events[j].act.Flag? && events[j].act.del == d)
  {
    assert Legal(log[i], events[i].act) && Legal(log[j], events[j].act);
    assert FlaggedAt(log[i + 1], events[i].act.prev, d);
    LeavingLater(log, events, i + 1, j, d);
    if events[j].act.Flag? && events[j].act.del == d {
      NotLeaving(log[j], events[j].act.prev, d);
    }
  }

  lemma NotLeaving(h: Heap, p: Id, d: Id)
    requires HeapInv(h) && Legal(h, Flag(p, d))
    ensures !Leaving(h, d)
  {
    assert NodeInv(h, p);
    if q :| FlaggedAt(h, q, d) {
      assert NodeInv(h, q);
      OnePredecessor(h, p, q);
    }
  }

  /** A node is flagged only by the compare-and-swap that flags it. */
  lemma FlagPrecedes(log: seq<Heap>, events: seq<Event>, j: nat, d: Id, p: Id) returns (i: nat)
    requires LogInv(log, events) && j < |log| && FlaggedAt(log[j], p, d)
    ensures i < j && events[i].act == Flag(p, d)
    decreases j
  {
    i := 0;
    if j > 0 {
      var h := log[j - 1];
      var a := events[j - 1].act;
      assert Legal(h, a) && log[j] == Apply(h, a);
      if FlaggedAt(h, p, d) {
        i := FlagPrecedes(log, events, j - 1, d, p);
      } else {
        i := j - 1;
        FlagIsNew(h, a, d, p);
      }
    } else {
      assert false;
    }
  }

  lemma FlagIsNew(h: Heap, a: Act, d: Id, p: Id)
    requires HeapInv(h) && Legal(h, a) && FlaggedAt(Apply(h, a), p, d) && !FlaggedAt(h, p, d)
    ensures a == Flag(p, d)
  {
    assert p in h ==> NodeInv(h, p);
  }

  lemma MarkEvent(log: seq<Heap>, events: seq<Event>, i: nat, j: nat, d: Id) returns (m: nat)
    requires LogInv(log, events) && i <= j < |log|
    requires d in log[i] && !log[i][d].succ.mark && d in log[j] && log[j][d].succ.mark
    ensures i <= m < j && events[m].act == Mark(d, log[j][d].succ.node)
    ensures d in log[m] && log[m][d].succ == Ref(log[j][d].succ.node, false, false)
    ensures Flagged(log[m], d)
    decreases j
  {
    var h := log[j - 1];
    var a := events[j - 1].act;
    assert Legal(h, a) && log[j] == Apply(h, a);
    EvolvesLater(log, events, i, j - 1, d);
    if h[d].succ.mark {
      ActEvolvesNode(h, a, d);
      m := MarkEvent(log, events, i, j - 1, d);
    } else {
      m := j - 1;
    }
  }

  /** No node is marked without having been flagged first, and none is marked twice. */
  lemma MarkedOnceAfterFlag(log: seq<Heap>, events: seq<Event>, i: nat, j: nat, d: Id) returns (f: nat)
    requires LogInv(log, events) && i < |events| && j < |events|
    requires events[i].act.Mark? && events[i].act.del == d && events[j].act.Mark? && events[j].act.del == d
    ensures i == j
    ensures f < i && FlagsNode(events[f], d) && FlaggedAt(log[i], events[f].act.prev, d)
  {
    assert Legal(log[i], events[i].act) && Legal(log[j], events[j].act);
    var p :| FlaggedAt(log[i], p, d);
    f := FlagPrecedes(log, events, i, d, p);
    if i < j {
      EvolvesLater(log, events, i + 1, j, d);
    } else if j < i {
      EvolvesLater(log, events, j + 1, i, d);
    }
  }

  /** Every node but the sentinels enters the list at exactly one insertion. */
  lemma InsertedOnce(log: seq<Heap>, events: seq<Event>, i: nat, j: nat, n: Id)
    requires LogInv(log, events) && i < |events| && j < |events|
    requires events[i].act.Insert? && events[i].act.node == n && events[j].act.Insert? && events[j].act.node == n
    ensures i == j
  {
    assert Legal(log[i], events[i].act) && Legal(log[j], events[j].act);
    if i < j {
      EvolvesLater(log, events, i + 1, j, n);
    } else if j < i {
      EvolvesLater(log, events, j + 1, i, n);
    }
  }

  // ---- Counting ----

  /** Successful insertions of `k` less marks of nodes with key `k`, over the first `n` writes. */
  ghost function Net(log: seq<Heap>, events: seq<Event>, k: int, n: nat): int
    requires n <= |events| && n <= |log|
  {
    if n == 0 then 0
    else
      var a := events[n - 1].act;
      Net(log, events, k, n - 1) +
      (if a.Insert? && a.key == k then 1 else if a.Mark? && At(log[n - 1], a.del).key == k then -1 else 0)
  }

  /** A key is in the list exactly when it has been inserted once more often than deleted; the
      difference is never anything but 0 or 1. */
  lemma {:induction false} NetIsMembership(log: seq<Heap>, events: seq<Event>, k: int, n: nat)
    requires LogInv(log, events) && n < |log|
    ensures Net(log, events, k, n) == if k in KeySet(log[n]) then 1 else 0
  {
    if n > 0 {
      NetIsMembership(log, events, k, n - 1);
      assert Legal(log[n - 1], events[n - 1].act);
      ActRefinesSet(log[n - 1], events[n - 1].act);
    }
  }

  // ---- Every run ----

  predicate FlagsNode(e: Event, d: Id) {
    e.act.Flag? && e.act.del == d
  }

  predicate MarksNode(e: Event, d: Id) {
    e.act.Mark? && e.act.del == d
  }

  /** In every run, up to and including the first misfiring check, every write was legal, every key
      has been inserted once more often than deleted or equally often, no node is flagged twice and
      none is marked before it was flagged. */
  lemma EveryRun(cs: seq<Config>, ms: seq<Move>, n: nat)
    requires IsRun(cs, ms) && n < |cs| && CalmUpTo(cs, ms, if n > 0 then n - 1 else 0)
    ensures LogInv(cs[n].log, cs[n].events) && |cs[n].events| == n
    ensures forall k :: Net(cs[n].log, cs[n].events, k, n) == if k in KeySet(Now(cs[n])) then 1 else 0
    ensures var es := cs[n].events;
            && (forall d, i, j :: 0 <= i < n && 0 <= j < n && FlagsNode(es[i], d) && FlagsNode(es[j], d) ==> i == j)
            && (forall d, i :: 0 <= i < n && MarksNode(es[i], d) ==> exists f :: 0 <= f < i && FlagsNode(es[f], d))
  {
    RunLog(cs, ms, n);
    var log, es := cs[n].log, cs[n].events;
    forall k
      ensures Net(log, es, k, n) == if k in KeySet(log[n]) then 1 else 0
    {
      NetIsMembership(log, es, k, n);
    }
    forall d, i, j | 0 <= i < n && 0 <= j < n && FlagsNode(es[i], d) && FlagsNode(es[j], d)
      ensures i == j
    {
      FlaggedOnce(log, es, i, j, d);
    }
    forall d, i | 0 <= i < n && MarksNode(es[i], d)
      ensures exists f :: 0 <= f < i && FlagsNode(es[f], d)
    {
      var f := MarkedOnceAfterFlag(log, es, i, i, d);
      assert FlagsNode(es[f], d);
    }
  }

  lemma RunLog(cs: seq<Config>, ms: seq<Move>, n: nat)
    requires IsRun(cs, ms) && n < |cs| && CalmUpTo(cs, ms, if n > 0 then n - 1 else 0)
    ensures LogInv(cs[n].log, cs[n].events) && |cs[n].events| == n
  {
    RunLength(cs, ms, n);
    if n == 0 {
      InitialSound(cs[0]);
    } else {
      RunSoundUpTo(cs, ms, n - 1);
      assert Enabled(cs[n - 1], ms[n - 1]) && cs[n] == Step(cs[n - 1], ms[n - 1]);
      assert Sound(cs[n - 1]);
      StepSound(cs[n - 1], ms[n - 1]);
    }
  }

  lemma {:induction false} RunLength(cs: seq<Config>, ms: seq<Move>, n: nat)
    requires IsRun(cs, ms) && n < |cs|
    ensures |cs[n].events| == n
  {
    if n > 0 {
      RunLength(cs, ms, n - 1);
      assert Enabled(cs[n - 1], ms[n - 1]) && cs[n] == Step(cs[n - 1], ms[n - 1]);
    }
  }

  // ---- Hindsight ----

  predicate UnmarkedAt(log: seq<Heap>, i: nat, n: Id) {
    i < |log| && n in log[i] && !log[i][n].succ.mark
  }

  /** At moment `i`, `curr` was in the list and linked directly to `next`. */
  predicate EdgeAt(log: seq<Heap>, i: nat, curr: Id, next: Id) {
    UnmarkedAt(log, i, curr) && log[i][curr].succ.node == next
  }

  /** A node that was in the list at moment `i` was, at some moment since, in the list and linked to
      the successor it has at moment `j`; if it is marked by `j` that successor was unmarked too. */
  lemma EdgeSince(log: seq<Heap>, events: seq<Event>, i: nat, j: nat, n: Id) returns (e: nat)
    requires LogInv(log, events) && i <= j < |log| && UnmarkedAt(log, i, n) && n != TAIL
    ensures i <= e <= j && n in log[j] && EdgeAt(log, e, n, log[j][n].succ.node)
    ensures log[j][n].succ.mark ==> UnmarkedAt(log, e, log[j][n].succ.node)
  {
    EvolvesLater(log, events, i, j, n);
    if log[j][n].succ.mark {
      e := MarkEvent(log, events, i, j, n);
      assert HeapInv(log[e]) && NodeInv(log[e], n);
    } else {
      e := j;
    }
  }

  /** A direct link across a key shows the key absent at that moment. */
  lemma GapMeansAbsent(h: Heap, curr: Id, next: Id, k: int)
    requires HeapInv(h) && curr in h && next in h && !h[curr].succ.mark && h[curr].succ.node == next
    requires h[curr].key < k < h[next].key
    ensures k !in KeySet(h)
  {
    KeySetIff(h, k);
    forall n | n in h
      ensures !Holds(h, n, k)
    {
      assert Gapless(h, curr, n);
    }
  }

  /** If the linked node with key `k` is marked, the key is absent. */
  lemma MarkedMeansAbsent(h: Heap, d: Id)
    requires HeapInv(h) && d in h && h[d].succ.mark && Linked(h, d)
    ensures h[d].key !in KeySet(h)
  {
    KeySetIff(h, h[d].key);
    forall n | n in h
      ensures !Holds(h, n, h[d].key)
    {
      assert Gapless(h, n, d);
    }
  }
}
