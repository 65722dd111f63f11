/** The list is linearizable exactly as long as no check of `try_flag` misfires: from every misfire the
    deleter, left to itself, gets to where a key has left the list that no call has taken out. */
module ListUnlinear {
  import opened ListHeap
  import opened ListThreads
  import opened ListSystem
  import opened ListHistory
  import opened ListHindsight
  import opened ListSolo
  import opened ListCalls
  import opened ListLinear
  import opened ListMisfire

  // ---- After a misfire ----

  lemma LogIs(cs: seq<Config>, ms: seq<Move>, n: nat, p: nat)
    requires IsRun(cs, ms) && p <= n < |cs|
    ensures |cs[n].log| == n + 1 && |cs[n].events| == n && cs[n].log[p] == Now(cs[p])
    ensures p < n ==> cs[n].log[p + 1] == Apply(cs[n].log[p], cs[n].events[p].act)
  {
    RunCalls(cs, ms, n);
    RunCalls(cs, ms, p);
    EventsGrow(cs, ms, p, n);
    if p < n {
      assert Enabled(cs[p], ms[p]) && cs[p + 1] == Step(cs[p], ms[p]);
      EventsGrow(cs, ms, p + 1, n);
    }
  }

  /** A key that is in the list at moment `a` and not at moment `b` leaves it at some moment between. */
  lemma {:induction false} Leaves(cs: seq<Config>, ms: seq<Move>, a: nat, b: nat, k: int) returns (p: nat)
    requires IsRun(cs, ms) && a <= b < |cs| && k in KeySet(Now(cs[a])) && k !in KeySet(Now(cs[b]))
    ensures a <= p < b && k in KeySet(Now(cs[p])) && k !in KeySet(Now(cs[p + 1]))
    decreases b
  {
    if k in KeySet(Now(cs[b - 1])) {
      p := b - 1;
    } else {
      p := Leaves(cs, ms, a, b - 1, k);
    }
  }

  /** Only a deletion of the key explains that it leaves, and then its node is marked at that moment. */
  lemma DeleteExplains(log: seq<Heap>, events: seq<Event>, t: Thread, p: nat, k: int)
    requires PointOf(log, events, t, p) && Winning(t) && log[p + 1] == Apply(log[p], events[p].act)
    requires k in KeySet(log[p]) && k !in KeySet(log[p + 1])
    ensures t.op == Delete(k) && t.cas < |events| && MarksNode(events[p], Deleted(events[t.cas].act))
    ensures Holds(log[p], Deleted(events[t.cas].act), k)
  {
    assert t.op == Delete(k);
    var h, h' := log[p], log[p + 1];
    var e := Deleted(events[t.cas].act);
    KeySetIff(h, k);
    KeySetIff(h', k);
    var n :| Holds(h, n, k);
    assert n != e ==> Holds(h', n, k);
  }

  /** A node marked after a misfire was not flagged before it, nor since. */
  lemma NobodyWon(cs: seq<Config>, ms: seq<Move>, cs': seq<Config>, ms': seq<Move>, i: nat, p: nat, e: Id, g: nat)
    requires IsRun(cs, ms) && CalmUpTo(cs, ms, |ms|) && i in cs[|ms|].threads && Misfires(Now(cs[|ms|]), cs[|ms|].threads[i])
    requires IsRun(cs', ms') && cs <= cs' && ms <= ms' && forall j :: |ms| <= j < |ms'| ==> ms'[j].tid == i
    requires i in cs'[|ms'|].threads && cs'[|ms'|].threads[i].pc == Done(false)
    requires cs'[|ms'|].threads[i].born == cs[|ms|].threads[i].born
    requires |ms| <= p < |ms'| && Holds(Now(cs'[p]), e, cs[|ms|].threads[i].op.key)
    requires g < |cs'[|ms'|].events|
    ensures !FlagsNode(cs'[|ms'|].events[g], e)
  {
    var n, n' := |ms|, |ms'|;
    RunCalls(cs, ms, n);
    RunCalls(cs', ms', n');
    EventsGrow(cs', ms', n, n');
    assert CallInv(cs[n].events, i, cs[n].threads[i]) && CallInv(cs'[n'].events, i, cs'[n'].threads[i]);
    if g >= n {
      MoverOwns(cs', ms', g, n');
      assert !WinsBy(cs'[n'].events[g], i);
    } else {
      assert cs'[n'].events[g] == cs[n].events[g];
      if FlagsNode(cs[n].events[g], e) {
        FlaggedKeyDiffers(cs, ms, cs', ms', i, p, e, g);
      }
    }
  }

  lemma FlaggedKeyDiffers(cs: seq<Config>, ms: seq<Move>, cs': seq<Config>, ms': seq<Move>, i: nat, p: nat, e: Id, g: nat)
    requires IsRun(cs, ms) && CalmUpTo(cs, ms, |ms|) && i in cs[|ms|].threads && Misfires(Now(cs[|ms|]), cs[|ms|].threads[i])
    requires IsRun(cs', ms') && cs <= cs' && |ms| <= p < |cs'|
    requires g < |ms| && g < |cs[|ms|].events| && FlagsNode(cs[|ms|].events[g], e)
    ensures !Holds(Now(cs'[p]), e, cs[|ms|].threads[i].op.key)
  {
    var n := |ms|;
    var h, t := Now(cs[n]), cs[n].threads[i];
    RunSoundUpTo(cs, ms, n);
    assert Sound(cs[n]) && ThreadInv(h, t);
    if !Leaving(h, e) {
      NeverFlagged(cs, ms, g, e);
    } else {
      NodeStays(cs', ms', n, p, e);
      if !h[e].succ.mark && h[e].key == t.op.key {
        UnmarkedKeysDistinct(h, e, t.pc.target);
      }
    }
  }

  /** From every misfire the run goes on, no other thread moving, to where it is linearizable no more. */
  lemma Unlinear(cs: seq<Config>, ms: seq<Move>, i: nat) returns (cs': seq<Config>, ms': seq<Move>)
    requires IsRun(cs, ms) && CalmUpTo(cs, ms, |ms|)
    requires i in cs[|ms|].threads && Misfires(Now(cs[|ms|]), cs[|ms|].threads[i])
    ensures IsRun(cs', ms') && cs <= cs' && ms <= ms' && forall j :: |ms| <= j < |ms'| ==> ms'[j].tid == i
    ensures !Linearized(cs', |ms'|)
  {
    var k := cs[|ms|].threads[i].op.key;
    cs', ms' := MisfireRun(cs, ms, i);
    var n' := |ms'|;
    var p := Leaves(cs', ms', |ms|, n', k);
    LogIs(cs', ms', n', p);
    LogIs(cs', ms', n', p + 1);
    assert Changes(cs'[n'].log, p);
    forall l: nat, j: nat
      ensures !Wins(cs', n', l, j, p)
    {
      if Wins(cs', n', l, j, p) {
        CannotWin(cs, ms, cs', ms', i, p, l, j);
      }
    }
  }

  /** No call accounts for the key that leaves at moment `p`. */
  lemma CannotWin(cs: seq<Config>, ms: seq<Move>, cs': seq<Config>, ms': seq<Move>, i: nat, p: nat, l: nat, j: nat)
    requires IsRun(cs, ms) && CalmUpTo(cs, ms, |ms|) && i in cs[|ms|].threads && Misfires(Now(cs[|ms|]), cs[|ms|].threads[i])
    requires IsRun(cs', ms') && cs <= cs' && ms <= ms' && forall j :: |ms| <= j < |ms'| ==> ms'[j].tid == i
    requires i in cs'[|ms'|].threads && cs'[|ms'|].threads[i].pc == Done(false)
    requires cs'[|ms'|].threads[i].born == cs[|ms|].threads[i].born
    requires |ms| <= p < |ms'|
    requires cs[|ms|].threads[i].op.key in KeySet(Now(cs'[p])) && cs[|ms|].threads[i].op.key !in KeySet(Now(cs'[p + 1]))
    ensures !Wins(cs', |ms'|, l, j, p)
  {
    var n' := |ms'|;
    LogIs(cs', ms', n', p);
    LogIs(cs', ms', n', p + 1);
    if Wins(cs', n', l, j, p) {
      var t := cs'[l].threads[j];
      DeleteExplains(cs'[n'].log, cs'[n'].events, t, p, cs[|ms|].threads[i].op.key);
      WinnerOf(cs', ms', n', l, j);
      NobodyWon(cs, ms, cs', ms', i, p, Deleted(cs'[n'].events[t.cas].act), t.cas);
    }
  }

  // ---- Without a misfire ----

  /** A thread that goes on alone after a third load makes its loads on one word. */
  lemma {:induction false} SoloAgrees(cs: seq<Config>, ms: seq<Move>, n: nat, q: nat, i: nat)
    requires IsRun(cs, ms) && n < q <= |ms| && forall j :: n <= j < |ms| ==> ms[j].tid == i
    requires i in cs[n].threads && cs[n].threads[i].pc.CheckFlag?
    ensures i in cs[q].threads && LoadsAgree(Now(cs[q]), cs[q].threads[i])
    decreases q
  {
    if q > n + 1 {
      SoloAgrees(cs, ms, n, q - 1, i);
    }
    StepOfRun(cs, ms, q - 1);
    AgreeOn(cs[q - 1], ms[q - 1]);
  }

  lemma StepOfRun(cs: seq<Config>, ms: seq<Move>, n: nat)
    requires IsRun(cs, ms) && n < |ms|
    ensures Enabled(cs[n], ms[n]) && cs[n + 1] == Step(cs[n], ms[n])
  {
  }

  /** So, if that load did not misfire, no later one does. */
  lemma SoloCalm(cs: seq<Config>, ms: seq<Move>, n: nat, i: nat)
    requires IsRun(cs, ms) && n < |ms| && CalmUpTo(cs, ms, n) && !MisfiresAt(cs, ms, n)
    requires forall j :: n <= j < |ms| ==> ms[j].tid == i
    requires i in cs[n].threads && cs[n].threads[i].pc.CheckFlag?
    ensures CalmUpTo(cs, ms, |ms|)
  {
    forall q | 0 <= q < |ms|
      ensures !MisfiresAt(cs, ms, q)
    {
      if q > n {
        SoloAgrees(cs, ms, n, q, i);
        AgreeCalm(Now(cs[q]), cs[q].threads[i]);
      }
    }
  }

  lemma AgreeCalm(h: Heap, t: Thread)
    requires LoadsAgree(h, t)
    ensures !Misfires(h, t)
  {
  }

  lemma AgreeOn(c: Config, m: Move)
    requires Enabled(c, m)
    requires LoadsAgree(Now(c), c.threads[m.tid]) || c.threads[m.tid].pc.CheckFlag?
    ensures LoadsAgree(Now(Step(c, m)), Step(c, m).threads[m.tid])
  {
    AgreeStep(Now(c), c.threads[m.tid], |c.log| - 1, m.choice);
  }

  // ---- Linearizable if and only if ----

  /** The run `cs'` is `cs` up to moment `n`, and goes on from there with the thread that moves next. */
  ghost predicate GoesOn(cs: seq<Config>, ms: seq<Move>, n: nat, cs': seq<Config>, ms': seq<Move>)
    requires n < |ms| && n < |cs|
  {
    && IsRun(cs', ms') && n <= |ms'| && cs[..n + 1] <= cs' && ms[..n] <= ms'
    && forall j :: n <= j < |ms'| ==> ms'[j].tid == ms[n].tid
  }

  /** The `n`th step is a third load from which its thread, left to itself, can end linearizability. */
  ghost predicate UnlinearAt(cs: seq<Config>, ms: seq<Move>, n: nat)
    requires n < |ms| && n < |cs|
  {
    && ms[n].tid in cs[n].threads && cs[n].threads[ms[n].tid].pc.CheckFlag?
    && exists cs', ms' :: GoesOn(cs, ms, n, cs', ms') && !Linearized(cs', |ms'|)
  }

  lemma PrefixRun(cs: seq<Config>, ms: seq<Move>, n: nat)
    requires IsRun(cs, ms) && n <= |ms|
    ensures IsRun(cs[..n + 1], ms[..n]) && (CalmUpTo(cs, ms, n) ==> CalmUpTo(cs[..n + 1], ms[..n], n))
  {
    var cs', ms' := cs[..n + 1], ms[..n];
    forall i | 0 <= i < |ms'|
      ensures Enabled(cs'[i], ms'[i]) && cs'[i + 1] == Step(cs'[i], ms'[i])
    {
      assert Enabled(cs[i], ms[i]) && cs[i + 1] == Step(cs[i], ms[i]);
    }
    if CalmUpTo(cs, ms, n) {
      forall i | 0 <= i < n
        ensures !MisfiresAt(cs', ms', i)
      {
        assert !MisfiresAt(cs, ms, i);
      }
    }
  }

  lemma MisfireUnlinear(cs: seq<Config>, ms: seq<Move>, n: nat)
    requires IsRun(cs, ms) && n < |ms| && CalmUpTo(cs, ms, n) && MisfiresAt(cs, ms, n)
    ensures UnlinearAt(cs, ms, n)
  {
    PrefixRun(cs, ms, n);
    var cs', ms' := Unlinear(cs[..n + 1], ms[..n], ms[n].tid);
    assert GoesOn(cs, ms, n, cs', ms');
  }

  lemma NoMisfireLinear(cs: seq<Config>, ms: seq<Move>, n: nat, cs': seq<Config>, ms': seq<Move>)
    requires IsRun(cs, ms) && n < |ms| && CalmUpTo(cs, ms, n) && !MisfiresAt(cs, ms, n) && GoesOn(cs, ms, n, cs', ms')
    requires ms[n].tid in cs[n].threads && cs[n].threads[ms[n].tid].pc.CheckFlag?
    ensures Linearized(cs', |ms'|)
  {
    assert cs'[n] == cs[n];
    forall i | 0 <= i < n
      ensures !MisfiresAt(cs', ms', i)
    {
      assert !MisfiresAt(cs, ms, i) && cs'[i] == cs[..n + 1][i] && ms'[i] == ms[..n][i];
    }
    if n < |ms'| {
      SoloCalm(cs', ms', n, ms[n].tid);
    }
    Linearizable(cs', ms', |ms'|);
  }

  lemma UnlinearIff(cs: seq<Config>, ms: seq<Move>, n: nat)
    requires IsRun(cs, ms) && n < |ms| && CalmUpTo(cs, ms, n)
    ensures UnlinearAt(cs, ms, n) <==> MisfiresAt(cs, ms, n)
  {
    if MisfiresAt(cs, ms, n) {
      MisfireUnlinear(cs, ms, n);
    } else if ms[n].tid in cs[n].threads && cs[n].threads[ms[n].tid].pc.CheckFlag? {
      forall cs', ms' | GoesOn(cs, ms, n, cs', ms')
        ensures Linearized(cs', |ms'|)
      {
        NoMisfireLinear(cs, ms, n, cs', ms');
      }
    }
  }

  ghost predicate LinearUpTo(cs: seq<Config>, ms: seq<Move>, n: nat)
    requires n <= |cs| && n <= |ms|
  {
    forall i :: 0 <= i < n ==> !UnlinearAt(cs, ms, i)
  }

  lemma {:induction false} LinearIffCalm(cs: seq<Config>, ms: seq<Move>, n: nat)
    requires IsRun(cs, ms) && n <= |ms|
    ensures LinearUpTo(cs, ms, n) <==> CalmUpTo(cs, ms, n)
  {
    if n > 0 {
      LinearIffCalm(cs, ms, n - 1);
      if CalmUpTo(cs, ms, n - 1) {
        UnlinearIff(cs, ms, n - 1);
      }
    }
  }

  /** In every run: no third load puts linearizability into the hands of its thread if and only if no
      check misfires; and then the run is linearizable at every moment. */
  lemma LinearizableIff(cs: seq<Config>, ms: seq<Move>)
    requires IsRun(cs, ms)
    ensures LinearUpTo(cs, ms, |ms|) <==> CalmUpTo(cs, ms, |ms|)
    ensures CalmUpTo(cs, ms, |ms|) ==> forall n: nat :: n < |cs| ==> Linearized(cs, n)
  {
    LinearIffCalm(cs, ms, |ms|);
    if CalmUpTo(cs, ms, |ms|) {
      forall n: nat | n < |cs|
        ensures Linearized(cs, n)
      {
        Linearizable(cs, ms, n);
      }
    }
  }
}
