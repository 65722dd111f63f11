/** The one word that guards copies of list values: it counts readers, and holds its greatest value
    while a writer is at work. Copies go byte by byte, interleaved with everyone else's. */
module ReadersWord {

  type Byte = bv8

  const UINT32_MAX := 0xFFFF_FFFF

  /** A call: a copy out of a node's value, or the replacement of it by `val`. */
  datatype Op = Op(node: nat, write: bool, val: seq<Byte>)

  datatype Pc =
    | Rest
    | LoadForRead                   // 1118, 1165
    | CasForRead(orig: nat)         // 1119, 1166
    | Copy(buf: seq<Byte>)          // 1120, 1167
    | EndRead(buf: seq<Byte>)       // 1121, 1168
    | Have(buf: seq<Byte>)          // the buffer handed to the caller
    | LoadForWrite                  // 1195
    | CasForWrite(orig: nat)        // 1196
    | Store(i: nat)                 // 1197
    | EndWrite                      // 1198
    | Updated                       // list_update has returned 0

  /** `since` records how many values had been stored in the node when the call began. */
  datatype Thread = Thread(op: Op, pc: Pc, since: nat)

  /** `stored` lists, for each node, the values stored whole so far: first the one it was inserted
      with, then those of completed updates. No step reads it. */
  datatype State = State(bytes: nat, word: nat, vals: map<nat, seq<Byte>>, stored: map<nat, seq<seq<Byte>>>,
                         threads: map<nat, Thread>)

  datatype Choice = Choice(op: Op, spurious: bool)

  predicate Enabled(s: State, t: nat, c: Choice) {
    t in s.threads && c.op.node in s.vals && |c.op.val| == s.bytes
  }

  function ValOf(s: State, n: nat): seq<Byte> {
    if n in s.vals then s.vals[n] else []
  }

  function StoredIn(s: State, n: nat): seq<seq<Byte>> {
    if n in s.stored then s.stored[n] else []
  }

  function Goto(s: State, t: nat, pc: Pc): State
    requires t in s.threads
  {
    s.(threads := s.threads[t := s.threads[t].(pc := pc)])
  }

  function Begin(op: Op, since: nat): Thread {
    Thread(op, if op.write then LoadForWrite else LoadForRead, since)
  }

  function ReadStep(s: State, t: nat, c: Choice): State
    requires Enabled(s, t, c)
  {
    var th := s.threads[t];
    var val := ValOf(s, th.op.node);
    match th.pc
    case LoadForRead => Goto(s, t, CasForRead(s.word))
    case CasForRead(orig) =>
      if orig == UINT32_MAX || s.word != orig || c.spurious then Goto(s, t, LoadForRead)
      else Goto(s, t, Copy([])).(word := orig + 1)
    case Copy(buf) =>
      if |buf| < s.bytes && |buf| < |val| then Goto(s, t, Copy(buf + [val[|buf|]])) else Goto(s, t, EndRead(buf))
    case EndRead(buf) => Goto(s, t, Have(buf)).(word := if s.word > 0 then s.word - 1 else UINT32_MAX)
    case _ => s
  }

  function WriteStep(s: State, t: nat, c: Choice): State
    requires Enabled(s, t, c)
  {
    var th := s.threads[t];
    var n := th.op.node;
    var val := ValOf(s, n);
    match th.pc
    case LoadForWrite => Goto(s, t, CasForWrite(s.word))
    case CasForWrite(orig) =>
      if orig != 0 || s.word != orig || c.spurious then Goto(s, t, LoadForWrite)
      else Goto(s, t, Store(0)).(word := UINT32_MAX)
    case Store(i) =>
      if i < s.bytes && i < |val| && i < |th.op.val| then
        Goto(s, t, Store(i + 1)).(vals := s.vals[n := val[i := th.op.val[i]]])
      else Goto(s, t, EndWrite)
    case EndWrite =>
      Goto(s, t, Updated).(word := 0, stored := s.stored[n := StoredIn(s, n) + [th.op.val]])
    case _ => s
  }

  predicate Idle(pc: Pc) {
    pc.Rest? || pc.Have? || pc.Updated?
  }

  predicate ReadPc(pc: Pc) {
    pc.LoadForRead? || pc.CasForRead? || pc.Copy? || pc.EndRead?
  }

  function Step(s: State, t: nat, c: Choice): State
    requires Enabled(s, t, c)
  {
    var pc := s.threads[t].pc;
    if Idle(pc) then s.(threads := s.threads[t := Begin(c.op, |StoredIn(s, c.op.node)|)])
    else if ReadPc(pc) then ReadStep(s, t, c)
    else WriteStep(s, t, c)
  }

  // ---- Exclusion ----

  predicate ReadingPc(pc: Pc) {
    pc.Copy? || pc.EndRead?
  }

  predicate WritingPc(pc: Pc) {
    pc.Store? || pc.EndWrite?
  }

  function Readers(threads: map<nat, Thread>): set<nat> {
    set t | t in threads && ReadingPc(threads[t].pc)
  }

  function Writers(threads: map<nat, Thread>): set<nat> {
    set t | t in threads && WritingPc(threads[t].pc)
  }

  /** Either nobody writes and the word counts the readers, or one thread writes alone and the word is
      at its greatest; a reader count that reaches the greatest value is the first case. */
  predicate WordInv(s: State) {
    && s.word <= UINT32_MAX
    && (|Writers(s.threads)| == 0 ==> s.word == |Readers(s.threads)|)
    && (|Writers(s.threads)| > 0 ==> |Writers(s.threads)| == 1 && Readers(s.threads) == {} && s.word == UINT32_MAX)
  }

  lemma SetsAfter(threads: map<nat, Thread>, t: nat, th: Thread)
    requires t in threads
    ensures Readers(threads[t := th]) == if ReadingPc(th.pc) then Readers(threads) + {t} else Readers(threads) - {t}
    ensures Writers(threads[t := th]) == if WritingPc(th.pc) then Writers(threads) + {t} else Writers(threads) - {t}
  {
  }

  /** How the word must follow a thread in and out of its critical section. */
  predicate WordFollows(pc: Pc, pc': Pc, word: nat, word': int) {
    if ReadingPc(pc) then
      if ReadingPc(pc') then word' == word else !WritingPc(pc') && word' == word - 1
    else if WritingPc(pc) then
      if WritingPc(pc') then word' == word else !ReadingPc(pc') && word' == 0
    else if ReadingPc(pc') then word' == word + 1 <= UINT32_MAX
    else if WritingPc(pc') then word == 0 && word' == UINT32_MAX
    else word' == word
  }

  lemma WordAfter(s: State, t: nat, th: Thread, word': nat)
    requires WordInv(s) && t in s.threads
    requires WordFollows(s.threads[t].pc, th.pc, s.word, word')
    ensures WordInv(s.(threads := s.threads[t := th], word := word'))
  {
    SetsAfter(s.threads, t, th);
    var pc := s.threads[t].pc;
    assert t in Readers(s.threads) <==> ReadingPc(pc);
    assert t in Writers(s.threads) <==> WritingPc(pc);
    if WritingPc(pc) {
      assert |Writers(s.threads)| > 0;
      assert |Writers(s.threads) - {t}| == 0;
    }
  }

  lemma StepWord(s: State, t: nat, c: Choice)
    requires WordInv(s) && Enabled(s, t, c)
    ensures WordInv(Step(s, t, c))
  {
    var s' := Step(s, t, c);
    var pc := s.threads[t].pc;
    assert ReadingPc(pc) ==> t in Readers(s.threads);
    assert ReadingPc(pc) ==> s.word > 0;
    assert s'.threads == s.threads[t := s'.threads[t]];
    assert WordFollows(pc, s'.threads[t].pc, s.word, s'.word);
    WordAfter(s, t, s'.threads[t], s'.word);
  }

  // ---- Torn reads ----

  function Latest(s: State, n: nat): seq<Byte>
    requires n in s.stored && s.stored[n] != []
  {
    s.stored[n][|s.stored[n]| - 1]
  }

  predicate WritesTo(s: State, t: nat, n: nat) {
    t in s.threads && WritingPc(s.threads[t].pc) && s.threads[t].op.node == n
  }

  /** A node nobody is writing holds the value last stored whole. */
  ghost predicate NodeInv(s: State, n: nat)
    requires n in s.vals
  {
    && n in s.stored && s.stored[n] != [] && |Latest(s, n)| == s.bytes && |s.vals[n]| == s.bytes
    && ((forall t :: !WritesTo(s, t, n)) ==> s.vals[n] == Latest(s, n))
  }

  /** A completed buffer is a value stored whole, and no older than the call that read it. */
  ghost predicate WholeValue(stored: seq<seq<Byte>>, since: nat, buf: seq<Byte>) {
    exists k :: 0 <= k < |stored| && since <= k + 1 && stored[k] == buf
  }

  /** A value that was stored whole, and not before the call that stored it began. */
  ghost predicate Kept(stored: seq<seq<Byte>>, since: nat, val: seq<Byte>) {
    exists k :: since <= k < |stored| && stored[k] == val
  }

  /** What a thread's program point says of the node it works on: a writer has replaced a prefix of
      the latest value, a reader has copied a prefix of it. */
  ghost predicate ThreadInv(s: State, t: nat)
    requires t in s.threads
  {
    var th := s.threads[t];
    var n := th.op.node;
    !th.pc.Rest? ==>
      && n in s.vals && n in s.stored && s.stored[n] != [] && |th.op.val| == s.bytes
      && |s.vals[n]| == s.bytes == |Latest(s, n)| && th.since <= |s.stored[n]|
      && (th.pc.Store? ==> th.pc.i <= s.bytes && s.vals[n] == th.op.val[..th.pc.i] + Latest(s, n)[th.pc.i..])
      && (th.pc.EndWrite? ==> s.vals[n] == th.op.val)
      && (th.pc.Copy? ==> |th.pc.buf| <= s.bytes && th.pc.buf == Latest(s, n)[..|th.pc.buf|])
      && (th.pc.EndRead? ==> th.pc.buf == Latest(s, n))
      && (th.pc.Have? ==> WholeValue(s.stored[n], th.since, th.pc.buf))
      && (th.pc.Updated? ==> Kept(s.stored[n], th.since, th.op.val))
      && (th.op.write <==> !ReadPc(th.pc) && !th.pc.Have?)
  }

  ghost predicate CopyInv(s: State) {
    && (forall n {:trigger NodeInv(s, n)} :: n in s.vals ==> NodeInv(s, n))
    && (forall t {:trigger ThreadInv(s, t)} :: t in s.threads ==> ThreadInv(s, t))
  }

  ghost predicate Inv(s: State) {
    WordInv(s) && CopyInv(s)
  }

  lemma NobodyWrites(s: State, n: nat)
    requires Writers(s.threads) == {}
    ensures forall t :: !WritesTo(s, t, n)
  {
    forall t
      ensures !WritesTo(s, t, n)
    {
      assert t !in Writers(s.threads);
    }
  }

  lemma OnlyWriter(s: State, t: nat, u: nat)
    requires WordInv(s) && t in Writers(s.threads) && u in s.threads
    ensures (WritingPc(s.threads[u].pc) ==> u == t) && !ReadingPc(s.threads[u].pc)
  {
    assert ReadingPc(s.threads[u].pc) ==> u in Readers(s.threads);
    if WritingPc(s.threads[u].pc) && u != t {
      assert {t, u} <= Writers(s.threads);
      SubsetCount({t, u}, Writers(s.threads));
    }
  }

  lemma SubsetCount(a: set<nat>, b: set<nat>)
    requires a <= b
    ensures |a| <= |b|
  {
    assert b == a + (b - a);
  }

  /** Steps that change neither values nor history: one thread's program point moves. */
  lemma MoveCopy(s: State, t: nat, th: Thread, word: nat)
    requires CopyInv(s) && t in s.threads
    requires var s' := s.(threads := s.threads[t := th], word := word);
             && ThreadInv(s', t)
             && (WritingPc(s.threads[t].pc) ==> WritingPc(th.pc) && th.op.node == s.threads[t].op.node)
    ensures CopyInv(s.(threads := s.threads[t := th], word := word))
  {
    var s' := s.(threads := s.threads[t := th], word := word);
    forall u | u in s'.threads
      ensures ThreadInv(s', u)
    {
      assert ThreadInv(s, u);
    }
    forall n | n in s'.vals
      ensures NodeInv(s', n)
    {
      assert NodeInv(s, n);
      if forall u :: !WritesTo(s', u, n) {
        forall u
          ensures !WritesTo(s, u, n)
        {
          assert !WritesTo(s', u, n);
        }
      }
    }
  }

  lemma StoreCopy(s: State, t: nat, i: nat)
    requires Inv(s) && t in s.threads && s.threads[t].pc == Store(i) && i < s.bytes
    ensures var th := s.threads[t];
            && ThreadInv(s, t)
            && CopyInv(s.(threads := s.threads[t := th.(pc := Store(i + 1))],
                          vals := s.vals[th.op.node := s.vals[th.op.node][i := th.op.val[i]]]))
  {
    var th := s.threads[t];
    var n := th.op.node;
    assert ThreadInv(s, t);
    var s' := s.(threads := s.threads[t := th.(pc := Store(i + 1))], vals := s.vals[n := s.vals[n][i := th.op.val[i]]]);
    assert s'.vals[n] == th.op.val[..i + 1] + Latest(s, n)[i + 1..];
    assert t in Writers(s.threads);
    forall u | u in s'.threads
      ensures ThreadInv(s', u)
    {
      assert ThreadInv(s, u);
      OnlyWriter(s, t, u);
    }
    forall m | m in s'.vals
      ensures NodeInv(s', m)
    {
      assert NodeInv(s, m);
      assert WritesTo(s', t, n);
      forall u
        ensures WritesTo(s', u, m) <==> WritesTo(s, u, m)
      {
      }
    }
  }

  lemma EndWriteCopy(s: State, t: nat)
    requires Inv(s) && t in s.threads && s.threads[t].pc == EndWrite
    ensures var th := s.threads[t];
            CopyInv(s.(threads := s.threads[t := th.(pc := Updated)], word := 0,
                       stored := s.stored[th.op.node := StoredIn(s, th.op.node) + [th.op.val]]))
  {
    var th := s.threads[t];
    var n := th.op.node;
    assert ThreadInv(s, t);
    var s' := s.(threads := s.threads[t := th.(pc := Updated)], word := 0, stored := s.stored[n := s.stored[n] + [th.op.val]]);
    assert t in Writers(s.threads);
    assert s'.stored[n][|s.stored[n]|] == th.op.val;
    forall u | u in s'.threads
      ensures ThreadInv(s', u)
    {
      assert ThreadInv(s, u);
      OnlyWriter(s, t, u);
      if u != t {
        RestingKeeps(s, s', t, u);
      }
    }
    forall m | m in s'.vals
      ensures NodeInv(s', m)
    {
      assert NodeInv(s, m);
      if m != n {
        forall u
          ensures WritesTo(s', u, m) <==> WritesTo(s, u, m)
        {
        }
      }
    }
  }

  /** A call that has ended keeps what it has when another value is stored. */
  lemma RestingKeeps(s: State, s': State, t: nat, u: nat)
    requires t in s.threads && u in s.threads && u in s'.threads && u != t && s'.threads[u] == s.threads[u]
    requires s.threads[t].op.node in s.stored && ThreadInv(s, u) && s'.bytes == s.bytes && s'.vals == s.vals
    requires s'.stored == s.stored[s.threads[t].op.node := s.stored[s.threads[t].op.node] + [s.threads[t].op.val]]
    requires |s.threads[t].op.val| == s.bytes && !ReadingPc(s.threads[u].pc) && !WritingPc(s.threads[u].pc)
    ensures ThreadInv(s', u)
  {
    var n := s.threads[t].op.node;
    var th := s.threads[u];
    if th.op.node == n && th.pc.Have? {
      var k :| 0 <= k < |s.stored[n]| && th.since <= k + 1 && s.stored[n][k] == th.pc.buf;
      assert s'.stored[n][k] == th.pc.buf;
    }
    if th.op.node == n && th.pc.Updated? {
      var k :| th.since <= k < |s.stored[n]| && s.stored[n][k] == th.op.val;
      assert s'.stored[n][k] == th.op.val;
    }
  }

  lemma ReadCopy(s: State, t: nat, c: Choice)
    requires Inv(s) && Enabled(s, t, c) && ReadPc(s.threads[t].pc)
    ensures CopyInv(Step(s, t, c))
  {
    var th := s.threads[t];
    var s' := Step(s, t, c);
    assert ThreadInv(s, t) && NodeInv(s, th.op.node);
    if ReadingPc(th.pc) {
      assert t in Readers(s.threads);
      NobodyWrites(s, th.op.node);
    }
    if th.pc.Copy? && |th.pc.buf| < s.bytes {
      var k := |th.pc.buf|;
      assert Latest(s, th.op.node)[..k + 1] == th.pc.buf + [Latest(s, th.op.node)[k]];
    }
    if th.pc.EndRead? {
      assert s.stored[th.op.node][|s.stored[th.op.node]| - 1] == th.pc.buf;
    }
    MoveCopy(s, t, s'.threads[t], s'.word);
  }

  lemma WriteCopy(s: State, t: nat, c: Choice)
    requires Inv(s) && Enabled(s, t, c) && !ReadPc(s.threads[t].pc) && !Idle(s.threads[t].pc)
    ensures CopyInv(Step(s, t, c))
  {
    var th := s.threads[t];
    var s' := Step(s, t, c);
    assert ThreadInv(s, t) && NodeInv(s, th.op.node);
    if th.pc.Store? && th.pc.i < s.bytes {
      StoreCopy(s, t, th.pc.i);
    } else if th.pc.EndWrite? {
      EndWriteCopy(s, t);
    } else {
      if s.word == 0 {
        NobodyWrites(s, th.op.node);
      }
      MoveCopy(s, t, s'.threads[t], s'.word);
    }
  }

  lemma StepInv(s: State, t: nat, c: Choice)
    requires Inv(s) && Enabled(s, t, c)
    ensures Inv(Step(s, t, c))
  {
    StepWord(s, t, c);
    if Idle(s.threads[t].pc) {
      assert NodeInv(s, c.op.node);
      MoveCopy(s, t, Step(s, t, c).threads[t], s.word);
    } else if ReadPc(s.threads[t].pc) {
      ReadCopy(s, t, c);
    } else {
      WriteCopy(s, t, c);
    }
  }

  // ---- Runs ----

  /** Nodes with their first values, and nobody at work on them. */
  ghost predicate Initial(s: State) {
    && s.word == 0 && (forall t :: t in s.threads ==> s.threads[t].pc.Rest?)
    && forall n :: n in s.vals ==> |s.vals[n]| == s.bytes && n in s.stored && s.stored[n] == [s.vals[n]]
  }

  ghost predicate IsRun(ss: seq<State>, ms: seq<(nat, Choice)>) {
    && |ss| == |ms| + 1 && Initial(ss[0])
    && forall i :: 0 <= i < |ms| ==> Enabled(ss[i], ms[i].0, ms[i].1) && ss[i + 1] == Step(ss[i], ms[i].0, ms[i].1)
  }

  lemma {:induction false} RunInv(ss: seq<State>, ms: seq<(nat, Choice)>, n: nat)
    requires IsRun(ss, ms) && n < |ss|
    ensures Inv(ss[n])
  {
    if n == 0 {
      assert Readers(ss[0].threads) == {} && Writers(ss[0].threads) == {};
    } else {
      RunInv(ss, ms, n - 1);
      assert Enabled(ss[n - 1], ms[n - 1].0, ms[n - 1].1) && ss[n] == Step(ss[n - 1], ms[n - 1].0, ms[n - 1].1);
      StepInv(ss[n - 1], ms[n - 1].0, ms[n - 1].1);
    }
  }

  /** In every run, at every moment: at most one thread writes, none reads beside it, and the word is
      the number of readers, or its greatest value under a writer. */
  lemma Exclusion(ss: seq<State>, ms: seq<(nat, Choice)>, n: nat, t: nat, u: nat)
    requires IsRun(ss, ms) && n < |ss| && t in ss[n].threads && u in ss[n].threads
    requires WritingPc(ss[n].threads[t].pc)
    ensures (WritingPc(ss[n].threads[u].pc) ==> u == t) && !ReadingPc(ss[n].threads[u].pc)
    ensures ss[n].word == 0xFFFF_FFFF
  {
    RunInv(ss, ms, n);
    assert t in Writers(ss[n].threads);
    OnlyWriter(ss[n], t, u);
  }

  /** The word counts the readers whenever nobody writes, however many there are. */
  lemma WordCounts(ss: seq<State>, ms: seq<(nat, Choice)>, n: nat)
    requires IsRun(ss, ms) && n < |ss| && Writers(ss[n].threads) == {}
    ensures ss[n].word == |Readers(ss[n].threads)| <= 0xFFFF_FFFF
  {
    RunInv(ss, ms, n);
  }

  /** In every run, the buffer a completed search hands out is a value that one insertion or update
      stored whole in that node, and was the latest at some moment since the call began. */
  lemma NoTornRead(ss: seq<State>, ms: seq<(nat, Choice)>, n: nat, t: nat)
    requires IsRun(ss, ms) && n < |ss| && t in ss[n].threads && ss[n].threads[t].pc.Have?
    ensures var th := ss[n].threads[t];
            && th.op.node in ss[n].stored
            && WholeValue(ss[n].stored[th.op.node], th.since, th.pc.buf)
  {
    RunInv(ss, ms, n);
    assert ThreadInv(ss[n], t);
  }

  // ---- Every call does what it was asked ----

  /** A call is the one asked for until its thread asks for another, and it never stops half-way. */
  lemma StepCall(s: State, t: nat, c: Choice, u: nat)
    requires Enabled(s, t, c) && u in s.threads
    ensures var th, th' := s.threads[u], Step(s, t, c).threads[u];
            if u == t && Idle(th.pc) then th'.op == c.op && !Idle(th'.pc) && th'.since == |StoredIn(s, c.op.node)|
            else th'.op == th.op && th'.since == th.since && (!th.pc.Rest? ==> !th'.pc.Rest?) && (u != t ==> th' == th)
  {
  }

  /** Move `b` began the call of this operation by thread `t`. */
  predicate Begins(ms: seq<(nat, Choice)>, b: nat, t: nat, op: Op) {
    b < |ms| && ms[b].0 == t && ms[b].1.op == op
  }

  lemma {:induction false} RunMade(ss: seq<State>, ms: seq<(nat, Choice)>, n: nat, t: nat)
    requires IsRun(ss, ms) && n < |ss| && t in ss[n].threads && !ss[n].threads[t].pc.Rest?
    ensures exists b: nat :: b < n && Begins(ms, b, t, ss[n].threads[t].op)
  {
    if n > 0 {
      assert Enabled(ss[n - 1], ms[n - 1].0, ms[n - 1].1) && ss[n] == Step(ss[n - 1], ms[n - 1].0, ms[n - 1].1);
      StepCall(ss[n - 1], ms[n - 1].0, ms[n - 1].1, t);
      if t == ms[n - 1].0 && Idle(ss[n - 1].threads[t].pc) {
        assert Begins(ms, n - 1, t, ss[n].threads[t].op);
      } else {
        RunMade(ss, ms, n - 1, t);
        var b: nat :| b < n - 1 && Begins(ms, b, t, ss[n - 1].threads[t].op);
        assert Begins(ms, b, t, ss[n].threads[t].op);
      }
    }
  }

  /** In every run, an update that has returned had been asked for, and its value was stored whole in its
      node since it began; a search that has returned had been asked for, and hands out a buffer. */
  lemma CallsDoTheirWork(ss: seq<State>, ms: seq<(nat, Choice)>, n: nat, t: nat)
    requires IsRun(ss, ms) && n < |ss| && t in ss[n].threads
    requires Idle(ss[n].threads[t].pc) && !ss[n].threads[t].pc.Rest?
    ensures var th := ss[n].threads[t];
            && (exists b: nat :: b < n && Begins(ms, b, t, th.op)) && th.op.node in ss[n].stored
            && if th.op.write then th.pc.Updated? && Kept(ss[n].stored[th.op.node], th.since, th.op.val)
               else th.pc.Have? && WholeValue(ss[n].stored[th.op.node], th.since, th.pc.buf)
  {
    RunInv(ss, ms, n);
    RunMade(ss, ms, n, t);
    assert ThreadInv(ss[n], t);
  }

  lemma StaysBusy(ss: seq<State>, ms: seq<(nat, Choice)>, n: nat, t: nat)
    requires IsRun(ss, ms) && n + 1 < |ss| && t in ss[n].threads && !ss[n].threads[t].pc.Rest?
    ensures t in ss[n + 1].threads && !ss[n + 1].threads[t].pc.Rest?
  {
    assert Enabled(ss[n], ms[n].0, ms[n].1) && ss[n + 1] == Step(ss[n], ms[n].0, ms[n].1);
    StepCall(ss[n], ms[n].0, ms[n].1, t);
  }

  /** And a call once begun never goes back to rest. */
  lemma {:induction false} NeverBackToRest(ss: seq<State>, ms: seq<(nat, Choice)>, k: nat, n: nat, t: nat)
    requires IsRun(ss, ms) && k <= n < |ss| && t in ss[k].threads && !ss[k].threads[t].pc.Rest?
    ensures t in ss[n].threads && !ss[n].threads[t].pc.Rest?
    decreases n
  {
    if k < n {
      NeverBackToRest(ss, ms, k, n - 1, t);
      StaysBusy(ss, ms, n - 1, t);
    }
  }

  // ---- Run alone ----

  ghost function Run(s: State, t: nat, c: Choice, n: nat): State
    decreases n
  {
    if n == 0 || !Enabled(s, t, c) then s else Run(Step(s, t, c), t, c, n - 1)
  }

  lemma RunStep(s: State, t: nat, c: Choice, n: nat)
    requires Enabled(s, t, c)
    ensures Run(s, t, c, n + 1) == Run(Step(s, t, c), t, c, n)
  {
  }

  /** How a call alone ends: the update has put its value into the node and freed the word; the search
      has the value of the node. Nothing else has changed. */
  ghost predicate EndsAs(s: State, t: nat, op: Op, e: State) {
    && t in e.threads && e.threads[t].op == op && e.bytes == s.bytes
    && e.threads.Keys == s.threads.Keys && (forall u :: u in s.threads && u != t ==> e.threads[u] == s.threads[u])
    && if op.write then
         && e.threads[t].pc.Updated? && e.vals == s.vals[op.node := op.val] && e.word == 0
         && e.stored == s.stored[op.node := StoredIn(s, op.node) + [op.val]]
       else e.threads[t].pc == Have(ValOf(s, op.node)) && e.vals == s.vals && e.stored == s.stored
  }

  /** What the word must allow for a call to go on: a search waits for a writer, an update for everyone. */
  predicate MayGoOn(s: State, pc: Pc, write: bool) {
    ReadingPc(pc) || WritingPc(pc) || (if write then s.word == 0 else s.word < UINT32_MAX)
  }

  function Rank(s: State, pc: Pc): nat {
    match pc
    case LoadForRead => s.bytes + 4
    case CasForRead(orig) => if orig == s.word then s.bytes + 3 else s.bytes + 5
    case Copy(buf) => if |buf| <= s.bytes then s.bytes - |buf| + 1 else 0
    case LoadForWrite => s.bytes + 4
    case CasForWrite(orig) => if orig == s.word then s.bytes + 3 else s.bytes + 5
    case Store(i) => if i <= s.bytes then s.bytes - i + 2 else 0
    case EndWrite => 1
    case _ => 0
  }

  /** A step alone ends the call or brings it nearer to its end. */
  lemma StepNearer(s: State, t: nat, c: Choice)
    requires Inv(s) && Enabled(s, t, c) && !c.spurious && !Idle(s.threads[t].pc)
    requires MayGoOn(s, s.threads[t].pc, s.threads[t].op.write)
    ensures var s' := Step(s, t, c);
            var pc, pc' := s.threads[t].pc, s'.threads[t].pc;
            && s'.threads[t].op == s.threads[t].op && s'.bytes == s.bytes && s'.vals.Keys == s.vals.Keys
            && (Idle(pc') || (MayGoOn(s', pc', s.threads[t].op.write) && Rank(s', pc') < Rank(s, pc)))
  {
    assert ThreadInv(s, t) && NodeInv(s, s.threads[t].op.node);
  }

  lemma ReadOutcome(s: State, t: nat, c: Choice, e: State)
    requires Inv(s) && Enabled(s, t, c) && ReadPc(s.threads[t].pc)
    requires var s' := Step(s, t, c);
             if Idle(s'.threads[t].pc) then e == s' else EndsAs(s', t, s.threads[t].op, e)
    ensures EndsAs(s, t, s.threads[t].op, e)
  {
    var n := s.threads[t].op.node;
    assert ThreadInv(s, t) && NodeInv(s, n);
    if ReadingPc(s.threads[t].pc) {
      assert t in Readers(s.threads);
      NobodyWrites(s, n);
    }
  }

  lemma WriteOutcome(s: State, t: nat, c: Choice, e: State)
    requires Inv(s) && Enabled(s, t, c) && !ReadPc(s.threads[t].pc) && !Idle(s.threads[t].pc)
    requires var s' := Step(s, t, c);
             if Idle(s'.threads[t].pc) then e == s' else EndsAs(s', t, s.threads[t].op, e)
    ensures EndsAs(s, t, s.threads[t].op, e)
  {
    var n := s.threads[t].op.node;
    assert ThreadInv(s, t) && NodeInv(s, n);
  }

  /** A call suspended anywhere, and left alone once the word lets it go on, ends and does its work. */
  lemma {:induction false} CallResumes(s: State, t: nat, c: Choice) returns (n: nat)
    requires Inv(s) && Enabled(s, t, c) && !c.spurious && !Idle(s.threads[t].pc)
    requires MayGoOn(s, s.threads[t].pc, s.threads[t].op.write)
    ensures EndsAs(s, t, s.threads[t].op, Run(s, t, c, n))
    decreases Rank(s, s.threads[t].pc)
  {
    var s' := Step(s, t, c);
    StepInv(s, t, c);
    StepNearer(s, t, c);
    n := 0;
    if !Idle(s'.threads[t].pc) {
      n := CallResumes(s', t, c);
    }
    RunStep(s, t, c, n);
    if ReadPc(s.threads[t].pc) {
      ReadOutcome(s, t, c, Run(s, t, c, n + 1));
    } else {
      WriteOutcome(s, t, c, Run(s, t, c, n + 1));
    }
    n := n + 1;
  }

  /** A call made when the word lets it go on, and run alone, ends and does what it was asked. */
  lemma CallCompletes(s: State, t: nat, c: Choice) returns (n: nat)
    requires Inv(s) && Enabled(s, t, c) && !c.spurious && Idle(s.threads[t].pc)
    requires if c.op.write then s.word == 0 else s.word < UINT32_MAX
    ensures EndsAs(s, t, c.op, Run(s, t, c, n))
  {
    var s' := Step(s, t, c);
    StepInv(s, t, c);
    n := CallResumes(s', t, c);
    RunStep(s, t, c, n);
    n := n + 1;
  }
}
