/** The queue over its fragment pool, run under a lock as the thread pool runs it: values live in
    recycled fragments, and the same words link the queue and the free chain. */
module SerialQueues {
  import opened MemoryPools

  datatype Taken = Empty | Taken(val: seq<Byte>)

  class SerialQueue {
    const pool: MemoryPool
    var head: Link
    var tail: Link
    var valBytes: nat

    /** The fragments of the queue: a spent one in front, then one for each value held. */
    ghost var nodes: seq<int>

    ghost predicate Valid()
      reads this, pool, pool.cells
    {
      && pool.Valid() && Threaded(pool.cells[..], nodes)
      && head.frag == nodes[0] && TailNear(nodes, tail.frag)
      && (forall f {:trigger f in nodes} :: f in nodes ==> f !in pool.chain)
      && |nodes| + |pool.chain| == pool.cells.Length
      && pool.cells.Length >= 2 && HEADER + valBytes <= AlignedDataBytes(pool.dataBytes)
    }

    ghost function Contents(): (s: seq<seq<Byte>>)
      reads this, pool, pool.cells
      requires Valid()
      ensures |s| == |nodes| - 1
    {
      Values(pool.cells[..], nodes, valBytes)
    }

    /** How many values the queue can hold. */
    ghost function Room(): int
      reads pool, pool.cells
    {
      pool.cells.Length - 2
    }

    constructor (p: MemoryPool, bytes: nat)
      requires p.Valid() && |p.chain| == p.cells.Length && p.cells.Length >= 2
      requires HEADER + bytes <= AlignedDataBytes(p.dataBytes)
      modifies p, p.cells, p.faults
      ensures pool == p && valBytes == bytes && p.cells == old(p.cells) && Valid()
      ensures Contents() == []
    {
      pool := p;
      valBytes := bytes;
      new;
      var v := Alloc([]);
      head, tail := Link(0, v), Link(0, v);
      nodes := [v];
      Single(pool.cells[..], v);
    }

    /** `queue_alloc_value`: a fragment from the pool, its link cleared and its value copied in. */
    method Alloc(val: seq<Byte>) returns (v: int)
      requires pool.Valid() && |val| <= Space(pool.dataBytes)
      modifies pool, pool.cells, pool.faults
      ensures pool.Valid() && pool.cells == old(pool.cells) && pool.dataBytes == old(pool.dataBytes)
      ensures v == NONE <==> |old(pool.chain)| == 1
      ensures v == NONE ==> pool.chain == old(pool.chain) && pool.cells[..] == old(pool.cells[..])
      ensures v != NONE ==>
                && v == old(pool.chain)[0] && pool.chain == old(pool.chain)[1..] && pool.Owned(v)
                && 0 <= v < pool.cells.Length && |old(pool.cells[v].data)| == Space(pool.dataBytes)
                && pool.cells[..] == old(pool.cells[..])[v := Fragment(Link(0, NONE), Over(old(pool.cells[v].data), val))]
    {
      HeadLink(pool.cells[..], pool.chain);
      v := pool.Pick();
      if v != NONE {
        ghost var was := pool.cells[..];
        var cell := Fragment(Link(0, NONE), Over(pool.cells[v].data, val));
        ThreadedFrame(was, pool.chain, v, cell);
        pool.cells[v] := cell;
        assert pool.cells[..] == was[v := cell];
      }
    }

    method Enqueue(val: seq<Byte>) returns (ok: bool)
      requires Valid() && |val| == valBytes
      modifies this, pool, pool.cells, pool.faults
      ensures Valid() && pool.cells == old(pool.cells) && valBytes == old(valBytes)
      ensures ok <==> |old(Contents())| < Room()
      ensures Contents() == old(Contents()) + if ok then [val] else []
    {
      ghost var cells0, chain0 := pool.cells[..], pool.chain;
      var v := Alloc(val);
      if v == NONE {
        return false;
      }
      EnqueueAlloc(cells0, nodes, chain0, pool.cells[v], valBytes);
      LinkBehind(v);
      return true;
    }

    /** Lines 579-600: the new fragment is linked behind the last one, however far tail lags. */
    method LinkBehind(v: int)
      requires pool.Valid() && Threaded(pool.cells[..], nodes) && head.frag == nodes[0] && TailNear(nodes, tail.frag)
      requires forall f {:trigger f in nodes} :: f in nodes ==> f !in pool.chain
      requires |nodes| + |pool.chain| + 1 == pool.cells.Length && pool.cells.Length >= 2
      requires pool.Owned(v) && v !in nodes && pool.cells[v].next.frag == NONE
      requires HEADER + valBytes <= AlignedDataBytes(pool.dataBytes)
      modifies this, pool.cells, pool.faults
      ensures Valid() && valBytes == old(valBytes)
      ensures Contents() == Values(old(pool.cells[..]), old(nodes), valBytes) + [Prefix(old(pool.cells[v].data), valBytes)]
    {
      ghost var cells := pool.cells[..];
      var t := tail;
      while true
        invariant nodes == old(nodes) && head == old(head) && valBytes == old(valBytes)
        invariant pool.cells[..] == cells && TailNear(nodes, tail.frag)
        decreases pool.faults.budget, tail.frag != nodes[|nodes| - 1]
      {
        t := tail;
        TailLink(cells, nodes, t.frag);
        var next := pool.cells[t.frag].next;
        if t == tail {
          if next.frag == NONE {
            var tmp := Link(Tag(next.count), v);
            var fail := pool.faults.Strike();
            if !fail && pool.cells[t.frag].next == next {
              LinkNode(cells, nodes, pool.chain, v, tmp, valBytes);
              pool.cells[t.frag] := pool.cells[t.frag].(next := tmp);
              assert pool.cells[..] == cells[t.frag := cells[t.frag].(next := tmp)];
              nodes := nodes + [v];
              break;
            }
          } else {
            var tmp := Link(Tag(t.count), next.frag);
            var fail := pool.faults.Strike();
            if !fail && tail == t {
              tail := tmp;
            }
          }
        }
      }
      var fail := pool.faults.Strike();
      if !fail && tail == t {
        tail := Link(Tag(t.count), v);
      }
    }

    method Dequeue() returns (r: Taken)
      requires Valid()
      modifies this, pool, pool.cells, pool.faults
      ensures Valid() && pool.cells == old(pool.cells) && valBytes == old(valBytes)
      ensures r == if old(Contents()) == [] then Empty else Taken(old(Contents())[0])
      ensures Contents() == if old(Contents()) == [] then [] else old(Contents())[1..]
    {
      var h := head;
      var val := [];
      while true
        invariant pool.cells == old(pool.cells) && nodes == old(nodes) && valBytes == old(valBytes)
        invariant pool.cells[..] == old(pool.cells[..]) && pool.chain == old(pool.chain) && Valid()
        decreases pool.faults.budget, tail.frag != nodes[|nodes| - 1]
      {
        h := head;
        var t := tail;
        HeadLink(pool.cells[..], nodes);
        TailLink(pool.cells[..], nodes, t.frag);
        var next := pool.cells[h.frag].next;
        if h == head {
          if h.frag == t.frag {
            if next.frag == NONE {
              return Empty;
            }
            var tmp := Link(Tag(t.count), next.frag);
            var fail := pool.faults.Strike();
            if !fail && tail == t {
              tail := tmp;
            }
          } else {
            val := Prefix(pool.cells[next.frag].data, valBytes);
            var tmp := Link(Tag(h.count), next.frag);
            var fail := pool.faults.Strike();
            if !fail && head == h {
              head := tmp;
              nodes := nodes[1..];
              break;
            }
          }
        }
      }
      assert old(nodes)[0] in old(nodes);
      ghost var cells1 := pool.cells[..];
      ghost var chain1 := pool.chain;
      pool.Put(h.frag);
      Retire(cells1, pool.cells[..], old(nodes), chain1, h.frag, valBytes);
      return Taken(val);
    }
  }

  /** The values that the fragments behind the first carry: `n` bytes each. */
  ghost function Values(cells: seq<Fragment>, nodes: seq<int>, n: nat): (s: seq<seq<Byte>>)
    requires Threaded(cells, nodes)
    ensures |s| == |nodes| - 1
  {
    seq(|nodes| - 1, i requires 0 <= i < |nodes| - 1 => assert Step(cells, nodes, i + 1); Prefix(cells[nodes[i + 1]].data, n))
  }

  lemma Single(cells: seq<Fragment>, v: int)
    requires 0 <= v < |cells| && cells[v].next.frag == NONE
    ensures Threaded(cells, [v])
  {
  }

  /** Taking a fragment for a new value from the free chain touches no value already queued. */
  lemma EnqueueAlloc(cells: seq<Fragment>, nodes: seq<int>, chain: seq<int>, cell: Fragment, n: nat)
    requires Threaded(cells, nodes) && Threaded(cells, chain)
    requires forall f {:trigger f in nodes} :: f in nodes ==> f !in chain
    ensures 0 <= chain[0] < |cells| && chain[0] !in nodes && chain[0] !in chain[1..]
    ensures Threaded(cells[chain[0] := cell], nodes)
    ensures Values(cells[chain[0] := cell], nodes, n) == Values(cells, nodes, n)
  {
    HeadLink(cells, chain);
    ThreadedFrame(cells, nodes, chain[0], cell);
    var cells' := cells[chain[0] := cell];
    forall i | 0 <= i < |nodes| - 1
      ensures Values(cells', nodes, n)[i] == Values(cells, nodes, n)[i]
    {
      assert Step(cells, nodes, i + 1);
    }
  }

  /** Linking the new fragment behind the last one appends its value, and leaves the free chain alone. */
  lemma LinkNode(cells: seq<Fragment>, nodes: seq<int>, chain: seq<int>, v: int, link: Link, n: nat)
    requires Threaded(cells, nodes) && Threaded(cells, chain)
    requires 0 <= v < |cells| && v !in nodes && v !in chain && cells[v].next.frag == NONE && link.frag == v
    requires forall f {:trigger f in nodes} :: f in nodes ==> f !in chain
    ensures var last := nodes[|nodes| - 1];
            && 0 <= last < |cells|
            && Threaded(cells[last := cells[last].(next := link)], nodes + [v])
            && Threaded(cells[last := cells[last].(next := link)], chain)
            && Values(cells[last := cells[last].(next := link)], nodes + [v], n) == Values(cells, nodes, n) + [Prefix(cells[v].data, n)]
  {
    var last := nodes[|nodes| - 1];
    assert Step(cells, nodes, |nodes| - 1) && last in nodes;
    var cells' := cells[last := cells[last].(next := link)];
    ThreadedAppend(cells, nodes, v, link);
    ThreadedFrame(cells, chain, last, cells[last].(next := link));
    forall i | 0 <= i < |nodes|
      ensures Values(cells', nodes + [v], n)[i] == (Values(cells, nodes, n) + [Prefix(cells[v].data, n)])[i]
    {
      if i < |nodes| - 1 {
        assert Step(cells, nodes, i + 1);
      }
    }
  }

  /** Returning the spent fragment in front to the pool leaves the rest of the queue as it was. */
  lemma Retire(cells: seq<Fragment>, cells': seq<Fragment>, nodes: seq<int>, chain: seq<int>, spent: int, n: nat)
    requires Threaded(cells, nodes) && |nodes| > 1 && spent == nodes[0] && |cells'| == |cells|
    requires forall f {:trigger f in nodes} :: f in nodes ==> f !in chain
    requires forall i :: 0 <= i < |cells| && i !in chain && i != spent ==> cells'[i] == cells[i]
    ensures Threaded(cells', nodes[1..])
    ensures Values(cells', nodes[1..], n) == Values(cells, nodes, n)[1..]
    ensures forall f {:trigger f in nodes[1..]} :: f in nodes[1..] ==> f !in chain + [spent]
  {
    var rest := nodes[1..];
    HeadLink(cells, nodes);
    forall i | 0 <= i < |rest|
      ensures Step(cells', rest, i) && rest[i] in nodes && cells'[rest[i]] == cells[rest[i]]
    {
      assert rest[i] == nodes[i + 1] && nodes[i + 1] in nodes;
      assert Step(cells, rest, i);
    }
    assert forall i, j {:trigger Apart(rest, i, j)} :: 0 <= i < |rest| && 0 <= j < |rest| ==> Apart(rest, i, j);
  }

  datatype QueueCreated = NoQueue | NewQueue(queue: SerialQueue)

  /** `queue_create`: a queue that holds `capacity` values has two fragments more. */
  method CreateQueue(valBytes: nat, capacity: nat, faults: Faults, granted: bool) returns (r: QueueCreated)
    modifies faults
    ensures r.NoQueue? <==> valBytes == 0 || capacity == 0 || !granted
    ensures r.NewQueue? ==>
              && fresh(r.queue) && fresh(r.queue.pool) && fresh(r.queue.pool.cells)
              && r.queue.Valid() && r.queue.Contents() == [] && r.queue.Room() == capacity
              && r.queue.valBytes == valBytes && 16 + valBytes <= AlignedDataBytes(r.queue.pool.dataBytes)
  {
    if valBytes == 0 || capacity == 0 {
      return NoQueue;
    }
    var made := Create(HEADER + valBytes, capacity + 1, faults, granted);
    if made.Refused? {
      return NoQueue;
    }
    var q := new SerialQueue(made.pool, valBytes);
    return NewQueue(q);
  }
}
