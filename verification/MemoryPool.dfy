/** The fragment pool, run under a lock: a free chain threaded through the fragments themselves, which
    is the lock-free queue algorithm with its lagging tail and its weak compare-and-swaps. */
module MemoryPools {

  type Byte = bv8

  /** A pointer with its version tag, the layout shared by memory_node and queue_node. */
  datatype Link = Link(count: nat, frag: int)

  const NONE := -1
  const WORD := 0x1_0000_0000

  function Tag(count: nat): (n: nat)
    ensures n < 0x1_0000_0000 && (count < 0xFFFF_FFFF ==> n == count + 1)
  {
    (count + 1) % WORD
  }

  /** One fragment: its first words serve as the `next` link of whichever chain holds it, and `data`
      are the bytes after them. */
  datatype Fragment = Fragment(next: Link, data: seq<Byte>)

  /** Copying a value over the start of a fragment's data, and out of it. */
  function Over(data: seq<Byte>, val: seq<Byte>): (r: seq<Byte>)
    requires |val| <= |data|
    ensures |r| == |data| && Prefix(r, |val|) == val
  {
    val + data[|val|..]
  }

  function Prefix(data: seq<Byte>, n: nat): seq<Byte> {
    if n <= |data| then data[..n] else data
  }

  /** Every fragment of the region has this many bytes after its link. */
  ghost predicate Sized(cells: seq<Fragment>, bytes: int) {
    forall i {:trigger cells[i]} :: 0 <= i < |cells| ==> |cells[i].data| == bytes
  }

  /** What `calloc` gave: the bytes of one fragment, less its link. */
  function Space(dataBytes: nat): (n: nat)
    ensures HEADER + n >= dataBytes
  {
    AlignedDataBytes(dataBytes) - HEADER
  }

  /** Spurious failures of weak compare-and-swaps: any of them, but finitely many. */
  class Faults {
    var budget: nat

    constructor (n: nat)
      ensures budget == n
    {
      budget := n;
    }

    method Strike() returns (fail: bool)
      modifies this
      ensures budget == old(budget) - (if fail then 1 else 0)
    {
      var coin: bool := *;
      fail := coin && budget > 0;
      if fail {
        budget := budget - 1;
      }
    }
  }

  /** The `i`th fragment of the chain exists and points to the next one, the last to nothing. */
  predicate Step(cells: seq<Fragment>, chain: seq<int>, i: int)
    requires 0 <= i < |chain|
  {
    && 0 <= chain[i] < |cells|
    && cells[chain[i]].next.frag == if i + 1 < |chain| then chain[i + 1] else NONE
  }

  predicate Apart(chain: seq<int>, i: int, j: int)
    requires 0 <= i < |chain| && 0 <= j < |chain|
  {
    i != j ==> chain[i] != chain[j]
  }

  /** `chain` runs through the fragments, visiting none twice. */
  ghost predicate Threaded(cells: seq<Fragment>, chain: seq<int>) {
    && |chain| > 0
    && (forall i {:trigger Step(cells, chain, i)} :: 0 <= i < |chain| ==> Step(cells, chain, i))
    && (forall i, j {:trigger Apart(chain, i, j)} :: 0 <= i < |chain| && 0 <= j < |chain| ==> Apart(chain, i, j))
  }

  /** The tail names the last fragment of the chain or the one before it. */
  predicate TailNear(chain: seq<int>, tail: int) {
    |chain| > 0 && (tail == chain[|chain| - 1] || (|chain| > 1 && tail == chain[|chain| - 2]))
  }

  /** A null link tells whether the tail has caught up; otherwise the link leads to the last fragment. */
  lemma TailLink(cells: seq<Fragment>, chain: seq<int>, tail: int)
    requires Threaded(cells, chain) && TailNear(chain, tail)
    ensures 0 <= tail < |cells| && 0 <= chain[|chain| - 1] < |cells|
    ensures cells[tail].next.frag == if tail == chain[|chain| - 1] then NONE else chain[|chain| - 1]
  {
    assert Step(cells, chain, |chain| - 1);
    if |chain| > 1 {
      assert Step(cells, chain, |chain| - 2) && Apart(chain, |chain| - 2, |chain| - 1);
    }
  }

  lemma HeadLink(cells: seq<Fragment>, chain: seq<int>)
    requires Threaded(cells, chain)
    ensures 0 <= chain[0] < |cells|
    ensures cells[chain[0]].next.frag == if |chain| > 1 then chain[1] else NONE
    ensures |chain| > 1 ==> 0 <= chain[1] < |cells| && chain[1] != chain[0] && Threaded(cells, chain[1..])
    ensures chain[0] !in chain[1..]
  {
    assert Step(cells, chain, 0);
    forall i | 0 <= i < |chain[1..]|
      ensures Step(cells, chain[1..], i) && chain[1..][i] != chain[0]
    {
      assert Step(cells, chain, i + 1) && Apart(chain, 0, i + 1);
    }
    forall i, j | 0 <= i < |chain[1..]| && 0 <= j < |chain[1..]|
      ensures Apart(chain[1..], i, j)
    {
      assert Apart(chain, i + 1, j + 1);
    }
  }

  /** Linking a fresh fragment behind the last one extends the chain by it. */
  lemma ThreadedAppend(cells: seq<Fragment>, chain: seq<int>, frag: int, link: Link)
    requires Threaded(cells, chain) && 0 <= frag < |cells| && frag !in chain
    requires cells[frag].next.frag == NONE && link.frag == frag
    requires 0 <= chain[|chain| - 1] < |cells|
    ensures var last := chain[|chain| - 1];
            Threaded(cells[last := cells[last].(next := link)], chain + [frag])
  {
    var last := chain[|chain| - 1];
    var cells', chain' := cells[last := cells[last].(next := link)], chain + [frag];
    forall i | 0 <= i < |chain'|
      ensures Step(cells', chain', i)
    {
      if i < |chain| {
        assert Step(cells, chain, i) && Apart(chain, i, |chain| - 1);
      }
    }
    forall i, j | 0 <= i < |chain'| && 0 <= j < |chain'|
      ensures Apart(chain', i, j)
    {
      assert i < |chain| && j < |chain| ==> Apart(chain, i, j);
    }
  }

  /** Writing a fragment outside the chain leaves the chain threaded. */
  lemma ThreadedFrame(cells: seq<Fragment>, chain: seq<int>, frag: int, cell: Fragment)
    requires Threaded(cells, chain) && 0 <= frag < |cells| && frag !in chain
    ensures Threaded(cells[frag := cell], chain)
  {
    var cells' := cells[frag := cell];
    forall i | 0 <= i < |chain|
      ensures Step(cells', chain, i)
    {
      assert Step(cells, chain, i);
    }
  }

  class MemoryPool {
    var cells: array<Fragment>
    var dataBytes: nat
    var capacity: nat
    var freeable: nat
    var head: Link
    var tail: Link
    const faults: Faults

    /** The free chain: its first fragment is the next to be handed out, but never the last one. */
    ghost var chain: seq<int>

    ghost predicate Valid()
      reads this, cells
    {
      && cells.Length == capacity + 1 && Sized(cells[..], Space(dataBytes))
      && Threaded(cells[..], chain)
      && head.frag == chain[0] && TailNear(chain, tail.frag)
      && freeable == |chain| - 1
    }

    /** A fragment is handed out when it is not in the free chain. */
    ghost predicate Owned(frag: int)
      reads this, cells
    {
      0 <= frag < cells.Length && frag !in chain
    }

    /** A region of `n + 1` zeroed fragments of the aligned size, not yet a pool. */
    constructor Region(n: nat, bytes: nat, f: Faults)
      ensures cells.Length == n + 1 && capacity == n && dataBytes == bytes && faults == f && fresh(cells)
      ensures Sized(cells[..], Space(bytes))
    {
      cells := new Fragment[n + 1](_ => Fragment(Link(0, NONE), seq(Space(bytes), _ => 0)));
      capacity := n;
      dataBytes := bytes;
      freeable := 0;
      head, tail := Link(0, NONE), Link(0, NONE);
      faults := f;
      chain := [];
    }

    /** Lines the whole region up in the free chain, whatever it held before. */
    method Setup()
      requires cells.Length == capacity + 1 && Sized(cells[..], Space(dataBytes))
      modifies this, cells, faults
      ensures Valid() && cells == old(cells) && capacity == old(capacity) && dataBytes == old(dataBytes)
      ensures forall i :: 0 <= i < cells.Length ==> cells[i].data == old(cells[i].data)
      ensures chain == seq(capacity + 1, i => i) && freeable == capacity
    {
      freeable := 0;
      cells[0] := Fragment(Link(0, NONE), cells[0].data);
      head, tail := Link(0, 0), Link(0, 0);
      chain := [0];
      assert Step(cells[..], chain, 0) && Apart(chain, 0, 0);
      var i := 1;
      while i < capacity + 1
        invariant 1 <= i <= capacity + 1 && cells == old(cells) && capacity == old(capacity) && dataBytes == old(dataBytes)
        invariant forall j :: 0 <= j < cells.Length ==> cells[j].data == old(cells[j].data)
        invariant Valid() && chain == seq(i, j => j)
      {
        Put(i);
        i := i + 1;
      }
    }

    method Put(frag: nat)
      requires Valid() && Owned(frag)
      modifies this, cells, faults
      ensures Valid() && cells == old(cells) && capacity == old(capacity) && dataBytes == old(dataBytes)
      ensures forall i :: 0 <= i < cells.Length ==> cells[i].data == old(cells[i].data)
      ensures chain == old(chain) + [frag] && freeable == old(freeable) + 1
      ensures forall i :: 0 <= i < cells.Length && i !in chain ==> cells[i] == old(cells[i])
    {
      ghost var before := cells[..];
      cells[frag] := Fragment(Link(0, NONE), cells[frag].data);
      ThreadedFrame(before, chain, frag, cells[frag]);
      assert cells[..] == before[frag := cells[frag]];
      Append(frag);
    }

    /** Lines 128-150: the fragment is linked behind the last one, however far tail lags. */
    method Append(frag: nat)
      requires Valid() && Owned(frag) && cells[frag].next.frag == NONE
      modifies this, cells, faults
      ensures Valid() && cells == old(cells) && capacity == old(capacity) && dataBytes == old(dataBytes)
      ensures forall i :: 0 <= i < cells.Length ==> cells[i].data == old(cells[i].data)
      ensures chain == old(chain) + [frag] && freeable == old(freeable) + 1
      ensures forall i :: 0 <= i < cells.Length && i !in chain ==> cells[i] == old(cells[i])
    {
      ghost var was := cells[..];
      var t := tail;
      while true
        invariant cells == old(cells) && capacity == old(capacity) && chain == old(chain) && freeable == old(freeable)
        invariant dataBytes == old(dataBytes) && cells[..] == was && Valid()
        decreases faults.budget, tail.frag != chain[|chain| - 1]
      {
        t := tail;
        TailLink(was, chain, t.frag);
        var next := cells[t.frag].next;
        if t == tail {
          if next.frag == NONE {
            var tmp := Link(Tag(next.count), frag);
            var fail := faults.Strike();
            if !fail && cells[t.frag].next == next {
              ThreadedAppend(was, chain, frag, tmp);
              cells[t.frag] := cells[t.frag].(next := tmp);
              assert cells[..] == was[t.frag := was[t.frag].(next := tmp)];
              assert t.frag in chain;
              chain := chain + [frag];
              break;
            }
          } else {
            var tmp := Link(Tag(t.count), next.frag);
            var fail := faults.Strike();
            if !fail && tail == t {
              tail := tmp;
            }
          }
        }
      }
      var fail := faults.Strike();
      if !fail && tail == t {
        tail := Link(Tag(t.count), frag);
      }
      freeable := freeable + 1;
    }

    method Pick() returns (frag: int)
      requires Valid()
      modifies this, faults
      ensures Valid() && cells == old(cells) && capacity == old(capacity) && dataBytes == old(dataBytes)
      ensures frag == NONE <==> |old(chain)| == 1
      ensures frag == NONE ==> chain == old(chain) && freeable == old(freeable)
      ensures frag != NONE ==> frag == old(chain)[0] && chain == old(chain)[1..] && freeable == old(freeable) - 1
    {
      var h := head;
      while true
        invariant cells == old(cells) && capacity == old(capacity) && chain == old(chain) && freeable == old(freeable)
        invariant Valid() && dataBytes == old(dataBytes)
        decreases faults.budget, tail.frag != chain[|chain| - 1]
      {
        h := head;
        var t := tail;
        HeadLink(cells[..], chain);
        TailLink(cells[..], chain, t.frag);
        var next := cells[h.frag].next;
        if h == head {
          if h.frag == t.frag {
            if next.frag == NONE {
              return NONE;
            }
            var tmp := Link(Tag(t.count), next.frag);
            var fail := faults.Strike();
            if !fail && tail == t {
              tail := tmp;
            }
          } else {
            var tmp := Link(Tag(h.count), next.frag);
            var fail := faults.Strike();
            if !fail && head == h {
              head := tmp;
              chain := chain[1..];
              break;
            }
          }
        }
      }
      freeable := freeable - 1;
      frag := h.frag;
    }
  }

  datatype Created = Refused | Created(pool: MemoryPool)

  /** `mempool_create`; `granted` says whether `calloc` finds the room. */
  method Create(dataBytes: nat, capacity: nat, faults: Faults, granted: bool) returns (r: Created)
    modifies faults
    ensures r.Refused? <==> dataBytes == 0 || capacity == 0 || !granted
    ensures r.Created? ==>
              && fresh(r.pool) && fresh(r.pool.cells) && r.pool.Valid() && r.pool.faults == faults
              && r.pool.capacity == capacity && r.pool.dataBytes == dataBytes && r.pool.chain == seq(capacity + 1, i => i)
              && r.pool.freeable == capacity
  {
    if dataBytes == 0 || capacity == 0 {
      return Refused;
    }
    if !granted {
      return Refused;
    }
    var pool := new MemoryPool.Region(capacity, dataBytes, faults);
    pool.Setup();
    return Created(pool);
  }

  // ---- Who holds which fragment ----

  ghost function HandedOut(n: nat, chain: seq<int>): set<int> {
    set f | 0 <= f < n && f !in chain
  }

  ghost function Elements(chain: seq<int>): set<int> {
    set i | 0 <= i < |chain| :: chain[i]
  }

  lemma {:induction false} ElementsCount(cells: seq<Fragment>, chain: seq<int>, n: nat)
    requires Threaded(cells, chain) && n <= |chain|
    ensures |Elements(chain[..n])| == n
  {
    if n > 0 {
      ElementsCount(cells, chain, n - 1);
      assert Elements(chain[..n]) == Elements(chain[..n - 1]) + {chain[n - 1]};
      forall i | 0 <= i < n - 1
        ensures chain[i] != chain[n - 1]
      {
        assert Apart(chain, i, n - 1);
      }
    }
  }

  ghost function Range(n: nat): (r: set<int>)
    ensures |r| == n && forall f :: f in r <==> 0 <= f < n
  {
    if n == 0 then {} else Range(n - 1) + {n - 1}
  }

  /** The fragments are partitioned between the free chain and those handed out, so the number handed
      out and the number still to be had always add up to the capacity. */
  lemma Accounting(cells: seq<Fragment>, chain: seq<int>)
    requires Threaded(cells, chain)
    ensures |HandedOut(|cells|, chain)| == |cells| - |chain|
  {
    var all := Range(|cells|);
    ElementsCount(cells, chain, |chain|);
    assert chain[..|chain|] == chain;
    forall i | 0 <= i < |chain|
      ensures chain[i] in all
    {
      assert Step(cells, chain, i);
    }
    assert HandedOut(|cells|, chain) == all - Elements(chain);
  }

  // ---- Addresses ----

  /** Size of the link at the start of a fragment, on a 64-bit machine. */
  const HEADER := 16

  /** The least multiple of 16 that holds both the user's bytes and the link. */
  function AlignedDataBytes(dataBytes: nat): (n: nat)
    ensures n % 16 == 0 && n >= dataBytes && n >= 16
    ensures forall m: nat :: m % 16 == 0 && m >= dataBytes && m >= 16 ==> n <= m
  {
    var bytes := if dataBytes > HEADER then dataBytes else HEADER;
    if bytes % 16 != 0 then bytes + (16 - bytes % 16) else bytes
  }

  function Address(pool: nat, dataBytes: nat, i: nat): nat {
    pool + AlignedDataBytes(dataBytes) * i
  }

  predicate Contains(pool: nat, dataBytes: nat, capacity: nat, ptr: nat) {
    pool <= ptr < pool + (AlignedDataBytes(dataBytes) * capacity + 1)
  }

  /** Fragments do not overlap, lie inside the region of `capacity + 1` fragments, start at multiples
      of 16 from its start, and leave room for the user's bytes. */
  lemma Layout(pool: nat, dataBytes: nat, capacity: nat, i: nat, j: nat)
    requires i < j <= capacity
    ensures Address(pool, dataBytes, i) + AlignedDataBytes(dataBytes) <= Address(pool, dataBytes, j)
    ensures Address(pool, dataBytes, j) + dataBytes <= pool + AlignedDataBytes(dataBytes) * (capacity + 1)
    ensures (Address(pool, dataBytes, j) - pool) % 16 == 0
  {
    var size := AlignedDataBytes(dataBytes);
    MulMonotone(size, i + 1, j);
    MulMonotone(size, j + 1, capacity + 1);
    Distribute(size, i);
    Distribute(size, j);
    Sixteens(size, j);
  }

  lemma Distribute(a: nat, b: nat)
    ensures a * (b + 1) == a * b + a
  {
  }

  lemma Sixteens(a: nat, b: nat)
    requires a % 16 == 0
    ensures (a * b) % 16 == 0
  {
    var q := a / 16;
    assert a * b == 16 * (q * b);
  }

  lemma MulMonotone(a: nat, b: nat, c: nat)
    requires b <= c
    ensures a * b <= a * c
  {
  }

  /** `ptr` is the byte at `offset` of the `i`th fragment. */
  predicate ByteOf(pool: nat, dataBytes: nat, ptr: nat, i: nat, offset: nat) {
    offset < AlignedDataBytes(dataBytes) && ptr == Address(pool, dataBytes, i) + offset
  }

  /** The bytes of every fragment but the last, and the first byte of the last. */
  predicate Accepted(capacity: nat, i: nat, offset: nat) {
    i < capacity || (i == capacity && offset == 0)
  }

  /** Containment accepts, of all addresses, every byte of every fragment but the last, and the first
      byte of the last. */
  lemma ContainsIff(pool: nat, dataBytes: nat, capacity: nat, ptr: nat)
    ensures Contains(pool, dataBytes, capacity, ptr) <==>
            exists i: nat, offset: nat :: ByteOf(pool, dataBytes, ptr, i, offset) && Accepted(capacity, i, offset)
  {
    if Contains(pool, dataBytes, capacity, ptr) {
      var i, offset := ContainedByte(pool, dataBytes, capacity, ptr);
    }
    forall i: nat, offset: nat | ByteOf(pool, dataBytes, ptr, i, offset) && Accepted(capacity, i, offset)
      ensures Contains(pool, dataBytes, capacity, ptr)
    {
      ByteContained(pool, dataBytes, capacity, ptr, i, offset);
    }
  }

  lemma ContainedByte(pool: nat, dataBytes: nat, capacity: nat, ptr: nat) returns (i: nat, offset: nat)
    requires Contains(pool, dataBytes, capacity, ptr)
    ensures ByteOf(pool, dataBytes, ptr, i, offset) && Accepted(capacity, i, offset)
  {
    var size := AlignedDataBytes(dataBytes);
    i, offset := (ptr - pool) / size, (ptr - pool) % size;
    Quotient(ptr - pool, size, capacity);
  }

  lemma ByteContained(pool: nat, dataBytes: nat, capacity: nat, ptr: nat, i: nat, offset: nat)
    requires ByteOf(pool, dataBytes, ptr, i, offset) && Accepted(capacity, i, offset)
    ensures Contains(pool, dataBytes, capacity, ptr)
  {
    var size := AlignedDataBytes(dataBytes);
    if i < capacity {
      MulMonotone(size, i + 1, capacity);
      Distribute(size, i);
    }
  }

  lemma Quotient(n: nat, size: nat, capacity: nat)
    requires size > 0 && n <= size * capacity
    ensures n == size * (n / size) + n % size && n % size < size
    ensures n / size < capacity || (n / size == capacity && n % size == 0)
  {
    if n / size > capacity {
      MulMonotone(size, capacity + 1, n / size);
      Distribute(size, capacity);
    }
  }
}
