/** The list over its fragment pool, one operation at a time, with deleted nodes recycled: a bounded
    sorted map. */
module SerialLists {
  import opened ListHeap
  import opened ListHistory
  import opened ListHelping
  import opened ListAlone
  import opened MemoryPools

  predicate QuietAt(h: Heap, n: Id)
    requires n in h
  {
    !h[n].succ.mark && !h[n].succ.flag
  }

  /** No operation is under way: nothing is marked or flagged. */
  ghost predicate Quiet(h: Heap) {
    forall n {:trigger QuietAt(h, n)} :: n in h ==> QuietAt(h, n)
  }

  lemma QuietUnflagged(h: Heap)
    requires Quiet(h)
    ensures forall d, p :: !FlaggedAt(h, p, d)
  {
    forall d, p
      ensures !FlaggedAt(h, p, d)
    {
      if d in h && p in h {
        assert QuietAt(h, d) && QuietAt(h, p);
      }
    }
  }

  /** With nothing to help, helping changes nothing. */
  lemma QuietFixed(h: Heap, h': Heap)
    requires HeapInv(h) && Quiet(h) && HeapInv(h') && Helps(h, h')
    ensures h' == h
  {
    QuietUnflagged(h);
    forall n | n in h
      ensures h'[n] == h[n]
    {
      QuietNode(h, h', n);
    }
  }

  lemma QuietNode(h: Heap, h': Heap, n: Id)
    requires HeapInv(h) && Quiet(h) && HeapInv(h') && Helps(h, h') && n in h
    requires forall d, p :: !FlaggedAt(h, p, d)
    ensures h'[n] == h[n]
  {
    assert QuietAt(h, n) && HelpsNode(h, h', n) && NodeInv(h, n) && NodeInv(h', n);
    var d := h'[n].succ.node;
    assert FlagEvolves(h, h', d, n);
    if n != TAIL {
      var s := h[n].succ.node;
      assert HelpsNode(h, h', s) && HelpsNode(h, h', d) && QuietAt(h, s) && QuietAt(h, d);
      assert Gapless(h, n, d) && Gapless(h', n, s) && Gapless(h, s, d);
    }
  }

  /** Taking an unlinked node out of a quiet list. */
  function Without(h: Heap, p: Id, d: Id): Heap
    requires p in h && d in h
  {
    h[p := h[p].(succ := Ref(h[d].succ.node, false, false))] - {d}
  }

  lemma WithoutKeeps(h: Heap, p: Id, d: Id)
    requires HeapInv(h) && Quiet(h) && p in h && d in h && h[p].succ.node == d && d != TAIL
    ensures HeapInv(Without(h, p, d)) && Quiet(Without(h, p, d))
  {
    var h' := Without(h, p, d);
    assert NodeInv(h, p) && NodeInv(h, d) && NodeInv(h, HEAD) && QuietAt(h, p) && QuietAt(h, d);
    forall n | n in h'
      ensures NodeInv(h', n) && QuietAt(h', n)
    {
      assert NodeInv(h, n) && QuietAt(h, n);
      if n != p && n != TAIL && h[n].succ.node == d {
        OnePredecessor(h, n, p);
      } else if n != TAIL && h[n].succ.node in h {
        assert QuietAt(h, h[n].succ.node);
      }
      assert QuietAt(h, h[d].succ.node);
    }
    forall a, b | a in h' && b in h'
      ensures Gapless(h', a, b)
    {
      assert Gapless(h, a, b) && Gapless(h, d, b) && QuietAt(h, a) && QuietAt(h, b);
    }
  }

  lemma WithoutKeys(h: Heap, p: Id, d: Id)
    requires HeapInv(h) && Quiet(h) && p in h && d in h && p != d && d != HEAD && d != TAIL
    ensures KeySet(Without(h, p, d)) == KeySet(h) - {h[d].key}
  {
    var h' := Without(h, p, d);
    assert QuietAt(h, p) && QuietAt(h, d);
    forall k
      ensures k in KeySet(h') <==> k in KeySet(h) && k != h[d].key
    {
      KeySetIff(h, k);
      KeySetIff(h', k);
      if n :| Holds(h, n, k) {
        assert n != d ==> Holds(h', n, k);
        if k == h[d].key {
          UnmarkedKeysDistinct(h, n, d);
        }
      }
      if n :| Holds(h', n, k) {
        assert Holds(h, n, k);
        if k == h[d].key {
          UnmarkedKeysDistinct(h, n, d);
        }
      }
    }
  }

  // ---- The map a quiet list stands for ----

  /** A linked node's fragment is not free, and the node carries the value of its key. */
  predicate NodeOk(h: Heap, vals: map<Id, seq<Byte>>, contents: map<int, seq<Byte>>, chain: seq<int>, size: nat, n: Id)
    requires n in h
  {
    && 0 <= n < size && n !in chain
    && (n != HEAD && n != TAIL ==>
          && n in vals && h[n].key in contents && contents[h[n].key] == vals[n])
  }

  /** Nothing is marked or flagged, the keys are those of the map, each node carries the value of its
      key, and the linked nodes and the free fragments account for the whole pool. */
  ghost predicate Stands(h: Heap, vals: map<Id, seq<Byte>>, contents: map<int, seq<Byte>>, chain: seq<int>, size: nat) {
    && HeapInv(h) && Quiet(h)
    && (forall n {:trigger NodeOk(h, vals, contents, chain, size, n)} :: n in h ==> NodeOk(h, vals, contents, chain, size, n))
    && contents.Keys == KeySet(h)
    && |contents| + 2 == |h| && |h| + |chain| == size
  }

  lemma InsertStands(h: Heap, vals: map<Id, seq<Byte>>, contents: map<int, seq<Byte>>, chain: seq<int>, size: nat,
                     a: Act, val: seq<Byte>)
    requires Stands(h, vals, contents, chain, size) && Legal(h, a) && a.Insert? && KEY_MIN < a.key < KEY_MAX
    requires chain != [] && a.node == chain[0] && a.node !in chain[1..] && 0 <= a.node < size
    ensures Stands(Apply(h, a), vals[a.node := val], contents[a.key := val], chain[1..], size)
  {
    ActKeeps(h, a);
    InsertCounts(h, contents, a, val);
    InsertKeepsNodes(h, vals, contents, chain, size, a, val);
  }

  lemma InsertCounts(h: Heap, contents: map<int, seq<Byte>>, a: Act, val: seq<Byte>)
    requires HeapInv(h) && Legal(h, a) && a.Insert? && contents.Keys == KeySet(h)
    ensures contents[a.key := val].Keys == KeySet(Apply(h, a))
    ensures |contents[a.key := val]| == |contents| + 1 && |Apply(h, a)| == |h| + 1
  {
    ActRefinesSet(h, a);
    assert Apply(h, a).Keys == h.Keys + {a.node};
    assert contents[a.key := val].Keys == contents.Keys + {a.key};
  }

  lemma InsertKeepsNodes(h: Heap, vals: map<Id, seq<Byte>>, contents: map<int, seq<Byte>>, chain: seq<int>, size: nat,
                         a: Act, val: seq<Byte>)
    requires HeapInv(h) && Legal(h, a) && a.Insert? && chain != [] && a.node !in chain[1..] && 0 <= a.node < size
    requires forall n :: n in h ==> QuietAt(h, n) && NodeOk(h, vals, contents, chain, size, n)
    ensures forall n :: n in Apply(h, a) ==> QuietAt(Apply(h, a), n)
    ensures forall n :: n in Apply(h, a) ==>
              NodeOk(Apply(h, a), vals[a.node := val], contents[a.key := val], chain[1..], size, n)
  {
    var h' := Apply(h, a);
    forall n | n in h'
      ensures QuietAt(h', n) && NodeOk(h', vals[a.node := val], contents[a.key := val], chain[1..], size, n)
    {
      if n in h {
        InsertKeepsNode(h, vals, contents, chain, size, a, val, n);
      }
    }
  }

  lemma InsertKeepsNode(h: Heap, vals: map<Id, seq<Byte>>, contents: map<int, seq<Byte>>, chain: seq<int>, size: nat,
                        a: Act, val: seq<Byte>, n: Id)
    requires HeapInv(h) && Legal(h, a) && a.Insert? && chain != [] && n in h
    requires QuietAt(h, n) && NodeOk(h, vals, contents, chain, size, n)
    ensures QuietAt(Apply(h, a), n)
    ensures NodeOk(Apply(h, a), vals[a.node := val], contents[a.key := val], chain[1..], size, n)
  {
    InsertIsFresh(h, a, n);
  }

  lemma DeleteStands(h: Heap, vals: map<Id, seq<Byte>>, contents: map<int, seq<Byte>>, chain: seq<int>, size: nat, p: Id, d: Id)
    requires Stands(h, vals, contents, chain, size) && p in h && d in h && p != d && h[p].succ.node == d
    requires d != HEAD && d != TAIL
    ensures Stands(Without(h, p, d), vals, contents - {h[d].key}, chain + [d], size)
    ensures h[d].key in contents && d in vals && contents[h[d].key] == vals[d]
  {
    var h' := Without(h, p, d);
    WithoutKeeps(h, p, d);
    WithoutKeys(h, p, d);
    assert NodeOk(h, vals, contents, chain, size, d);
    assert h'.Keys == h.Keys - {d};
    assert (contents - {h[d].key}).Keys == contents.Keys - {h[d].key};
    forall n | n in h'
      ensures NodeOk(h', vals, contents - {h[d].key}, chain + [d], size, n)
    {
      assert NodeOk(h, vals, contents, chain, size, n) && QuietAt(h, n) && QuietAt(h, d);
      if h[n].key == h[d].key {
        UnmarkedKeysDistinct(h, n, d);
      }
    }
  }

  /** A free fragment is no node of the list. */
  lemma FreeIsNew(h: Heap, vals: map<Id, seq<Byte>>, contents: map<int, seq<Byte>>, chain: seq<int>, size: nat, n: Id)
    requires Stands(h, vals, contents, chain, size) && n in chain
    ensures n !in h
  {
    assert n in h ==> NodeOk(h, vals, contents, chain, size, n);
  }

  lemma AloneWins(h: Heap, h': Heap, prev: Id, del: Id, won: bool, result: Id)
    requires HeapInv(h) && Quiet(h) && prev in h && del in h && h[prev].succ.node == del && prev != TAIL
    requires h' == if won then Apply(h, Act.Flag(result, del)) else h
    requires won ==> Legal(h, Act.Flag(result, del))
    requires result != NULL ==> result in h' && h'[result].succ == Ref(del, false, true)
    requires result == NULL ==> !won && h'[del].succ.mark
    ensures won && result == prev && h' == h[prev := h[prev].(succ := Ref(del, false, true))]
    ensures !h'[del].succ.mark && !h'[del].succ.flag && h'[del] == h[del] && h[prev].key < h[del].key
  {
    assert QuietAt(h, del) && QuietAt(h, prev) && NodeInv(h, prev);
    assert result in h ==> QuietAt(h, result);
    OnePredecessor(h, prev, result);
  }

  // ---- Values in their fragments ----

  /** Size of a node without its value, on a 64-bit machine: successor word, backlink and key. */
  const NODE_BYTES := 32

  /** Where the value begins in a fragment's data. */
  const AT := NODE_BYTES - HEADER

  function ValueIn(data: seq<Byte>, n: nat): seq<Byte> {
    if AT + n <= |data| then data[AT..AT + n] else []
  }

  function Store(data: seq<Byte>, val: seq<Byte>): (r: seq<Byte>)
    requires AT + |val| <= |data|
    ensures |r| == |data| && ValueIn(r, |val|) == val
  {
    data[..AT] + val + data[AT + |val|..]
  }

  /** The value that each fragment would hold as a node. */
  ghost function ValueMap(cells: seq<Fragment>, n: nat): map<Id, seq<Byte>> {
    map i | 0 <= i < |cells| :: ValueIn(cells[i].data, n)
  }

  lemma ValueStored(cells: seq<Fragment>, i: Id, val: seq<Byte>)
    requires 0 <= i < |cells| && AT + |val| <= |cells[i].data|
    ensures ValueMap(cells[i := Fragment(Link(0, NONE), Store(cells[i].data, val))], |val|) == ValueMap(cells, |val|)[i := val]
  {
  }

  lemma SameValueMap(cells: seq<Fragment>, cells': seq<Fragment>, n: nat)
    requires |cells| == |cells'| && forall i :: 0 <= i < |cells| ==> cells'[i].data == cells[i].data
    ensures ValueMap(cells', n) == ValueMap(cells, n)
  {
  }

  datatype Inserted = Done | Exists | NoMemory

  datatype Answer = Missing | Present(val: seq<Byte>)

  class SerialList {
    const list: AloneList
    const pool: MemoryPool
    const valBytes: nat

    /** The map the list stands for. */
    ghost var contents: map<int, seq<Byte>>

    ghost predicate Valid()
      reads this, list, pool, pool.cells
    {
      && pool.Valid() && NODE_BYTES + valBytes <= AlignedDataBytes(pool.dataBytes)
      && Stands(list.heap, Vals(), contents, pool.chain, pool.cells.Length)
    }

    /** What the fragments hold where their nodes keep their values. */
    ghost function Vals(): map<Id, seq<Byte>>
      reads pool, pool.cells
    {
      ValueMap(pool.cells[..], valBytes)
    }

    /** How many keys the list can hold. */
    ghost function Room(): int
      reads pool, pool.cells
    {
      pool.cells.Length - 3
    }

    /** `list_create` on a pool of two fragments more than the capacity. */
    constructor (p: MemoryPool, l: AloneList, bytes: nat)
      requires NODE_BYTES + bytes <= AlignedDataBytes(p.dataBytes)
      requires p.Valid() && p.chain == seq(p.cells.Length, i => i) && p.cells.Length >= 3 && l.heap == EMPTY
      modifies p, p.faults
      ensures list == l && pool == p && valBytes == bytes && Valid() && contents == map[]
      ensures pool.cells == old(p.cells) && Room() == old(p.cells.Length) - 3
    {
      list, pool, valBytes := l, p, bytes;
      contents := map[];
      new;
      EmptyInv();
      var head := pool.Pick();
      var tail := pool.Pick();
      assert head == HEAD && tail == TAIL;
      assert KeySet(EMPTY) == {};
      assert |EMPTY.Keys| == 2;
    }

    method Insert(key: int, val: seq<Byte>) returns (r: Inserted)
      requires Valid() && KEY_MIN < key < KEY_MAX && |val| == valBytes
      modifies this, list, pool, pool.cells, pool.faults, list.faults
      ensures Valid() && pool.cells == old(pool.cells)
      ensures r == if key in old(contents) then Exists else if |old(contents)| == Room() then NoMemory else Done
      ensures contents == if r == Done then old(contents)[key := val] else old(contents)
    {
      ghost var h, chain := list.heap, pool.chain;
      var prev, next := list.SearchFrom(key, HEAD);
      QuietFixed(h, list.heap);
      FoundAlone(h, prev, next, key);
      if list.heap[prev].key == key {
        return Exists;
      }
      var node := AllocNode(val);
      if node == NONE {
        return NoMemory;
      }
      assert node in chain;
      FreeIsNew(h, old(Vals()), contents, chain, pool.cells.Length, node);
      var ok: bool;
      ghost var mid: Heap, act: Act;
      ok, mid, act := list.InsertFrom(key, prev, next, node);
      QuietFixed(h, mid);
      // Alone, the second search of list_insert cannot find the key: lines 1019-1023 are not reached.
      assert ok;
      InsertStands(h, old(Vals()), contents, chain, pool.cells.Length, act, val);
      contents := contents[key := val];
      return Done;
    }

    /** `list_alloc_node`: a fragment from the pool with the value copied behind the node's own fields,
        which the heap of the list keeps. */
    method AllocNode(val: seq<Byte>) returns (node: int)
      requires pool.Valid() && NODE_BYTES + valBytes <= AlignedDataBytes(pool.dataBytes) && |val| == valBytes
      modifies pool, pool.cells, pool.faults
      ensures pool.Valid() && pool.cells == old(pool.cells) && pool.dataBytes == old(pool.dataBytes)
      ensures node == NONE <==> |old(pool.chain)| == 1
      ensures node == NONE ==> pool.chain == old(pool.chain) && Vals() == old(Vals())
      ensures node != NONE ==>
                && node == old(pool.chain)[0] && pool.chain == old(pool.chain)[1..] && node !in pool.chain
                && 0 <= node < pool.cells.Length && Vals() == old(Vals())[node := val]
    {
      HeadLink(pool.cells[..], pool.chain);
      node := pool.Pick();
      if node != NONE {
        ghost var was := pool.cells[..];
        var cell := Fragment(Link(0, NONE), Store(pool.cells[node].data, val));
        ThreadedFrame(was, pool.chain, node, cell);
        ValueStored(was, node, val);
        pool.cells[node] := cell;
        assert pool.cells[..] == was[node := cell];
      }
    }

    /** Lines 1106-1116 and the freeing: the node leaves the list. */
    method TakeOut(prev: Id, del: Id)
      requires HeapInv(list.heap) && Quiet(list.heap) && prev in list.heap && del in list.heap
      requires list.heap[prev].succ.node == del && prev != TAIL && KEY_MIN < list.heap[del].key < KEY_MAX
      modifies list`heap, list.faults
      ensures list.heap == Without(old(list.heap), prev, del)
    {
      ghost var h := list.heap;
      assert QuietAt(h, prev) && QuietAt(h, del) && NodeInv(h, prev);
      var won: bool, result: Id;
      ghost var mid: Heap;
      won, result, mid := list.TryFlag(prev, del);
      QuietFixed(h, mid);
      // Alone, nobody else can have flagged the target or taken it away.
      AloneWins(h, list.heap, prev, del, won, result);
      list.HelpFlagged(result, del);
      list.heap := list.heap - {del};
    }

    /** The search of `list_delete`, for the key just below the one wanted. */
    method Locate(key: int) returns (prev: Id, del: Id, found: bool)
      requires Valid() && KEY_MIN < key < KEY_MAX
      modifies list`heap
      ensures list.heap == old(list.heap)
      ensures prev in list.heap && prev != TAIL && del in list.heap && list.heap[prev].succ.node == del
      ensures found <==> list.heap[del].key == key
      ensures if found then key in contents && prev != del else contents == contents - {key}
    {
      ghost var h := list.heap;
      assert NodeInv(h, TAIL);
      prev, del := list.SearchFrom(key - 1, HEAD);
      QuietFixed(h, list.heap);
      assert NodeInv(h, prev);
      found := list.heap[del].key == key;
      if found {
        assert NodeOk(h, Vals(), contents, pool.chain, pool.cells.Length, del);
      } else {
        GapMeansAbsent(h, prev, del, key);
      }
    }

    method Delete(key: int) returns (r: Answer)
      requires Valid() && KEY_MIN < key < KEY_MAX
      modifies this, list, pool, pool.cells, pool.faults, list.faults
      ensures Valid() && pool.cells == old(pool.cells)
      ensures r == if key in old(contents) then Present(old(contents)[key]) else Missing
      ensures contents == old(contents) - {key}
    {
      var prev, del, found := Locate(key);
      if !found {
        return Missing;
      }
      var val := DeleteBehind(prev, del);
      return Present(val);
    }

    /** The rest of `list_delete` once the node is found behind `prev`. */
    method DeleteBehind(prev: Id, del: Id) returns (val: seq<Byte>)
      requires Valid() && prev in list.heap && prev != TAIL && del in list.heap && prev != del
      requires list.heap[prev].succ.node == del && KEY_MIN < list.heap[del].key < KEY_MAX
      modifies this, list, pool, pool.cells, pool.faults, list.faults
      ensures Valid() && pool.cells == old(pool.cells)
      ensures old(list.heap[del].key) in old(contents) && val == old(contents)[old(list.heap[del].key)]
      ensures contents == old(contents) - {old(list.heap[del].key)}
    {
      ghost var h, chain := list.heap, pool.chain;
      assert NodeInv(h, HEAD) && NodeInv(h, TAIL);
      DeleteStands(h, Vals(), contents, chain, pool.cells.Length, prev, del);
      assert NodeOk(h, Vals(), contents, chain, pool.cells.Length, del);
      TakeOut(prev, del);
      val := FreeNode(del);
      contents := contents - {h[del].key};
    }

    /** `list_search` with a buffer to copy to. */
    method Search(key: int) returns (r: Answer)
      requires Valid() && KEY_MIN < key < KEY_MAX
      modifies list`heap
      ensures Valid() && list.heap == old(list.heap)
      ensures r == if key in contents then Present(contents[key]) else Missing
    {
      ghost var h := list.heap;
      var node := list.Find(key);
      QuietFixed(h, list.heap);
      if node == NULL {
        return Missing;
      }
      assert NodeOk(h, Vals(), contents, pool.chain, pool.cells.Length, node);
      return Present(ValueIn(pool.cells[node].data, valBytes));
    }

    method Update(key: int, val: seq<Byte>) returns (ok: bool)
      requires Valid() && KEY_MIN < key < KEY_MAX && |val| == valBytes
      modifies this, list`heap, pool.cells
      ensures Valid() && list.heap == old(list.heap) && pool.cells == old(pool.cells)
      ensures ok <==> key in old(contents)
      ensures contents == if ok then old(contents)[key := val] else old(contents)
    {
      ghost var h := list.heap;
      var node := list.Find(key);
      QuietFixed(h, list.heap);
      if node == NULL {
        return false;
      }
      assert NodeOk(h, Vals(), contents, pool.chain, pool.cells.Length, node);
      UpdateStands(h, Vals(), contents, pool.chain, pool.cells.Length, node, val);
      StoreValue(node, val);
      contents := contents[key := val];
      return true;
    }

    /** The last value of a node that has left the list, and its fragment back to the pool. */
    method FreeNode(node: Id) returns (val: seq<Byte>)
      requires pool.Valid() && pool.Owned(node)
      modifies pool, pool.cells, pool.faults
      ensures pool.Valid() && pool.cells == old(pool.cells) && pool.dataBytes == old(pool.dataBytes)
      ensures pool.chain == old(pool.chain) + [node] && Vals() == old(Vals())
      ensures node in Vals() && val == Vals()[node]
    {
      ghost var was := pool.cells[..];
      val := ValueIn(pool.cells[node].data, valBytes);
      pool.Put(node);
      SameValueMap(was, pool.cells[..], valBytes);
    }

    /** The copy of `list_update` into a node that is in use. */
    method StoreValue(node: Id, val: seq<Byte>)
      requires pool.Valid() && pool.Owned(node) && AT + |val| <= Space(pool.dataBytes) && |val| == valBytes
      modifies pool.cells
      ensures pool.Valid() && pool.cells == old(pool.cells) && Vals() == old(Vals())[node := val]
    {
      ghost var was := pool.cells[..];
      var cell := pool.cells[node].(data := Store(pool.cells[node].data, val));
      ThreadedFrame(was, pool.chain, node, cell);
      ValueStored(was, node, val);
      pool.cells[node] := cell;
      assert pool.cells[..] == was[node := cell];
      SameValueMap(was[node := Fragment(Link(0, NONE), cell.data)], pool.cells[..], valBytes);
    }
  }

  lemma UpdateStands(h: Heap, vals: map<Id, seq<Byte>>, contents: map<int, seq<Byte>>, chain: seq<int>, size: nat,
                     n: Id, val: seq<Byte>)
    requires Stands(h, vals, contents, chain, size) && n in h && n != HEAD && n != TAIL
    ensures Stands(h, vals[n := val], contents[h[n].key := val], chain, size) && h[n].key in contents
  {
    assert NodeOk(h, vals, contents, chain, size, n);
    assert contents[h[n].key := val].Keys == contents.Keys;
    forall m | m in h
      ensures NodeOk(h, vals[n := val], contents[h[n].key := val], chain, size, m)
    {
      assert NodeOk(h, vals, contents, chain, size, m) && QuietAt(h, m) && QuietAt(h, n);
      if h[m].key == h[n].key {
        UnmarkedKeysDistinct(h, m, n);
      }
    }
  }

  datatype ListCreated = NoList | NewList(list: SerialList)

  /** `list_create`: a list of `capacity` keys has two fragments more, for its sentinels. */
  method CreateList(valBytes: nat, capacity: nat, faults: Faults, granted: bool) returns (r: ListCreated)
    modifies faults
    ensures r.NoList? <==> valBytes == 0 || capacity == 0 || !granted
    ensures r.NewList? ==>
              && fresh(r.list) && fresh(r.list.list) && fresh(r.list.pool) && fresh(r.list.pool.cells)
              && r.list.Valid() && r.list.contents == map[] && r.list.Room() == capacity
              && r.list.valBytes == valBytes && 32 + valBytes <= AlignedDataBytes(r.list.pool.dataBytes)
  {
    if valBytes == 0 || capacity == 0 {
      return NoList;
    }
    var made := Create(NODE_BYTES + valBytes, capacity + 2, faults, granted);
    if made.Refused? {
      return NoList;
    }
    var nodes := new AloneList(faults);
    var made' := new SerialList(made.pool, nodes, valBytes);
    return NewList(made');
  }
}
