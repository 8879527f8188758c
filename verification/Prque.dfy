/** The block-based stack of common/prque/sstack.go, container/heap over it, and
    the priority queue of common/prque/prque.go, refining HeapSpec. */
module PriorityQueue {
  import opened Common
  import opened HeapSpec

  const BLOCK_SIZE := 4096

  /** Where an application keeps the index last reported for each value. */
  class Registry {
    var last: map<Value, int>

    constructor ()
      ensures last == map[]
    {
      last := map[];
    }
  }

  /** No callback, one that passes the index on, or one of the two of a lazy
      queue, which interleave two index spaces. */
  datatype Callback = Silent | Direct | Even | Odd

  function Report(cb: Callback, index: int): int
  {
    match cb
    case Silent => -1
    case Direct => index
    case Even => if index == -1 then -1 else index + index
    case Odd => index + index + 1
  }

  function Reported(last: map<Value, int>, cb: Callback, v: Value, index: int): map<Value, int>
  {
    if cb.Silent? then last else last[v := Report(cb, index)]
  }

  /** The last index reported for every item is its position. */
  ghost predicate Indexed(last: map<Value, int>, cb: Callback, s: seq<Item>)
  {
    cb.Silent? ||
    forall p :: 0 <= p < |s| ==> s[p].value in last && last[s[p].value] == Report(cb, p)
  }

  ghost function ValuesOf(s: seq<Item>): set<Value>
  {
    set p | 0 <= p < |s| :: s[p].value
  }

  lemma ValuesOfParts(s: seq<Item>, r: seq<Item>, x: Item)
    requires multiset(s) == multiset(r) + multiset{x}
    ensures ValuesOf(s) == ValuesOf(r) + {x.value}
  {
    forall v | v in ValuesOf(s)
      ensures v in ValuesOf(r) + {x.value}
    {
      var p :| 0 <= p < |s| && s[p].value == v;
      assert s[p] in multiset(s);
    }
    forall v | v in ValuesOf(r) + {x.value}
      ensures v in ValuesOf(s)
    {
      if v in ValuesOf(r) {
        var p :| 0 <= p < |r| && r[p].value == v;
        assert r[p] in multiset(r);
        assert r[p] in multiset(s);
      } else {
        assert x in multiset(s);
      }
    }
  }

  /** Nothing was reported for other values, and no report is forgotten. */
  ghost predicate OthersKept(last: map<Value, int>, last': map<Value, int>, vs: set<Value>)
  {
    last.Keys <= last'.Keys &&
    forall v :: v !in vs ==> (v in last <==> v in last') && (v in last && v in last' ==> last[v] == last'[v])
  }

  lemma SwapReports(last: map<Value, int>, cb: Callback, s: seq<Item>, i: nat, j: nat)
    requires i < |s| && j < |s|
    ensures ValuesOf(Swapped(s, i, j)) == ValuesOf(s)
    ensures var last' := Reported(Reported(last, cb, s[j].value, i), cb, s[i].value, j);
            && OthersKept(last, last', ValuesOf(s))
            && (Indexed(last, cb, s) ==> Indexed(last', cb, Swapped(s, i, j)))
  {
    var t := Swapped(s, i, j);
    forall v | v in ValuesOf(s)
      ensures v in ValuesOf(t)
    {
      var p :| 0 <= p < |s| && s[p].value == v;
      assert t[if p == i then j else if p == j then i else p] == s[p];
    }
  }

  lemma PushReports(last: map<Value, int>, cb: Callback, s: seq<Item>, x: Item)
    ensures ValuesOf(s + [x]) == ValuesOf(s) + {x.value}
    ensures var last' := Reported(last, cb, x.value, |s|);
            && OthersKept(last, last', {x.value})
            && (Indexed(last, cb, s) && x.value !in ValuesOf(s) ==> Indexed(last', cb, s + [x]))
  {
    var t := s + [x];
    forall v | v in ValuesOf(s) + {x.value}
      ensures v in ValuesOf(t)
    {
      if v in ValuesOf(s) {
        var p :| 0 <= p < |s| && s[p].value == v;
        assert t[p] == s[p];
      } else {
        assert t[|s|] == x;
      }
    }
  }

  lemma PopReports(last: map<Value, int>, cb: Callback, s: seq<Item>, x: Item)
    ensures ValuesOf(s) <= ValuesOf(s + [x]) && x.value in ValuesOf(s + [x])
    ensures var last' := Reported(last, cb, x.value, -1);
            && OthersKept(last, last', {x.value})
            && (Indexed(last, cb, s + [x]) ==> Indexed(last', cb, s))
            && (Indexed(last, cb, s + [x]) && !cb.Silent? ==> last'[x.value] == -1 && x.value !in ValuesOf(s))
  {
    var t := s + [x];
    assert t[|s|] == x;
    forall p | 0 <= p < |s|
      ensures t[p] == s[p] && (Indexed(last, cb, t) && !cb.Silent? ==> s[p].value != x.value)
    {
    }
  }

  // ----- cells of the blocks -----

  type Blocks = bs: seq<seq<Option<Item>>> | forall k :: 0 <= k < |bs| ==> |bs[k]| == BLOCK_SIZE

  function Cell(bs: Blocks, i: nat): Option<Item>
    requires i < BLOCK_SIZE * |bs|
  {
    bs[i / BLOCK_SIZE][i % BLOCK_SIZE]
  }

  function EmptyBlock(): (b: seq<Option<Item>>)
    ensures |b| == BLOCK_SIZE
  {
    seq(BLOCK_SIZE, _ => None)
  }

  function WithCell(bs: Blocks, block: nat, offset: nat, x: Option<Item>): (r: Blocks)
    requires block < |bs| && offset < BLOCK_SIZE
    ensures |r| == |bs|
  {
    bs[block := bs[block][offset := x]]
  }

  lemma CellsWritten(bs: Blocks, block: nat, offset: nat, x: Option<Item>)
    requires block < |bs| && offset < BLOCK_SIZE
    ensures forall i: nat :: i < BLOCK_SIZE * |bs| ==>
              Cell(WithCell(bs, block, offset, x), i) ==
              if i == BLOCK_SIZE * block + offset then x else Cell(bs, i)
  {
  }

  /** The first n cells hold items. */
  ghost predicate Filled(bs: Blocks, n: nat)
  {
    n <= BLOCK_SIZE * |bs| && forall i: nat :: i < n ==> Cell(bs, i).Some?
  }

  /** The flat sequence that the first n cells stand for. */
  ghost function FlatOf(bs: Blocks, n: nat): (s: seq<Item>)
    requires Filled(bs, n)
    ensures |s| == n
    ensures forall i: nat :: i < n ==> s[i] == Cell(bs, i).value
  {
    seq(n, i requires 0 <= i < n => Cell(bs, i).value)
  }

  lemma BlockAdded(bs: Blocks, n: nat, b: seq<Option<Item>>)
    requires Filled(bs, n) && |b| == BLOCK_SIZE
    ensures Filled(bs + [b], n) && FlatOf(bs + [b], n) == FlatOf(bs, n)
  {
    assert forall i: nat :: i < BLOCK_SIZE * |bs| ==> Cell(bs + [b], i) == Cell(bs, i);
  }

  lemma PushCell(bs: Blocks, n: nat, block: nat, offset: nat, x: Item)
    requires Filled(bs, n) && block < |bs| && offset < BLOCK_SIZE && n == BLOCK_SIZE * block + offset
    ensures var r := WithCell(bs, block, offset, Some(x)); Filled(r, n + 1) && FlatOf(r, n + 1) == FlatOf(bs, n) + [x]
  {
    CellsWritten(bs, block, offset, Some(x));
  }

  lemma PopCell(bs: Blocks, n: nat, block: nat, offset: nat)
    requires Filled(bs, n + 1) && block < |bs| && offset < BLOCK_SIZE && n == BLOCK_SIZE * block + offset
    ensures bs[block][offset].Some?
    ensures var r := WithCell(bs, block, offset, None);
            Filled(r, n) && FlatOf(bs, n + 1) == FlatOf(r, n) + [bs[block][offset].value]
  {
    assert Cell(bs, n) == bs[block][offset];
    CellsWritten(bs, block, offset, None);
  }

  lemma SwapCells(bs: Blocks, n: nat, i: nat, j: nat)
    requires Filled(bs, n) && i < n && j < n
    ensures var a := WithCell(bs, i / BLOCK_SIZE, i % BLOCK_SIZE, Cell(bs, j));
            var r := WithCell(a, j / BLOCK_SIZE, j % BLOCK_SIZE, Cell(bs, i));
            Filled(r, n) && FlatOf(r, n) == Swapped(FlatOf(bs, n), i, j)
  {
    var a := WithCell(bs, i / BLOCK_SIZE, i % BLOCK_SIZE, Cell(bs, j));
    CellsWritten(bs, i / BLOCK_SIZE, i % BLOCK_SIZE, Cell(bs, j));
    CellsWritten(a, j / BLOCK_SIZE, j % BLOCK_SIZE, Cell(bs, i));
  }

  class SStack {
    const order: Order
    const callback: Callback
    const registry: Registry
    var size: nat
    var capacity: nat
    var offset: int
    /** The blocks, and the number of the active one. */
    var blocks: Blocks
    var active: nat

    ghost predicate Valid()
      reads this
    {
      && |blocks| > 0 && capacity == BLOCK_SIZE * |blocks| && size <= capacity
      && active < |blocks| && 0 <= offset <= BLOCK_SIZE && size == BLOCK_SIZE * active + offset
      && Filled(blocks, size)
    }

    /** The flat sequence the blocks stand for. */
    ghost function Flat(): (s: seq<Item>)
      requires Valid()
      reads this
      ensures |s| == size
    {
      FlatOf(blocks, size)
    }

    constructor (order: Order, callback: Callback, registry: Registry)
      ensures Valid() && Flat() == []
      ensures this.order == order && this.callback == callback && this.registry == registry
    {
      this.order, this.callback, this.registry := order, callback, registry;
      size, capacity, offset, active := 0, BLOCK_SIZE, 0, 0;
      blocks := [EmptyBlock()];
    }

    method Push(x: Item)
      requires Valid()
      modifies this, registry
      ensures Valid() && Flat() == old(Flat()) + [x]
      ensures registry.last == Reported(old(registry.last), callback, x.value, old(size))
    {
      if size == capacity {
        BlockAdded(blocks, size, EmptyBlock());
        blocks := blocks + [EmptyBlock()];
        active := |blocks| - 1;
        capacity := capacity + BLOCK_SIZE;
        offset := 0;
      } else if offset == BLOCK_SIZE {
        active := size / BLOCK_SIZE;
        offset := 0;
      }
      if !callback.Silent? {
        registry.last := registry.last[x.value := Report(callback, size)];
      }
      PushCell(blocks, size, active, offset, x);
      blocks := WithCell(blocks, active, offset, Some(x));
      offset := offset + 1;
      size := size + 1;
    }

    /** Pops the last item; the source panics on an empty stack. */
    method Pop() returns (res: Item)
      requires Valid() && size > 0
      modifies this, registry
      ensures Valid() && size == old(size) - 1 && old(Flat()) == Flat() + [res]
      ensures registry.last == Reported(old(registry.last), callback, res.value, -1)
    {
      size := size - 1;
      offset := offset - 1;
      if offset < 0 {
        offset := BLOCK_SIZE - 1;
        active := size / BLOCK_SIZE;
      }
      PopCell(blocks, size, active, offset);
      res := blocks[active][offset].value;
      blocks := WithCell(blocks, active, offset, None);
      if !callback.Silent? {
        registry.last := registry.last[res.value := Report(callback, -1)];
      }
    }

    predicate Less(i: nat, j: nat)
      requires Valid() && i < size && j < size
      reads this
      ensures Less(i, j) == Before(order, Flat()[i], Flat()[j])
    {
      Before(order, Cell(blocks, i).value, Cell(blocks, j).value)
    }

    /** The child of i that comes first. */
    function FirstBelow(i: nat, n: nat): (j: nat)
      requires Valid() && 2 * i + 1 < n <= size
      reads this
      ensures j == FirstChild(order, Flat(), i, n)
    {
      var j1, j2 := 2 * i + 1, 2 * i + 2;
      if j2 < n && Less(j2, j1) then j2 else j1
    }

    method Swap(i: nat, j: nat)
      requires Valid() && i < size && j < size
      modifies this`blocks, registry
      ensures Valid() && Flat() == Swapped(old(Flat()), i, j)
      ensures var s := old(Flat());
              registry.last ==
              Reported(Reported(old(registry.last), callback, s[j].value, i), callback, s[i].value, j)
    {
      var ib, io, jb, jo := i / BLOCK_SIZE, i % BLOCK_SIZE, j / BLOCK_SIZE, j % BLOCK_SIZE;
      var a, b := blocks[jb][jo], blocks[ib][io];
      assert a == Cell(blocks, j) && b == Cell(blocks, i);
      if !callback.Silent? {
        registry.last := registry.last[a.value.value := Report(callback, i)];
        registry.last := registry.last[b.value.value := Report(callback, j)];
      }
      SwapCells(blocks, size, i, j);
      blocks := WithCell(blocks, ib, io, a);
      blocks := WithCell(blocks, jb, jo, b);
    }
  }

  // ----- container/heap -----

  /** What an operation on items s giving s' keeps of the reported indices. */
  ghost predicate Kept(last: map<Value, int>, last': map<Value, int>, cb: Callback,
                       s: seq<Item>, s': seq<Item>, vs: set<Value>)
  {
    && OthersKept(last, last', vs)
    && (Indexed(last, cb, s) ==> Indexed(last', cb, s'))
  }

  lemma KeptSwap(last0: map<Value, int>, last: map<Value, int>, cb: Callback, s0: seq<Item>, s: seq<Item>,
                 i: nat, j: nat)
    requires i < |s| && j < |s| && ValuesOf(s) == ValuesOf(s0) && Kept(last0, last, cb, s0, s, ValuesOf(s0))
    ensures ValuesOf(Swapped(s, i, j)) == ValuesOf(s0)
    ensures var last' := Reported(Reported(last, cb, s[j].value, i), cb, s[i].value, j);
            Kept(last0, last', cb, s0, Swapped(s, i, j), ValuesOf(s0))
  {
    SwapReports(last, cb, s, i, j);
  }

  lemma KeptTrans(last0: map<Value, int>, last1: map<Value, int>, last2: map<Value, int>, cb: Callback,
                  s0: seq<Item>, s1: seq<Item>, s2: seq<Item>)
    requires ValuesOf(s1) == ValuesOf(s0)
    requires Kept(last0, last1, cb, s0, s1, ValuesOf(s0)) && Kept(last1, last2, cb, s1, s2, ValuesOf(s1))
    ensures Kept(last0, last2, cb, s0, s2, ValuesOf(s0))
  {
  }

  method HeapUp(h: SStack, j0: nat)
    requires h.Valid() && j0 < h.size
    modifies h`blocks, h.registry
    ensures h.Valid() && h.Flat() == Up(h.order, old(h.Flat()), j0)
    ensures Kept(old(h.registry.last), h.registry.last, h.callback, old(h.Flat()), h.Flat(), ValuesOf(old(h.Flat())))
    ensures ValuesOf(h.Flat()) == ValuesOf(old(h.Flat()))
  {
    var j: nat := j0;
    ghost var s0, last0 := h.Flat(), h.registry.last;
    while true
      invariant h.Valid() && j < h.size && h.size == old(h.size)
      invariant Up(h.order, h.Flat(), j) == Up(h.order, s0, j0)
      invariant Kept(last0, h.registry.last, h.callback, s0, h.Flat(), ValuesOf(s0))
      invariant ValuesOf(h.Flat()) == ValuesOf(s0)
      decreases j
    {
      var i := Parent(j);
      if i == j || !h.Less(j, i) {
        break;
      }
      KeptSwap(last0, h.registry.last, h.callback, s0, h.Flat(), i, j);
      h.Swap(i, j);
      j := i;
    }
  }

  method HeapDown(h: SStack, i0: nat, n: nat) returns (moved: bool)
    requires h.Valid() && n <= h.size
    modifies h`blocks, h.registry
    ensures h.Valid() && h.Flat() == Down(h.order, old(h.Flat()), i0, n).0
    ensures moved == (Down(h.order, old(h.Flat()), i0, n).1 > i0)
    ensures Kept(old(h.registry.last), h.registry.last, h.callback, old(h.Flat()), h.Flat(), ValuesOf(old(h.Flat())))
    ensures ValuesOf(h.Flat()) == ValuesOf(old(h.Flat()))
  {
    var i: nat := i0;
    ghost var s0, last0 := h.Flat(), h.registry.last;
    ghost var goal := Down(h.order, s0, i0, n);
    while true
      invariant h.Valid() && i0 <= i && h.size == old(h.size)
      invariant Down(h.order, h.Flat(), i, n) == goal
      invariant Kept(last0, h.registry.last, h.callback, s0, h.Flat(), ValuesOf(s0))
      invariant ValuesOf(h.Flat()) == ValuesOf(s0)
      decreases n - i
    {
      if 2 * i + 1 >= n {
        break;
      }
      var j := h.FirstBelow(i, n);
      if !h.Less(j, i) {
        break;
      }
      KeptSwap(last0, h.registry.last, h.callback, s0, h.Flat(), i, j);
      h.Swap(i, j);
      i := j;
    }
    return i > i0;
  }

  method HeapPush(h: SStack, x: Item)
    requires h.Valid()
    modifies h, h.registry
    ensures h.Valid() && h.Flat() == Pushed(h.order, old(h.Flat()), x)
    ensures OthersKept(old(h.registry.last), h.registry.last, ValuesOf(old(h.Flat())) + {x.value})
    ensures Indexed(old(h.registry.last), h.callback, old(h.Flat())) && x.value !in ValuesOf(old(h.Flat())) ==>
              Indexed(h.registry.last, h.callback, h.Flat())
    ensures ValuesOf(h.Flat()) == ValuesOf(old(h.Flat())) + {x.value}
  {
    PushReports(h.registry.last, h.callback, h.Flat(), x);
    h.Push(x);
    HeapUp(h, h.size - 1);
  }

  /** The last step of Pop and Remove: the last item leaves the stack. */
  method DropLast(h: SStack, ghost last0: map<Value, int>, ghost s0: seq<Item>) returns (x: Item)
    requires h.Valid() && h.size > 0
    modifies h, h.registry
    ensures h.Valid() && h.Flat() == old(h.Flat())[..old(h.size) - 1] && x == old(h.Flat())[old(h.size) - 1]
    ensures ValuesOf(old(h.Flat())) == ValuesOf(s0)
            && Kept(last0, old(h.registry.last), h.callback, s0, old(h.Flat()), ValuesOf(s0)) ==>
              Leaves(last0, h.registry.last, h.callback, s0, h.Flat(), x)
  {
    ghost var last := h.registry.last;
    x := h.Pop();
    PopReports(last, h.callback, h.Flat(), x);
  }

  /** An item leaves: its last index is -1, the others' stay right. */
  ghost predicate Leaves(last: map<Value, int>, last': map<Value, int>, cb: Callback,
                         s: seq<Item>, s': seq<Item>, x: Item)
  {
    && Kept(last, last', cb, s, s', ValuesOf(s))
    && ValuesOf(s') <= ValuesOf(s) && x.value in ValuesOf(s)
    && (Indexed(last, cb, s) && !cb.Silent? ==>
          x.value in last' && last'[x.value] == -1 && x.value !in ValuesOf(s'))
  }

  /** Pop of container/heap; the source panics on an empty heap. */
  method HeapPop(h: SStack) returns (x: Item)
    requires h.Valid() && h.size > 0
    modifies h, h.registry
    ensures h.Valid() && (h.Flat(), x) == Popped(h.order, old(h.Flat()))
    ensures Leaves(old(h.registry.last), h.registry.last, h.callback, old(h.Flat()), h.Flat(), x)
  {
    var n := h.size - 1;
    ghost var s0, last0 := h.Flat(), h.registry.last;
    KeptSwap(last0, last0, h.callback, s0, s0, 0, n);
    h.Swap(0, n);
    var _ := HeapDown(h, 0, n);
    x := DropLast(h, last0, s0);
  }

  /** Down, and up if nothing moved. */
  method HeapFix(h: SStack, i: nat, n: nat)
    requires h.Valid() && i < n <= h.size
    modifies h`blocks, h.registry
    ensures h.Valid() && h.Flat() == Fixed(h.order, old(h.Flat()), i, n)
    ensures Kept(old(h.registry.last), h.registry.last, h.callback, old(h.Flat()), h.Flat(), ValuesOf(old(h.Flat())))
    ensures ValuesOf(h.Flat()) == ValuesOf(old(h.Flat()))
  {
    ghost var s0 := h.Flat();
    var moved := HeapDown(h, i, n);
    if !moved {
      HeapUp(h, i);
    }
  }

  /** The item at i goes to the end, and the rest are put in order again. */
  method SwapOut(h: SStack, i: nat, n: nat)
    requires h.Valid() && i < n == h.size - 1
    modifies h`blocks, h.registry
    ensures h.Valid() && h.Flat() == Fixed(h.order, Swapped(old(h.Flat()), i, n), i, n)
    ensures Kept(old(h.registry.last), h.registry.last, h.callback, old(h.Flat()), h.Flat(), ValuesOf(old(h.Flat())))
    ensures ValuesOf(h.Flat()) == ValuesOf(old(h.Flat()))
  {
    ghost var s0, last0 := h.Flat(), h.registry.last;
    KeptSwap(last0, last0, h.callback, s0, s0, i, n);
    h.Swap(i, n);
    ghost var s1, last1 := h.Flat(), h.registry.last;
    HeapFix(h, i, n);
    KeptTrans(last0, last1, h.registry.last, h.callback, s0, s1, h.Flat());
  }

  /** Remove of container/heap; the index must be one of the heap's. */
  method HeapRemove(h: SStack, i: nat) returns (x: Item)
    requires h.Valid() && i < h.size
    modifies h, h.registry
    ensures h.Valid() && (h.Flat(), x) == Removed(h.order, old(h.Flat()), i)
    ensures Leaves(old(h.registry.last), h.registry.last, h.callback, old(h.Flat()), h.Flat(), x)
  {
    var n := h.size - 1;
    if n != i {
      x := RemoveInner(h, i, n);
    } else {
      ghost var s0, last0 := h.Flat(), h.registry.last;
      x := DropLast(h, last0, s0);
    }
  }

  lemma RemovedInner(ord: Order, s: seq<Item>, i: nat, n: nat, f: seq<Item>, r: seq<Item>, x: Item)
    requires i < n == |s| - 1 == |f| - 1
    ensures f == Fixed(ord, Swapped(s, i, n), i, n) && r == f[..n] && x == f[n] ==> (r, x) == Removed(ord, s, i)
  {
  }

  method RemoveInner(h: SStack, i: nat, n: nat) returns (x: Item)
    requires h.Valid() && i < n == h.size - 1
    modifies h, h.registry
    ensures h.Valid() && (h.Flat(), x) == Removed(h.order, old(h.Flat()), i)
    ensures Leaves(old(h.registry.last), h.registry.last, h.callback, old(h.Flat()), h.Flat(), x)
  {
    ghost var s0, last0 := h.Flat(), h.registry.last;
    SwapOut(h, i, n);
    ghost var f := h.Flat();
    x := DropLast(h, last0, s0);
    RemovedInner(h.order, s0, i, n, f, h.Flat(), x);
  }

  // ----- Prque -----

  /** The last index reported for a value is its position while it is queued,
      and -1 otherwise. */
  ghost predicate Tracks(last: map<Value, int>, cb: Callback, s: seq<Item>)
  {
    Indexed(last, cb, s) && (cb.Silent? || forall v :: v in last && v !in ValuesOf(s) ==> last[v] == -1)
  }

  /** With a callback that passes indices on, the last one reported for a value is
      where it stands, and -1 if it does not. */
  lemma TracksPlaces(last: map<Value, int>, s: seq<Item>, v: Value)
    requires Tracks(last, Direct, s)
    ensures v in ValuesOf(s) ==> v in last && 0 <= last[v] < |s| && s[last[v]].value == v
    ensures v in last && v !in ValuesOf(s) ==> last[v] == -1
  {
    if v in ValuesOf(s) {
      var p :| 0 <= p < |s| && s[p].value == v;
      assert last[s[p].value] == p;
    }
  }

  lemma TracksPush(last: map<Value, int>, last': map<Value, int>, cb: Callback, s: seq<Item>, s': seq<Item>, v: Value)
    requires Tracks(last, cb, s) && Indexed(last', cb, s') && ValuesOf(s') == ValuesOf(s) + {v}
    requires OthersKept(last, last', ValuesOf(s) + {v})
    ensures Tracks(last', cb, s')
  {
  }

  lemma TracksLeave(last: map<Value, int>, last': map<Value, int>, cb: Callback, s: seq<Item>, s': seq<Item>, x: Item)
    requires Tracks(last, cb, s) && Leaves(last, last', cb, s, s', x) && multiset(s) == multiset(s') + multiset{x}
    ensures Tracks(last', cb, s')
  {
    ValuesOfParts(s, s', x);
  }

  class Prque {
    const cont: SStack

    /** A heap in its order. */
    ghost predicate Valid()
      reads this, cont
    {
      cont.Valid() && IsHeaped(cont.order, cont.Flat())
    }

    /** Every reported index is right. */
    ghost predicate IsTracked()
      reads this, cont, cont.registry
      requires cont.Valid()
    {
      Tracks(cont.registry.last, cont.callback, cont.Flat())
    }

    constructor New(callback: Callback, registry: Registry)
      ensures fresh(cont) && cont.order == Plain && cont.callback == callback && cont.registry == registry
      ensures Valid() && cont.Flat() == []
    {
      cont := new SStack(Plain, callback, registry);
      new;
      assert IsHeap(Plain, 0, cont.Flat());
    }

    constructor NewWrapAround(callback: Callback, registry: Registry)
      ensures fresh(cont) && cont.order == WrapAround && cont.callback == callback && cont.registry == registry
      ensures Valid() && cont.Flat() == []
    {
      cont := new SStack(WrapAround, callback, registry);
      new;
      assert IsHeap(WrapAround, 0, cont.Flat());
    }

    method Push(data: Value, priority: int)
      requires Valid() && Fits(cont.order, cont.Flat() + [Item(data, priority)])
      modifies cont, cont.registry
      ensures Valid() && cont.Flat() == Pushed(cont.order, old(cont.Flat()), Item(data, priority))
      ensures multiset(cont.Flat()) == multiset(old(cont.Flat())) + multiset{Item(data, priority)}
      ensures OthersKept(old(cont.registry.last), cont.registry.last, ValuesOf(old(cont.Flat())) + {data})
      ensures old(IsTracked()) && data !in ValuesOf(old(cont.Flat())) ==> IsTracked()
    {
      ghost var last, s := cont.registry.last, cont.Flat();
      PushKeeps(cont.order, s, Item(data, priority));
      HeapPush(cont, Item(data, priority));
      if Tracks(last, cont.callback, s) && data !in ValuesOf(s) {
        TracksPush(last, cont.registry.last, cont.callback, s, cont.Flat(), data);
      }
    }

    /** The source reads through a nil item when the queue is empty. */
    method Peek() returns (data: Value, priority: int)
      requires Valid() && cont.size > 0
      ensures Item(data, priority) == Popped(cont.order, cont.Flat()).1
      ensures forall i :: 0 <= i < cont.size ==> !Before(cont.order, cont.Flat()[i], Item(data, priority))
    {
      assert Cell(cont.blocks, 0) == cont.blocks[0][0];
      var item := cont.blocks[0][0].value;
      PopTakesFirst(cont.order, cont.Flat());
      return item.value, item.priority;
    }

    /** Pop hands out an item that no other comes before, and reports -1 for it. */
    method Pop() returns (data: Value, priority: int)
      requires Valid() && cont.size > 0
      modifies cont, cont.registry
      ensures Valid() && (cont.Flat(), Item(data, priority)) == Popped(cont.order, old(cont.Flat()))
      ensures multiset(old(cont.Flat())) == multiset(cont.Flat()) + multiset{Item(data, priority)}
      ensures forall i :: 0 <= i < |old(cont.Flat())| ==> !Before(cont.order, old(cont.Flat())[i], Item(data, priority))
      ensures Leaves(old(cont.registry.last), cont.registry.last, cont.callback, old(cont.Flat()), cont.Flat(),
                     Item(data, priority))
      ensures old(IsTracked()) ==> IsTracked()
    {
      ghost var last, s := cont.registry.last, cont.Flat();
      PopTakesFirst(cont.order, s);
      var item := HeapPop(cont);
      if Tracks(last, cont.callback, s) {
        TracksLeave(last, cont.registry.last, cont.callback, s, cont.Flat(), item);
      }
      return item.value, item.priority;
    }

    /** Remove takes out the very item the index belongs to; a negative index
        takes out nothing. */
    method Remove(i: int) returns (item: Option<Item>)
      requires Valid() && i < cont.size
      modifies cont, cont.registry
      ensures Valid() && (old(IsTracked()) ==> IsTracked())
      ensures i < 0 ==> item == None && cont.Flat() == old(cont.Flat()) && cont.registry.last == old(cont.registry.last)
      ensures i >= 0 ==>
                && (cont.Flat(), old(cont.Flat())[i]) == Removed(cont.order, old(cont.Flat()), i)
                && item == Some(old(cont.Flat())[i])
                && multiset(old(cont.Flat())) == multiset(cont.Flat()) + multiset{item.value}
                && Leaves(old(cont.registry.last), cont.registry.last, cont.callback, old(cont.Flat()), cont.Flat(),
                          item.value)
    {
      if i < 0 {
        return None;
      }
      ghost var last, s := cont.registry.last, cont.Flat();
      RemoveTakes(cont.order, s, i);
      var x := HeapRemove(cont, i);
      if Tracks(last, cont.callback, s) {
        TracksLeave(last, cont.registry.last, cont.callback, s, cont.Flat(), x);
      }
      return Some(x);
    }

    /** Any run of operations: the blocks hold what the run leaves, the items
        come out as the run says, and the reported indices are right throughout. */
    method Perform(ops: seq<Op>) returns (ghost out: multiset<Item>)
      requires Valid() && IsRun(cont.order, cont.Flat(), ops)
      modifies cont, cont.registry
      ensures Valid() && (cont.Flat(), out) == RunItems(cont.order, old(cont.Flat()), ops)
      ensures old(IsTracked()) && PushesAbsent(cont.order, old(cont.Flat()), ops) ==> IsTracked()
      ensures old(cont.registry.last.Keys) <= cont.registry.last.Keys
      decreases |ops|
    {
      out := multiset{};
      if ops == [] {
        return;
      }
      ghost var (t, now) := Exec(cont.order, cont.Flat(), ops[0]);
      match ops[0] {
        case PushOp(x) => Push(x.value, x.priority);
        case PopOp => var _, _ := Pop();
        case RemoveOp(i) => var _ := Remove(i);
      }
      assert cont.Flat() == t;
      out := Perform(ops[1..]);
      out := now + out;
    }
  }

  /** Every value pushed is not queued at the time. */
  ghost predicate PushesAbsent(ord: Order, s: seq<Item>, ops: seq<Op>)
    requires IsRun(ord, s, ops)
    decreases |ops|
  {
    ops == [] ||
    (&& (ops[0].PushOp? ==> ops[0].x.value !in ValuesOf(s))
     && PushesAbsent(ord, Exec(ord, s, ops[0]).0, ops[1..]))
  }
}
